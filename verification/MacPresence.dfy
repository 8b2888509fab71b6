/** Whether the Mac worker is awake: a debounced fold over probe results. */
module MacPresence {

  datatype State = State(lastSeen: int, reachableSince: int, consecutiveFailures: int, lastProbe: int, reachable: bool)

  const FRESH := State(0, 0, 0, 0, false)

  /** The persisted state: nothing, something that does not decode, or decoded fields. */
  datatype File = Empty | Garbage | Decoded(state: State)

  predicate Sound(s: State) {
    && s.lastSeen >= 0 && s.reachableSince >= 0 && s.lastProbe >= 0 && s.consecutiveFailures >= 0
    && s.reachable == (s.reachableSince > 0)
  }

  function LoadState(f: File): (r: (State, bool))
    ensures Sound(r.0)
    ensures !r.1 ==> r.0 == FRESH
  {
    match f
    case Empty => (FRESH, true)
    case Garbage => (FRESH, false)
    case Decoded(s) => if Sound(s) then (s, true) else (FRESH, false)
  }

  function Effective(threshold: int): int { if threshold > 1 then threshold else 1 }

  function Decide(prev: State, present: bool, now: int, threshold: int): State {
    var s := prev.(lastProbe := now);
    if present then
      var seen := s.(consecutiveFailures := 0, lastSeen := now);
      if seen.reachable then seen else seen.(reachable := true, reachableSince := now)
    else
      var failed := s.(consecutiveFailures := s.consecutiveFailures + 1);
      if failed.consecutiveFailures >= Effective(threshold) then failed.(reachable := false, reachableSince := 0) else failed
  }

  datatype Dial = Connected | Refused | TimedOut

  /** The host answers when some target accepts or refuses the connection. */
  method Probe(targets: seq<string>, dial: string -> Dial) returns (present: bool)
    ensures present <==> exists i :: 0 <= i < |targets| && dial(targets[i]) != TimedOut
  {
    for i := 0 to |targets|
      invariant forall k :: 0 <= k < i ==> dial(targets[k]) == TimedOut
    {
      var result := dial(targets[i]);
      if result == Connected { return true; }
      if result == Refused { return true; }
    }
    return false;
  }

  // ---------- every history ----------

  datatype Reading = Reading(present: bool, now: int)

  function Fold(h: seq<Reading>, threshold: int): State {
    if h == [] then FRESH else
      Decide(Fold(h[..|h| - 1], threshold), h[|h| - 1].present, h[|h| - 1].now, threshold)
  }

  /** The number of failures at the end of a history. */
  function Trailing(h: seq<Reading>): nat {
    if h == [] || h[|h| - 1].present then 0 else 1 + Trailing(h[..|h| - 1])
  }

  predicate AnySuccess(h: seq<Reading>) { exists i :: 0 <= i < |h| && h[i].present }

  /** No probe succeeds from `a` up to `f`, and before `a` the Mac counted as away. */
  ghost predicate AwayUntil(h: seq<Reading>, a: int, f: int, k: int) {
    && 0 <= a <= f <= |h| && (a == 0 || Trailing(h[..a]) >= k)
    && forall i :: a <= i < f ==> !h[i].present
  }

  /** `f` is the first success after the last run of `k` failures. */
  ghost predicate StreakStart(h: seq<Reading>, f: int, k: int) {
    && 0 <= f < |h| && h[f].present
    && (exists a :: AwayUntil(h, a, f, k))
    && forall b :: f < b <= |h| ==> Trailing(h[..b]) < k
  }

  ghost predicate Meaning(h: seq<Reading>, s: State, k: int) {
    && s.consecutiveFailures == Trailing(h)
    && (s.reachable <==> AnySuccess(h) && Trailing(h) < k)
    && (s.reachable ==> exists f :: StreakStart(h, f, k) && s.reachableSince == h[f].now)
    && (!s.reachable ==> s.reachableSince == 0)
    && (!s.reachable ==> exists a :: AwayUntil(h, a, |h|, k))
  }

  lemma PrefixOf(h: seq<Reading>, b: int)
    requires h != [] && 0 <= b < |h|
    ensures h[..|h| - 1][..b] == h[..b]
  {}

  lemma AwayExtends(h: seq<Reading>, a: int, f: int, k: int)
    requires h != [] && AwayUntil(h[..|h| - 1], a, f, k)
    ensures AwayUntil(h, a, f, k)
  {
    PrefixOf(h, a);
  }

  lemma StreakExtends(h: seq<Reading>, f: int, k: int)
    requires h != [] && StreakStart(h[..|h| - 1], f, k) && Trailing(h) < k
    ensures StreakStart(h, f, k)
  {
    var a :| AwayUntil(h[..|h| - 1], a, f, k);
    AwayExtends(h, a, f, k);
    forall b | f < b <= |h| ensures Trailing(h[..b]) < k {
      if b < |h| { PrefixOf(h, b); } else { assert h[..b] == h; }
    }
  }

  lemma SuccessLess(h: seq<Reading>)
    requires h != []
    ensures AnySuccess(h) <==> AnySuccess(h[..|h| - 1]) || h[|h| - 1].present
  {
    var less := h[..|h| - 1];
    assert forall i :: 0 <= i < |less| ==> less[i] == h[i];
  }

  lemma StepMeaning(h: seq<Reading>, s: State, threshold: int)
    requires h != [] && Meaning(h[..|h| - 1], s, Effective(threshold))
    ensures Meaning(h, Decide(s, h[|h| - 1].present, h[|h| - 1].now, threshold), Effective(threshold))
  {
    var less, last, k := h[..|h| - 1], h[|h| - 1], Effective(threshold);
    SuccessLess(h);
    assert h[..|h|] == h;
    if last.present {
      if s.reachable {
        var f :| StreakStart(less, f, k) && s.reachableSince == less[f].now;
        StreakExtends(h, f, k);
      } else {
        var a :| AwayUntil(less, a, |less|, k);
        AwayExtends(h, a, |less|, k);
        assert StreakStart(h, |h| - 1, k);
      }
    } else if Trailing(h) >= k {
      assert AwayUntil(h, |h|, |h|, k);
    } else if s.reachable {
      var f :| StreakStart(less, f, k) && s.reachableSince == less[f].now;
      StreakExtends(h, f, k);
    } else {
      var a :| AwayUntil(less, a, |less|, k);
      AwayExtends(h, a, |less|, k);
      assert AwayUntil(h, a, |h|, k);
    }
  }

  /** After any history of probes from a fresh state: the failure count is the number of
      trailing failures; the Mac is reachable exactly when some probe succeeded and fewer than
      the threshold trail; reachable-since is then the first success after the last run of
      threshold failures, and zero otherwise. */
  lemma {:induction false} HistoryMeaning(h: seq<Reading>, threshold: int)
    ensures Meaning(h, Fold(h, threshold), Effective(threshold))
  {
    if h == [] {
      assert AwayUntil(h, 0, 0, Effective(threshold));
    } else {
      HistoryMeaning(h[..|h| - 1], threshold);
      StepMeaning(h, Fold(h[..|h| - 1], threshold), threshold);
    }
  }

  /** The start of the streak is unique, so reachable-since is determined. */
  lemma StreakStartUnique(h: seq<Reading>, f: int, g: int, k: int)
    requires StreakStart(h, f, k) && StreakStart(h, g, k) && k >= 1
    ensures f == g
  {
    if f < g { LaterStartImpossible(h, f, g, k); }
    if g < f { LaterStartImpossible(h, g, f, k); }
  }

  lemma LaterStartImpossible(h: seq<Reading>, f: int, g: int, k: int)
    requires StreakStart(h, f, k) && 0 <= g < |h| && f < g && k >= 1
    ensures !exists a :: AwayUntil(h, a, g, k)
  {
    forall a ensures !AwayUntil(h, a, g, k) {
      if f < a <= |h| { assert Trailing(h[..a]) < k; }
    }
  }

  /** With positive clocks every state the collector writes is accepted when it is read back. */
  lemma {:induction false} WrittenStateIsAccepted(h: seq<Reading>, threshold: int)
    requires forall i :: 0 <= i < |h| ==> h[i].now > 0
    ensures LoadState(Decoded(Fold(h, threshold))) == (Fold(h, threshold), true)
  {
    if h != [] {
      var less := h[..|h| - 1];
      assert forall i :: 0 <= i < |less| ==> less[i] == h[i];
      WrittenStateIsAccepted(less, threshold);
    }
  }

  /** The two clocks: the last probe, and the last success (zero before the first one). */
  lemma {:induction false} ClocksMeaning(h: seq<Reading>, threshold: int)
    ensures h != [] ==> Fold(h, threshold).lastProbe == h[|h| - 1].now
    ensures !AnySuccess(h) ==> Fold(h, threshold).lastSeen == 0
    ensures forall i :: 0 <= i < |h| && h[i].present && (forall j :: i < j < |h| ==> !h[j].present) ==> Fold(h, threshold).lastSeen == h[i].now
  {
    if h != [] {
      var less := h[..|h| - 1];
      SuccessLess(h);
      ClocksMeaning(less, threshold);
      assert forall i :: 0 <= i < |less| ==> less[i] == h[i];
    }
  }

  /** What is taken over when it is read back: nothing yet, or fields without a negative number that
      are reachable exactly since some time. Anything else starts afresh and is reported. */
  lemma LoadedExactly(f: File)
    ensures LoadState(f) == match f
                            case Empty => (State(0, 0, 0, 0, false), true)
                            case Garbage => (State(0, 0, 0, 0, false), false)
                            case Decoded(s) =>
                              if s.lastSeen < 0 || s.reachableSince < 0 || s.consecutiveFailures < 0 || s.lastProbe < 0
                                 || (s.reachable && s.reachableSince == 0) || (!s.reachable && s.reachableSince > 0)
                              then (State(0, 0, 0, 0, false), false) else (s, true)
  {}

  /** Whatever was loaded, going on with positive clocks writes only what is accepted again. */
  lemma {:induction false} LoadedStaysAccepted(f: File, present: bool, now: int, threshold: int)
    requires now > 0
    ensures var next := Decide(LoadState(f).0, present, now, threshold); LoadState(Decoded(next)) == (next, true)
  {}
}
