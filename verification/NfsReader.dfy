/** The Pi's reader of the Mac's status report, and its agreement with the supervisor. */
module NfsReader {
  import opened Text
  import opened Decimal
  import opened NfsStatus
  import opened NfsSupervisor

  /** A decoded JSON value, with Python's distinction of its number types. */
  datatype Json =
    | Null
    | Bool(b: bool)
    | Int(i: int)
    | Float(r: real)
    | NotFinite
    | Str(s: string)
    | Array(items: seq<Json>)
    | Object(fields: map<string, Json>)

  function Get(j: Json, key: string): Json { if j.Object? && key in j.fields then j.fields[key] else Null }

  /** The value of a number; Python's `bool` counts as one in comparisons. */
  function Value(j: Json): real {
    match j
    case Bool(b) => if b then 1.0 else 0.0
    case Int(i) => i as real
    case Float(r) => r
    case _ => 0.0
  }

  predicate Equals(j: Json, n: int) { (j.Bool? || j.Int? || j.Float?) && Value(j) == n as real }

  /** An int that cannot be made a float: asking whether it is finite raises. */
  predicate TooLarge(j: Json) { j.Int? && !(-(OVERFLOW as int) < j.i < OVERFLOW) }

  /** An int or a float proper, finite and not negative. */
  predicate ValidNumber(j: Json) { (j.Int? || j.Float?) && !TooLarge(j) && Value(j) >= 0.0 }

  const STATES := {"healthy", "hung", "unknown", "unmounted"}

  const FIELDS := ["last_read_ok", "recoveries", "recovery_ok"]

  predicate StateKnown(item: Json) { item.Object? && Get(item, "state").Str? && Get(item, "state").s in STATES }

  predicate NumbersValid(item: Json, n: nat)
    requires n <= |FIELDS|
  {
    forall i :: 0 <= i < n ==> ValidNumber(Get(item, FIELDS[i]))
  }

  predicate ValidItem(item: Json, checked: Json) {
    && StateKnown(item) && NumbersValid(item, |FIELDS|)
    && Value(Get(item, "last_read_ok")) <= Value(checked)
    && (Equals(Get(item, "recovery_ok"), 0) || Equals(Get(item, "recovery_ok"), 1))
  }

  predicate IsReport(value: Json) { value.Object? && Equals(Get(value, "schema"), 1) }

  predicate ValidCheckTime(checked: Json, now: int) { ValidNumber(checked) && Value(checked) <= now as real && Value(checked) != 0.0 }

  predicate ItemsValid(value: Json, n: nat)
    requires n <= |EXPORTS|
  {
    forall i :: 0 <= i < n ==> ValidItem(Get(Get(value, "exports"), EXPORTS[i]), Get(value, "checked_at"))
  }

  predicate ValidStatus(value: Json, now: int) {
    IsReport(value) && ValidCheckTime(Get(value, "checked_at"), now) && Get(value, "exports").Object? && ItemsValid(value, |EXPORTS|)
  }

  /** In an item, a number is too large and those before it are valid. */
  predicate RaisesAt(item: Json, i: nat)
    requires i < |FIELDS|
  {
    StateKnown(item) && NumbersValid(item, i) && TooLarge(Get(item, FIELDS[i]))
  }

  /** In a report, the number that is too large is the first thing wrong. */
  predicate Raises(value: Json, now: int) {
    IsReport(value) &&
    (TooLarge(Get(value, "checked_at")) ||
     (ValidCheckTime(Get(value, "checked_at"), now) && Get(value, "exports").Object? &&
      exists k, i :: 0 <= k < |EXPORTS| && ItemsValid(value, k) && 0 <= i < |FIELDS| && RaisesAt(Get(Get(value, "exports"), EXPORTS[k]), i)))
  }

  /** `valid_status`; `None` is the overflow error, which nothing catches. It is raised exactly
      when a number that is too large for a float is the first thing wrong with the report. */
  method CheckStatus(value: Json, now: int) returns (valid: Option<bool>)
    ensures valid == if Raises(value, now) then None else Some(ValidStatus(value, now))
  {
    hide TooLarge, ValidNumber, Equals, Value, Get, RaisesAt;
    if !IsReport(value) { return Some(false); }
    var checked := Get(value, "checked_at");
    if TooLarge(checked) { return None; }
    if !ValidCheckTime(checked, now) { return Some(false); }
    var exports := Get(value, "exports");
    if !exports.Object? { return Some(false); }
    for k := 0 to |EXPORTS|
      invariant ItemsValid(value, k)
    {
      var item := Get(exports, EXPORTS[k]);
      if !StateKnown(item) {
        NeverRaises(item);
        NoRaise(value, now, k);
        return Some(false);
      }
      for i := 0 to |FIELDS|
        invariant NumbersValid(item, i)
      {
        if TooLarge(Get(item, FIELDS[i])) {
          assert RaisesAt(item, i) by { RaisesHere(item, i); }
          return None;
        }
        if !ValidNumber(Get(item, FIELDS[i])) {
          WrongNumber(item, i);
          NoRaise(value, now, k);
          return Some(false);
        }
      }
      if Value(Get(item, "last_read_ok")) > Value(checked) || (!Equals(Get(item, "recovery_ok"), 0) && !Equals(Get(item, "recovery_ok"), 1)) {
        NeverRaises(item);
        NoRaise(value, now, k);
        return Some(false);
      }
    }
    NoRaise(value, now, |EXPORTS|);
    return Some(true);
  }

  lemma RaisesHere(item: Json, i: nat)
    requires i < |FIELDS| && StateKnown(item) && NumbersValid(item, i) && TooLarge(Get(item, FIELDS[i]))
    ensures RaisesAt(item, i)
  {}

  /** An item that is refused for its state, or whose numbers are all valid. */
  lemma NeverRaises(item: Json)
    requires !StateKnown(item) || NumbersValid(item, |FIELDS|)
    ensures forall i :: 0 <= i < |FIELDS| ==> !RaisesAt(item, i)
  {
    hide TooLarge, Value, Get;
    forall i | 0 <= i < |FIELDS| && ValidNumber(Get(item, FIELDS[i])) ensures !TooLarge(Get(item, FIELDS[i])) {}
  }

  lemma WrongNumber(item: Json, i: nat)
    requires i < |FIELDS| && NumbersValid(item, i) && !ValidNumber(Get(item, FIELDS[i])) && !TooLarge(Get(item, FIELDS[i]))
    ensures forall j :: 0 <= j < |FIELDS| ==> !RaisesAt(item, j)
  {
    hide TooLarge, Value, Get;
    forall j | 0 <= j < |FIELDS| ensures !RaisesAt(item, j) {
      if j < i { assert ValidNumber(Get(item, FIELDS[j])); }
    }
  }

  /** The items before `k` are valid, and item `k`, if there is one, is refused without raising. */
  lemma NoRaise(value: Json, now: int, k: nat)
    requires k <= |EXPORTS| && ItemsValid(value, k) && !TooLarge(Get(value, "checked_at"))
    requires k < |EXPORTS| ==> !ValidItem(Get(Get(value, "exports"), EXPORTS[k]), Get(value, "checked_at"))
    requires k < |EXPORTS| ==> forall i :: 0 <= i < |FIELDS| ==> !RaisesAt(Get(Get(value, "exports"), EXPORTS[k]), i)
    ensures !Raises(value, now)
  {
    hide TooLarge, Value, Get, ValidNumber, Equals, RaisesAt;
    forall j | 0 <= j < k ensures forall i :: 0 <= i < |FIELDS| ==> !RaisesAt(Get(Get(value, "exports"), EXPORTS[j]), i) {
      NeverRaises(Get(Get(value, "exports"), EXPORTS[j]));
    }
    forall j | k < j < |EXPORTS| ensures !ItemsValid(value, j) {}
  }

  /** The `read_ok` sample of one export. */
  function ReadOk(value: Json, now: int, name: string): int {
    if ValidStatus(value, now) && Get(Get(Get(value, "exports"), name), "state") == Str("healthy")
       && now as real - Value(Get(value, "checked_at")) <= 600.0 then 1 else 0
  }

  // ---------- the supervisor's side ----------

  function EncodeItem(item: Item): Json {
    Object(map["state" := Str(Name(item.state)), "reason" := Str(item.reason), "source" := Str(item.source),
               "recoveries" := Int(item.recoveries), "recovery_ok" := Int(item.recoveryOk), "last_read_ok" := Int(item.lastReadOk)])
  }

  function Encode(r: Report): Json {
    Object(map["schema" := Int(1), "checked_at" := Int(r.checkedAt), "exports" := Object(map n | n in r.exports :: EncodeItem(r.exports[n]))])
  }

  /** What every published report satisfies. */
  ghost predicate SoundItem(item: Item, checkedAt: int) {
    0 <= item.lastReadOk <= checkedAt && item.recoveryOk in {0, 1}
  }

  /** No number of the report is too large for a float. */
  ghost predicate Small(r: Report) { r.checkedAt < OVERFLOW && forall n :: n in r.exports ==> r.exports[n].recoveries < OVERFLOW }

  lemma EncodedItemIsValid(item: Item, checkedAt: int)
    requires SoundItem(item, checkedAt) && checkedAt < OVERFLOW
    ensures ValidItem(EncodeItem(item), Int(checkedAt)) <==> item.recoveries < OVERFLOW
  {
    var j := EncodeItem(item);
    assert Get(j, "last_read_ok") == Int(item.lastReadOk);
    assert Get(j, "recoveries") == Int(item.recoveries);
    assert Get(j, "recovery_ok") == Int(item.recoveryOk);
    assert Get(j, "state") == Str(Name(item.state));
    assert FIELDS[0] == "last_read_ok" && FIELDS[1] == "recoveries" && FIELDS[2] == "recovery_ok";
    assert ValidNumber(Get(j, FIELDS[1])) <==> item.recoveries < OVERFLOW;
  }

  lemma ReportsAreSound(run: seq<Iteration>, k: nat, n: string)
    requires WallForward(run) && k < |run| && n in EXPORTS
    ensures SoundItem(ReportAt(run, k).exports[n], run[k].checkedAt)
  {
    hide Next, Final, Mounted, ActionOf, Reached, WallForward;
    var prefix := run[..k + 1];
    assert prefix[..|prefix| - 1] == run[..k];
    assert prefix[k] == run[k];
    WallForwardPrefix(run, k + 1);
    LastReadNotAhead(prefix, n);
  }

  lemma WallForwardPrefix(run: seq<Iteration>, k: nat)
    requires WallForward(run) && k <= |run|
    ensures WallForward(run[..k])
  {
    var p := run[..k];
    forall i, j | 0 <= i <= j < |p| ensures p[i].checkedAt <= p[j].checkedAt { assert p[i] == run[i] && p[j] == run[j]; }
  }

  /** Every report of every run of the supervise loop is accepted by the Pi whose clock is not
      behind, exactly if its numbers are small enough for a float; and `read_ok` is then 1 exactly
      for a healthy export in a report at most 600 s old. */
  lemma ReportsAreAccepted(run: seq<Iteration>, k: nat, now: int, name: string)
    requires WallForward(run) && k < |run| && run[k].checkedAt <= now && name in EXPORTS
    ensures ValidStatus(Encode(ReportAt(run, k)), now) <==> Small(ReportAt(run, k))
    ensures ReadOk(Encode(ReportAt(run, k)), now, name) == 1 <==>
              Small(ReportAt(run, k)) && ReportAt(run, k).exports[name].state == Healthy && now - run[k].checkedAt <= 600
  {
    hide ItemOf, RecordAfter, Reached, ValidItem, EncodeItem, Name;
    var r := ReportAt(run, k);
    var j := Encode(r);
    assert Get(j, "checked_at") == Int(r.checkedAt) && Get(j, "schema") == Int(1);
    var exports := Get(j, "exports");
    assert exports == Object(map n | n in r.exports :: EncodeItem(r.exports[n]));
    if r.checkedAt < OVERFLOW {
      forall i | 0 <= i < |EXPORTS| ensures ValidItem(Get(exports, EXPORTS[i]), Int(r.checkedAt)) <==> r.exports[EXPORTS[i]].recoveries < OVERFLOW {
        ReportsAreSound(run, k, EXPORTS[i]);
        EncodedItemIsValid(r.exports[EXPORTS[i]], r.checkedAt);
      }
      assert ItemsValid(j, |EXPORTS|) <==> Small(r);
    }
    StateOfItem(r.exports[name]);
    assert Get(exports, name) == EncodeItem(r.exports[name]);
  }

  /** They are small as long as the clock and the number of iterations are. */
  lemma ReportsAreSmall(run: seq<Iteration>, k: nat)
    requires k < |run| < OVERFLOW && run[k].checkedAt < OVERFLOW
    ensures Small(ReportAt(run, k))
  {
    hide ItemOf, RecordAfter, AttemptCount;
    forall n | n in EXPORTS ensures ReportAt(run, k).exports[n].recoveries < OVERFLOW {
      ReportMeaning(run, k, n);
      AttemptsAreFew(run[..k + 1], n);
    }
  }

  lemma {:induction false} AttemptsAreFew(run: seq<Iteration>, name: string)
    ensures AttemptCount(run, name) <= |run|
  {
    hide ActionAt;
    if run != [] { AttemptsAreFew(run[..|run| - 1], name); }
  }

  /** So the Pi shows a success exactly when, in that iteration, the export's probe returned 0 on a
      mount that the status listing calls healthy, at the inspection or after an attempt that
      mounted it, and the report is at most 600 s old. */
  lemma ReadOkMeansARead(run: seq<Iteration>, k: nat, now: int, name: string)
    requires WallForward(run) && k < |run| && run[k].checkedAt <= now && name in EXPORTS
    ensures ReadOk(Encode(ReportAt(run, k)), now, name) == 1 <==>
              Small(ReportAt(run, k)) && ReadAt(run, k, name) && now - run[k].checkedAt <= 600
  {
    hide ItemOf, RecordAfter, Reached, ReadOk, ReadAt, Small;
    ReportsAreAccepted(run, k, now, name);
    ReportMeaning(run, k, name);
  }

  lemma StateOfItem(item: Item)
    ensures Get(EncodeItem(item), "state") == Str("healthy") <==> item.state == Healthy
  {}

  // ---------- which reports are accepted at all ----------

  /** What a report may say of an export, checked at `checkedAt`. */
  predicate Plausible(item: Item, checkedAt: int) {
    0 <= item.lastReadOk <= checkedAt && item.recoveries < OVERFLOW && (item.recoveryOk == 0 || item.recoveryOk == 1)
  }

  lemma ItemAcceptedExactly(item: Item, checkedAt: int)
    requires 0 < checkedAt < OVERFLOW
    ensures ValidItem(EncodeItem(item), Int(checkedAt)) <==> Plausible(item, checkedAt)
  {
    var j := EncodeItem(item);
    assert Get(j, "last_read_ok") == Int(item.lastReadOk);
    assert Get(j, "recoveries") == Int(item.recoveries);
    assert Get(j, "recovery_ok") == Int(item.recoveryOk);
    assert Get(j, "state") == Str(Name(item.state));
    assert FIELDS[0] == "last_read_ok" && FIELDS[1] == "recoveries" && FIELDS[2] == "recovery_ok";
    assert ValidNumber(Get(j, FIELDS[0])) <==> 0 <= item.lastReadOk < OVERFLOW;
    assert ValidNumber(Get(j, FIELDS[1])) <==> item.recoveries < OVERFLOW;
    assert ValidNumber(Get(j, FIELDS[2])) <==> 0 <= item.recoveryOk < OVERFLOW;
  }

  /** Whatever a sender puts into a report, it is accepted exactly when it was checked after the
      epoch and not in the reader's future, and covers both exports plausibly; under any other
      schema number it is refused. And `read_ok` is 1 exactly when it is accepted, at most 600 s
      old, and the export is healthy. */
  lemma AcceptedExactly(r: Report, now: int, schema: int, name: string)
    requires name in EXPORTS
    ensures ValidStatus(Encode(r), now) <==>
              0 < r.checkedAt <= now && r.checkedAt < OVERFLOW
              && forall n :: n in EXPORTS ==> n in r.exports && Plausible(r.exports[n], r.checkedAt)
    ensures schema != 1 ==> !ValidStatus(Object(Encode(r).fields["schema" := Int(schema)]), now)
    ensures ReadOk(Encode(r), now, name) == 1 <==>
              ValidStatus(Encode(r), now) && now - r.checkedAt <= 600 && name in r.exports && r.exports[name].state == Healthy
  {
    hide ValidItem, EncodeItem, Name, Plausible;
    var j := Encode(r);
    assert Get(j, "checked_at") == Int(r.checkedAt) && Get(j, "schema") == Int(1);
    var exports := Get(j, "exports");
    assert exports == Object(map n | n in r.exports :: EncodeItem(r.exports[n]));
    if 0 < r.checkedAt < OVERFLOW {
      forall n | n in EXPORTS ensures ValidItem(Get(exports, n), Int(r.checkedAt)) <==> n in r.exports && Plausible(r.exports[n], r.checkedAt) {
        if n in r.exports { ItemAcceptedExactly(r.exports[n], r.checkedAt); } else { NullIsNoItem(Int(r.checkedAt)); }
      }
      assert ItemsValid(j, |EXPORTS|) <==> forall n :: n in EXPORTS ==> ValidItem(Get(exports, n), Int(r.checkedAt));
    }
    assert Get(Object(j.fields["schema" := Int(schema)]), "schema") == Int(schema);
    if name in r.exports {
      StateOfItem(r.exports[name]);
      assert Get(exports, name) == EncodeItem(r.exports[name]);
    } else {
      assert Get(exports, name) == Null;
    }
  }

  lemma NullIsNoItem(checked: Json)
    ensures !ValidItem(Null, checked)
  {}

  /** The words that a report uses for the states. */
  lemma StatesAreNamed(item: Item)
    ensures Get(EncodeItem(item), "state") ==
            Str(match item.state case Healthy => "healthy" case Hung => "hung" case Unknown => "unknown" case Unmounted => "unmounted")
    ensures Get(EncodeItem(item), "reason") == Str(item.reason) && Get(EncodeItem(item), "source") == Str(item.source)
  {}
}
