/** The scanner's text reads back as what was printed, and what a run of scans therefore
    carries from boot to boot. */
module KernelIoRuns {
  import opened Text
  import opened Decimal
  import opened Order
  import opened KernelIoText
  import opened KernelIo

  // ---------- reading printed lines ----------

  lemma {:induction false} ReadAppend(p: Previous, a: seq<string>, b: seq<string>, conv: Convert)
    ensures ReadLines(p, a + b, conv) ==
            if ReadLines(p, a, conv).None? then None else ReadLines(ReadLines(p, a, conv).value, b, conv)
    decreases |a|
  {
    hide ReadLine;
    if a == [] {
      assert a + b == b;
    } else {
      assert (a + b)[1..] == a[1..] + b;
      var q := ReadLine(p, a[0], conv);
      if q.Some? { ReadAppend(q.value, a[1..], b, conv); }
    }
  }

  lemma {:induction false} ReadComments(p: Previous, texts: seq<string>, conv: Convert)
    ensures ReadLines(p, Comments(texts), conv) == Some(p)
  {
    if texts != [] {
      hide ParseLine;
      ParseHash(PrintComment(texts[0]));
      assert Comments(texts)[1..] == Comments(texts[1..]);
      ReadComments(p, texts[1..], conv);
    }
  }

  /** `old` with the values of `t` for the classes in `names`. */
  function Fill(old_: Table, names: seq<string>, t: Table): Table {
    map c | c in old_ :: if c in names then Get(t, c) else old_[c]
  }

  predicate Exact(t: Table) { forall c :: c in t ==> -(EXACT as int) <= t[c] <= EXACT }

  lemma ConvertExact(conv: Convert, n: int)
    requires FloatLaws(conv) && -(EXACT as int) <= n <= EXACT
    ensures conv(NumberOf(n)) == Some(n)
  {
    var m := if n < 0 then -n else n;
    NatOfDec(m);
    assert WellFormed(NumberOf(n));
  }

  lemma ReadEvent(p: Previous, last: bool, c: string, n: int, conv: Convert)
    requires FloatLaws(conv) && Word(c) && c in p.counts && c in p.last && -(EXACT as int) <= n <= EXACT
    ensures ReadLine(p, PrintEvent(last, c, SeverityOf(c), n), conv) ==
            Some(if last then p.(last := p.last[c := n]) else p.(counts := p.counts[c := n]))
  {
    hide ParseLine, PrintEvent, SeverityOf, FloatLaws, NumberOf, Word;
    SeverityIsWord(c);
    ParseEventLine(last, c, SeverityOf(c), n);
    ConvertExact(conv, n);
    assert NumberOf(n) == (if n < 0 then Number(true, Dec(-n), "") else Number(false, Dec(n), "")) by { NumberIs(n); }
  }

  lemma NumberIs(n: int)
    ensures NumberOf(n) == (if n < 0 then Number(true, Dec(-n), "") else Number(false, Dec(n), ""))
  {}

  lemma {:induction false} ReadEvents(p: Previous, last: bool, names: seq<string>, t: Table, conv: Convert)
    requires FloatLaws(conv) && Exact(t) && forall c :: c in names ==> Word(c) && c in p.counts && c in p.last
    ensures ReadLines(p, EventLines(last, names, t), conv) ==
            Some(if last then p.(last := Fill(p.last, names, t)) else p.(counts := Fill(p.counts, names, t)))
    decreases |names|
  {
    hide ReadLine, PrintEvent, FloatLaws, Word, SeverityOf;
    if names == [] {
      assert Fill(p.last, names, t) == p.last && Fill(p.counts, names, t) == p.counts;
    } else {
      var c, n := names[0], Get(t, names[0]);
      ReadEvent(p, last, c, n, conv);
      var q := if last then p.(last := p.last[c := n]) else p.(counts := p.counts[c := n]);
      assert EventLines(last, names, t)[1..] == EventLines(last, names[1..], t);
      ReadEvents(q, last, names[1..], t, conv);
      if last { FillOne(p.last, names, t); } else { FillOne(p.counts, names, t); }
    }
  }

  lemma FillOne(old_: Table, names: seq<string>, t: Table)
    requires names != [] && names[0] in old_
    ensures Fill(old_[names[0] := Get(t, names[0])], names[1..], t) == Fill(old_, names, t)
  {
    assert forall c :: c in names <==> c == names[0] || c in names[1..];
  }

  lemma FillAll(old_: Table, names: seq<string>, t: Table)
    requires old_.Keys == t.Keys && forall c :: c in t ==> c in names
    ensures Fill(old_, names, t) == t
  {}

  lemma StampIsOther(now: nat)
    ensures ParseLine(STAMP + Dec(now)) == OtherLine
  {
    var line := STAMP + Dec(now);
    assert line[18] == STAMP[18] == 's' && BOOT[18] == 'b' && EVENTS[18] == 'e';
  }

  // ---------- the whole text ----------

  predicate CleanId(id: string) { '"' !in id && Plain(id) }

  lemma SortedClasses()
    ensures forall c :: c in Sort(Classes()) <==> c in Classes()
    ensures forall c :: c in Sort(Classes()) ==> Word(c)
  {
    hide Sort, Classes, Word;
    ClassesAreWords();
    SameElements(Sort(Classes()), Classes());
  }

  lemma ReadTables(w: Wording, counts: Table, last: Option<Table>, conv: Convert)
    requires FloatLaws(conv) && Full(counts) && Exact(counts) && (last.Some? ==> Full(last.value) && Exact(last.value))
    ensures var lines := Comments(w.events) + EventLines(false, Sort(Classes()), counts)
                         + (if last.Some? then Comments(w.last) + EventLines(true, Sort(Classes()), last.value) else []);
            ReadLines(Nothing(), lines, conv) == Some(Previous(None, counts, if last.Some? then last.value else Zeros()))
  {
    hide ReadLine, Sort, Classes, FloatLaws, Comments, EventLines, Word, Exact;
    var names, p := Sort(Classes()), Nothing();
    SortedClasses();
    ReadComments(p, w.events, conv);
    ReadEvents(p, false, names, counts, conv);
    FillAll(p.counts, names, counts);
    ReadAppend(p, Comments(w.events), EventLines(false, names, counts), conv);
    var q := p.(counts := counts);
    var first := Comments(w.events) + EventLines(false, names, counts);
    if last.Some? {
      ReadComments(q, w.last, conv);
      ReadEvents(q, true, names, last.value, conv);
      FillAll(q.last, names, last.value);
      ReadAppend(q, Comments(w.last), EventLines(true, names, last.value), conv);
      ReadAppend(p, first, Comments(w.last) + EventLines(true, names, last.value), conv);
    } else {
      assert first + [] == first;
    }
  }

  lemma ReadTail(q: Previous, w: Wording, bootId: Option<string>, now: nat, conv: Convert)
    requires bootId.Some? ==> CleanId(bootId.value)
    ensures var lines := (if bootId.Some? then Comments(w.boot) + [PrintBoot(bootId.value)] else []) + Comments(w.stamp) + [STAMP + Dec(now)];
            ReadLines(q, lines, conv) == Some(if bootId.Some? then q.(bootId := bootId) else q)
  {
    hide ParseLine, Comments, PrintBoot, Dec, CleanId;
    var r := if bootId.Some? then q.(bootId := bootId) else q;
    var boot := if bootId.Some? then Comments(w.boot) + [PrintBoot(bootId.value)] else [];
    if bootId.Some? {
      assert CleanId(bootId.value);
      assert '"' !in bootId.value by { CleanIdUnquoted(bootId.value); }
      ParseBootLine(bootId.value);
      ReadComments(q, w.boot, conv);
      ReadAppend(q, Comments(w.boot), [PrintBoot(bootId.value)], conv);
      assert [PrintBoot(bootId.value)][1..] == [];
    }
    assert ReadLines(q, boot, conv) == Some(r);
    ReadComments(r, w.stamp, conv);
    ReadAppend(q, boot, Comments(w.stamp), conv);
    StampIsOther(now);
    assert [STAMP + Dec(now)][1..] == [];
    ReadAppend(q, boot + Comments(w.stamp), [STAMP + Dec(now)], conv);
  }

  lemma CleanIdUnquoted(id: string)
    requires CleanId(id)
    ensures '"' !in id
  {}

  ghost predicate AllPlain(lines: seq<string>) { forall i :: 0 <= i < |lines| ==> Plain(lines[i]) }

  lemma {:induction false} CommentsPlain(texts: seq<string>)
    requires forall t :: t in texts ==> Plain(t)
    ensures AllPlain(Comments(texts))
  {
    hide Plain, PrintComment;
    if texts != [] {
      CommentPlain(texts[0]);
      CommentsPlain(texts[1..]);
    }
  }

  lemma {:induction false} EventsPlain(last: bool, names: seq<string>, t: Table)
    requires forall c :: c in names ==> Word(c)
    ensures AllPlain(EventLines(last, names, t))
  {
    hide Plain, PrintEvent, SeverityOf, Word;
    if names != [] {
      SeverityIsWord(names[0]);
      EventPlain(last, names[0], SeverityOf(names[0]), Get(t, names[0]));
      EventsPlain(last, names[1..], t);
    }
  }

  lemma OutPlain(w: Wording, counts: Table, now: nat, bootId: Option<string>, last: Option<Table>)
    requires PlainWording(w) && (bootId.Some? ==> Plain(bootId.value))
    ensures AllPlain(OutLines(w, counts, now, bootId, last))
  {
    hide Plain, Comments, EventLines, PrintBoot, Sort, Classes, Dec, Word;
    SortedClasses();
    CommentsPlain(w.events); CommentsPlain(w.last); CommentsPlain(w.boot); CommentsPlain(w.stamp);
    EventsPlain(false, Sort(Classes()), counts);
    if last.Some? { EventsPlain(true, Sort(Classes()), last.value); }
    if bootId.Some? { BootPlain(bootId.value); }
    StampPlain(now);
  }

  lemma StampPlain(now: nat)
    ensures Plain(STAMP + Dec(now))
  {
    DecPlain(now);
    assert Plain(STAMP);
  }

  /** `parse_prom` undoes `render_prom`: the boot id, the counts and the last-boot counts come
      back unchanged, whatever the wording of the comments. */
  lemma ParseUndoesRender(w: Wording, counts: Table, now: nat, bootId: Option<string>, last: Option<Table>, conv: Convert)
    requires FloatLaws(conv) && PlainWording(w) && (bootId.Some? ==> CleanId(bootId.value))
    requires Full(counts) && Exact(counts) && (last.Some? ==> Full(last.value) && Exact(last.value))
    ensures Parse(Render(w, counts, now, bootId, last), conv) ==
            Some(Previous(bootId, counts, if last.Some? then last.value else Zeros()))
  {
    hide ReadLine, Sort, Classes, FloatLaws, Comments, EventLines, PrintBoot, Exact, Dec, SplitLines, Lines, PlainWording, Zeros;
    OutPlain(w, counts, now, bootId, last);
    SplitOfLines(OutLines(w, counts, now, bootId, last));
    var head := Comments(w.events) + EventLines(false, Sort(Classes()), counts)
                + (if last.Some? then Comments(w.last) + EventLines(true, Sort(Classes()), last.value) else []);
    var boot := if bootId.Some? then Comments(w.boot) + [PrintBoot(bootId.value)] else [];
    var tail := boot + Comments(w.stamp) + [STAMP + Dec(now)];
    assert OutLines(w, counts, now, bootId, last) == head + tail;
    ReadTables(w, counts, last, conv);
    var q := Previous(None, counts, if last.Some? then last.value else Zeros());
    ReadTail(q, w, bootId, now, conv);
    ReadAppend(Nothing(), head, tail, conv);
  }

  // ---------- any text whatever ----------

  lemma TakeWhileAll(p: char -> bool, s: string)
    ensures AllOf(p, TakeWhile(p, s))
  {
    TakeUntilSpec(c => !p(c), s);
    var r := TakeWhile(p, s);
    forall i | 0 <= i < |r| ensures p(r[i]) {}
  }

  lemma MatchedValueWellFormed(line: string)
    requires MatchEvent(line).Some?
    ensures WellFormed(MatchEvent(line).value.2)
  {
    hide TakeUntil, TakeWhile, LastClass, DropWhile;
    var a := line[|EVENTS|..];
    var b := if LAST <= a then a[|LAST|..] else a;
    var c := b[1..];
    ValueWellFormed(c[|TakeUntil(c => c == '}', c)| + 1..]);
  }

  lemma ValueWellFormed(tail: string)
    requires MatchValue(tail).Some?
    ensures WellFormed(MatchValue(tail).value)
  {
    hide MatchDigits, DropWhile, WellFormed;
    var t := DropWhile(PySpace, tail);
    var negative := t != "" && t[0] == '-';
    DigitsWellFormed(if negative then t[1..] else t, negative);
  }

  lemma DigitsWellFormed(u: string, negative: bool)
    requires MatchDigits(u, negative).Some?
    ensures WellFormed(MatchDigits(u, negative).value)
  {
    hide TakeWhile, DropWhile;
    TakeWhileAll(IsDigit, u);
    var after := u[|TakeWhile(IsDigit, u)|..];
    if after != "" { TakeWhileAll(IsDigit, after[1..]); }
  }

  /** A line whose value rounds to infinity, for a class still emitted. */
  predicate Overflows(line: string) {
    match ParseLine(line)
    case EventLine(_, cls, value) => cls in Classes() && WellFormed(value) && NatOf(value.whole) >= OVERFLOW
    case _ => false
  }

  ghost predicate SomeOverflows(lines: seq<string>) { exists i :: 0 <= i < |lines| && Overflows(lines[i]) }

  ghost predicate Shaped(p: Previous) {
    Full(p.counts) && Full(p.last) && (p.bootId.Some? ==> CleanId(p.bootId.value))
  }

  lemma ReadLineShape(p: Previous, line: string, conv: Convert)
    requires FloatLaws(conv) && Shaped(p) && Plain(line)
    ensures ReadLine(p, line, conv).None? <==> Overflows(line)
    ensures ReadLine(p, line, conv).Some? ==> Shaped(ReadLine(p, line, conv).value)
  {
    hide MatchEvent, MatchBoot, Classes;
    if MatchBoot(line).Some? { BootIdRead(line); } else if MatchEvent(line).Some? { MatchedValueWellFormed(line); }
  }

  lemma {:induction false} ReadLinesShape(p: Previous, lines: seq<string>, conv: Convert)
    requires FloatLaws(conv) && Shaped(p) && AllPlain(lines)
    ensures ReadLines(p, lines, conv).None? <==> SomeOverflows(lines)
    ensures ReadLines(p, lines, conv).Some? ==> Shaped(ReadLines(p, lines, conv).value)
    decreases |lines|
  {
    hide ReadLine, Overflows, FloatLaws, Plain, Shaped;
    if lines != [] {
      ReadLineShape(p, lines[0], conv);
      var q := ReadLine(p, lines[0], conv);
      if q.Some? {
        ReadLinesShape(q.value, lines[1..], conv);
        assert forall i :: 0 <= i < |lines[1..]| ==> lines[1..][i] == lines[i + 1];
        assert forall i :: 1 <= i < |lines| ==> lines[i] == lines[1..][i - 1];
      }
    }
  }

  /** Reading any text fails exactly when some line gives a known class a value of 2^1024 - 2^970
      or more; otherwise both tables are over exactly the known classes. */
  lemma ParseOfAnyText(text: string, conv: Convert)
    requires FloatLaws(conv)
    ensures Parse(text, conv).None? <==> SomeOverflows(SplitLines(text))
    ensures Parse(text, conv).Some? ==> Shaped(Parse(text, conv).value)
  {
    hide ReadLine, SomeOverflows, FloatLaws, Plain, SplitLines, Zeros, CleanId;
    SplitIsPlain(text);
    var lines := SplitLines(text);
    ReadLinesShape(Nothing(), lines, conv);
    assert Parse(text, conv) == ReadLines(Nothing(), lines, conv);
  }

  /** So the reader is not total: one line with a large enough count makes it raise. */
  lemma HugeCountRaises(c: string, n: nat, conv: Convert)
    requires FloatLaws(conv) && c in Classes() && n >= OVERFLOW
    ensures Parse(Lines([PrintEvent(false, c, SeverityOf(c), n)]), conv).None?
  {
    hide ReadLine, ParseLine, FloatLaws, SplitLines, Lines, PrintEvent, SeverityOf, Classes, Word;
    var line := PrintEvent(false, c, SeverityOf(c), n);
    ClassesAreWords();
    SeverityIsWord(c);
    ParseEventLine(false, c, SeverityOf(c), n);
    NatOfDec(n);
    EventPlain(false, c, SeverityOf(c), n);
    SplitOfLines([line]);
    ParseOfAnyText(Lines([line]), conv);
    assert Overflows([line][0]) by { NumberIs(n); }
    assert SomeOverflows([line]);
  }

  /** A printed boot id is read back exactly when it has neither a quote nor a line break. */
  lemma BootIdComesBackExactly(w: Wording, counts: Table, now: nat, id: string, last: Option<Table>, conv: Convert)
    requires FloatLaws(conv) && PlainWording(w) && Full(counts) && Exact(counts) && (last.Some? ==> Full(last.value) && Exact(last.value))
    ensures var p := Parse(Render(w, counts, now, Some(id), last), conv);
            (p.Some? && p.value.bootId == Some(id)) <==> CleanId(id)
  {
    hide Parse, Render, FloatLaws, CleanId;
    ParseOfAnyText(Render(w, counts, now, Some(id), last), conv);
    if CleanId(id) { ParseUndoesRender(w, counts, now, Some(id), last, conv); }
  }

  // ---------- scans that read their predecessor's text ----------

  function CarryForward(previous: Previous, current: Option<string>): Table {
    if current.None? || current.value == "" || previous.bootId.None? || previous.bootId.value == "" then previous.last
    else if previous.bootId != current then previous.counts
    else previous.last
  }

  datatype ScanRun = ScanRun(now: nat, bootId: string, log: seq<string>)

  /** `main`: the text of one scan, given the text of the one before; `None` when it raises. */
  function Main(w: Wording, hits: Patterns, conv: Convert, previous: string, s: ScanRun): Option<string> {
    if s.bootId == "" then Some(Render(w, Counts(hits, s.log), s.now, None, None)) else
      var p := Parse(previous, conv);
      if p.None? then None
      else Some(Render(w, Counts(hits, s.log), s.now, Some(s.bootId), Some(CarryForward(p.value, Some(s.bootId)))))
  }

  method RunMain(w: Wording, hits: Patterns, conv: Convert, previous: string, s: ScanRun) returns (out: Option<string>)
    ensures out == Main(w, hits, conv, previous, s)
  {
    hide Parse, Render, Counts;
    var bootId := if s.bootId == "" then None else Some(s.bootId);
    var last := None;
    if bootId.Some? {
      var p := ParseProm(previous, conv);
      if p.None? { return None; }
      last := Some(CarryForward(p.value, bootId));
    }
    var counts := KernelIo.Scan(hits, s.log);
    var text := RenderProm(w, counts, s.now, bootId, last);
    return Some(text);
  }

  /** The file after a run of scans, starting without one; a scan that raises leaves it alone. */
  function FileAfter(w: Wording, hits: Patterns, conv: Convert, scans: seq<ScanRun>): string {
    if scans == [] then "" else
      var before := FileAfter(w, hits, conv, scans[..|scans| - 1]);
      var out := Main(w, hits, conv, before, scans[|scans| - 1]);
      if out.Some? then out.value else before
  }

  /** What the run means, without the text. */
  function Carried(hits: Patterns, scans: seq<ScanRun>): Previous {
    if scans == [] then Nothing() else
      var p, s := Carried(hits, scans[..|scans| - 1]), scans[|scans| - 1];
      if s.bootId == "" then Previous(None, Counts(hits, s.log), Zeros())
      else Previous(Some(s.bootId), Counts(hits, s.log), CarryForward(p, Some(s.bootId)))
  }

  ghost predicate Sane(s: ScanRun) { CleanId(s.bootId) && |s.log| <= EXACT }

  ghost predicate GoodTables(p: Previous) { Full(p.counts) && Exact(p.counts) && Full(p.last) && Exact(p.last) }

  lemma {:induction false} CarriedTables(hits: Patterns, scans: seq<ScanRun>)
    requires forall k :: 0 <= k < |scans| ==> Sane(scans[k])
    ensures GoodTables(Carried(hits, scans))
  {
    hide Classes, CountOf, CleanId;
    if scans != [] { CarriedTables(hits, scans[..|scans| - 1]); }
  }

  lemma NothingRead(conv: Convert)
    ensures Parse("", conv) == Some(Nothing())
  {}

  /** Reading the file back always gives what the run means: the text loses nothing. */
  lemma {:induction false} TextCarriesTheRun(w: Wording, hits: Patterns, conv: Convert, scans: seq<ScanRun>)
    requires FloatLaws(conv) && PlainWording(w) && forall k :: 0 <= k < |scans| ==> Sane(scans[k])
    ensures Parse(FileAfter(w, hits, conv, scans), conv) == Some(Carried(hits, scans))
  {
    hide Parse, Render, Counts, FloatLaws, PlainWording, Full, Exact, CleanId, Zeros;
    if scans == [] {
      NothingRead(conv);
    } else {
      var less, s := scans[..|scans| - 1], scans[|scans| - 1];
      TextCarriesTheRun(w, hits, conv, less);
      CarriedTables(hits, less);
      CarriedTables(hits, scans);
      var p := Carried(hits, scans);
      if s.bootId == "" {
        ParseUndoesRender(w, p.counts, s.now, None, None, conv);
      } else {
        ParseUndoesRender(w, p.counts, s.now, p.bootId, Some(p.last), conv);
      }
    }
  }

  /** The last scan before `k` with a boot id other than `id`. */
  function LastOther(scans: seq<ScanRun>, k: nat, id: string): (j: Option<nat>)
    requires k <= |scans|
    ensures j.Some? ==> j.value < k
  {
    if k == 0 then None else if scans[k - 1].bootId != id then Some(k - 1) else LastOther(scans, k - 1, id)
  }

  lemma {:induction false} LastOtherLess(scans: seq<ScanRun>, k: nat, id: string)
    requires k < |scans|
    ensures LastOther(scans[..|scans| - 1], k, id) == LastOther(scans, k, id)
  {
    if k > 0 { LastOtherLess(scans, k - 1, id); }
  }

  lemma {:induction false} LastOtherIs(scans: seq<ScanRun>, k: nat, id: string, j: nat)
    requires j < k <= |scans| && scans[j].bootId != id && forall i :: j < i < k ==> scans[i].bootId == id
    ensures LastOther(scans, k, id) == Some(j)
  {
    if k - 1 > j { LastOtherIs(scans, k - 1, id, j); }
  }

  lemma {:induction false} LastOtherNone(scans: seq<ScanRun>, k: nat, id: string)
    requires k <= |scans| && forall i :: 0 <= i < k ==> scans[i].bootId == id
    ensures LastOther(scans, k, id) == None
  {
    if k > 0 { LastOtherNone(scans, k - 1, id); }
  }

  lemma {:induction false} CarriedMeaning(hits: Patterns, scans: seq<ScanRun>)
    requires scans != [] && forall k :: 0 <= k < |scans| ==> scans[k].bootId != ""
    ensures var n := |scans| - 1;
            var j := LastOther(scans, n, scans[n].bootId);
            Carried(hits, scans).last == if j.None? then Zeros() else Counts(hits, scans[j.value].log)
  {
    hide Counts, Zeros;
    var less, n := scans[..|scans| - 1], |scans| - 1;
    var p := Carried(hits, less);
    assert Carried(hits, scans).last == CarryForward(p, Some(scans[n].bootId));
    if less == [] {
      assert p == Nothing() && LastOther(scans, 0, scans[n].bootId).None?;
    } else {
      CarriedMeaning(hits, less);
      assert p.bootId == Some(scans[n - 1].bootId) && p.counts == Counts(hits, scans[n - 1].log);
      LastOtherLess(scans, n - 1, scans[n].bootId);
    }
  }

  /** The dead boot's counts survive the reboot: over any run of scans, each reading only its
      predecessor's text, the emitted last-boot counts are those of the last scan of the boot
      before the current one, and all zero during the first boot. */
  lemma LastBootSurvivesReboots(w: Wording, hits: Patterns, conv: Convert, scans: seq<ScanRun>)
    requires FloatLaws(conv) && PlainWording(w) && scans != []
    requires forall k :: 0 <= k < |scans| ==> Sane(scans[k]) && scans[k].bootId != ""
    ensures var n := |scans| - 1;
            var read := Parse(FileAfter(w, hits, conv, scans), conv);
            && read.Some? && read.value.bootId == Some(scans[n].bootId) && read.value.counts == Counts(hits, scans[n].log)
            && ((forall i :: 0 <= i < n ==> scans[i].bootId == scans[n].bootId) ==> read.value.last == Zeros())
            && forall j :: 0 <= j < n && scans[j].bootId != scans[n].bootId && (forall i :: j < i < n ==> scans[i].bootId == scans[n].bootId)
                 ==> read.value.last == Counts(hits, scans[j].log)
  {
    hide Parse, FileAfter, Counts, Zeros, FloatLaws, PlainWording, Sane, CarryForward, LastOther;
    var n := |scans| - 1;
    var id := scans[n].bootId;
    TextCarriesTheRun(w, hits, conv, scans);
    CarriedMeaning(hits, scans);
    if forall i :: 0 <= i < n ==> scans[i].bootId == id { LastOtherNone(scans, n, id); }
    forall j | 0 <= j < n && scans[j].bootId != id && (forall i :: j < i < n ==> scans[i].bootId == id)
      ensures Carried(hits, scans).last == Counts(hits, scans[j].log)
    {
      LastOtherIs(scans, n, id, j);
    }
  }

  /** What the next scan would read of the last-boot counts after a run. */
  function LastRead(w: Wording, hits: Patterns, conv: Convert, scans: seq<ScanRun>): Option<Table> {
    var read := Parse(FileAfter(w, hits, conv, scans), conv);
    if read.None? then None else Some(read.value.last)
  }

  /** A scan that does not know its boot id leaves the snapshot in the file exactly if the
      snapshot is all zero. */
  lemma UnknownBootIdKeepsSnapshotExactly(w: Wording, hits: Patterns, conv: Convert, scans: seq<ScanRun>, s: ScanRun)
    requires FloatLaws(conv) && PlainWording(w) && Sane(s) && s.bootId == "" && forall k :: 0 <= k < |scans| ==> Sane(scans[k])
    ensures LastRead(w, hits, conv, scans).Some?
    ensures LastRead(w, hits, conv, scans + [s]) == LastRead(w, hits, conv, scans) <==> LastRead(w, hits, conv, scans) == Some(Zeros())
  {
    hide FileAfter, Parse, FloatLaws, PlainWording, Counts, Sane;
    var more := scans + [s];
    assert more[..|scans|] == scans;
    assert forall k :: 0 <= k < |more| ==> Sane(more[k]);
    TextCarriesTheRun(w, hits, conv, scans);
    TextCarriesTheRun(w, hits, conv, more);
  }

  const DROPOUT := "usb_disconnect"

  /** Patterns that find a disconnect in one line and nothing else. */
  function OnlyIn(line: string): Patterns { (c, l) => c == DROPOUT && l == line }

  /** A run on which it is lost: a disconnect is counted in boot `a`, kept by the first scan of
      boot `b`, and gone after a scan without a boot id. */
  lemma UnknownBootIdLosesDropout(w: Wording, conv: Convert, line: string)
    requires FloatLaws(conv) && PlainWording(w)
    ensures var run := [ScanRun(1, "a", [line]), ScanRun(2, "b", [])];
            var kept := LastRead(w, OnlyIn(line), conv, run);
            && kept.Some? && DROPOUT in kept.value && kept.value[DROPOUT] == 1
            && LastRead(w, OnlyIn(line), conv, run + [ScanRun(3, "", [])]) == Some(Zeros())
  {
    hide FileAfter, Parse, FloatLaws, PlainWording, Carried, OnlyIn, Counts, Sane;
    var run := [ScanRun(1, "a", [line]), ScanRun(2, "b", [])];
    var more := run + [ScanRun(3, "", [])];
    ShortRunsAreSane(line);
    assert forall k :: 0 <= k < |more| ==> Sane(more[k]);
    TextCarriesTheRun(w, OnlyIn(line), conv, run);
    TextCarriesTheRun(w, OnlyIn(line), conv, more);
    CarriedDropout(OnlyIn(line), line);
    CarriedUnknown(OnlyIn(line), run, ScanRun(3, "", []));
  }

  lemma OnlyInFinds(line: string)
    ensures forall c :: OnlyIn(line)(c, line) <==> c == DROPOUT
  {}

  lemma ShortRunsAreSane(line: string)
    ensures Sane(ScanRun(1, "a", [line])) && Sane(ScanRun(2, "b", [])) && Sane(ScanRun(3, "", []))
  {}

  lemma CarriedUnknown(hits: Patterns, scans: seq<ScanRun>, s: ScanRun)
    requires s.bootId == ""
    ensures Carried(hits, scans + [s]).last == Zeros()
  {
    assert (scans + [s])[..|scans|] == scans;
  }

  lemma CarriedDropout(hits: Patterns, line: string)
    requires hits == OnlyIn(line)
    ensures var last := Carried(hits, [ScanRun(1, "a", [line]), ScanRun(2, "b", [])]).last;
            DROPOUT in last && last[DROPOUT] == 1
  {
    hide OnlyIn, CountOf, Classes;
    var a := ScanRun(1, "a", [line]);
    assert [a, ScanRun(2, "b", [])][..1] == [a];
    OnlyInFinds(line);
    OneDropout(hits, line);
  }

  lemma OneDropout(hits: Patterns, line: string)
    requires forall c :: hits(c, line) <==> c == DROPOUT
    ensures DROPOUT in Classes() && CountOf(hits, [line], DROPOUT) == 1
  {
    var names := Classes();
    assert names[7] == DROPOUT;
    ClassifyIsFirst(names, hits, line);
    assert [line][..0] == [];
  }
}
