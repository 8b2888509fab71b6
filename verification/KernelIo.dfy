/** The kernel-fault scanner: counting classes, printing them, and carrying a dead boot's
    counts across a reboot through its own earlier text. */
module KernelIo {
  import opened Text
  import opened Decimal
  import opened Order
  import opened KernelIoText

  function Classes(): seq<string> {
    ["ext4_remount_ro", "scsi_offline", "disk_zero_capacity", "ext4_error", "journal_aborted",
     "block_io_error", "uas_fault", "usb_disconnect", "usb_reset", "usb_over_current"]
  }

  const FATAL_CLASSES := {"ext4_remount_ro", "scsi_offline", "ext4_error", "journal_aborted", "block_io_error", "disk_zero_capacity"}
  const NEVER_NORMAL_CLASSES := {"usb_disconnect", "usb_over_current"}

  function SeverityOf(name: string): string {
    if name in FATAL_CLASSES then "fatal" else if name in NEVER_NORMAL_CLASSES then "dropout" else "precursor"
  }

  lemma ClassesAreWords()
    ensures forall c :: c in Classes() ==> Word(c)
  {
    hide Word;
    StorageWords();
    BusWords();
  }

  lemma StorageWords()
    ensures Word("ext4_remount_ro") && Word("scsi_offline") && Word("disk_zero_capacity") && Word("ext4_error") && Word("journal_aborted")
  {}

  lemma BusWords()
    ensures Word("block_io_error") && Word("uas_fault") && Word("usb_disconnect") && Word("usb_reset") && Word("usb_over_current")
  {}

  lemma ClassesDistinct()
    ensures NoDup(Classes())
  {}

  lemma SeverityIsWord(name: string)
    ensures Word(SeverityOf(name))
  {
    assert Word("fatal") && Word("dropout") && Word("precursor");
  }

  type Table = map<string, int>

  ghost predicate Full(t: Table) { t.Keys == set c | c in Classes() }

  function Zeros(): (t: Table)
    ensures Full(t) && forall c :: c in t ==> t[c] == 0
  {
    map c | c in Classes() :: 0
  }

  // ---------- classification ----------

  /** `hits(class, line)`: the class's pattern is found in the line. */
  type Patterns = (string, string) -> bool

  function ClassifyFrom(names: seq<string>, hits: Patterns, line: string): Option<string> {
    if names == [] then None else if hits(names[0], line) then Some(names[0]) else ClassifyFrom(names[1..], hits, line)
  }

  /** The first class, in the order of `Classes`, whose pattern is found. */
  function Classify(hits: Patterns, line: string): Option<string> { ClassifyFrom(Classes(), hits, line) }

  lemma {:induction false} ClassifyIsFirst(names: seq<string>, hits: Patterns, line: string)
    ensures var r := ClassifyFrom(names, hits, line);
            && (r.None? ==> forall i :: 0 <= i < |names| ==> !hits(names[i], line))
            && (r.Some? ==> exists i :: 0 <= i < |names| && names[i] == r.value && hits(names[i], line)
                                      && forall j :: 0 <= j < i ==> !hits(names[j], line))
  {
    if names != [] && !hits(names[0], line) {
      ClassifyIsFirst(names[1..], hits, line);
      var r := ClassifyFrom(names[1..], hits, line);
      if r.Some? {
        var i :| 0 <= i < |names[1..]| && names[1..][i] == r.value && hits(names[1..][i], line) && forall j :: 0 <= j < i ==> !hits(names[1..][j], line);
        assert names[i + 1] == r.value;
        forall j | 0 <= j < i + 1 ensures !hits(names[j], line) { if j > 0 { assert names[1..][j - 1] == names[j]; } }
      } else {
        forall i | 0 <= i < |names| ensures !hits(names[i], line) { if i > 0 { assert names[1..][i - 1] == names[i]; } }
      }
    }
  }

  function CountOf(hits: Patterns, log: seq<string>, cls: string): (n: nat)
    ensures n <= |log|
  {
    if log == [] then 0
    else CountOf(hits, log[..|log| - 1], cls) + (if Classify(hits, log[|log| - 1]) == Some(cls) then 1 else 0)
  }

  function Counts(hits: Patterns, log: seq<string>): Table { map c | c in Classes() :: CountOf(hits, log, c) }

  method Scan(hits: Patterns, log: seq<string>) returns (counts: Table)
    ensures counts == Counts(hits, log)
  {
    hide Classify, Classes;
    counts := Zeros();
    for i := 0 to |log|
      invariant counts == Counts(hits, log[..i])
    {
      assert log[..i + 1][..i] == log[..i];
      var name := Classify(hits, log[i]);
      if name.Some? {
        ClassifyInClasses(hits, log[i]);
        counts := counts[name.value := counts[name.value] + 1];
      }
    }
    assert log[..|log|] == log;
  }

  lemma ClassifyInClasses(hits: Patterns, line: string)
    ensures Classify(hits, line).Some? ==> Classify(hits, line).value in Classes()
  {
    ClassifyIsFirst(Classes(), hits, line);
  }

  function Sum(names: seq<string>, t: Table): int
    requires forall c :: c in names ==> c in t
  {
    if names == [] then 0 else t[names[0]] + Sum(names[1..], t)
  }

  function Classified(hits: Patterns, log: seq<string>): nat {
    if log == [] then 0
    else Classified(hits, log[..|log| - 1]) + (if Classify(hits, log[|log| - 1]).Some? then 1 else 0)
  }

  lemma {:induction false} SumOneMore(names: seq<string>, a: Table, b: Table, cls: string)
    requires NoDup(names) && forall c :: c in names ==> c in a && c in b && b[c] == a[c] + (if c == cls then 1 else 0)
    ensures Sum(names, b) == Sum(names, a) + (if cls in names then 1 else 0)
  {
    if names != [] { SumOneMore(names[1..], a, b, cls); }
  }

  lemma {:induction false} SumZero(names: seq<string>, t: Table)
    requires forall c :: c in names ==> c in t && t[c] == 0
    ensures Sum(names, t) == 0
  {
    if names != [] { SumZero(names[1..], t); }
  }

  /** Every classified line is counted once, under one class. */
  lemma {:induction false} CountsConserveLines(hits: Patterns, log: seq<string>)
    ensures Sum(Classes(), Counts(hits, log)) == Classified(hits, log)
  {
    hide ClassifyFrom, Sum;
    if log == [] {
      SumZero(Classes(), Counts(hits, log));
    } else {
      var less, line := log[..|log| - 1], log[|log| - 1];
      CountsConserveLines(hits, less);
      ClassesDistinct();
      ClassifyInClasses(hits, line);
      SumOneMore(Classes(), Counts(hits, less), Counts(hits, log), if Classify(hits, line).Some? then Classify(hits, line).value else "");
    }
  }

  // ---------- printing ----------

  /** The comment lines of the four sections; their wording is free. */
  datatype Wording = Wording(events: seq<string>, last: seq<string>, boot: seq<string>, stamp: seq<string>)

  predicate PlainWording(w: Wording) {
    forall t :: t in w.events + w.last + w.boot + w.stamp ==> Plain(t)
  }

  function Comments(texts: seq<string>): seq<string> {
    if texts == [] then [] else [PrintComment(texts[0])] + Comments(texts[1..])
  }

  function Get(t: Table, c: string): int { if c in t then t[c] else 0 }

  function EventLines(last: bool, names: seq<string>, t: Table): seq<string> {
    if names == [] then [] else [PrintEvent(last, names[0], SeverityOf(names[0]), Get(t, names[0]))] + EventLines(last, names[1..], t)
  }

  const STAMP := "homelab_kernel_io_scan_timestamp_seconds "

  function OutLines(w: Wording, counts: Table, now: nat, bootId: Option<string>, last: Option<Table>): seq<string> {
    hide Sort, Classes, SeverityOf, Dec;
    var names := Sort(Classes());
    Comments(w.events) + EventLines(false, names, counts)
    + (if last.Some? then Comments(w.last) + EventLines(true, names, last.value) else [])
    + (if bootId.Some? then Comments(w.boot) + [PrintBoot(bootId.value)] else [])
    + Comments(w.stamp) + [STAMP + Dec(now)]
  }

  function Render(w: Wording, counts: Table, now: nat, bootId: Option<string>, last: Option<Table>): string {
    Lines(OutLines(w, counts, now, bootId, last))
  }

  /** The loops of `render_prom`, appending to `out`. */
  method RenderProm(w: Wording, counts: Table, now: nat, bootId: Option<string>, last: Option<Table>) returns (text: string)
    ensures text == Render(w, counts, now, bootId, last)
  {
    hide Sort, Comments, Lines, PrintBoot, SeverityOf, Dec, EventLines;
    var out := Comments(w.events);
    var events := PrintAll(false, counts);
    out := out + events;
    if last.Some? {
      events := PrintAll(true, last.value);
      out := out + (Comments(w.last) + events);
    }
    if bootId.Some? {
      out := out + (Comments(w.boot) + [PrintBoot(bootId.value)]);
    }
    out := out + Comments(w.stamp) + [STAMP + Dec(now)];
    assert out == OutLines(w, counts, now, bootId, last);
    text := Lines(out);
  }

  method PrintAll(last: bool, t: Table) returns (out: seq<string>)
    ensures out == EventLines(last, Sort(Classes()), t)
  {
    hide Sort, PrintEvent, SeverityOf, Classes, Get;
    var names := Sort(Classes());
    out := [];
    for i := 0 to |names|
      invariant EventLines(last, names, t) == out + EventLines(last, names[i..], t)
    {
      var line := PrintEvent(last, names[i], SeverityOf(names[i]), Get(t, names[i]));
      assert names[i..][1..] == names[i + 1..] && names[i..][0] == names[i];
      assert out + ([line] + EventLines(last, names[i + 1..], t)) == (out + [line]) + EventLines(last, names[i + 1..], t);
      out := out + [line];
    }
  }

  // ---------- reading back ----------

  /** `int(float(value))`: `None` is the overflow error. */
  type Convert = Number -> Option<int>

  const EXACT: nat := 0x20_0000_0000_0000
  predicate WellFormed(n: Number) { Digits(n.whole) && forall i :: 0 <= i < |n.fraction| ==> IsDigit(n.fraction[i]) }

  /** What IEEE 754 double precision fixes about the conversion. */
  ghost predicate FloatLaws(conv: Convert) {
    forall n: Number :: WellFormed(n) ==>
      && (conv(n).None? <==> NatOf(n.whole) >= OVERFLOW)
      && (n.fraction == "" && NatOf(n.whole) <= EXACT ==>
            conv(n) == Some(if n.negative then -(NatOf(n.whole) as int) else NatOf(n.whole)))
  }

  /** The laws can be met: cutting off the fraction meets them. */
  function CutOff(n: Number): Option<int> {
    if !WellFormed(n) || NatOf(n.whole) >= OVERFLOW then None
    else Some(if n.negative then -(NatOf(n.whole) as int) else NatOf(n.whole))
  }

  lemma FloatLawsCanHold()
    ensures FloatLaws(CutOff)
  {
    assert EXACT < OVERFLOW;
  }

  datatype Previous = Previous(bootId: Option<string>, counts: Table, last: Table)

  function Nothing(): Previous { Previous(None, Zeros(), Zeros()) }

  function ReadLine(p: Previous, line: string, conv: Convert): Option<Previous> {
    match ParseLine(line)
    case BootLine(id) => Some(p.(bootId := Some(id)))
    case EventLine(last, cls, value) =>
      if cls !in p.counts then Some(p)
      else if conv(value).None? then None
      else if last then Some(p.(last := p.last[cls := conv(value).value]))
      else Some(p.(counts := p.counts[cls := conv(value).value]))
    case OtherLine => Some(p)
  }

  function ReadLines(p: Previous, lines: seq<string>, conv: Convert): Option<Previous>
    decreases |lines|
  {
    if lines == [] then Some(p) else
      var q := ReadLine(p, lines[0], conv);
      if q.None? then None else ReadLines(q.value, lines[1..], conv)
  }

  /** `parse_prom`; `None` when it raises. */
  function Parse(text: string, conv: Convert): Option<Previous> { ReadLines(Nothing(), SplitLines(text), conv) }

  method ParseProm(text: string, conv: Convert) returns (r: Option<Previous>)
    ensures r == Parse(text, conv)
  {
    hide ParseLine, SplitLines;
    var counts, last, bootId := Zeros(), Zeros(), None;
    var lines := SplitLines(text);
    for i := 0 to |lines|
      invariant Parse(text, conv) == ReadLines(Previous(bootId, counts, last), lines[i..], conv)
    {
      assert lines[i..][1..] == lines[i + 1..];
      match ParseLine(lines[i]) {
        case BootLine(id) => bootId := Some(id);
        case EventLine(isLast, cls, value) =>
          if cls in counts {
            var v := conv(value);
            if v.None? { return None; }
            if isLast { last := last[cls := v.value]; } else { counts := counts[cls := v.value]; }
          }
        case OtherLine =>
      }
    }
    return Some(Previous(bootId, counts, last));
  }
}
