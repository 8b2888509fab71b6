/** The per-repository series of the runner metrics: label escaping, and what a reader of the
    exposition format gets back. */
module RunnerLabels {
  import opened Text
  import opened Decimal
  import opened Order

  // ---------- label values ----------

  function EscapeChar(c: char): string {
    if c == '\\' then "\\\\" else if c == '\n' then "\\n" else if c == '"' then "\\\"" else [c]
  }

  function Label(v: string): string {
    if v == "" then "" else EscapeChar(v[0]) + Label(v[1..])
  }

  function UnescapeChar(c: char): Option<char> {
    if c == '\\' then Some('\\') else if c == 'n' then Some('\n') else if c == '"' then Some('"') else None
  }

  /** Reads an escaped label value up to its closing quote: the value, and the text after the
      quote. A raw line break, an unknown escape or a missing quote is an error. */
  function ReadLabel(s: string): (r: Option<(string, string)>)
    ensures r.Some? ==> |r.value.1| < |s|
    decreases |s|
  {
    if s == "" || s[0] == '\n' then None
    else if s[0] == '"' then Some(("", s[1..]))
    else if s[0] == '\\' then
      if |s| < 2 || UnescapeChar(s[1]).None? then None else
        var r := ReadLabel(s[2..]);
        if r.None? then None else Some(([UnescapeChar(s[1]).value] + r.value.0, r.value.1))
    else
      var r := ReadLabel(s[1..]);
      if r.None? then None else Some(([s[0]] + r.value.0, r.value.1))
  }

  lemma ReadOneChar(c: char, tail: string)
    ensures ReadLabel(EscapeChar(c) + tail) ==
            if ReadLabel(tail).None? then None else Some(([c] + ReadLabel(tail).value.0, ReadLabel(tail).value.1))
  {
    var e := EscapeChar(c);
    var s := e + tail;
    assert s[|e|..] == tail;
    assert |e| == 2 ==> UnescapeChar(s[1]) == Some(c);
  }

  /** Escaping is undone by the reader, which stops at the closing quote and not before. */
  lemma {:induction false} ReadUndoesLabel(v: string, rest: string)
    ensures ReadLabel(Label(v) + ("\"" + rest)) == Some((v, rest))
  {
    hide ReadLabel, EscapeChar;
    var end := "\"" + rest;
    if v == "" {
      ReadEnd(rest);
      assert Label(v) + end == end;
    } else {
      var tail := Label(v[1..]);
      ReadUndoesLabel(v[1..], rest);
      ReadOneChar(v[0], tail + end);
      Append(EscapeChar(v[0]), tail, end);
      assert [v[0]] + v[1..] == v;
    }
  }

  lemma ReadEnd(rest: string)
    ensures ReadLabel("\"" + rest) == Some(("", rest))
  {
    assert ("\"" + rest)[1..] == rest;
  }

  /** No raw line break is left. */
  lemma {:induction false} LabelHasNoBreak(v: string)
    ensures '\n' !in Label(v)
  {
    if v != "" { LabelHasNoBreak(v[1..]); }
  }

  lemma LabelInjective(a: string, b: string)
    requires Label(a) == Label(b)
    ensures a == b
  {
    ReadUndoesLabel(a, "");
    ReadUndoesLabel(b, "");
  }

  // ---------- one series ----------

  const LABEL_START := "{repo=\""

  function Sample(name: string, repo: string, value: int): string {
    name + (LABEL_START + (Label(repo) + ("\"" + ("} " + (DecInt(value) + "\n")))))
  }

  function Series(name: string, keys: seq<string>, values: map<string, int>): string
    requires forall k :: k in keys ==> k in values
  {
    if keys == [] then "" else Sample(name, keys[0], values[keys[0]]) + Series(name, keys[1..], values)
  }

  /** The lines of one metric; without any repository a placeholder line. */
  ghost function Lines(name: string, values: map<string, int>): string {
    if |values| == 0 then Sample(name, "none", 0) else Series(name, OrderedKeys(values), values)
  }

  method Render(name: string, values: map<string, int>) returns (out: string)
    ensures out == Lines(name, values)
  {
    hide Sample;
    out := "";
    if |values| == 0 {
      out := out + Sample(name, "none", 0);
    } else {
      var keys := SortedKeys(values);
      for i := 0 to |keys|
        invariant Series(name, keys, values) == out + Series(name, keys[i..], values)
      {
        var line, rest := Sample(name, keys[i], values[keys[i]]), Series(name, keys[i + 1..], values);
        assert keys[i..][1..] == keys[i + 1..];
        assert out + (line + rest) == (out + line) + rest;
        out := out + line;
      }
    }
  }

  // ---------- reading the series back ----------

  datatype Reading = Reading(repo: string, value: int)

  /** The label value, the number and the end of the line. */
  function ReadRest(s: string): (r: Option<(Reading, string)>)
    ensures r.Some? ==> |r.value.1| < |s|
  {
    var l := ReadLabel(s);
    if l.None? || !("} " <= l.value.1) then None else
      var rest := l.value.1[2..];
      var number := TakeUntil(c => c == '\n', rest);
      var value := ReadInt(number);
      if |number| == |rest| || value.None? then None else Some((Reading(l.value.0, value.value), rest[|number| + 1..]))
  }

  /** One sample of metric `name` at the start of `s`, and the text after its line. */
  function ReadSample(name: string, s: string): (r: Option<(Reading, string)>)
    ensures r.Some? ==> |r.value.1| < |s|
  {
    if !(name <= s) || !(LABEL_START <= s[|name|..]) then None else ReadRest(s[|name|..][|LABEL_START|..])
  }

  function ReadInt(s: string): Option<int> {
    if s != "" && s[0] == '-' then (if Digits(s[1..]) then Some(-(NatOf(s[1..]) as int)) else None)
    else if Digits(s) then Some(NatOf(s)) else None
  }

  function ReadSeries(name: string, s: string): Option<seq<Reading>>
    decreases |s|
  {
    if s == "" then Some([]) else
      var r := ReadSample(name, s);
      if r.None? then None else
        var rest := ReadSeries(name, r.value.1);
        if rest.None? then None else Some([r.value.0] + rest.value)
  }

  lemma ReadIntOfDec(i: int)
    ensures ReadInt(DecInt(i)) == Some(i) && '\n' !in DecInt(i)
  {
    NatOfDec(if i < 0 then -i else i);
    if i < 0 { assert DecInt(i)[1..] == Dec(-i); }
    forall k | 0 <= k < |DecInt(i)| ensures DecInt(i)[k] != '\n' { assert IsDigit(DecInt(i)[k]) || DecInt(i)[k] == '-'; }
  }

  lemma ReadRestOf(repo: string, value: int, rest: string)
    ensures ReadRest(Label(repo) + ("\"" + ("} " + (DecInt(value) + ("\n" + rest))))) == Some((Reading(repo, value), rest))
  {
    hide ReadLabel, Label, ReadInt, DecInt;
    var d := DecInt(value);
    var after := d + ("\n" + rest);
    ReadUndoesLabel(repo, "} " + after);
    assert ("} " + after)[2..] == after;
    ReadIntOfDec(value);
    TakeUntilStops(c => c == '\n', d, "\n" + rest);
    assert after[|d| + 1..] == rest;
  }

  lemma Append(a: string, x: string, rest: string)
    ensures (a + x) + rest == a + (x + rest)
  {}

  lemma SampleThen(name: string, repo: string, value: int, rest: string)
    ensures Sample(name, repo, value) + rest ==
            name + (LABEL_START + (Label(repo) + ("\"" + ("} " + (DecInt(value) + ("\n" + rest))))))
  {
    hide Label, DecInt;
    var d := DecInt(value) + "\n";
    var e := "} " + d;
    var f := "\"" + e;
    var g := Label(repo) + f;
    Append(DecInt(value), "\n", rest);
    Append("} ", d, rest);
    Append("\"", e, rest);
    Append(Label(repo), f, rest);
    Append(LABEL_START, g, rest);
    Append(name, LABEL_START + g, rest);
  }

  lemma ReadOneSample(name: string, repo: string, value: int, rest: string)
    ensures ReadSample(name, Sample(name, repo, value) + rest) == Some((Reading(repo, value), rest))
  {
    hide ReadRest, Label, DecInt, Sample;
    var quoted := Label(repo) + ("\"" + ("} " + (DecInt(value) + ("\n" + rest))));
    SampleThen(name, repo, value, rest);
    ReadRestOf(repo, value, rest);
    Prefixes(name, LABEL_START, quoted);
  }

  lemma Prefixes(a: string, b: string, c: string)
    ensures var s := a + (b + c); a <= s && s[|a|..] == b + c && b <= s[|a|..] && s[|a|..][|b|..] == c
  {}

  function Samples(keys: seq<string>, values: map<string, int>): seq<Reading>
    requires forall k :: k in keys ==> k in values
  {
    if keys == [] then [] else [Reading(keys[0], values[keys[0]])] + Samples(keys[1..], values)
  }

  lemma {:induction false} ReadSeriesOf(name: string, keys: seq<string>, values: map<string, int>)
    requires forall k :: k in keys ==> k in values
    ensures ReadSeries(name, Series(name, keys, values)) == Some(Samples(keys, values))
  {
    hide ReadSample, Sample;
    if keys != [] {
      var rest := Series(name, keys[1..], values);
      ReadOneSample(name, keys[0], values[keys[0]], rest);
      ReadSeriesOf(name, keys[1..], values);
    }
  }

  /** A reader gets one sample per repository, with its name and its number, in sorted order. */
  lemma SeriesReadsBack(name: string, values: map<string, int>)
    requires values != map[]
    ensures ReadSeries(name, Lines(name, values)) == Some(Samples(OrderedKeys(values), values))
    ensures forall r :: r in Samples(OrderedKeys(values), values) <==> r.repo in values && values[r.repo] == r.value
    ensures |Samples(OrderedKeys(values), values)| == |values|
  {
    hide ReadSeries, Series;
    var keys := OrderedKeys(values);
    assert |values| != 0 by { var k :| k in values; assert |values.Keys| > 0; }
    ReadSeriesOf(name, keys, values);
    forall r ensures r in Samples(keys, values) <==> r.repo in keys && values[r.repo] == r.value { SampleIn(keys, values, r); }
    SampleCount(keys, values);
    assert |keys| == |values| by { KeyCount(keys, values.Keys); }
  }

  lemma {:induction false} SampleIn(keys: seq<string>, values: map<string, int>, r: Reading)
    requires forall k :: k in keys ==> k in values
    ensures r in Samples(keys, values) <==> r.repo in keys && values[r.repo] == r.value
  {
    if keys != [] {
      SampleIn(keys[1..], values, r);
      assert keys == [keys[0]] + keys[1..];
    }
  }

  lemma {:induction false} SampleCount(keys: seq<string>, values: map<string, int>)
    requires forall k :: k in keys ==> k in values
    ensures |Samples(keys, values)| == |keys|
  {
    if keys != [] { SampleCount(keys[1..], values); }
  }

  lemma {:induction false} KeyCount(keys: seq<string>, all: set<string>)
    requires NoDup(keys) && forall k :: k in keys <==> k in all
    ensures |keys| == |all|
  {
    if keys == [] {
      assert all == {};
    } else {
      assert keys == [keys[0]] + keys[1..];
      assert keys[0] !in keys[1..];
      KeyCount(keys[1..], all - {keys[0]});
      assert keys[0] in all && |all - {keys[0]}| == |all| - 1;
    }
  }

  /** Two repository tables print the same lines only if they are equal, or if they are the
      empty one and the one with the single entry that looks like the placeholder. */
  lemma SeriesTellRepositoriesApart(name: string, a: map<string, int>, b: map<string, int>)
    ensures Lines(name, a) == Lines(name, b) <==> a == b || {a, b} == {map[], map["none" := 0]}
  {
    hide Sample, Series, ReadSeries, Samples, OrderedKeys;
    Meaning(name, a);
    Meaning(name, b);
    if Lines(name, a) == Lines(name, b) {
      SameEntries(Shown(a), Shown(b), ReadSeries(name, Lines(name, a)).value);
    } else if {a, b} == {map[], map["none" := 0]} {
      assert a in {map[], map["none" := 0]} && b in {map[], map["none" := 0]};
      assert map[] in {a, b} && map["none" := 0] in {a, b};
      PlaceholderLines(name);
    }
  }

  function Shown(m: map<string, int>): map<string, int> { if m == map[] then map["none" := 0] else m }

  lemma SameEntries(a: map<string, int>, b: map<string, int>, list: seq<Reading>)
    requires forall r :: r in list <==> r.repo in a && a[r.repo] == r.value
    requires forall r :: r in list <==> r.repo in b && b[r.repo] == r.value
    ensures a == b
  {
    forall k | k in a ensures k in b && b[k] == a[k] { assert Reading(k, a[k]) in list; }
    forall k | k in b ensures k in a { assert Reading(k, b[k]) in list; }
  }

  lemma PlaceholderLines(name: string)
    ensures Lines(name, map[]) == Lines(name, map["none" := 0])
  {
    var m := map["none" := 0];
    var keys := OrderedKeys(m);
    KeyCount(keys, m.Keys);
    assert |m.Keys| == |{"none"}| == 1;
    assert keys[0] in keys && keys == ["none"];
    assert Series(name, keys, m) == Sample(name, "none", 0) + Series(name, [], m);
    assert Sample(name, "none", 0) + "" == Sample(name, "none", 0);
  }

  lemma Meaning(name: string, m: map<string, int>)
    ensures ReadSeries(name, Lines(name, m)).Some?
    ensures forall r :: r in ReadSeries(name, Lines(name, m)).value <==> r.repo in Shown(m) && Shown(m)[r.repo] == r.value
  {
    hide Sample, Series, ReadSeries, Samples;
    if m == map[] {
      PlaceholderLines(name);
      assert map["none" := 0] != map[];
      SeriesReadsBack(name, map["none" := 0]);
    } else {
      SeriesReadsBack(name, m);
    }
  }
}
