/** The texts the container watchdog exchanges with Docker and with its own past:
    the four-number state file and the two inventory listings. */
module WatchdogText {
  import opened Text
  import opened Decimal
  import opened Order

  const MIB := 0x10_0000
  const MAX_CONTAINERS := 4096
  const MAX_VALUE := 0x20_0000_0000_0000
  const INT64_LIMIT := 0x8000_0000_0000_0000

  datatype State = State(consecutive: int, restarts: int, lastRestart: int, lastAlert: int)

  const ZERO := State(0, 0, 0, 0)

  datatype Observation = Observation(state: string, health: string)

  const DOCKER_STATES := {"created", "running", "paused", "restarting", "removing", "exited", "dead"}
  const HEALTH_STATES := {"", "none", "healthy", "unhealthy", "starting"}

  // ---------- the state file ----------

  /** `strconv.ParseInt(s, 10, 64)`. */
  function ParseInt(s: string): Option<int> {
    var negative := s != "" && s[0] == '-';
    var body := if s != "" && (s[0] == '-' || s[0] == '+') then s[1..] else s;
    if !Digits(body) then None
    else
      var v: int := NatOf(body);
      if negative then
        if v > INT64_LIMIT then None else Some(-v)
      else
        if v >= INT64_LIMIT then None else Some(v)
  }

  /** One accepted value of a state file. */
  function StateValue(s: string): Option<int> {
    var v := ParseInt(s);
    if v.None? || v.value < 0 || v.value > MAX_VALUE then None else v
  }

  predicate InRange(s: State) {
    && 0 <= s.consecutive <= MAX_VALUE && 0 <= s.restarts <= MAX_VALUE
    && 0 <= s.lastRestart <= MAX_VALUE && 0 <= s.lastAlert <= MAX_VALUE
  }

  function ParseState(data: string): (r: Option<State>)
    ensures r.Some? ==> InRange(r.value)
  {
    var parts := Fields(GoSpace, data);
    if !(3 <= |parts| <= 4) || exists i :: 0 <= i < |parts| && StateValue(parts[i]).None? then None
    else Some(State(StateValue(parts[0]).value, StateValue(parts[1]).value, StateValue(parts[2]).value,
                    if |parts| == 4 then StateValue(parts[3]).value else 0))
  }

  /** The loop of `ParseState`, filling four cells that start at zero. */
  method ReadState(data: string) returns (r: Option<State>)
    ensures r == ParseState(data)
  {
    var parts := Fields(GoSpace, data);
    if |parts| < 3 || |parts| > 4 { return None; }
    var n := new int[4](_ => 0);
    for i := 0 to |parts|
      invariant forall k :: 0 <= k < i ==> StateValue(parts[k]) == Some(n[k])
      invariant forall k :: i <= k < 4 ==> n[k] == 0
    {
      var v := ParseInt(parts[i]);
      if v.None? || v.value < 0 || v.value > MAX_VALUE {
        assert StateValue(parts[i]).None?;
        return None;
      }
      n[i] := v.value;
    }
    return Some(State(n[0], n[1], n[2], n[3]));
  }

  function Line(word: string, rest: string): string { word + ['\n'] + rest }

  function Bytes(s: State): string {
    Line(DecInt(s.consecutive), Line(DecInt(s.restarts), Line(DecInt(s.lastRestart), Line(DecInt(s.lastAlert), ""))))
  }

  lemma DecIntWord(v: int)
    ensures DecInt(v) != "" && NoneOf(GoSpace, DecInt(v))
  {
    forall i | 0 <= i < |DecInt(v)| ensures !GoSpace(DecInt(v)[i]) {
      assert IsDigit(DecInt(v)[i]) || DecInt(v)[i] == '-';
    }
  }

  lemma DecIntValue(v: int)
    ensures StateValue(DecInt(v)) == if 0 <= v <= MAX_VALUE then Some(v) else None
  {
    if v < 0 {
      assert DecInt(v)[0] == '-' && DecInt(v)[1..] == Dec(-v);
      NatOfDec(-v);
    } else {
      assert IsDigit(Dec(v)[0]);
      NatOfDec(v);
    }
  }

  lemma FieldsOfLine(v: int, rest: string)
    ensures Fields(GoSpace, Line(DecInt(v), rest)) == [DecInt(v)] + Fields(GoSpace, rest)
  {
    DecIntWord(v);
    FieldsHead(GoSpace, DecInt(v), '\n', rest);
  }

  lemma FieldsOfNothing()
    ensures Fields(GoSpace, "") == []
  {}

  lemma FieldsOfBytes(s: State)
    ensures Fields(GoSpace, Bytes(s)) ==
            [DecInt(s.consecutive), DecInt(s.restarts), DecInt(s.lastRestart), DecInt(s.lastAlert)]
  {
    hide Fields, Line, DecInt;
    assert Fields(GoSpace, "") == [] by { FieldsOfNothing(); }
    var t3 := Line(DecInt(s.lastAlert), "");
    var t2 := Line(DecInt(s.lastRestart), t3);
    var t1 := Line(DecInt(s.restarts), t2);
    FieldsOfLine(s.consecutive, t1);
    FieldsOfLine(s.restarts, t2);
    FieldsOfLine(s.lastRestart, t3);
    FieldsOfLine(s.lastAlert, "");
  }

  /** A saved state reads back as itself exactly when its values are within 0 and 2^53;
      any other saved state is refused, so the next scan fails closed. */
  lemma ParseBytes(s: State)
    ensures ParseState(Bytes(s)) == if InRange(s) then Some(s) else None
  {
    FieldsOfBytes(s);
    DecIntValue(s.consecutive); DecIntValue(s.restarts); DecIntValue(s.lastRestart); DecIntValue(s.lastAlert);
    var parts := [DecInt(s.consecutive), DecInt(s.restarts), DecInt(s.lastRestart), DecInt(s.lastAlert)];
    ParseParts(Bytes(s), parts);
  }

  lemma ParseParts(data: string, parts: seq<string>)
    requires Fields(GoSpace, data) == parts && |parts| == 4
    ensures ParseState(data) ==
            if StateValue(parts[0]).Some? && StateValue(parts[1]).Some? && StateValue(parts[2]).Some? && StateValue(parts[3]).Some?
            then Some(State(StateValue(parts[0]).value, StateValue(parts[1]).value, StateValue(parts[2]).value, StateValue(parts[3]).value))
            else None
  {
    hide Fields, StateValue;
  }

  // ---------- the unhealthy listing ----------

  predicate NameStart(c: char) { 'A' <= c <= 'Z' || 'a' <= c <= 'z' || '0' <= c <= '9' }

  predicate NameChar(c: char) { NameStart(c) || c == '_' || c == '.' || c == '-' }

  /** `^[A-Za-z0-9][A-Za-z0-9_.-]{0,127}$` */
  predicate NamePattern(n: string) {
    1 <= |n| <= 128 && NameStart(n[0]) && forall i :: 1 <= i < |n| ==> NameChar(n[i])
  }

  ghost predicate GoodNames(list: seq<string>) {
    |list| <= MAX_CONTAINERS && NoDup(list) && forall i :: 0 <= i < |list| ==> NamePattern(list[i])
  }

  ghost function Names(data: string): Option<seq<string>> {
    var list := Fields(GoSpace, data);
    if Utf8Length(data) > MIB || !GoodNames(list) then None else Some(Sort(list))
  }

  method ReadNames(data: string) returns (r: Option<seq<string>>)
    ensures r == Names(data)
  {
    hide Fields, Sort, NamePattern, Utf8Length;
    if Utf8Length(data) > MIB { return None; }
    var list := Fields(GoSpace, data);
    if |list| > MAX_CONTAINERS { return None; }
    var seen: set<string> := {};
    for i := 0 to |list|
      invariant forall k :: 0 <= k < i ==> list[k] in seen && NamePattern(list[k])
      invariant forall n :: n in seen ==> exists k :: 0 <= k < i && list[k] == n
      invariant forall j, k :: 0 <= j < k < i ==> list[j] != list[k]
    {
      if !NamePattern(list[i]) || list[i] in seen {
        return None;
      }
      seen := seen + {list[i]};
    }
    return Some(Sort(list));
  }

  // ---------- the full listing ----------

  datatype Row = Row(name: string, obs: Observation)

  function ParseRow(line: string): Option<Row> {
    var p := Split(line, '|');
    if |p| != 3 || !NamePattern(p[0]) || p[1] !in DOCKER_STATES || p[2] !in HEALTH_STATES then None
    else Some(Row(p[0], Observation(p[1], p[2])))
  }

  /** Adds the rows of `lines` to `rows`; refuses a malformed or a repeated row. */
  function AddRows(lines: seq<string>, rows: map<string, Observation>): (r: Option<map<string, Observation>>)
    requires forall n :: n in rows ==> NamePattern(n)
    ensures r.Some? ==> rows.Keys <= r.value.Keys && forall n :: n in r.value ==> NamePattern(n)
  {
    if lines == [] then Some(rows)
    else if lines[0] == "" then AddRows(lines[1..], rows)
    else
      var row := ParseRow(lines[0]);
      if row.None? || row.value.name in rows then None
      else AddRows(lines[1..], rows[row.value.name := row.value.obs])
  }

  function Inventory(data: string): (r: Option<map<string, Observation>>)
    ensures r.Some? ==> forall n :: n in r.value ==> NamePattern(n)
  {
    if Utf8Length(data) > MIB then None else
      var rows := AddRows(Split(Strip(GoSpace, data), '\n'), map[]);
      if rows.None? || |rows.value| > MAX_CONTAINERS then None else rows
  }

  method ReadInventory(data: string) returns (names: seq<string>, r: Option<map<string, Observation>>)
    ensures r == Inventory(data)
    ensures r.Some? ==> Sorted(names) && NoDup(names) && forall n :: n in names <==> n in r.value
  {
    names := [];
    if Utf8Length(data) > MIB { return names, None; }
    var rows: map<string, Observation> := map[];
    var lines := Split(Strip(GoSpace, data), '\n');
    for i := 0 to |lines|
      invariant forall n :: n in rows ==> NamePattern(n)
      invariant AddRows(lines, map[]) == AddRows(lines[i..], rows)
    {
      var line := lines[i];
      assert lines[i..][1..] == lines[i + 1..];
      if line != "" {
        var p := Split(line, '|');
        if |p| != 3 || !NamePattern(p[0]) { return names, None; }
        if p[0] in rows { return names, None; }
        if p[1] !in DOCKER_STATES { return names, None; }
        if p[2] !in HEALTH_STATES { return names, None; }
        rows := rows[p[0] := Observation(p[1], p[2])];
      }
    }
    if |rows| > MAX_CONTAINERS { return names, None; }
    names := SortedKeys(rows);
    return names, Some(rows);
  }

  // ---------- what Docker prints is read back ----------

  function RowLine(n: string, o: Observation): string { n + ['|'] + (o.state + ['|'] + o.health) }

  predicate ValidObservation(o: Observation) { o.state in DOCKER_STATES && o.health in HEALTH_STATES }

  predicate PlainChar(c: char) { c != '|' && !GoSpace(c) }

  lemma ObservationPlain(o: Observation)
    requires ValidObservation(o)
    ensures AllOf(PlainChar, o.state) && AllOf(PlainChar, o.health)
  {
    StatePlain(o.state);
    assert o.health in ["", "none", "healthy", "unhealthy", "starting"];
  }

  lemma StatePlain(t: string)
    requires t in DOCKER_STATES
    ensures AllOf(PlainChar, t)
  {
    assert t in ["created", "running", "paused", "restarting", "removing", "exited", "dead"];
  }

  lemma NamePlain(n: string)
    requires NamePattern(n)
    ensures AllOf(PlainChar, n)
  {}

  lemma SplitThree(a: string, b: string, c: string)
    requires '|' !in a && '|' !in b && '|' !in c
    ensures Split(a + ['|'] + (b + ['|'] + c), '|') == [a, b, c]
  {
    SplitHead(a, '|', b + ['|'] + c);
    SplitHead(b, '|', c);
    SplitWord(c, '|');
  }

  lemma ParseRowLine(n: string, o: Observation)
    requires NamePattern(n) && ValidObservation(o)
    ensures ParseRow(RowLine(n, o)) == Some(Row(n, o))
  {
    hide Split, NamePattern;
    assert '|' !in n && '|' !in o.state && '|' !in o.health by {
      ObservationPlain(o);
      NamePlain(n);
    }
    SplitThree(n, o.state, o.health);
  }

  lemma RowLineShape(n: string, o: Observation)
    requires NamePattern(n) && ValidObservation(o)
    ensures NoneOf(GoSpace, RowLine(n, o)) && RowLine(n, o) != "" && '\n' !in RowLine(n, o)
  {
    ObservationPlain(o);
    NamePlain(n);
    var t := RowLine(n, o);
    assert NoneOf(GoSpace, o.state + ['|'] + o.health);
    forall i | 0 <= i < |t| ensures !GoSpace(t[i]) {}
    forall i | 0 <= i < |t| ensures t[i] != '\n' { assert !GoSpace(t[i]); }
  }

  ghost predicate Listable(names: seq<string>, m: map<string, Observation>) {
    forall n :: n in names ==> n in m && NamePattern(n) && ValidObservation(m[n])
  }

  /** `docker ps -a` output for the rows of `m`, listed in the order `names`. */
  function Listing(names: seq<string>, m: map<string, Observation>): string
    requires forall n :: n in names ==> n in m
  {
    if names == [] then "" else Line(RowLine(names[0], m[names[0]]), Listing(names[1..], m))
  }

  function Lines(names: seq<string>, m: map<string, Observation>): seq<string>
    requires forall n :: n in names ==> n in m
  {
    if names == [] then [] else [RowLine(names[0], m[names[0]])] + Lines(names[1..], m)
  }

  ghost predicate Trimmed(t: string) { t != "" && !GoSpace(t[0]) && !GoSpace(t[|t| - 1]) }

  lemma TrimmedLine(t: string, rest: string)
    requires Trimmed(t) && Trimmed(rest)
    ensures Trimmed(Line(t, rest))
  {}

  lemma TrimmedRow(t: string)
    requires t != "" && NoneOf(GoSpace, t)
    ensures Trimmed(t)
  {}

  lemma {:induction false} ListingLines(names: seq<string>, m: map<string, Observation>)
    requires names != [] && Listable(names, m)
    ensures Listing(names, m) == Line(Join(Lines(names, m), '\n'), "")
    ensures Trimmed(Join(Lines(names, m), '\n'))
    ensures Split(Join(Lines(names, m), '\n'), '\n') == Lines(names, m)
  {
    hide RowLine, NamePattern, ValidObservation, Split, Trimmed;
    var n := names[0];
    var line := RowLine(n, m[n]);
    RowLineShape(n, m[n]);
    TrimmedRow(line);
    if |names| == 1 {
      assert names[1..] == [];
      assert Lines(names, m) == [line];
      SplitWord(line, '\n');
    } else {
      ListingLines(names[1..], m);
      var rest := Lines(names[1..], m);
      var text := Join(rest, '\n');
      assert Lines(names, m)[1..] == rest;
      assert Join(Lines(names, m), '\n') == Line(line, text);
      assert Listing(names, m) == Line(line, Line(text, "")) == Line(Line(line, text), "");
      SplitHead(line, '\n', text);
      TrimmedLine(line, text);
    }
  }

  lemma {:induction false} AddListedRows(names: seq<string>, m: map<string, Observation>, rows: map<string, Observation>)
    requires NoDup(names) && Listable(names, m)
    requires forall n :: n in rows ==> NamePattern(n) && n !in names
    ensures AddRows(Lines(names, m), rows) == Some(rows + map n | n in names :: m[n])
  {
    if names == [] {
      assert rows + (map n | n in names :: m[n]) == rows;
    } else {
      var n := names[0];
      ParseRowLine(n, m[n]);
      RowLineShape(n, m[n]);
      AddListedRows(names[1..], m, rows[n := m[n]]);
      assert Lines(names, m)[1..] == Lines(names[1..], m);
      AddOne(names, m, rows);
    }
  }

  lemma AddOne(names: seq<string>, m: map<string, Observation>, rows: map<string, Observation>)
    requires names != [] && names[0] !in names[1..] && forall n :: n in names ==> n in m
    ensures rows[names[0] := m[names[0]]] + (map k | k in names[1..] :: m[k]) == rows + (map k | k in names :: m[k])
  {
    assert forall k :: k in names <==> k == names[0] || k in names[1..];
  }

  lemma NothingListed(names: seq<string>, m: map<string, Observation>)
    requires names == []
    ensures Listing(names, m) == ""
  {}

  lemma BlankListing()
    ensures AddRows(Split(Strip(GoSpace, ""), '\n'), map[]) == Some(map[])
  {
    SplitWord("", '\n');
    assert [""][1..] == [];
  }

  lemma RowsOfListing(names: seq<string>, m: map<string, Observation>)
    requires NoDup(names) && Listable(names, m)
    ensures AddRows(Split(Strip(GoSpace, Listing(names, m)), '\n'), map[]) == Some(map n | n in names :: m[n])
  {
    hide Listing, Lines, Strip, Split, Join, AddRows, NamePattern, ValidObservation, Trimmed, NoDup;
    if names == [] {
      assert Listing(names, m) == "" by { NothingListed(names, m); }
      BlankListing();
    } else {
      ListingLines(names, m);
      StripFinal(Join(Lines(names, m), '\n'));
      AddListedRows(names, m, map[]);
      assert map[] + (map n | n in names :: m[n]) == map n | n in names :: m[n];
    }
  }

  /** Whatever order Docker lists well-formed containers in, the scan sees exactly them. */
  lemma InventoryOfListing(names: seq<string>, m: map<string, Observation>)
    requires NoDup(names) && forall n :: n in names <==> n in m
    requires forall n :: n in m ==> NamePattern(n) && ValidObservation(m[n])
    ensures Inventory(Listing(names, m)) ==
            if Utf8Length(Listing(names, m)) <= MIB && |m| <= MAX_CONTAINERS then Some(m) else None
  {
    hide Listing, AddRows, Split, Strip, Utf8Length, NamePattern, ValidObservation;
    RowsOfListing(names, m);
    assert (map n | n in names :: m[n]) == m;
  }

  lemma StripFinal(t: string)
    requires Trimmed(t)
    ensures Strip(GoSpace, Line(t, "")) == t
  {
    var u := Line(t, "");
    assert DropWhile(GoSpace, u) == u;
    assert u[..|u| - 1] == t;
    assert DropEndWhile(GoSpace, u) == DropEndWhile(GoSpace, t);
  }

  predicate EligibleUnhealthy(o: Observation) {
    o.health == "unhealthy" && (o.state == "running" || o.state == "paused" || o.state == "restarting")
  }

  /** Proof of readiness: the only observation that clears a failed restart. */
  predicate Ready(o: Observation) { o.state == "running" && o.health == "healthy" }

  // ---------- what is accepted, and nothing else ----------

  /** A value is an optional sign and digits, from 0 to 2^53; a minus sign only before zeros. */
  lemma ValueExactly(s: string, v: int)
    ensures StateValue(s) == Some(v) <==>
              || (Digits(s) && NatOf(s) == v <= 0x20_0000_0000_0000)
              || (s != "" && s[0] == '+' && Digits(s[1..]) && NatOf(s[1..]) == v <= 0x20_0000_0000_0000)
              || (s != "" && s[0] == '-' && Digits(s[1..]) && NatOf(s[1..]) == v == 0)
  {
    assert Digits(s) ==> IsDigit(s[0]);
  }

  /** The file of an older release has three values; the stamp of the last alert is then zero. Fewer
      than three words, or more than four, are refused. */
  lemma LegacyState(data: string)
    ensures var parts := Fields(GoSpace, data);
            && (|parts| < 3 || |parts| > 4 ==> ParseState(data) == None)
            && (|parts| == 3 && StateValue(parts[0]).Some? && StateValue(parts[1]).Some? && StateValue(parts[2]).Some? ==>
                  ParseState(data) == Some(State(StateValue(parts[0]).value, StateValue(parts[1]).value, StateValue(parts[2]).value, 0)))
  {
    hide Fields, StateValue;
  }

  /** A row is accepted exactly when it is a well-formed name, one of Docker's seven states and one
      of its health states, between two bars. */
  lemma RowExactly(line: string, n: string, o: Observation)
    ensures ParseRow(line) == Some(Row(n, o)) <==>
              && line == n + ['|'] + (o.state + ['|'] + o.health) && NamePattern(n)
              && o.state in {"created", "running", "paused", "restarting", "removing", "exited", "dead"}
              && o.health in {"", "none", "healthy", "unhealthy", "starting"}
  {
    hide NamePattern, Split;
    if line == n + ['|'] + (o.state + ['|'] + o.health) && NamePattern(n) && ValidObservation(o) { ParseRowLine(n, o); }
    if ParseRow(line) == Some(Row(n, o)) {
      var p := Split(line, '|');
      JoinSplit(line, '|');
      assert p == [n, o.state, o.health];
      assert p[1..] == [o.state, o.health] && p[1..][1..] == [o.health];
      assert Join(p[1..], '|') == o.state + ['|'] + o.health;
    }
  }

  ghost predicate Fresh(lines: seq<string>, rows: map<string, Observation>) {
    forall i :: 0 <= i < |lines| && lines[i] != "" ==> FreshAt(lines, rows, i)
  }

  /** The line is a row of a name that no earlier line and no entry of `rows` has. */
  ghost predicate FreshAt(lines: seq<string>, rows: map<string, Observation>, i: int)
    requires 0 <= i < |lines|
  {
    && ParseRow(lines[i]).Some? && ParseRow(lines[i]).value.name !in rows
    && forall j :: 0 <= j < i && lines[j] != "" ==> ParseRow(lines[j]).Some? && ParseRow(lines[j]).value.name != ParseRow(lines[i]).value.name
  }

  predicate Lists(rows: map<string, Observation>, n: string, o: Observation) { n in rows && rows[n] == o }

  /** An inventory is accepted only if every line that is not blank is a row, and no name comes
      twice; then it holds those rows and no others. */
  lemma {:induction false} RowsExactly(lines: seq<string>, rows: map<string, Observation>)
    requires forall n :: n in rows ==> NamePattern(n)
    ensures AddRows(lines, rows).Some? <==> Fresh(lines, rows)
    ensures AddRows(lines, rows).Some? ==>
              forall n, o :: Lists(AddRows(lines, rows).value, n, o) <==> Lists(rows, n, o) || HasRow(lines, n, o)
  {
    hide ParseRow, NamePattern, HasRow, Fresh, FreshAt;
    NoRow();
    if lines != [] {
      var line, rest := lines[0], lines[1..];
      assert forall i :: 1 <= i < |lines| ==> lines[i] == rest[i - 1];
      if line == "" {
        RowsExactly(rest, rows);
        assert AddRows(lines, rows) == AddRows(rest, rows);
        FreshRest(lines, rows, rows);
        HasRowRest(lines);
      } else if ParseRow(line).Some? && ParseRow(line).value.name !in rows {
        var row := ParseRow(line).value;
        NamedWell(line);
        var more := rows[row.name := row.obs];
        RowsExactly(rest, more);
        FreshRest(lines, rows, more);
        HasRowRest(lines);
        assert AddRows(lines, rows) == AddRows(rest, more);
        forall n, o ensures Lists(more, n, o) <==> Lists(rows, n, o) || Row(n, o) == row {}
      } else {
        if Fresh(lines, rows) { FirstIsFresh(lines, rows); }
      }
    }
  }

  lemma NoRow()
    ensures forall n, o :: !HasRow([], n, o)
    ensures forall rows :: Fresh([], rows)
  {}

  lemma FirstIsFresh(lines: seq<string>, rows: map<string, Observation>)
    requires lines != [] && lines[0] != "" && Fresh(lines, rows)
    ensures ParseRow(lines[0]).Some? && ParseRow(lines[0]).value.name !in rows
  {
    hide ParseRow;
    assert FreshAt(lines, rows, 0);
  }

  lemma NamedWell(line: string)
    ensures ParseRow(line).Some? ==> NamePattern(ParseRow(line).value.name)
  {
    hide NamePattern, Split;
  }

  ghost predicate HasRow(lines: seq<string>, n: string, o: Observation) {
    exists i :: 0 <= i < |lines| && lines[i] != "" && ParseRow(lines[i]) == Some(Row(n, o))
  }

  lemma HasRowRest(lines: seq<string>)
    requires lines != []
    ensures forall n, o :: HasRow(lines, n, o) <==> (lines[0] != "" && ParseRow(lines[0]) == Some(Row(n, o))) || HasRow(lines[1..], n, o)
  {
    hide ParseRow;
    assert forall i :: 0 <= i < |lines[1..]| ==> lines[1..][i] == lines[i + 1];
    forall n, o | HasRow(lines, n, o) && !(lines[0] != "" && ParseRow(lines[0]) == Some(Row(n, o))) ensures HasRow(lines[1..], n, o) {
      var i :| 0 <= i < |lines| && lines[i] != "" && ParseRow(lines[i]) == Some(Row(n, o));
      assert lines[1..][i - 1] == lines[i];
    }
  }

  /** The first line, when it is blank or a fresh row, leaves the rest to be fresh. */
  lemma FreshRest(lines: seq<string>, rows: map<string, Observation>, more: map<string, Observation>)
    requires lines != []
    requires if lines[0] == "" then more == rows
             else ParseRow(lines[0]).Some? && ParseRow(lines[0]).value.name !in rows && more == rows[ParseRow(lines[0]).value.name := ParseRow(lines[0]).value.obs]
    ensures Fresh(lines, rows) <==> Fresh(lines[1..], more)
  {
    hide ParseRow;
    var rest := lines[1..];
    assert forall i :: 0 <= i < |rest| ==> rest[i] == lines[i + 1];
    if Fresh(lines, rows) {
      forall i | 0 <= i < |rest| && rest[i] != "" ensures FreshAt(rest, more, i) { assert FreshAt(lines, rows, i + 1); }
    }
    if Fresh(rest, more) {
      forall i | 0 <= i < |lines| && lines[i] != "" ensures FreshAt(lines, rows, i) {
        if i > 0 {
          assert FreshAt(rest, more, i - 1);
          forall j | 0 <= j < i && lines[j] != "" ensures ParseRow(lines[j]).Some? && ParseRow(lines[j]).value.name != ParseRow(lines[i]).value.name {
            if j > 0 { assert lines[j] == rest[j - 1]; }
          }
        }
      }
    }
  }

  /** A name has 1 to 128 characters: ASCII letters and digits, and after the first also `_`, `.` and `-`. */
  lemma NameExactly(n: string)
    ensures NamePattern(n) <==>
              && 1 <= |n| <= 128
              && forall i :: 0 <= i < |n| ==> ('A' <= n[i] <= 'Z' || 'a' <= n[i] <= 'z' || '0' <= n[i] <= '9' || (i > 0 && n[i] in "_.-"))
  {}

  /** The filtered listing is accepted exactly when it has at most 2^20 bytes and 4096 words, all
      distinct and names; it comes back sorted. */
  lemma NamesExactly(data: string)
    ensures var words := Fields(GoSpace, data);
            && (Names(data).Some? <==>
                  && Utf8Length(data) <= 0x10_0000 && |words| <= 4096
                  && (forall i :: 0 <= i < |words| ==> NamePattern(words[i]))
                  && forall i, j :: 0 <= i < j < |words| ==> words[i] != words[j])
            && (Names(data).Some? ==> Sorted(Names(data).value) && multiset(Names(data).value) == multiset(words))
  {
    hide Fields, NamePattern, Utf8Length, Leq;
    SortSorted(Fields(GoSpace, data));
  }

  /** The full listing is accepted exactly when it has at most 2^20 bytes, its lines are distinct
      rows, and there are at most 4096 of them. */
  lemma InventoryExactly(data: string)
    ensures var lines := Split(Strip(GoSpace, data), '\n');
            && (Inventory(data).Some? <==> Utf8Length(data) <= 0x10_0000 && AddRows(lines, map[]).Some? && |AddRows(lines, map[]).value| <= 4096)
            && (AddRows(lines, map[]).Some? <==> Fresh(lines, map[]))
            && (Inventory(data).Some? ==> forall n, o :: Lists(Inventory(data).value, n, o) <==> HasRow(lines, n, o))
  {
    hide Split, Strip, Utf8Length, Fresh, HasRow, NamePattern;
    RowsExactly(Split(Strip(GoSpace, data), '\n'), map[]);
  }
}
