/** Reading the health of an NFS mount: the status listing, the probes, the inspection. */
module NfsStatus {
  import opened Text

  datatype State = Healthy | Hung | Unknown | Unmounted

  function Name(s: State): string {
    match s
    case Healthy => "healthy"
    case Hung => "hung"
    case Unknown => "unknown"
    case Unmounted => "unmounted"
  }

  /** The first place of `pattern` in `s`. */
  function Find(s: string, pattern: string): Option<nat> {
    if pattern <= s then Some(0)
    else if s == "" then None
    else
      var rest := Find(s[1..], pattern);
      if rest.None? then None else Some(rest.value + 1)
  }

  predicate Contains(s: string, pattern: string) { Find(s, pattern).Some? }

  ghost predicate NotBefore(s: string, pattern: string, k: int) {
    forall j :: 0 <= j < k && j <= |s| ==> !(pattern <= s[j..])
  }

  lemma {:induction false} FindIsFirst(s: string, pattern: string)
    ensures match Find(s, pattern)
            case Some(i) => i <= |s| && pattern <= s[i..] && NotBefore(s, pattern, i)
            case None => NotBefore(s, pattern, |s| + 1)
  {
    assert s[0..] == s;
    if !(pattern <= s) && s != "" {
      FindIsFirst(s[1..], pattern);
      match Find(s[1..], pattern)
      case Some(i) =>
        assert s[i + 1..] == s[1..][i..];
        NotBeforeNext(s, pattern, i);
      case None =>
        NotBeforeNext(s, pattern, |s|);
    }
  }

  lemma NotBeforeNext(s: string, pattern: string, k: nat)
    requires s != "" && !(pattern <= s) && NotBefore(s[1..], pattern, k)
    ensures NotBefore(s, pattern, k + 1)
  {
    forall j | 0 <= j < k + 1 && j <= |s| ensures !(pattern <= s[j..]) {
      if j > 0 { assert s[j..] == s[1..][j - 1..]; } else { assert s[0..] == s; }
    }
  }

  const FROM := " from "
  const FLAGS := "Status flags:"

  /** A line that opens the section of one mount, and the mount's name. */
  predicate IsHeader(line: string) { Contains(line, FROM) && !(" " <= line) }

  function HeaderName(line: string): string
    requires IsHeader(line)
  {
    FindIsFirst(line, FROM);
    line[..Find(line, FROM).value]
  }

  predicate IsFlags(line: string) { !IsHeader(line) && Contains(line, FLAGS) }

  function FlagState(line: string): State
    requires IsFlags(line)
  {
    FindIsFirst(line, FLAGS);
    var at := Find(line, FLAGS).value;
    assert |FLAGS| <= |line[at..]|;
    var flags := Strip(PySpace, line[at + |FLAGS|..]);
    if Contains(flags, "not responding") then Hung else if flags == "0x0" then Healthy else Unknown
  }

  /** Line `j` states the flags of `target`: the last header before it names the target. */
  predicate Tells(lines: seq<string>, j: nat, target: string)
    requires j < |lines|
  {
    IsFlags(lines[j]) && exists h :: 0 <= h < j && IsHeader(lines[h]) && HeaderName(lines[h]) == target && NoHeader(lines, h + 1, j)
  }

  predicate NoHeader(lines: seq<string>, from: nat, to: nat)
    requires to <= |lines|
  {
    forall i :: from <= i < to ==> !IsHeader(lines[i])
  }

  function StatusFrom(lines: seq<string>, target: string, j: nat): State
    requires j <= |lines|
    decreases |lines| - j
  {
    if j == |lines| then Unknown else if Tells(lines, j, target) then FlagState(lines[j]) else StatusFrom(lines, target, j + 1)
  }

  function Status(lines: seq<string>, target: string): State { StatusFrom(lines, target, 0) }

  method MountStatus(lines: seq<string>, target: string) returns (state: State)
    ensures state == Status(lines, target)
  {
    hide Find, FlagState, HeaderName;
    var inTarget := false;
    ghost var last: int := -1;
    for j := 0 to |lines|
      invariant -1 <= last < j && NoHeader(lines, last + 1, j) && (last >= 0 ==> IsHeader(lines[last]))
      invariant inTarget == (last >= 0 && HeaderName(lines[last]) == target)
      invariant Status(lines, target) == StatusFrom(lines, target, j)
    {
      var line := lines[j];
      if IsHeader(line) {
        inTarget := HeaderName(line) == target;
        last := j;
      } else if inTarget && Contains(line, FLAGS) {
        assert Tells(lines, j, target) by { assert NoHeader(lines, last + 1, j); }
        return FlagState(line);
      } else {
        TellsInTarget(lines, j, target, last);
      }
    }
    return Unknown;
  }

  lemma TellsInTarget(lines: seq<string>, j: nat, target: string, last: int)
    requires j < |lines| && -1 <= last < j && NoHeader(lines, last + 1, j) && (last >= 0 ==> IsHeader(lines[last]))
    ensures Tells(lines, j, target) ==> IsFlags(lines[j]) && last >= 0 && HeaderName(lines[last]) == target
  {
    hide Find, HeaderName;
    if Tells(lines, j, target) {
      var h :| 0 <= h < j && IsHeader(lines[h]) && HeaderName(lines[h]) == target && NoHeader(lines, h + 1, j);
      OneLastHeader(lines, h, last, j);
    }
  }

  lemma OneLastHeader(lines: seq<string>, h: nat, last: int, j: nat)
    requires h < j <= |lines| && -1 <= last < j && NoHeader(lines, h + 1, j) && NoHeader(lines, last + 1, j)
    requires IsHeader(lines[h]) && (last >= 0 ==> IsHeader(lines[last]))
    ensures last == h
  {}

  ghost predicate FirstToTell(lines: seq<string>, j: int, target: string) {
    0 <= j < |lines| && Tells(lines, j, target) && forall i :: 0 <= i < j ==> !Tells(lines, i, target)
  }

  lemma {:induction false} StatusIsFirst(lines: seq<string>, target: string, from: nat)
    requires from <= |lines| && forall i :: 0 <= i < from ==> !Tells(lines, i, target)
    ensures (forall j :: 0 <= j < |lines| ==> !Tells(lines, j, target)) ==> StatusFrom(lines, target, from) == Unknown
    ensures forall j :: FirstToTell(lines, j, target) ==> StatusFrom(lines, target, from) == FlagState(lines[j])
    decreases |lines| - from
  {
    hide Tells, FlagState;
    if from < |lines| && !Tells(lines, from, target) { StatusIsFirst(lines, target, from + 1); }
  }

  /** The status of a mount is decided by the first flags line in a section headed by exactly
      that mount; without one it is unknown. */
  lemma StatusMeaning(lines: seq<string>, target: string)
    ensures forall j :: FirstToTell(lines, j, target) ==> Status(lines, target) == FlagState(lines[j])
    ensures (forall j :: 0 <= j < |lines| ==> !Tells(lines, j, target)) ==> Status(lines, target) == Unknown
  {
    hide Tells, FlagState;
    StatusIsFirst(lines, target, 0);
  }

  // ---------- health ----------

  function ProbeReason(code: int): string {
    match code
    case 0 => "read_ok"
    case 2 => "missing_probe"
    case 3 => "invalid_probe"
    case 4 => "io_error"
    case 5 => "read_denied"
    case 124 => "timeout"
    case _ => "probe_failed"
  }

  datatype Finding = Finding(state: State, reason: string)

  function ProbeFinding(code: int): Finding {
    Finding(if ProbeReason(code) in ["timeout", "io_error"] then Hung else Unknown, ProbeReason(code))
  }

  /** The first failing probe decides. */
  function Probed(codes: seq<int>): Finding {
    if codes == [] then Finding(Healthy, "read_ok") else if codes[0] == 0 then Probed(codes[1..]) else ProbeFinding(codes[0])
  }

  function Health(target: string, codes: seq<int>, statusCode: int, lines: seq<string>): Finding {
    if statusCode != 0 then Finding(Unknown, "nfsstat_failed")
    else if Status(lines, target) != Healthy then Finding(Status(lines, target), "nfsstat_" + Name(Status(lines, target)))
    else Probed(codes)
  }

  method CheckHealth(target: string, codes: seq<int>, statusCode: int, lines: seq<string>) returns (f: Finding)
    ensures f == Health(target, codes, statusCode, lines)
  {
    hide Tells, FlagState;
    if statusCode != 0 { return Finding(Unknown, "nfsstat_failed"); }
    var state := MountStatus(lines, target);
    if state != Healthy { return Finding(state, "nfsstat_" + Name(state)); }
    for i := 0 to |codes|
      invariant Probed(codes) == Probed(codes[i..])
    {
      assert codes[i..][1..] == codes[i + 1..];
      if codes[i] != 0 {
        var reason := ProbeReason(codes[i]);
        return Finding(if reason == "timeout" || reason == "io_error" then Hung else Unknown, reason);
      }
    }
    return Finding(Healthy, "read_ok");
  }

  lemma {:induction false} ProbedMeaning(codes: seq<int>)
    ensures Probed(codes).state == Healthy <==> forall i :: 0 <= i < |codes| ==> codes[i] == 0
    ensures Probed(codes).state == Hung <==>
            exists i :: 0 <= i < |codes| && codes[i] in {4, 124} && forall j :: 0 <= j < i ==> codes[j] == 0
    ensures Probed(codes).state != Unmounted
  {
    if codes != [] && codes[0] == 0 {
      ProbedMeaning(codes[1..]);
      var tail := codes[1..];
      assert forall i :: 0 <= i < |tail| ==> tail[i] == codes[i + 1];
      forall i | 0 <= i < |tail| && tail[i] in {4, 124} && (forall j :: 0 <= j < i ==> tail[j] == 0)
        ensures codes[i + 1] in {4, 124} && forall j :: 0 <= j < i + 1 ==> codes[j] == 0
      {
        forall j | 0 <= j < i + 1 ensures codes[j] == 0 { if j > 0 { assert tail[j - 1] == 0; } }
      }
    }
  }

  /** A mount is healthy only if the status listing answered, says so, and every bounded read
      succeeded; it is hung exactly when the listing says so or a read was the first to fail by
      a time-out or an I/O error. */
  lemma HealthMeaning(target: string, codes: seq<int>, statusCode: int, lines: seq<string>)
    ensures var f := Health(target, codes, statusCode, lines);
            && (f.state == Healthy <==> statusCode == 0 && Status(lines, target) == Healthy && forall i :: 0 <= i < |codes| ==> codes[i] == 0)
            && (f.state == Hung <==>
                (statusCode == 0 && Status(lines, target) == Hung) ||
                (statusCode == 0 && Status(lines, target) == Healthy &&
                 exists i :: 0 <= i < |codes| && codes[i] in {4, 124} && forall j :: 0 <= j < i ==> codes[j] == 0))
            && f.state != Unmounted
  {
    hide Tells, FlagState, StatusFrom;
    ProbedMeaning(codes);
    NeverUnmounted(lines, target, 0);
  }

  lemma {:induction false} NeverUnmounted(lines: seq<string>, target: string, from: nat)
    requires from <= |lines|
    ensures StatusFrom(lines, target, from) != Unmounted
    decreases |lines| - from
  {
    hide Tells;
    if from < |lines| { NeverUnmounted(lines, target, from + 1); }
  }

  // ---------- inspection ----------

  /** One export: the source it is mounted from, if the mount listing could be read. */
  function Inspect(listed: bool, source: string, target: string, codes: seq<int>, statusCode: int, lines: seq<string>): Finding {
    if !listed then Finding(Unknown, "mount_list_failed")
    else if source == "" then Finding(Unmounted, "mount_absent")
    else Health(target, codes, statusCode, lines)
  }

  /** Unmounted means exactly that a readable mount listing lacks the target. */
  lemma InspectMeaning(listed: bool, source: string, target: string, codes: seq<int>, statusCode: int, lines: seq<string>)
    ensures Inspect(listed, source, target, codes, statusCode, lines).state == Unmounted <==> listed && source == ""
    ensures !listed ==> Inspect(listed, source, target, codes, statusCode, lines) == Finding(Unknown, "mount_list_failed")
    ensures listed && source == "" ==> Inspect(listed, source, target, codes, statusCode, lines) == Finding(Unmounted, "mount_absent")
  {
    hide Health;
    HealthMeaning(target, codes, statusCode, lines);
  }

  // ---------- the lines of a listing ----------

  /** A name without blanks before ` from ` heads the section of that mount. */
  lemma HeaderLine(name: string, rest: string)
    requires name != "" && ' ' !in name
    ensures var line := name + (" from " + rest); IsHeader(line) && HeaderName(line) == name
  {
    var line := name + (" from " + rest);
    FindIsFirst(line, FROM);
    assert line[|name|..] == " from " + rest;
    assert FROM <= line[|name|..];
    forall j | 0 <= j < |name| ensures !(FROM <= line[j..]) { assert line[j..][0] == name[j]; }
    assert line[0] == name[0];
  }

  /** An indented line of status flags: hung if it says that the server does not respond, healthy
      exactly if no flag is set. */
  lemma FlagsLine(indent: string, text: string)
    requires indent != "" && forall i :: 0 <= i < |indent| ==> indent[i] == ' '
    ensures var line, flags := indent + ("Status flags:" + text), Strip(PySpace, text);
            && IsFlags(line)
            && FlagState(line) == (if exists j :: 0 <= j <= |flags| && "not responding" <= flags[j..] then Hung else if flags == "0x0" then Healthy else Unknown)
  {
    hide Strip;
    var line, flags := indent + ("Status flags:" + text), Strip(PySpace, text);
    FindIsFirst(line, FLAGS);
    assert line[|indent|..] == FLAGS + text;
    forall j | 0 <= j < |indent| ensures !(FLAGS <= line[j..]) { assert line[j..][0] == indent[j]; }
    assert line[0] == ' ';
    assert line[|indent| + |FLAGS|..] == text;
    FindIsFirst(flags, "not responding");
  }

  /** The reasons given for a finding: what is wrong with the listing, or what the first read that
      failed came to. */
  lemma ReasonsExactly(target: string, code: int, rest: seq<int>, statusCode: int, lines: seq<string>)
    ensures var reason := Health(target, [code] + rest, statusCode, lines).reason;
            && (statusCode != 0 ==> reason == "nfsstat_failed")
            && (statusCode == 0 && Status(lines, target) == Hung ==> reason == "nfsstat_hung")
            && (statusCode == 0 && Status(lines, target) == Unknown ==> reason == "nfsstat_unknown")
            && (statusCode == 0 && Status(lines, target) == Healthy && code != 0 ==>
                  reason == if code == 2 then "missing_probe" else if code == 3 then "invalid_probe" else if code == 4 then "io_error"
                            else if code == 5 then "read_denied" else if code == 124 then "timeout" else "probe_failed")
            && (statusCode == 0 && Status(lines, target) == Healthy && code == 0 && rest == [] ==> reason == "read_ok")
  {
    hide Status;
    assert ([code] + rest)[0] == code && ([code] + rest)[1..] == rest;
    assert Probed([]).reason == "read_ok";
  }
}
