/** The exposition text of the kernel-fault scanner: printing a line, and the two line
    patterns the scanner reads its own earlier text back with. */
module KernelIoText {
  import opened Text
  import opened Decimal

  const EVENTS := "homelab_kernel_io_events"
  const LAST := "_last_boot"
  const CLASS := "class=\""
  const SEVERITY := "\",severity=\""
  const BOOT := "homelab_kernel_io_boot_id_info{boot_id=\""

  /** The characters `str.splitlines` breaks at. */
  predicate IsBreak(c: char) {
    '\n' <= c <= '\r' || '\U{1C}' <= c <= '\U{1E}' || c == '\U{85}' || c == '\U{2028}' || c == '\U{2029}'
  }

  function SplitLines(s: string): seq<string>
    decreases |s|
  {
    if s == "" then [] else
      var w := TakeUntil(IsBreak, s);
      if |w| == |s| then [s]
      else if s[|w|] == '\r' && |w| + 1 < |s| && s[|w| + 1] == '\n' then [w] + SplitLines(s[|w| + 2..])
      else [w] + SplitLines(s[|w| + 1..])
  }

  predicate Plain(s: string) { NoneOf(IsBreak, s) }

  /** `"\n".join(lines) + "\n"` */
  function Lines(lines: seq<string>): string {
    if lines == [] then "" else lines[0] + ['\n'] + Lines(lines[1..])
  }

  lemma {:induction false} SplitOfLines(lines: seq<string>)
    requires forall i :: 0 <= i < |lines| ==> Plain(lines[i])
    ensures SplitLines(Lines(lines)) == lines
  {
    if lines != [] {
      var w, rest := lines[0], Lines(lines[1..]);
      var s := w + ['\n'] + rest;
      assert s == w + (['\n'] + rest);
      TakeUntilStops(IsBreak, w, ['\n'] + rest);
      assert s[|w|] == '\n' && s[|w| + 1..] == rest;
      SplitOfLines(lines[1..]);
    }
  }

  lemma {:induction false} SplitIsPlain(s: string)
    ensures forall i :: 0 <= i < |SplitLines(s)| ==> Plain(SplitLines(s)[i])
    decreases |s|
  {
    if s != "" {
      var w := TakeUntil(IsBreak, s);
      TakeUntilSpec(IsBreak, s);
      if |w| < |s| {
        SplitIsPlain(s[|w| + 1..]);
        if |w| + 1 < |s| { SplitIsPlain(s[|w| + 2..]); }
      }
    }
  }

  // ---------- the patterns ----------

  /** A decimal number as text: an optional minus sign, digits, and perhaps a fraction. */
  datatype Number = Number(negative: bool, whole: string, fraction: string)

  datatype Parsed = BootLine(id: string) | EventLine(last: bool, cls: string, value: Number) | OtherLine

  predicate NameChar(c: char) { 'a' <= c <= 'z' || '0' <= c <= '9' || c == '_' }

  function TakeWhile(p: char -> bool, s: string): (r: string)
    ensures |r| <= |s|
  {
    TakeUntil(c => !p(c), s)
  }

  /** `^homelab_kernel_io_boot_id_info\{boot_id="([^"]*)"\}` */
  function MatchBoot(line: string): Option<string> {
    if !(BOOT <= line) then None else
      var rest := line[|BOOT|..];
      var id := TakeUntil(c => c == '"', rest);
      if |id| + 1 < |rest| && rest[|id| + 1] == '}' then Some(id) else None
  }

  /** `class="([a-z0-9_]+)"` at position `p`. */
  function ClassAt(body: string, p: nat): Option<string>
    requires p <= |body|
  {
    if !(CLASS <= body[p..]) then None else
      var rest := body[p + |CLASS|..];
      var name := TakeWhile(NameChar, rest);
      if name != "" && |name| < |rest| && rest[|name|] == '"' then Some(name) else None
  }

  /** The greedy `[^}]*` in front of the class finds its last occurrence. */
  function LastClass(body: string, p: nat): Option<string>
    requires p <= |body|
  {
    if ClassAt(body, p).Some? then ClassAt(body, p) else if p == 0 then None else LastClass(body, p - 1)
  }

  /** `(\d+(?:\.\d+)?)\s*$` */
  function MatchDigits(u: string, negative: bool): Option<Number> {
    var whole := TakeWhile(IsDigit, u);
    if whole == "" then None else
      var after := u[|whole|..];
      var dotted := after != "" && after[0] == '.';
      var fraction := if dotted then TakeWhile(IsDigit, after[1..]) else "";
      if dotted && fraction == "" then None else
        var rest := if dotted then after[1 + |fraction|..] else after;
        if DropWhile(PySpace, rest) == "" then Some(Number(negative, whole, fraction)) else None
  }

  /** `\s+(-?\d+(?:\.\d+)?)\s*$` */
  function MatchValue(tail: string): Option<Number> {
    if tail == "" || !PySpace(tail[0]) then None else
      var t := DropWhile(PySpace, tail);
      var negative := t != "" && t[0] == '-';
      MatchDigits(if negative then t[1..] else t, negative)
  }

  /** `\{[^}]*class="([a-z0-9_]+)"[^}]*\}` and the value. */
  function MatchLabels(b: string): Option<(string, Number)> {
    if b == "" || b[0] != '{' then None else
      var c := b[1..];
      var body := TakeUntil(c => c == '}', c);
      if |body| == |c| then None else
        var cls, value := LastClass(body, |body|), MatchValue(c[|body| + 1..]);
        if cls.None? || value.None? then None else Some((cls.value, value.value))
  }

  /** `^homelab_kernel_io_events(_last_boot)?` and the rest. */
  function MatchEvent(line: string): Option<(bool, string, Number)> {
    if !(EVENTS <= line) then None else
      var a := line[|EVENTS|..];
      var last := LAST <= a;
      var found := MatchLabels(if last then a[|LAST|..] else a);
      if found.None? then None else Some((last, found.value.0, found.value.1))
  }

  function ParseLine(line: string): Parsed {
    if MatchBoot(line).Some? then BootLine(MatchBoot(line).value)
    else if MatchEvent(line).Some? then
      var (last, cls, value) := MatchEvent(line).value;
      EventLine(last, cls, value)
    else OtherLine
  }

  // ---------- the printed lines ----------

  function Body(cls: string, severity: string): string { CLASS + cls + SEVERITY + severity + "\"" }

  function PrintEvent(last: bool, cls: string, severity: string, n: int): string {
    EVENTS + ((if last then LAST else "") + ("{" + (Body(cls, severity) + ("}" + (" " + DecInt(n))))))
  }

  function PrintBoot(id: string): string { BOOT + (id + "\"} 1") }

  function PrintComment(text: string): string { "# " + text }

  predicate Word(s: string) { s != "" && AllOf(NameChar, s) }

  lemma {:induction false} TakeWhileStops(p: char -> bool, a: string, b: string)
    requires AllOf(p, a) && (b == "" || !p(b[0]))
    ensures TakeWhile(p, a + b) == a
  {
    TakeUntilStops(c => !p(c), a, b);
  }

  lemma ClassInBody(cls: string, severity: string)
    requires Word(cls)
    ensures ClassAt(Body(cls, severity), 0) == Some(cls)
  {
    var body := Body(cls, severity);
    var rest := cls + (SEVERITY + severity + "\"");
    assert body == CLASS + rest;
    assert body[0..] == body && body[|CLASS|..] == rest;
    assert (SEVERITY + severity + "\"")[0] == '"';
    TakeWhileStops(NameChar, cls, SEVERITY + severity + "\"");
  }

  lemma EqualsSigns(cls: string, severity: string, q: nat)
    requires Word(cls) && Word(severity) && q < |Body(cls, severity)|
    ensures Body(cls, severity)[q] == '=' ==> q == 5 || q == |CLASS| + |cls| + 10
  {
    var body, a, b := Body(cls, severity), |CLASS|, |CLASS| + |cls|;
    if a <= q < b {
      assert body[q] == cls[q - a] && NameChar(cls[q - a]);
    } else if b <= q < b + |SEVERITY| {
      assert body[q] == SEVERITY[q - b];
    } else if b + |SEVERITY| <= q < |body| - 1 {
      assert body[q] == severity[q - b - |SEVERITY|] && NameChar(severity[q - b - |SEVERITY|]);
    }
  }

  lemma ClassStarts(body: string, p: nat)
    requires p + 5 < |body|
    ensures CLASS <= body[p..] ==> body[p] == 'c' && body[p + 5] == '='
  {
    if CLASS <= body[p..] { assert body[p..][0] == 'c' && body[p..][5] == '='; }
  }

  /** `class="` occurs nowhere else: an equals sign stands only after `class` and `severity`. */
  lemma NoOtherClass(cls: string, severity: string, p: nat)
    requires Word(cls) && Word(severity) && 0 < p <= |Body(cls, severity)|
    ensures ClassAt(Body(cls, severity), p) == None
  {
    var body, b := Body(cls, severity), |CLASS| + |cls|;
    if p + 5 < |body| {
      EqualsSigns(cls, severity, p + 5);
      assert body[b + 5] == SEVERITY[5];
      ClassStarts(body, p);
    }
  }

  lemma {:induction false} LastClassInBody(cls: string, severity: string, p: nat)
    requires Word(cls) && Word(severity) && p <= |Body(cls, severity)|
    ensures LastClass(Body(cls, severity), p) == Some(cls)
  {
    if p == 0 {
      ClassInBody(cls, severity);
    } else {
      NoOtherClass(cls, severity, p);
      LastClassInBody(cls, severity, p - 1);
    }
  }

  /** An integer as the pattern takes it apart. */
  function NumberOf(n: int): Number { if n < 0 then Number(true, Dec(-n), "") else Number(false, Dec(n), "") }

  lemma ValueOfDec(n: int)
    ensures MatchValue(" " + DecInt(n)) == Some(NumberOf(n))
  {
    var t, u := DecInt(n), Dec(if n < 0 then -n else n);
    assert (" " + t)[1..] == t && IsDigit(u[0]);
    assert t[0] == if n < 0 then '-' else u[0];
    assert DropWhile(PySpace, " " + t) == t;
    assert n < 0 ==> t[1..] == u;
    assert u + "" == u;
    TakeWhileStops(IsDigit, u, "");
    assert u[|u|..] == "";
  }

  lemma WordPlain(s: string)
    requires Word(s)
    ensures Plain(s) && '}' !in s
  {}

  lemma BodyPlain(cls: string, severity: string)
    requires Word(cls) && Word(severity)
    ensures Plain(Body(cls, severity)) && '}' !in Body(cls, severity)
  {
    WordPlain(cls);
    WordPlain(severity);
  }

  lemma LabelsOfEvent(cls: string, severity: string, n: int)
    requires Word(cls) && Word(severity)
    ensures MatchLabels("{" + (Body(cls, severity) + ("}" + (" " + DecInt(n))))) == Some((cls, NumberOf(n)))
  {
    hide LastClass, MatchValue, Body, Word;
    var body, tail := Body(cls, severity), "}" + (" " + DecInt(n));
    assert ("{" + (body + tail))[1..] == body + tail;
    BodyPlain(cls, severity);
    TakeUntilStops(c => c == '}', body, tail);
    assert (body + tail)[|body| + 1..] == " " + DecInt(n);
    LastClassInBody(cls, severity, |body|);
    ValueOfDec(n);
  }

  lemma TextOfEvent(last: bool, cls: string, severity: string, n: int)
    requires Word(cls) && Word(severity)
    ensures MatchEvent(PrintEvent(last, cls, severity, n)) == Some((last, cls, NumberOf(n)))
  {
    hide MatchLabels, Body, Word;
    LabelsOfEvent(cls, severity, n);
    NameOfEvent(last, "{" + (Body(cls, severity) + ("}" + (" " + DecInt(n)))));
  }

  lemma NameOfEvent(last: bool, b: string)
    requires b != "" && b[0] == '{'
    ensures var line := EVENTS + ((if last then LAST else "") + b);
            var found := MatchLabels(b);
            MatchEvent(line) == if found.None? then None else Some((last, found.value.0, found.value.1))
  {
    hide MatchLabels;
    var a := (if last then LAST else "") + b;
    var line := EVENTS + a;
    assert line[|EVENTS|..] == a;
    if last {
      assert a[|LAST|..] == b;
    } else {
      assert a == b;
      assert !(LAST <= b) by { assert LAST[0] == '_'; }
    }
  }

  lemma EventIsNoBoot(last: bool, cls: string, severity: string, n: int)
    ensures MatchBoot(PrintEvent(last, cls, severity, n)).None?
  {
    var line := PrintEvent(last, cls, severity, n);
    assert EVENTS <= line;
    assert line[18] == EVENTS[18] == 'e' && BOOT[18] == 'b';
  }

  lemma ParseEventLine(last: bool, cls: string, severity: string, n: int)
    requires Word(cls) && Word(severity)
    ensures ParseLine(PrintEvent(last, cls, severity, n)) == EventLine(last, cls, NumberOf(n))
  {
    hide MatchEvent, MatchBoot, PrintEvent;
    TextOfEvent(last, cls, severity, n);
    EventIsNoBoot(last, cls, severity, n);
  }

  lemma ParseBootLine(id: string)
    requires '"' !in id
    ensures ParseLine(PrintBoot(id)) == BootLine(id)
  {
    var line := PrintBoot(id);
    assert line[|BOOT|..] == id + "\"} 1";
    TakeUntilStops(c => c == '"', id, "\"} 1");
  }

  lemma ParseHash(line: string)
    requires line != "" && line[0] != 'h'
    ensures ParseLine(line) == OtherLine
  {
    assert BOOT[0] == 'h' && EVENTS[0] == 'h';
  }

  /** No boot id that was read contains a quote, and it is part of the line. */
  lemma BootIdRead(line: string)
    requires MatchBoot(line).Some? && Plain(line)
    ensures '"' !in MatchBoot(line).value && Plain(MatchBoot(line).value)
  {
    var rest := line[|BOOT|..];
    TakeUntilSpec(c => c == '"', rest);
    forall i | 0 <= i < |MatchBoot(line).value| ensures !IsBreak(MatchBoot(line).value[i]) {
      assert MatchBoot(line).value[i] == rest[i] == line[|BOOT| + i];
    }
  }

  // ---------- the printed lines have no breaks ----------

  lemma PlainConcat(a: string, b: string)
    requires Plain(a) && Plain(b)
    ensures Plain(a + b)
  {}

  lemma ConstantsPlain()
    ensures Plain(EVENTS) && Plain(LAST) && Plain(BOOT) && Plain("{") && Plain("}") && Plain(" ") && Plain("\"} 1") && Plain("# ")
  {
    NamesPlain();
  }

  lemma NamesPlain()
    ensures Plain(EVENTS) && Plain(LAST) && Plain(BOOT)
  {}

  lemma DecPlain(n: int)
    ensures Plain(DecInt(n))
  {
    forall i | 0 <= i < |DecInt(n)| ensures !IsBreak(DecInt(n)[i]) { assert IsDigit(DecInt(n)[i]) || DecInt(n)[i] == '-'; }
  }

  lemma EventPlain(last: bool, cls: string, severity: string, n: int)
    requires Word(cls) && Word(severity)
    ensures Plain(PrintEvent(last, cls, severity, n))
  {
    hide Plain, Body, Word;
    ConstantsPlain();
    DecPlain(n);
    BodyPlain(cls, severity);
    PlainConcat(" ", DecInt(n));
    PlainConcat("}", " " + DecInt(n));
    PlainConcat(Body(cls, severity), "}" + (" " + DecInt(n)));
    PlainConcat("{", Body(cls, severity) + ("}" + (" " + DecInt(n))));
    assert Plain(if last then LAST else "") by { NothingPlain(); }
    PlainConcat(if last then LAST else "", "{" + (Body(cls, severity) + ("}" + (" " + DecInt(n)))));
    PlainConcat(EVENTS, (if last then LAST else "") + ("{" + (Body(cls, severity) + ("}" + (" " + DecInt(n))))));
  }

  lemma NothingPlain()
    ensures Plain("")
  {}

  lemma BootPlain(id: string)
    requires Plain(id)
    ensures Plain(PrintBoot(id))
  {
    hide Plain;
    ConstantsPlain();
    PlainConcat(id, "\"} 1");
    PlainConcat(BOOT, id + "\"} 1");
  }

  lemma CommentPlain(text: string)
    requires Plain(text)
    ensures Plain(PrintComment(text)) && PrintComment(text)[0] == '#'
  {
    ConstantsPlain();
    PlainConcat("# ", text);
  }

  // ---------- which lines match ----------

  /** A boot line is matched exactly when it starts so, and its id is what stands between the quotes. */
  lemma BootExactly(line: string, id: string)
    ensures MatchBoot(line) == Some(id) <==>
              '"' !in id && "homelab_kernel_io_boot_id_info{boot_id=\"" + (id + "\"}") <= line
  {
    var quote: char -> bool := c => c == '"';
    if MatchBoot(line) == Some(id) {
      var rest := line[|BOOT|..];
      TakeUntilSpec(quote, rest);
      assert rest[..|id| + 2] == id + "\"}";
      assert line[..|BOOT| + |id| + 2] == BOOT + (id + "\"}");
    }
    if '"' !in id && BOOT + (id + "\"}") <= line {
      var rest := line[|BOOT|..];
      var after := rest[|id|..];
      assert rest[..|id| + 2] == id + "\"}";
      assert rest == id + after && after[0] == '"' && after[1] == '}';
      TakeUntilStops(quote, id, after);
    }
  }

  /** How a number is written: digits, and perhaps a dot and more digits. */
  predicate Written(text: string, n: Number) {
    Digits(n.whole) && (if n.fraction == "" then text == n.whole else Digits(n.fraction) && text == n.whole + ("." + n.fraction))
  }

  lemma DigitIsNoSpace()
    ensures forall c :: IsDigit(c) || c == '.' || c == '-' ==> !PySpace(c)
  {}

  /** Digits are taken apart exactly when nothing but white space follows them. */
  lemma DigitsExactly(u: string, negative: bool, n: Number)
    ensures MatchDigits(u, negative) == Some(n) <==>
              n.negative == negative && exists text, space :: u == text + space && Written(text, n) && AllOf(PySpace, space)
  {
    hide PySpace;
    DigitIsNoSpace();
    if MatchDigits(u, negative) == Some(n) {
      DigitsApart(u, negative, n);
    }
    if text, space :| n.negative == negative && u == text + space && Written(text, n) && AllOf(PySpace, space) {
      DigitsTogether(text, space, negative, n);
    }
  }

  lemma TakeWhileSpec(p: char -> bool, s: string)
    ensures var r := TakeWhile(p, s); r <= s && AllOf(p, r) && (|r| < |s| ==> !p(s[|r|]))
  {
    TakeUntilSpec(c => !p(c), s);
  }

  lemma DigitsApart(u: string, negative: bool, n: Number)
    requires MatchDigits(u, negative) == Some(n)
    ensures exists text, space :: u == text + space && Written(text, n) && AllOf(PySpace, space)
  {
    hide PySpace;
    var whole := TakeWhile(IsDigit, u);
    TakeWhileSpec(IsDigit, u);
    var after := u[|whole|..];
    assert u == whole + after;
    if after != "" && after[0] == '.' {
      var fraction, tail := TakeWhile(IsDigit, after[1..]), after[1..];
      TakeWhileSpec(IsDigit, tail);
      assert tail == fraction + tail[|fraction|..];
      var rest := after[1 + |fraction|..];
      SpacesOnly(rest);
      assert after == "." + fraction + rest;
      var text := whole + ("." + fraction);
      assert u == text + rest && Written(text, n);
    } else {
      SpacesOnly(after);
      assert u == whole + after && Written(whole, n);
    }
  }

  lemma {:induction false} SpacesOnly(s: string)
    ensures DropWhile(PySpace, s) == "" <==> AllOf(PySpace, s)
  {
    hide PySpace;
    if s != "" && PySpace(s[0]) {
      SpacesOnly(s[1..]);
      assert forall i :: 1 <= i < |s| ==> s[i] == s[1..][i - 1];
    }
  }

  lemma DigitsTogether(text: string, space: string, negative: bool, n: Number)
    requires n.negative == negative && Written(text, n) && AllOf(PySpace, space)
    ensures MatchDigits(text + space, negative) == Some(n)
  {
    hide PySpace;
    DigitIsNoSpace();
    SpacesOnly(space);
    var u := text + space;
    if n.fraction == "" {
      TakeWhileStops(IsDigit, n.whole, space);
      assert u[|n.whole|..] == space;
    } else {
      var after := "." + (n.fraction + space);
      assert u == n.whole + after;
      TakeWhileStops(IsDigit, n.whole, after);
      assert u[|n.whole|..] == after && after[1..] == n.fraction + space;
      TakeWhileStops(IsDigit, n.fraction, space);
      assert after[1 + |n.fraction|..] == space;
    }
  }

  /** A value needs white space in front of it, and may have a minus sign. */
  lemma ValueExactly(tail: string, n: Number)
    ensures MatchValue(tail) == Some(n) <==>
              tail != "" && PySpace(tail[0]) &&
              var t := DropWhile(PySpace, tail);
              if n.negative then t != "" && t[0] == '-' && MatchDigits(t[1..], true) == Some(n)
              else (t == "" || t[0] != '-') && MatchDigits(t, false) == Some(n)
  {
    hide PySpace, DropWhile;
  }

  /** A class label at a place: the name of lower-case letters, digits and `_` between its quotes. */
  lemma ClassExactly(body: string, p: nat, name: string)
    requires p <= |body|
    ensures ClassAt(body, p) == Some(name) <==>
              && name != "" && (forall i :: 0 <= i < |name| ==> 'a' <= name[i] <= 'z' || '0' <= name[i] <= '9' || name[i] == '_')
              && "class=\"" + (name + "\"") <= body[p..]
  {
    var here, wanted := body[p..], CLASS + (name + "\"");
    if ClassAt(body, p) == Some(name) {
      var rest := body[p + |CLASS|..];
      TakeWhileSpec(NameChar, rest);
      assert here[|CLASS|..] == rest;
      assert rest[..|name| + 1] == name + "\"";
      assert here[..|wanted|] == wanted;
    }
    if Word(name) && wanted <= here {
      var rest := body[p + |CLASS|..];
      assert here[|CLASS|..] == rest;
      assert here[..|wanted|] == wanted;
      assert rest[..|name| + 1] == wanted[|CLASS|..];
      TakeWhileStops(NameChar, name, rest[|name|..]);
      assert rest == name + rest[|name|..];
    }
  }

  /** Of several class labels the last one counts. */
  lemma {:induction false} LastClassExactly(body: string, p: nat, name: string)
    requires p <= |body|
    ensures LastClass(body, p) == Some(name) <==>
              exists q :: 0 <= q <= p && ClassAt(body, q) == Some(name) && forall r :: q < r <= p ==> ClassAt(body, r).None?
  {
    hide ClassAt;
    if ClassAt(body, p).None? && p > 0 { LastClassExactly(body, p - 1, name); }
  }

  /** The labels: everything up to the first closing brace, and then the value. */
  predicate Labelled(b: string, body: string, tail: string, cls: string, value: Number) {
    b == "{" + (body + ("}" + tail)) && '}' !in body && LastClass(body, |body|) == Some(cls) && MatchValue(tail) == Some(value)
  }

  lemma LabelsExactly(b: string, cls: string, value: Number)
    ensures MatchLabels(b) == Some((cls, value)) <==> exists body, tail :: Labelled(b, body, tail, cls, value)
  {
    hide LastClass, MatchValue;
    var brace: char -> bool := c => c == '}';
    if MatchLabels(b) == Some((cls, value)) {
      var c := b[1..];
      var body := TakeUntil(brace, c);
      TakeUntilSpec(brace, c);
      var tail := c[|body| + 1..];
      assert c == body + ("}" + tail);
      assert Labelled(b, body, tail, cls, value);
    }
    if body, tail :| Labelled(b, body, tail, cls, value) {
      assert b[1..] == body + ("}" + tail);
      TakeUntilStops(brace, body, "}" + tail);
      assert (body + ("}" + tail))[|body| + 1..] == tail;
    }
  }

  /** A line that is no boot line counts events exactly if it starts with their name, which ends in
      `_last_boot` for the boot before, and goes on with labels and a value. */
  lemma EventExactly(line: string, last: bool, cls: string, value: Number)
    ensures ParseLine(line) == EventLine(last, cls, value) <==>
              && MatchBoot(line).None? && "homelab_kernel_io_events" <= line
              && (last <==> "_last_boot" <= line[24..])
              && MatchLabels(line[if last then 34 else 24..]) == Some((cls, value))
  {
    hide MatchBoot, MatchLabels;
    assert |EVENTS| == 24 && |LAST| == 10;
    if EVENTS <= line && LAST <= line[24..] { assert line[24..][10..] == line[34..]; }
  }
}
