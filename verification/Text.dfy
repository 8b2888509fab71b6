/** Strings as sequences of decoded code points: trimming, splitting and joining,
    with the laws the parsers of the other modules rely on. */
module Text {

  datatype Option<+T> = None | Some(value: T)

  /** `unicode.IsSpace` of Go. */
  predicate GoSpace(c: char) {
    || '\t' <= c <= '\r' || c == ' ' || c == '\U{85}' || c == '\U{A0}' || c == '\U{1680}'
    || '\U{2000}' <= c <= '\U{200A}' || c == '\U{2028}' || c == '\U{2029}'
    || c == '\U{202F}' || c == '\U{205F}' || c == '\U{3000}'
  }

  /** What Python's `str.strip` removes: the same and the four separators 1C to 1F. */
  predicate PySpace(c: char) {
    GoSpace(c) || '\U{1C}' <= c <= '\U{1F}'
  }

  lemma LetterIsNoSpace()
    ensures !PySpace('a')
  {}

  predicate AllOf(p: char -> bool, s: string) {
    forall i :: 0 <= i < |s| ==> p(s[i])
  }

  predicate NoneOf(p: char -> bool, s: string) {
    forall i :: 0 <= i < |s| ==> !p(s[i])
  }

  predicate EndsWith(s: string, suffix: string) { |suffix| <= |s| && s[|s| - |suffix|..] == suffix }

  /** Bytes the code points take in UTF-8. */
  function Utf8Length(s: string): nat {
    if s == "" then 0 else
      var c := s[|s| - 1];
      Utf8Length(s[..|s| - 1]) +
      (if c < '\U{80}' then 1 else if c < '\U{800}' then 2 else if c < '\U{10000}' then 3 else 4)
  }

  // ---------- trimming ----------

  function DropWhile(p: char -> bool, s: string): (r: string)
    ensures |r| <= |s|
  {
    if s != "" && p(s[0]) then DropWhile(p, s[1..]) else s
  }

  lemma {:induction false} DropWhileHead(p: char -> bool, s: string)
    ensures DropWhile(p, s) != "" ==> !p(DropWhile(p, s)[0])
  {
    if s != "" && p(s[0]) { DropWhileHead(p, s[1..]); }
  }

  function DropEndWhile(p: char -> bool, s: string): (r: string)
    ensures |r| <= |s|
  {
    if s != "" && p(s[|s| - 1]) then DropEndWhile(p, s[..|s| - 1]) else s
  }

  function Strip(p: char -> bool, s: string): (r: string)
    ensures |r| <= |s|
  {
    DropEndWhile(p, DropWhile(p, s))
  }

  /** The longest prefix without a character of `p`. */
  function TakeUntil(p: char -> bool, s: string): (r: string)
    ensures |r| <= |s|
  {
    if s == "" || p(s[0]) then "" else [s[0]] + TakeUntil(p, s[1..])
  }

  lemma {:induction false} TakeUntilSpec(p: char -> bool, s: string)
    ensures var r := TakeUntil(p, s); r <= s && NoneOf(p, r) && (|r| < |s| ==> p(s[|r|]))
  {
    if s != "" && !p(s[0]) { TakeUntilSpec(p, s[1..]); }
  }

  lemma {:induction false} TakeUntilStops(p: char -> bool, a: string, b: string)
    requires NoneOf(p, a) && (b == "" || p(b[0]))
    ensures TakeUntil(p, a + b) == a
  {
    if a != "" {
      assert (a + b)[1..] == a[1..] + b;
      TakeUntilStops(p, a[1..], b);
      assert (a + b)[0] == a[0];
    }
  }

  // ---------- words ----------

  /** `strings.Fields`: the maximal runs of characters outside `p`. */
  function Fields(p: char -> bool, s: string): seq<string>
    decreases |s|
  {
    var t := DropWhile(p, s);
    if t == "" then [] else
      var w := TakeUntil(p, t);
      assert w != "" by { DropWhileHead(p, s); }
      [w] + Fields(p, t[|w|..])
  }

  lemma FieldsHead(p: char -> bool, w: string, sep: char, rest: string)
    requires w != "" && NoneOf(p, w) && p(sep)
    ensures Fields(p, w + [sep] + rest) == [w] + Fields(p, rest)
  {
    var s := w + [sep] + rest;
    assert s[0] == w[0];
    assert DropWhile(p, s) == s;
    assert s == w + ([sep] + rest);
    TakeUntilStops(p, w, [sep] + rest);
    assert s[|w|..] == [sep] + rest;
    assert DropWhile(p, [sep] + rest) == DropWhile(p, rest) by {
      assert ([sep] + rest)[1..] == rest;
    }
  }

  // ---------- splitting at one character ----------

  function Split(s: string, sep: char): (parts: seq<string>)
    ensures parts != []
    decreases |s|
  {
    var w := TakeUntil(c => c == sep, s);
    if |w| == |s| then [s] else [w] + Split(s[|w| + 1..], sep)
  }

  function Join(parts: seq<string>, sep: char): string
    requires parts != []
  {
    if |parts| == 1 then parts[0] else parts[0] + [sep] + Join(parts[1..], sep)
  }

  lemma SplitHead(w: string, sep: char, rest: string)
    requires sep !in w
    ensures Split(w + [sep] + rest, sep) == [w] + Split(rest, sep)
  {
    assert w + [sep] + rest == w + ([sep] + rest);
    TakeUntilStops(c => c == sep, w, [sep] + rest);
    assert (w + [sep] + rest)[|w| + 1..] == rest;
  }

  lemma SplitWord(w: string, sep: char)
    requires sep !in w
    ensures Split(w, sep) == [w]
  {
    assert w + "" == w;
    TakeUntilStops(c => c == sep, w, "");
  }

  lemma {:induction false} JoinSplit(s: string, sep: char)
    ensures Join(Split(s, sep), sep) == s
    decreases |s|
  {
    var w := TakeUntil(c => c == sep, s);
    TakeUntilSpec(c => c == sep, s);
    if |w| < |s| {
      JoinSplit(s[|w| + 1..], sep);
      assert s == w + [sep] + s[|w| + 1..];
      var tail := Split(s[|w| + 1..], sep);
      assert ([w] + tail)[1..] == tail;
    }
  }

  /** Cutting a text at a separator cuts the list of its parts. */
  lemma {:induction false} SplitAppend(a: string, sep: char, b: string)
    ensures Split(a + [sep] + b, sep) == Split(a, sep) + Split(b, sep)
    decreases |a|
  {
    var w := TakeUntil(c => c == sep, a);
    TakeUntilSpec(c => c == sep, a);
    if |w| == |a| {
      SplitHead(a, sep, b);
    } else {
      var rest := a[|w| + 1..];
      assert a == w + [sep] + rest;
      assert a + [sep] + b == w + [sep] + (rest + [sep] + b);
      SplitHead(w, sep, rest + [sep] + b);
      SplitAppend(rest, sep, b);
      assert [w] + (Split(rest, sep) + Split(b, sep)) == ([w] + Split(rest, sep)) + Split(b, sep);
    }
  }
}
