/** Text operations of Go's strings package and of SQLite, over sequences of characters. */
module Text {
  /** Text order: SQLite's default comparison of TEXT values and Go's `<` on strings. */
  predicate TextBefore(a: string, b: string) {
    if a == [] then b != []
    else b != [] && (a[0] < b[0] || (a[0] == b[0] && TextBefore(a[1..], b[1..])))
  }

  lemma {:induction false} TextIrreflexive(a: string)
    ensures !TextBefore(a, a)
  {
    if a != [] {
      TextIrreflexive(a[1..]);
    }
  }

  lemma {:induction false} TextTrichotomy(a: string, b: string)
    ensures a == b || TextBefore(a, b) || TextBefore(b, a)
  {
    if a != [] && b != [] && a[0] == b[0] {
      TextTrichotomy(a[1..], b[1..]);
      assert a == [a[0]] + a[1..] && b == [b[0]] + b[1..];
    }
  }

  lemma {:induction false} TextTransitive(a: string, b: string, c: string)
    requires TextBefore(a, b) && TextBefore(b, c)
    ensures TextBefore(a, c)
  {
    if a != [] && c != [] && a[0] == b[0] == c[0] {
      TextTransitive(a[1..], b[1..], c[1..]);
    }
  }

  lemma {:induction false} TextBeforeConcat(p: string, q: string, s: string, t: string)
    requires |p| == |q|
    ensures TextBefore(p + s, q + t) <==> TextBefore(p, q) || (p == q && TextBefore(s, t))
    ensures p + s == q + t <==> p == q && s == t
  {
    if p == [] {
      assert p + s == s && q + t == t;
    } else {
      assert (p + s)[1..] == p[1..] + s && (q + t)[1..] == q[1..] + t;
      TextBeforeConcat(p[1..], q[1..], s, t);
      assert p == [p[0]] + p[1..] && q == [q[0]] + q[1..];
      assert p + s == [p[0]] + (p[1..] + s) && q + t == [q[0]] + (q[1..] + t);
    }
  }

  // ----- strings.TrimSpace -----

  /** unicode.IsSpace. */
  predicate IsSpace(c: char) {
    || '\t' <= c <= '\r' || c == ' ' || c == '\U{85}' || c == '\U{A0}' || c == '\U{1680}'
    || '\U{2000}' <= c <= '\U{200A}' || '\U{2028}' <= c <= '\U{2029}'
    || c == '\U{202F}' || c == '\U{205F}' || c == '\U{3000}'
  }

  function TrimLeft(s: string): (r: string)
    ensures |r| <= |s| && r == s[|s| - |r|..]
    ensures r != [] ==> !IsSpace(r[0])
  {
    if s != [] && IsSpace(s[0]) then TrimLeft(s[1..]) else s
  }

  function TrimRight(s: string): (r: string)
    ensures r <= s
    ensures r != [] ==> !IsSpace(r[|r| - 1])
  {
    if s != [] && IsSpace(s[|s| - 1]) then TrimRight(s[..|s| - 1]) else s
  }

  function Trim(s: string): string {
    TrimRight(TrimLeft(s))
  }

  /** No space at either end; the empty text included. */
  predicate Trimmed(s: string) {
    s != [] ==> !IsSpace(s[0]) && !IsSpace(s[|s| - 1])
  }

  lemma TrimIsTrimmed(s: string)
    ensures Trimmed(Trim(s))
  {
  }

  lemma TrimFixed(s: string)
    requires Trimmed(s)
    ensures Trim(s) == s
  {
  }

  lemma {:induction false} TrimLeftPadding(lead: string, s: string)
    requires (forall c | c in lead :: IsSpace(c)) && (s != [] ==> !IsSpace(s[0]))
    ensures TrimLeft(lead + s) == s
  {
    if lead == [] {
      assert lead + s == s;
    } else {
      assert (lead + s)[1..] == lead[1..] + s;
      TrimLeftPadding(lead[1..], s);
    }
  }

  lemma {:induction false} TrimRightPadding(s: string, trail: string)
    requires (forall c | c in trail :: IsSpace(c)) && (s != [] ==> !IsSpace(s[|s| - 1]))
    ensures TrimRight(s + trail) == s
  {
    if trail == [] {
      assert s + trail == s;
    } else {
      var n := |trail| - 1;
      assert (s + trail)[..|s + trail| - 1] == s + trail[..n];
      TrimRightPadding(s, trail[..n]);
    }
  }

  lemma TrimJoined(a: string, b: string)
    requires a != "" && b != "" && !IsSpace(a[0]) && !IsSpace(b[|b| - 1])
    ensures Trim(a + b) == a + b
  {
    var s := a + b;
    assert s[0] == a[0] && s[|s| - 1] == b[|b| - 1];
    TrimFixed(s);
  }

  /** Space around a text goes, and nothing else. */
  lemma TrimPadding(lead: string, s: string, trail: string)
    requires s != [] && Trimmed(s)
    requires (forall c | c in lead :: IsSpace(c)) && (forall c | c in trail :: IsSpace(c))
    ensures Trim(lead + s + trail) == s
  {
    assert lead + s + trail == lead + (s + trail);
    TrimLeftPadding(lead, s + trail);
    TrimRightPadding(s, trail);
  }

  lemma {:induction false} TrimBlank(s: string)
    requires forall c | c in s :: IsSpace(c)
    ensures Trim(s) == ""
  {
    assert s + [] == s;
    TrimLeftPadding(s, []);
  }

  // ----- strings.ToLower -----

  /** unicode.ToLower, of which only this is used: it is the usual map on ASCII, and no
      character's lower case is an ASCII capital. */
  type CaseMap = char -> char

  function AsciiLower(c: char): char {
    if 'A' <= c <= 'Z' then c + 32 as char else c
  }

  ghost predicate LowerMap(fold: CaseMap) {
    && (forall c: char | c < 128 as char :: fold(c) == AsciiLower(c))
    && (forall c: char :: !('A' <= fold(c) <= 'Z'))
  }

  function Lower(fold: CaseMap, s: string): (r: string)
    ensures |r| == |s| && forall i | 0 <= i < |s| :: r[i] == fold(s[i])
  {
    seq(|s|, i requires 0 <= i < |s| => fold(s[i]))
  }

  // ----- strings.Split and strings.Join -----

  function Split(s: string, separator: char): (parts: seq<string>)
    ensures parts != []
  {
    if s == [] then [""]
    else
      var rest := Split(s[1..], separator);
      if s[0] == separator then [""] + rest else [[s[0]] + rest[0]] + rest[1..]
  }

  function Join(parts: seq<string>, separator: string): string {
    if parts == [] then ""
    else if |parts| == 1 then parts[0]
    else parts[0] + separator + Join(parts[1..], separator)
  }

  lemma {:induction false} SplitParts(s: string, separator: char)
    ensures forall part | part in Split(s, separator) :: separator !in part
  {
    if s != [] {
      SplitParts(s[1..], separator);
      assert Split(s[1..], separator)[0] in Split(s[1..], separator);
    }
  }

  lemma {:induction false} SplitFirst(part: string, rest: string, separator: char)
    requires separator !in part
    ensures Split(part + [separator] + rest, separator) == [part] + Split(rest, separator)
    ensures Split(part, separator) == [part]
  {
    if part == [] {
      assert part + [separator] + rest == [separator] + rest;
    } else {
      var tail := part[1..];
      assert part == [part[0]] + tail;
      SplitFirst(tail, rest, separator);
      assert part + [separator] + rest == [part[0]] + (tail + [separator] + rest);
    }
  }

  /** Splitting undoes joining when no part contains the separator. */
  lemma {:induction false} SplitJoin(parts: seq<string>, separator: char)
    requires parts != [] && forall part | part in parts :: separator !in part
    ensures Split(Join(parts, [separator]), separator) == parts
  {
    SplitFirst(parts[0], Join(parts[1..], [separator]), separator);
    if |parts| > 1 {
      SplitJoin(parts[1..], separator);
      assert parts == [parts[0]] + parts[1..];
    }
  }
}
