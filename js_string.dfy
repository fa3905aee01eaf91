/** The few JavaScript string primitives the update engine is built from:
    the line terminators a regular-expression `.` refuses, `String.prototype.split`
    on a one-character separator, and `String.prototype.trim`.
    Characters are Unicode scalar values (JavaScript's lone surrogates cannot occur). */
module JsString {

  /** ECMAScript LineTerminator: the characters a regular expression's `.` does not match. */
  predicate IsLineTerminator(c: char) {
    c == '\n' || c == '\r' || c == '\U{2028}' || c == '\U{2029}'
  }

  /** ECMAScript WhiteSpace or LineTerminator: the characters `trim` removes. */
  predicate IsWhiteSpace(c: char) {
    || IsLineTerminator(c)
    || c == '\t' || c == '\U{000B}' || c == '\U{000C}' || c == ' ' || c == '\U{00A0}'
    || c == '\U{1680}' || ('\U{2000}' <= c <= '\U{200A}') || c == '\U{202F}'
    || c == '\U{205F}' || c == '\U{3000}' || c == '\U{FEFF}'
  }

  predicate NoLineTerminator(s: string) {
    forall m :: 0 <= m < |s| ==> !IsLineTerminator(s[m])
  }

  predicate AllWhiteSpace(s: string) {
    forall m :: 0 <= m < |s| ==> IsWhiteSpace(s[m])
  }

  /** A string `trim` leaves as it is: no white space at either end. */
  predicate Trimmed(s: string) {
    s == [] || (!IsWhiteSpace(s[0]) && !IsWhiteSpace(s[|s| - 1]))
  }

  // ---------------------------------------------------------------------------
  // Line ends

  /** The index of the first line terminator at or after `j`, or `|s|`: where a
      greedy `.+` that starts at `j` has to stop. */
  function LineEnd(s: string, j: nat): (e: nat)
    requires j <= |s|
    ensures j <= e <= |s|
    ensures NoLineTerminator(s[j..e])
    ensures e < |s| ==> IsLineTerminator(s[e])
    decreases |s| - j
  {
    if j == |s| || IsLineTerminator(s[j]) then j else LineEnd(s, j + 1)
  }

  // ---------------------------------------------------------------------------
  // split

  /** The inverse of `split`: the parts glued back together with the separator. */
  function Join(parts: seq<string>, sep: char): string {
    if |parts| == 0 then ""
    else if |parts| == 1 then parts[0]
    else parts[0] + [sep] + Join(parts[1..], sep)
  }

  /** `s.split(sep)` for a one-character string separator. There is always at least
      one part, no part holds the separator, and joining the parts gives `s` back. */
  function Split(s: string, sep: char): (parts: seq<string>)
    ensures |parts| >= 1
    ensures forall p :: p in parts ==> sep !in p
    ensures Join(parts, sep) == s
    decreases |s|
  {
    if |s| == 0 then [""]
    else
      var rest := Split(s[1..], sep);
      if s[0] == sep then
        assert ([""] + rest)[1..] == rest;
        [""] + rest
      else
        var parts := [[s[0]] + rest[0]] + rest[1..];
        assert parts[1..] == rest[1..];
        assert |rest| > 1 ==> Join(rest, sep) == rest[0] + [sep] + Join(rest[1..], sep);
        parts
  }

  /** Joining is injective on separator-free parts. */
  lemma {:induction false} JoinInjective(p: seq<string>, q: seq<string>, sep: char)
    requires |p| >= 1 && |q| >= 1
    requires forall x :: x in p ==> sep !in x
    requires forall x :: x in q ==> sep !in x
    requires Join(p, sep) == Join(q, sep)
    ensures p == q
    decreases |p|
  {
    var s := Join(p, sep);
    var a, b := p[0], q[0];
    assert sep !in a && sep !in b;
    assert s[..|a|] == a by { if |p| > 1 { assert s == a + ([sep] + Join(p[1..], sep)); } }
    assert s[..|b|] == b by { if |q| > 1 { assert s == b + ([sep] + Join(q[1..], sep)); } }
    assert |p| > 1 ==> |s| > |a| && s[|a|] == sep by {
      if |p| > 1 { assert s == a + ([sep] + Join(p[1..], sep)); }
    }
    assert |q| > 1 ==> |s| > |b| && s[|b|] == sep by {
      if |q| > 1 { assert s == b + ([sep] + Join(q[1..], sep)); }
    }
    // the shorter first part would be followed by the separator inside the longer one
    assert |a| == |b|;
    assert a == b;
    if |p| == 1 {
      if |q| > 1 { assert false; }
    } else {
      if |q| == 1 { assert false; }
      assert s == a + [sep] + Join(p[1..], sep);
      assert s == b + [sep] + Join(q[1..], sep);
      assert Join(p[1..], sep) == s[|a| + 1..];
      assert Join(q[1..], sep) == s[|b| + 1..];
      forall x | x in p[1..] ensures sep !in x { assert x in p; }
      forall x | x in q[1..] ensures sep !in x { assert x in q; }
      JoinInjective(p[1..], q[1..], sep);
      assert p == [a] + p[1..] && q == [b] + q[1..];
    }
  }

  /** `split` undoes `Join` on separator-free parts: the round trip in the other direction. */
  lemma SplitJoin(parts: seq<string>, sep: char)
    requires |parts| >= 1
    requires forall x :: x in parts ==> sep !in x
    ensures Split(Join(parts, sep), sep) == parts
  {
    JoinInjective(Split(Join(parts, sep), sep), parts, sep);
  }

  // ---------------------------------------------------------------------------
  // trim

  /** The number of white-space characters `s` starts with. */
  function LeadingSpace(s: string): (n: nat)
    ensures n <= |s|
    ensures AllWhiteSpace(s[..n])
    ensures n < |s| ==> !IsWhiteSpace(s[n])
  {
    if s == [] || !IsWhiteSpace(s[0]) then 0
    else
      var n := 1 + LeadingSpace(s[1..]);
      assert s[..n] == [s[0]] + s[1..][..n - 1];
      n
  }

  /** The number of white-space characters `s` ends with. */
  function TrailingSpace(s: string): (n: nat)
    ensures n <= |s|
    ensures AllWhiteSpace(s[|s| - n..])
    ensures n < |s| ==> !IsWhiteSpace(s[|s| - 1 - n])
  {
    if s == [] || !IsWhiteSpace(s[|s| - 1]) then 0
    else
      var init := s[..|s| - 1];
      var n := 1 + TrailingSpace(init);
      assert s[|s| - n..] == init[|init| - (n - 1)..] + [s[|s| - 1]];
      n
  }

  /** `s.trim()`: the infix of `s` left after removing white space at both ends. */
  function Trim(s: string): (r: string)
    ensures Trimmed(r)
    ensures exists a :: 0 <= a <= |s| - |r| && s[a..a + |r|] == r
                         && AllWhiteSpace(s[..a]) && AllWhiteSpace(s[a + |r|..])
  {
    var a := LeadingSpace(s);
    var t := s[a..];
    var r := t[..|t| - TrailingSpace(t)];
    assert s[a..a + |r|] == r;
    assert s[a + |r|..] == t[|t| - TrailingSpace(t)..];
    r
  }

  lemma {:induction false} LeadingSpaceAfterPadding(p: string, y: string)
    requires AllWhiteSpace(p)
    ensures LeadingSpace(p + y) == |p| + LeadingSpace(y)
    decreases |p|
  {
    if p != [] {
      assert (p + y)[1..] == p[1..] + y;
      LeadingSpaceAfterPadding(p[1..], y);
    } else {
      assert p + y == y;
    }
  }

  lemma {:induction false} TrailingSpaceBeforePadding(y: string, q: string)
    requires AllWhiteSpace(q)
    ensures TrailingSpace(y + q) == TrailingSpace(y) + |q|
    decreases |q|
  {
    if q != [] {
      assert (y + q)[..|y + q| - 1] == y + q[..|q| - 1];
      TrailingSpaceBeforePadding(y, q[..|q| - 1]);
    } else {
      assert y + q == y;
    }
  }

  /** `trim` removes exactly the white-space padding around a trimmed string. */
  lemma TrimPadded(p: string, x: string, q: string)
    requires AllWhiteSpace(p) && AllWhiteSpace(q) && Trimmed(x)
    ensures Trim(p + x + q) == x
  {
    var s := p + x + q;
    assert s == p + (x + q);
    LeadingSpaceAfterPadding(p, x + q);
    if x == [] {
      assert x + q == q;
      assert LeadingSpace(q) == |q|;
    } else {
      assert LeadingSpace(x + q) == 0;
      assert s[|p|..] == x + q;
      TrailingSpaceBeforePadding(x, q);
      assert TrailingSpace(x) == 0;
      assert (x + q)[..|x|] == x;
    }
  }

  /** Trimming twice is trimming once. */
  lemma TrimIdempotent(s: string)
    ensures Trim(Trim(s)) == Trim(s)
  {
    var x := Trim(s);
    TrimPadded("", x, "");
    assert "" + x + "" == x;
  }
}
