/** The string operations the picker and the catalog use: ordering names,
    `trim`, `toLowerCase`, `includes`, `split(".")[0]`, and the dotted keys. */
module Strings {

  // ---------------------------------------------------------------------------
  // Ordering

  /** Lexicographic order on character codes; stands in for `localeCompare(..) <= 0`. */
  predicate Le(a: string, b: string) {
    |a| == 0 || (|b| > 0 && (a[0] < b[0] || (a[0] == b[0] && Le(a[1..], b[1..]))))
  }

  lemma {:induction false} LeTotal(a: string, b: string)
    ensures Le(a, b) || Le(b, a)
  {
    if |a| > 0 && |b| > 0 && a[0] == b[0] {
      LeTotal(a[1..], b[1..]);
    }
  }

  lemma {:induction false} LeTransitive(a: string, b: string, c: string)
    requires Le(a, b) && Le(b, c)
    ensures Le(a, c)
  {
    if |a| > 0 && a[0] == b[0] && b[0] == c[0] {
      LeTransitive(a[1..], b[1..], c[1..]);
    }
  }

  lemma {:induction false} LeAntisymmetric(a: string, b: string)
    requires Le(a, b) && Le(b, a)
    ensures a == b
  {
    if |a| > 0 {
      LeAntisymmetric(a[1..], b[1..]);
      assert a == [a[0]] + a[1..] && b == [b[0]] + b[1..];
    }
  }

  // ---------------------------------------------------------------------------
  // trim

  /** The characters ECMAScript's `String.prototype.trim` removes: WhiteSpace
      (tab, vertical tab, form feed, space, no-break space, byte-order mark and
      the Unicode space separators) and LineTerminator. */
  predicate IsWhitespace(c: char) {
    || c == '\t' || c == '\n' || c == '\U{000B}' || c == '\U{000C}' || c == '\r' || c == ' '
    || c == '\U{00A0}' || c == '\U{1680}' || ('\U{2000}' <= c <= '\U{200A}')
    || c == '\U{2028}' || c == '\U{2029}' || c == '\U{202F}' || c == '\U{205F}'
    || c == '\U{3000}' || c == '\U{FEFF}'
  }

  function TrimStart(s: string): (r: string)
    ensures |r| <= |s|
    ensures r == s[|s| - |r|..]
    ensures forall i :: 0 <= i < |s| - |r| ==> IsWhitespace(s[i])
    ensures r == [] || !IsWhitespace(r[0])
  {
    if s != [] && IsWhitespace(s[0]) then TrimStart(s[1..]) else s
  }

  function TrimEnd(s: string): (r: string)
    ensures |r| <= |s|
    ensures r == s[..|r|]
    ensures forall i :: |r| <= i < |s| ==> IsWhitespace(s[i])
    ensures r == [] || !IsWhitespace(r[|r| - 1])
  {
    if s != [] && IsWhitespace(s[|s| - 1]) then TrimEnd(s[..|s| - 1]) else s
  }

  /** `r` is `s` with exactly `i` whitespace characters cut at the front and
      only whitespace cut at the back. */
  ghost predicate CutAt(s: string, r: string, i: int) {
    && 0 <= i <= |s| - |r| && r == s[i..i + |r|]
    && (forall j :: 0 <= j < i ==> IsWhitespace(s[j]))
    && (forall j :: i + |r| <= j < |s| ==> IsWhitespace(s[j]))
  }

  /** `s.trim()`: `s` without its leading and trailing whitespace. */
  function Trim(s: string): (r: string)
    ensures exists i :: CutAt(s, r, i)
    ensures r == [] || (!IsWhitespace(r[0]) && !IsWhitespace(r[|r| - 1]))
    ensures r == [] <==> forall j :: 0 <= j < |s| ==> IsWhitespace(s[j])
  {
    TrimParts(s);
    var r := TrimEnd(TrimStart(s));
    assert CutAt(s, r, |s| - |TrimStart(s)|);
    r
  }

  /** Trimming the end after the start cuts whitespace on both sides only. */
  lemma TrimParts(s: string)
    ensures var t := TrimStart(s);
            var r := TrimEnd(t);
            && CutAt(s, r, |s| - |t|)
            && (r == [] || (!IsWhitespace(r[0]) && !IsWhitespace(r[|r| - 1])))
            && (r == [] <==> forall j :: 0 <= j < |s| ==> IsWhitespace(s[j]))
  {
    var t := TrimStart(s);
    var r := TrimEnd(t);
    if r != [] {
      assert r[0] == t[0];
    }
    CutTwice(s, t, r, |s| - |t|);
  }

  /** A whitespace cut at the front followed by one at the back, stated on the
      pieces: the back cut of `t` is a back cut of `s`. */
  lemma CutTwice(s: string, t: string, r: string, i: int)
    requires 0 <= i <= |s| && t == s[i..]
    requires forall j :: 0 <= j < i ==> IsWhitespace(s[j])
    requires |r| <= |t| && r == t[..|r|]
    requires forall j :: |r| <= j < |t| ==> IsWhitespace(t[j])
    requires t == [] || !IsWhitespace(t[0])
    ensures CutAt(s, r, i)
    ensures r == [] <==> forall j :: 0 <= j < |s| ==> IsWhitespace(s[j])
  {
    assert r == s[i..i + |r|];
    forall j | i + |r| <= j < |s| ensures IsWhitespace(s[j]) {
      assert s[j] == t[j - i];
    }
    if r != [] {
      assert s[i] == t[0];
    }
  }

  // ---------------------------------------------------------------------------
  // toLowerCase

  predicate IsAsciiUpper(c: char) { 'A' <= c <= 'Z' }

  function LowerChar(c: char): (r: char)
    ensures !IsAsciiUpper(r)
    ensures !IsAsciiUpper(c) ==> r == c
    ensures IsAsciiUpper(c) ==> r as int - c as int == 32
  {
    if IsAsciiUpper(c) then (c as int + 32) as char else c
  }

  /** `s.toLowerCase()` restricted to the ASCII letters. */
  function ToLower(s: string): (r: string)
    ensures |r| == |s|
    ensures forall i :: 0 <= i < |s| ==> r[i] == LowerChar(s[i])
  {
    seq(|s|, i requires 0 <= i < |s| => LowerChar(s[i]))
  }

  /** Lower-casing is idempotent, so lower-casing an already lower-cased query is harmless. */
  lemma ToLowerIdempotent(s: string)
    ensures ToLower(ToLower(s)) == ToLower(s)
  {
  }

  // ---------------------------------------------------------------------------
  // includes

  /** `needle` occurs in `hay` starting at position `i`. */
  ghost predicate OccursAt(hay: string, needle: string, i: int) {
    0 <= i && i + |needle| <= |hay| && hay[i..i + |needle|] == needle
  }

  /** An occurrence one past the start of `hay` is an occurrence in its tail. */
  lemma OccursAtShift(hay: string, needle: string, i: int)
    requires hay != [] && 0 <= i
    ensures OccursAt(hay, needle, i + 1) <==> OccursAt(hay[1..], needle, i)
  {
    if i + 1 + |needle| <= |hay| {
      var a, b := hay[i + 1..i + 1 + |needle|], hay[1..][i..i + |needle|];
      assert |a| == |b|;
      forall j | 0 <= j < |a| ensures a[j] == b[j] {
        assert a[j] == hay[i + 1 + j] && b[j] == hay[i + 1 + j];
      }
      assert a == b;
    }
  }

  /** `hay.includes(needle)`: `needle` occurs in `hay` at some position. */
  function Contains(hay: string, needle: string): (r: bool)
    ensures r <==> exists i :: OccursAt(hay, needle, i)
    decreases |hay|
  {
    if |needle| > |hay| then false
    else if hay[..|needle|] == needle then
      assert OccursAt(hay, needle, 0);
      true
    else
      var r := Contains(hay[1..], needle);
      assert !OccursAt(hay, needle, 0);
      forall i | 0 <= i ensures OccursAt(hay, needle, i + 1) <==> OccursAt(hay[1..], needle, i) {
        OccursAtShift(hay, needle, i);
      }
      assert (exists i :: OccursAt(hay, needle, i)) ==> r by {
        if exists i :: OccursAt(hay, needle, i) {
          var i :| OccursAt(hay, needle, i);
          assert OccursAt(hay[1..], needle, i - 1);
        }
      }
      r
  }

  // ---------------------------------------------------------------------------
  // Dotted names

  /** `s.split(".")[0]`: the text before the first dot, or all of `s`. */
  function BeforeFirstDot(s: string): (r: string)
    ensures r <= s
    ensures '.' !in r
    ensures |r| == |s| || s[|r|] == '.'
  {
    if s == [] || s[0] == '.' then []
    else [s[0]] + BeforeFirstDot(s[1..])
  }

  /** The template `${prefix}.${suffix}` used for option keys, labels and source labels. */
  function Dotted(prefix: string, suffix: string): (r: string)
    ensures |r| == |prefix| + 1 + |suffix|
    ensures r[..|prefix|] == prefix && r[|prefix|] == '.' && r[|prefix| + 1..] == suffix
  {
    prefix + "." + suffix
  }

  /** The group name of a dotted label whose prefix has no dot is that prefix. */
  lemma {:induction false} BeforeFirstDotOfDotted(prefix: string, suffix: string)
    requires '.' !in prefix
    ensures BeforeFirstDot(Dotted(prefix, suffix)) == prefix
  {
    if prefix != [] {
      assert Dotted(prefix, suffix) == [prefix[0]] + Dotted(prefix[1..], suffix);
      BeforeFirstDotOfDotted(prefix[1..], suffix);
    }
  }

  /** Two dotted names with dot-free prefixes are equal only if both parts are. */
  lemma DottedInjective(p1: string, s1: string, p2: string, s2: string)
    requires '.' !in p1 && '.' !in p2
    requires Dotted(p1, s1) == Dotted(p2, s2)
    ensures p1 == p2 && s1 == s2
  {
    BeforeFirstDotOfDotted(p1, s1);
    BeforeFirstDotOfDotted(p2, s2);
    assert Dotted(p1, s1)[|p1| + 1..] == s1;
  }
}
