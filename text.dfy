/**
 * The parts of the .NET string API that the services rely on:
 * `string.IsNullOrWhiteSpace`, comparison and `Contains` under
 * `StringComparison.OrdinalIgnoreCase`, and an ordering for `OrderBy(name)`.
 */
module Text {

  /** `char.IsWhiteSpace`, restricted to the white-space characters of ASCII and Latin-1. */
  predicate IsWhiteSpace(c: char) {
    c == ' ' || c == '\t' || c == '\n' || c == '\r' || c == '\U{000B}' || c == '\U{000C}'
    || c == '\U{0085}' || c == '\U{00A0}'
  }

  /** `string.IsNullOrWhiteSpace`: empty, or made of white space only. */
  predicate IsBlank(s: string) {
    forall i :: 0 <= i < |s| ==> IsWhiteSpace(s[i])
  }

  /** Ordinal case folding of one character: ASCII lower-case letters map to upper case. */
  function FoldChar(c: char): (d: char)
    ensures 'a' <= c <= 'z' ==> 'A' <= d <= 'Z'
    ensures !('a' <= c <= 'z') ==> d == c
  {
    if 'a' <= c <= 'z' then (c as int - 32) as char else c
  }

  /** The key that `OrdinalIgnoreCase` compares: every character folded. */
  function Fold(s: string): (f: string)
    ensures |f| == |s|
    ensures forall i :: 0 <= i < |s| ==> f[i] == FoldChar(s[i])
  {
    seq(|s|, i requires 0 <= i < |s| => FoldChar(s[i]))
  }

  /** `a.Equals(b, StringComparison.OrdinalIgnoreCase)`. */
  predicate EqualsIgnoreCase(a: string, b: string) {
    Fold(a) == Fold(b)
  }

  /** `t` occurs in `s` as a contiguous block. */
  predicate IsInfix(t: string, s: string)
    decreases |s|
  {
    t <= s || (s != [] && IsInfix(t, s[1..]))
  }

  /** `s.Contains(term, StringComparison.OrdinalIgnoreCase)`. */
  predicate ContainsIgnoreCase(s: string, term: string) {
    IsInfix(Fold(term), Fold(s))
  }

  /** Ordinal lexicographic order on strings: the ordering `OrderBy(p => p.Name)` sorts by here. */
  predicate OrdinalLe(a: string, b: string)
    decreases |a|
  {
    if a == [] then true
    else if b == [] then false
    else if a[0] != b[0] then a[0] < b[0]
    else OrdinalLe(a[1..], b[1..])
  }

  /** Folding never changes whether a character is white space. */
  lemma FoldKeepsWhiteSpace(c: char)
    ensures IsWhiteSpace(FoldChar(c)) <==> IsWhiteSpace(c)
  {
  }

  /** Strings equal ignoring case are blank together: a SKU that matches a non-blank SKU is itself non-blank. */
  lemma {:induction false} BlankIgnoresCase(a: string, b: string)
    requires EqualsIgnoreCase(a, b)
    ensures IsBlank(a) <==> IsBlank(b)
  {
    assert |a| == |b|;
    forall i | 0 <= i < |a|
      ensures IsWhiteSpace(a[i]) <==> IsWhiteSpace(b[i])
    {
      assert Fold(a)[i] == Fold(b)[i];
      FoldKeepsWhiteSpace(a[i]);
      FoldKeepsWhiteSpace(b[i]);
    }
  }

  /** The ordinal order is total. */
  lemma {:induction false} OrdinalLeTotal(a: string, b: string)
    ensures OrdinalLe(a, b) || OrdinalLe(b, a)
    decreases |a|
  {
    if a != [] && b != [] && a[0] == b[0] {
      OrdinalLeTotal(a[1..], b[1..]);
    }
  }

  /** The ordinal order is transitive. */
  lemma {:induction false} OrdinalLeTransitive(a: string, b: string, c: string)
    requires OrdinalLe(a, b) && OrdinalLe(b, c)
    ensures OrdinalLe(a, c)
    decreases |a|
  {
    if a != [] && b != [] && c != [] && a[0] == b[0] && b[0] == c[0] {
      OrdinalLeTransitive(a[1..], b[1..], c[1..]);
    }
  }
}
