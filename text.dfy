/**
 * Character-level helpers shared by the route handlers: the Base62 alphabet
 * that every `generate_uuid` draws from, Python's `str.strip()`, and the
 * case-insensitive comparison that `ilike` performs on a pattern without
 * wildcards.
 */
module Text {

  /** The 62-character alphabet used by every `generate_uuid`. */
  const Alphabet: string := "0123456789ABCDEFGHIJKLMNOPQRSTUVWXYZabcdefghijklmnopqrstuvwxyz"

  /**
   * `random.choices(Alphabet, k=length)`: `draw(i)` is the oracle's choice for
   * the i-th character (taken modulo 62). A negative `length` draws nothing,
   * as in Python.
   */
  function Choices(length: int, draw: nat -> nat): (r: string)
    ensures |r| == if length < 0 then 0 else length
    ensures forall i :: 0 <= i < |r| ==> r[i] in Alphabet
  {
    if length <= 0 then []
    else Choices(length - 1, draw) + [Alphabet[draw(length - 1) % 62]]
  }

  /** The characters Python's `str.isspace()` accepts, which `strip()` removes. */
  predicate IsSpace(c: char) {
    ('\t' <= c <= '\r') || ('\U{1C}' <= c <= '\U{1F}') || c == ' ' || c == '\U{85}' || c == '\U{A0}'
    || c == '\U{1680}' || ('\U{2000}' <= c <= '\U{200A}') || c == '\U{2028}' || c == '\U{2029}'
    || c == '\U{202F}' || c == '\U{205F}' || c == '\U{3000}'
  }

  /** `s.lstrip()`: a suffix of `s`, everything cut off was whitespace, and it does not start with whitespace. */
  function TrimStart(s: string): (r: string)
    ensures |r| <= |s| && r == s[|s| - |r|..]
    ensures forall i :: 0 <= i < |s| - |r| ==> IsSpace(s[i])
    ensures |r| > 0 ==> !IsSpace(r[0])
  {
    if |s| > 0 && IsSpace(s[0]) then TrimStart(s[1..]) else s
  }

  /** `s.rstrip()`: a prefix of `s`, everything cut off was whitespace, and it does not end with whitespace. */
  function TrimEnd(s: string): (r: string)
    ensures |r| <= |s| && r == s[..|r|]
    ensures forall i :: |r| <= i < |s| ==> IsSpace(s[i])
    ensures |r| > 0 ==> !IsSpace(r[|r| - 1])
  {
    if |s| > 0 && IsSpace(s[|s| - 1]) then TrimEnd(s[..|s| - 1]) else s
  }

  /** `s.strip()`. */
  /** The number of whitespace characters `s` starts with. */
  function LeadingSpace(s: string): (n: nat)
    ensures n <= |s|
    ensures forall i :: 0 <= i < n ==> IsSpace(s[i])
    ensures n < |s| ==> !IsSpace(s[n])
  {
    |s| - |TrimStart(s)|
  }

  /**
   * `s.strip()`: the slice of `s` that starts after its leading whitespace,
   * with only whitespace after it, and that neither starts nor ends with
   * whitespace.
   */
  function Trim(s: string): (r: string)
    ensures var k := LeadingSpace(s);
      k + |r| <= |s| && r == s[k..k + |r|]
      && forall i :: k + |r| <= i < |s| ==> IsSpace(s[i])
    ensures |r| > 0 ==> !IsSpace(r[0]) && !IsSpace(r[|r| - 1])
  {
    var t := TrimStart(s);
    var r := TrimEnd(t);
    assert |r| > 0 ==> r[0] == t[0];
    r
  }

  predicate HasSurroundingSpace(s: string) {
    |s| > 0 && (IsSpace(s[0]) || IsSpace(s[|s| - 1]))
  }

  /** `strip()` is the identity exactly on strings without surrounding whitespace. */
  lemma TrimFixesUnpadded(s: string)
    ensures Trim(s) == s <==> !HasSurroundingSpace(s)
  {
    var t := TrimStart(s);
    if !HasSurroundingSpace(s) {
      assert t == s;
    }
  }

  /** `strip()` never leaves surrounding whitespace, so stripping twice is stripping once. */
  lemma TrimIdempotent(s: string)
    ensures !HasSurroundingSpace(Trim(s))
    ensures Trim(Trim(s)) == Trim(s)
  {
    var t := TrimStart(s);
    var r := TrimEnd(t);
    if |r| > 0 {
      assert r[0] == t[0];
    }
    TrimFixesUnpadded(r);
  }

  /** ASCII lower-casing of one character, as the database applies it for `ILIKE`. */
  function LowerChar(c: char): char {
    if 'A' <= c <= 'Z' then (c as int - 'A' as int + 'a' as int) as char else c
  }

  function Lower(s: string): (r: string)
    ensures |r| == |s|
    ensures forall i :: 0 <= i < |s| ==> r[i] == LowerChar(s[i])
  {
    if s == [] then [] else [LowerChar(s[0])] + Lower(s[1..])
  }

  /**
   * `a ILIKE b` for a pattern `b` without wildcards: the two names have the
   * same length and agree character by character up to letter case.
   */
  predicate ILike(a: string, b: string)
    ensures ILike(a, b) <==> |a| == |b| && forall i :: 0 <= i < |a| ==> LowerChar(a[i]) == LowerChar(b[i])
  {
    Lower(a) == Lower(b)
  }
}
