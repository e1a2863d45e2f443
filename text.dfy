/**
 * Character classes and string helpers shared by the chat pipeline:
 * JavaScript's white space (used by `String.prototype.trim` and by `\s` in a
 * regular expression), the ASCII word characters of `\w` (a regular
 * expression without the `u` flag), ASCII lower-casing, `trim`, `join`
 * and `startsWith`.
 */
module Text {

  /** ECMAScript WhiteSpace and LineTerminator code points: what `trim()`
      removes and what `\s` matches. */
  predicate IsSpace(c: char) {
    || c == '\t' || c == '\n' || c == '\U{000B}' || c == '\U{000C}' || c == '\r'
    || c == ' ' || c == '\U{00A0}' || c == '\U{1680}'
    || ('\U{2000}' <= c <= '\U{200A}')
    || c == '\U{2028}' || c == '\U{2029}' || c == '\U{202F}' || c == '\U{205F}'
    || c == '\U{3000}' || c == '\U{FEFF}'
  }

  /** `\w` without the `u` flag: `[A-Za-z0-9_]`. */
  predicate IsWordChar(c: char) {
    ('a' <= c <= 'z') || ('A' <= c <= 'Z') || ('0' <= c <= '9') || c == '_'
  }

  predicate IsUpper(c: char) {
    'A' <= c <= 'Z'
  }

  /** ASCII lower-casing of one character. */
  function LowerChar(c: char): (r: char)
    ensures IsUpper(c) ==> r as int == c as int + 32
    ensures !IsUpper(c) ==> r == c
    ensures !IsUpper(r)
  {
    if IsUpper(c) then (c as int + 32) as char else c
  }

  /** `toLowerCase()`, restricted to ASCII letters. */
  function Lower(s: string): (r: string)
    ensures |r| == |s|
    ensures forall i | 0 <= i < |s| :: r[i] == LowerChar(s[i])
  {
    seq(|s|, i requires 0 <= i < |s| => LowerChar(s[i]))
  }

  lemma LowerAppend(a: string, b: string)
    ensures Lower(a + b) == Lower(a) + Lower(b)
  {
    assert forall i | 0 <= i < |a + b| :: Lower(a + b)[i] == (Lower(a) + Lower(b))[i];
  }

  /** Lower-casing keeps a character a word character, or a non-word one. */
  lemma LowerKeepsWordChar(c: char)
    ensures IsWordChar(LowerChar(c)) == IsWordChar(c)
  {
  }

  /** `s` begins with `prefix`, as `startsWith` does. */
  predicate StartsWith(s: string, prefix: string) {
    |prefix| <= |s| && s[..|prefix|] == prefix
  }

  /** No white space at either end. */
  predicate Trimmed(s: string) {
    s == [] || (!IsSpace(s[0]) && !IsSpace(s[|s| - 1]))
  }

  /** How many white-space characters `s` begins with: the count stops at
      the first non-space character. */
  function LeadingSpaces(s: string): (k: nat)
    ensures k <= |s|
    ensures k == |s| || !IsSpace(s[k])
  {
    if s != [] && IsSpace(s[0]) then 1 + LeadingSpaces(s[1..]) else 0
  }

  /** How many white-space characters `s` ends with: the count stops at the
      last non-space character. */
  function TrailingSpaces(s: string): (k: nat)
    ensures k <= |s|
    ensures k == |s| || !IsSpace(s[|s| - 1 - k])
  {
    if s != [] && IsSpace(s[|s| - 1]) then 1 + TrailingSpaces(s[..|s| - 1]) else 0
  }

  lemma {:induction false} LeadingSpacesAreSpaces(s: string)
    ensures forall i | 0 <= i < LeadingSpaces(s) :: IsSpace(s[i])
  {
    if s != [] && IsSpace(s[0]) {
      LeadingSpacesAreSpaces(s[1..]);
      forall i | 1 <= i < LeadingSpaces(s) ensures IsSpace(s[i]) {
        assert s[i] == s[1..][i - 1];
      }
    }
  }

  lemma {:induction false} TrailingSpacesAreSpaces(s: string)
    ensures forall i | |s| - TrailingSpaces(s) <= i < |s| :: IsSpace(s[i])
  {
    if s != [] && IsSpace(s[|s| - 1]) {
      var p := s[..|s| - 1];
      TrailingSpacesAreSpaces(p);
      forall i | |s| - TrailingSpaces(s) <= i < |s| - 1 ensures IsSpace(s[i]) {
        assert s[i] == p[i];
      }
    }
  }

  /** Removes the leading white space: the suffix of `s` from its first
      non-space character on. */
  function TrimStart(s: string): (r: string)
    ensures |r| <= |s|
    ensures r == [] || !IsSpace(r[0])
  {
    s[LeadingSpaces(s)..]
  }

  /** Removes the trailing white space: the prefix of `s` up to its last
      non-space character. */
  function TrimEnd(s: string): (r: string)
    ensures |r| <= |s|
    ensures r == [] || !IsSpace(r[|r| - 1])
  {
    s[..|s| - TrailingSpaces(s)]
  }

  /** `trim()`: both ends of white space removed. */
  function Trim(s: string): (r: string)
    ensures Trimmed(r)
    ensures |r| <= |s|
  {
    var t := TrimStart(s);
    var r := TrimEnd(t);
    assert r != [] ==> r[0] == t[0];
    r
  }

  /** `trim()` gives the longest middle slice of `s` with no white space at
      either end: all that it cuts off is white space, and it is empty
      exactly when `s` is all white space. */
  lemma TrimIsMiddleSlice(s: string)
    ensures var r, k := Trim(s), LeadingSpaces(s);
      && k + |r| <= |s| && r == s[k..k + |r|]
      && (forall i | 0 <= i < k :: IsSpace(s[i]))
      && (forall i | k + |r| <= i < |s| :: IsSpace(s[i]))
    ensures Trim(s) == [] <==> forall i | 0 <= i < |s| :: IsSpace(s[i])
  {
    var k := LeadingSpaces(s);
    var t := TrimStart(s);
    var r := Trim(s);
    LeadingSpacesAreSpaces(s);
    TrailingSpacesAreSpaces(t);
    assert r == s[k..k + |r|];
    forall i | k + |r| <= i < |s| ensures IsSpace(s[i]) {
      assert s[i] == t[i - k];
    }
  }

  /** A string with no white space at its ends is its own trim. */
  lemma {:induction false} TrimmedIsFixed(s: string)
    requires Trimmed(s)
    ensures Trim(s) == s
  {
    assert LeadingSpaces(s) == 0;
    assert TrailingSpaces(s) == 0;
  }

  /** `trim()` is idempotent. */
  lemma TrimIdempotent(s: string)
    ensures Trim(Trim(s)) == Trim(s)
  {
    TrimmedIsFixed(Trim(s));
  }

  /** A leading white-space character makes no difference to `trim()`. */
  lemma {:induction false} TrimSkipsLeadingSpace(c: char, s: string)
    requires IsSpace(c)
    ensures Trim([c] + s) == Trim(s)
  {
    var u := [c] + s;
    assert u[1..] == s;
    assert TrimStart(u) == TrimStart(s);
  }

  /** `Array.prototype.join(sep)` on strings. */
  function Join(parts: seq<string>, sep: string): (r: string)
    ensures |parts| == 1 ==> r == parts[0]
    ensures parts == [] ==> r == []
  {
    if parts == [] then []
    else if |parts| == 1 then parts[0]
    else parts[0] + sep + Join(parts[1..], sep)
  }
}
