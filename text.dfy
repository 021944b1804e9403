/** Strings as the source sees them: JavaScript's `String.prototype.trim`,
    used by the validators and by the schema's `trim: true` option. */
module Text {

  /** The characters `trim` strips: the ECMAScript WhiteSpace and
      LineTerminator code points. */
  predicate IsWhitespace(c: char) {
    var n := c as int;
    n == 0x09 || n == 0x0A || n == 0x0B || n == 0x0C || n == 0x0D || n == 0x20
    || n == 0xA0 || n == 0x1680 || (0x2000 <= n <= 0x200A) || n == 0x2028 || n == 0x2029
    || n == 0x202F || n == 0x205F || n == 0x3000 || n == 0xFEFF
  }

  predicate AllWhitespace(s: string) {
    forall k :: 0 <= k < |s| ==> IsWhitespace(s[k])
  }

  /** Number of leading whitespace characters. */
  function LeadingWhitespace(s: string): (n: nat)
    ensures n <= |s|
    ensures forall k :: 0 <= k < n ==> IsWhitespace(s[k])
    ensures n < |s| ==> !IsWhitespace(s[n])
  {
    if s == [] || !IsWhitespace(s[0]) then 0 else 1 + LeadingWhitespace(s[1..])
  }

  /** Number of trailing whitespace characters. */
  function TrailingWhitespace(s: string): (n: nat)
    ensures n <= |s|
    ensures forall k :: |s| - n <= k < |s| ==> IsWhitespace(s[k])
    ensures n < |s| ==> !IsWhitespace(s[|s| - n - 1])
  {
    if s == [] || !IsWhitespace(s[|s| - 1]) then 0 else 1 + TrailingWhitespace(s[..|s| - 1])
  }

  /** `s.trim()`: the string without its leading and trailing whitespace. */
  function Trim(s: string): (t: string)
  {
    var a := LeadingWhitespace(s);
    var rest := s[a..];
    rest[..|rest| - TrailingWhitespace(rest)]
  }

  /** The trimmed string is a contiguous piece of s, no longer than s, that
      neither starts nor ends with whitespace, and everything cut off is
      whitespace. */
  lemma TrimIsCore(s: string)
    ensures |Trim(s)| <= |s|
    ensures exists a :: (0 <= a <= |s| - |Trim(s)| && Trim(s) == s[a..a + |Trim(s)|]
                         && AllWhitespace(s[..a]) && AllWhitespace(s[a + |Trim(s)|..]))
    ensures Trim(s) != [] ==> !IsWhitespace(Trim(s)[0]) && !IsWhitespace(Trim(s)[|Trim(s)| - 1])
  {
    var a := LeadingWhitespace(s);
    var rest := s[a..];
    var b := TrailingWhitespace(rest);
    var t := rest[..|rest| - b];
    assert t == s[a..a + |t|];
    assert AllWhitespace(s[..a]);
    assert s[a + |t|..] == rest[|rest| - b..];
    if t != [] {
      assert t[0] == s[a];
      assert t[|t| - 1] == rest[|rest| - b - 1];
    }
  }

  /** `s.trim().length === 0` exactly when s is all whitespace (or empty). */
  lemma TrimEmptyIff(s: string)
    ensures Trim(s) == [] <==> AllWhitespace(s)
  {
    var a := LeadingWhitespace(s);
    var rest := s[a..];
    var b := TrailingWhitespace(rest);
    if a < |s| {
      assert rest[0] == s[a];
    }
  }

  /** Trimming a string that has no surrounding whitespace changes nothing. */
  lemma TrimNoSurrounding(s: string)
    requires s != [] ==> !IsWhitespace(s[0]) && !IsWhitespace(s[|s| - 1])
    ensures Trim(s) == s
  {
    var a := LeadingWhitespace(s);
    assert a == 0;
    assert s[a..] == s;
  }
}
