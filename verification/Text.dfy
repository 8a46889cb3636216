/** The scalar checks that every contract of the repository repeats. */
module Text {

  /** The largest integer that JSON readers keep exact. */
  const MAX_SAFE_INTEGER: int := 9_007_199_254_740_991

  predicate SafeInteger(minimum: int, value: int) {
    minimum <= value <= MAX_SAFE_INTEGER
  }

  /** The characters that Python's `str.strip` removes. */
  predicate IsSpace(c: char) {
    var code := c as int;
    || 0x09 <= code <= 0x0D
    || 0x1C <= code <= 0x20
    || code == 0x85
    || code == 0xA0
    || code == 0x1680
    || 0x2000 <= code <= 0x200A
    || code in {0x2028, 0x2029, 0x202F, 0x205F, 0x3000}
  }

  /** They are these code points. */
  lemma SpacesExactly(c: char)
    ensures IsSpace(c) <==>
              c as int in {0x09, 0x0A, 0x0B, 0x0C, 0x0D, 0x1C, 0x1D, 0x1E, 0x1F, 0x20, 0x85, 0xA0, 0x1680,
                           0x2000, 0x2001, 0x2002, 0x2003, 0x2004, 0x2005, 0x2006, 0x2007, 0x2008, 0x2009, 0x200A,
                           0x2028, 0x2029, 0x202F, 0x205F, 0x3000}
  {
  }

  predicate IsControl(c: char) {
    (c as int) < 0x20 || (c as int) == 0x7F
  }

  /** Non-empty, trimmed text without control characters. */
  predicate Stable(s: string) {
    && |s| > 0
    && !IsSpace(s[0])
    && !IsSpace(s[|s| - 1])
    && forall i | 0 <= i < |s| :: !IsControl(s[i])
  }

  lemma StableExactly(s: string)
    ensures Stable(s) <==>
              && s != "" && !IsSpace(s[0]) && !IsSpace(s[|s| - 1])
              && forall i | 0 <= i < |s| :: s[i] as int > 31 && s[i] as int != 127
  {
  }

  /** A SHA-256 digest in lower-case hexadecimal, which is always stable text. */
  predicate IsLowerSha256(s: string)
    ensures IsLowerSha256(s) ==> Stable(s)
  {
    |s| == 64 && forall i | 0 <= i < |s| :: '0' <= s[i] <= '9' || 'a' <= s[i] <= 'f'
  }

  lemma LowerSha256Exactly(s: string)
    ensures IsLowerSha256(s) <==>
              |s| == 64 && forall i | 0 <= i < |s| :: 48 <= s[i] as int <= 57 || 97 <= s[i] as int <= 102
  {
  }
}
