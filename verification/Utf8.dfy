/** UTF-8 (RFC 3629, section 3) and the byte-wise order in which Python compares `bytes`. */
module Utf8 {

  type byte = x: int | 0 <= x < 256

  function EncodeChar(c: char): (r: seq<byte>)
    ensures 1 <= |r| <= 4
  {
    var n := c as int;
    if n < 0x80 then [n]
    else if n < 0x800 then [0xC0 + n / 64, 0x80 + n % 64]
    else if n < 0x10000 then [0xE0 + n / 4096, 0x80 + n / 64 % 64, 0x80 + n % 64]
    else [0xF0 + n / 262144, 0x80 + n / 4096 % 64, 0x80 + n / 64 % 64, 0x80 + n % 64]
  }

  /** Python's `str.encode()`. */
  function Encode(s: string): seq<byte> {
    if s == "" then [] else EncodeChar(s[0]) + Encode(s[1..])
  }

  predicate Free(b: byte, bytes: seq<byte>) {
    forall i | 0 <= i < |bytes| :: bytes[i] != b
  }

  /** Only U+0000 encodes to a NUL byte. */
  lemma {:induction false} EncodeHasNoNul(s: string)
    requires forall i | 0 <= i < |s| :: s[i] != '\0'
    ensures Free(0, Encode(s))
  {
    if s != "" {
      EncodeHasNoNul(s[1..]);
    }
  }

  lemma {:induction false} EncodeNonEmpty(s: string)
    requires s != ""
    ensures Encode(s) != []
  {
    assert |Encode(s)| == |EncodeChar(s[0])| + |Encode(s[1..])|;
  }

  lemma EncodeCharLength(a: char, b: char)
    requires EncodeChar(a)[0] == EncodeChar(b)[0]
    ensures |EncodeChar(a)| == |EncodeChar(b)|
  {
  }

  lemma EncodeCharInjective(a: char, b: char)
    requires EncodeChar(a) == EncodeChar(b)
    ensures a == b
  {
    var x, y := EncodeChar(a), EncodeChar(b);
    assert forall i | 0 <= i < |x| :: x[i] == y[i];
    var n, m := a as int, b as int;
    if |x| == 2 {
      assert n / 64 == m / 64 && n % 64 == m % 64;
    } else if |x| == 3 {
      assert n / 4096 == m / 4096 && n / 64 % 64 == m / 64 % 64 && n % 64 == m % 64;
      assert n / 64 / 64 == n / 4096 && m / 64 / 64 == m / 4096;
    } else if |x| == 4 {
      assert n / 4096 % 64 == m / 4096 % 64;
      assert n / 64 % 64 == m / 64 % 64 && n % 64 == m % 64;
      assert n / 262144 == m / 262144;
      assert n / 64 / 64 == n / 4096 && m / 64 / 64 == m / 4096;
      assert n / 4096 / 64 == n / 262144 && m / 4096 / 64 == m / 262144;
    }
  }

  /** No two texts share an encoding: the code is prefix-free. */
  lemma {:induction false} EncodeInjective(s: string, t: string)
    requires Encode(s) == Encode(t)
    ensures s == t
  {
    if s == "" {
      if t != "" {
        EncodeNonEmpty(t);
      }
    } else if t == "" {
      EncodeNonEmpty(s);
    } else {
      var a, b := EncodeChar(s[0]), EncodeChar(t[0]);
      var x, y := Encode(s[1..]), Encode(t[1..]);
      assert a + x == b + y;
      assert (a + x)[0] == a[0] && (b + y)[0] == b[0];
      EncodeCharLength(s[0], t[0]);
      assert a == (a + x)[..|a|] == (b + y)[..|b|] == b;
      assert x == (a + x)[|a|..] == (b + y)[|b|..] == y;
      EncodeCharInjective(s[0], t[0]);
      EncodeInjective(s[1..], t[1..]);
      assert s == [s[0]] + s[1..] && t == [t[0]] + t[1..];
    }
  }

  /** Python's `<` on `bytes`. */
  predicate Less(a: seq<byte>, b: seq<byte>) {
    && b != []
    && (a == [] || a[0] < b[0] || (a[0] == b[0] && Less(a[1..], b[1..])))
  }

  lemma {:induction false} LessIrreflexive(a: seq<byte>)
    ensures !Less(a, a)
  {
    if a != [] {
      LessIrreflexive(a[1..]);
    }
  }

  lemma {:induction false} LessTransitive(a: seq<byte>, b: seq<byte>, c: seq<byte>)
    requires Less(a, b) && Less(b, c)
    ensures Less(a, c)
  {
    if a != [] && a[0] == b[0] == c[0] {
      LessTransitive(a[1..], b[1..], c[1..]);
    }
  }

  lemma {:induction false} LessTotal(a: seq<byte>, b: seq<byte>)
    ensures a == b || Less(a, b) || Less(b, a)
  {
    if a != [] && b != [] && a[0] == b[0] {
      LessTotal(a[1..], b[1..]);
      assert a == [a[0]] + a[1..] && b == [b[0]] + b[1..];
    }
  }

  /******* The order of texts *******/

  /** The bits of the code point, six to each continuation byte, below a first byte that tells the length. */
  lemma EncodeCharSays(c: char)
    ensures var r, n := EncodeChar(c), c as int;
      && |r| == (if n <= 0x7F then 1 else if n <= 0x7FF then 2 else if n <= 0xFFFF then 3 else 4)
      && (|r| == 1 ==> n == r[0] as int)
      && (|r| == 2 ==> 0xC0 <= r[0] <= 0xDF && n == Six(r[0] as int - 0xC0, r[1]))
      && (|r| == 3 ==> 0xE0 <= r[0] <= 0xEF && n == Six(Six(r[0] as int - 0xE0, r[1]), r[2]))
      && (|r| == 4 ==> 0xF0 <= r[0] <= 0xF7 && n == Six(Six(Six(r[0] as int - 0xF0, r[1]), r[2]), r[3]))
      && forall i | 0 < i < |r| :: 0x80 <= r[i] <= 0xBF
  {
    var n := c as int;
    assert n / 262144 * 64 + n / 4096 % 64 == n / 4096;
    assert n / 4096 * 64 + n / 64 % 64 == n / 64;
  }

  /** Six more bits, from a continuation byte. */
  ghost function Six(bits: int, continuation: byte): int {
    bits * 64 + (continuation as int - 0x80)
  }

  /** One text comes before another: by the first code point in which they differ, or as its beginning. */
  ghost predicate Before(s: string, t: string) {
    && t != ""
    && (s == "" || s[0] < t[0] || (s[0] == t[0] && Before(s[1..], t[1..])))
  }

  lemma {:induction false} LessAfterPrefix(p: seq<byte>, x: seq<byte>, y: seq<byte>)
    ensures Less(p + x, p + y) <==> Less(x, y)
  {
    if p == [] {
      assert p + x == x && p + y == y;
    } else {
      assert (p + x)[1..] == p[1..] + x && (p + y)[1..] == p[1..] + y;
      LessAfterPrefix(p[1..], x, y);
    }
  }

  /** The first difference decides. */
  lemma {:induction false} LessAt(x: seq<byte>, y: seq<byte>, k: nat)
    requires k < |x| && k < |y| && x[..k] == y[..k] && x[k] < y[k]
    ensures Less(x, y) && !Less(y, x)
  {
    if k > 0 {
      assert x[0] == x[..k][0] == y[..k][0] == y[0];
      assert x[1..][..k - 1] == x[..k][1..] && y[1..][..k - 1] == y[..k][1..];
      LessAt(x[1..], y[1..], k - 1);
    }
  }

  /** A smaller code point has smaller bytes, before either encoding ends. */
  lemma CharDifference(a: char, b: char) returns (k: nat)
    requires a < b
    ensures var x, y := EncodeChar(a), EncodeChar(b);
      k < |x| && k < |y| && x[..k] == y[..k] && x[k] < y[k]
  {
    hide EncodeChar;
    var x, y := EncodeChar(a), EncodeChar(b);
    EncodeCharSays(a);
    EncodeCharSays(b);
    k := if x[0] < y[0] then 0 else if x[1] < y[1] then 1 else if |x| > 2 && x[2] < y[2] then 2 else 3;
  }

  lemma CharsDecide(a: char, x: seq<byte>, b: char, y: seq<byte>)
    requires a < b
    ensures Less(EncodeChar(a) + x, EncodeChar(b) + y) && !Less(EncodeChar(b) + y, EncodeChar(a) + x)
  {
    var k := CharDifference(a, b);
    var p, q := EncodeChar(a) + x, EncodeChar(b) + y;
    assert p[..k] == EncodeChar(a)[..k] && q[..k] == EncodeChar(b)[..k];
    LessAt(p, q, k);
  }

  /** Comparing the UTF-8 bytes of two texts is comparing their code points. */
  lemma {:induction false} EncodeKeepsOrder(s: string, t: string)
    ensures Less(Encode(s), Encode(t)) <==> Before(s, t)
  {
    hide EncodeChar, Less;
    if s == "" || t == "" {
      EmptyIsLeast(s, t);
    } else if s[0] == t[0] {
      LessAfterPrefix(EncodeChar(s[0]), Encode(s[1..]), Encode(t[1..]));
      EncodeKeepsOrder(s[1..], t[1..]);
    } else if s[0] < t[0] {
      CharsDecide(s[0], Encode(s[1..]), t[0], Encode(t[1..]));
    } else {
      CharsDecide(t[0], Encode(t[1..]), s[0], Encode(s[1..]));
    }
  }

  lemma EmptyIsLeast(s: string, t: string)
    requires s == "" || t == ""
    ensures Less(Encode(s), Encode(t)) <==> t != ""
  {
    if t != "" {
      EncodeNonEmpty(t);
    }
  }

  /** Texts are told apart and ordered by their bytes just as they are by their code points. */
  lemma EncodeExactly(s: string, t: string)
    ensures Encode(s) == Encode(t) <==> s == t
    ensures Less(Encode(s), Encode(t)) <==> Before(s, t)
    ensures Before(s, t) ==> s != t
  {
    hide Encode;
    EncodeKeepsOrder(s, t);
    LessIrreflexive(Encode(s));
    if Encode(s) == Encode(t) {
      EncodeInjective(s, t);
    }
  }
}
