/** Unpadded base64url (RFC 4648, section 5) with a strict decoder (section 3.5). */
module Base64Url {
  import opened Wrappers
  import opened Text
  import opened Utf8

  /******* Bytes and six-bit groups *******/

  type sextet = x: int | 0 <= x < 64

  /** The four groups of three bytes. */
  function G0(x: byte): sextet { x / 4 }
  function G1(x: byte, y: byte): sextet { x % 4 * 16 + y / 16 }
  function G2(y: byte, z: byte): sextet { y % 16 * 4 + z / 64 }
  function G3(z: byte): sextet { z % 64 }

  function Groups(data: seq<byte>): seq<sextet> {
    if |data| == 0 then []
    else if |data| == 1 then [G0(data[0]), G1(data[0], 0)]
    else if |data| == 2 then [G0(data[0]), G1(data[0], data[1]), G2(data[1], 0)]
    else [G0(data[0]), G1(data[0], data[1]), G2(data[1], data[2]), G3(data[2])] + Groups(data[3..])
  }

  /** The three bytes of four groups. */
  function First(a: int, b: int): byte
    requires 0 <= a < 64 && 0 <= b < 64
  {
    a * 4 + b / 16
  }

  function Second(b: int, c: int): byte
    requires 0 <= b < 64 && 0 <= c < 64
  {
    b % 16 * 16 + c / 4
  }

  function Third(c: int, d: int): byte
    requires 0 <= c < 64 && 0 <= d < 64
  {
    c % 4 * 64 + d
  }

  /** Leftover bits of the last group are dropped. */
  function Bytes(v: seq<sextet>): seq<byte>
    requires |v| % 4 != 1
  {
    if |v| == 0 then []
    else if |v| == 2 then [First(v[0], v[1])]
    else if |v| == 3 then [First(v[0], v[1]), Second(v[1], v[2])]
    else [First(v[0], v[1]), Second(v[1], v[2]), Third(v[2], v[3])] + Bytes(v[4..])
  }

  function EncodedLength(n: nat): nat {
    n / 3 * 4 + if n % 3 == 0 then 0 else n % 3 + 1
  }

  lemma {:induction false} GroupCount(data: seq<byte>)
    ensures |Groups(data)| == EncodedLength(|data|)
    ensures |Groups(data)| % 4 != 1
  {
    hide G0, G1, G2, G3;
    if |data| >= 3 {
      GroupCount(data[3..]);
    }
  }

  lemma BytesOfQuad(x: byte, y: byte, z: byte)
    ensures First(G0(x), G1(x, y)) == x
    ensures Second(G1(x, y), G2(y, z)) == y
    ensures Third(G2(y, z), G3(z)) == z
  {
  }

  lemma {:induction false} BytesOfGroups(data: seq<byte>)
    ensures |Groups(data)| % 4 != 1 && Bytes(Groups(data)) == data
  {
    hide G0, G1, G2, G3, First, Second, Third;
    GroupCount(data);
    if |data| >= 3 {
      BytesOfQuad(data[0], data[1], data[2]);
      BytesOfGroups(data[3..]);
      assert Groups(data)[4..] == Groups(data[3..]);
      assert data == [data[0], data[1], data[2]] + data[3..];
    } else if |data| > 0 {
      BytesOfQuad(data[0], if |data| == 2 then data[1] else 0, 0);
    }
  }

  /** The bits of the last group that RFC 4648 section 3.5 wants to be zero. */
  predicate ZeroLeftover(v: seq<sextet>) {
    && (|v| % 4 == 2 ==> v[|v| - 1] % 16 == 0)
    && (|v| % 4 == 3 ==> v[|v| - 1] % 4 == 0)
  }

  lemma GroupsOfQuad(a: sextet, b: sextet, c: sextet, d: sextet)
    ensures G0(First(a, b)) == a
    ensures G1(First(a, b), Second(b, c)) == b
    ensures G2(Second(b, c), Third(c, d)) == c
    ensures G3(Third(c, d)) == d
  {
  }

  lemma GroupsOfTail(a: sextet, b: sextet, c: sextet)
    ensures G1(First(a, b), 0) == b <==> b % 16 == 0
    ensures G2(Second(b, c), 0) == c <==> c % 4 == 0
  {
  }

  lemma {:induction false} GroupsOfBytes(v: seq<sextet>)
    requires |v| % 4 != 1
    ensures Groups(Bytes(v)) == v <==> ZeroLeftover(v)
  {
    hide G0, G1, G2, G3, First, Second, Third;
    if |v| >= 4 {
      var rest := v[4..];
      GroupsOfBytes(rest);
      GroupsOfQuad(v[0], v[1], v[2], v[3]);
      assert Bytes(v)[3..] == Bytes(rest);
      assert v == v[..4] + rest;
      assert Groups(Bytes(v)) == v[..4] + Groups(Bytes(rest));
      assert (v[..4] + Groups(Bytes(rest)))[4..] == Groups(Bytes(rest));
    } else if |v| == 3 {
      GroupsOfQuad(v[0], v[1], v[2], 0);
      GroupsOfTail(v[0], v[1], v[2]);
      assert v == [v[0], v[1], v[2]];
    } else if |v| == 2 {
      GroupsOfQuad(v[0], v[1], 0, 0);
      GroupsOfTail(v[0], v[1], 0);
      assert v == [v[0], v[1]];
    }
  }

  /******* Groups and symbols *******/

  predicate InAlphabet(c: char) {
    'A' <= c <= 'Z' || 'a' <= c <= 'z' || '0' <= c <= '9' || c == '-' || c == '_'
  }

  function Symbol(v: sextet): (c: char)
    ensures InAlphabet(c)
  {
    if v < 26 then 'A' + v as char
    else if v < 52 then 'a' + (v - 26) as char
    else if v < 62 then '0' + (v - 52) as char
    else if v == 62 then '-' else '_'
  }

  function Value(c: char): (v: sextet)
    requires InAlphabet(c)
  {
    if 'A' <= c <= 'Z' then (c - 'A') as int
    else if 'a' <= c <= 'z' then (c - 'a') as int + 26
    else if '0' <= c <= '9' then (c - '0') as int + 52
    else if c == '-' then 62 else 63
  }

  /** Table 2 of RFC 4648, as code points: A to Z, a to z, 0 to 9, hyphen, underscore. */
  lemma SymbolTable(v: sextet)
    ensures Symbol(v) as int
         == if v <= 25 then 65 + v else if v <= 51 then 71 + v else if v <= 61 then v - 4 else if v == 62 then 45 else 95
  {
  }

  predicate AllInAlphabet(s: string) {
    forall i | 0 <= i < |s| :: InAlphabet(s[i])
  }

  function Symbols(v: seq<sextet>): (s: string)
    ensures |s| == |v| && AllInAlphabet(s)
  {
    seq(|v|, i requires 0 <= i < |v| => Symbol(v[i]))
  }

  function Values(s: string): (v: seq<sextet>)
    requires AllInAlphabet(s)
    ensures |v| == |s|
  {
    seq(|s|, i requires 0 <= i < |s| => Value(s[i]))
  }

  lemma ValuesOfSymbols(v: seq<sextet>)
    ensures Values(Symbols(v)) == v
  {
  }

  lemma SymbolsOfValues(s: string)
    requires AllInAlphabet(s)
    ensures Symbols(Values(s)) == s
  {
  }

  /******* The codec *******/

  /** `_b64url_encode`. */
  function Encode(data: seq<byte>): string {
    Symbols(Groups(data))
  }

  /** The bits of three bytes, six to a symbol; one or two last bytes are filled up with zero bits. */
  lemma EncodeSays(data: seq<byte>)
    ensures Encode([]) == ""
    ensures |data| == 1 ==> Encode(data) == TwoSymbols(data[0] as int * 16)
    ensures |data| == 2 ==> Encode(data) == ThreeSymbols((data[0] as int * 256 + data[1] as int) * 4)
    ensures |data| >= 3 ==>
              Encode(data) == FourSymbols(data[0] as int * 65536 + data[1] as int * 256 + data[2] as int) + Encode(data[3..])
  {
    hide Symbol, G0, G1, G2, G3;
    if |data| == 1 {
      TailSays(data[0], 0);
    } else if |data| == 2 {
      TailSays(data[0], data[1]);
    } else if |data| >= 3 {
      QuadSays(data[0], data[1], data[2]);
      assert Groups(data) == [G0(data[0]), G1(data[0], data[1]), G2(data[1], data[2]), G3(data[2])] + Groups(data[3..]);
    }
  }

  ghost function TwoSymbols(n: int): string
    requires 0 <= n < 4096
  {
    [Symbol(n / 64), Symbol(n % 64)]
  }

  ghost function ThreeSymbols(n: int): string
    requires 0 <= n < 262144
  {
    [Symbol(n / 4096), Symbol(n / 64 % 64), Symbol(n % 64)]
  }

  ghost function FourSymbols(n: int): string
    requires 0 <= n < 16777216
  {
    [Symbol(n / 262144), Symbol(n / 4096 % 64), Symbol(n / 64 % 64), Symbol(n % 64)]
  }

  lemma QuadSays(x: byte, y: byte, z: byte)
    ensures var n := x as int * 65536 + y as int * 256 + z as int;
      G0(x) == n / 262144 && G1(x, y) == n / 4096 % 64 && G2(y, z) == n / 64 % 64 && G3(z) == n % 64
  {
    var n := x as int * 65536 + y as int * 256 + z as int;
    assert n / 64 == x as int * 1024 + y as int * 4 + z / 64;
    assert n / 4096 == x as int * 16 + y / 16;
  }

  lemma TailSays(x: byte, y: byte)
    ensures var n := x as int * 16; G0(x) == n / 64 && G1(x, 0) == n % 64
    ensures var n := (x as int * 256 + y as int) * 4;
      G0(x) == n / 4096 && G1(x, y) == n / 64 % 64 && G2(y, 0) == n % 64
  {
    QuadSays(x, y, 0);
    var n := (x as int * 256 + y as int) * 4;
    assert n / 64 == x as int * 16 + y / 16;
  }

  /** `base64.urlsafe_b64decode`, on input padded to whole groups. */
  function Lenient(s: string): seq<byte>
    requires AllInAlphabet(s) && |s| % 4 != 1
  {
    Bytes(Values(s))
  }

  /** `_b64url_decode`. */
  function Decode(s: string): Result<seq<byte>, ()> {
    if s == "" || !AllInAlphabet(s) then Err(()) else
    :- Need(|s| % 4 != 1, ());
    var decoded := Lenient(s);
    :- Need(Encode(decoded) == s, ());
    Ok(decoded)
  }

  lemma LenientInverts(data: seq<byte>)
    ensures |Encode(data)| == EncodedLength(|data|) && |Encode(data)| % 4 != 1
    ensures Lenient(Encode(data)) == data
  {
    GroupCount(data);
    BytesOfGroups(data);
    ValuesOfSymbols(Groups(data));
  }

  /** The decoder accepts exactly the encodings of non-empty byte strings, each as its own bytes. */
  lemma DecodesExactlyEncodings(s: string, data: seq<byte>)
    ensures Decode(s) == Ok(data) <==> s == Encode(data) && data != []
  {
    LenientInverts(data);
    if data == [] {
      assert Encode(data) == "";
    }
  }

  /** Acceptance, read off the text alone: the alphabet, the length, and zero leftover bits. */
  lemma DecodeAccepts(s: string)
    ensures Decode(s).Ok? <==> s != "" && AllInAlphabet(s) && |s| % 4 != 1 && ZeroLeftover(Values(s))
  {
    if AllInAlphabet(s) && |s| % 4 != 1 {
      GroupsOfBytes(Values(s));
      SymbolsOfValues(s);
      ValuesOfSymbols(Groups(Lenient(s)));
    }
  }

  /******* Candidate tokens *******/

  /** `_require_candidate_token`. */
  predicate IsCandidateToken(s: string) {
    && Stable(s)
    && |s| == 43 && AllInAlphabet(s)
    && var decoded := Lenient(s);
    |decoded| == 32 && Encode(decoded) == s
  }

  lemma AlphabetIsStable(s: string)
    requires s != "" && AllInAlphabet(s)
    ensures Stable(s)
  {
    forall i | 0 <= i < |s| ensures !IsSpace(s[i]) && !IsControl(s[i]) {
      assert InAlphabet(s[i]);
    }
  }

  /** A text is a candidate token exactly when it is the encoding of some 32 bytes. */
  lemma TokensAreEncodings(s: string)
    ensures IsCandidateToken(s) <==> exists data: seq<byte> :: |data| == 32 && s == Encode(data)
  {
    if IsCandidateToken(s) {
      assert s == Encode(Lenient(s));
    }
    if data: seq<byte> :| |data| == 32 && s == Encode(data) {
      LenientInverts(data);
      AlphabetIsStable(s);
    }
  }
}
