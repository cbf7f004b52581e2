/** Unpadded URL-safe base64 (RFC 4648, section 5) and the decoder that accepts only canonical text
    (section 3.5). */
module Base64 {
  import opened Wrappers

  type Byte = x: int | 0 <= x < 256

  type Sextet = x: int | 0 <= x < 64

  datatype Error = InvalidBase64 | NonCanonical

  function Symbol(v: Sextet): char {
    if v < 26 then 'A' + v as char
    else if v < 52 then 'a' + (v - 26) as char
    else if v < 62 then '0' + (v - 52) as char
    else if v == 62 then '-' else '_'
  }

  /** The library decoder takes both the standard and the URL-safe symbols. */
  function ValueOf(c: char): Option<Sextet> {
    if 'A' <= c <= 'Z' then Some(c as int - 'A' as int)
    else if 'a' <= c <= 'z' then Some(c as int - 'a' as int + 26)
    else if '0' <= c <= '9' then Some(c as int - '0' as int + 52)
    else if c == '-' || c == '+' then Some(62)
    else if c == '_' || c == '/' then Some(63)
    else None
  }

  predicate UrlSafe(c: char) { ValueOf(c).Some? && c != '+' && c != '/' }

  lemma SymbolRoundTrip(v: Sextet)
    ensures ValueOf(Symbol(v)) == Some(v) && UrlSafe(Symbol(v))
  {
  }

  lemma ValueRoundTrip(c: char)
    requires UrlSafe(c)
    ensures Symbol(ValueOf(c).value) == c
  {
  }

  function Symbols(vs: seq<Sextet>): (r: string)
    ensures |r| == |vs| && AllUrlSafe(r)
    ensures forall i :: 0 <= i < |vs| ==> ValueOf(r[i]) == Some(vs[i])
  {
    forall i: nat | i < |vs|
      ensures ValueOf(Symbol(vs[i])) == Some(vs[i]) && UrlSafe(Symbol(vs[i]))
    {
      SymbolRoundTrip(vs[i]);
    }
    seq(|vs|, i requires 0 <= i < |vs| => Symbol(vs[i]))
  }

  /** Three bytes are four symbols, two are three and one is two; the bits missing at the end are zero. */
  function Three(x: Byte, y: Byte, z: Byte): (r: seq<Sextet>)
    ensures |r| == 4
  {
    [x / 4, x % 4 * 16 + y / 16, y % 16 * 4 + z / 64, z % 64]
  }

  function Two(x: Byte, y: Byte): (r: seq<Sextet>)
    ensures |r| == 3
  {
    [x / 4, x % 4 * 16 + y / 16, y % 16 * 4]
  }

  function One(x: Byte): (r: seq<Sextet>)
    ensures |r| == 2
  {
    [x / 4, x % 4 * 16]
  }

  /** Table 2 of RFC 4648, in ASCII codes. */
  lemma SymbolCodes(v: Sextet)
    ensures Symbol(v) as int == if v <= 25 then 65 + v else if v <= 51 then 71 + v else if v <= 61 then v - 4
                                else if v == 62 then 45 else 95
  {
  }

  function Number(digits: seq<int>, base: int): int {
    if digits == [] then 0 else Number(digits[..|digits| - 1], base) * base + digits[|digits| - 1]
  }

  lemma {:induction false} NumberOfMore(digits: seq<int>, d: int, base: int)
    ensures Number(digits + [d], base) == Number(digits, base) * base + d
  {
    assert (digits + [d])[..|digits|] == digits;
  }

  lemma {:induction false} NumberOfThree(a: int, b: int, c: int, base: int)
    ensures Number([a], base) == a && Number([a, b], base) == a * base + b
    ensures Number([a, b, c], base) == (a * base + b) * base + c
  {
    NumberOfMore([], a, base);
    NumberOfMore([a], b, base);
    NumberOfMore([a, b], c, base);
    assert [] + [a] == [a] && [a] + [b] == [a, b] && [a, b] + [c] == [a, b, c];
  }

  /** Read as binary numbers, the first bit highest, a group of symbols is its bytes, filled up with zeros. */
  lemma GroupsSpell(x: Byte, y: Byte, z: Byte)
    ensures Number(Three(x, y, z), 64) == Number([x, y, z], 256)
    ensures Number(Two(x, y), 64) == 4 * Number([x, y], 256)
    ensures Number(One(x), 64) == 16 * Number([x], 256)
  {
    var a, b, c := Three(x, y, z), Two(x, y), One(x);
    NumberOfThree(x, y, z, 256);
    NumberOfThree(a[0], a[1], a[2], 64);
    NumberOfMore([a[0], a[1], a[2]], a[3], 64);
    NumberOfThree(b[0], b[1], b[2], 64);
    NumberOfThree(c[0], c[1], 0, 64);
    assert a == [a[0], a[1], a[2]] + [a[3]] && b == [b[0], b[1], b[2]] && c == [c[0], c[1]];
  }

  predicate AllUrlSafe(s: string) { forall i :: 0 <= i < |s| ==> UrlSafe(s[i]) }

  /** _b64e */
  function Encode(data: seq<Byte>): string {
    if data == [] then ""
    else if |data| == 1 then Symbols(One(data[0]))
    else if |data| == 2 then Symbols(Two(data[0], data[1]))
    else Symbols(Three(data[0], data[1], data[2])) + Encode(data[3..])
  }

  predicate AllValues(s: string) { forall i :: 0 <= i < |s| ==> ValueOf(s[i]).Some? }

  function FromFour(a: Sextet, b: Sextet, c: Sextet, d: Sextet): (r: seq<Byte>)
    ensures |r| == 3
  {
    [a * 4 + b / 16, b % 16 * 16 + c / 4, c % 4 * 64 + d]
  }

  function FromThree(a: Sextet, b: Sextet, c: Sextet): (r: seq<Byte>)
    ensures |r| == 2
  {
    [a * 4 + b / 16, b % 16 * 16 + c / 4]
  }

  function FromTwo(a: Sextet, b: Sextet): (r: seq<Byte>)
    ensures |r| == 1
  {
    [a * 4 + b / 16]
  }

  function At(s: string, i: nat): Sextet
    requires i < |s| && AllValues(s)
  {
    ValueOf(s[i]).value
  }

  /** The bytes of text whose characters all have values; bits left over at the end are dropped. */
  function Bytes(s: string): seq<Byte>
    requires AllValues(s) && |s| % 4 != 1
  {
    if s == "" then []
    else if |s| == 2 then FromTwo(At(s, 0), At(s, 1))
    else if |s| == 3 then FromThree(At(s, 0), At(s, 1), At(s, 2))
    else FromFour(At(s, 0), At(s, 1), At(s, 2), At(s, 3)) + Bytes(s[4..])
  }

  /** The library decoder on text to which the missing padding is added. */
  function RawDecode(s: string): Option<seq<Byte>> {
    if AllValues(s) && |s| % 4 != 1 then Some(Bytes(s)) else None
  }

  /** _b64d */
  function Decode(s: string): Result<seq<Byte>, Error> {
    match RawDecode(s)
    case None => Err(InvalidBase64)
    case Some(data) => if Encode(data) != s then Err(NonCanonical) else Ok(data)
  }

  lemma {:induction false} EncodedShape(data: seq<Byte>)
    ensures AllUrlSafe(Encode(data)) && AllValues(Encode(data)) && |Encode(data)| % 4 != 1
  {
    if |data| > 2 {
      EncodedShape(data[3..]);
    }
  }

  lemma ThreeBytes(x: Byte, y: Byte, z: Byte)
    ensures var g := Three(x, y, z); FromFour(g[0], g[1], g[2], g[3]) == [x, y, z]
  {
    var g := Three(x, y, z);
    assert g[1] / 16 == x % 4 && g[1] % 16 == y / 16;
    assert g[2] / 4 == y % 16 && g[2] % 4 == z / 64;
  }

  lemma TwoBytes(x: Byte, y: Byte)
    ensures var g := Two(x, y); FromThree(g[0], g[1], g[2]) == [x, y]
  {
    var g := Two(x, y);
    assert g[1] / 16 == x % 4 && g[1] % 16 == y / 16;
  }

  /** The first group of text is read back whatever follows it. */
  lemma FirstGroup(x: Byte, y: Byte, z: Byte, s: string, rest: string)
    requires s == Symbols(Three(x, y, z)) + rest && AllValues(s)
    ensures FromFour(At(s, 0), At(s, 1), At(s, 2), At(s, 3)) == [x, y, z]
  {
    var g := Three(x, y, z);
    assert forall i :: 0 <= i < 4 ==> s[i] == Symbols(g)[i];
    ThreeBytes(x, y, z);
  }

  /** What a last group of text reads as. */
  lemma LastText(vs: seq<Sextet>)
    requires 2 <= |vs| <= 3
    ensures AllValues(Symbols(vs))
    ensures Bytes(Symbols(vs)) == if |vs| == 2 then FromTwo(vs[0], vs[1]) else FromThree(vs[0], vs[1], vs[2])
    ensures ValueOf(Symbols(vs)[|vs| - 1]) == Some(vs[|vs| - 1])
  {
  }

  lemma OneByte(x: Byte)
    ensures FromTwo(One(x)[0], One(x)[1]) == [x] && One(x)[1] % 16 == 0
  {
  }

  lemma {:induction false} LastGroup(data: seq<Byte>)
    requires 1 <= |data| <= 2
    ensures AllValues(Encode(data)) && Bytes(Encode(data)) == data
  {
    if |data| == 2 {
      LastText(Two(data[0], data[1]));
      TwoBytes(data[0], data[1]);
    } else {
      LastText(One(data[0]));
      OneByte(data[0]);
    }
  }

  lemma {:induction false} BytesOfEncoded(data: seq<Byte>)
    requires AllValues(Encode(data)) && |Encode(data)| % 4 != 1
    ensures Bytes(Encode(data)) == data
  {
    if |data| > 2 {
      var s, rest := Encode(data), data[3..];
      EncodedShape(rest);
      BytesOfEncoded(rest);
      FirstGroup(data[0], data[1], data[2], s, Encode(rest));
      assert s[4..] == Encode(rest);
      assert data == [data[0], data[1], data[2]] + rest;
    } else if |data| > 0 {
      LastGroup(data);
    }
  }

  /** Whatever was encoded is decoded. */
  lemma {:induction false} DecodesWhatItEncodes(data: seq<Byte>)
    ensures Decode(Encode(data)) == Ok(data)
  {
    EncodedShape(data);
    BytesOfEncoded(data);
  }

  /** Text is canonical when its length is possible, its symbols are URL-safe, and the bits left over
      after the last byte are zero. */
  predicate Canonical(s: string) {
    && |s| % 4 != 1
    && AllUrlSafe(s)
    && (|s| % 4 == 2 ==> ValueOf(s[|s| - 1]).value % 16 == 0)
    && (|s| % 4 == 3 ==> ValueOf(s[|s| - 1]).value % 4 == 0)
  }

  lemma LastTextIsCanonical(vs: seq<Sextet>)
    requires (|vs| == 2 && vs[1] % 16 == 0) || (|vs| == 3 && vs[2] % 4 == 0)
    ensures Canonical(Symbols(vs))
  {
    LastText(vs);
  }

  lemma TwoEndsInZeros(x: Byte, y: Byte)
    ensures Two(x, y)[2] % 4 == 0
  {
  }

  lemma {:induction false} LastGroupIsCanonical(data: seq<Byte>)
    requires 1 <= |data| <= 2
    ensures Canonical(Encode(data))
  {
    if |data| == 2 {
      TwoEndsInZeros(data[0], data[1]);
      LastTextIsCanonical(Two(data[0], data[1]));
    } else {
      OneByte(data[0]);
      LastTextIsCanonical(One(data[0]));
    }
  }

  lemma {:induction false} EncodedIsCanonical(data: seq<Byte>)
    ensures Canonical(Encode(data))
  {
    if |data| > 2 {
      EncodedShape(data);
      var s, rest := Encode(data), Encode(data[3..]);
      EncodedIsCanonical(data[3..]);
      assert |s| == |rest| + 4;
      assert rest != "" ==> s[|s| - 1] == rest[|rest| - 1];
    } else if |data| > 0 {
      LastGroupIsCanonical(data);
    }
  }

  lemma FourRoundTrip(s: string)
    requires |s| >= 4 && AllUrlSafe(s) && AllValues(s)
    ensures var f := FromFour(At(s, 0), At(s, 1), At(s, 2), At(s, 3));
            Symbols(Three(f[0], f[1], f[2])) == s[..4]
  {
    Regrouped(At(s, 0), At(s, 1), At(s, 2), At(s, 3));
    ValueRoundTrip(s[0]);
    ValueRoundTrip(s[1]);
    ValueRoundTrip(s[2]);
    ValueRoundTrip(s[3]);
  }

  lemma Regrouped(a: Sextet, b: Sextet, c: Sextet, d: Sextet)
    ensures var f := FromFour(a, b, c, d);
            f[0] / 4 == a && f[0] % 4 * 16 + f[1] / 16 == b && f[1] % 16 * 4 + f[2] / 64 == c && f[2] % 64 == d
  {
  }

  lemma LastTwo(a: Sextet, b: Sextet)
    requires b % 16 == 0
    ensures One(FromTwo(a, b)[0]) == [a, b]
  {
  }

  lemma LastThree(a: Sextet, b: Sextet, c: Sextet)
    requires c % 4 == 0
    ensures var f := FromThree(a, b, c); Two(f[0], f[1]) == [a, b, c]
  {
    var f := FromThree(a, b, c);
    assert f[0] / 4 == a && f[0] % 4 == b / 16;
    assert f[1] / 16 == b % 16 && f[1] % 16 == c / 4;
  }

  lemma {:induction false} LastRoundTrip(s: string)
    requires 2 <= |s| <= 3 && Canonical(s) && AllValues(s)
    ensures Encode(Bytes(s)) == s
  {
    ValueRoundTrip(s[0]);
    ValueRoundTrip(s[1]);
    ValueRoundTrip(s[|s| - 1]);
    if |s| == 2 {
      LastTwo(At(s, 0), At(s, 1));
      assert Symbols([At(s, 0), At(s, 1)]) == s;
    } else {
      LastThree(At(s, 0), At(s, 1), At(s, 2));
      assert Symbols([At(s, 0), At(s, 1), At(s, 2)]) == s;
    }
  }

  lemma {:induction false} EncodesCanonicalBytes(s: string)
    requires Canonical(s) && AllValues(s)
    ensures Encode(Bytes(s)) == s
  {
    if |s| >= 4 {
      var rest := s[4..];
      assert rest != "" ==> rest[|rest| - 1] == s[|s| - 1];
      EncodesCanonicalBytes(rest);
      var data, f := Bytes(s), FromFour(At(s, 0), At(s, 1), At(s, 2), At(s, 3));
      FourRoundTrip(s);
      assert data == f + Bytes(rest) && data[3..] == Bytes(rest);
      assert Encode(data) == Symbols(Three(f[0], f[1], f[2])) + Encode(Bytes(rest));
    } else if |s| > 0 {
      LastRoundTrip(s);
    }
  }

  /** Exactly the canonical texts are decoded, which are exactly the texts the encoder writes. */
  lemma DecodesExactlyTheImage(s: string)
    ensures Decode(s).Ok? <==> Canonical(s)
    ensures Decode(s).Ok? <==> exists data :: Encode(data) == s
  {
    if Decode(s).Ok? {
      EncodedIsCanonical(Decode(s).value);
      assert Encode(Decode(s).value) == s;
    }
    if Canonical(s) {
      assert AllValues(s);
      EncodesCanonicalBytes(s);
    }
    forall data | Encode(data) == s
      ensures Decode(s).Ok?
    {
      DecodesWhatItEncodes(data);
    }
  }

  /** Two texts never decode to the same bytes. */
  lemma DecodingIsInjective(s: string, t: string)
    requires Decode(s).Ok? && Decode(s) == Decode(t)
    ensures s == t
  {
  }
}
