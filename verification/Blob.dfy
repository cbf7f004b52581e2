/** Settings kept encrypted as v1$salt$nonce$ciphertext$mac. */
module Blob {
  import opened Wrappers
  import Base64

  type Byte = Base64.Byte

  /** The hashes and the JSON codec, of which only what Sound says is used. */
  datatype Primitives<!V> = Primitives(
    sha256: seq<Byte> -> seq<Byte>,
    hmac: (seq<Byte>, seq<Byte>) -> seq<Byte>,
    dumps: V -> seq<Byte>,
    loads: seq<Byte> -> Option<V>,
    isObject: V -> bool,
    emptyObject: V)
  {
    /** The keyed hash always has 32 bytes. */
    ghost predicate Sound() { forall key, m :: |hmac(key, m)| == 32 }
  }

  datatype Error = Format | Encoding(e: Base64.Error) | MacMismatch | CounterOverflow | BadJson | NotObject

  // ---- exclusive or ----

  function Power2(n: nat): (r: int)
    ensures r >= 1
  {
    if n == 0 then 1 else 2 * Power2(n - 1)
  }

  /** Bit by bit, from the lowest. */
  function XorBits(a: int, b: int, n: nat): (r: int)
    requires 0 <= a < Power2(n) && 0 <= b < Power2(n)
    ensures 0 <= r < Power2(n)
  {
    if n == 0 then 0
    else (if a % 2 == b % 2 then 0 else 1) + 2 * XorBits(a / 2, b / 2, n - 1)
  }

  lemma EightBits()
    ensures Power2(8) == 256
  {
    assert Power2(4) == 16;
  }

  function Xor(a: Byte, b: Byte): Byte {
    EightBits();
    XorBits(a, b, 8)
  }

  lemma {:induction false} XorTwice(a: int, b: int, n: nat)
    requires 0 <= a < Power2(n) && 0 <= b < Power2(n)
    ensures XorBits(XorBits(a, b, n), b, n) == a
  {
    if n > 0 {
      var rest := XorBits(a / 2, b / 2, n - 1);
      var bit := if a % 2 == b % 2 then 0 else 1;
      assert (bit + 2 * rest) % 2 == bit && (bit + 2 * rest) / 2 == rest;
      XorTwice(a / 2, b / 2, n - 1);
    }
  }

  /** bytes(a ^ b for a, b in zip(text, stream)) */
  function XorAll(text: seq<Byte>, stream: seq<Byte>): (r: seq<Byte>)
    ensures |r| == if |text| <= |stream| then |text| else |stream|
  {
    seq(if |text| <= |stream| then |text| else |stream|,
        i requires 0 <= i < |text| && 0 <= i < |stream| => Xor(text[i], stream[i]))
  }

  lemma XorAllTwice(text: seq<Byte>, stream: seq<Byte>)
    requires |text| == |stream|
    ensures XorAll(XorAll(text, stream), stream) == text
  {
    EightBits();
    var once := XorAll(text, stream);
    forall i: nat | i < |text|
      ensures XorAll(once, stream)[i] == text[i]
    {
      XorTwice(text[i], stream[i], 8);
    }
  }

  // ---- the keystream ----

  const COUNTERS := 0x1_0000_0000

  /** No longer stream exists: the block counter has four bytes. */
  const MAX_LENGTH := 32 * COUNTERS

  /** counter.to_bytes(4, "big") */
  function BigEndian(counter: nat): (r: seq<Byte>)
    requires counter < COUNTERS
    ensures |r| == 4
  {
    [counter / 0x100_0000, counter / 0x1_0000 % 0x100, counter / 0x100 % 0x100, counter % 0x100]
  }

  function Block<V>(p: Primitives<V>, key: seq<Byte>, nonce: seq<Byte>, counter: nat): seq<Byte>
    requires counter < COUNTERS
  {
    p.hmac(key, nonce + BigEndian(counter))
  }

  /** Byte i of the stream is byte i % 32 of block i / 32. */
  ghost function Stream<V>(p: Primitives<V>, key: seq<Byte>, nonce: seq<Byte>, length: nat): (r: seq<Byte>)
    requires p.Sound() && length <= MAX_LENGTH
    ensures |r| == length
  {
    seq(length, i requires 0 <= i < length => Block(p, key, nonce, i / 32)[i % 32])
  }

  lemma StreamGrows<V>(p: Primitives<V>, key: seq<Byte>, nonce: seq<Byte>, counter: nat)
    requires p.Sound() && counter < COUNTERS
    ensures Stream(p, key, nonce, 32 * counter + 32)
            == Stream(p, key, nonce, 32 * counter) + Block(p, key, nonce, counter)
  {
    forall i: nat | i < 32 * counter + 32
      ensures Stream(p, key, nonce, 32 * counter + 32)[i]
              == (Stream(p, key, nonce, 32 * counter) + Block(p, key, nonce, counter))[i]
    {
      if i >= 32 * counter {
        assert i / 32 == counter && i % 32 == i - 32 * counter;
      }
    }
  }

  method Keystream<V>(p: Primitives<V>, key: seq<Byte>, nonce: seq<Byte>, length: nat)
    returns (r: Result<seq<Byte>, Error>)
    requires p.Sound()
    ensures r == if length <= MAX_LENGTH then Ok(Stream(p, key, nonce, length)) else Err(CounterOverflow)
  {
    var out: seq<Byte> := [];
    var counter := 0;
    while |out| < length
      invariant counter <= COUNTERS && out == Stream(p, key, nonce, 32 * counter)
      decreases length - |out|
    {
      if counter >= COUNTERS {
        return Err(CounterOverflow);
      }
      StreamGrows(p, key, nonce, counter);
      out := out + Block(p, key, nonce, counter);
      counter := counter + 1;
    }
    assert out[..length] == Stream(p, key, nonce, length);
    return Ok(out[..length]);
  }

  // ---- the text ----

  /** "$".join(parts) */
  function Join(parts: seq<string>): string {
    if parts == [] then ""
    else if |parts| == 1 then parts[0]
    else parts[0] + "$" + Join(parts[1..])
  }

  /** text.split("$") */
  function Split(text: string): (parts: seq<string>)
    ensures parts != []
  {
    if text == "" then [""]
    else
      var rest := Split(text[1..]);
      if text[0] == '$' then [""] + rest else [[text[0]] + rest[0]] + rest[1..]
  }

  predicate Plain(s: string) { '$' !in s }

  lemma {:induction false} SplitOfPart(part: string, rest: string)
    requires Plain(part)
    ensures Split(part + "$" + rest) == [part] + Split(rest)
  {
    var text := part + "$" + rest;
    if part == "" {
      assert text[1..] == rest;
    } else {
      assert text[1..] == part[1..] + "$" + rest;
      SplitOfPart(part[1..], rest);
      assert part == [part[0]] + part[1..];
    }
  }

  lemma {:induction false} SplitOfLast(part: string)
    requires Plain(part)
    ensures Split(part) == [part]
  {
    if part != "" {
      SplitOfLast(part[1..]);
      assert part == [part[0]] + part[1..];
    }
  }

  lemma {:induction false} SplitOfJoin(parts: seq<string>)
    requires parts != [] && forall s :: s in parts ==> Plain(s)
    ensures Split(Join(parts)) == parts
  {
    assert parts[0] in parts;
    if |parts| == 1 {
      SplitOfLast(parts[0]);
    } else {
      SplitOfJoin(parts[1..]);
      SplitOfPart(parts[0], Join(parts[1..]));
    }
  }

  lemma {:induction false} JoinOfSplit(text: string)
    ensures Join(Split(text)) == text
  {
    if text != "" {
      JoinOfSplit(text[1..]);
      var rest := Split(text[1..]);
      assert text == [text[0]] + text[1..];
    }
  }

  // ---- encryption and decryption ----

  function BlobKey<V>(p: Primitives<V>, key: seq<Byte>, salt: seq<Byte>): seq<Byte> { p.sha256(key + salt) }

  function Mac<V>(p: Primitives<V>, key: seq<Byte>, salt: seq<Byte>, nonce: seq<Byte>, cipher: seq<Byte>): seq<Byte> {
    p.hmac(BlobKey(p, key, salt), salt + nonce + cipher)
  }

  function Text(salt: seq<Byte>, nonce: seq<Byte>, cipher: seq<Byte>, mac: seq<Byte>): string {
    Join(["v1", Base64.Encode(salt), Base64.Encode(nonce), Base64.Encode(cipher), Base64.Encode(mac)])
  }

  /** encrypt_json with the salt and the nonce that were drawn. */
  ghost function Encrypted<V>(p: Primitives<V>, payload: V, key: seq<Byte>, salt: seq<Byte>, nonce: seq<Byte>)
    : Result<string, Error>
    requires p.Sound()
  {
    var plain := p.dumps(payload);
    if |plain| > MAX_LENGTH then Err(CounterOverflow)
    else
      var cipher := XorAll(plain, Stream(p, BlobKey(p, key, salt), nonce, |plain|));
      Ok(Text(salt, nonce, cipher, Mac(p, key, salt, nonce, cipher)))
  }

  method EncryptJson<V>(p: Primitives<V>, payload: V, key: seq<Byte>, salt: seq<Byte>, nonce: seq<Byte>)
    returns (r: Result<string, Error>)
    requires p.Sound()
    ensures r == Encrypted(p, payload, key, salt, nonce)
  {
    var plain := p.dumps(payload);
    var blobKey := p.sha256(key + salt);
    var stream := Keystream(p, blobKey, nonce, |plain|);
    match stream
    case Err(e) => return Err(e);
    case Ok(bytes) =>
      var cipher := XorAll(plain, bytes);
      var mac := p.hmac(blobKey, salt + nonce + cipher);
      return Ok(Text(salt, nonce, cipher, mac));
  }

  /** The parts of a blob, if it has the form of one. */
  function Parts(blob: string): Result<(seq<Byte>, seq<Byte>, seq<Byte>, seq<Byte>), Error> {
    var parts := Split(blob);
    if |parts| != 5 || parts[0] != "v1" then Err(Format)
    else
      match Base64.Decode(parts[1])
      case Err(e) => Err(Encoding(e))
      case Ok(salt) =>
        match Base64.Decode(parts[2])
        case Err(e) => Err(Encoding(e))
        case Ok(nonce) =>
          match Base64.Decode(parts[3])
          case Err(e) => Err(Encoding(e))
          case Ok(cipher) =>
            match Base64.Decode(parts[4])
            case Err(e) => Err(Encoding(e))
            case Ok(mac) => Ok((salt, nonce, cipher, mac))
  }

  function Parsed<V>(p: Primitives<V>, plain: seq<Byte>): Result<V, Error> {
    match p.loads(plain)
    case None => Err(BadJson)
    case Some(v) => if p.isObject(v) then Ok(v) else Err(NotObject)
  }

  /** decrypt_json */
  ghost function Decrypted<V>(p: Primitives<V>, blob: string, key: seq<Byte>): Result<V, Error>
    requires p.Sound()
  {
    if blob == "" then Ok(p.emptyObject)
    else match Parts(blob)
      case Err(e) => Err(e)
      case Ok((salt, nonce, cipher, mac)) =>
        if Mac(p, key, salt, nonce, cipher) != mac then Err(MacMismatch)
        else if |cipher| > MAX_LENGTH then Err(CounterOverflow)
        else Parsed(p, XorAll(cipher, Stream(p, BlobKey(p, key, salt), nonce, |cipher|)))
  }

  method DecryptJson<V>(p: Primitives<V>, blob: string, key: seq<Byte>) returns (r: Result<V, Error>)
    requires p.Sound()
    ensures r == Decrypted(p, blob, key)
  {
    if blob == "" {
      return Ok(p.emptyObject);
    }
    match Parts(blob)
    case Err(e) => return Err(e);
    case Ok((salt, nonce, cipher, mac)) =>
      var blobKey := p.sha256(key + salt);
      if p.hmac(blobKey, salt + nonce + cipher) != mac {
        return Err(MacMismatch);
      }
      var stream := Keystream(p, blobKey, nonce, |cipher|);
      match stream
      case Err(e) => return Err(e);
      case Ok(bytes) => return Parsed(p, XorAll(cipher, bytes));
  }

  lemma {:induction false} EncodedIsPlain(data: seq<Byte>)
    ensures Plain(Base64.Encode(data))
  {
    Base64.EncodedShape(data);
  }

  /** The parts of a text that was put together are the parts it was put together from. */
  lemma PartsOfText(salt: seq<Byte>, nonce: seq<Byte>, cipher: seq<Byte>, mac: seq<Byte>)
    ensures Text(salt, nonce, cipher, mac) != ""
    ensures Parts(Text(salt, nonce, cipher, mac)) == Ok((salt, nonce, cipher, mac))
  {
    var parts := ["v1", Base64.Encode(salt), Base64.Encode(nonce), Base64.Encode(cipher), Base64.Encode(mac)];
    EncodedIsPlain(salt);
    EncodedIsPlain(nonce);
    EncodedIsPlain(cipher);
    EncodedIsPlain(mac);
    SplitOfJoin(parts);
    Base64.DecodesWhatItEncodes(salt);
    Base64.DecodesWhatItEncodes(nonce);
    Base64.DecodesWhatItEncodes(cipher);
    Base64.DecodesWhatItEncodes(mac);
  }

  /** And there is only one text with given parts. */
  lemma TextOfParts(blob: string, salt: seq<Byte>, nonce: seq<Byte>, cipher: seq<Byte>, mac: seq<Byte>)
    requires Parts(blob) == Ok((salt, nonce, cipher, mac))
    ensures blob == Text(salt, nonce, cipher, mac)
  {
    JoinOfSplit(blob);
    var parts := Split(blob);
    assert parts == ["v1", Base64.Encode(salt), Base64.Encode(nonce), Base64.Encode(cipher), Base64.Encode(mac)];
  }

  /** What was encrypted is decrypted, for any hashes of the right length, salt and nonce. */
  lemma RoundTrip<V>(p: Primitives<V>, payload: V, key: seq<Byte>, salt: seq<Byte>, nonce: seq<Byte>)
    requires p.Sound() && p.loads(p.dumps(payload)) == Some(payload) && p.isObject(payload)
    ensures var blob := Encrypted(p, payload, key, salt, nonce);
            && (blob.Ok? <==> |p.dumps(payload)| <= MAX_LENGTH)
            && (blob.Ok? ==> Decrypted(p, blob.value, key) == Ok(payload))
  {
    var plain := p.dumps(payload);
    if |plain| <= MAX_LENGTH {
      var stream := Stream(p, BlobKey(p, key, salt), nonce, |plain|);
      var cipher := XorAll(plain, stream);
      PartsOfText(salt, nonce, cipher, Mac(p, key, salt, nonce, cipher));
      XorAllTwice(plain, stream);
    }
  }

  /** A blob that sealing these parts writes. */
  ghost predicate Sealed<V>(p: Primitives<V>, blob: string, key: seq<Byte>, salt: seq<Byte>, nonce: seq<Byte>,
                            plain: seq<Byte>)
    requires p.Sound()
  {
    && |plain| <= MAX_LENGTH
    && var cipher := XorAll(plain, Stream(p, BlobKey(p, key, salt), nonce, |plain|));
       blob == Text(salt, nonce, cipher, Mac(p, key, salt, nonce, cipher))
  }

  /** Besides the empty one, exactly the blobs are accepted that encryption writes for the plain text of
      an object, under this key and some salt and nonce. */
  lemma AcceptsExactlySealed<V>(p: Primitives<V>, blob: string, key: seq<Byte>, payload: V)
    requires p.Sound() && blob != ""
    ensures Decrypted(p, blob, key) == Ok(payload)
            <==> exists salt, nonce, plain ::
                   Sealed(p, blob, key, salt, nonce, plain) && Parsed(p, plain) == Ok(payload)
  {
    if Decrypted(p, blob, key) == Ok(payload) {
      var (salt, nonce, cipher, mac) := Parts(blob).value;
      var stream := Stream(p, BlobKey(p, key, salt), nonce, |cipher|);
      var plain := XorAll(cipher, stream);
      XorAllTwice(cipher, stream);
      TextOfParts(blob, salt, nonce, cipher, mac);
      assert Sealed(p, blob, key, salt, nonce, plain);
    }
    forall salt, nonce, plain | Sealed(p, blob, key, salt, nonce, plain) && Parsed(p, plain) == Ok(payload)
      ensures Decrypted(p, blob, key) == Ok(payload)
    {
      var stream := Stream(p, BlobKey(p, key, salt), nonce, |plain|);
      var cipher := XorAll(plain, stream);
      PartsOfText(salt, nonce, cipher, Mac(p, key, salt, nonce, cipher));
      XorAllTwice(plain, stream);
    }
  }

  /** Two accepted blobs that agree on salt, nonce and ciphertext are the same text: no character of
      an accepted blob can be rewritten without changing what is authenticated. */
  lemma AcceptedTextIsUnique<V>(p: Primitives<V>, one: string, two: string, key: seq<Byte>)
    requires p.Sound() && one != "" && two != "" && Decrypted(p, one, key).Ok? && Decrypted(p, two, key).Ok?
    requires Parts(one).value.0 == Parts(two).value.0 && Parts(one).value.1 == Parts(two).value.1
    requires Parts(one).value.2 == Parts(two).value.2
    ensures one == two
  {
    var a, b := Parts(one).value, Parts(two).value;
    TextOfParts(one, a.0, a.1, a.2, a.3);
    TextOfParts(two, b.0, b.1, b.2, b.3);
  }
}
