/** What the sealed text consists of, byte by byte, and why a text is refused. */
module BlobAnswers {
  import opened Wrappers
  import opened Blob
  import Base64

  // ---- exclusive or ----

  function Bit(a: int, k: nat): (r: int)
    ensures 0 <= r <= 1
    decreases k
  {
    if k == 0 then a % 2 else Bit(a / 2, k - 1)
  }

  /** A bit of the result is set exactly when it is set in one of the two and not in the other. */
  lemma {:induction false} XorBit(a: int, b: int, n: nat, k: nat)
    requires 0 <= a < Power2(n) && 0 <= b < Power2(n) && k < n
    ensures Bit(XorBits(a, b, n), k) == 1 <==> Bit(a, k) != Bit(b, k)
  {
    var bit, rest := if a % 2 == b % 2 then 0 else 1, XorBits(a / 2, b / 2, n - 1);
    assert (bit + 2 * rest) % 2 == bit && (bit + 2 * rest) / 2 == rest;
    if k > 0 {
      XorBit(a / 2, b / 2, n - 1, k - 1);
    }
  }

  lemma {:induction false} XorBytes(a: Byte, b: Byte)
    ensures forall k: nat :: k < 8 ==> (Bit(Xor(a, b), k) == 1 <==> Bit(a, k) != Bit(b, k))
  {
    EightBits();
    forall k: nat | k < 8 ensures Bit(Xor(a, b), k) == 1 <==> Bit(a, k) != Bit(b, k) {
      XorBit(a, b, 8, k);
    }
  }

  // ---- the stream ----

  /** Four bytes, the highest first. */
  ghost predicate Spells(bytes: seq<Byte>, n: int) {
    && |bytes| == 4
    && var a: int, b: int, c: int, d: int := bytes[0], bytes[1], bytes[2], bytes[3];
       a * 0x100_0000 + b * 0x1_0000 + c * 0x100 + d == n
  }

  lemma CounterSpells(counter: nat)
    requires counter < COUNTERS
    ensures Spells(BigEndian(counter), counter)
  {
    assert counter / 0x100 / 0x100 == counter / 0x1_0000 && counter / 0x1_0000 / 0x100 == counter / 0x100_0000;
  }

  /** Byte `i % 32` of the keyed hash of the nonce and the number of the block. */
  ghost predicate BlockByte<V(!new)>(p: Primitives<V>, key: seq<Byte>, nonce: seq<Byte>, i: nat, byte: Byte)
    requires p.Sound()
  {
    exists number: seq<Byte> :: Spells(number, i / 32) && byte == p.hmac(key, nonce + number)[i % 32]
  }

  ghost predicate IsStream<V(!new)>(p: Primitives<V>, key: seq<Byte>, nonce: seq<Byte>, stream: seq<Byte>)
    requires p.Sound()
  {
    forall i: nat :: i < |stream| ==> BlockByte(p, key, nonce, i, stream[i])
  }

  lemma StreamBytes<V(!new)>(p: Primitives<V>, key: seq<Byte>, nonce: seq<Byte>, length: nat)
    requires p.Sound() && length <= MAX_LENGTH
    ensures IsStream(p, key, nonce, Stream(p, key, nonce, length))
  {
    var stream := Stream(p, key, nonce, length);
    forall i: nat | i < |stream| ensures BlockByte(p, key, nonce, i, stream[i]) {
      CounterSpells(i / 32);
      assert stream[i] == p.hmac(key, nonce + BigEndian(i / 32))[i % 32];
    }
  }

  // ---- what is written ----

  /** Byte by byte, one text masked with a stream is the other. */
  ghost predicate Masked(text: seq<Byte>, stream: seq<Byte>, other: seq<Byte>) {
    && |text| == |stream| == |other|
    && forall i: nat, k: nat :: i < |text| && k < 8 ==>
         (Bit(other[i], k) == 1 <==> Bit(text[i], k) != Bit(stream[i], k))
  }

  lemma XorMasks(text: seq<Byte>, stream: seq<Byte>)
    requires |text| == |stream|
    ensures Masked(text, stream, XorAll(text, stream))
  {
    forall i: nat, k: nat | i < |text| && k < 8
      ensures Bit(XorAll(text, stream)[i], k) == 1 <==> Bit(text[i], k) != Bit(stream[i], k)
    {
      XorBytes(text[i], stream[i]);
    }
  }

  /** Five fields: the version, the salt, the nonce, the masked plain text, and the keyed hash of those three
      under the key hashed with the salt. */
  ghost predicate SealedAs<V(!new)>(p: Primitives<V>, blob: string, key: seq<Byte>, salt: seq<Byte>, nonce: seq<Byte>,
                                    plain: seq<Byte>)
    requires p.Sound()
  {
    var blobKey := p.sha256(key + salt);
    exists stream, cipher ::
      && IsStream(p, blobKey, nonce, stream) && Masked(plain, stream, cipher)
      && Split(blob) == ["v1", Base64.Encode(salt), Base64.Encode(nonce), Base64.Encode(cipher),
                         Base64.Encode(p.hmac(blobKey, salt + nonce + cipher))]
  }

  lemma {:induction false} FieldsOfText(salt: seq<Byte>, nonce: seq<Byte>, cipher: seq<Byte>, mac: seq<Byte>)
    ensures Split(Text(salt, nonce, cipher, mac))
            == ["v1", Base64.Encode(salt), Base64.Encode(nonce), Base64.Encode(cipher), Base64.Encode(mac)]
  {
    EncodedIsPlain(salt);
    EncodedIsPlain(nonce);
    EncodedIsPlain(cipher);
    EncodedIsPlain(mac);
    SplitOfJoin(["v1", Base64.Encode(salt), Base64.Encode(nonce), Base64.Encode(cipher), Base64.Encode(mac)]);
  }

  /** Encryption writes these five fields, for any plain text the counter can number. */
  lemma EncryptsAsSealed<V(!new)>(p: Primitives<V>, payload: V, key: seq<Byte>, salt: seq<Byte>, nonce: seq<Byte>)
    requires p.Sound()
    ensures match Encrypted(p, payload, key, salt, nonce)
            case Ok(blob) => SealedAs(p, blob, key, salt, nonce, p.dumps(payload))
            case Err(e) => e == CounterOverflow && |p.dumps(payload)| > 0x20_0000_0000
  {
    var plain := p.dumps(payload);
    if |plain| <= MAX_LENGTH {
      var blobKey := BlobKey(p, key, salt);
      var stream := Stream(p, blobKey, nonce, |plain|);
      var cipher := XorAll(plain, stream);
      StreamBytes(p, blobKey, nonce, |plain|);
      XorMasks(plain, stream);
      FieldsOfText(salt, nonce, cipher, Mac(p, key, salt, nonce, cipher));
    }
  }

  // ---- what is refused ----

  /** The four encoded fields of a text of the right form. */
  ghost predicate Fields(blob: string, salt: seq<Byte>, nonce: seq<Byte>, cipher: seq<Byte>, mac: seq<Byte>) {
    var fields := Split(blob);
    && |fields| == 5 && fields[0] == "v1"
    && Base64.Decode(fields[1]) == Ok(salt) && Base64.Decode(fields[2]) == Ok(nonce)
    && Base64.Decode(fields[3]) == Ok(cipher) && Base64.Decode(fields[4]) == Ok(mac)
  }

  ghost predicate HasForm(fields: seq<string>) { |fields| == 5 && fields[0] == "v1" }

  /** Which of the four encoded fields is the first that cannot be decoded. */
  ghost predicate FirstBad(fields: seq<string>, i: int) {
    && |fields| == 5 && 1 <= i < 5 && Base64.Decode(fields[i]).Err?
    && (i > 1 ==> Base64.Decode(fields[1]).Ok?) && (i > 2 ==> Base64.Decode(fields[2]).Ok?)
    && (i > 3 ==> Base64.Decode(fields[3]).Ok?)
  }

  lemma {:induction false} FirstBadField(blob: string, i: int)
    requires HasForm(Split(blob)) && FirstBad(Split(blob), i)
    ensures Parts(blob) == Err(Encoding(Base64.Decode(Split(blob)[i]).error))
  {
    var fields := Split(blob);
    if i == 1 {
      assert Base64.Decode(fields[1]).Err?;
    } else if i == 2 {
      assert Base64.Decode(fields[2]).Err?;
    } else if i == 3 {
      assert Base64.Decode(fields[3]).Err?;
    } else {
      assert Base64.Decode(fields[4]).Err?;
    }
  }

  /** A text without the form is refused as such, and otherwise for the first field that is not encoded right. */
  lemma {:induction false} FormErrors<V(!new)>(p: Primitives<V>, blob: string, key: seq<Byte>, i: int)
    requires p.Sound() && blob != ""
    ensures !HasForm(Split(blob)) ==> Decrypted(p, blob, key) == Err(Format)
    ensures HasForm(Split(blob)) && FirstBad(Split(blob), i) ==>
              Decrypted(p, blob, key) == Err(Encoding(Base64.Decode(Split(blob)[i]).error))
  {
    if HasForm(Split(blob)) && FirstBad(Split(blob), i) {
      FirstBadField(blob, i);
    }
  }

  /** A text of the right form is refused exactly when the last field is not the keyed hash of the three
      before it, when it is too long, or when what it masks is not the text of an object. */
  lemma SealErrors<V(!new)>(p: Primitives<V>, blob: string, key: seq<Byte>, salt: seq<Byte>, nonce: seq<Byte>,
                      cipher: seq<Byte>, mac: seq<Byte>)
    requires p.Sound() && blob != "" && Fields(blob, salt, nonce, cipher, mac)
    ensures var r, blobKey := Decrypted(p, blob, key), p.sha256(key + salt);
            && (r == Err(MacMismatch) <==> p.hmac(blobKey, salt + nonce + cipher) != mac)
            && (r == Err(CounterOverflow) <==>
                  p.hmac(blobKey, salt + nonce + cipher) == mac && |cipher| > 0x20_0000_0000)
            && (p.hmac(blobKey, salt + nonce + cipher) == mac && |cipher| <= 0x20_0000_0000 ==>
                  exists stream, plain ::
                    && IsStream(p, blobKey, nonce, stream) && Masked(cipher, stream, plain)
                    && r == match p.loads(plain)
                            case None => Err(BadJson)
                            case Some(v) => if p.isObject(v) then Ok(v) else Err(NotObject))
  {
    if |cipher| <= MAX_LENGTH {
      var blobKey := BlobKey(p, key, salt);
      var stream := Stream(p, blobKey, nonce, |cipher|);
      StreamBytes(p, blobKey, nonce, |cipher|);
      XorMasks(cipher, stream);
      assert IsStream(p, blobKey, nonce, stream) && Masked(cipher, stream, XorAll(cipher, stream));
    }
  }

  /** Whoever changes the salt, the nonce or the masked text of an accepted blob, each to one of the same length,
      and keeps the hash, needs another message with that hash, under the key for the new salt. */
  lemma TamperingNeedsCollision<V(!new)>(p: Primitives<V>, one: string, two: string, key: seq<Byte>,
                                   salt: seq<Byte>, nonce: seq<Byte>, cipher: seq<Byte>, mac: seq<Byte>,
                                   salt': seq<Byte>, nonce': seq<Byte>, cipher': seq<Byte>)
    requires p.Sound() && one != "" && two != "" && one != two
    requires Fields(one, salt, nonce, cipher, mac) && Fields(two, salt', nonce', cipher', mac)
    requires |salt| == |salt'| && |nonce| == |nonce'|
    requires Decrypted(p, one, key).Ok? && Decrypted(p, two, key).Ok?
    ensures salt + nonce + cipher != salt' + nonce' + cipher'
    ensures p.hmac(p.sha256(key + salt), salt + nonce + cipher)
            == p.hmac(p.sha256(key + salt'), salt' + nonce' + cipher')
  {
    SealErrors(p, one, key, salt, nonce, cipher, mac);
    SealErrors(p, two, key, salt', nonce', cipher', mac);
    TextOfParts(one, salt, nonce, cipher, mac);
    TextOfParts(two, salt', nonce', cipher', mac);
    var a, b := salt + nonce + cipher, salt' + nonce' + cipher';
    assert a[..|salt|] == salt && b[..|salt|] == salt';
    assert a[|salt|..|salt| + |nonce|] == nonce && b[|salt|..|salt| + |nonce|] == nonce';
    assert a[|salt| + |nonce|..] == cipher && b[|salt| + |nonce|..] == cipher';
  }
}
