/** What a signature is good for: its own domain and its own message, and nothing else. */
module SigningDomains {
  import opened Bytes
  import opened Wrappers
  import opened Signing
  import Base64

  // ---- What is verified ----

  /** The key is base64 of 32 bytes, whitespace around it aside. */
  predicate IsKey(pubkey: string, key: Bytes) {
    Base64.Decode(Trim(pubkey)) == Some(key) && |key| == 32
  }

  /** A 64-byte signature that the scheme accepts for the digest of this text, followed by that of the message. */
  ghost predicate Accepted(c: Scheme, pubkey: string, tag: string, message: Bytes, signature: Bytes) {
    |signature| == 64 &&
    exists key :: IsKey(pubkey, key) && c.accepts(key, c.sha256(Ascii(tag)) + c.sha256(message), signature)
  }

  lemma AcceptedWith(c: Scheme, pubkey: string, key: Bytes, tag: string, message: Bytes, signature: Bytes)
    requires IsKey(pubkey, key) && |signature| == 64
    ensures Accepted(c, pubkey, tag, message, signature)
      <==> c.accepts(key, c.sha256(Ascii(tag)) + c.sha256(message), signature)
  {}

  lemma VerifyTag(c: Scheme, pubkey: string, d: Domain, tag: string, message: Bytes, signature: Bytes)
    requires Tag(d) == tag
    ensures Verify(c, pubkey, d, message, signature) <==> Accepted(c, pubkey, tag, message, signature)
  {
    var key := Base64.Decode(Trim(pubkey));
    if key.Some? && IsKey(pubkey, key.value) && |signature| == 64 {
      AcceptedWith(c, pubkey, key.value, tag, message, signature);
    }
  }

  /** The wire contract: what each of the six domains verifies. */
  lemma VerifiesIff(c: Scheme, pubkey: string, message: Bytes, signature: Bytes)
    ensures Verify(c, pubkey, Stage1Uki, message, signature)
      <==> Accepted(c, pubkey, "lockboot.v1.stage1.uki", message, signature)
    ensures Verify(c, pubkey, Stage1Args, message, signature)
      <==> Accepted(c, pubkey, "lockboot.v1.stage1.args", message, signature)
    ensures Verify(c, pubkey, Stage1Manifest, message, signature)
      <==> Accepted(c, pubkey, "lockboot.v1.stage1.manifest", message, signature)
    ensures Verify(c, pubkey, Stage2Payload, message, signature)
      <==> Accepted(c, pubkey, "lockboot.v1.stage2.payload", message, signature)
    ensures Verify(c, pubkey, Stage2Args, message, signature)
      <==> Accepted(c, pubkey, "lockboot.v1.stage2.args", message, signature)
    ensures Verify(c, pubkey, Stage2Manifest, message, signature)
      <==> Accepted(c, pubkey, "lockboot.v1.stage2.manifest", message, signature)
  {
    VerifyTag(c, pubkey, Stage1Uki, "lockboot.v1.stage1.uki", message, signature);
    VerifyTag(c, pubkey, Stage1Args, "lockboot.v1.stage1.args", message, signature);
    VerifyTag(c, pubkey, Stage1Manifest, "lockboot.v1.stage1.manifest", message, signature);
    VerifyTag(c, pubkey, Stage2Payload, "lockboot.v1.stage2.payload", message, signature);
    VerifyTag(c, pubkey, Stage2Args, "lockboot.v1.stage2.args", message, signature);
    VerifyTag(c, pubkey, Stage2Manifest, "lockboot.v1.stage2.manifest", message, signature);
  }

  // ---- Domain separation ----

  /** A key accepts a signature that its seed made for 64 bytes for no other 64 bytes. */
  ghost predicate OnlyMadeFor(c: Scheme) {
    forall seed: Seed, made: Bytes, shown: Bytes :: AcceptsFor(c, seed, made, shown) ==> shown == made
  }

  ghost predicate AcceptsFor(c: Scheme, seed: Seed, made: Bytes, shown: Bytes) {
    |made| == 64 && |shown| == 64 && c.accepts(c.publicKey(seed), shown, c.signWith(seed, made))
  }

  /** These byte strings, and the six tags, all have digests of their own. */
  ghost predicate Distinguished(c: Scheme, messages: set<Bytes>) {
    forall x, y :: Hashed(messages, x) && Hashed(messages, y) && c.sha256(x) == c.sha256(y) ==> x == y
  }

  ghost predicate Hashed(messages: set<Bytes>, x: Bytes) {
    x in messages || exists d :: x == Ascii(Tag(d))
  }

  lemma TagLengths(d: Domain)
    ensures |Ascii(Tag(d))| == match d
                               case Stage1Uki => 22
                               case Stage1Args => 23
                               case Stage1Manifest => 27
                               case Stage2Payload => 26
                               case Stage2Args => 23
                               case Stage2Manifest => 27
    ensures Ascii(Tag(d))[17] == if d.Stage1Uki? || d.Stage1Args? || d.Stage1Manifest? then 0x31 else 0x32
  {
    match d
    case Stage1Uki => assert Tag(d)[17] == '1';
    case Stage1Args => assert Tag(d)[17] == '1';
    case Stage1Manifest => assert Tag(d)[17] == '1';
    case Stage2Payload => assert Tag(d)[17] == '2';
    case Stage2Args => assert Tag(d)[17] == '2';
    case Stage2Manifest => assert Tag(d)[17] == '2';
  }

  lemma TagsDiffer(d: Domain, e: Domain)
    requires Ascii(Tag(d)) == Ascii(Tag(e))
    ensures d == e
  {
    TagLengths(d);
    TagLengths(e);
  }

  /** Equal preimages come from one domain and one message. */
  lemma PreimageInjective(c: Scheme, d: Domain, m: Bytes, e: Domain, n: Bytes)
    requires Distinguished(c, {m, n}) && Preimage(c, d, m) == Preimage(c, e, n)
    ensures d == e && m == n
  {
    var p, q := Preimage(c, d, m), Preimage(c, e, n);
    assert p[..32] == c.sha256(Ascii(Tag(d))) && q[..32] == c.sha256(Ascii(Tag(e)));
    assert p[32..] == c.sha256(m) && q[32..] == c.sha256(n);
    assert Hashed({m, n}, Ascii(Tag(d))) && Hashed({m, n}, Ascii(Tag(e)));
    TagsDiffer(d, e);
    assert Hashed({m, n}, m) && Hashed({m, n}, n);
  }

  /** A signature verifies, under the key that made it, in its own domain and for its own message only. */
  lemma VerifiesOnlyThere(c: Scheme, pem: string, d: Domain, m: Bytes, e: Domain, n: Bytes)
    requires SignVerifyAgree(c) && OnlyMadeFor(c) && Distinguished(c, {m, n}) && Sign(c, pem, d, m).Some?
    ensures Verify(c, Sign(c, pem, d, m).value.pubkey, e, n, Sign(c, pem, d, m).value.signature) <==> d == e && m == n
  {
    var seed, s := SeedFromPem(pem).value, Sign(c, pem, d, m).value;
    EncodedIsTrimmed(c.publicKey(seed));
    if Verify(c, s.pubkey, e, n, s.signature) {
      assert AcceptsFor(c, seed, Preimage(c, d, m), Preimage(c, e, n));
      PreimageInjective(c, d, m, e, n);
    }
    if d == e && m == n {
      SignedVerifies(c, pem, d, m);
    }
  }

  /** A digest for each tag, two for the messages, and one for everything else. */
  function Numbered(m: Bytes, n: Bytes): Bytes -> Digest {
    (b: Bytes) => [Number(b, m, n)] + Zeros(31)
  }

  function Number(b: Bytes, m: Bytes, n: Bytes): Byte {
    IndexOf(b, Tags() + [m, n])
  }

  function Tags(): (tags: seq<Bytes>)
    ensures |tags| == 6
  {
    [Ascii(Tag(Stage1Uki)), Ascii(Tag(Stage1Args)), Ascii(Tag(Stage1Manifest)),
     Ascii(Tag(Stage2Payload)), Ascii(Tag(Stage2Args)), Ascii(Tag(Stage2Manifest))]
  }

  /** Where `b` first is in the list, or the length. */
  function IndexOf(b: Bytes, list: seq<Bytes>): (i: nat)
    ensures i <= |list| && (b in list ==> i < |list| && list[i] == b)
  {
    if list == [] || list[0] == b then 0 else 1 + IndexOf(b, list[1..])
  }

  lemma HashedIsListed(m: Bytes, n: Bytes, x: Bytes)
    requires Hashed({m, n}, x)
    ensures x in Tags() + [m, n]
  {
    var tags := Tags();
    assert forall d :: Ascii(Tag(d)) in tags;
    assert x in tags || x in [m, n];
  }

  function Sealed(m: Bytes): Signature {
    if |m| == 64 then m else Zeros(64)
  }

  lemma NumberTells(m: Bytes, n: Bytes, x: Bytes, y: Bytes)
    requires Hashed({m, n}, x) && Hashed({m, n}, y) && Number(x, m, n) == Number(y, m, n)
    ensures x == y
  {
    HashedIsListed(m, n, x);
    HashedIsListed(m, n, y);
  }

  /** For any two messages there is a scheme with all that is asked of one. */
  lemma SchemeExists(m: Bytes, n: Bytes) returns (c: Scheme)
    ensures SignVerifyAgree(c) && OnlyMadeFor(c) && Distinguished(c, {m, n})
  {
    c := Scheme(Numbered(m, n), (s: Seed) => s, (s: Seed, b: Bytes) => Sealed(b),
                (k: PublicKey, b: Bytes, s: Signature) => s == Sealed(b));
    forall x, y | Hashed({m, n}, x) && Hashed({m, n}, y) && c.sha256(x) == c.sha256(y) ensures x == y {
      assert c.sha256(x)[0] == Number(x, m, n) && c.sha256(y)[0] == Number(y, m, n);
      NumberTells(m, n, x, y);
    }
  }

  // ---- Hex, written out ----

  const HEX_DIGITS := "0123456789abcdef"

  /** Two lowercase digits for each byte, the high one first. */
  lemma {:induction false} HexDigits(b: Bytes, i: nat)
    requires i < |b|
    ensures |Hex(b)| == 2 * |b|
    ensures Hex(b)[2 * i] == HEX_DIGITS[b[i] / 16] && Hex(b)[2 * i + 1] == HEX_DIGITS[b[i] % 16]
  {
    HexShape(b);
    if i == 0 {
      DigitIs(b[0] / 16);
      DigitIs(b[0] % 16);
    } else {
      HexDigits(b[1..], i - 1);
      assert b[1..][i - 1] == b[i];
      assert Hex(b)[2 * i] == Hex(b[1..])[2 * (i - 1)] && Hex(b)[2 * i + 1] == Hex(b[1..])[2 * (i - 1) + 1];
    }
  }

  lemma DigitIs(n: nat)
    requires n < 16
    ensures HexDigit(n) == HEX_DIGITS[n]
  {}
}
