/** Content addresses written out, pins in either letter case, and where signatures are looked for. */
module ContentAddress {
  import opened Bytes
  import opened Wrappers
  import opened Json
  import opened Metadata
  import opened Signing
  import opened SigningDomains
  import opened Fetch
  import opened Mirrored

  // ---- The placeholder ----

  /** The text "{sha256}" stands in `url` at `i`. */
  predicate MarkAt(url: string, i: nat) {
    i + 8 <= |url| && url[i..i + 8] == "{sha256}"
  }

  lemma MarkIsPrefix(url: string)
    ensures MarkAt(url, 0) <==> PLACEHOLDER <= url
  {
    if MarkAt(url, 0) {
      assert url == url[0..8] + url[8..];
    }
  }

  lemma MarkInTail(url: string, i: nat)
    requires url != ""
    ensures MarkAt(url[1..], i) <==> MarkAt(url, i + 1)
  {
    if i + 9 <= |url| {
      assert url[1..][i..i + 8] == url[i + 1..i + 9];
    }
  }

  /** Without the mark a URL stays as it is. */
  lemma {:induction false} ReplacedNowhere(url: string, hash: string)
    requires forall i :: !MarkAt(url, i)
    ensures Replaced(url, hash) == url
    decreases |url|
  {
    if url != "" {
      MarkIsPrefix(url);
      assert !MarkAt(url, 0);
      forall i ensures !MarkAt(url[1..], i) {
        MarkInTail(url, i);
      }
      ReplacedNowhere(url[1..], hash);
    }
  }

  /** The first mark is replaced by the digest, and what follows it is treated alike. */
  lemma {:induction false} ReplacedFirst(before: string, rest: string, hash: string)
    requires forall i :: 0 <= i < |before| ==> !MarkAt(before + "{sha256}" + rest, i)
    ensures Replaced(before + "{sha256}" + rest, hash) == before + hash + Replaced(rest, hash)
    decreases |before|
  {
    var url := before + "{sha256}" + rest;
    MarkIsPrefix(url);
    if before == "" {
      assert url == "{sha256}" + rest;
      assert url[8..] == rest;
      assert url[0..8] == "{sha256}";
      assert "" + hash + Replaced(rest, hash) == hash + Replaced(rest, hash);
    } else {
      var tail := before[1..] + "{sha256}" + rest;
      assert url[1..] == tail;
      assert !MarkAt(url, 0);
      forall i | 0 <= i < |before| - 1 ensures !MarkAt(tail, i) {
        MarkInTail(url, i);
      }
      ReplacedFirst(before[1..], rest, hash);
      assert [before[0]] + (before[1..] + hash + Replaced(rest, hash)) == before + hash + Replaced(rest, hash);
    }
  }

  /** No opening brace before the mark, and none behind it. */
  predicate Framed(prefix: string, suffix: string) {
    '{' !in prefix && '{' !in suffix
  }

  lemma NoBraceNoMark(url: string, i: nat)
    requires i < |url| && url[i] != '{'
    ensures !MarkAt(url, i)
  {
    assert i + 8 <= |url| ==> url[i..i + 8][0] == url[i];
  }

  /** One mark between two plain texts. */
  lemma {:induction false} ReplacedBetween(prefix: string, suffix: string, hash: string)
    requires Framed(prefix, suffix)
    ensures Replaced(prefix + "{sha256}" + suffix, hash) == prefix + hash + suffix
  {
    var url := prefix + "{sha256}" + suffix;
    forall i | 0 <= i < |prefix| ensures !MarkAt(url, i) {
      assert url[i] == prefix[i] != '{';
      NoBraceNoMark(url, i);
    }
    ReplacedFirst(prefix, suffix, hash);
    ReplacedPlain(suffix, hash);
  }

  // ---- Where a signature is looked for ----

  lemma OneAddress(net: Net, now: nat, prefix: string, suffix: string, hash: string, b: Bytes)
    requires Framed(prefix, suffix) && net(now, prefix + hash + suffix) == Some(b)
    ensures DownloadFirst(net, now, Substitute([prefix + "{sha256}" + suffix], hash)) == Outcome(Ok(b), now + 1)
  {
    ReplacedBetween(prefix, suffix, hash);
    OneUrl(prefix + "{sha256}" + suffix, hash);
    OneResponds(net, now, prefix + hash + suffix, b);
  }

  lemma OneResponds(net: Net, now: nat, url: string, b: Bytes)
    requires net(now, url) == Some(b)
    ensures DownloadFirst(net, now, [url]) == Outcome(Ok(b), now + 1)
  {
    assert FirstResponder(net, now, [url], 0);
    FirstResponderDecides(net, now, [url], NoUrl, 0);
  }

  /** A payload is admitted exactly if the signature at its content address verifies for it. */
  lemma PayloadSignedAtAddress(
      env: Env, net: Net, pubkey: string, now: nat, url: string, binary: Bytes, prefix: string, suffix: string,
      sig: Bytes)
    requires Framed(prefix, suffix) && net(now, url) == Some(binary)
    requires net(now + 1, prefix + Sha256Hex(env.scheme, binary) + suffix) == Some(sig)
    ensures var o := AdmitFrom(env, net, Ed25519(pubkey, Some([prefix + "{sha256}" + suffix]), None, None), now, url);
      && (o.result.Ok? <==> Accepted(env.scheme, pubkey, "lockboot.v1.stage2.payload", binary, sig))
      && (o.result.Ok? ==> o.result.value == Admitted(binary, None))
  {
    OneAddress(net, now + 1, prefix, suffix, Sha256Hex(env.scheme, binary), sig);
    VerifiesIff(env.scheme, pubkey, binary, sig);
  }

  /** Without a location of its own, the signature is beside the payload. */
  lemma PayloadSignedBeside(
      env: Env, net: Net, pubkey: string, now: nat, url: string, binary: Bytes, sig: Bytes)
    requires net(now, url) == Some(binary) && net(now + 1, url + ".sig") == Some(sig)
    ensures var o := AdmitFrom(env, net, Ed25519(pubkey, None, None, None), now, url);
      && (o.result.Ok? <==> Accepted(env.scheme, pubkey, "lockboot.v1.stage2.payload", binary, sig))
      && (o.result.Ok? ==> o.result.value == Admitted(binary, None))
  {
    OneResponds(net, now + 1, url + ".sig", sig);
    VerifiesIff(env.scheme, pubkey, binary, sig);
  }

  /** The same for a manifest, whose own digest its signature's address holds. */
  lemma ManifestSignedAtAddress(
      env: Env, net: Net, m: ManifestRef, now: nat, url: string, bytes: Bytes, prefix: string, suffix: string,
      sig: Bytes)
    requires Framed(prefix, suffix) && m.sigUrl == Some([prefix + "{sha256}" + suffix]) && m.sha256.None?
    requires net(now, url) == Some(bytes)
    requires net(now + 1, prefix + Sha256Hex(env.scheme, bytes) + suffix) == Some(sig)
    ensures var o := TryFetchManifest(env, net, m, now, url);
      && (o.result.Ok? <==> Accepted(env.scheme, m.ed25519, "lockboot.v1.stage2.manifest", bytes, sig))
      && (o.result.Ok? ==> o.result.value == Fetched(url, bytes, Sha256Hex(env.scheme, bytes)))
  {
    OneAddress(net, now + 1, prefix, suffix, Sha256Hex(env.scheme, bytes), sig);
    VerifiesIff(env.scheme, m.ed25519, bytes, sig);
  }

  lemma ManifestSignedBeside(env: Env, net: Net, m: ManifestRef, now: nat, url: string, bytes: Bytes, sig: Bytes)
    requires m.sigUrl.None? && m.sha256.None?
    requires net(now, url) == Some(bytes) && net(now + 1, url + ".sig") == Some(sig)
    ensures var o := TryFetchManifest(env, net, m, now, url);
      && (o.result.Ok? <==> Accepted(env.scheme, m.ed25519, "lockboot.v1.stage2.manifest", bytes, sig))
      && (o.result.Ok? ==> o.result.value == Fetched(url, bytes, Sha256Hex(env.scheme, bytes)))
  {
    OneResponds(net, now + 1, url + ".sig", sig);
    VerifiesIff(env.scheme, m.ed25519, bytes, sig);
  }

  /** Arguments are looked for at the payload's digest, and so is their signature. */
  lemma ArgsSignedAtAddress(
      env: Env, net: Net, pubkey: string, now: nat, hash: string, prefix: string, suffix: string, blob: Bytes,
      sigPrefix: string, sigSuffix: string, sig: Bytes)
    requires Framed(prefix, suffix) && Framed(sigPrefix, sigSuffix)
    requires net(now, prefix + hash + suffix) == Some(blob) && net(now + 1, sigPrefix + hash + sigSuffix) == Some(sig)
    ensures var mode := Ed25519(pubkey, None, Some([prefix + "{sha256}" + suffix]),
                               Some([sigPrefix + "{sha256}" + sigSuffix]));
      var o := FetchSignedArgs(env, net, now, mode, hash);
      && (o.result.Ok?
          <==> Accepted(env.scheme, pubkey, "lockboot.v1.stage2.args", blob, sig) && ParseArgs(env, blob).Some?)
      && (o.result.Ok? ==> Some(o.result.value) == ParseArgs(env, blob))
  {
    OneAddress(net, now, prefix, suffix, hash, blob);
    OneAddress(net, now + 1, sigPrefix, sigSuffix, hash, sig);
    VerifiesIff(env.scheme, pubkey, blob, sig);
  }

  lemma ArgsSignedBeside(
      env: Env, net: Net, pubkey: string, now: nat, hash: string, prefix: string, suffix: string, blob: Bytes,
      sig: Bytes)
    requires Framed(prefix, suffix)
    requires net(now, prefix + hash + suffix) == Some(blob)
    requires net(now + 1, prefix + hash + suffix + ".sig") == Some(sig)
    ensures var o :=
        FetchSignedArgs(env, net, now, Ed25519(pubkey, None, Some([prefix + "{sha256}" + suffix]), None), hash);
      && (o.result.Ok?
          <==> Accepted(env.scheme, pubkey, "lockboot.v1.stage2.args", blob, sig) && ParseArgs(env, blob).Some?)
      && (o.result.Ok? ==> Some(o.result.value) == ParseArgs(env, blob))
  {
    OneAddress(net, now, prefix, suffix, hash, blob);
    ReplacedBetween(prefix, suffix, hash);
    var urls := Substitute([prefix + "{sha256}" + suffix], hash);
    assert ArgsSigUrls(urls, None, hash) == [prefix + hash + suffix + ".sig"];
    OneResponds(net, now + 1, prefix + hash + suffix + ".sig", sig);
    VerifiesIff(env.scheme, pubkey, blob, sig);
  }

  // ---- Pins ----

  /** The value of a hex digit in either case. */
  function DigitValue(c: char): Option<nat> {
    if '0' <= c <= '9' then Some((c as int - 48) as nat)
    else if 'a' <= c <= 'f' then Some((c as int - 87) as nat)
    else if 'A' <= c <= 'F' then Some((c as int - 55) as nat)
    else None
  }

  /** `pin` spells the bytes, two digits each, in whatever case. */
  predicate Spells(pin: string, b: Bytes) {
    && |pin| == 2 * |b|
    && forall i :: 0 <= i < |b| ==> SpellsByte(pin, i, b[i])
  }

  predicate SpellsByte(pin: string, i: nat, x: Byte)
    requires 2 * i + 1 < |pin|
  {
    DigitValue(pin[2 * i]) == Some(x / 16) && DigitValue(pin[2 * i + 1]) == Some(x % 16)
  }

  lemma SameDigit(c: char, n: nat)
    requires n < 16
    ensures LowerChar(c) == HexDigit(n) <==> DigitValue(c) == Some(n)
  {}

  /** A pin matches a digest exactly if it spells it, letter case aside. */
  lemma {:induction false} PinMatchesIff(pin: string, b: Bytes)
    ensures SameHex(pin, Hex(b)) <==> Spells(pin, b)
  {
    HexIsLower(b);
    HexShape(b);
    if |pin| == 2 * |b| {
      forall i | 0 <= i < |b|
        ensures SpellsByte(pin, i, b[i])
          <==> LowerChar(pin[2 * i]) == Hex(b)[2 * i] && LowerChar(pin[2 * i + 1]) == Hex(b)[2 * i + 1]
      {
        HexPair(b, i);
        SameDigit(pin[2 * i], b[i] / 16);
        SameDigit(pin[2 * i + 1], b[i] % 16);
      }
      PairwiseSame(Lower(pin), Hex(b), |b|);
    }
  }

  lemma {:induction false} HexPair(b: Bytes, i: nat)
    requires i < |b|
    ensures |Hex(b)| == 2 * |b|
    ensures Hex(b)[2 * i] == HexDigit(b[i] / 16) && Hex(b)[2 * i + 1] == HexDigit(b[i] % 16)
  {
    HexDigits(b, i);
    DigitIs(b[i] / 16);
    DigitIs(b[i] % 16);
  }

  lemma PairwiseSame(x: string, y: string, n: nat)
    requires |x| == |y| == 2 * n
    ensures x == y <==> forall i :: 0 <= i < n ==> SamePair(x, y, i)
  {
    if forall i :: 0 <= i < n ==> SamePair(x, y, i) {
      forall k | 0 <= k < 2 * n ensures x[k] == y[k] {
        assert SamePair(x, y, k / 2);
      }
    }
  }

  predicate SamePair(x: string, y: string, i: nat)
    requires 2 * i + 1 < |x| && 2 * i + 1 < |y|
  {
    x[2 * i] == y[2 * i] && x[2 * i + 1] == y[2 * i + 1]
  }

  /** A payload is admitted under a pin exactly if the pin spells its digest. */
  lemma PinnedIff(env: Env, net: Net, pin: string, now: nat, url: string, binary: Bytes)
    requires net(now, url) == Some(binary)
    ensures var o := AdmitFrom(env, net, Sha256(pin), now, url);
      && (o.result.Ok? <==> Spells(pin, env.scheme.sha256(binary)))
      && (o.result.Ok? ==> o.result.value == Admitted(binary, None))
  {
    PinMatchesIff(pin, env.scheme.sha256(binary));
  }
}
