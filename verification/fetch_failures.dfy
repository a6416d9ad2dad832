/** Why a list of mirrors fails, and that the error handed up names a cause that was met on the network. */
module FetchFailures {
  import opened Bytes
  import opened Wrappers
  import opened Metadata
  import opened Signing
  import opened Fetch

  // ---- A list of mirrors ----

  /** Attempt `i` is made at time `times[i]`, fails, and leaves the time for the next one. */
  ghost predicate FailsAt<T>(attempt: Attempt<T>, urls: seq<string>, times: seq<nat>, i: nat)
    requires i < |urls| && |times| == |urls| + 1
  {
    attempt(times[i], urls[i]).result.Err? && attempt(times[i], urls[i]).now == times[i + 1]
  }

  /** All attempts are made, one after the other, and fail. */
  ghost predicate AllFail<T>(attempt: Attempt<T>, now: nat, urls: seq<string>, times: seq<nat>) {
    && |times| == |urls| + 1 && times[0] == now
    && forall i :: 0 <= i < |urls| ==> FailsAt(attempt, urls, times, i)
  }

  /** A list fails if every mirror has been tried and failed; the error is that of the last one. */
  lemma {:induction false} MirrorsFail<T>(attempt: Attempt<T>, now: nat, urls: seq<string>, last: FetchError)
    returns (times: seq<nat>)
    requires Mirrors(attempt, now, urls, last).result.Err?
    ensures AllFail(attempt, now, urls, times) && Mirrors(attempt, now, urls, last).now == times[|urls|]
    ensures Mirrors(attempt, now, urls, last).result
      == if urls == [] then Err(last) else attempt(times[|urls| - 1], urls[|urls| - 1]).result
    decreases |urls|
  {
    if urls == [] {
      times := [now];
    } else {
      var o := attempt(now, urls[0]);
      var later := MirrorsFail(attempt, o.now, urls[1..], o.result.error);
      times := [now] + later;
      forall i | 0 <= i < |urls| ensures FailsAt(attempt, urls, times, i) {
        assert i > 0 ==> FailsAt(attempt, urls[1..], later, i - 1);
      }
    }
  }

  ghost predicate Unserved(net: Net, url: string) {
    exists now :: net(now, url) == None
  }

  /** A download fails for want of any URL, or because the last one does not respond. */
  lemma DownloadFails(net: Net, now: nat, urls: seq<string>)
    requires DownloadFirst(net, now, urls).result.Err?
    ensures match DownloadFirst(net, now, urls).result.error
            case NoUrl => urls == []
            case Unavailable(url) => urls != [] && url == urls[|urls| - 1] && Unserved(net, url)
            case _ => false
  {
    var times := MirrorsFail(Download(net), now, urls, NoUrl);
    if urls != [] {
      assert FailsAt(Download(net), urls, times, |urls| - 1);
      assert net(times[|urls| - 1], urls[|urls| - 1]) == None;
    }
  }

  // ---- Payloads ----

  /** Some location of the mode is an empty list. */
  predicate NamesNothing(mode: Admit)
    requires mode.Ed25519?
  {
    mode.sigUrl == Some([]) || mode.argsUrl == Some([]) || mode.argsSigUrl == Some([])
  }

  /** A message is served, and next to it a signature that does not verify under the key. */
  ghost predicate Mismatched(env: Env, net: Net, key: string, d: Domain, message: Bytes) {
    exists url, sig :: Serves(net, url, sig) && !Verify(env.scheme, key, d, message, sig)
  }

  ghost predicate BlobMismatched(env: Env, net: Net, key: string) {
    exists url, blob :: Serves(net, url, blob) && Mismatched(env, net, key, Stage2Args, blob)
  }

  ghost predicate NotStrings(env: Env, net: Net, mode: Admit, binary: Bytes)
    requires mode.Ed25519? && mode.argsUrl.Some?
  {
    exists blob ::
      SignedBlob(env, net, mode, Sha256Hex(env.scheme, binary), blob) && ParseArgs(env, blob).None?
  }

  /** What an error says about the binary that was served and the mode that it was checked against. */
  ghost predicate TrueOfBinary(env: Env, net: Net, mode: Admit, binary: Bytes, e: FetchError) {
    match e
    case NoUrl => mode.Ed25519? && NamesNothing(mode)
    case Unavailable(u) => mode.Ed25519? && Unserved(net, u)
    case ChecksumMismatch => mode.Sha256? && !SameHex(Sha256Hex(env.scheme, binary), mode.expected)
    case BadSignature =>
      && mode.Ed25519?
      && (Mismatched(env, net, mode.pubkey, Stage2Payload, binary)
          || (mode.argsUrl.Some? && BlobMismatched(env, net, mode.pubkey)))
    case ArgsNotStrings => mode.Ed25519? && mode.argsUrl.Some? && NotStrings(env, net, mode, binary)
  }

  lemma SignatureFails(env: Env, net: Net, now: nat, sigs: seq<string>, key: string, d: Domain, b: Bytes)
    requires DownloadFirst(net, now, sigs).result.Ok?
    requires !Verify(env.scheme, key, d, b, DownloadFirst(net, now, sigs).result.value)
    ensures Mismatched(env, net, key, d, b)
  {
    FirstIsServed(net, now, sigs);
    var sig := DownloadFirst(net, now, sigs).result.value;
    var url :| url in sigs && Serves(net, url, sig);
  }

  lemma ArgsFail(env: Env, net: Net, now: nat, mode: Admit, binary: Bytes)
    requires mode.Ed25519? && mode.argsUrl.Some?
    requires FetchSignedArgs(env, net, now, mode, Sha256Hex(env.scheme, binary)).result.Err?
    ensures TrueOfBinary(
      env, net, mode, binary, FetchSignedArgs(env, net, now, mode, Sha256Hex(env.scheme, binary)).result.error)
  {
    var hash := Sha256Hex(env.scheme, binary);
    var urls := Substitute(mode.argsUrl.value, hash);
    var blob := DownloadFirst(net, now, urls);
    if blob.result.Err? {
      DownloadFails(net, now, urls);
    } else {
      var sigs := ArgsSigUrls(urls, mode.argsSigUrl, hash);
      var sig := DownloadFirst(net, blob.now, sigs);
      FirstIsServed(net, now, urls);
      if sig.result.Err? {
        DownloadFails(net, blob.now, sigs);
      } else if Verify(env.scheme, mode.pubkey, Stage2Args, blob.result.value, sig.result.value) {
        FirstIsSigned(env, net, blob.now, sigs, mode.pubkey, Stage2Args, blob.result.value);
        assert SignedBlob(env, net, mode, hash, blob.result.value);
      } else {
        SignatureFails(env, net, blob.now, sigs, mode.pubkey, Stage2Args, blob.result.value);
        var url :| url in urls && Serves(net, url, blob.result.value);
      }
    }
  }

  lemma SignedFails(env: Env, net: Net, mode: Admit, now: nat, url: string, binary: Bytes)
    requires mode.Ed25519?
    requires AdmitSigned(env, net, mode, now, url, binary, Sha256Hex(env.scheme, binary)).result.Err?
    ensures TrueOfBinary(
      env, net, mode, binary, AdmitSigned(env, net, mode, now, url, binary, Sha256Hex(env.scheme, binary)).result.error)
  {
    var hash := Sha256Hex(env.scheme, binary);
    var sigs := SignatureUrls(mode.sigUrl, url, hash);
    var sig := DownloadFirst(net, now, sigs);
    if sig.result.Err? {
      DownloadFails(net, now, sigs);
    } else if Verify(env.scheme, mode.pubkey, Stage2Payload, binary, sig.result.value) {
      ArgsFail(env, net, sig.now, mode, binary);
    } else {
      SignatureFails(env, net, now, sigs, mode.pubkey, Stage2Payload, binary);
    }
  }

  /** The last mirror does not respond, or served a binary of which the error is true. */
  ghost predicate TrueOfMirror(env: Env, net: Net, mode: Admit, url: string, e: FetchError) {
    || (e == Unavailable(url) && Unserved(net, url))
    || exists binary :: Serves(net, url, binary) && TrueOfBinary(env, net, mode, binary, e)
  }

  /** If no payload is admitted, the error is true of the last mirror. */
  lemma AdmissionFails(env: Env, net: Net, mode: Admit, now: nat, urls: UrlList)
    requires AdmitPayload(env, net, mode, now, urls).result.Err?
    ensures var e := AdmitPayload(env, net, mode, now, urls).result.error;
      if urls == [] then e == NoUrl else TrueOfMirror(env, net, mode, urls[|urls| - 1], e)
  {
    var times := MirrorsFail(Admitting(env, net, mode), now, urls, NoUrl);
    if urls != [] {
      var when, url := times[|urls| - 1], urls[|urls| - 1];
      assert FailsAt(Admitting(env, net, mode), urls, times, |urls| - 1);
      AttemptFails(env, net, mode, when, url);
    }
  }

  lemma AttemptFails(env: Env, net: Net, mode: Admit, now: nat, url: string)
    requires AdmitFrom(env, net, mode, now, url).result.Err?
    ensures TrueOfMirror(env, net, mode, url, AdmitFrom(env, net, mode, now, url).result.error)
  {
    match net(now, url)
    case None => assert Unserved(net, url);
    case Some(binary) =>
      assert Serves(net, url, binary);
      if mode.Ed25519? {
        SignedFails(env, net, mode, now + 1, url, binary);
      }
      assert TrueOfBinary(env, net, mode, binary, AdmitFrom(env, net, mode, now, url).result.error);
  }

  // ---- Manifests ----

  ghost predicate TrueOfManifest(env: Env, net: Net, m: ManifestRef, bytes: Bytes, e: FetchError) {
    match e
    case NoUrl => m.sigUrl == Some([])
    case Unavailable(u) => Unserved(net, u)
    case ChecksumMismatch => m.sha256.Some? && !SameHex(m.sha256.value, Sha256Hex(env.scheme, bytes))
    case BadSignature => Mismatched(env, net, m.ed25519, Stage2Manifest, bytes)
    case ArgsNotStrings => false
  }

  ghost predicate TrueOfManifestMirror(env: Env, net: Net, m: ManifestRef, url: string, e: FetchError) {
    || (e == Unavailable(url) && Unserved(net, url))
    || exists bytes :: Serves(net, url, bytes) && TrueOfManifest(env, net, m, bytes, e)
  }

  lemma ManifestAttemptFails(env: Env, net: Net, m: ManifestRef, now: nat, url: string)
    requires TryFetchManifest(env, net, m, now, url).result.Err?
    ensures TrueOfManifestMirror(env, net, m, url, TryFetchManifest(env, net, m, now, url).result.error)
  {
    match net(now, url)
    case None => assert Unserved(net, url);
    case Some(bytes) =>
      assert Serves(net, url, bytes);
      var hash := Sha256Hex(env.scheme, bytes);
      var sigs := SignatureUrls(m.sigUrl, url, hash);
      var sig := DownloadFirst(net, now + 1, sigs);
      if sig.result.Err? {
        DownloadFails(net, now + 1, sigs);
      } else if !Verify(env.scheme, m.ed25519, Stage2Manifest, bytes, sig.result.value) {
        SignatureFails(env, net, now + 1, sigs, m.ed25519, Stage2Manifest, bytes);
      }
      assert TrueOfManifest(env, net, m, bytes, TryFetchManifest(env, net, m, now, url).result.error);
  }

  /** If no manifest is fetched, the error is true of the last mirror. */
  lemma FetchFails(env: Env, net: Net, m: ManifestRef, now: nat)
    requires FetchManifest(env, net, m, now).result.Err?
    ensures var e := FetchManifest(env, net, m, now).result.error;
      if m.url == [] then e == NoUrl else TrueOfManifestMirror(env, net, m, m.url[|m.url| - 1], e)
  {
    var times := MirrorsFail(Fetching(env, net, m), now, m.url, NoUrl);
    if m.url != [] {
      assert FailsAt(Fetching(env, net, m), m.url, times, |m.url| - 1);
      ManifestAttemptFails(env, net, m, times[|m.url| - 1], m.url[|m.url| - 1]);
    }
  }
}
