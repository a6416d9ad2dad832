/** What the order of mirrors decides, and what it does not. */
module Mirrored {
  import opened Bytes
  import opened Wrappers
  import opened Json
  import opened Metadata
  import opened Signing
  import opened Fetch
  import Base64

  /** What a URL serves does not depend on when it is asked. */
  ghost predicate Fixed(net: Net) {
    forall t, u, url :: net(t, url) == net(u, url)
  }

  ghost predicate Timeless<T>(attempt: Attempt<T>) {
    forall t, u, url :: attempt(t, url).result == attempt(u, url).result
  }

  lemma {:induction false} MirrorsTimeless<T>(attempt: Attempt<T>, t: nat, u: nat, urls: seq<string>, last: FetchError)
    requires Timeless(attempt)
    ensures Mirrors(attempt, t, urls, last).result == Mirrors(attempt, u, urls, last).result
    decreases |urls|
  {
    if urls != [] {
      var o, p := attempt(t, urls[0]), attempt(u, urls[0]);
      assert o.result == p.result;
      if o.result.Err? {
        MirrorsTimeless(attempt, o.now, p.now, urls[1..], o.result.error);
      }
    }
  }

  lemma FirstTimeless(net: Net, t: nat, u: nat, urls: seq<string>)
    requires Fixed(net)
    ensures DownloadFirst(net, t, urls).result == DownloadFirst(net, u, urls).result
  {
    forall t', u', url ensures Download(net)(t', url).result == Download(net)(u', url).result {
      assert net(t', url) == net(u', url);
    }
    MirrorsTimeless(Download(net), t, u, urls, NoUrl);
  }

  lemma TryTimeless(env: Env, net: Net, m: ManifestRef, t: nat, u: nat, url: string)
    requires Fixed(net)
    ensures TryFetchManifest(env, net, m, t, url).result == TryFetchManifest(env, net, m, u, url).result
  {
    assert net(t, url) == net(u, url);
    if net(t, url).Some? {
      FirstTimeless(net, t + 1, u + 1, SignatureUrls(m.sigUrl, url, Sha256Hex(env.scheme, net(t, url).value)));
    }
  }

  lemma FetchTimeless(env: Env, net: Net, m: ManifestRef, t: nat, u: nat)
    requires Fixed(net)
    ensures FetchManifest(env, net, m, t).result == FetchManifest(env, net, m, u).result
  {
    forall t', u', url ensures Fetching(env, net, m)(t', url).result == Fetching(env, net, m)(u', url).result {
      TryTimeless(env, net, m, t', u', url);
    }
    MirrorsTimeless(Fetching(env, net, m), t, u, m.url, NoUrl);
  }

  lemma ArgsTimeless(env: Env, net: Net, mode: Admit, hash: string, t: nat, u: nat)
    requires Fixed(net) && mode.Ed25519? && mode.argsUrl.Some?
    ensures FetchSignedArgs(env, net, t, mode, hash).result == FetchSignedArgs(env, net, u, mode, hash).result
  {
    var urls := Substitute(mode.argsUrl.value, hash);
    FirstTimeless(net, t, u, urls);
    FirstTimeless(net, DownloadFirst(net, t, urls).now, DownloadFirst(net, u, urls).now,
                  ArgsSigUrls(urls, mode.argsSigUrl, hash));
  }

  lemma AdmitTimeless(env: Env, net: Net, mode: Admit, t: nat, u: nat, url: string)
    requires Fixed(net)
    ensures AdmitFrom(env, net, mode, t, url).result == AdmitFrom(env, net, mode, u, url).result
  {
    assert net(t, url) == net(u, url);
    if net(t, url).Some? && mode.Ed25519? {
      SignedTimeless(env, net, mode, t + 1, u + 1, url, net(t, url).value, Sha256Hex(env.scheme, net(t, url).value));
    }
  }

  lemma SignedTimeless(
      env: Env, net: Net, mode: Admit, t: nat, u: nat, url: string, binary: Bytes, hash: string)
    requires Fixed(net) && mode.Ed25519?
    ensures AdmitSigned(env, net, mode, t, url, binary, hash).result
      == AdmitSigned(env, net, mode, u, url, binary, hash).result
  {
    var urls := SignatureUrls(mode.sigUrl, url, hash);
    FirstTimeless(net, t, u, urls);
    if mode.argsUrl.Some? {
      ArgsTimeless(env, net, mode, hash, DownloadFirst(net, t, urls).now, DownloadFirst(net, u, urls).now);
    }
  }

  // ---- Payload and manifest lists: any good mirror will do ----

  lemma {:induction false} MirrorsIff<T>(attempt: Attempt<T>, now: nat, urls: seq<string>, last: FetchError)
    requires Timeless(attempt)
    ensures Mirrors(attempt, now, urls, last).result.Ok? <==> exists url :: url in urls && attempt(now, url).result.Ok?
  {
    if Mirrors(attempt, now, urls, last).result.Ok? {
      var url, when := MirrorsChoose(attempt, now, urls, last);
      assert attempt(now, url).result == attempt(when, url).result;
    }
    if exists url :: url in urls && attempt(now, url).result.Ok? {
      var url :| url in urls && attempt(now, url).result.Ok?;
      forall when: nat ensures attempt(when, url).result.Ok? {
        assert attempt(when, url).result == attempt(now, url).result;
      }
      MirrorsReach(attempt, now, urls, last, url);
    }
  }

  /** A payload list admits exactly when one of its mirrors does by itself; dead and wrong ones are skipped. */
  lemma PayloadMirrorsIff(env: Env, net: Net, mode: Admit, now: nat, urls: UrlList)
    requires Fixed(net)
    ensures AdmitPayload(env, net, mode, now, urls).result.Ok?
      <==> exists url :: url in urls && AdmitFrom(env, net, mode, now, url).result.Ok?
  {
    var attempt := Admitting(env, net, mode);
    forall t, u, url ensures attempt(t, url).result == attempt(u, url).result {
      AdmitTimeless(env, net, mode, t, u, url);
    }
    MirrorsIff(attempt, now, urls, NoUrl);
    forall url ensures attempt(now, url) == AdmitFrom(env, net, mode, now, url) {
    }
  }

  /** So does a manifest list. */
  lemma ManifestMirrorsIff(env: Env, net: Net, m: ManifestRef, now: nat)
    requires Fixed(net)
    ensures FetchManifest(env, net, m, now).result.Ok?
      <==> exists url :: url in m.url && TryFetchManifest(env, net, m, now, url).result.Ok?
  {
    var attempt := Fetching(env, net, m);
    forall t, u, url ensures attempt(t, url).result == attempt(u, url).result {
      TryTimeless(env, net, m, t, u, url);
    }
    MirrorsIff(attempt, now, m.url, NoUrl);
    forall url ensures attempt(now, url) == TryFetchManifest(env, net, m, now, url) {
    }
  }

  // ---- Signature and argument lists: the first one to respond decides ----

  /** The `k`-th URL responds, and none before it does. */
  predicate FirstResponder(net: Net, now: nat, urls: seq<string>, k: nat)
    requires k < |urls|
  {
    net(now + k, urls[k]).Some? && forall j :: 0 <= j < k ==> net(now + j, urls[j]).None?
  }

  /** The first responder ends the search, and decides it. */
  lemma {:induction false} FirstResponderDecides(net: Net, now: nat, urls: seq<string>, last: FetchError, k: nat)
    requires k < |urls| && FirstResponder(net, now, urls, k)
    ensures Mirrors(Download(net), now, urls, last) == Outcome(Ok(net(now + k, urls[k]).value), now + k + 1)
    decreases |urls|
  {
    if k > 0 {
      ResponderInRest(net, now, urls, k);
      FirstResponderDecides(net, now + 1, urls[1..], Unavailable(urls[0]), k - 1);
    }
  }

  lemma ResponderInRest(net: Net, now: nat, urls: seq<string>, k: nat)
    requires 0 < k < |urls|
    ensures FirstResponder(net, now, urls, k)
      <==> net(now, urls[0]).None? && FirstResponder(net, now + 1, urls[1..], k - 1)
  {
    var rest := urls[1..];
    assert now + 1 + (k - 1) == now + k && rest[k - 1] == urls[k];
    if FirstResponder(net, now, urls, k) {
      assert net(now + 0, urls[0]).None?;
      forall j | 0 <= j < k - 1 ensures net(now + 1 + j, rest[j]).None? {
        assert net(now + (j + 1), urls[j + 1]).None?;
      }
    }
    if net(now, urls[0]).None? && FirstResponder(net, now + 1, rest, k - 1) {
      forall j | 0 <= j < k ensures net(now + j, urls[j]).None? {
        assert j > 0 ==> net(now + 1 + (j - 1), rest[j - 1]).None?;
      }
    }
  }

  lemma {:induction false} FirstResponderExists(net: Net, now: nat, urls: seq<string>, last: FetchError)
    returns (k: nat)
    requires Mirrors(Download(net), now, urls, last).result.Ok?
    ensures k < |urls| && FirstResponder(net, now, urls, k)
    decreases |urls|
  {
    if net(now, urls[0]).Some? {
      k := 0;
    } else {
      var below := FirstResponderExists(net, now + 1, urls[1..], Unavailable(urls[0]));
      k := below + 1;
      ResponderInRest(net, now, urls, k);
    }
  }

  /** What a caller of the list accepts among byte strings. */
  type Acceptance = Bytes -> bool

  /** The list answers, with something acceptable. */
  predicate ListAccepts(net: Net, now: nat, urls: seq<string>, good: Acceptance) {
    var r := DownloadFirst(net, now, urls).result;
    r.Ok? && good(r.value)
  }

  /** There is a first responder, and what it serves is acceptable. */
  predicate FirstGood(net: Net, now: nat, urls: seq<string>, good: Acceptance) {
    exists k :: 0 <= k < |urls| && FirstResponder(net, now, urls, k) && good(net(now + k, urls[k]).value)
  }

  lemma ListAcceptsIff(net: Net, now: nat, urls: seq<string>, good: Acceptance)
    ensures ListAccepts(net, now, urls, good) <==> FirstGood(net, now, urls, good)
  {
    if ListAccepts(net, now, urls, good) {
      var k := FirstResponderExists(net, now, urls, NoUrl);
      FirstResponderDecides(net, now, urls, NoUrl, k);
    }
    if FirstGood(net, now, urls, good) {
      var k :| 0 <= k < |urls| && FirstResponder(net, now, urls, k) && good(net(now + k, urls[k]).value);
      FirstResponderDecides(net, now, urls, NoUrl, k);
    }
  }

  predicate MirrorAccepts(net: Net, now: nat, url: string, good: Acceptance) {
    net(now, url).Some? && good(net(now, url).value)
  }

  predicate NoneGood(net: Net, now: nat, urls: seq<string>, good: Acceptance) {
    forall i :: 0 <= i < |urls| ==> !MirrorAccepts(net, now, urls[i], good)
  }

  lemma AloneAccepts(net: Net, now: nat, url: string, good: Acceptance)
    ensures ListAccepts(net, now, [url], good) <==> MirrorAccepts(net, now, url, good)
  {
    if net(now, url).Some? {
      assert FirstResponder(net, now, [url], 0);
      FirstResponderDecides(net, now, [url], NoUrl, 0);
    } else {
      assert [url][1..] == [];
      assert Mirrors(Download(net), now, [url], NoUrl) == Mirrors(Download(net), now + 1, [], Unavailable(url));
    }
  }

  /** The documented skipping: the list accepts whenever one of its URLs alone would. */
  predicate Skips(net: Net, now: nat, urls: seq<string>, good: Acceptance) {
    (exists i :: 0 <= i < |urls| && ListAccepts(net, now, [urls[i]], good)) ==> ListAccepts(net, now, urls, good)
  }

  /** Wrong mirrors are skipped exactly when the first responder is a good one, or there is no good one. */
  lemma SkipsIff(net: Net, now: nat, urls: seq<string>, good: Acceptance)
    ensures Skips(net, now, urls, good) <==> FirstGood(net, now, urls, good) || NoneGood(net, now, urls, good)
  {
    ListAcceptsIff(net, now, urls, good);
    forall i | 0 <= i < |urls|
      ensures ListAccepts(net, now, [urls[i]], good) <==> MirrorAccepts(net, now, urls[i], good)
    {
      AloneAccepts(net, now, urls[i], good);
    }
  }

  // ---- The four lists of this kind ----

  /** The signatures that verify for these bytes. */
  function Verifying(env: Env, pubkey: string, d: Domain, b: Bytes): Acceptance {
    (sig: Bytes) => Verify(env.scheme, pubkey, d, b, sig)
  }

  lemma {:induction false} OneUrl(url: string, hash: string)
    ensures Substitute([url], hash) == [Replaced(url, hash)]
  {}

  lemma ManifestIff(env: Env, net: Net, m: ManifestRef, now: nat, url: string, bytes: Bytes)
    requires net(now, url) == Some(bytes)
    ensures var hash := Sha256Hex(env.scheme, bytes);
      TryFetchManifest(env, net, m, now, url).result.Ok?
      <==> && (m.sha256.Some? ==> SameHex(m.sha256.value, hash))
           && ListAccepts(net, now + 1, SignatureUrls(m.sigUrl, url, hash),
                          Verifying(env, m.ed25519, Stage2Manifest, bytes))
  {}

  predicate ManifestAccepted(env: Env, net: Net, m: ManifestRef, sigUrl: UrlList, now: nat, url: string) {
    TryFetchManifest(env, net, m.(sigUrl := Some(sigUrl)), now, url).result.Ok?
  }

  /** A manifest's signature list: skipping is exactly a good first responder, or no good one. */
  lemma ManifestSignatureSkipsIff(
      env: Env, net: Net, m: ManifestRef, sigUrl: UrlList, now: nat, url: string, bytes: Bytes)
    requires net(now, url) == Some(bytes)
    requires m.sha256.Some? ==> SameHex(m.sha256.value, Sha256Hex(env.scheme, bytes))
    ensures var sigs := Substitute(sigUrl, Sha256Hex(env.scheme, bytes));
      var good := Verifying(env, m.ed25519, Stage2Manifest, bytes);
      ((exists i :: 0 <= i < |sigUrl| && ManifestAccepted(env, net, m, [sigUrl[i]], now, url))
        ==> ManifestAccepted(env, net, m, sigUrl, now, url))
      <==> FirstGood(net, now + 1, sigs, good) || NoneGood(net, now + 1, sigs, good)
  {
    var hash := Sha256Hex(env.scheme, bytes);
    var sigs, good := Substitute(sigUrl, hash), Verifying(env, m.ed25519, Stage2Manifest, bytes);
    ManifestIff(env, net, m.(sigUrl := Some(sigUrl)), now, url, bytes);
    forall i | 0 <= i < |sigUrl|
      ensures ManifestAccepted(env, net, m, [sigUrl[i]], now, url) <==> ListAccepts(net, now + 1, [sigs[i]], good)
    {
      ManifestIff(env, net, m.(sigUrl := Some([sigUrl[i]])), now, url, bytes);
      OneUrl(sigUrl[i], hash);
    }
    SkipsIff(net, now + 1, sigs, good);
  }

  /** The signed arguments, if the mode has any, can be fetched. */
  predicate ArgsFetched(env: Env, net: Net, mode: Admit, hash: string)
    requires mode.Ed25519?
  {
    mode.argsUrl.None? || FetchSignedArgs(env, net, 0, mode, hash).result.Ok?
  }

  lemma PayloadIff(env: Env, net: Net, mode: Admit, now: nat, url: string, binary: Bytes)
    requires Fixed(net) && mode.Ed25519? && net(now, url) == Some(binary)
    ensures var hash := Sha256Hex(env.scheme, binary);
      AdmitFrom(env, net, mode, now, url).result.Ok?
      <==> && ListAccepts(net, now + 1, SignatureUrls(mode.sigUrl, url, hash),
                          Verifying(env, mode.pubkey, Stage2Payload, binary))
           && ArgsFetched(env, net, mode, hash)
  {
    var hash := Sha256Hex(env.scheme, binary);
    var sig := DownloadFirst(net, now + 1, SignatureUrls(mode.sigUrl, url, hash));
    if mode.argsUrl.Some? {
      ArgsTimeless(env, net, mode, hash, sig.now, 0);
    }
  }

  predicate PayloadAccepted(env: Env, net: Net, mode: Admit, sigUrl: UrlList, now: nat, url: string)
    requires mode.Ed25519?
  {
    AdmitFrom(env, net, mode.(sigUrl := Some(sigUrl)), now, url).result.Ok?
  }

  /** The signatures that verify for the payload, where its signed arguments can be fetched at all. */
  function VerifyingWithArgs(env: Env, net: Net, mode: Admit, binary: Bytes): Acceptance
    requires mode.Ed25519?
  {
    (sig: Bytes) =>
      && Verify(env.scheme, mode.pubkey, Stage2Payload, binary, sig)
      && ArgsFetched(env, net, mode, Sha256Hex(env.scheme, binary))
  }

  /** A payload's signature list, with or without signed arguments. */
  lemma PayloadSignatureSkipsIff(
      env: Env, net: Net, mode: Admit, sigUrl: UrlList, now: nat, url: string, binary: Bytes)
    requires Fixed(net) && mode.Ed25519? && net(now, url) == Some(binary)
    ensures var sigs := Substitute(sigUrl, Sha256Hex(env.scheme, binary));
      var good := VerifyingWithArgs(env, net, mode, binary);
      ((exists i :: 0 <= i < |sigUrl| && PayloadAccepted(env, net, mode, [sigUrl[i]], now, url))
        ==> PayloadAccepted(env, net, mode, sigUrl, now, url))
      <==> FirstGood(net, now + 1, sigs, good) || NoneGood(net, now + 1, sigs, good)
  {
    var hash := Sha256Hex(env.scheme, binary);
    var sigs, good := Substitute(sigUrl, hash), VerifyingWithArgs(env, net, mode, binary);
    PayloadAcceptedIff(env, net, mode, sigUrl, now, url, binary);
    forall i | 0 <= i < |sigUrl|
      ensures PayloadAccepted(env, net, mode, [sigUrl[i]], now, url) <==> ListAccepts(net, now + 1, [sigs[i]], good)
    {
      PayloadAcceptedIff(env, net, mode, [sigUrl[i]], now, url, binary);
      OneUrl(sigUrl[i], hash);
    }
    SkipsIff(net, now + 1, sigs, good);
  }

  lemma PayloadAcceptedIff(
      env: Env, net: Net, mode: Admit, sigUrl: UrlList, now: nat, url: string, binary: Bytes)
    requires Fixed(net) && mode.Ed25519? && net(now, url) == Some(binary)
    ensures PayloadAccepted(env, net, mode, sigUrl, now, url)
      <==> ListAccepts(net, now + 1, Substitute(sigUrl, Sha256Hex(env.scheme, binary)),
                       VerifyingWithArgs(env, net, mode, binary))
  {
    PayloadIff(env, net, mode.(sigUrl := Some(sigUrl)), now, url, binary);
  }

  /** The signatures that verify for the arguments a list delivers. */
  function VerifyingArgs(env: Env, net: Net, mode: Admit, now: nat, urls: seq<string>): Acceptance
    requires mode.Ed25519?
  {
    (sig: Bytes) =>
      var blob := DownloadFirst(net, now, urls).result;
      blob.Ok? && Verify(env.scheme, mode.pubkey, Stage2Args, blob.value, sig) && ParseArgs(env, blob.value).Some?
  }

  predicate ArgsAccepted(
      env: Env, net: Net, mode: Admit, argsUrl: UrlList, argsSigUrl: Option<UrlList>, now: nat, hash: string)
    requires mode.Ed25519?
  {
    FetchSignedArgs(env, net, now, mode.(argsUrl := Some(argsUrl), argsSigUrl := argsSigUrl), hash).result.Ok?
  }

  lemma ArgsIff(
      env: Env, net: Net, mode: Admit, argsUrl: UrlList, argsSigUrl: Option<UrlList>, now: nat, hash: string)
    requires mode.Ed25519?
    ensures var urls := Substitute(argsUrl, hash); var o := DownloadFirst(net, now, urls);
      ArgsAccepted(env, net, mode, argsUrl, argsSigUrl, now, hash)
      <==> && o.result.Ok?
           && ListAccepts(net, o.now, ArgsSigUrls(urls, argsSigUrl, hash), VerifyingArgs(env, net, mode, now, urls))
  {}

  /** The signature list of signed arguments. */
  lemma ArgsSignatureSkipsIff(
      env: Env, net: Net, mode: Admit, argsUrl: UrlList, sigUrl: UrlList, now: nat, hash: string)
    requires mode.Ed25519?
    ensures var urls, sigs := Substitute(argsUrl, hash), Substitute(sigUrl, hash);
      var after, good := DownloadFirst(net, now, urls).now, VerifyingArgs(env, net, mode, now, urls);
      ((exists i :: 0 <= i < |sigUrl| && ArgsAccepted(env, net, mode, argsUrl, Some([sigUrl[i]]), now, hash))
        ==> ArgsAccepted(env, net, mode, argsUrl, Some(sigUrl), now, hash))
      <==> FirstGood(net, after, sigs, good) || NoneGood(net, after, sigs, good)
  {
    var urls, sigs := Substitute(argsUrl, hash), Substitute(sigUrl, hash);
    var after, good := DownloadFirst(net, now, urls).now, VerifyingArgs(env, net, mode, now, urls);
    ArgsIff(env, net, mode, argsUrl, Some(sigUrl), now, hash);
    forall i | 0 <= i < |sigUrl|
      ensures ArgsAccepted(env, net, mode, argsUrl, Some([sigUrl[i]]), now, hash)
        <==> ListAccepts(net, after, [sigs[i]], good)
    {
      ArgsIff(env, net, mode, argsUrl, Some([sigUrl[i]]), now, hash);
      OneUrl(sigUrl[i], hash);
    }
    SkipsIff(net, after, sigs, good);
  }

  /** The arguments that parse and for which the signature that a list delivers verifies. */
  function SignedBy(env: Env, net: Net, pubkey: string, sigs: seq<string>): Acceptance {
    (blob: Bytes) =>
      var sig := DownloadFirst(net, 0, sigs).result;
      sig.Ok? && Verify(env.scheme, pubkey, Stage2Args, blob, sig.value) && ParseArgs(env, blob).Some?
  }

  lemma ArgsIffSigned(
      env: Env, net: Net, mode: Admit, argsUrl: UrlList, argsSigUrl: Option<UrlList>, now: nat, hash: string)
    requires Fixed(net) && mode.Ed25519?
    ensures var urls := Substitute(argsUrl, hash);
      ArgsAccepted(env, net, mode, argsUrl, argsSigUrl, now, hash)
      <==> ListAccepts(net, now, urls, SignedBy(env, net, mode.pubkey, ArgsSigUrls(urls, argsSigUrl, hash)))
  {
    var urls := Substitute(argsUrl, hash);
    ArgsIff(env, net, mode, argsUrl, argsSigUrl, now, hash);
    FirstTimeless(net, DownloadFirst(net, now, urls).now, 0, ArgsSigUrls(urls, argsSigUrl, hash));
  }

  /** The list of signed arguments, with signature locations of their own. */
  lemma ArgsSkipsIff(
      env: Env, net: Net, mode: Admit, argsUrl: UrlList, argsSigUrl: UrlList, now: nat, hash: string)
    requires Fixed(net) && mode.Ed25519?
    ensures var urls, good := Substitute(argsUrl, hash), SignedBy(env, net, mode.pubkey, Substitute(argsSigUrl, hash));
      ((exists i :: 0 <= i < |argsUrl| && ArgsAccepted(env, net, mode, [argsUrl[i]], Some(argsSigUrl), now, hash))
        ==> ArgsAccepted(env, net, mode, argsUrl, Some(argsSigUrl), now, hash))
      <==> FirstGood(net, now, urls, good) || NoneGood(net, now, urls, good)
  {
    var urls, good := Substitute(argsUrl, hash), SignedBy(env, net, mode.pubkey, Substitute(argsSigUrl, hash));
    ArgsIffSigned(env, net, mode, argsUrl, Some(argsSigUrl), now, hash);
    forall i | 0 <= i < |argsUrl|
      ensures ArgsAccepted(env, net, mode, [argsUrl[i]], Some(argsSigUrl), now, hash)
        <==> ListAccepts(net, now, [urls[i]], good)
    {
      ArgsIffSigned(env, net, mode, [argsUrl[i]], Some(argsSigUrl), now, hash);
      OneUrl(argsUrl[i], hash);
    }
    SkipsIff(net, now, urls, good);
  }

  /** A mirror serves arguments and, beside them, a signature that verifies for them. */
  predicate PairAccepts(env: Env, net: Net, pubkey: string, now: nat, url: string) {
    MirrorAccepts(net, now, url, SignedBy(env, net, pubkey, [url + ".sig"]))
  }

  predicate NoPair(env: Env, net: Net, pubkey: string, now: nat, urls: seq<string>) {
    forall i :: 0 <= i < |urls| ==> !PairAccepts(env, net, pubkey, now, urls[i])
  }

  /**
   * The list of signed arguments with their signatures beside them: the first responders of both lists
   * must belong together, or no mirror may have a good pair.
   */
  lemma ArgsPairsSkipIff(env: Env, net: Net, mode: Admit, argsUrl: UrlList, now: nat, hash: string)
    requires Fixed(net) && mode.Ed25519?
    ensures var urls := Substitute(argsUrl, hash);
      ((exists i :: 0 <= i < |argsUrl| && ArgsAccepted(env, net, mode, [argsUrl[i]], None, now, hash))
        ==> ArgsAccepted(env, net, mode, argsUrl, None, now, hash))
      <==> FirstGood(net, now, urls, SignedBy(env, net, mode.pubkey, ArgsSigUrls(urls, None, hash)))
           || NoPair(env, net, mode.pubkey, now, urls)
  {
    var urls := Substitute(argsUrl, hash);
    ArgsIffSigned(env, net, mode, argsUrl, None, now, hash);
    ListAcceptsIff(net, now, urls, SignedBy(env, net, mode.pubkey, ArgsSigUrls(urls, None, hash)));
    forall i | 0 <= i < |argsUrl|
      ensures ArgsAccepted(env, net, mode, [argsUrl[i]], None, now, hash)
        <==> PairAccepts(env, net, mode.pubkey, now, urls[i])
    {
      ArgsIffSigned(env, net, mode, [argsUrl[i]], None, now, hash);
      OneUrl(argsUrl[i], hash);
      assert ArgsSigUrls([urls[i]], None, hash) == [urls[i] + ".sig"];
      AloneAccepts(net, now, urls[i], SignedBy(env, net, mode.pubkey, [urls[i] + ".sig"]));
    }
  }

  // ---- A list in which skipping fails ----

  /** A payload and two places for its signature: one serves an empty file, the other the signature. */
  ghost predicate TwoPlaces(env: Env, net: Net, pubkey: string, url: string, wrong: string, right: string) {
    '{' !in wrong && '{' !in right &&
    exists binary, signature ::
      && AlwaysGives(net, url, binary) && AlwaysGives(net, wrong, []) && AlwaysGives(net, right, signature)
      && Verify(env.scheme, pubkey, Stage2Payload, binary, signature)
  }

  ghost predicate AlwaysGives(net: Net, url: string, b: Bytes) {
    forall now :: net(now, url) == Some(b)
  }

  /** A wrong signature mirror is not skipped: the same two URLs admit in one order and reject in the other. */
  lemma SignatureOrderMatters(
      env: Env, net: Net, pubkey: string, now: nat, url: string, wrong: string, right: string)
    requires TwoPlaces(env, net, pubkey, url, wrong, right)
    ensures AdmitFrom(env, net, Ed25519(pubkey, Some([wrong, right]), None, None), now, url).result.Err?
    ensures AdmitFrom(env, net, Ed25519(pubkey, Some([right, wrong]), None, None), now, url).result.Ok?
  {
    var binary, signature :|
      && AlwaysGives(net, url, binary) && AlwaysGives(net, wrong, []) && AlwaysGives(net, right, signature)
      && Verify(env.scheme, pubkey, Stage2Payload, binary, signature);
    AdmitsByFirst(env, net, pubkey, now, url, wrong, right, binary, []);
    AdmitsByFirst(env, net, pubkey, now, url, right, wrong, binary, signature);
  }

  lemma AdmitsByFirst(
      env: Env, net: Net, pubkey: string, now: nat, url: string, x: string, y: string, binary: Bytes, sig: Bytes)
    requires '{' !in x && '{' !in y && AlwaysGives(net, url, binary) && AlwaysGives(net, x, sig)
    ensures AdmitFrom(env, net, Ed25519(pubkey, Some([x, y]), None, None), now, url).result.Ok?
      <==> Verify(env.scheme, pubkey, Stage2Payload, binary, sig)
  {
    PlainPair(x, y, Sha256Hex(env.scheme, binary));
    assert net(now, url) == Some(binary) && net(now + 1, x) == Some(sig);
    assert FirstResponder(net, now + 1, [x, y], 0);
    FirstResponderDecides(net, now + 1, [x, y], NoUrl, 0);
  }

  lemma PlainPair(x: string, y: string, hash: string)
    requires '{' !in x && '{' !in y
    ensures Substitute([x, y], hash) == [x, y]
  {
    ReplacedPlain(x, hash);
    ReplacedPlain(y, hash);
  }

  /** A scheme that accepts every 64-byte signature, and a text layer that reads nothing. */
  function PlainEnv(): Env {
    Env("x86_64", Scheme(b => Zeros(32), s => Zeros(32), (s, m) => Zeros(64), (k, m, s) => true),
        b => None, j => [], m => true)
  }

  const PAYLOAD_URL := "http://h/p"
  const WRONG_URL := "http://h/a"
  const RIGHT_URL := "http://h/b"

  function ThreeUrls(): Net {
    (now: nat, url: string) =>
      if url == PAYLOAD_URL || url == WRONG_URL then Some([]) else if url == RIGHT_URL then Some(Zeros(64)) else None
  }

  /** A payload with these two places for its signature. */
  function TwoPlacesPayload(pubkey: string, x: string, y: string): Payload {
    Payload([PAYLOAD_URL], None, Some(pubkey), Some([x, y]), None, None, None)
  }

  lemma PairOk(pubkey: string, x: string, y: string)
    requires OkUrl(x, true) && OkUrl(y, true) && OkPubkey(pubkey).Ok?
    ensures Admission(TwoPlacesPayload(pubkey, x, y), Stage1) == Ok(Ed25519(pubkey, Some([x, y]), None, None))
  {
    assert OkUrl(PAYLOAD_URL, true);
  }

  lemma UrlsDiffer()
    ensures RIGHT_URL != PAYLOAD_URL && RIGHT_URL != WRONG_URL
    ensures OkUrl(WRONG_URL, true) && OkUrl(RIGHT_URL, true)
  {
    assert RIGHT_URL[9] != PAYLOAD_URL[9] && RIGHT_URL[9] != WRONG_URL[9];
  }

  lemma {:induction false} AcceptsAny(key: PublicKey, pubkey: string)
    requires pubkey == Base64.Encode(key)
    ensures OkPubkey(pubkey).Ok? && Verify(PlainEnv().scheme, pubkey, Stage2Payload, [], Zeros(64))
  {
    EncodedIsTrimmed(key);
  }

  lemma ThreeServe()
    ensures AlwaysGives(ThreeUrls(), PAYLOAD_URL, []) && AlwaysGives(ThreeUrls(), WRONG_URL, [])
    ensures AlwaysGives(ThreeUrls(), RIGHT_URL, Zeros(64))
  {
    UrlsDiffer();
  }

  /** Such places exist for every key, and validation accepts a payload that names them, in either order. */
  lemma TwoPlacesExist(key: PublicKey) returns (pubkey: string)
    ensures pubkey == Base64.Encode(key)
    ensures TwoPlaces(PlainEnv(), ThreeUrls(), pubkey, PAYLOAD_URL, WRONG_URL, RIGHT_URL)
    ensures Admission(TwoPlacesPayload(pubkey, WRONG_URL, RIGHT_URL), Stage1)
      == Ok(Ed25519(pubkey, Some([WRONG_URL, RIGHT_URL]), None, None))
    ensures Admission(TwoPlacesPayload(pubkey, RIGHT_URL, WRONG_URL), Stage1)
      == Ok(Ed25519(pubkey, Some([RIGHT_URL, WRONG_URL]), None, None))
  {
    pubkey := Base64.Encode(key);
    AcceptsAny(key, pubkey);
    ThreeServe();
    UrlsDiffer();
    PairOk(pubkey, WRONG_URL, RIGHT_URL);
    PairOk(pubkey, RIGHT_URL, WRONG_URL);
  }
}
