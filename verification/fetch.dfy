/** Downloading from mirrors, and verifying what was downloaded. */
module Fetch {
  import opened Bytes
  import opened Wrappers
  import opened Json
  import opened Metadata
  import opened Signing

  /** The outside world: what the download with this number returns for a URL. */
  type Net = (nat, string) -> Option<Bytes>

  /** The architecture of the running program, the cryptographic scheme, and the JSON text layer. */
  datatype Env = Env(
    arch: string,
    scheme: Scheme,
    parse: Bytes -> Option<Json>,
    render: Json -> Bytes,
    order: KeyOrder)

  datatype FetchError = NoUrl | Unavailable(url: string) | ChecksumMismatch | BadSignature | ArgsNotStrings

  /** A result, and how many downloads have been made by then. */
  datatype Outcome<T> = Outcome(result: Result<T, FetchError>, now: nat)

  // ---- Trying mirrors in order ----

  type Attempt<T> = (nat, string) -> Outcome<T>

  /** The first attempt that succeeds; if none does, the error of the last one, `last` if there was none. */
  function Mirrors<T>(attempt: Attempt<T>, now: nat, urls: seq<string>, last: FetchError): Outcome<T>
    decreases |urls|
  {
    if urls == [] then Outcome(Err(last), now)
    else
      var o := attempt(now, urls[0]);
      if o.result.Ok? then o else Mirrors(attempt, o.now, urls[1..], o.result.error)
  }

  /** The loop that the code writes three times, for downloads, payloads and manifests. */
  method TryMirrors<T>(attempt: Attempt<T>, start: nat, urls: seq<string>) returns (r: Outcome<T>)
    ensures r == Mirrors(attempt, start, urls, NoUrl)
  {
    var last, now := NoUrl, start;
    for i := 0 to |urls|
      invariant Mirrors(attempt, now, urls[i..], last) == Mirrors(attempt, start, urls, NoUrl)
    {
      var o := attempt(now, urls[i]);
      assert urls[i..][1..] == urls[i + 1..];
      match o.result
      case Ok(_) => return o;
      case Err(e) => last, now := e, o.now;
    }
    r := Outcome(Err(last), now);
  }

  /** A success is the success of one attempt, at one of the URLs. */
  lemma {:induction false} MirrorsChoose<T>(attempt: Attempt<T>, now: nat, urls: seq<string>, last: FetchError)
    returns (url: string, when: nat)
    requires Mirrors(attempt, now, urls, last).result.Ok?
    ensures url in urls && attempt(when, url) == Mirrors(attempt, now, urls, last)
    decreases |urls|
  {
    var o := attempt(now, urls[0]);
    if o.result.Ok? {
      url, when := urls[0], now;
    } else {
      url, when := MirrorsChoose(attempt, o.now, urls[1..], o.result.error);
    }
  }

  /** If some URL succeeds whenever it is tried, so does the list. */
  lemma {:induction false} MirrorsReach<T>(
      attempt: Attempt<T>, now: nat, urls: seq<string>, last: FetchError, good: string)
    requires good in urls && forall when :: attempt(when, good).result.Ok?
    ensures Mirrors(attempt, now, urls, last).result.Ok?
    decreases |urls|
  {
    var o := attempt(now, urls[0]);
    if !o.result.Ok? {
      MirrorsReach(attempt, o.now, urls[1..], o.result.error, good);
    }
  }

  // ---- Downloads ----

  /** One download. */
  function Download(net: Net): Attempt<Bytes> {
    (now: nat, url: string) =>
      match net(now, url)
      case None => Outcome(Err(Unavailable(url)), now + 1)
      case Some(b) => Outcome(Ok(b), now + 1)
  }

  /** The first URL that responds: not the first one that verifies. */
  function DownloadFirst(net: Net, now: nat, urls: seq<string>): Outcome<Bytes> {
    Mirrors(Download(net), now, urls, NoUrl)
  }

  ghost predicate Serves(net: Net, url: string, b: Bytes) {
    exists now :: net(now, url) == Some(b)
  }

  ghost predicate ServesSome(net: Net, urls: seq<string>, b: Bytes) {
    exists url :: url in urls && Serves(net, url, b)
  }

  lemma FirstIsServed(net: Net, now: nat, urls: seq<string>)
    requires DownloadFirst(net, now, urls).result.Ok?
    ensures ServesSome(net, urls, DownloadFirst(net, now, urls).result.value)
  {
    var url, when := MirrorsChoose(Download(net), now, urls, NoUrl);
    assert net(when, url) == Some(DownloadFirst(net, now, urls).result.value);
  }

  // ---- Content addresses ----

  const PLACEHOLDER := "{sha256}"

  /** Every `{sha256}` replaced by the digest. */
  function Replaced(url: string, hash: string): string
    decreases |url|
  {
    if url == "" then ""
    else if PLACEHOLDER <= url then hash + Replaced(url[8..], hash)
    else [url[0]] + Replaced(url[1..], hash)
  }

  function Substitute(urls: seq<string>, hash: string): (r: seq<string>)
    ensures |r| == |urls| && forall i :: 0 <= i < |urls| ==> r[i] == Replaced(urls[i], hash)
  {
    seq(|urls|, i requires 0 <= i < |urls| => Replaced(urls[i], hash))
  }

  /** A URL without an opening brace is its own content address. */
  lemma {:induction false} ReplacedPlain(url: string, hash: string)
    requires '{' !in url
    ensures Replaced(url, hash) == url
    decreases |url|
  {
    if url != "" {
      assert PLACEHOLDER[0] == '{' && url[0] != '{';
      assert '{' !in url[1..];
      ReplacedPlain(url[1..], hash);
    }
  }

  /** Where a detached signature is looked for. */
  function SignatureUrls(sigUrl: Option<UrlList>, url: string, hash: string): seq<string> {
    if sigUrl.Some? then Substitute(sigUrl.value, hash) else [url + ".sig"]
  }

  // ---- Digests compared without regard to case ----

  function LowerChar(c: char): char {
    if 'A' <= c <= 'Z' then c - 'A' + 'a' else c
  }

  function Lower(s: string): (r: string)
    ensures |r| == |s| && forall i :: 0 <= i < |s| ==> r[i] == LowerChar(s[i])
  {
    seq(|s|, i requires 0 <= i < |s| => LowerChar(s[i]))
  }

  predicate SameHex(a: string, b: string) {
    Lower(a) == Lower(b)
  }

  /** Two byte strings under one pin have one digest. */
  lemma PinDeterminesDigest(c: Scheme, pin: string, a: Bytes, b: Bytes)
    requires SameHex(pin, Sha256Hex(c, a)) && SameHex(pin, Sha256Hex(c, b))
    ensures c.sha256(a) == c.sha256(b)
  {
    HexIsLower(c.sha256(a));
    HexIsLower(c.sha256(b));
    HexInjective(c.sha256(a), c.sha256(b));
  }

  lemma {:induction false} HexIsLower(b: Bytes)
    ensures Lower(Hex(b)) == Hex(b)
  {
    HexShape(b);
  }

  // ---- Admitting a payload ----

  datatype Admitted = Admitted(binary: Bytes, signedArgs: Option<seq<string>>)

  function ArgsSigUrls(argsUrls: seq<string>, argsSigUrl: Option<UrlList>, hash: string): (r: seq<string>)
    ensures argsSigUrl.None? ==> |r| == |argsUrls| && forall i :: 0 <= i < |r| ==> r[i] == argsUrls[i] + ".sig"
  {
    if argsSigUrl.Some? then Substitute(argsSigUrl.value, hash)
    else seq(|argsUrls|, i requires 0 <= i < |argsUrls| => argsUrls[i] + ".sig")
  }

  function FetchSignedArgs(env: Env, net: Net, now: nat, mode: Admit, hash: string): Outcome<seq<string>>
    requires mode.Ed25519? && mode.argsUrl.Some?
  {
    var argsUrls := Substitute(mode.argsUrl.value, hash);
    var blob := DownloadFirst(net, now, argsUrls);
    if blob.result.Err? then Outcome(Err(blob.result.error), blob.now)
    else
      var sig := DownloadFirst(net, blob.now, ArgsSigUrls(argsUrls, mode.argsSigUrl, hash));
      if sig.result.Err? then Outcome(Err(sig.result.error), sig.now)
      else if !Verify(env.scheme, mode.pubkey, Stage2Args, blob.result.value, sig.result.value)
      then Outcome(Err(BadSignature), sig.now)
      else match ParseArgs(env, blob.result.value)
           case None => Outcome(Err(ArgsNotStrings), sig.now)
           case Some(args) => Outcome(Ok(args), sig.now)
  }

  /** A JSON array of strings. */
  function ParseArgs(env: Env, b: Bytes): Option<seq<string>> {
    match env.parse(b)
    case None => None
    case Some(j) => ParseStrings(j)
  }

  /** Download one candidate and check it against the admission mode. */
  function AdmitFrom(env: Env, net: Net, mode: Admit, now: nat, url: string): Outcome<Admitted> {
    match net(now, url)
    case None => Outcome(Err(Unavailable(url)), now + 1)
    case Some(binary) =>
      var hash := Sha256Hex(env.scheme, binary);
      match mode
      case Sha256(expected) =>
        if SameHex(hash, expected) then Outcome(Ok(Admitted(binary, None)), now + 1)
        else Outcome(Err(ChecksumMismatch), now + 1)
      case Ed25519(_, _, _, _) => AdmitSigned(env, net, mode, now + 1, url, binary, hash)
  }

  function AdmitSigned(env: Env, net: Net, mode: Admit, now: nat, url: string, binary: Bytes, hash: string)
    : Outcome<Admitted>
    requires mode.Ed25519?
  {
    var sig := DownloadFirst(net, now, SignatureUrls(mode.sigUrl, url, hash));
    if sig.result.Err? then Outcome(Err(sig.result.error), sig.now)
    else if !Verify(env.scheme, mode.pubkey, Stage2Payload, binary, sig.result.value)
    then Outcome(Err(BadSignature), sig.now)
    else if mode.argsUrl.None? then Outcome(Ok(Admitted(binary, None)), sig.now)
    else
      var args := FetchSignedArgs(env, net, sig.now, mode, hash);
      if args.result.Err? then Outcome(Err(args.result.error), args.now)
      else Outcome(Ok(Admitted(binary, Some(args.result.value))), args.now)
  }

  function Admitting(env: Env, net: Net, mode: Admit): Attempt<Admitted> {
    (now: nat, url: string) => AdmitFrom(env, net, mode, now, url)
  }

  function AdmitPayload(env: Env, net: Net, mode: Admit, now: nat, urls: UrlList): Outcome<Admitted> {
    Mirrors(Admitting(env, net, mode), now, urls, NoUrl)
  }

  /** One of these URLs serves a signature for the bytes that verifies under the key in this domain. */
  ghost predicate SignedAt(env: Env, net: Net, sigs: seq<string>, pubkey: string, d: Domain, b: Bytes) {
    exists sig :: ServesSome(net, sigs, sig) && Verify(env.scheme, pubkey, d, b, sig)
  }

  /** The binary is served at `url`, and its signature where the mode looks for it. */
  ghost predicate SignedBinary(env: Env, net: Net, mode: Admit, url: string, binary: Bytes)
    requires mode.Ed25519?
  {
    && Serves(net, url, binary)
    && SignedAt(env, net, SignatureUrls(mode.sigUrl, url, Sha256Hex(env.scheme, binary)), mode.pubkey,
                Stage2Payload, binary)
  }

  /** The arguments are served where the mode looks for them, and so is their signature. */
  ghost predicate SignedArgs(env: Env, net: Net, mode: Admit, hash: string, args: seq<string>)
    requires mode.Ed25519? && mode.argsUrl.Some?
  {
    exists blob :: SignedBlob(env, net, mode, hash, blob) && ParseArgs(env, blob) == Some(args)
  }

  ghost predicate SignedBlob(env: Env, net: Net, mode: Admit, hash: string, blob: Bytes)
    requires mode.Ed25519? && mode.argsUrl.Some?
  {
    var urls := Substitute(mode.argsUrl.value, hash);
    && ServesSome(net, urls, blob)
    && SignedAt(env, net, ArgsSigUrls(urls, mode.argsSigUrl, hash), mode.pubkey, Stage2Args, blob)
  }

  /** What an admitted payload has shown, by mode: its digest, or its signature and that of its arguments. */
  ghost predicate Passes(env: Env, net: Net, mode: Admit, urls: UrlList, a: Admitted) {
    match mode
    case Sha256(expected) =>
      && ServesSome(net, urls, a.binary)
      && SameHex(Sha256Hex(env.scheme, a.binary), expected) && a.signedArgs.None?
    case Ed25519(_, _, argsUrl, _) =>
      && (exists url :: url in urls && SignedBinary(env, net, mode, url, a.binary))
      && (argsUrl.Some? <==> a.signedArgs.Some?)
      && (argsUrl.Some? ==> SignedArgs(env, net, mode, Sha256Hex(env.scheme, a.binary), a.signedArgs.value))
  }

  lemma FirstIsSigned(env: Env, net: Net, now: nat, sigs: seq<string>, pubkey: string, d: Domain, b: Bytes)
    requires DownloadFirst(net, now, sigs).result.Ok?
    requires Verify(env.scheme, pubkey, d, b, DownloadFirst(net, now, sigs).result.value)
    ensures SignedAt(env, net, sigs, pubkey, d, b)
  {
    FirstIsServed(net, now, sigs);
  }

  lemma SignedArgsPass(env: Env, net: Net, now: nat, mode: Admit, hash: string)
    requires mode.Ed25519? && mode.argsUrl.Some? && FetchSignedArgs(env, net, now, mode, hash).result.Ok?
    ensures SignedArgs(env, net, mode, hash, FetchSignedArgs(env, net, now, mode, hash).result.value)
  {
    var urls := Substitute(mode.argsUrl.value, hash);
    var blob := DownloadFirst(net, now, urls);
    FirstIsServed(net, now, urls);
    FirstIsSigned(env, net, blob.now, ArgsSigUrls(urls, mode.argsSigUrl, hash), mode.pubkey, Stage2Args,
                  blob.result.value);
    assert SignedBlob(env, net, mode, hash, blob.result.value);
  }

  lemma SignedPasses(env: Env, net: Net, mode: Admit, now: nat, url: string, binary: Bytes)
    requires mode.Ed25519? && Serves(net, url, binary)
    requires AdmitSigned(env, net, mode, now, url, binary, Sha256Hex(env.scheme, binary)).result.Ok?
    ensures var a := AdmitSigned(env, net, mode, now, url, binary, Sha256Hex(env.scheme, binary)).result.value;
      && a.binary == binary && SignedBinary(env, net, mode, url, binary)
      && (mode.argsUrl.Some? <==> a.signedArgs.Some?)
      && (mode.argsUrl.Some? ==> SignedArgs(env, net, mode, Sha256Hex(env.scheme, binary), a.signedArgs.value))
  {
    var hash := Sha256Hex(env.scheme, binary);
    var sigs := SignatureUrls(mode.sigUrl, url, hash);
    FirstIsSigned(env, net, now, sigs, mode.pubkey, Stage2Payload, binary);
    if mode.argsUrl.Some? {
      SignedArgsPass(env, net, DownloadFirst(net, now, sigs).now, mode, hash);
    }
  }

  /** Admission is a gate: nothing gets through that does not pass the mode, whichever mirror it came from. */
  lemma AdmittedPasses(env: Env, net: Net, mode: Admit, now: nat, urls: UrlList)
    requires AdmitPayload(env, net, mode, now, urls).result.Ok?
    ensures Passes(env, net, mode, urls, AdmitPayload(env, net, mode, now, urls).result.value)
  {
    var url, when := MirrorsChoose(Admitting(env, net, mode), now, urls, NoUrl);
    var binary := net(when, url).value;
    assert Serves(net, url, binary);
    if mode.Ed25519? {
      SignedPasses(env, net, mode, when + 1, url, binary);
    }
  }

  // ---- Fetching a manifest ----

  datatype Fetched = Fetched(url: string, bytes: Bytes, hash: string)

  function TryFetchManifest(env: Env, net: Net, m: ManifestRef, now: nat, url: string): Outcome<Fetched> {
    match net(now, url)
    case None => Outcome(Err(Unavailable(url)), now + 1)
    case Some(bytes) =>
      var hash := Sha256Hex(env.scheme, bytes);
      if m.sha256.Some? && !SameHex(m.sha256.value, hash) then Outcome(Err(ChecksumMismatch), now + 1)
      else
        var sig := DownloadFirst(net, now + 1, SignatureUrls(m.sigUrl, url, hash));
        if sig.result.Err? then Outcome(Err(sig.result.error), sig.now)
        else if !Verify(env.scheme, m.ed25519, Stage2Manifest, bytes, sig.result.value)
        then Outcome(Err(BadSignature), sig.now)
        else Outcome(Ok(Fetched(url, bytes, hash)), sig.now)
  }

  function Fetching(env: Env, net: Net, m: ManifestRef): Attempt<Fetched> {
    (now: nat, url: string) => TryFetchManifest(env, net, m, now, url)
  }

  function FetchManifest(env: Env, net: Net, m: ManifestRef, now: nat): Outcome<Fetched> {
    Mirrors(Fetching(env, net, m), now, m.url, NoUrl)
  }

  /** A fetched manifest was served, matches the pin if any, and is signed under the pointer's key where it says. */
  ghost predicate Authentic(env: Env, net: Net, m: ManifestRef, f: Fetched) {
    && f.url in m.url && Serves(net, f.url, f.bytes)
    && f.hash == Sha256Hex(env.scheme, f.bytes)
    && (m.sha256.Some? ==> SameHex(m.sha256.value, f.hash))
    && SignedAt(env, net, SignatureUrls(m.sigUrl, f.url, f.hash), m.ed25519, Stage2Manifest, f.bytes)
  }

  lemma FetchedIsAuthentic(env: Env, net: Net, m: ManifestRef, now: nat)
    requires FetchManifest(env, net, m, now).result.Ok?
    ensures Authentic(env, net, m, FetchManifest(env, net, m, now).result.value)
  {
    var url, when := MirrorsChoose(Fetching(env, net, m), now, m.url, NoUrl);
    var bytes := net(when, url).value;
    assert Serves(net, url, bytes);
    FirstIsServed(net, when + 1, SignatureUrls(m.sigUrl, url, Sha256Hex(env.scheme, bytes)));
  }
}
