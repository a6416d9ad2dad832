/** What `create` emits, manifest resolution turns back into the original payload and arguments. */
module EndToEnd {
  import opened Bytes
  import opened Wrappers
  import opened Json
  import opened Metadata
  import opened Fetch
  import opened Resolve
  import opened Signing
  import opened Deploy
  import Base64
  import ResolveTheorems

  // ---- Hypotheses ----

  /** The base serves the emitted directory, at any time. */
  ghost predicate Hosts(net: Net, base: string, arch: string, files: Files) {
    forall name, now :: name in files ==> net(now, Located(base, arch, name)) == Some(files[name])
  }

  /** The public key of the key file. */
  function KeyOf(c: Scheme, pem: string): string {
    match SeedFromPem(pem)
    case None => ""
    case Some(seed) => Base64.Encode(c.publicKey(seed))
  }

  /** The emitted file that is signed in a stage 2 domain. */
  function SignedFile(d: Domain): string {
    match d
    case Stage2Args => "args.json"
    case Stage2Manifest => "stage2.manifest.json"
    case _ => "stage2"
  }

  /** The content-addressed URLs of the argument files. */
  function ArgsUrls(c: Scheme, a: CreateArgs): seq<string> {
    Substitute(ComposeUrls(Bases(a), a.arch, "args.json"), Sha256Hex(c, a.stage2))
  }

  /** Where the deployment is looked up for what is signed in this domain, if its mode signs in it at all. */
  function Consulted(c: Scheme, a: CreateArgs, d: Domain): seq<string> {
    match d
    case Stage2Payload => if PayloadKey(a).Some? then ComposeUrls(Bases(a), a.arch, "stage2") else []
    case Stage2Args => if a.signArgs then ArgsUrls(c, a) else []
    case Stage2Manifest => if a.manifest then ComposeUrls(Bases(a), a.arch, "stage2.manifest.json") else []
    case _ => []
  }

  /** Where the signature of what was found at `url` is looked for. */
  function ConsultedSigs(c: Scheme, a: CreateArgs, d: Domain, url: string): seq<string> {
    if d.Stage2Args? then ArgsSigUrls(ArgsUrls(c, a), None, "") else [url + ".sig"]
  }

  /** The bytes are found at a consulted URL, and a signature that verifies where it is looked for. */
  ghost predicate Acceptable(env: Env, net: Net, a: CreateArgs, pubkey: string, d: Domain, b: Bytes, url: string) {
    && url in Consulted(env.scheme, a, d) && Serves(net, url, b)
    && SignedAt(env, net, ConsultedSigs(env.scheme, a, d, url), pubkey, d, b)
  }

  /**
   * Where the deployment is looked up, nothing but what `create` signed for it verifies under the key, each in
   * its domain and against a signature found where it is looked for. Elsewhere the network may serve anything
   * signed under the same key: other architectures, or other releases.
   */
  ghost predicate OnlySigned(env: Env, net: Net, a: CreateArgs, pubkey: string, files: Files) {
    forall d, b, url :: Acceptable(env, net, a, pubkey, d, b, url) ==>
      SignedFile(d) in files && b == files[SignedFile(d)]
  }

  /** Nothing that is served at these URLs collides with the payload. */
  ghost predicate NoCollision(c: Scheme, net: Net, urls: seq<string>, payload: Bytes) {
    forall url, b :: url in urls && Serves(net, url, b) && c.sha256(b) == c.sha256(payload) ==> b == payload
  }

  /** The arguments, written as JSON text, read back. */
  predicate ArgsReadBack(env: Env, args: seq<string>) {
    env.parse(env.render(RenderStrings(args))) == Some(RenderStrings(args))
  }

  /** The fragment inside a manifest, written as JSON text, reads back. */
  predicate FragmentReadsBack(tool: Tool, stageKey: string, arch: string, p: Payload) {
    tool.env.parse(tool.pretty(Fragment(stageKey, arch, p))) == Some(Fragment(stageKey, arch, p))
  }

  /** What the JSON text layer must give back: signed arguments, and the fragment that a manifest carries. */
  predicate TextLayer(tool: Tool, a: CreateArgs)
    requires Parsed(a)
  {
    && (a.signArgs ==> ArgsReadBack(tool.env, GivenArgs(tool.env, a)))
    && (a.manifest && Stage2Built(tool, a).Ok? ==>
      FragmentReadsBack(tool, STAGE2, a.arch, Stage2Built(tool, a).value.payload))
  }

  /** The arguments given on the command line, none if there were none. */
  function GivenArgs(env: Env, a: CreateArgs): seq<string> {
    match a.args
    case None => []
    case Some(text) => (match ParseArgs(env, text) case None => [] case Some(args) => args)
  }

  /** Whenever one of the URLs responds at all, it serves these bytes. */
  ghost predicate Agree(net: Net, urls: seq<string>, b: Bytes) {
    forall i, now :: 0 <= i < |urls| && net(now, urls[i]).Some? ==> net(now, urls[i]) == Some(b)
  }

  ghost predicate AlwaysServes(net: Net, url: string, b: Bytes) {
    forall now :: net(now, url) == Some(b)
  }

  /** For signed arguments every mirror that responds must serve the emitted files, and one of them always does. */
  ghost predicate ArgsServed(c: Scheme, a: CreateArgs, net: Net, files: Files)
  {
    var urls := ArgsUrls(c, a);
    var sigs := ArgsSigUrls(urls, None, "");
    && "args.json" in files && "args.json.sig" in files
    && Agree(net, urls, files["args.json"]) && Agree(net, sigs, files["args.json.sig"])
    && (exists url :: url in urls && AlwaysServes(net, url, files["args.json"]))
    && (exists url :: url in sigs && AlwaysServes(net, url, files["args.json.sig"]))
  }

  /** The machine has the tool's scheme and text layer, and the architecture of the deployment. */
  ghost predicate RunsOn(tool: Tool, a: CreateArgs, w: World) {
    w.env == tool.env.(arch := a.arch)
  }

  /** The received bytes parse to a document with the emitted entry of the architecture, whatever else it holds. */
  predicate Receives(w: World, arch: string, doc: Json) {
    w.env.parse(w.raw).Some? && EntryAt(w.env.parse(w.raw).value, arch) == EntryAt(doc, arch)
  }

  /** One base serves the emitted directory; every other one may serve anything or fail. */
  ghost predicate Serving(tool: Tool, a: CreateArgs, files: Files, w: World, base: string)
    requires Parsed(a)
  {
    && base in Bases(a) && Hosts(w.net, base, a.arch, files) && TextLayer(tool, a)
    && (PayloadKey(a).None? ==>
      NoCollision(w.env.scheme, w.net, ComposeUrls(Bases(a), a.arch, "stage2"), a.stage2))
    && (a.key.Some? ==>
      && SignVerifyAgree(w.env.scheme)
      && OnlySigned(w.env, w.net, a, KeyOf(w.env.scheme, a.key.value), files))
    && (a.signArgs ==> ArgsServed(w.env.scheme, a, w.net, files))
  }

  ghost predicate GoodWorld(tool: Tool, a: CreateArgs, d: Deployment, w: World, base: string)
    requires Parsed(a)
  {
    RunsOn(tool, a, w) && Receives(w, a.arch, d.doc) && Serving(tool, a, d.files, w, base)
  }

  /** The tool as it would be on the machine itself. */
  function Local(tool: Tool, w: World): Tool {
    Tool(w.env, tool.pretty)
  }

  /** Two tools that sign and write alike, and read alike what `create` reads. */
  ghost predicate Alike(t: Tool, u: Tool, a: CreateArgs, existing: Option<Bytes>) {
    && t.env.scheme == u.env.scheme && t.env.render == u.env.render && t.pretty == u.pretty
    && (a.args.Some? ==> ParseArgs(t.env, a.args.value) == ParseArgs(u.env, a.args.value))
    && ExistingDoc(t.env, existing) == ExistingDoc(u.env, existing)
  }

  lemma BuiltAlike(t: Tool, u: Tool, a: CreateArgs, existing: Option<Bytes>)
    requires Parsed(a) && Alike(t, u, a, existing)
    ensures UkiBuilt(t, a) == UkiBuilt(u, a) && Stage2Built(t, a) == Stage2Built(u, a)
  {}

  lemma WrapAlike(
      t: Tool, u: Tool, a: CreateArgs, existing: Option<Bytes>, stageKey: string, name: string, b: Built, d: Domain)
    requires Parsed(a) && Alike(t, u, a, existing)
    ensures Wrap(t, a, stageKey, name, b, d) == Wrap(u, a, stageKey, name, b, d)
  {}

  lemma EntriesAlike(t: Tool, u: Tool, a: CreateArgs, existing: Option<Bytes>, uki: Built, stage2: Built)
    requires Parsed(a) && Alike(t, u, a, existing)
    ensures CreateEntries(t, a, existing, uki, stage2) == CreateEntries(u, a, existing, uki, stage2)
  {
    WrapAlike(t, u, a, existing, STAGE1, "linux.efi", uki, Stage1Manifest);
    WrapAlike(t, u, a, existing, STAGE2, "stage2", stage2, Stage2Manifest);
    forall x, y ensures MergeUserData(t.env, existing, a.arch, x, y) == MergeUserData(u.env, existing, a.arch, x, y) {
    }
  }

  /** `create` depends on no more of the tool than that; not on where it runs. */
  lemma CreateAlike(t: Tool, u: Tool, a: CreateArgs, existing: Option<Bytes>)
    requires Parsed(a) && Alike(t, u, a, existing)
    ensures Create(t, a, existing) == Create(u, a, existing)
  {
    BuiltAlike(t, u, a, existing);
    if UkiBuilt(t, a).Some? && Stage2Built(t, a).Ok? {
      EntriesAlike(t, u, a, existing, UkiBuilt(t, a).value, Stage2Built(t, a).value);
    }
  }

  /** Neither do the hypotheses. */
  lemma ServingAnywhere(tool: Tool, a: CreateArgs, files: Files, w: World, base: string)
    requires Parsed(a) && RunsOn(tool, a, w) && Serving(tool, a, files, w, base)
    ensures Serving(Local(tool, w), a, files, w, base)
  {
    BuiltAlike(tool, Local(tool, w), a, None);
  }

  // ---- Downloads that must succeed ----

  lemma FirstOfAgreeing(net: Net, now: nat, urls: seq<string>, good: string, b: Bytes)
    requires good in urls && AlwaysServes(net, good, b) && Agree(net, urls, b)
    ensures DownloadFirst(net, now, urls).result == Ok(b)
  {
    forall when ensures Download(net)(when, good).result.Ok? {
      assert net(when, good) == Some(b);
    }
    MirrorsReach(Download(net), now, urls, NoUrl, good);
    var url, when := MirrorsChoose(Download(net), now, urls, NoUrl);
    var i :| 0 <= i < |urls| && urls[i] == url;
    assert net(when, urls[i]).Some?;
  }

  lemma OnlyUrl(net: Net, now: nat, url: string, b: Bytes)
    requires AlwaysServes(net, url, b)
    ensures DownloadFirst(net, now, [url]).result == Ok(b)
  {
    FirstOfAgreeing(net, now, [url], url, b);
  }

  lemma FileNames()
    ensures "stage2" + ".sig" == "stage2.sig"
    ensures "stage2" + ".manifest.json" == "stage2.manifest.json"
  {}

  lemma SigLocated(base: string, arch: string, name: string)
    ensures Located(base, arch, name) + ".sig" == Located(base, arch, name + ".sig")
  {}

  /** A hosted file has its signature beside it. */
  lemma HostedSignature(net: Net, now: nat, base: string, arch: string, files: Files, name: string)
    requires Hosts(net, base, arch, files) && name in files && name + ".sig" in files
    ensures net(now, Located(base, arch, name)) == Some(files[name])
    ensures forall hash :: DownloadFirst(net, now, SignatureUrls(None, Located(base, arch, name), hash)).result
                           == Ok(files[name + ".sig"])
  {
    SigLocated(base, arch, name);
    assert AlwaysServes(net, Located(base, arch, name + ".sig"), files[name + ".sig"]);
    OnlyUrl(net, now, Located(base, arch, name + ".sig"), files[name + ".sig"]);
  }

  /** A base without a placeholder in it serves the argument files where they are looked for. */
  lemma PlainBaseServesArgs(c: Scheme, a: CreateArgs, net: Net, base: string, files: Files)
    requires base in Bases(a) && Hosts(net, base, a.arch, files) && '{' !in base && '{' !in a.arch
    requires "args.json" in files && "args.json.sig" in files
    requires Agree(net, ArgsUrls(c, a), files["args.json"])
    requires Agree(net, ArgsSigUrls(ArgsUrls(c, a), None, ""), files["args.json.sig"])
    ensures ArgsServed(c, a, net, files)
  {
    var url := Located(base, a.arch, "args.json");
    var i :| 0 <= i < |Bases(a)| && Bases(a)[i] == base;
    ReplacedPlain(url, Sha256Hex(c, a.stage2));
    SigLocated(base, a.arch, "args.json");
    assert "args.json" + ".sig" == "args.json.sig";
    assert ArgsUrls(c, a)[i] == url && ArgsSigUrls(ArgsUrls(c, a), None, "")[i] == url + ".sig";
    assert AlwaysServes(net, url, files["args.json"]);
    assert AlwaysServes(net, url + ".sig", files["args.json.sig"]);
  }

  // ---- The payload ----

  predicate Includes(files: Files, some: Files) {
    forall name :: name in some ==> name in files && files[name] == some[name]
  }

  /** The admitted payload is the original one, with its arguments. */
  predicate IsOriginal(env: Env, a: CreateArgs, p: Payload, got: Admitted) {
    got.binary == a.stage2 && ArgsOf(got, p) == GivenArgs(env, a)
  }

  lemma {:induction false} HexIsOk(b: Bytes)
    requires |b| == 32
    ensures OkSha256(Hex(b))
  {
    HexShape(b);
  }

  lemma PinnedAdmits(
      tool: Tool, a: CreateArgs, net: Net, base: string, b: Built, now: nat, mode: Admit)
    requires Parsed(a) && Stage2Built(tool, a) == Ok(b) && PayloadKey(a).None? && !a.signArgs
    requires base in Bases(a) && AlwaysServes(net, Located(base, a.arch, "stage2"), a.stage2)
    requires NoCollision(tool.env.scheme, net, ComposeUrls(Bases(a), a.arch, "stage2"), a.stage2)
    requires mode == Sha256(Sha256Hex(tool.env.scheme, a.stage2))
    ensures AdmitPayload(tool.env, net, mode, now, b.payload.url).result.Ok?
    ensures IsOriginal(tool.env, a, b.payload, AdmitPayload(tool.env, net, mode, now, b.payload.url).result.value)
  {
    var env, urls := tool.env, b.payload.url;
    var i :| 0 <= i < |Bases(a)| && Bases(a)[i] == base;
    var good := Located(base, a.arch, "stage2");
    assert urls[i] == good;
    forall when ensures Admitting(env, net, mode)(when, good).result.Ok? {
      assert net(when, good) == Some(a.stage2);
    }
    MirrorsReach(Admitting(env, net, mode), now, urls, NoUrl, good);
    AdmittedPasses(env, net, mode, now, urls);
    var got := AdmitPayload(env, net, mode, now, urls).result.value;
    PinDeterminesDigest(env.scheme, mode.expected, got.binary, a.stage2);
    var url :| url in urls && Serves(net, url, got.binary);
  }

  // ---- Signed payloads ----

  lemma SignedShape(c: Scheme, pem: string, d: Domain, m: Bytes)
    requires Sign(c, pem, d, m).Some? && SignVerifyAgree(c)
    ensures Sign(c, pem, d, m).value.pubkey == KeyOf(c, pem)
    ensures Verify(c, KeyOf(c, pem), d, m, Sign(c, pem, d, m).value.signature)
  {
    SignedVerifies(c, pem, d, m);
  }

  /** The hosted payload comes with its signature, whenever it is asked for. */
  lemma HostedAdmits(
      env: Env, net: Net, base: string, arch: string, files: Files, mode: Admit, now: nat)
    requires mode.Ed25519? && mode.sigUrl.None?
    requires Hosts(net, base, arch, files) && "stage2" in files && "stage2.sig" in files
    requires Verify(env.scheme, mode.pubkey, Stage2Payload, files["stage2"], files["stage2.sig"])
    requires mode.argsUrl.Some? ==>
      forall when :: FetchSignedArgs(env, net, when, mode, Sha256Hex(env.scheme, files["stage2"])).result.Ok?
    ensures AdmitFrom(env, net, mode, now, Located(base, arch, "stage2")).result.Ok?
  {
    FileNames();
    HostedSignature(net, now, base, arch, files, "stage2");
    var hash := Sha256Hex(env.scheme, files["stage2"]);
    HostedSignature(net, now + 1, base, arch, files, "stage2");
    assert DownloadFirst(net, now + 1, SignatureUrls(None, Located(base, arch, "stage2"), hash)).result
        == Ok(files["stage2.sig"]);
  }

  /** Where every responding mirror serves the emitted argument files, fetching them succeeds. */
  lemma ArgsFetch(tool: Tool, a: CreateArgs, net: Net, files: Files, now: nat, mode: Admit)
    requires ArgsServed(tool.env.scheme, a, net, files)
    requires mode.Ed25519? && mode.argsSigUrl.None?
    requires mode.argsUrl == Some(ComposeUrls(Bases(a), a.arch, "args.json"))
    requires Verify(tool.env.scheme, mode.pubkey, Stage2Args, files["args.json"], files["args.json.sig"])
    requires ParseArgs(tool.env, files["args.json"]).Some?
    ensures FetchSignedArgs(tool.env, net, now, mode, Sha256Hex(tool.env.scheme, a.stage2)).result.Ok?
  {
    var c := tool.env.scheme;
    var hash := Sha256Hex(c, a.stage2);
    var urls := ArgsUrls(c, a);
    var good :| good in urls && AlwaysServes(net, good, files["args.json"]);
    FirstOfAgreeing(net, now, urls, good, files["args.json"]);
    var blob := DownloadFirst(net, now, urls);
    var sigs := ArgsSigUrls(urls, None, "");
    assert ArgsSigUrls(urls, mode.argsSigUrl, hash) == sigs;
    var sigGood :| sigGood in sigs && AlwaysServes(net, sigGood, files["args.json.sig"]);
    FirstOfAgreeing(net, blob.now, sigs, sigGood, files["args.json.sig"]);
  }

  /** What a signed payload looks like when it is built. */
  predicate SignedBuilt(tool: Tool, a: CreateArgs, b: Built)
    requires Parsed(a)
  {
    && a.key.Some? && b.payload.url == ComposeUrls(Bases(a), a.arch, "stage2")
    && b.payload.ed25519 == Some(KeyOf(tool.env.scheme, a.key.value)) && b.payload.sha256.None?
    && b.payload.sigUrl.None? && b.payload.argsSigUrl.None?
    && "stage2" in b.files && b.files["stage2"] == a.stage2 && "stage2.sig" in b.files
    && Verify(tool.env.scheme, KeyOf(tool.env.scheme, a.key.value), Stage2Payload, a.stage2, b.files["stage2.sig"])
    && (if a.signArgs then SignedArgsBuilt(tool, a, b)
        else b.payload.argsUrl.None? && b.payload.args == OptionalArgs(tool.env, a))
  }

  function OptionalArgs(env: Env, a: CreateArgs): Option<seq<string>> {
    if a.args.Some? then Some(GivenArgs(env, a)) else None
  }

  predicate SignedArgsBuilt(tool: Tool, a: CreateArgs, b: Built)
    requires a.key.Some?
  {
    && b.payload.argsUrl == Some(ComposeUrls(Bases(a), a.arch, "args.json")) && b.payload.args.None?
    && "args.json" in b.files && "args.json.sig" in b.files
    && ParseArgs(tool.env, b.files["args.json"]) == Some(GivenArgs(tool.env, a))
    && Verify(tool.env.scheme, KeyOf(tool.env.scheme, a.key.value), Stage2Args,
              b.files["args.json"], b.files["args.json.sig"])
  }

  /** The payload before its arguments are attached. */
  predicate SignedBare(c: Scheme, a: CreateArgs, b: Built)
    requires a.key.Some?
  {
    && b.payload == Payload(ComposeUrls(Bases(a), a.arch, "stage2"), None, Some(KeyOf(c, a.key.value)),
                            None, None, None, None)
    && "stage2" in b.files && b.files["stage2"] == a.stage2 && "stage2.sig" in b.files
    && Verify(c, KeyOf(c, a.key.value), Stage2Payload, a.stage2, b.files["stage2.sig"])
  }

  lemma BuildSigns(c: Scheme, a: CreateArgs, b: Built)
    requires a.key.Some? && BuildPayload(c, a, "stage2", a.stage2, a.key, Stage2Payload) == Some(b)
    requires SignVerifyAgree(c)
    ensures SignedBare(c, a, b)
  {
    FileNames();
    SignedShape(c, a.key.value, Stage2Payload, a.stage2);
  }

  lemma AttachSigns(tool: Tool, a: CreateArgs, bare: Built, b: Built)
    requires Parsed(a) && a.key.Some? && SignedBare(tool.env.scheme, a, bare) && AttachArgs(tool, a, bare) == Ok(b)
    requires SignVerifyAgree(tool.env.scheme) && TextLayer(tool, a)
    ensures SignedBuilt(tool, a, b)
  {
    if a.signArgs {
      var blob := tool.env.render(RenderStrings(GivenArgs(tool.env, a)));
      BlobParses(tool, GivenArgs(tool.env, a), blob);
      SignedShape(tool.env.scheme, a.key.value, Stage2Args, blob);
      assert b.files["args.json"] == blob;
    }
  }

  lemma BlobParses(tool: Tool, args: seq<string>, blob: Bytes)
    requires ArgsReadBack(tool.env, args) && blob == tool.env.render(RenderStrings(args))
    ensures ParseArgs(tool.env, blob) == Some(args)
  {
    StringsRoundTrip(args);
  }

  lemma BuiltSigned(tool: Tool, a: CreateArgs, b: Built)
    requires Parsed(a) && Stage2Built(tool, a) == Ok(b) && PayloadKey(a).Some?
    requires SignVerifyAgree(tool.env.scheme) && TextLayer(tool, a)
    ensures SignedBuilt(tool, a, b)
  {
    var bare := BuildPayload(tool.env.scheme, a, "stage2", a.stage2, PayloadKey(a), Stage2Payload).value;
    BuildSigns(tool.env.scheme, a, bare);
    AttachSigns(tool, a, bare, b);
  }

  lemma SignedAdmits(
      tool: Tool, a: CreateArgs, net: Net, base: string, b: Built, files: Files, now: nat, mode: Admit)
    requires Parsed(a) && SignedBuilt(tool, a, b)
    requires base in Bases(a) && Hosts(net, base, a.arch, files)
    requires Includes(files, b.files)
    requires OnlySigned(tool.env, net, a, KeyOf(tool.env.scheme, a.key.value), files) && PayloadKey(a).Some?
    requires a.signArgs ==> ArgsServed(tool.env.scheme, a, net, files)
    requires mode == Ed25519(KeyOf(tool.env.scheme, a.key.value), None, b.payload.argsUrl, None)
    ensures AdmitPayload(tool.env, net, mode, now, b.payload.url).result.Ok?
    ensures IsOriginal(tool.env, a, b.payload, AdmitPayload(tool.env, net, mode, now, b.payload.url).result.value)
  {
    var env, urls := tool.env, b.payload.url;
    SomeUrlAdmits(tool, a, net, base, b, files, now, mode);
    AdmittedPasses(env, net, mode, now, urls);
    var got := AdmitPayload(env, net, mode, now, urls).result.value;
    PayloadIsEmitted(env, net, a, files, mode, got.binary);
    if a.signArgs {
      ArgsAreEmitted(env, net, a, files, mode, got.signedArgs.value);
    }
  }

  lemma PayloadIsEmitted(env: Env, net: Net, a: CreateArgs, files: Files, mode: Admit, binary: Bytes)
    requires mode.Ed25519? && mode.sigUrl.None? && PayloadKey(a).Some? && OnlySigned(env, net, a, mode.pubkey, files)
    requires exists url :: url in ComposeUrls(Bases(a), a.arch, "stage2") && SignedBinary(env, net, mode, url, binary)
    ensures "stage2" in files && binary == files["stage2"]
  {
    var url :| url in ComposeUrls(Bases(a), a.arch, "stage2") && SignedBinary(env, net, mode, url, binary);
    assert Acceptable(env, net, a, mode.pubkey, Stage2Payload, binary, url);
    assert binary == files[SignedFile(Stage2Payload)];
  }

  lemma ArgsAreEmitted(env: Env, net: Net, a: CreateArgs, files: Files, mode: Admit, args: seq<string>)
    requires mode.Ed25519? && mode.argsUrl == Some(ComposeUrls(Bases(a), a.arch, "args.json")) && a.signArgs
    requires mode.argsSigUrl.None? && OnlySigned(env, net, a, mode.pubkey, files)
    requires SignedArgs(env, net, mode, Sha256Hex(env.scheme, a.stage2), args)
    ensures "args.json" in files && ParseArgs(env, files["args.json"]) == Some(args)
  {
    var hash := Sha256Hex(env.scheme, a.stage2);
    var blob :| SignedBlob(env, net, mode, hash, blob) && ParseArgs(env, blob) == Some(args);
    var urls := ArgsUrls(env.scheme, a);
    var url :| url in urls && Serves(net, url, blob);
    assert ArgsSigUrls(urls, mode.argsSigUrl, hash) == ConsultedSigs(env.scheme, a, Stage2Args, url);
    assert Acceptable(env, net, a, mode.pubkey, Stage2Args, blob, url);
    assert blob == files[SignedFile(Stage2Args)];
  }

  lemma SomeUrlAdmits(
      tool: Tool, a: CreateArgs, net: Net, base: string, b: Built, files: Files, now: nat, mode: Admit)
    requires Parsed(a) && SignedBuilt(tool, a, b)
    requires base in Bases(a) && Hosts(net, base, a.arch, files)
    requires Includes(files, b.files)
    requires a.signArgs ==> ArgsServed(tool.env.scheme, a, net, files)
    requires mode == Ed25519(KeyOf(tool.env.scheme, a.key.value), None, b.payload.argsUrl, None)
    ensures AdmitPayload(tool.env, net, mode, now, b.payload.url).result.Ok?
  {
    var env, urls := tool.env, b.payload.url;
    var i :| 0 <= i < |Bases(a)| && Bases(a)[i] == base;
    var good := Located(base, a.arch, "stage2");
    assert urls[i] == good;
    forall when | a.signArgs
      ensures FetchSignedArgs(env, net, when, mode, Sha256Hex(env.scheme, files["stage2"])).result.Ok?
    {
      ArgsFetch(tool, a, net, files, when, mode);
    }
    forall when ensures Admitting(env, net, mode)(when, good).result.Ok? {
      HostedAdmits(env, net, base, a.arch, files, mode, when);
    }
    MirrorsReach(Admitting(env, net, mode), now, urls, NoUrl, good);
  }

  // ---- The payload step, in either mode ----

  /** A payload that `create` built is admitted, and is the original. */
  ghost predicate Succeeds(w: World, a: CreateArgs, p: Payload) {
    && Admission(p, Stage1).Ok?
    && forall now :: SucceedsAt(w, a, p, now)
  }

  predicate SucceedsAt(w: World, a: CreateArgs, p: Payload, now: nat)
    requires Admission(p, Stage1).Ok?
  {
    var o := AdmitPayload(w.env, w.net, Admission(p, Stage1).value, now, p.url);
    o.result.Ok? && IsOriginal(w.env, a, p, o.result.value)
  }

  lemma PinnedMode(tool: Tool, a: CreateArgs, b: Built)
    requires Parsed(a) && Stage2Built(tool, a) == Ok(b) && PayloadKey(a).None? && !a.signArgs
    requires OkList(b.payload.url, true)
    ensures Admission(b.payload, Stage1) == Ok(Sha256(Sha256Hex(tool.env.scheme, a.stage2)))
  {
    HexIsOk(tool.env.scheme.sha256(a.stage2));
  }

  lemma SignedMode(tool: Tool, a: CreateArgs, b: Built)
    requires Parsed(a) && SignedBuilt(tool, a, b) && Admission(b.payload, Stage1).Ok?
    ensures Admission(b.payload, Stage1)
      == Ok(Ed25519(KeyOf(tool.env.scheme, a.key.value), None, b.payload.argsUrl, None))
  {}

  lemma PinnedSucceeds(tool: Tool, a: CreateArgs, w: World, base: string, b: Built)
    requires Parsed(a) && w.env == tool.env && PayloadKey(a).None? && !a.signArgs
    requires Stage2Built(tool, a) == Ok(b) && OkList(b.payload.url, true)
    requires base in Bases(a) && AlwaysServes(w.net, Located(base, a.arch, "stage2"), a.stage2)
    requires NoCollision(tool.env.scheme, w.net, ComposeUrls(Bases(a), a.arch, "stage2"), a.stage2)
    ensures Succeeds(w, a, b.payload)
  {
    PinnedMode(tool, a, b);
    forall now: nat ensures SucceedsAt(w, a, b.payload, now) {
      PinnedAdmits(tool, a, w.net, base, b, now, Admission(b.payload, Stage1).value);
    }
  }

  lemma SignedSucceeds(tool: Tool, a: CreateArgs, files: Files, w: World, base: string, b: Built)
    requires Parsed(a) && w.env == tool.env && Serving(tool, a, files, w, base) && PayloadKey(a).Some?
    requires Stage2Built(tool, a) == Ok(b) && Admission(b.payload, Stage1).Ok? && Includes(files, b.files)
    ensures Succeeds(w, a, b.payload)
  {
    BuiltSigned(tool, a, b);
    SignedMode(tool, a, b);
    forall now: nat ensures SucceedsAt(w, a, b.payload, now) {
      SignedAdmits(tool, a, w.net, base, b, files, now, Admission(b.payload, Stage1).value);
    }
  }

  lemma PayloadSucceeds(tool: Tool, a: CreateArgs, files: Files, w: World, base: string, b: Built)
    requires Parsed(a) && w.env == tool.env && Serving(tool, a, files, w, base) && !(a.signArgs && a.manifest)
    requires Stage2Built(tool, a) == Ok(b) && OkList(b.payload.url, true) && Includes(files, b.files)
    requires PayloadKey(a).Some? ==> Admission(b.payload, Stage1).Ok?
    ensures Succeeds(w, a, b.payload)
  {
    if PayloadKey(a).None? {
      PinnedFile(tool, a, b);
      PinnedSucceeds(tool, a, w, base, b);
    } else {
      SignedSucceeds(tool, a, files, w, base, b);
    }
  }

  lemma PinnedFile(tool: Tool, a: CreateArgs, b: Built)
    requires Parsed(a) && Stage2Built(tool, a) == Ok(b) && PayloadKey(a).None? && !a.signArgs
    ensures "stage2" in b.files && b.files["stage2"] == a.stage2
  {}

  lemma PayloadReturns(w: World, a: CreateArgs, s: State, p: Payload)
    requires Succeeds(w, a, p) && Stamped(s.doc, w.env.arch, s.history).Some?
    ensures PayloadStep(w, s, p).Return?
    ensures PayloadStep(w, s, p).resolved.binary == a.stage2
    ensures PayloadStep(w, s, p).resolved.args == GivenArgs(w.env, a)
  {
    assert SucceedsAt(w, a, p, s.now);
  }

  /** An entry written by the emitter is read back by the loop. */
  lemma ReadsEntry(w: World, doc: Json, ac: ArchConfig)
    requires EntryAt(doc, w.env.arch) == Some(RenderArchConfig(ac))
    ensures ConfigOf(w, doc) == Some(ac)
    ensures forall h :: Stamped(doc, w.env.arch, h).Some?
  {
    ArchConfigRoundTrip(ac, w.env.order);
  }

  predicate GivesBack(w: World, a: CreateArgs, resolved: Resolved) {
    resolved.binary == a.stage2 && resolved.args == GivenArgs(w.env, a)
  }

  lemma AtBuiltPayload(w: World, a: CreateArgs, s: State, p: Payload) returns (resolved: Resolved)
    requires Succeeds(w, a, p) && EntryAt(s.doc, w.env.arch) == Some(RenderArchConfig(ArchConfig(PayloadEntry(p), [])))
    ensures StepOf(w, true, s) == Return(resolved) && GivesBack(w, a, resolved)
  {
    ReadsEntry(w, s.doc, ArchConfig(PayloadEntry(p), []));
    PayloadReturns(w, a, s, p);
    resolved := PayloadStep(w, s, p).resolved;
  }

  /** The stage 2 entry of an architecture, as far as a document shows it. */
  predicate Shows(doc: Json, arch: string, entry: ArchConfig) {
    EntryAt(doc, arch) == Some(RenderArchConfig(entry))
  }

  function Start(w: World): State
    requires w.env.parse(w.raw).Some?
  {
    State(w.env.parse(w.raw).value, [], 0)
  }

  lemma DirectRun(tool: Tool, a: CreateArgs, files: Files, w: World, base: string, b: Built)
    returns (run: seq<State>, resolved: Resolved)
    requires Parsed(a) && w.env == tool.env && Serving(tool, a, files, w, base) && !a.manifest && w.env.arch == a.arch
    requires Stage2Built(tool, a) == Ok(b) && Admission(b.payload, Stage1).Ok? && Includes(files, b.files)
    requires w.env.parse(w.raw).Some? && Shows(Start(w).doc, a.arch, DirectEntry(b).entry)
    ensures Returns(w, true, run, resolved) && GivesBack(w, a, resolved)
  {
    PayloadSucceeds(tool, a, files, w, base, b);
    resolved := AtBuiltPayload(w, a, Start(w), b.payload);
    run := [Start(w)];
  }

  // ---- Through a signed manifest ----

  function ManifestPointer(c: Scheme, a: CreateArgs): ManifestRef
    requires a.key.Some?
  {
    ManifestRef(ComposeUrls(Bases(a), a.arch, "stage2.manifest.json"), KeyOf(c, a.key.value), None, None)
  }

  predicate ManifestBuilt(tool: Tool, a: CreateArgs, p: Payload, entry: ArchConfig, files: Files) {
    && a.key.Some? && entry == ArchConfig(ManifestEntry(ManifestPointer(tool.env.scheme, a)), [])
    && "stage2.manifest.json" in files && "stage2.manifest.json.sig" in files
    && files["stage2.manifest.json"] == tool.pretty(Fragment(STAGE2, a.arch, p))
    && Verify(tool.env.scheme, KeyOf(tool.env.scheme, a.key.value), Stage2Manifest,
              files["stage2.manifest.json"], files["stage2.manifest.json.sig"])
  }

  lemma WrapSigns(tool: Tool, a: CreateArgs, b: Built, s: Wrapped)
    requires a.key.Some? && SignVerifyAgree(tool.env.scheme)
    requires WrapManifest(tool, a, STAGE2, "stage2", b, a.key.value, Stage2Manifest) == Some(s)
    ensures ManifestBuilt(tool, a, b.payload, s.entry, s.files)
    ensures "stage2" in b.files ==> "stage2" in s.files && s.files["stage2"] == b.files["stage2"]
  {
    var bytes := tool.pretty(Fragment(STAGE2, a.arch, b.payload));
    FileNames();
    assert "stage2.manifest.json" + ".sig" == "stage2.manifest.json.sig";
    SignedShape(tool.env.scheme, a.key.value, Stage2Manifest, bytes);
  }

  /** Whether a composed URL is admissible does not depend on the name of the file. */
  lemma AnyNameOk(base: string, arch: string, x: string, y: string, https: bool)
    requires OkUrl(Located(base, arch, x), https) && IsGraphic(y)
    ensures OkUrl(Located(base, arch, y), https)
  {
    var dir := base + "/" + arch + "/";
    var u, v := Located(base, arch, x), Located(base, arch, y);
    assert u == dir + x && v == dir + y;
    forall i | 0 <= i < |v| ensures '!' <= v[i] <= '~' {
      assert i < |dir| ==> v[i] == u[i];
      assert i >= |dir| ==> v[i] == y[i - |dir|];
    }
    assert u[|base|] == '/';
    if "http://" <= u {
      assert forall i :: 0 <= i < 5 ==> u[i] == "http://"[i] != '/';
      assert dir[..7] == u[..7] == "http://";
    } else {
      assert forall i :: 0 <= i < 6 ==> u[i] == "https://"[i] != '/';
      assert dir[..8] == u[..8] == "https://";
    }
  }

  lemma PayloadUrlsOk(a: CreateArgs)
    requires OkList(ComposeUrls(Bases(a), a.arch, "stage2.manifest.json"), true)
    ensures OkList(ComposeUrls(Bases(a), a.arch, "stage2"), true)
  {
    var urls := ComposeUrls(Bases(a), a.arch, "stage2.manifest.json");
    forall i | 0 <= i < |Bases(a)| ensures OkUrl(Located(Bases(a)[i], a.arch, "stage2"), true) {
      assert OkUrl(urls[i], true);
      AnyNameOk(Bases(a)[i], a.arch, "stage2.manifest.json", "stage2", true);
    }
  }

  /** The base serves the manifest and its signature. */
  ghost predicate HostsManifest(net: Net, base: string, arch: string, files: Files) {
    && "stage2.manifest.json" in files && "stage2.manifest.json.sig" in files
    && AlwaysServes(net, Located(base, arch, "stage2.manifest.json"), files["stage2.manifest.json"])
    && AlwaysServes(net, Located(base, arch, "stage2.manifest.json.sig"), files["stage2.manifest.json.sig"])
  }

  lemma HostedManifest(
      env: Env, net: Net, base: string, arch: string, files: Files, m: ManifestRef, now: nat)
    requires HostsManifest(net, base, arch, files) && m.sha256.None? && m.sigUrl.None?
    requires Verify(env.scheme, m.ed25519, Stage2Manifest, files["stage2.manifest.json"],
                    files["stage2.manifest.json.sig"])
    ensures TryFetchManifest(env, net, m, now, Located(base, arch, "stage2.manifest.json")).result.Ok?
  {
    assert "stage2.manifest.json" + ".sig" == "stage2.manifest.json.sig";
    var url := Located(base, arch, "stage2.manifest.json");
    SigLocated(base, arch, "stage2.manifest.json");
    OnlyUrl(net, now + 1, url + ".sig", files["stage2.manifest.json.sig"]);
    assert net(now, url) == Some(files["stage2.manifest.json"]);
  }

  /** The fetch finds the emitted manifest, whichever mirror it comes from. */
  lemma FetchesEmitted(env: Env, net: Net, base: string, a: CreateArgs, files: Files, m: ManifestRef, now: nat)
    requires HostsManifest(net, base, a.arch, files) && m.sha256.None? && m.sigUrl.None?
    requires a.manifest && base in Bases(a) && OnlySigned(env, net, a, m.ed25519, files)
    requires m.url == ComposeUrls(Bases(a), a.arch, "stage2.manifest.json")
    requires Verify(env.scheme, m.ed25519, Stage2Manifest, files["stage2.manifest.json"],
                    files["stage2.manifest.json.sig"])
    ensures FetchManifest(env, net, m, now).result.Ok?
    ensures FetchManifest(env, net, m, now).result.value.bytes == files["stage2.manifest.json"]
  {
    var good := Located(base, a.arch, "stage2.manifest.json");
    var i :| 0 <= i < |Bases(a)| && Bases(a)[i] == base;
    assert m.url[i] == good;
    forall when ensures Fetching(env, net, m)(when, good).result.Ok? {
      HostedManifest(env, net, base, a.arch, files, m, when);
    }
    MirrorsReach(Fetching(env, net, m), now, m.url, NoUrl, good);
    FetchedIsAuthentic(env, net, m, now);
    var f := FetchManifest(env, net, m, now).result.value;
    assert Acceptable(env, net, a, m.ed25519, Stage2Manifest, f.bytes, f.url);
    assert f.bytes == files[SignedFile(Stage2Manifest)];
  }

  /** The consumed pointer leaves an empty entry, into which the fragment puts exactly its payload. */
  lemma MergedFragment(doc: Json, arch: string, m: ManifestRef, p: Payload)
    requires EntryAt(doc, arch) == Some(RenderArchConfig(ArchConfig(ManifestEntry(m), [])))
    ensures EntryAt(Merged(doc, arch, Fragment(STAGE2, arch, p)), arch)
      == Some(RenderArchConfig(ArchConfig(PayloadEntry(p), [])))
  {
    var entry := EntryAt(doc, arch).value.m;
    assert entry - {"manifest"} == map[];
    var base, over := Consumed(doc, arch), Fragment(STAGE2, arch, p);
    assert EntryAt(base, arch) == Some(Obj(map[]));
    var b, o := base.m[STAGE2], over.m[STAGE2];
    assert Merge(base, over).m[STAGE2] == Merge(b, o);
    assert Merge(b, o).m[arch] == Merge(b.m[arch], o.m[arch]);
    EmptyMerge(map["payload" := RenderPayload(p)]);
  }

  lemma EmptyMerge(m: map<string, Json>)
    ensures Merge(Obj(map[]), Obj(m)) == Obj(m)
  {
    assert Merge(Obj(map[]), Obj(m)).m == m;
  }

  /** The manifest can be had, and nothing else passes for it. */
  ghost predicate ManifestServed(a: CreateArgs, files: Files, w: World, base: string) {
    && a.manifest && a.key.Some? && base in Bases(a) && HostsManifest(w.net, base, a.arch, files)
    && OnlySigned(w.env, w.net, a, KeyOf(w.env.scheme, a.key.value), files)
  }

  /** The step from a document with the pointer to the one that holds the payload. */
  lemma ManifestHop(
      tool: Tool, a: CreateArgs, files: Files, w: World, base: string, p: Payload, entry: ArchConfig, s: State)
    returns (t: State)
    requires w.env == tool.env && w.env.arch == a.arch && ManifestServed(a, files, w, base)
    requires ManifestBuilt(tool, a, p, entry, files) && FragmentReadsBack(tool, STAGE2, a.arch, p)
    requires Validate(entry, Stage1).Ok? && Shows(s.doc, a.arch, entry) && s.history == []
    ensures Leads(w, true, s, t) && Shows(t.doc, a.arch, ArchConfig(PayloadEntry(p), []))
  {
    var m := ManifestPointer(tool.env.scheme, a);
    ReadsEntry(w, s.doc, entry);
    FetchesEmitted(w.env, w.net, base, a, files, m, s.now);
    var fragment := Fragment(STAGE2, a.arch, p);
    assert w.env.parse(tool.pretty(fragment)) == Some(fragment);
    MergedFragment(s.doc, a.arch, m, p);
    t := ManifestStep(w, true, s, m).state;
  }

  /** A pointer at `at`'s bases leads to the payload that `a` was created for. */
  lemma ManifestRun(
      tool: Tool, at: CreateArgs, a: CreateArgs, files: Files, w: World, base: string, p: Payload, entry: ArchConfig)
    returns (run: seq<State>, resolved: Resolved)
    requires w.env == tool.env && w.env.arch == at.arch && ManifestServed(at, files, w, base)
    requires ManifestBuilt(tool, at, p, entry, files) && FragmentReadsBack(tool, STAGE2, at.arch, p)
    requires Validate(entry, Stage1).Ok? && Succeeds(w, a, p)
    requires w.env.parse(w.raw).Some? && Shows(Start(w).doc, at.arch, entry)
    ensures Returns(w, true, run, resolved) && GivesBack(w, a, resolved)
  {
    var t := ManifestHop(tool, at, files, w, base, p, entry, Start(w));
    resolved := AtBuiltPayload(w, a, t, p);
    run := [Start(w), t];
    assert LeadsAt(w, true, run, 0);
  }

  lemma HostsAll(net: Net, base: string, arch: string, files: Files)
    requires Hosts(net, base, arch, files)
    requires "stage2.manifest.json" in files && "stage2.manifest.json.sig" in files
    ensures HostsManifest(net, base, arch, files)
  {}

  /** What a deployment in manifest mode has ready: the signed fragment, where it is looked for. */
  lemma ManifestReady(tool: Tool, a: CreateArgs, d: Deployment, w: World, base: string, b: Built, s: Wrapped)
    requires Parsed(a) && w.env == tool.env && Serving(tool, a, d.files, w, base) && a.manifest && !a.signArgs
    requires EmitsStage2(tool, a, d, b, s)
    ensures ManifestBuilt(tool, a, b.payload, s.entry, d.files) && ManifestServed(a, d.files, w, base)
  {
    WrapSigns(tool, a, b, s);
    HostsAll(w.net, base, a.arch, d.files);
  }

  lemma WrappedSucceeds(tool: Tool, a: CreateArgs, d: Deployment, w: World, base: string, b: Built, s: Wrapped)
    requires Parsed(a) && w.env == tool.env && Serving(tool, a, d.files, w, base) && a.manifest && !a.signArgs
    requires EmitsStage2(tool, a, d, b, s)
    ensures Succeeds(w, a, b.payload)
  {
    WrapKeeps(tool, a, b, s);
    PayloadUrlsOk(a);
    PayloadSucceeds(tool, a, d.files, w, base, b);
  }

  lemma WrapKeeps(tool: Tool, a: CreateArgs, b: Built, s: Wrapped)
    requires Parsed(a) && a.manifest && Wrap(tool, a, STAGE2, "stage2", b, Stage2Manifest) == Some(s)
    requires Stage2Built(tool, a) == Ok(b) && !a.signArgs
    ensures Includes(s.files, b.files) && b.payload.url == ComposeUrls(Bases(a), a.arch, "stage2")
    ensures Validate(s.entry, Stage1).Ok? ==> OkList(ComposeUrls(Bases(a), a.arch, "stage2.manifest.json"), true)
  {
    FileNames();
  }

  /**
   * Every deployment that `create` emits resolves to the original payload with the given arguments, in
   * all three modes, when one base serves what was emitted and the rest of the world does not break the
   * cryptography.
   */
  lemma CreateThenResolve(
      tool: Tool, a: CreateArgs, existing: Option<Bytes>, d: Deployment, w: World, base: string)
    returns (run: seq<State>, resolved: Resolved)
    requires Parsed(a) && Create(tool, a, existing) == Ok(d) && GoodWorld(tool, a, d, w, base)
    ensures Returns(w, true, run, resolved) && GivesBack(w, a, resolved)
  {
    var here := Local(tool, w);
    CreateAlike(tool, here, a, existing);
    ServingAnywhere(tool, a, d.files, w, base);
    var b, s := CreateEmits(here, a, existing, d);
    if a.manifest {
      ManifestReady(here, a, d, w, base, b, s);
      WrappedSucceeds(here, a, d, w, base, b, s);
      run, resolved := ManifestRun(here, a, a, d.files, w, base, b.payload, s.entry);
    } else {
      run, resolved := DirectRun(here, a, d.files, w, base, b);
    }
  }

  /** No run over an emitted document ends in any other way. */
  lemma EveryOutcome(
      tool: Tool, a: CreateArgs, existing: Option<Bytes>, d: Deployment, w: World, base: string,
      other: seq<State>, outcome: Resolved, error: ResolveError)
    requires Parsed(a) && Create(tool, a, existing) == Ok(d) && GoodWorld(tool, a, d, w, base)
    ensures Returns(w, true, other, outcome) ==> GivesBack(w, a, outcome)
    ensures !Fails(w, true, other, error)
  {
    var run, resolved := CreateThenResolve(tool, a, existing, d, w, base);
    OneEnd(w, run, resolved, other, outcome, error);
  }

  lemma OneEnd(
      w: World, run: seq<State>, resolved: Resolved, other: seq<State>, outcome: Resolved, error: ResolveError)
    requires Returns(w, true, run, resolved)
    ensures Returns(w, true, other, outcome) ==> outcome == resolved
    ensures !Fails(w, true, other, error)
  {
    if Returns(w, true, other, outcome) {
      ResolveTheorems.EndsOnce(w, true, run, other, Return(resolved), Return(outcome));
    }
    if Fails(w, true, other, error) {
      ResolveTheorems.FailsMeansNoReturn(w, true, other, error, run, resolved);
    }
  }
}
