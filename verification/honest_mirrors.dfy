/**
 * Mirrors that serve the emitted files or nothing at the emitted URLs. The hypotheses about what verifies then hold
 * by themselves, whatever else the network serves: other architectures and other releases under the same key.
 */
module HonestMirrors {
  import opened Bytes
  import opened Wrappers
  import opened Json
  import opened Metadata
  import opened Fetch
  import opened Resolve
  import opened Signing
  import opened Deploy
  import opened EndToEnd

  // ---- Honest mirrors ----

  ghost predicate HonestAt(net: Net, base: string, arch: string, files: Files) {
    forall name, now :: name in files ==> SilentOr(net, now, Located(base, arch, name), files[name])
  }

  predicate SilentOr(net: Net, now: nat, url: string, b: Bytes) {
    net(now, url).Some? ==> net(now, url) == Some(b)
  }

  /** Under every base, an emitted file's URL serves that file whenever it serves anything. */
  ghost predicate Honest(net: Net, a: CreateArgs, files: Files) {
    forall i :: 0 <= i < |Bases(a)| ==> HonestAt(net, Bases(a)[i], a.arch, files)
  }

  /** No placeholder in the URLs of the arguments. */
  predicate Plain(a: CreateArgs) {
    '{' !in a.arch && forall i :: 0 <= i < |Bases(a)| ==> '{' !in Bases(a)[i]
  }

  /** The files that resolution may ask for. */
  predicate HoldsFiles(a: CreateArgs, files: Files) {
    && "stage2" in files && files["stage2"] == a.stage2
    && (a.signArgs ==> "args.json" in files && "args.json.sig" in files)
    && (a.manifest ==> "stage2.manifest.json" in files)
  }

  lemma BuiltHolds(tool: Tool, a: CreateArgs, b: Built)
    requires Parsed(a) && Stage2Built(tool, a) == Ok(b)
    ensures "stage2" in b.files && b.files["stage2"] == a.stage2
    ensures a.signArgs ==> "args.json" in b.files && "args.json.sig" in b.files
  {
    FileNames();
  }

  lemma WrapHolds(tool: Tool, a: CreateArgs, b: Built, s: Wrapped)
    requires Parsed(a) && Wrap(tool, a, STAGE2, "stage2", b, Stage2Manifest) == Some(s)
    requires "stage2" in b.files && b.files["stage2"] == a.stage2
    requires a.signArgs ==> "args.json" in b.files && "args.json.sig" in b.files
    ensures HoldsFiles(a, s.files)
  {
    FileNames();
  }

  lemma CreateHolds(tool: Tool, a: CreateArgs, existing: Option<Bytes>, d: Deployment)
    requires Parsed(a) && Create(tool, a, existing) == Ok(d)
    ensures HoldsFiles(a, d.files)
  {
    var b, s := CreateEmits(tool, a, existing, d);
    BuiltHolds(tool, a, b);
    WrapHolds(tool, a, b, s);
  }

  lemma HonestServes(net: Net, a: CreateArgs, files: Files, name: string, url: string, b: Bytes)
    requires Honest(net, a, files) && name in files && url in ComposeUrls(Bases(a), a.arch, name) && Serves(net, url, b)
    ensures b == files[name]
  {
    var i :| 0 <= i < |Bases(a)| && ComposeUrls(Bases(a), a.arch, name)[i] == url;
    var now :| net(now, url) == Some(b);
    assert SilentOr(net, now, Located(Bases(a)[i], a.arch, name), files[name]);
  }

  /** Without a placeholder the argument files are looked for under their plain URLs. */
  lemma PlainArgsUrls(c: Scheme, a: CreateArgs)
    requires Plain(a)
    ensures ArgsUrls(c, a) == ComposeUrls(Bases(a), a.arch, "args.json")
    ensures ArgsSigUrls(ArgsUrls(c, a), None, "") == ComposeUrls(Bases(a), a.arch, "args.json.sig")
  {
    assert "args.json" + ".sig" == "args.json.sig";
    forall i | 0 <= i < |Bases(a)| ensures ArgsUrls(c, a)[i] == Located(Bases(a)[i], a.arch, "args.json") {
      ReplacedPlain(Located(Bases(a)[i], a.arch, "args.json"), Sha256Hex(c, a.stage2));
    }
    forall i | 0 <= i < |Bases(a)|
      ensures ArgsUrls(c, a)[i] + ".sig" == Located(Bases(a)[i], a.arch, "args.json.sig")
    {
      SigLocated(Bases(a)[i], a.arch, "args.json");
    }
  }

  lemma HonestOnlySigned(env: Env, net: Net, a: CreateArgs, pubkey: string, files: Files)
    requires Honest(net, a, files) && HoldsFiles(a, files) && (a.signArgs ==> Plain(a))
    ensures OnlySigned(env, net, a, pubkey, files)
  {
    forall d, b, url | Acceptable(env, net, a, pubkey, d, b, url)
      ensures SignedFile(d) in files && b == files[SignedFile(d)]
    {
      if d.Stage2Args? {
        PlainArgsUrls(env.scheme, a);
      }
      HonestServes(net, a, files, SignedFile(d), url, b);
    }
  }

  lemma HonestAgrees(net: Net, a: CreateArgs, files: Files, name: string)
    requires Honest(net, a, files) && name in files
    ensures Agree(net, ComposeUrls(Bases(a), a.arch, name), files[name])
  {
    var urls := ComposeUrls(Bases(a), a.arch, name);
    forall i, now: nat | 0 <= i < |urls| && net(now, urls[i]).Some? ensures net(now, urls[i]) == Some(files[name]) {
      assert Serves(net, urls[i], net(now, urls[i]).value);
      HonestServes(net, a, files, name, urls[i], net(now, urls[i]).value);
    }
  }

  lemma HonestArgs(c: Scheme, a: CreateArgs, net: Net, base: string, files: Files)
    requires Honest(net, a, files) && HoldsFiles(a, files) && a.signArgs && Plain(a)
    requires base in Bases(a) && Hosts(net, base, a.arch, files)
    ensures ArgsServed(c, a, net, files)
  {
    PlainArgsUrls(c, a);
    HonestAgrees(net, a, files, "args.json");
    HonestAgrees(net, a, files, "args.json.sig");
    PlainBaseServesArgs(c, a, net, base, files);
  }

  /** Honest mirrors make a good world: of the scheme and the text layer only what they are for is asked. */
  lemma HonestIsGood(tool: Tool, a: CreateArgs, existing: Option<Bytes>, d: Deployment, w: World, base: string)
    requires Parsed(a) && Create(tool, a, existing) == Ok(d) && RunsOn(tool, a, w) && Receives(w, a.arch, d.doc)
    requires base in Bases(a) && Hosts(w.net, base, a.arch, d.files) && Honest(w.net, a, d.files)
    requires TextLayer(tool, a) && (a.key.Some? ==> SignVerifyAgree(tool.env.scheme)) && (a.signArgs ==> Plain(a))
    ensures GoodWorld(tool, a, d, w, base)
  {
    var c, urls := tool.env.scheme, ComposeUrls(Bases(a), a.arch, "stage2");
    CreateHolds(tool, a, existing, d);
    forall url, b | url in urls && Serves(w.net, url, b) && c.sha256(b) == c.sha256(a.stage2) ensures b == a.stage2 {
      HonestServes(w.net, a, d.files, "stage2", url, b);
    }
    if a.key.Some? {
      HonestOnlySigned(w.env, w.net, a, KeyOf(c, a.key.value), d.files);
    }
    if a.signArgs {
      HonestArgs(c, a, w.net, base, d.files);
    }
  }

  // ---- Two architectures ----

  /** A second `create`, for another architecture, leaves the first one's entry in the document. */
  lemma SecondCreateKeeps(
      tool: Tool, a: CreateArgs, d: Deployment, e: CreateArgs, text: Bytes, both: Deployment)
    requires Parsed(e) && a.arch != e.arch && tool.env.parse(text) == Some(d.doc)
    requires Create(tool, e, Some(text)) == Ok(both)
    ensures EntryAt(both.doc, a.arch) == EntryAt(d.doc, a.arch)
  {
    var uki, u, stage2, s := CreateParts(tool, e, Some(text), both);
    MergeKeeps(tool.env, text, e.arch, u.entry, s.entry, STAGE2, a.arch);
  }

  /** The machine of an architecture, in a network that serves for both. */
  function Machine(tool: Tool, arch: string, net: Net, raw: Bytes): World {
    World(tool.env.(arch := arch), net, raw)
  }

  /**
   * Two architectures under one key, one document and one network: each machine resolves to the payload and the
   * arguments that were created for it, also the one whose entry was there before the second `create`.
   */
  lemma TwoArchitectures(
      tool: Tool, a: CreateArgs, existing: Option<Bytes>, d: Deployment, e: CreateArgs, text: Bytes, both: Deployment,
      net: Net, raw: Bytes, first: string, second: string)
    returns (runA: seq<State>, gotA: Resolved, runE: seq<State>, gotE: Resolved)
    requires Parsed(a) && Parsed(e) && a.arch != e.arch && Create(tool, a, existing) == Ok(d)
    requires tool.env.parse(text) == Some(d.doc) && Create(tool, e, Some(text)) == Ok(both)
    requires GoodWorld(tool, a, Deployment(both.doc, d.files), Machine(tool, a.arch, net, raw), first)
    requires GoodWorld(tool, e, both, Machine(tool, e.arch, net, raw), second)
    ensures Returns(Machine(tool, a.arch, net, raw), true, runA, gotA)
    ensures GivesBack(Machine(tool, a.arch, net, raw), a, gotA)
    ensures Returns(Machine(tool, e.arch, net, raw), true, runE, gotE)
    ensures GivesBack(Machine(tool, e.arch, net, raw), e, gotE)
  {
    SecondCreateKeeps(tool, a, d, e, text, both);
    runA, gotA := CreateThenResolve(tool, a, existing, d, Machine(tool, a.arch, net, raw), first);
    runE, gotE := CreateThenResolve(tool, e, Some(text), both, Machine(tool, e.arch, net, raw), second);
  }
}
