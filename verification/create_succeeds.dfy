/** When `create` succeeds: a condition on its input alone. */
module CreateSucceeds {
  import opened Bytes
  import opened Wrappers
  import opened Json
  import opened Metadata
  import opened Fetch
  import opened Resolve
  import opened Signing
  import opened Deploy
  import opened EndToEnd

  // ---- URLs ----

  lemma GraphicJoin(x: string, y: string)
    ensures IsGraphic(x + y) <==> IsGraphic(x) && IsGraphic(y)
  {
    if IsGraphic(x + y) {
      forall i | 0 <= i < |x| ensures '!' <= x[i] <= '~' {
        assert (x + y)[i] == x[i];
      }
      forall i | 0 <= i < |y| ensures '!' <= y[i] <= '~' {
        assert (x + y)[|x| + i] == y[i];
      }
    }
  }

  /** Composed from a plain HTTP base, a URL is admissible exactly when all of it is printable. */
  lemma LocatedOk(base: string, arch: string, name: string, https: bool)
    requires "http://" <= base && IsGraphic(name)
    ensures OkUrl(Located(base, arch, name), https) <==> IsGraphic(base) && IsGraphic(arch)
  {
    var tail := "/" + arch + "/" + name;
    assert Located(base, arch, name) == base + tail;
    assert "http://" <= base + tail;
    GraphicJoin(base, tail);
    GraphicJoin("/", arch + ("/" + name));
    assert tail == "/" + (arch + ("/" + name));
    GraphicJoin(arch, "/" + name);
    GraphicJoin("/", name);
  }

  /** Every base is a printable plain HTTP URL. */
  predicate OkBases(a: CreateArgs) {
    forall i :: 0 <= i < |Bases(a)| ==> OkUrl(Bases(a)[i], false)
  }

  lemma ComposedOk(a: CreateArgs, name: string, https: bool)
    requires |a.baseUrls| > 0 && HttpBases(a) && IsGraphic(name)
    ensures OkList(ComposeUrls(Bases(a), a.arch, name), https) <==> OkBases(a) && IsGraphic(a.arch)
  {
    var urls := ComposeUrls(Bases(a), a.arch, name);
    forall i | 0 <= i < |urls| ensures OkUrl(urls[i], https) <==> OkUrl(Bases(a)[i], false) && IsGraphic(a.arch) {
      LocatedOk(Bases(a)[i], a.arch, name, https);
    }
    if OkList(urls, https) {
      assert OkUrl(urls[0], https);
      forall i | 0 <= i < |Bases(a)| ensures OkUrl(Bases(a)[i], false) {
        assert OkUrl(urls[i], https);
      }
    }
  }

  // ---- The parts ----

  predicate GoodKey(a: CreateArgs) {
    a.key.Some? ==> SeedFromPem(a.key.value).Some?
  }

  predicate GoodArgs(env: Env, a: CreateArgs) {
    a.args.Some? ==> ParseArgs(env, a.args.value).Some?
  }

  /** A mode that validation accepts, and no URLs but those of the file and of the arguments. */
  predicate ValidMode(p: Payload, a: CreateArgs, name: string) {
    && p.url == ComposeUrls(Bases(a), a.arch, name) && p.sigUrl.None? && p.argsSigUrl.None?
    && (p.sha256.Some? <==> p.ed25519.None?) && (p.argsUrl.Some? ==> p.ed25519.Some?)
    && (p.argsUrl.Some? ==> p.argsUrl == Some(ComposeUrls(Bases(a), a.arch, "args.json")))
    && (p.sha256.Some? ==> OkSha256(p.sha256.value)) && (p.ed25519.Some? ==> OkPubkey(p.ed25519.value).Ok?)
  }

  lemma SignedKeyOk(c: Scheme, pem: string, d: Domain, message: Bytes)
    ensures Sign(c, pem, d, message).Some? <==> SeedFromPem(pem).Some?
    ensures Sign(c, pem, d, message).Some? ==> OkPubkey(Sign(c, pem, d, message).value.pubkey).Ok?
  {
    if SeedFromPem(pem).Some? {
      EncodedIsTrimmed(c.publicKey(SeedFromPem(pem).value));
    }
  }

  lemma PayloadBuilds(c: Scheme, a: CreateArgs, name: string, data: Bytes, key: Option<string>, d: Domain)
    ensures BuildPayload(c, a, name, data, key, d).Some? <==> (key.Some? ==> SeedFromPem(key.value).Some?)
    ensures BuildPayload(c, a, name, data, key, d).Some? ==>
      var p := BuildPayload(c, a, name, data, key, d).value.payload;
      ValidMode(p, a, name) && p.argsUrl.None? && (p.ed25519.Some? <==> key.Some?)
  {
    HexIsOk(c.sha256(data));
    if key.Some? {
      SignedKeyOk(c, key.value, d, data);
    }
  }

  lemma ArgsAttach(tool: Tool, a: CreateArgs, b: Built)
    requires Parsed(a) && GoodKey(a) && ValidMode(b.payload, a, "stage2") && b.payload.argsUrl.None?
    requires a.signArgs ==> b.payload.ed25519.Some?
    ensures AttachArgs(tool, a, b).Ok? <==> GoodArgs(tool.env, a)
    ensures AttachArgs(tool, a, b).Ok? ==> ValidMode(AttachArgs(tool, a, b).value.payload, a, "stage2")
  {
    if a.signArgs && GoodArgs(tool.env, a) {
      var blob := tool.env.render(RenderStrings(ParseArgs(tool.env, a.args.value).value));
      SignedKeyOk(tool.env.scheme, a.key.value, Stage2Args, blob);
    }
  }

  lemma Stage2Builds(tool: Tool, a: CreateArgs)
    requires Parsed(a) && GoodKey(a) && !(a.signArgs && a.manifest)
    ensures Stage2Built(tool, a).Ok? <==> GoodArgs(tool.env, a)
    ensures Stage2Built(tool, a).Ok? ==> ValidMode(Stage2Built(tool, a).value.payload, a, "stage2")
  {
    var c := tool.env.scheme;
    PayloadBuilds(c, a, "stage2", a.stage2, PayloadKey(a), Stage2Payload);
    ArgsAttach(tool, a, BuildPayload(c, a, "stage2", a.stage2, PayloadKey(a), Stage2Payload).value);
  }

  /** The one URL list, and that of the arguments, decide whether such a payload is admissible. */
  lemma PayloadValidates(a: CreateArgs, name: string, p: Payload, profile: Profile)
    requires Parsed(a) && HttpBases(a) && ValidMode(p, a, name) && IsGraphic(name)
    ensures Admission(p, profile).Ok? <==> OkBases(a) && IsGraphic(a.arch)
  {
    ComposedOk(a, name, profile.Stage1?);
    ComposedOk(a, "args.json", profile.Stage1?);
    AdmissionIff(p, profile);
  }

  lemma PointerValidates(a: CreateArgs, name: string, key: string, profile: Profile)
    requires Parsed(a) && HttpBases(a) && IsGraphic(name) && OkPubkey(key).Ok?
    ensures ValidateManifest(ManifestRef(ComposeUrls(Bases(a), a.arch, name), key, None, None), profile).Ok?
      <==> OkBases(a) && IsGraphic(a.arch)
  {
    ComposedOk(a, name, profile.Stage1?);
  }

  lemma ManifestNameOk(name: string)
    requires IsGraphic(name)
    ensures IsGraphic(name + ".manifest.json")
  {
    GraphicJoin(name, ".manifest.json");
  }

  lemma ManifestWraps(tool: Tool, a: CreateArgs, stageKey: string, name: string, b: Built, d: Domain)
    returns (key: string)
    requires Parsed(a) && a.manifest && GoodKey(a)
    ensures OkPubkey(key).Ok? && WrapManifest(tool, a, stageKey, name, b, a.key.value, d).Some?
    ensures WrapManifest(tool, a, stageKey, name, b, a.key.value, d).value.entry.entry
      == ManifestEntry(ManifestRef(ComposeUrls(Bases(a), a.arch, name + ".manifest.json"), key, None, None))
  {
    var bytes := tool.pretty(Fragment(stageKey, a.arch, b.payload));
    SignedKeyOk(tool.env.scheme, a.key.value, d, bytes);
    key := Sign(tool.env.scheme, a.key.value, d, bytes).value.pubkey;
  }

  /** Given bases and an architecture that can be printed, every wrapped payload validates. */
  lemma WrapValidates(
      tool: Tool, a: CreateArgs, stageKey: string, name: string, b: Built, d: Domain, profile: Profile)
    requires Parsed(a) && GoodKey(a) && HttpBases(a) && ValidMode(b.payload, a, name) && IsGraphic(name)
    ensures var w := Wrap(tool, a, stageKey, name, b, d);
      w.Some? && (Validate(w.value.entry, profile).Ok? <==> OkBases(a) && IsGraphic(a.arch))
  {
    if a.manifest {
      var key := ManifestWraps(tool, a, stageKey, name, b, d);
      ManifestNameOk(name);
      PointerValidates(a, name + ".manifest.json", key, profile);
    } else {
      PayloadValidates(a, name, b.payload, profile);
    }
  }

  // ---- The existing document ----

  /** The stage is missing or an object. */
  predicate StageOpen(doc: map<string, Json>, stageKey: string) {
    stageKey in doc ==> doc[stageKey].Obj?
  }

  /** What exists, if anything does, is an object into which both stages can be written. */
  predicate Mergeable(env: Env, existing: Option<Bytes>) {
    var doc := ExistingDoc(env, existing);
    doc.Some? && doc.value.Obj? && StageOpen(doc.value.m, STAGE1) && StageOpen(doc.value.m, STAGE2)
  }

  lemma MergesIff(env: Env, existing: Option<Bytes>, arch: string, uki: ArchConfig, stage2: ArchConfig)
    ensures MergeUserData(env, existing, arch, uki, stage2).Ok? <==> Mergeable(env, existing)
  {
    var doc := ExistingDoc(env, existing);
    if doc.Some? && doc.value.Obj? {
      SetIff(doc.value.m, STAGE1, arch, RenderArchConfig(uki));
      var once := SetArch(doc.value.m, STAGE1, arch, RenderArchConfig(uki));
      if once.Some? {
        SetIff(once.value, STAGE2, arch, RenderArchConfig(stage2));
      }
    }
  }

  lemma SetIff(doc: map<string, Json>, stageKey: string, arch: string, entry: Json)
    ensures SetArch(doc, stageKey, arch, entry).Some? <==> StageOpen(doc, stageKey)
    ensures SetArch(doc, stageKey, arch, entry).Some? ==> forall k :: k != stageKey ==>
      (StageOpen(SetArch(doc, stageKey, arch, entry).value, k) <==> StageOpen(doc, k))
  {}

  // ---- The command ----

  predicate CanCreate(tool: Tool, a: CreateArgs, existing: Option<Bytes>) {
    && OkBases(a) && IsGraphic(a.arch) && !(a.signArgs && a.manifest)
    && GoodKey(a) && GoodArgs(tool.env, a) && Mergeable(tool.env, existing)
  }

  /** Two wrapped payloads succeed as far as they validate and merge. */
  lemma EntriesIff(
      tool: Tool, a: CreateArgs, existing: Option<Bytes>, uki: Built, stage2: Built, u: Wrapped, s: Wrapped)
    requires Parsed(a) && Wrap(tool, a, STAGE1, "linux.efi", uki, Stage1Manifest) == Some(u)
    requires Wrap(tool, a, STAGE2, "stage2", stage2, Stage2Manifest) == Some(s)
    ensures CreateEntries(tool, a, existing, uki, stage2).Ok?
      <==> && Validate(u.entry, Stage0).Ok? && Validate(s.entry, Stage1).Ok?
           && MergeUserData(tool.env, existing, a.arch, u.entry, s.entry).Ok?
  {}

  lemma UkiWraps(tool: Tool, a: CreateArgs, uki: Built) returns (u: Wrapped)
    requires Parsed(a) && GoodKey(a) && HttpBases(a) && ValidMode(uki.payload, a, "linux.efi")
    ensures Wrap(tool, a, STAGE1, "linux.efi", uki, Stage1Manifest) == Some(u)
    ensures Validate(u.entry, Stage0).Ok? <==> OkBases(a) && IsGraphic(a.arch)
  {
    WrapValidates(tool, a, STAGE1, "linux.efi", uki, Stage1Manifest, Stage0);
    u := Wrap(tool, a, STAGE1, "linux.efi", uki, Stage1Manifest).value;
  }

  lemma Stage2Wraps(tool: Tool, a: CreateArgs, stage2: Built) returns (s: Wrapped)
    requires Parsed(a) && GoodKey(a) && HttpBases(a) && ValidMode(stage2.payload, a, "stage2")
    ensures Wrap(tool, a, STAGE2, "stage2", stage2, Stage2Manifest) == Some(s)
    ensures Validate(s.entry, Stage1).Ok? <==> OkBases(a) && IsGraphic(a.arch)
  {
    WrapValidates(tool, a, STAGE2, "stage2", stage2, Stage2Manifest, Stage1);
    s := Wrap(tool, a, STAGE2, "stage2", stage2, Stage2Manifest).value;
  }

  lemma EntriesSucceedIff(tool: Tool, a: CreateArgs, existing: Option<Bytes>, uki: Built, stage2: Built)
    requires Parsed(a) && GoodKey(a) && HttpBases(a)
    requires ValidMode(uki.payload, a, "linux.efi") && ValidMode(stage2.payload, a, "stage2")
    ensures CreateEntries(tool, a, existing, uki, stage2).Ok?
      <==> OkBases(a) && IsGraphic(a.arch) && Mergeable(tool.env, existing)
  {
    var u := UkiWraps(tool, a, uki);
    var s := Stage2Wraps(tool, a, stage2);
    EntriesIff(tool, a, existing, uki, stage2, u, s);
    MergesIff(tool.env, existing, a.arch, u.entry, s.entry);
  }

  lemma CreateNeedsKey(tool: Tool, a: CreateArgs, existing: Option<Bytes>)
    requires Parsed(a) && Create(tool, a, existing).Ok?
    ensures GoodKey(a) && HttpBases(a) && !(a.signArgs && a.manifest)
  {
    var uki, u, stage2, s := CreateParts(tool, a, existing, Create(tool, a, existing).value);
  }

  /**
   * `create` succeeds exactly when its bases are printable plain HTTP URLs, the architecture is printable, the
   * two ways of signing arguments are not combined, the key file holds a seed, the arguments are a list of
   * strings, and what exists can be merged into.
   */
  lemma CreateSucceedsIff(tool: Tool, a: CreateArgs, existing: Option<Bytes>)
    requires Parsed(a)
    ensures Create(tool, a, existing).Ok? <==> CanCreate(tool, a, existing)
  {
    PayloadBuilds(tool.env.scheme, a, "linux.efi", a.uki, PayloadKey(a), Stage1Uki);
    if HttpBases(a) && !(a.signArgs && a.manifest) && GoodKey(a) {
      Stage2Builds(tool, a);
      if GoodArgs(tool.env, a) {
        EntriesSucceedIff(tool, a, existing, UkiBuilt(tool, a).value, Stage2Built(tool, a).value);
      }
    } else if Create(tool, a, existing).Ok? {
      CreateNeedsKey(tool, a, existing);
    }
  }
}
