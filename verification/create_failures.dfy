/** Which failure `create` reports, for every input that it refuses. */
module CreateFailures {
  import opened Bytes
  import opened Wrappers
  import opened Json
  import opened Metadata
  import opened Fetch
  import opened Resolve
  import opened Signing
  import opened Deploy
  import opened CreateSucceeds

  /** Bases and architecture are printable. */
  predicate Printable(a: CreateArgs) {
    OkBases(a) && IsGraphic(a.arch)
  }

  predicate GoodOptions(a: CreateArgs) {
    HttpBases(a) && !(a.signArgs && a.manifest)
  }

  /** All is well up to the URLs. */
  predicate GoodInputs(env: Env, a: CreateArgs) {
    GoodOptions(a) && GoodKey(a) && GoodArgs(env, a)
  }

  /**
   * The reasons, in the order of the code: with a manifest the key is not needed before the arguments are read,
   * without one it is. The only thing validation ever finds is a URL of the `_stage1` entry.
   */
  predicate Refuses(env: Env, a: CreateArgs, existing: Option<Bytes>, e: CreateError) {
    var doc := ExistingDoc(env, existing);
    match e
    case BaseNotHttp => !HttpBases(a)
    case RedundantSignArgs => HttpBases(a) && a.signArgs && a.manifest
    case BadKey => GoodOptions(a) && !GoodKey(a) && (a.manifest ==> GoodArgs(env, a))
    case BadArgs => GoodOptions(a) && !GoodArgs(env, a) && (a.manifest || GoodKey(a))
    case Stage1Invalid(why) => GoodInputs(env, a) && !Printable(a) && why == BadUrl
    case Stage2Invalid(_) => false
    case BadUserData => GoodInputs(env, a) && Printable(a) && doc.None?
    case NotAnObject => GoodInputs(env, a) && Printable(a) && doc.Some? && !Mergeable(env, existing)
  }

  lemma MergeErrors(env: Env, existing: Option<Bytes>, arch: string, uki: ArchConfig, stage2: ArchConfig)
    ensures var r := MergeUserData(env, existing, arch, uki, stage2);
      && (r == Err(BadUserData) <==> ExistingDoc(env, existing).None?)
      && (r == Err(NotAnObject) <==> ExistingDoc(env, existing).Some? && !Mergeable(env, existing))
      && (r.Err? ==> r.error == BadUserData || r.error == NotAnObject)
  {
    MergesIff(env, existing, arch, uki, stage2);
  }

  /** A payload or a pointer whose URLs cannot be printed is refused for its URL. */
  lemma WrapRefused(tool: Tool, a: CreateArgs, stageKey: string, name: string, b: Built, d: Domain, profile: Profile)
    requires Parsed(a) && GoodKey(a) && HttpBases(a) && ValidMode(b.payload, a, name) && IsGraphic(name)
    requires !Printable(a)
    ensures var w := Wrap(tool, a, stageKey, name, b, d);
      w.Some? && Validate(w.value.entry, profile) == Err(BadUrl)
  {
    if a.manifest {
      var key := ManifestWraps(tool, a, stageKey, name, b, d);
      ManifestNameOk(name);
      ComposedOk(a, name + ".manifest.json", profile.Stage1?);
    } else {
      ComposedOk(a, name, profile.Stage1?);
    }
  }

  lemma EntriesAre(
      tool: Tool, a: CreateArgs, existing: Option<Bytes>, uki: Built, stage2: Built, u: Wrapped, s: Wrapped)
    requires Parsed(a) && Wrap(tool, a, STAGE1, "linux.efi", uki, Stage1Manifest) == Some(u)
    requires Wrap(tool, a, STAGE2, "stage2", stage2, Stage2Manifest) == Some(s)
    ensures var r := CreateEntries(tool, a, existing, uki, stage2);
      && (Validate(u.entry, Stage0).Err? ==> r == Err(Stage1Invalid(Validate(u.entry, Stage0).error)))
      && (Validate(u.entry, Stage0).Ok? && Validate(s.entry, Stage1).Ok? ==>
        match MergeUserData(tool.env, existing, a.arch, u.entry, s.entry)
        case Err(e) => r == Err(e)
        case Ok(_) => r.Ok?)
  {}

  lemma UnprintableRefused(tool: Tool, a: CreateArgs, existing: Option<Bytes>, uki: Built, stage2: Built)
    requires Parsed(a) && GoodInputs(tool.env, a) && !Printable(a)
    requires ValidMode(uki.payload, a, "linux.efi") && ValidMode(stage2.payload, a, "stage2")
    ensures CreateEntries(tool, a, existing, uki, stage2) == Err(Stage1Invalid(BadUrl))
  {
    var u := UkiWraps(tool, a, uki);
    var s := Stage2Wraps(tool, a, stage2);
    EntriesAre(tool, a, existing, uki, stage2, u, s);
    WrapRefused(tool, a, STAGE1, "linux.efi", uki, Stage1Manifest, Stage0);
  }

  lemma MergeRefused(tool: Tool, a: CreateArgs, existing: Option<Bytes>, uki: Built, stage2: Built)
    requires Parsed(a) && GoodInputs(tool.env, a) && Printable(a)
    requires ValidMode(uki.payload, a, "linux.efi") && ValidMode(stage2.payload, a, "stage2")
    ensures var r, doc := CreateEntries(tool, a, existing, uki, stage2), ExistingDoc(tool.env, existing);
      if doc.None? then r == Err(BadUserData)
      else if !Mergeable(tool.env, existing) then r == Err(NotAnObject)
      else r.Ok?
  {
    var u := UkiWraps(tool, a, uki);
    var s := Stage2Wraps(tool, a, stage2);
    EntriesAre(tool, a, existing, uki, stage2, u, s);
    MergeErrors(tool.env, existing, a.arch, u.entry, s.entry);
  }

  /** Without a usable key: where it is needed for the payloads, and where it is for the manifests alone. */
  lemma KeyRefused(tool: Tool, a: CreateArgs, existing: Option<Bytes>)
    requires Parsed(a) && GoodOptions(a) && !GoodKey(a)
    ensures Create(tool, a, existing) == Err(if a.manifest && !GoodArgs(tool.env, a) then BadArgs else BadKey)
  {
    PayloadBuilds(tool.env.scheme, a, "linux.efi", a.uki, PayloadKey(a), Stage1Uki);
    PayloadBuilds(tool.env.scheme, a, "stage2", a.stage2, PayloadKey(a), Stage2Payload);
  }

  lemma ArgsRefused(tool: Tool, a: CreateArgs, existing: Option<Bytes>)
    requires Parsed(a) && GoodOptions(a) && GoodKey(a) && !GoodArgs(tool.env, a)
    ensures Create(tool, a, existing) == Err(BadArgs)
  {
    PayloadBuilds(tool.env.scheme, a, "linux.efi", a.uki, PayloadKey(a), Stage1Uki);
    PayloadBuilds(tool.env.scheme, a, "stage2", a.stage2, PayloadKey(a), Stage2Payload);
  }

  /** What can fail once options, key and arguments are good. */
  lemma GoodInputsFail(tool: Tool, a: CreateArgs, existing: Option<Bytes>)
    requires Parsed(a) && GoodInputs(tool.env, a)
    ensures var r, doc := Create(tool, a, existing), ExistingDoc(tool.env, existing);
      if !Printable(a) then r == Err(Stage1Invalid(BadUrl))
      else if doc.None? then r == Err(BadUserData)
      else if !Mergeable(tool.env, existing) then r == Err(NotAnObject)
      else r.Ok?
  {
    PayloadBuilds(tool.env.scheme, a, "linux.efi", a.uki, PayloadKey(a), Stage1Uki);
    Stage2Builds(tool, a);
    if Printable(a) {
      MergeRefused(tool, a, existing, UkiBuilt(tool, a).value, Stage2Built(tool, a).value);
    } else {
      UnprintableRefused(tool, a, existing, UkiBuilt(tool, a).value, Stage2Built(tool, a).value);
    }
  }

  /** `create` fails with this error exactly if this is what is wrong. */
  lemma CreateFailsIff(tool: Tool, a: CreateArgs, existing: Option<Bytes>, e: CreateError)
    requires Parsed(a)
    ensures Create(tool, a, existing) == Err(e) <==> Refuses(tool.env, a, existing, e)
  {
    if GoodOptions(a) && !GoodKey(a) {
      KeyRefused(tool, a, existing);
    } else if GoodOptions(a) && !GoodArgs(tool.env, a) {
      ArgsRefused(tool, a, existing);
    } else if GoodOptions(a) {
      GoodInputsFail(tool, a, existing);
    }
  }
}
