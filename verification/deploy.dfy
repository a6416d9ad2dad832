/** The emitter: signing or pinning the two payloads, composing URLs, and writing the user-data. */
module Deploy {
  import opened Bytes
  import opened Wrappers
  import opened Json
  import opened Metadata
  import opened Fetch
  import opened Resolve
  import opened Signing

  const STAGE1 := "_stage1"

  type Files = map<string, Bytes>

  /** The shared environment, and the indented JSON writer that `create` uses for manifests. */
  datatype Tool = Tool(env: Env, pretty: Json -> Bytes)

  /** The command line of `create`; `key` is the text of the key file, `args` that of the argument. */
  datatype CreateArgs = CreateArgs(
    arch: string, uki: Bytes, stage2: Bytes, key: Option<string>, baseUrls: seq<string>, args: Option<Bytes>,
    signArgs: bool, manifest: bool)

  datatype CreateError = BaseNotHttp | RedundantSignArgs | BadKey | BadArgs | Stage1Invalid(why: Invalid)
                       | Stage2Invalid(why: Invalid) | BadUserData | NotAnObject

  /** What is written: the user-data document, and the files of the architecture's directory. */
  datatype Deployment = Deployment(doc: Json, files: Files)

  datatype Built = Built(payload: Payload, files: Files)

  datatype Wrapped = Wrapped(entry: ArchConfig, files: Files)

  // ---- URLs ----

  function TrimSlashes(base: string): string {
    if base != "" && base[|base| - 1] == '/' then TrimSlashes(base[..|base| - 1]) else base
  }

  function Located(base: string, arch: string, name: string): string {
    base + "/" + arch + "/" + name
  }

  function ComposeUrls(bases: seq<string>, arch: string, name: string): (r: UrlList)
    ensures |r| == |bases| && forall i :: 0 <= i < |bases| ==> r[i] == Located(bases[i], arch, name)
  {
    seq(|bases|, i requires 0 <= i < |bases| => Located(bases[i], arch, name))
  }

  function Bases(a: CreateArgs): (r: seq<string>)
    ensures |r| == |a.baseUrls| && forall i :: 0 <= i < |r| ==> r[i] == TrimSlashes(a.baseUrls[i])
  {
    seq(|a.baseUrls|, i requires 0 <= i < |a.baseUrls| => TrimSlashes(a.baseUrls[i]))
  }

  // ---- Payloads and manifests ----

  function BuildPayload(c: Scheme, a: CreateArgs, name: string, data: Bytes, key: Option<string>, d: Domain)
    : Option<Built>
  {
    var url := ComposeUrls(Bases(a), a.arch, name);
    if key.None? then
      Some(Built(Payload(url, Some(Sha256Hex(c, data)), None, None, None, None, None), map[name := data]))
    else match Sign(c, key.value, d, data)
         case None => None
         case Some(s) =>
           Some(Built(Payload(url, None, Some(s.pubkey), None, None, None, None),
                      map[name := data, name + ".sig" := s.signature]))
  }

  /** Arguments ride inside the payload, inline or as a separately signed blob. */
  function AttachArgs(tool: Tool, a: CreateArgs, b: Built): Result<Built, CreateError>
    requires a.signArgs ==> a.key.Some?
  {
    if a.args.None? then Ok(b)
    else match ParseArgs(tool.env, a.args.value)
         case None => Err(BadArgs)
         case Some(args) =>
           if !a.signArgs then Ok(Built(b.payload.(args := Some(args)), b.files))
           else
             var blob := tool.env.render(RenderStrings(args));
             match Sign(tool.env.scheme, a.key.value, Stage2Args, blob)
             case None => Err(BadKey)
             case Some(s) =>
               Ok(Built(b.payload.(argsUrl := Some(ComposeUrls(Bases(a), a.arch, "args.json"))),
                        b.files["args.json" := blob]["args.json.sig" := s.signature]))
  }

  /** The user-data fragment that carries a payload. */
  function Fragment(stageKey: string, arch: string, p: Payload): Json {
    Obj(map[stageKey := Obj(map[arch := Obj(map["payload" := RenderPayload(p)])])])
  }

  function WrapManifest(tool: Tool, a: CreateArgs, stageKey: string, name: string, b: Built, pem: string, d: Domain)
    : Option<Wrapped>
  {
    var bytes := tool.pretty(Fragment(stageKey, a.arch, b.payload));
    var file := name + ".manifest.json";
    match Sign(tool.env.scheme, pem, d, bytes)
    case None => None
    case Some(s) =>
      var pointer := ManifestRef(ComposeUrls(Bases(a), a.arch, file), s.pubkey, None, None);
      Some(Wrapped(ArchConfig(ManifestEntry(pointer), []), b.files[file := bytes][file + ".sig" := s.signature]))
  }

  function DirectEntry(b: Built): Wrapped {
    Wrapped(ArchConfig(PayloadEntry(b.payload), []), b.files)
  }

  function Wrap(tool: Tool, a: CreateArgs, stageKey: string, name: string, b: Built, d: Domain): Option<Wrapped>
    requires a.manifest ==> a.key.Some?
  {
    if a.manifest then WrapManifest(tool, a, stageKey, name, b, a.key.value, d) else Some(DirectEntry(b))
  }

  // ---- The document ----

  function SetArch(doc: map<string, Json>, stageKey: string, arch: string, entry: Json): Option<map<string, Json>> {
    if stageKey !in doc then Some(doc[stageKey := Obj(map[arch := entry])])
    else if doc[stageKey].Obj? then Some(doc[stageKey := Obj(doc[stageKey].m[arch := entry])])
    else None
  }

  /** The document that an existing text holds; an empty one where there is no text. */
  function ExistingDoc(env: Env, existing: Option<Bytes>): Option<Json> {
    if existing.Some? then env.parse(existing.value) else Some(Obj(map[]))
  }

  /** Both entries set for one architecture; anything else in an existing document stays. */
  function MergeUserData(env: Env, existing: Option<Bytes>, arch: string, uki: ArchConfig, stage2: ArchConfig)
    : Result<Json, CreateError>
  {
    var doc := ExistingDoc(env, existing);
    if doc.None? then Err(BadUserData)
    else if !doc.value.Obj? then Err(NotAnObject)
    else match SetStages(doc.value.m, arch, RenderArchConfig(uki), RenderArchConfig(stage2))
         case None => Err(NotAnObject)
         case Some(m) => Ok(Obj(m))
  }

  /** The two entries of an architecture set, one after the other. */
  function SetStages(doc: map<string, Json>, arch: string, uki: Json, stage2: Json): Option<map<string, Json>> {
    match SetArch(doc, STAGE1, arch, uki)
    case None => None
    case Some(once) => SetArch(once, STAGE2, arch, stage2)
  }

  /** What the command line parser demands: signing needs a key, signed arguments need arguments. */
  predicate Parsed(a: CreateArgs) {
    && |a.baseUrls| > 0 && (a.manifest ==> a.key.Some?) && (a.signArgs ==> a.key.Some? && a.args.Some?)
  }

  function PayloadKey(a: CreateArgs): Option<string> {
    if a.manifest then None else a.key
  }

  function Create(tool: Tool, a: CreateArgs, existing: Option<Bytes>): Result<Deployment, CreateError>
    requires Parsed(a)
  {
    if !HttpBases(a) then Err(BaseNotHttp)
    else if a.signArgs && a.manifest then Err(RedundantSignArgs)
    else match UkiBuilt(tool, a)
         case None => Err(BadKey)
         case Some(uki) =>
           match Stage2Built(tool, a)
           case Err(e) => Err(e)
           case Ok(stage2) => CreateEntries(tool, a, existing, uki, stage2)
  }

  predicate HttpBases(a: CreateArgs) {
    forall i :: 0 <= i < |Bases(a)| ==> "http://" <= Bases(a)[i]
  }

  function UkiBuilt(tool: Tool, a: CreateArgs): Option<Built> {
    BuildPayload(tool.env.scheme, a, "linux.efi", a.uki, PayloadKey(a), Stage1Uki)
  }

  function Stage2Built(tool: Tool, a: CreateArgs): Result<Built, CreateError>
    requires Parsed(a)
  {
    match BuildPayload(tool.env.scheme, a, "stage2", a.stage2, PayloadKey(a), Stage2Payload)
    case None => Err(BadKey)
    case Some(b) => AttachArgs(tool, a, b)
  }

  function CreateEntries(tool: Tool, a: CreateArgs, existing: Option<Bytes>, uki: Built, stage2: Built)
    : Result<Deployment, CreateError>
    requires Parsed(a)
  {
    match (Wrap(tool, a, STAGE1, "linux.efi", uki, Stage1Manifest),
           Wrap(tool, a, STAGE2, "stage2", stage2, Stage2Manifest))
    case (Some(u), Some(s)) =>
      if Validate(u.entry, Stage0).Err? then Err(Stage1Invalid(Validate(u.entry, Stage0).error))
      else if Validate(s.entry, Stage1).Err? then Err(Stage2Invalid(Validate(s.entry, Stage1).error))
      else
        (match MergeUserData(tool.env, existing, a.arch, u.entry, s.entry)
         case Err(e) => Err(e)
         case Ok(doc) => Ok(Deployment(doc, u.files + s.files)))
    case _ => Err(BadKey)
  }

  // ---- What is emitted ----

  /** The parts of a deployment, one for each stage. */
  predicate Parts(tool: Tool, a: CreateArgs, uki: Built, u: Wrapped, stage2: Built, s: Wrapped)
    requires Parsed(a)
  {
    && UkiBuilt(tool, a) == Some(uki) && Wrap(tool, a, STAGE1, "linux.efi", uki, Stage1Manifest) == Some(u)
    && Stage2Built(tool, a) == Ok(stage2) && Wrap(tool, a, STAGE2, "stage2", stage2, Stage2Manifest) == Some(s)
  }

  lemma CreateParts(tool: Tool, a: CreateArgs, existing: Option<Bytes>, d: Deployment)
    returns (uki: Built, u: Wrapped, stage2: Built, s: Wrapped)
    requires Parsed(a) && Create(tool, a, existing) == Ok(d)
    ensures Parts(tool, a, uki, u, stage2, s)
    ensures Validate(u.entry, Stage0).Ok? && Validate(s.entry, Stage1).Ok?
    ensures MergeUserData(tool.env, existing, a.arch, u.entry, s.entry) == Ok(d.doc) && d.files == u.files + s.files
    ensures HttpBases(a) && !(a.signArgs && a.manifest)
  {
    uki, stage2 := UkiBuilt(tool, a).value, Stage2Built(tool, a).value;
    u := Wrap(tool, a, STAGE1, "linux.efi", uki, Stage1Manifest).value;
    s := Wrap(tool, a, STAGE2, "stage2", stage2, Stage2Manifest).value;
  }

  /** The stage 2 part of a deployment. */
  predicate EmitsStage2(tool: Tool, a: CreateArgs, d: Deployment, stage2: Built, s: Wrapped)
    requires Parsed(a)
  {
    && Stage2Built(tool, a) == Ok(stage2) && Wrap(tool, a, STAGE2, "stage2", stage2, Stage2Manifest) == Some(s)
    && Validate(s.entry, Stage1).Ok? && EntryAt(d.doc, a.arch) == Some(RenderArchConfig(s.entry))
    && forall name :: name in s.files ==> name in d.files && d.files[name] == s.files[name]
  }

  lemma MergeSets(
      env: Env, existing: Option<Bytes>, arch: string, uki: ArchConfig, stage2: ArchConfig)
    requires MergeUserData(env, existing, arch, uki, stage2).Ok?
    ensures var doc := MergeUserData(env, existing, arch, uki, stage2).value;
      && EntryAt(doc, arch) == Some(RenderArchConfig(stage2))
      && Member(doc, STAGE1).Some? && Member(Member(doc, STAGE1).value, arch) == Some(RenderArchConfig(uki))
  {}

  /** Merging into an existing document leaves other keys and other architectures alone. */
  lemma MergeKeeps(
      env: Env, existing: Bytes, arch: string, uki: ArchConfig, stage2: ArchConfig, stageKey: string, key: string)
    requires MergeUserData(env, Some(existing), arch, uki, stage2).Ok?
    ensures env.parse(existing).Some?
    ensures var before, after := env.parse(existing).value, MergeUserData(env, Some(existing), arch, uki, stage2).value;
      && (stageKey != STAGE1 && stageKey != STAGE2 ==> Member(after, stageKey) == Member(before, stageKey))
      && (key != arch ==> ArchAt(after, stageKey, key) == ArchAt(before, stageKey, key))
  {}

  function ArchAt(doc: Json, stageKey: string, arch: string): Option<Json> {
    match Member(doc, stageKey)
    case None => None
    case Some(stage) => Member(stage, arch)
  }

  /** A successful `create` has written a valid stage 2 entry, and the files behind it. */
  lemma CreateEmits(tool: Tool, a: CreateArgs, existing: Option<Bytes>, d: Deployment)
    returns (stage2: Built, s: Wrapped)
    requires Parsed(a) && Create(tool, a, existing) == Ok(d)
    ensures EmitsStage2(tool, a, d, stage2, s) && HttpBases(a) && !(a.signArgs && a.manifest)
  {
    var uki, u, b, w := CreateParts(tool, a, existing, d);
    stage2, s := b, w;
    MergeSets(tool.env, existing, a.arch, u.entry, s.entry);
  }
}
