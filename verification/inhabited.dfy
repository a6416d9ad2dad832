/** The hypotheses of the end-to-end theorems can be met together, in every mode: worlds in which they hold. */
module Inhabited {
  import opened Bytes
  import opened Wrappers
  import opened Json
  import opened Metadata
  import opened Fetch
  import opened Resolve
  import opened Signing
  import opened Deploy
  import opened EndToEnd
  import opened CreateSucceeds
  import opened HonestMirrors

  // ---- A small tool ----

  /** The digest of a byte string is its length. */
  function Length32(b: Bytes): Digest {
    [|b| % 256] + Zeros(31)
  }

  /** The signature of a preimage is the preimage. */
  function Sealed(m: Bytes): Signature {
    if |m| == 64 then m else Zeros(64)
  }

  function SmallScheme(): Scheme {
    Scheme((b: Bytes) => Length32(b), (s: Seed) => s, (s: Seed, m: Bytes) => Sealed(m),
           (k: PublicKey, m: Bytes, s: Signature) => s == Sealed(m))
  }

  lemma SmallAgrees()
    ensures SignVerifyAgree(SmallScheme())
  {}

  const ARGS_TEXT: Bytes := [1]
  const FRAGMENT_TEXT: Bytes := [2]
  const OTHER_TEXT: Bytes := [3]
  const FIRST_TEXT: Bytes := [4]
  const DOC_TEXT: Bytes := [5]

  function WriteArgs(j: Json): Bytes {
    ARGS_TEXT
  }

  /** Tells the fragments of the first architecture from others. */
  function WriteFragment(first: string): Json -> Bytes {
    (j: Json) => if EntryAt(j, first).Some? then FRAGMENT_TEXT else OTHER_TEXT
  }

  function FragmentText(first: string, arch: string): Bytes {
    if arch == first then FRAGMENT_TEXT else OTHER_TEXT
  }

  lemma FragmentWrites(first: string, arch: string, p: Payload)
    ensures WriteFragment(first)(Fragment(STAGE2, arch, p)) == FragmentText(first, arch)
  {}

  /** A text layer that knows a few texts. */
  type Texts = map<Bytes, Json>

  function Reading(texts: Texts): Bytes -> Option<Json> {
    (b: Bytes) => if b in texts then Some(texts[b]) else None
  }

  function SmallTool(first: string, texts: Texts): Tool {
    Tool(Env(first, SmallScheme(), Reading(texts), WriteArgs, (m: map<string, Json>) => true), WriteFragment(first))
  }

  // ---- One mirror ----

  /** The files of each architecture, under one base. */
  type Directories = map<string, Files>

  ghost predicate Names(base: string, dirs: Directories, url: string, arch: string, name: string) {
    arch in dirs && name in dirs[arch] && url == Located(base, arch, name)
  }

  /** The file that a URL names, if it names one. */
  ghost function FileAt(base: string, dirs: Directories, url: string): (r: Option<Bytes>)
    ensures r.None? ==> forall arch, name :: !Names(base, dirs, url, arch, name)
    ensures r.Some? ==> exists arch, name :: Names(base, dirs, url, arch, name) && r.value == dirs[arch][name]
  {
    if exists arch, name :: Names(base, dirs, url, arch, name) then
      var arch, name :| Names(base, dirs, url, arch, name);
      Some(dirs[arch][name])
    else None
  }

  ghost function Mirror(base: string, dirs: Directories): Net {
    (now: nat, url: string) => FileAt(base, dirs, url)
  }

  lemma SameFile(base: string, x: string, y: string, m: string, n: string)
    requires '/' !in x && '/' !in y && Located(base, x, m) == Located(base, y, n)
    ensures x == y && m == n
  {
    var root := base + "/";
    var u, v := x + ("/" + m), y + ("/" + n);
    assert Located(base, x, m) == root + u && Located(base, y, n) == root + v;
    assert u == v by {
      assert (root + u)[|root|..] == u && (root + v)[|root|..] == v;
    }
    assert u[|x|] == '/' && v[|y|] == '/';
    assert forall i :: 0 <= i < |x| ==> u[i] == x[i] != '/';
    assert forall i :: 0 <= i < |y| ==> v[i] == y[i] != '/';
    assert x == u[..|x|] && y == v[..|y|];
    assert m == u[|x| + 1..] && n == v[|y| + 1..];
  }

  lemma MirrorHosts(base: string, dirs: Directories, arch: string)
    requires arch in dirs && forall x :: x in dirs ==> '/' !in x
    ensures Hosts(Mirror(base, dirs), base, arch, dirs[arch])
  {
    forall name, now: nat | name in dirs[arch]
      ensures Mirror(base, dirs)(now, Located(base, arch, name)) == Some(dirs[arch][name])
    {
      var url := Located(base, arch, name);
      assert Names(base, dirs, url, arch, name);
      assert FileAt(base, dirs, url).Some?;
      var x, n :| Names(base, dirs, url, x, n) && FileAt(base, dirs, url).value == dirs[x][n];
      SameFile(base, arch, x, name, n);
    }
  }

  // ---- One command line ----

  /** A base as `create` takes it, and no placeholder in it; an architecture that is one directory. */
  predicate OneBase(a: CreateArgs, base: string) {
    && a.baseUrls == [base] && TrimSlashes(base) == base && OkUrl(base, false) && '{' !in base
    && IsGraphic(a.arch) && '{' !in a.arch && '/' !in a.arch
  }

  lemma OneBases(a: CreateArgs, base: string)
    requires OneBase(a, base)
    ensures Bases(a) == [base] && OkBases(a) && Plain(a)
  {}

  /** Where the one base hosts the files, the mirrors are honest. */
  lemma HostingIsHonest(net: Net, a: CreateArgs, base: string, files: Files)
    requires OneBase(a, base) && Hosts(net, base, a.arch, files)
    ensures Honest(net, a, files)
  {
    OneBases(a, base);
  }

  function KeyFile(seed: Option<Seed>): Option<string> {
    if seed.Some? then Some(PemFromSeed(seed.value)) else None
  }

  lemma KeyFileGood(a: CreateArgs, seed: Option<Seed>)
    requires a.key == KeyFile(seed)
    ensures GoodKey(a)
  {
    if seed.Some? {
      KeyFileRoundTrip(seed.value);
    }
  }

  lemma FreshCreates(tool: Tool, a: CreateArgs, seed: Option<Seed>, base: string)
    requires Parsed(a) && OneBase(a, base) && a.key == KeyFile(seed) && !(a.signArgs && a.manifest)
    requires GoodArgs(tool.env, a)
    ensures Create(tool, a, None).Ok?
  {
    OneBases(a, base);
    KeyFileGood(a, seed);
    CreateSucceedsIff(tool, a, None);
  }

  lemma ReadsArgs(env: Env, args: seq<string>)
    requires env.parse(ARGS_TEXT) == Some(RenderStrings(args))
    ensures ParseArgs(env, ARGS_TEXT) == Some(args)
  {
    StringsRoundTrip(args);
  }

  /** What the deployment puts into its signed manifest, if it has one. */
  function SmallFragment(tool: Tool, a: CreateArgs): Json
    requires Parsed(a)
  {
    if Stage2Built(tool, a).Ok? then Fragment(STAGE2, a.arch, Stage2Built(tool, a).value.payload) else Null
  }

  /** The texts of a deployment: its arguments and its fragment. */
  predicate Knows(first: string, texts: Texts, a: CreateArgs, args: seq<string>)
    requires Parsed(a)
  {
    && ARGS_TEXT in texts && texts[ARGS_TEXT] == RenderStrings(args)
    && FragmentText(first, a.arch) in texts
    && texts[FragmentText(first, a.arch)] == SmallFragment(SmallTool(first, texts), a)
  }

  lemma SmallLayer(first: string, texts: Texts, a: CreateArgs, args: seq<string>)
    requires Parsed(a) && (a.args.Some? ==> a.args == Some(ARGS_TEXT)) && Knows(first, texts, a, args)
    ensures TextLayer(SmallTool(first, texts), a)
  {
    var tool := SmallTool(first, texts);
    ReadsArgs(tool.env, args);
    if Stage2Built(tool, a).Ok? {
      FragmentWrites(first, a.arch, Stage2Built(tool, a).value.payload);
    }
  }

  /** One base that hosts the directory, and a small tool: a good world. */
  lemma MirrorIsGood(
      tool: Tool, a: CreateArgs, existing: Option<Bytes>, d: Deployment, w: World, base: string, dirs: Directories)
    requires Parsed(a) && Create(tool, a, existing) == Ok(d) && RunsOn(tool, a, w) && Receives(w, a.arch, d.doc)
    requires OneBase(a, base) && TextLayer(tool, a) && tool.env.scheme == SmallScheme()
    requires w.net == Mirror(base, dirs) && a.arch in dirs && dirs[a.arch] == d.files
    requires forall x :: x in dirs ==> '/' !in x
    ensures GoodWorld(tool, a, d, w, base)
  {
    SmallAgrees();
    OneBases(a, base);
    MirrorHosts(base, dirs, a.arch);
    HostingIsHonest(w.net, a, base, d.files);
    HonestIsGood(tool, a, existing, d, w, base);
  }

  /** A command line of any mode, with one plain base, a generated key if any, and the one text for arguments if any. */
  predicate Small(a: CreateArgs, seed: Option<Seed>, base: string) {
    && Parsed(a) && OneBase(a, base) && a.key == KeyFile(seed) && !(a.signArgs && a.manifest)
    && (a.args.Some? ==> a.args == Some(ARGS_TEXT))
  }

  /** More texts do not change what is created, as long as the same is read. */
  lemma MoreTexts(first: string, some: Texts, more: Texts, a: CreateArgs, existing: Option<Bytes>)
    requires Parsed(a) && (a.args.Some? ==> a.args == Some(ARGS_TEXT))
    requires ARGS_TEXT in some && ARGS_TEXT in more && some[ARGS_TEXT] == more[ARGS_TEXT]
    requires existing.Some? ==>
      existing.value in some && existing.value in more && some[existing.value] == more[existing.value]
    ensures Create(SmallTool(first, some), a, existing) == Create(SmallTool(first, more), a, existing)
    ensures SmallFragment(SmallTool(first, some), a) == SmallFragment(SmallTool(first, more), a)
  {
    var t, u := SmallTool(first, some), SmallTool(first, more);
    assert Alike(t, u, a, existing);
    CreateAlike(t, u, a, existing);
    BuiltAlike(t, u, a, existing);
  }

  /**
   * For every mode, architecture, payload, key, list of arguments and plain base there is a tool with which
   * `create` succeeds, and a world that meets all hypotheses for what it emits.
   */
  lemma GoodWorldExists(a: CreateArgs, seed: Option<Seed>, base: string, args: seq<string>)
    returns (tool: Tool, d: Deployment, w: World)
    requires Small(a, seed, base)
    ensures Create(tool, a, None) == Ok(d) && GoodWorld(tool, a, d, w, base)
    ensures a.args.Some? ==> GivenArgs(tool.env, a) == args
  {
    var few: Texts := map[ARGS_TEXT := RenderStrings(args)];
    ReadsArgs(SmallTool(a.arch, few).env, args);
    FreshCreates(SmallTool(a.arch, few), a, seed, base);
    d := Create(SmallTool(a.arch, few), a, None).value;
    var texts := few[FRAGMENT_TEXT := SmallFragment(SmallTool(a.arch, few), a)][DOC_TEXT := d.doc];
    tool := SmallTool(a.arch, texts);
    MoreTexts(a.arch, few, texts, a, None);
    SmallLayer(a.arch, texts, a, args);
    ReadsArgs(tool.env, args);
    w := World(tool.env, Mirror(base, map[a.arch := d.files]), DOC_TEXT);
    MirrorIsGood(tool, a, None, d, w, base, map[a.arch := d.files]);
  }

  // ---- Two architectures ----

  /** What was created can be merged into. */
  lemma CreatedIsOpen(tool: Tool, a: CreateArgs, existing: Option<Bytes>, d: Deployment)
    requires Parsed(a) && Create(tool, a, existing) == Ok(d)
    ensures d.doc.Obj? && StageOpen(d.doc.m, STAGE1) && StageOpen(d.doc.m, STAGE2)
  {
    var uki, u, stage2, s := CreateParts(tool, a, existing, d);
    MergeSets(tool.env, existing, a.arch, u.entry, s.entry);
  }

  lemma SecondCreates(tool: Tool, e: CreateArgs, text: Bytes, doc: Json, seed: Option<Seed>, base: string)
    requires Parsed(e) && OneBase(e, base) && e.key == KeyFile(seed) && !(e.signArgs && e.manifest)
    requires GoodArgs(tool.env, e) && tool.env.parse(text) == Some(doc)
    requires doc.Obj? && StageOpen(doc.m, STAGE1) && StageOpen(doc.m, STAGE2)
    ensures Create(tool, e, Some(text)).Ok?
  {
    OneBases(e, base);
    KeyFileGood(e, seed);
    CreateSucceedsIff(tool, e, Some(text));
  }

  function FourTexts(args: Json, fragment: Json, other: Json, doc: Json): (texts: Texts)
    ensures ARGS_TEXT in texts && texts[ARGS_TEXT] == args
    ensures FRAGMENT_TEXT in texts && texts[FRAGMENT_TEXT] == fragment
    ensures OTHER_TEXT in texts && texts[OTHER_TEXT] == other
    ensures FIRST_TEXT in texts && texts[FIRST_TEXT] == doc
    ensures DOC_TEXT !in texts
  {
    map[ARGS_TEXT := args, FRAGMENT_TEXT := fragment, OTHER_TEXT := other, FIRST_TEXT := doc]
  }

  lemma KnowsFragment(first: string, few: Texts, texts: Texts, a: CreateArgs, args: seq<string>)
    requires Parsed(a) && (a.args.Some? ==> a.args == Some(ARGS_TEXT))
    requires ARGS_TEXT in few && few[ARGS_TEXT] == RenderStrings(args)
    requires ARGS_TEXT in texts && texts[ARGS_TEXT] == RenderStrings(args) && FragmentText(first, a.arch) in texts
    requires texts[FragmentText(first, a.arch)] == SmallFragment(SmallTool(first, few), a)
    ensures Create(SmallTool(first, texts), a, None) == Create(SmallTool(first, few), a, None)
    ensures Knows(first, texts, a, args)
  {
    MoreTexts(first, few, texts, a, None);
  }

  /** The texts for two deployments, and the document after the first one. */
  lemma FirstTexts(a: CreateArgs, e: CreateArgs, seed: Option<Seed>, base: string, args: seq<string>)
    returns (texts: Texts, d: Deployment)
    requires Small(a, seed, base) && Small(e, seed, base) && a.arch != e.arch
    ensures Create(SmallTool(a.arch, texts), a, None) == Ok(d) && DOC_TEXT !in texts
    ensures Knows(a.arch, texts, a, args) && Knows(a.arch, texts, e, args)
    ensures FIRST_TEXT in texts && texts[FIRST_TEXT] == d.doc
    ensures d.doc.Obj? && StageOpen(d.doc.m, STAGE1) && StageOpen(d.doc.m, STAGE2)
  {
    var few: Texts := map[ARGS_TEXT := RenderStrings(args)];
    var little := SmallTool(a.arch, few);
    ReadsArgs(little.env, args);
    FreshCreates(little, a, seed, base);
    d := Create(little, a, None).value;
    CreatedIsOpen(little, a, None, d);
    texts := FourTexts(RenderStrings(args), SmallFragment(little, a), SmallFragment(little, e), d.doc);
    KnowsFragment(a.arch, few, texts, a, args);
    KnowsFragment(a.arch, few, texts, e, args);
  }

  /** One more text, for the document on the machines, changes nothing either. */
  lemma WithDocText(first: string, some: Texts, doc: Json, a: CreateArgs, existing: Option<Bytes>, args: seq<string>)
    requires Parsed(a) && (a.args.Some? ==> a.args == Some(ARGS_TEXT)) && Knows(first, some, a, args)
    requires existing.Some? ==> existing == Some(FIRST_TEXT) && FIRST_TEXT in some
    ensures var more := some[DOC_TEXT := doc];
      && Create(SmallTool(first, more), a, existing) == Create(SmallTool(first, some), a, existing)
      && TextLayer(SmallTool(first, more), a)
  {
    MoreTexts(first, some, some[DOC_TEXT := doc], a, existing);
    SmallLayer(first, some[DOC_TEXT := doc], a, args);
  }

  /** A tool with which both are created, one after the other, and that reads the final document. */
  lemma BothCreated(a: CreateArgs, e: CreateArgs, seed: Option<Seed>, base: string, args: seq<string>)
    returns (tool: Tool, d: Deployment, both: Deployment)
    requires Small(a, seed, base) && Small(e, seed, base) && a.arch != e.arch
    ensures Create(tool, a, None) == Ok(d) && tool.env.parse(FIRST_TEXT) == Some(d.doc)
    ensures Create(tool, e, Some(FIRST_TEXT)) == Ok(both) && tool.env.parse(DOC_TEXT) == Some(both.doc)
    ensures TextLayer(tool, a) && TextLayer(tool, e) && tool.env.scheme == SmallScheme()
  {
    var some;
    some, d := FirstTexts(a, e, seed, base, args);
    var little := SmallTool(a.arch, some);
    ReadsArgs(little.env, args);
    SecondCreates(little, e, FIRST_TEXT, d.doc, seed, base);
    both := Create(little, e, Some(FIRST_TEXT)).value;
    WithDocText(a.arch, some, both.doc, a, None, args);
    WithDocText(a.arch, some, both.doc, e, Some(FIRST_TEXT), args);
    tool := SmallTool(a.arch, some[DOC_TEXT := both.doc]);
  }

  /** The architecture created first, in the network for both. */
  lemma FirstIsGood(
      tool: Tool, a: CreateArgs, d: Deployment, e: CreateArgs, both: Deployment, net: Net, base: string,
      dirs: Directories)
    requires Parsed(a) && Parsed(e) && a.arch != e.arch && Create(tool, a, None) == Ok(d)
    requires tool.env.parse(FIRST_TEXT) == Some(d.doc) && Create(tool, e, Some(FIRST_TEXT)) == Ok(both)
    requires tool.env.parse(DOC_TEXT) == Some(both.doc) && TextLayer(tool, a) && tool.env.scheme == SmallScheme()
    requires OneBase(a, base) && net == Mirror(base, dirs) && a.arch in dirs && dirs[a.arch] == d.files
    requires forall x :: x in dirs ==> '/' !in x
    ensures GoodWorld(tool, a, Deployment(both.doc, d.files), Machine(tool, a.arch, net, DOC_TEXT), base)
  {
    SecondCreateKeeps(tool, a, d, e, FIRST_TEXT, both);
    MirrorIsGood(tool, a, None, d, Machine(tool, a.arch, net, DOC_TEXT), base, dirs);
  }

  /** The hypotheses for two architectures under one key, with any two payloads and modes, hold in one network. */
  lemma BothArchitecturesExist(a: CreateArgs, e: CreateArgs, seed: Option<Seed>, base: string, args: seq<string>)
    returns (tool: Tool, d: Deployment, both: Deployment, net: Net)
    requires Small(a, seed, base) && Small(e, seed, base) && a.arch != e.arch
    ensures Create(tool, a, None) == Ok(d) && tool.env.parse(FIRST_TEXT) == Some(d.doc)
    ensures Create(tool, e, Some(FIRST_TEXT)) == Ok(both)
    ensures GoodWorld(tool, a, Deployment(both.doc, d.files), Machine(tool, a.arch, net, DOC_TEXT), base)
    ensures GoodWorld(tool, e, both, Machine(tool, e.arch, net, DOC_TEXT), base)
  {
    tool, d, both := BothCreated(a, e, seed, base, args);
    var dirs: Directories := map[a.arch := d.files, e.arch := both.files];
    net := Mirror(base, dirs);
    FirstIsGood(tool, a, d, e, both, net, base, dirs);
    MirrorIsGood(tool, e, Some(FIRST_TEXT), both, Machine(tool, e.arch, net, DOC_TEXT), base, dirs);
  }
}
