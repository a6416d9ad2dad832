/** `modify` on a whole document: nested key loops over stages, architectures, variants and URL fields. */
module ModifyDoc {
  import opened Bytes
  import opened Wrappers
  import opened Json
  import opened Metadata
  import opened Fetch
  import opened Resolve
  import opened Deploy
  import opened Modify
  import Signing

  const STAGES := {"_stage1", "_stage2"}
  const VARIANTS := {"payload", "manifest"}
  const URL_FIELDS := {"url", "sig_url", "args_url", "args_sig_url"}

  // ---- Editing some keys of an object ----

  type Edit = Json -> Option<Json>

  /** The values under `keys` edited, all others as they were; nothing if one edit fails. */
  function EditKeys(m: map<string, Json>, keys: set<string>, f: Edit): Option<map<string, Json>> {
    if exists k :: k in keys && k in m && f(m[k]).None? then None
    else Some(map k | k in m :: if k in keys then f(m[k]).value else m[k])
  }

  /** An object edited under `keys`; anything else is passed over. */
  function InFields(keys: set<string>, f: Edit): Edit {
    (j: Json) =>
      if !j.Obj? then Some(j)
      else match EditKeys(j.m, keys, f)
           case None => None
           case Some(m) => Some(Obj(m))
  }

  /** An object edited under every key. */
  function InAll(f: Edit): Edit {
    (j: Json) => if j.Obj? then InFields(j.m.Keys, f)(j) else Some(j)
  }

  predicate EditedSoFar(m: map<string, Json>, todo: set<string>, keys: set<string>, f: Edit, now: map<string, Json>) {
    && now.Keys == m.Keys && todo <= keys
    && forall k :: k in m ==> if k in keys && k !in todo then f(m[k]) == Some(now[k]) else now[k] == m[k]
  }

  lemma AllEdited(m: map<string, Json>, keys: set<string>, f: Edit, now: map<string, Json>)
    requires EditedSoFar(m, {}, keys, f, now)
    ensures InFields(keys, f)(Obj(m)) == Some(Obj(now))
  {
    assert EditKeys(m, keys, f).value == now;
  }

  lemma EditFails(m: map<string, Json>, keys: set<string>, f: Edit, k: string)
    requires k in keys && k in m && f(m[k]).None?
    ensures InFields(keys, f)(Obj(m)) == None
  {}

  // ---- The edits of `modify` ----

  function Rewriting(adds: seq<string>, rems: seq<string>): Edit {
    (v: Json) => Rewritten(v, adds, rems)
  }

  function EditingVariant(adds: seq<string>, rems: seq<string>): Edit {
    InFields(URL_FIELDS, Rewriting(adds, rems))
  }

  function EditingEntry(adds: seq<string>, rems: seq<string>): Edit {
    InFields(VARIANTS, EditingVariant(adds, rems))
  }

  function EditingStage(adds: seq<string>, rems: seq<string>): Edit {
    InAll(EditingEntry(adds, rems))
  }

  function Modified(doc: Json, adds: seq<string>, rems: seq<string>): Option<Json> {
    if doc.Obj? then InFields(STAGES, EditingStage(adds, rems))(doc) else None
  }

  function TrimAll(bases: seq<string>): (r: seq<string>)
    ensures |r| == |bases| && forall i :: 0 <= i < |r| ==> r[i] == TrimSlashes(bases[i])
  {
    seq(|bases|, i requires 0 <= i < |bases| => TrimSlashes(bases[i]))
  }

  method ModifyVariant(v: Json, adds: seq<string>, rems: seq<string>) returns (r: Option<Json>)
    ensures r == EditingVariant(adds, rems)(v)
  {
    if !v.Obj? {
      return Some(v);
    }
    var now, todo := v.m, URL_FIELDS;
    while todo != {}
      invariant EditedSoFar(v.m, todo, URL_FIELDS, Rewriting(adds, rems), now)
      decreases |todo|
    {
      var k :| k in todo;
      if k in now {
        var value := RewriteUrls(now[k], adds, rems);
        if value.None? {
          EditFails(v.m, URL_FIELDS, Rewriting(adds, rems), k);
          return None;
        }
        now := now[k := value.value];
      }
      todo := todo - {k};
    }
    AllEdited(v.m, URL_FIELDS, Rewriting(adds, rems), now);
    return Some(Obj(now));
  }

  method ModifyEntry(entry: Json, adds: seq<string>, rems: seq<string>) returns (r: Option<Json>)
    ensures r == EditingEntry(adds, rems)(entry)
  {
    if !entry.Obj? {
      return Some(entry);
    }
    var now, todo := entry.m, VARIANTS;
    while todo != {}
      invariant EditedSoFar(entry.m, todo, VARIANTS, EditingVariant(adds, rems), now)
      decreases |todo|
    {
      var k :| k in todo;
      if k in now {
        var value := ModifyVariant(now[k], adds, rems);
        if value.None? {
          EditFails(entry.m, VARIANTS, EditingVariant(adds, rems), k);
          return None;
        }
        now := now[k := value.value];
      }
      todo := todo - {k};
    }
    AllEdited(entry.m, VARIANTS, EditingVariant(adds, rems), now);
    return Some(Obj(now));
  }

  method ModifyStage(stage: Json, adds: seq<string>, rems: seq<string>) returns (r: Option<Json>)
    ensures r == EditingStage(adds, rems)(stage)
  {
    if !stage.Obj? {
      return Some(stage);
    }
    var now, todo := stage.m, stage.m.Keys;
    while todo != {}
      invariant EditedSoFar(stage.m, todo, stage.m.Keys, EditingEntry(adds, rems), now)
      decreases |todo|
    {
      var k :| k in todo;
      var value := ModifyEntry(now[k], adds, rems);
      if value.None? {
        EditFails(stage.m, stage.m.Keys, EditingEntry(adds, rems), k);
        return None;
      }
      now := now[k := value.value];
      todo := todo - {k};
    }
    AllEdited(stage.m, stage.m.Keys, EditingEntry(adds, rems), now);
    return Some(Obj(now));
  }

  /** The command: trims the bases, then edits every URL field of both stages. */
  method ModifyUserData(doc: Json, addBases: seq<string>, removeBases: seq<string>) returns (r: Option<Json>)
    ensures r == Modified(doc, TrimAll(addBases), TrimAll(removeBases))
  {
    var adds, rems := TrimAll(addBases), TrimAll(removeBases);
    if !doc.Obj? {
      return None;
    }
    var now, todo := doc.m, STAGES;
    while todo != {}
      invariant EditedSoFar(doc.m, todo, STAGES, EditingStage(adds, rems), now)
      decreases |todo|
    {
      var k :| k in todo;
      if k in now {
        var value := ModifyStage(now[k], adds, rems);
        if value.None? {
          EditFails(doc.m, STAGES, EditingStage(adds, rems), k);
          return None;
        }
        now := now[k := value.value];
      }
      todo := todo - {k};
    }
    AllEdited(doc.m, STAGES, EditingStage(adds, rems), now);
    return Some(Obj(now));
  }

  // ---- Against creating afresh ----

  /** One payload written for two lists of bases. */
  predicate Rebased(p: Payload, q: Payload, from: seq<string>, to: seq<string>, arch: string, name: string) {
    && p.url == ComposeUrls(from, arch, name) && q.url == ComposeUrls(to, arch, name)
    && p.sigUrl.None? && p.argsSigUrl.None?
    && (p.argsUrl.None? || p.argsUrl == Some(ComposeUrls(from, arch, "args.json")))
    && q == p.(url := q.url, argsUrl := if p.argsUrl.None? then None else Some(ComposeUrls(to, arch, "args.json")))
  }

  /** The first base begins with a scheme, as those of `create` do. */
  predicate SchemeFirst(bases: seq<string>) {
    |bases| > 0 && SchemeLength(bases[0]) > 0
  }

  /** The first base is a scheme and a host; the others, and all additions and removals, are free. */
  predicate PlainFirst(bases: seq<string>) {
    |bases| > 0 && HostOnly(bases[0])
  }

  /** What is added for each addition: it, followed by the path of the first base. */
  function Carried(bases: seq<string>, adds: seq<string>): seq<string> {
    if bases == [] then adds else Suffixed(adds, UrlPath(bases[0]))
  }

  /** The bases after the modification, which are the same for every file of the architecture. */
  function Left(bases: seq<string>, adds: seq<string>, rems: seq<string>, arch: string): seq<string> {
    Remaining(bases, Carried(bases, adds), rems, arch, "linux.efi")
  }

  /** If the first base has no path, those are the survivors followed by the additions themselves. */
  lemma PlainLeft(bases: seq<string>, adds: seq<string>, rems: seq<string>, arch: string)
    requires PlainFirst(bases)
    ensures Left(bases, adds, rems, arch) == Remaining(bases, adds, rems, arch, "linux.efi")
  {
    SuffixedNothing(adds);
  }

  lemma LeftFor(bases: seq<string>, adds: seq<string>, rems: seq<string>, arch: string, name: string)
    requires SchemeFirst(bases) && '/' !in name
    ensures Rewritten(RenderUrls(ComposeUrls(bases, arch, name)), adds, rems)
      == Some(RenderUrls(ComposeUrls(Left(bases, adds, rems, arch), arch, name)))
  {
    RenderedList(ComposeUrls(bases, arch, name));
    RewriteComposed(bases, adds, rems, arch, name);
    SameSurvivors(bases, rems, arch, name, "linux.efi");
  }

  /** Editing the URL fields of `m` makes `n` of it. */
  predicate EditsMap(m: map<string, Json>, n: map<string, Json>, f: Edit) {
    EditedSoFar(m, {}, URL_FIELDS, f, n)
  }

  predicate EditsField(key: string, x: Option<Json>, y: Option<Json>, f: Edit) {
    if key in URL_FIELDS && x.Some? then y.Some? && f(x.value) == y else y == x
  }

  lemma WithEdits(
      m: map<string, Json>, n: map<string, Json>, key: string, x: Option<Json>, y: Option<Json>, f: Edit)
    requires EditsMap(m, n, f) && EditsField(key, x, y, f)
    ensures EditsMap(With(m, key, x), With(n, key, y), f)
  {}

  lemma UrlEdits(x: Json, y: Json, f: Edit)
    requires f(x) == Some(y)
    ensures EditsMap(map["url" := x], map["url" := y], f)
  {}

  lemma Kept(key: string, x: Option<Json>, f: Edit)
    requires key == "sha256" || key == "ed25519" || key == "args" || x.None?
    ensures EditsField(key, x, x, f)
  {}

  lemma EditsPayload(
      p: Payload, q: Payload, bases: seq<string>, adds: seq<string>, rems: seq<string>, arch: string, name: string)
    requires SchemeFirst(bases) && '/' !in name && Rebased(p, q, bases, Left(bases, adds, rems, arch), arch, name)
    ensures EditingVariant(adds, rems)(RenderPayload(p)) == Some(RenderPayload(q))
  {
    LeftFor(bases, adds, rems, arch, name);
    LeftFor(bases, adds, rems, arch, "args.json");
    EditsFields(p, q, Rewriting(adds, rems));
    AllEdited(RenderPayload(p).m, URL_FIELDS, Rewriting(adds, rems), RenderPayload(q).m);
  }

  lemma EditsFields(p: Payload, q: Payload, f: Edit)
    requires f(RenderUrls(p.url)) == Some(RenderUrls(q.url))
    requires EditsField("args_url", OptUrls(p.argsUrl), OptUrls(q.argsUrl), f)
    requires p.sigUrl.None? && p.argsSigUrl.None? && p == q.(url := p.url, argsUrl := p.argsUrl)
    ensures EditsMap(RenderPayload(p).m, RenderPayload(q).m, f)
  {
    var m, n := map["url" := RenderUrls(p.url)], map["url" := RenderUrls(q.url)];
    UrlEdits(RenderUrls(p.url), RenderUrls(q.url), f);
    Kept("sha256", OptStr(p.sha256), f);
    WithEdits(m, n, "sha256", OptStr(p.sha256), OptStr(p.sha256), f);
    var m1, n1 := With(m, "sha256", OptStr(p.sha256)), With(n, "sha256", OptStr(p.sha256));
    Kept("ed25519", OptStr(p.ed25519), f);
    WithEdits(m1, n1, "ed25519", OptStr(p.ed25519), OptStr(p.ed25519), f);
    var m2, n2 := With(m1, "ed25519", OptStr(p.ed25519)), With(n1, "ed25519", OptStr(p.ed25519));
    Kept("args", OptStrings(p.args), f);
    WithEdits(m2, n2, "args", OptStrings(p.args), OptStrings(p.args), f);
    var m3, n3 := With(m2, "args", OptStrings(p.args)), With(n2, "args", OptStrings(p.args));
    WithEdits(m3, n3, "args_url", OptUrls(p.argsUrl), OptUrls(q.argsUrl), f);
  }

  lemma EditsPointer(
      p: ManifestRef, q: ManifestRef, bases: seq<string>, adds: seq<string>, rems: seq<string>,
      arch: string, name: string)
    requires SchemeFirst(bases) && '/' !in name && p.sigUrl.None? && p.sha256.None?
    requires p.url == ComposeUrls(bases, arch, name)
    requires q == p.(url := ComposeUrls(Left(bases, adds, rems, arch), arch, name))
    ensures EditingVariant(adds, rems)(RenderManifest(p)) == Some(RenderManifest(q))
  {
    var f, key := Rewriting(adds, rems), Some(Str(p.ed25519));
    LeftFor(bases, adds, rems, arch, name);
    UrlEdits(RenderUrls(p.url), RenderUrls(q.url), f);
    Kept("ed25519", key, f);
    WithEdits(map["url" := RenderUrls(p.url)], map["url" := RenderUrls(q.url)], "ed25519", key, key, f);
    PointerMap(p);
    PointerMap(q);
    AllEdited(RenderManifest(p).m, URL_FIELDS, f, RenderManifest(q).m);
  }

  lemma PointerMap(p: ManifestRef)
    requires p.sigUrl.None? && p.sha256.None?
    ensures RenderManifest(p).m == With(map["url" := RenderUrls(p.url)], "ed25519", Some(Str(p.ed25519)))
  {}

  /** Two entries of which editing makes one from the other. */
  ghost predicate EditsTo(x: ArchConfig, y: ArchConfig, adds: seq<string>, rems: seq<string>) {
    EditingEntry(adds, rems)(RenderArchConfig(x)) == Some(RenderArchConfig(y))
  }

  lemma EditsVariant(key: string, v: Json, w: Json, adds: seq<string>, rems: seq<string>)
    requires key in VARIANTS && EditingVariant(adds, rems)(v) == Some(w)
    ensures EditingEntry(adds, rems)(Obj(map[key := v])) == Some(Obj(map[key := w]))
  {
    AllEdited(map[key := v], VARIANTS, EditingVariant(adds, rems), map[key := w]);
  }

  function Rebasing(a: CreateArgs, adds: seq<string>, rems: seq<string>): CreateArgs {
    a.(baseUrls := Left(Bases(a), adds, rems, a.arch))
  }

  // ---- Trimmed bases stay as they are ----

  lemma {:induction false} TrimTwice(base: string)
    ensures TrimSlashes(TrimSlashes(base)) == TrimSlashes(base)
    decreases |base|
  {
    if base != "" && base[|base| - 1] == '/' {
      TrimTwice(base[..|base| - 1]);
    }
  }

  predicate AllTrimmed(bases: seq<string>) {
    forall b :: b in bases ==> TrimSlashes(b) == b
  }

  lemma {:induction false} TrimShorter(base: string)
    ensures |TrimSlashes(base)| <= |base|
    decreases |base|
  {
    if base != "" && base[|base| - 1] == '/' {
      TrimShorter(base[..|base| - 1]);
    }
  }

  lemma {:induction false} TrimmedIff(base: string)
    ensures TrimSlashes(base) == base <==> base == "" || base[|base| - 1] != '/'
  {
    if base != "" && base[|base| - 1] == '/' {
      TrimShorter(base[..|base| - 1]);
    }
  }

  lemma CarriedTrimmed(bases: seq<string>, adds: seq<string>)
    requires AllTrimmed(bases) && AllTrimmed(adds)
    ensures AllTrimmed(Carried(bases, adds))
  {
    if bases != [] {
      var path := UrlPath(bases[0]);
      assert bases[0] in bases;
      TrimmedIff(bases[0]);
      forall i | 0 <= i < |adds| ensures TrimSlashes(adds[i] + path) == adds[i] + path {
        assert adds[i] in adds;
        TrimmedIff(adds[i]);
        TrimmedIff(adds[i] + path);
      }
    }
  }

  lemma LeftTrimmed(bases: seq<string>, adds: seq<string>, rems: seq<string>, arch: string)
    requires AllTrimmed(bases) && AllTrimmed(adds)
    ensures AllTrimmed(Left(bases, adds, rems, arch))
  {
    CarriedTrimmed(bases, adds);
    SurvivorsMean(bases, rems, arch, "linux.efi", |bases|);
    var more := AppendNewShape(Survivors(bases, rems, arch, "linux.efi"), Carried(bases, adds));
  }

  lemma BasesTrimmed(a: CreateArgs)
    ensures AllTrimmed(Bases(a))
  {
    forall i | 0 <= i < |a.baseUrls| ensures TrimSlashes(Bases(a)[i]) == Bases(a)[i] {
      TrimTwice(a.baseUrls[i]);
    }
  }

  lemma RebasedBases(a: CreateArgs, adds: seq<string>, rems: seq<string>)
    requires AllTrimmed(adds)
    ensures Bases(Rebasing(a, adds, rems)) == Left(Bases(a), adds, rems, a.arch)
  {
    BasesTrimmed(a);
    LeftTrimmed(Bases(a), adds, rems, a.arch);
    var b := Rebasing(a, adds, rems);
    forall i | 0 <= i < |b.baseUrls| ensures Bases(b)[i] == b.baseUrls[i] {
      assert b.baseUrls[i] in b.baseUrls;
    }
  }

  // ---- The pieces of `create` under new bases ----

  predicate SameBut(a: CreateArgs, b: CreateArgs) {
    b == a.(baseUrls := b.baseUrls)
  }

  lemma BuildRebases(
      c: Signing.Scheme, a: CreateArgs, b: CreateArgs, name: string, data: Bytes, key: Option<string>,
      d: Signing.Domain, x: Built, y: Built)
    requires SameBut(a, b)
    requires BuildPayload(c, a, name, data, key, d) == Some(x) && BuildPayload(c, b, name, data, key, d) == Some(y)
    ensures Rebased(x.payload, y.payload, Bases(a), Bases(b), a.arch, name)
    ensures x.payload.argsUrl.None? && x.payload.args.None?
  {}

  lemma AttachRebases(
      tool: Tool, a: CreateArgs, b: CreateArgs, name: string, x: Built, y: Built, x': Built, y': Built)
    requires SameBut(a, b) && (a.signArgs ==> a.key.Some?)
    requires Rebased(x.payload, y.payload, Bases(a), Bases(b), a.arch, name) && x.payload.argsUrl.None?
    requires AttachArgs(tool, a, x) == Ok(x') && AttachArgs(tool, b, y) == Ok(y')
    ensures Rebased(x'.payload, y'.payload, Bases(a), Bases(b), a.arch, name)
  {}

  lemma WrapEdits(
      tool: Tool, a: CreateArgs, b: CreateArgs, stageKey: string, name: string, x: Built, y: Built,
      d: Signing.Domain, u: Wrapped, v: Wrapped, adds: seq<string>, rems: seq<string>)
    requires SameBut(a, b) && Bases(b) == Left(Bases(a), adds, rems, a.arch) && SchemeFirst(Bases(a))
    requires '/' !in name && (a.manifest ==> a.key.Some?)
    requires Rebased(x.payload, y.payload, Bases(a), Bases(b), a.arch, name)
    requires Wrap(tool, a, stageKey, name, x, d) == Some(u) && Wrap(tool, b, stageKey, name, y, d) == Some(v)
    ensures EditsTo(u.entry, v.entry, adds, rems)
  {
    if a.manifest {
      var p, q := u.entry.entry.manifest, v.entry.entry.manifest;
      assert '/' !in name + ".manifest.json";
      EditsPointer(p, q, Bases(a), adds, rems, a.arch, name + ".manifest.json");
      EditsVariant("manifest", RenderManifest(p), RenderManifest(q), adds, rems);
    } else {
      EditsPayload(x.payload, y.payload, Bases(a), adds, rems, a.arch, name);
      EditsVariant("payload", RenderPayload(x.payload), RenderPayload(y.payload), adds, rems);
    }
  }

  // ---- Whole documents ----

  /** A value changed under a key, on both sides of an edit. */
  lemma EditUpdated(
      m: map<string, Json>, n: map<string, Json>, keys: set<string>, f: Edit, key: string, v: Json, w: Json)
    requires InFields(keys, f)(Obj(m)) == Some(Obj(n)) && key in keys && f(v) == Some(w)
    ensures InFields(keys, f)(Obj(m[key := v])) == Some(Obj(n[key := w]))
  {
    AllEdited(m[key := v], keys, f, n[key := w]);
  }

  /** The same where every key is edited. */
  lemma EditAdded(m: map<string, Json>, n: map<string, Json>, f: Edit, key: string, v: Json, w: Json)
    requires InAll(f)(Obj(m)) == Some(Obj(n)) && f(v) == Some(w)
    ensures InAll(f)(Obj(m[key := v])) == Some(Obj(n[key := w]))
  {
    assert InFields(m.Keys, f)(Obj(m)) == Some(Obj(n));
    assert m[key := v].Keys == m.Keys + {key};
    AllEdited(m[key := v], m.Keys + {key}, f, n[key := w]);
  }

  /** Setting an entry and then editing is editing and then setting the edited entry. */
  lemma SetArchEdits(
      m: map<string, Json>, n: map<string, Json>, stageKey: string, arch: string, v: Json, w: Json, f: Edit)
    requires stageKey in STAGES && InFields(STAGES, InAll(f))(Obj(m)) == Some(Obj(n)) && f(v) == Some(w)
    requires SetArch(m, stageKey, arch, v).Some?
    ensures SetArch(n, stageKey, arch, w).Some?
    ensures InFields(STAGES, InAll(f))(Obj(SetArch(m, stageKey, arch, v).value))
      == Some(Obj(SetArch(n, stageKey, arch, w).value))
  {
    StageEdits(m, n, stageKey, InAll(f));
    if stageKey in m {
      AllKeepsObjects(f, m[stageKey], n[stageKey]);
      EditAdded(m[stageKey].m, n[stageKey].m, f, arch, v, w);
      EditUpdated(m, n, STAGES, InAll(f), stageKey, Obj(m[stageKey].m[arch := v]), Obj(n[stageKey].m[arch := w]));
    } else {
      OneEdits(f, arch, v, w);
      EditUpdated(m, n, STAGES, InAll(f), stageKey, Obj(map[arch := v]), Obj(map[arch := w]));
    }
  }

  lemma AllKeepsObjects(f: Edit, v: Json, w: Json)
    requires v.Obj? && InAll(f)(v) == Some(w)
    ensures w.Obj?
  {
    assert InFields(v.m.Keys, f)(v) == Some(w);
  }

  lemma OneEdits(f: Edit, key: string, v: Json, w: Json)
    requires f(v) == Some(w)
    ensures InAll(f)(Obj(map[key := v])) == Some(Obj(map[key := w]))
  {
    assert map[key := v].Keys == {key};
    AllEdited(map[key := v], {key}, f, map[key := w]);
  }

  lemma StageEdits(m: map<string, Json>, n: map<string, Json>, stageKey: string, f: Edit)
    requires stageKey in STAGES && InFields(STAGES, f)(Obj(m)) == Some(Obj(n))
    ensures m.Keys == n.Keys && (stageKey in m ==> f(m[stageKey]) == Some(n[stageKey]))
  {}

  lemma BothEdit(
      m: map<string, Json>, n: map<string, Json>, arch: string, u: Json, v: Json, s: Json, t: Json, f: Edit)
    requires InFields(STAGES, InAll(f))(Obj(m)) == Some(Obj(n)) && f(u) == Some(v) && f(s) == Some(t)
    requires SetStages(m, arch, u, s).Some?
    ensures SetStages(n, arch, v, t).Some?
    ensures InFields(STAGES, InAll(f))(Obj(SetStages(m, arch, u, s).value)) == Some(Obj(SetStages(n, arch, v, t).value))
  {
    SetArchEdits(m, n, STAGE1, arch, u, v, f);
    SetArchEdits(SetArch(m, STAGE1, arch, u).value, SetArch(n, STAGE1, arch, v).value, STAGE2, arch, s, t, f);
  }

  lemma MergeIsSet(env: Env, existing: Option<Bytes>, arch: string, u: ArchConfig, s: ArchConfig, v: Json, t: Json)
    requires v == RenderArchConfig(u) && t == RenderArchConfig(s) && ExistingDoc(env, existing).Some?
    ensures MergeUserData(env, existing, arch, u, s).Ok?
      <==> ExistingDoc(env, existing).value.Obj? && SetStages(ExistingDoc(env, existing).value.m, arch, v, t).Some?
    ensures MergeUserData(env, existing, arch, u, s).Ok? ==>
      MergeUserData(env, existing, arch, u, s).value
        == Obj(SetStages(ExistingDoc(env, existing).value.m, arch, v, t).value)
  {}

  lemma ModifiedObject(doc: Json, edited: Json, adds: seq<string>, rems: seq<string>)
    requires Modified(doc, adds, rems) == Some(edited)
    ensures doc.Obj? && edited.Obj?
    ensures InFields(STAGES, InAll(EditingEntry(adds, rems)))(Obj(doc.m)) == Some(Obj(edited.m))
  {}

  lemma MergeEdits(
      env: Env, existing: Option<Bytes>, edited: Option<Bytes>, arch: string, u: ArchConfig, v: ArchConfig,
      s: ArchConfig, t: ArchConfig, adds: seq<string>, rems: seq<string>)
    requires EditsTo(u, v, adds, rems) && EditsTo(s, t, adds, rems)
    requires MergeUserData(env, existing, arch, u, s).Ok? && ExistingDoc(env, edited).Some?
    requires Modified(ExistingDoc(env, existing).value, adds, rems) == ExistingDoc(env, edited)
    ensures MergeUserData(env, edited, arch, v, t).Ok?
    ensures Modified(MergeUserData(env, existing, arch, u, s).value, adds, rems)
      == Some(MergeUserData(env, edited, arch, v, t).value)
  {
    var a, b, c, d := RenderArchConfig(u), RenderArchConfig(v), RenderArchConfig(s), RenderArchConfig(t);
    var doc, out := ExistingDoc(env, existing).value, ExistingDoc(env, edited).value;
    ModifiedObject(doc, out, adds, rems);
    MergeIsSet(env, existing, arch, u, s, a, c);
    MergeIsSet(env, edited, arch, v, t, b, d);
    BothEdit(doc.m, out.m, arch, a, b, c, d, EditingEntry(adds, rems));
  }

  lemma AddsTrimmed(addBases: seq<string>)
    ensures AllTrimmed(TrimAll(addBases))
  {
    forall i | 0 <= i < |addBases| ensures TrimSlashes(TrimAll(addBases)[i]) == TrimAll(addBases)[i] {
      TrimTwice(addBases[i]);
    }
  }

  /** The first base of a command line that succeeds has a scheme. */
  lemma CreatedSchemeFirst(tool: Tool, a: CreateArgs, existing: Option<Bytes>)
    requires Parsed(a) && Create(tool, a, existing).Ok?
    ensures SchemeFirst(Bases(a))
  {
    var uki, u, stage2, s := CreateParts(tool, a, existing, Create(tool, a, existing).value);
    assert "http://" <= Bases(a)[0];
  }

  /**
   * Modifying an emitted document gives the document that `create` emits for the remaining bases into the
   * modified existing document: whatever the mode, the bases, the additions, the removals and the existing
   * document. Remaining are the bases that survive, then the additions, each followed by the first base's path.
   */
  lemma ModifyCreated(
      tool: Tool, a: CreateArgs, existing: Option<Bytes>, d: Deployment, edited: Option<Bytes>, e: Deployment,
      addBases: seq<string>, removeBases: seq<string>)
    requires Parsed(a) && Create(tool, a, existing) == Ok(d)
    requires ExistingDoc(tool.env, existing).Some? && ExistingDoc(tool.env, edited).Some?
    requires var adds, rems := TrimAll(addBases), TrimAll(removeBases);
      && Modified(ExistingDoc(tool.env, existing).value, adds, rems) == ExistingDoc(tool.env, edited)
      && Parsed(Rebasing(a, adds, rems)) && Create(tool, Rebasing(a, adds, rems), edited) == Ok(e)
    ensures Modified(d.doc, TrimAll(addBases), TrimAll(removeBases)) == Some(e.doc)
  {
    var adds, rems := TrimAll(addBases), TrimAll(removeBases);
    var b := Rebasing(a, adds, rems);
    CreatedSchemeFirst(tool, a, existing);
    AddsTrimmed(addBases);
    RebasedBases(a, adds, rems);
    var x, u, x', s := CreateParts(tool, a, existing, d);
    var y, v, y', t := CreateParts(tool, b, edited, e);
    Part1Edits(tool, a, b, x, y, u, v, adds, rems);
    Part2Edits(tool, a, b, x', y', s, t, adds, rems);
    MergeEdits(tool.env, existing, edited, a.arch, u.entry, v.entry, s.entry, t.entry, adds, rems);
  }

  /** Into a fresh document, with nothing to modify before. */
  lemma ModifyCreatedFresh(
      tool: Tool, a: CreateArgs, d: Deployment, e: Deployment, addBases: seq<string>, removeBases: seq<string>)
    requires Parsed(a) && Create(tool, a, None) == Ok(d)
    requires var b := Rebasing(a, TrimAll(addBases), TrimAll(removeBases));
      Parsed(b) && Create(tool, b, None) == Ok(e)
    ensures Modified(d.doc, TrimAll(addBases), TrimAll(removeBases)) == Some(e.doc)
  {
    AllEdited(map[], STAGES, EditingStage(TrimAll(addBases), TrimAll(removeBases)), map[]);
    ModifyCreated(tool, a, None, d, None, e, addBases, removeBases);
  }

  lemma Part1Edits(
      tool: Tool, a: CreateArgs, b: CreateArgs, x: Built, y: Built, u: Wrapped, v: Wrapped,
      adds: seq<string>, rems: seq<string>)
    requires Parsed(a) && Parsed(b) && SameBut(a, b)
    requires Bases(b) == Left(Bases(a), adds, rems, a.arch) && SchemeFirst(Bases(a))
    requires UkiBuilt(tool, a) == Some(x) && Wrap(tool, a, STAGE1, "linux.efi", x, Signing.Stage1Manifest) == Some(u)
    requires UkiBuilt(tool, b) == Some(y) && Wrap(tool, b, STAGE1, "linux.efi", y, Signing.Stage1Manifest) == Some(v)
    ensures EditsTo(u.entry, v.entry, adds, rems)
  {
    BuildRebases(tool.env.scheme, a, b, "linux.efi", a.uki, PayloadKey(a), Signing.Stage1Uki, x, y);
    WrapEdits(tool, a, b, STAGE1, "linux.efi", x, y, Signing.Stage1Manifest, u, v, adds, rems);
  }

  lemma Stage2Rebases(tool: Tool, a: CreateArgs, b: CreateArgs, x: Built, y: Built)
    requires Parsed(a) && Parsed(b) && SameBut(a, b) && Stage2Built(tool, a) == Ok(x) && Stage2Built(tool, b) == Ok(y)
    ensures Rebased(x.payload, y.payload, Bases(a), Bases(b), a.arch, "stage2")
  {
    var c, key := tool.env.scheme, PayloadKey(a);
    var bare := BuildPayload(c, a, "stage2", a.stage2, key, Signing.Stage2Payload).value;
    var bare' := BuildPayload(c, b, "stage2", b.stage2, key, Signing.Stage2Payload).value;
    BuildRebases(c, a, b, "stage2", a.stage2, key, Signing.Stage2Payload, bare, bare');
    AttachRebases(tool, a, b, "stage2", bare, bare', x, y);
  }

  lemma Part2Edits(
      tool: Tool, a: CreateArgs, b: CreateArgs, x: Built, y: Built, s: Wrapped, t: Wrapped,
      adds: seq<string>, rems: seq<string>)
    requires Parsed(a) && Parsed(b) && SameBut(a, b)
    requires Bases(b) == Left(Bases(a), adds, rems, a.arch) && SchemeFirst(Bases(a))
    requires Stage2Built(tool, a) == Ok(x) && Wrap(tool, a, STAGE2, "stage2", x, Signing.Stage2Manifest) == Some(s)
    requires Stage2Built(tool, b) == Ok(y) && Wrap(tool, b, STAGE2, "stage2", y, Signing.Stage2Manifest) == Some(t)
    ensures EditsTo(s.entry, t.entry, adds, rems)
  {
    Stage2Rebases(tool, a, b, x, y);
    WrapEdits(tool, a, b, STAGE2, "stage2", x, y, Signing.Stage2Manifest, s, t, adds, rems);
  }
}
