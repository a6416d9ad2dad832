/** Resolving a deployment whose mirrors were modified after it was created. */
module ModifyResolve {
  import opened Bytes
  import opened Wrappers
  import opened Json
  import opened Metadata
  import opened Fetch
  import opened Resolve
  import opened Signing
  import opened Deploy
  import opened Modify
  import opened ModifyDoc
  import opened ModifyCreate
  import opened CreateSucceeds
  import opened EndToEnd
  import opened Mirrored
  import ResolveTheorems

  // ---- The edited entry ----

  /** An entry in the document before the modification is there after it, edited. */
  lemma ModifiedEntry(
      doc: Json, edited: Json, arch: string, x: ArchConfig, y: ArchConfig, adds: seq<string>, rems: seq<string>)
    requires Modified(doc, adds, rems) == Some(edited) && Shows(doc, arch, x) && EditsTo(x, y, adds, rems)
    ensures Shows(edited, arch, y)
  {
    var f := EditingEntry(adds, rems);
    ModifiedObject(doc, edited, adds, rems);
    StageEdits(doc.m, edited.m, STAGE2, InAll(f));
    AllEdits(f, doc.m[STAGE2], edited.m[STAGE2], arch);
  }

  lemma AllEdits(f: Edit, v: Json, w: Json, key: string)
    requires v.Obj? && InAll(f)(v) == Some(w) && key in v.m
    ensures w.Obj? && key in w.m && f(v.m[key]) == Some(w.m[key])
  {
    assert InFields(v.m.Keys, f)(v) == Some(w);
  }

  // ---- Which URLs are left ----

  /** Every addition, with the path it gets, composes to an admissible URL. */
  predicate AddsCompose(a: CreateArgs, adds: seq<string>, name: string) {
    forall x :: x in Carried(Bases(a), adds) ==> OkUrl(Located(x, a.arch, name), true)
  }

  lemma LeftOkIff(a: CreateArgs, adds: seq<string>, rems: seq<string>, name: string)
    requires AllTrimmed(adds) && OkList(ComposeUrls(Bases(a), a.arch, name), true)
    requires Bases(Rebasing(a, adds, rems)) != []
    ensures OkList(ComposeUrls(Bases(Rebasing(a, adds, rems)), a.arch, name), true) <==> AddsCompose(a, adds, name)
  {
    var before, left := Bases(a), Left(Bases(a), adds, rems, a.arch);
    var urls := ComposeUrls(left, a.arch, name);
    RebasedBases(a, adds, rems);
    if OkList(urls, true) {
      forall x | x in Carried(before, adds) ensures OkUrl(Located(x, a.arch, name), true) {
        LeftMembers(before, adds, rems, a.arch, x);
        var i :| 0 <= i < |left| && left[i] == x;
        assert OkUrl(urls[i], true);
      }
    }
    if AddsCompose(a, adds, name) {
      forall i | 0 <= i < |left| ensures OkUrl(urls[i], true) {
        LeftMembers(before, adds, rems, a.arch, left[i]);
        if left[i] !in Carried(before, adds) {
          var k :| 0 <= k < |before| && before[k] == left[i];
          assert OkUrl(ComposeUrls(before, a.arch, name)[k], true);
        }
      }
    }
  }

  lemma NamesOk(bases: seq<string>, arch: string, x: string, y: string)
    requires OkList(ComposeUrls(bases, arch, x), true) && IsGraphic(y)
    ensures OkList(ComposeUrls(bases, arch, y), true)
  {
    var urls := ComposeUrls(bases, arch, x);
    forall i | 0 <= i < |bases| ensures OkUrl(Located(bases[i], arch, y), true) {
      assert OkUrl(urls[i], true);
      AnyNameOk(bases[i], arch, x, y, true);
    }
  }

  // ---- Without a manifest ----

  /** The payload for the remaining bases, and the entry that the modification leaves. */
  lemma RebasedPayload(
      tool: Tool, a: CreateArgs, existing: Option<Bytes>, d: Deployment, edited: Json,
      adds: seq<string>, rems: seq<string>)
    returns (x: Built, y: Built)
    requires Parsed(a) && !a.manifest && Create(tool, a, existing) == Ok(d) && AllTrimmed(adds)
    requires Modified(d.doc, adds, rems) == Some(edited) && Parsed(Rebasing(a, adds, rems))
    ensures Stage2Built(tool, a) == Ok(x) && Admission(x.payload, Stage1).Ok? && Includes(d.files, x.files)
    ensures Stage2Built(tool, Rebasing(a, adds, rems)) == Ok(y) && Shows(edited, a.arch, DirectEntry(y).entry)
  {
    var b := Rebasing(a, adds, rems);
    var s;
    x, s := CreateEmits(tool, a, existing, d);
    CreatedSchemeFirst(tool, a, existing);
    CreateSucceedsIff(tool, a, existing);
    Stage2Builds(tool, b);
    y := Stage2Built(tool, b).value;
    RebasedBases(a, adds, rems);
    Part2Edits(tool, a, b, x, y, s, DirectEntry(y), adds, rems);
    ModifiedEntry(d.doc, edited, a.arch, s.entry, DirectEntry(y).entry, adds, rems);
  }

  /** New bases write the same files, except for a signed manifest. */
  lemma SameFiles(tool: Tool, a: CreateArgs, b: CreateArgs, x: Built, y: Built)
    requires Parsed(a) && Parsed(b) && SameBut(a, b) && Stage2Built(tool, a) == Ok(x) && Stage2Built(tool, b) == Ok(y)
    ensures x.files == y.files
  {}

  /** A rebased payload is admitted as far as its URLs are. */
  lemma RebasedAdmission(p: Payload, q: Payload, from: seq<string>, to: seq<string>, arch: string)
    requires Rebased(p, q, from, to, arch, "stage2") && Admission(p, Stage1).Ok?
    ensures Admission(q, Stage1).Ok? <==> OkList(ComposeUrls(to, arch, "stage2"), true)
    ensures !OkList(ComposeUrls(to, arch, "stage2"), true) ==> Admission(q, Stage1) == Err(BadUrl)
  {
    AdmissionIff(p, Stage1);
    AdmissionIff(q, Stage1);
    if OkList(ComposeUrls(to, arch, "stage2"), true) {
      NamesOk(to, arch, "stage2", "args.json");
    }
  }

  /** A payload that validation refuses ends the run before any download. */
  lemma RefusedPayload(w: World, p: Payload)
    requires w.env.parse(w.raw).Some? && Shows(Start(w).doc, w.env.arch, ArchConfig(PayloadEntry(p), []))
    requires Admission(p, Stage1).Err?
    ensures Fails(w, true, [Start(w)], InvalidPayload(Admission(p, Stage1).error))
  {
    ReadsEntry(w, Start(w).doc, ArchConfig(PayloadEntry(p), []));
  }

  /** Some run returns. */
  ghost predicate Resolves(w: World) {
    exists run, resolved :: Returns(w, true, run, resolved)
  }

  /** Every run that returns gives back the original payload and arguments. */
  ghost predicate OnlyOriginal(w: World, a: CreateArgs) {
    forall run, resolved :: Returns(w, true, run, resolved) ==> GivesBack(w, a, resolved)
  }

  lemma OneReturn(w: World, a: CreateArgs, run: seq<State>, resolved: Resolved)
    requires Returns(w, true, run, resolved) && GivesBack(w, a, resolved)
    ensures Resolves(w) && OnlyOriginal(w, a)
  {
    forall other, outcome | Returns(w, true, other, outcome) ensures GivesBack(w, a, outcome) {
      OneEnd(w, run, resolved, other, outcome, NotJson);
    }
  }

  lemma OneFailure(w: World, a: CreateArgs, run: seq<State>, error: ResolveError)
    requires Fails(w, true, run, error)
    ensures !Resolves(w) && OnlyOriginal(w, a)
  {
    forall other, outcome ensures !Returns(w, true, other, outcome) {
      ResolveTheorems.FailsMeansNoReturn(w, true, run, error, other, outcome);
    }
  }

  /** What the payload of the modified entry is admitted under, and that its files are the emitted ones. */
  lemma RebasedReady(
      tool: Tool, a: CreateArgs, existing: Option<Bytes>, d: Deployment, edited: Json,
      adds: seq<string>, rems: seq<string>)
    returns (y: Built)
    requires Parsed(a) && !a.manifest && Create(tool, a, existing) == Ok(d) && AllTrimmed(adds)
    requires Modified(d.doc, adds, rems) == Some(edited) && Parsed(Rebasing(a, adds, rems))
    ensures Stage2Built(tool, Rebasing(a, adds, rems)) == Ok(y) && Includes(d.files, y.files)
    ensures Shows(edited, a.arch, DirectEntry(y).entry)
    ensures Admission(y.payload, Stage1).Ok? <==> AddsCompose(a, adds, "stage2")
    ensures Admission(y.payload, Stage1).Err? ==> Admission(y.payload, Stage1) == Err(BadUrl)
  {
    var b := Rebasing(a, adds, rems);
    var x;
    x, y := RebasedPayload(tool, a, existing, d, edited, adds, rems);
    Stage2Rebases(tool, a, b, x, y);
    SameFiles(tool, a, b, x, y);
    RebasedAdmission(x.payload, y.payload, Bases(a), Bases(b), a.arch);
    LeftOkIff(a, adds, rems, "stage2");
  }

  /** One state, in which the payload is admitted or refused. */
  lemma DirectOutcome(tool: Tool, b: CreateArgs, a: CreateArgs, files: Files, w: World, base: string, y: Built)
    requires Parsed(b) && SameBut(a, b) && !b.manifest && w.env == tool.env && w.env.arch == b.arch
    requires Serving(tool, b, files, w, base) && Stage2Built(tool, b) == Ok(y) && Includes(files, y.files)
    requires w.env.parse(w.raw).Some? && Shows(Start(w).doc, b.arch, DirectEntry(y).entry)
    ensures Resolves(w) <==> Admission(y.payload, Stage1).Ok?
    ensures OnlyOriginal(w, a)
  {
    if Admission(y.payload, Stage1).Ok? {
      var run, resolved := DirectRun(tool, b, files, w, base, y);
      OneReturn(w, a, run, resolved);
    } else {
      RefusedPayload(w, y.payload);
      OneFailure(w, a, [Start(w)], InvalidPayload(Admission(y.payload, Stage1).error));
    }
  }

  /**
   * Without a manifest: where a remaining base serves the files that were emitted before the modification, the
   * modified deployment resolves to the original payload and arguments exactly when every addition composes
   * to an admissible URL.
   */
  lemma ModifiedResolvesIff(
      tool: Tool, a: CreateArgs, existing: Option<Bytes>, d: Deployment, edited: Json,
      addBases: seq<string>, removeBases: seq<string>, w: World, base: string)
    requires Parsed(a) && !a.manifest && Create(tool, a, existing) == Ok(d)
    requires Modified(d.doc, TrimAll(addBases), TrimAll(removeBases)) == Some(edited)
    requires var b := Rebasing(a, TrimAll(addBases), TrimAll(removeBases));
      Parsed(b) && GoodWorld(tool, b, Deployment(edited, d.files), w, base)
    ensures Resolves(w) <==> AddsCompose(a, TrimAll(addBases), "stage2")
    ensures OnlyOriginal(w, a)
  {
    var adds, rems := TrimAll(addBases), TrimAll(removeBases);
    var b, here := Rebasing(a, adds, rems), Local(tool, w);
    AddsTrimmed(addBases);
    CreateAlike(tool, here, a, existing);
    ServingAnywhere(tool, b, d.files, w, base);
    var y := RebasedReady(here, a, existing, d, edited, adds, rems);
    DirectOutcome(here, b, a, d.files, w, base, y);
  }

  // ---- Through a signed manifest ----

  function PointerEntry(c: Scheme, a: CreateArgs): ArchConfig
    requires a.key.Some?
  {
    ArchConfig(ManifestEntry(ManifestPointer(c, a)), [])
  }

  lemma PointerEdits(c: Scheme, a: CreateArgs, b: CreateArgs, adds: seq<string>, rems: seq<string>)
    requires a.key.Some? && SameBut(a, b) && SchemeFirst(Bases(a)) && Bases(b) == Left(Bases(a), adds, rems, a.arch)
    ensures EditsTo(PointerEntry(c, a), PointerEntry(c, b), adds, rems)
  {
    var p, q := ManifestPointer(c, a), ManifestPointer(c, b);
    EditsPointer(p, q, Bases(a), adds, rems, a.arch, "stage2.manifest.json");
    EditsVariant("manifest", RenderManifest(p), RenderManifest(q), adds, rems);
  }

  lemma PointerValid(c: Scheme, a: CreateArgs, b: CreateArgs)
    requires a.key.Some? && SameBut(a, b) && Validate(PointerEntry(c, a), Stage1).Ok?
    ensures Validate(PointerEntry(c, b), Stage1).Ok?
      <==> OkList(ComposeUrls(Bases(b), a.arch, "stage2.manifest.json"), true)
  {}

  /** The signed manifest of a deployment names the payload under the bases it was created for. */
  lemma RebasedPointer(
      tool: Tool, a: CreateArgs, existing: Option<Bytes>, d: Deployment, edited: Json,
      adds: seq<string>, rems: seq<string>)
    returns (x: Built, entry: ArchConfig)
    requires Parsed(a) && a.manifest && Create(tool, a, existing) == Ok(d) && AllTrimmed(adds)
    requires SignVerifyAgree(tool.env.scheme)
    requires Modified(d.doc, adds, rems) == Some(edited) && Parsed(Rebasing(a, adds, rems))
    ensures Stage2Built(tool, a) == Ok(x) && !a.signArgs && x.payload.url == ComposeUrls(Bases(a), a.arch, "stage2")
    ensures ManifestBuilt(tool, Rebasing(a, adds, rems), x.payload, entry, d.files)
    ensures Shows(edited, a.arch, entry)
    ensures OkList(ComposeUrls(Bases(a), a.arch, "stage2.manifest.json"), true)
    ensures Validate(entry, Stage1).Ok?
      <==> OkList(ComposeUrls(Bases(Rebasing(a, adds, rems)), a.arch, "stage2.manifest.json"), true)
  {
    var b := Rebasing(a, adds, rems);
    var s;
    x, s := CreateEmits(tool, a, existing, d);
    WrapSigns(tool, a, x, s);
    WrapKeeps(tool, a, x, s);
    CreatedSchemeFirst(tool, a, existing);
    RebasedBases(a, adds, rems);
    entry := PointerEntry(tool.env.scheme, b);
    PointerEdits(tool.env.scheme, a, b, adds, rems);
    PointerValid(tool.env.scheme, a, b);
    ModifiedEntry(d.doc, edited, a.arch, s.entry, entry, adds, rems);
  }

  /** The same, with its URLs traced back to the additions. */
  lemma PointerLeft(
      tool: Tool, a: CreateArgs, existing: Option<Bytes>, d: Deployment, edited: Json,
      adds: seq<string>, rems: seq<string>)
    returns (x: Built, entry: ArchConfig)
    requires Parsed(a) && a.manifest && Create(tool, a, existing) == Ok(d) && AllTrimmed(adds)
    requires SignVerifyAgree(tool.env.scheme)
    requires Modified(d.doc, adds, rems) == Some(edited) && Parsed(Rebasing(a, adds, rems))
    ensures Stage2Built(tool, a) == Ok(x) && !a.signArgs && OkList(x.payload.url, true)
    ensures ManifestBuilt(tool, Rebasing(a, adds, rems), x.payload, entry, d.files) && Shows(edited, a.arch, entry)
    ensures Validate(entry, Stage1).Ok? <==> AddsCompose(a, adds, "stage2.manifest.json")
  {
    x, entry := RebasedPointer(tool, a, existing, d, edited, adds, rems);
    LeftOkIff(a, adds, rems, "stage2.manifest.json");
    PayloadUrlsOk(a);
  }

  /** A pointer that validation refuses ends the run before any download. */
  lemma RefusedPointer(w: World, entry: ArchConfig)
    requires w.env.parse(w.raw).Some? && Shows(Start(w).doc, w.env.arch, entry) && entry.entry.ManifestEntry?
    requires Validate(entry, Stage1).Err?
    ensures Fails(w, true, [Start(w)], InvalidManifest(Validate(entry, Stage1).error))
  {
    ReadsEntry(w, Start(w).doc, entry);
  }

  /** A base that the manifest names for the payload serves it. */
  ghost predicate PayloadServed(w: World, a: CreateArgs) {
    exists base :: base in Bases(a) && AlwaysServes(w.net, Located(base, a.arch, "stage2"), a.stage2)
  }

  /** A pinned payload that is admitted, and does not collide, is served by one of its bases. */
  lemma AdmittedIsServed(w: World, a: CreateArgs, now: nat)
    requires Fixed(w.net)
    requires NoCollision(w.env.scheme, w.net, ComposeUrls(Bases(a), a.arch, "stage2"), a.stage2)
    requires AdmitPayload(w.env, w.net, Sha256(Sha256Hex(w.env.scheme, a.stage2)), now,
                          ComposeUrls(Bases(a), a.arch, "stage2")).result.Ok?
    ensures PayloadServed(w, a)
  {
    var mode, urls := Sha256(Sha256Hex(w.env.scheme, a.stage2)), ComposeUrls(Bases(a), a.arch, "stage2");
    AdmittedPasses(w.env, w.net, mode, now, urls);
    var got := AdmitPayload(w.env, w.net, mode, now, urls).result.value;
    PinDeterminesDigest(w.env.scheme, mode.expected, got.binary, a.stage2);
    var url :| url in urls && Serves(w.net, url, got.binary);
    var i :| 0 <= i < |urls| && urls[i] == url;
    var when :| w.net(when, url) == Some(got.binary);
    assert AlwaysServes(w.net, Located(Bases(a)[i], a.arch, "stage2"), a.stage2);
  }

  /** If it is not, the run ends at the payload. */
  lemma NoPayload(tool: Tool, a: CreateArgs, w: World, t: State, x: Built)
    requires Parsed(a) && a.manifest && !a.signArgs && w.env == tool.env && Fixed(w.net)
    requires Stage2Built(tool, a) == Ok(x) && OkList(x.payload.url, true)
    requires NoCollision(w.env.scheme, w.net, ComposeUrls(Bases(a), a.arch, "stage2"), a.stage2)
    requires Shows(t.doc, w.env.arch, ArchConfig(PayloadEntry(x.payload), [])) && !PayloadServed(w, a)
    ensures StepOf(w, true, t).Fail?
  {
    PinnedMode(tool, a, x);
    ReadsEntry(w, t.doc, ArchConfig(PayloadEntry(x.payload), []));
    if AdmitPayload(w.env, w.net, Admission(x.payload, Stage1).value, t.now, x.payload.url).result.Ok? {
      AdmittedIsServed(w, a, t.now);
    }
  }

  /** Two states, the second of which admits the payload or not. */
  lemma ThroughManifest(
      tool: Tool, b: CreateArgs, a: CreateArgs, files: Files, w: World, base: string, x: Built, entry: ArchConfig)
    requires Parsed(a) && a.manifest && !a.signArgs && SameBut(a, b) && w.env == tool.env && w.env.arch == b.arch
    requires Fixed(w.net) && NoCollision(w.env.scheme, w.net, ComposeUrls(Bases(a), a.arch, "stage2"), a.stage2)
    requires Stage2Built(tool, a) == Ok(x) && OkList(x.payload.url, true) && ManifestServed(b, files, w, base)
    requires ManifestBuilt(tool, b, x.payload, entry, files) && FragmentReadsBack(tool, STAGE2, b.arch, x.payload)
    requires Validate(entry, Stage1).Ok? && w.env.parse(w.raw).Some? && Shows(Start(w).doc, b.arch, entry)
    ensures Resolves(w) <==> PayloadServed(w, a)
    ensures OnlyOriginal(w, a)
  {
    if PayloadServed(w, a) {
      var from :| from in Bases(a) && AlwaysServes(w.net, Located(from, a.arch, "stage2"), a.stage2);
      PinnedSucceeds(tool, a, w, from, x);
      var run, resolved := ManifestRun(tool, b, a, files, w, base, x.payload, entry);
      OneReturn(w, a, run, resolved);
    } else {
      var t := ManifestHop(tool, b, files, w, base, x.payload, entry, Start(w));
      NoPayload(tool, a, w, t, x);
      FailsAfter(w, t);
      OneFailure(w, a, [Start(w), t], StepOf(w, true, t).error);
    }
  }

  /** One state where the pointer is refused, two where it is not. */
  lemma PointerOutcome(
      tool: Tool, b: CreateArgs, a: CreateArgs, files: Files, w: World, base: string, x: Built, entry: ArchConfig)
    requires Parsed(a) && a.manifest && !a.signArgs && SameBut(a, b) && w.env == tool.env && w.env.arch == b.arch
    requires Fixed(w.net) && NoCollision(w.env.scheme, w.net, ComposeUrls(Bases(a), a.arch, "stage2"), a.stage2)
    requires Stage2Built(tool, a) == Ok(x) && OkList(x.payload.url, true) && ManifestServed(b, files, w, base)
    requires ManifestBuilt(tool, b, x.payload, entry, files) && FragmentReadsBack(tool, STAGE2, b.arch, x.payload)
    requires w.env.parse(w.raw).Some? && Shows(Start(w).doc, b.arch, entry)
    ensures Resolves(w) <==> Validate(entry, Stage1).Ok? && PayloadServed(w, a)
    ensures OnlyOriginal(w, a)
  {
    if Validate(entry, Stage1).Ok? {
      ThroughManifest(tool, b, a, files, w, base, x, entry);
    } else {
      RefusedPointer(w, entry);
      OneFailure(w, a, [Start(w)], InvalidManifest(Validate(entry, Stage1).error));
    }
  }

  lemma FailsAfter(w: World, t: State)
    requires w.env.parse(w.raw).Some? && Leads(w, true, Start(w), t) && StepOf(w, true, t).Fail?
    ensures Fails(w, true, [Start(w), t], StepOf(w, true, t).error)
  {
    assert LeadsAt(w, true, [Start(w), t], 0);
  }

  /** And on the machine itself. */
  lemma PointerHere(
      tool: Tool, a: CreateArgs, existing: Option<Bytes>, d: Deployment, edited: Json,
      adds: seq<string>, rems: seq<string>,
      w: World)
    returns (x: Built, entry: ArchConfig)
    requires Parsed(a) && a.manifest && Create(tool, a, existing) == Ok(d) && AllTrimmed(adds)
    requires SignVerifyAgree(tool.env.scheme) && RunsOn(tool, a, w) && TextLayer(tool, a)
    requires Modified(d.doc, adds, rems) == Some(edited) && Parsed(Rebasing(a, adds, rems))
    ensures var here := Local(tool, w);
      && Stage2Built(here, a) == Ok(x) && !a.signArgs && OkList(x.payload.url, true)
      && ManifestBuilt(here, Rebasing(a, adds, rems), x.payload, entry, d.files) && Shows(edited, a.arch, entry)
      && FragmentReadsBack(here, STAGE2, a.arch, x.payload)
    ensures Validate(entry, Stage1).Ok? <==> AddsCompose(a, adds, "stage2.manifest.json")
  {
    x, entry := PointerLeft(tool, a, existing, d, edited, adds, rems);
    BuiltAlike(tool, Local(tool, w), a, existing);
    BuiltHere(tool, Rebasing(a, adds, rems), w, x.payload, entry, d.files);
  }

  lemma BuiltHere(tool: Tool, b: CreateArgs, w: World, p: Payload, entry: ArchConfig, files: Files)
    requires RunsOn(tool, b, w) && ManifestBuilt(tool, b, p, entry, files)
    ensures ManifestBuilt(Local(tool, w), b, p, entry, files)
  {}

  /**
   * Through a signed manifest: `modify` does not sign again, so the manifest keeps naming the payload under the
   * old bases. In a network that does not change, where a remaining base serves the manifest, the modified
   * deployment resolves to the original exactly when every addition composes to an admissible URL and some
   * base that the deployment was created for, removed since or not, still serves the payload.
   */
  lemma ModifiedManifestResolvesIff(
      tool: Tool, a: CreateArgs, existing: Option<Bytes>, d: Deployment, edited: Json,
      addBases: seq<string>, removeBases: seq<string>, w: World, base: string)
    requires Parsed(a) && a.manifest && Create(tool, a, existing) == Ok(d)
    requires Modified(d.doc, TrimAll(addBases), TrimAll(removeBases)) == Some(edited)
    requires RunsOn(tool, a, w) && Receives(w, a.arch, edited) && Fixed(w.net)
    requires var b := Rebasing(a, TrimAll(addBases), TrimAll(removeBases));
      Parsed(b) && ManifestServed(b, d.files, w, base)
    requires SignVerifyAgree(tool.env.scheme) && TextLayer(tool, a)
    requires NoCollision(w.env.scheme, w.net, ComposeUrls(Bases(a), a.arch, "stage2"), a.stage2)
    ensures Resolves(w) <==> AddsCompose(a, TrimAll(addBases), "stage2.manifest.json") && PayloadServed(w, a)
    ensures OnlyOriginal(w, a)
  {
    var adds, rems := TrimAll(addBases), TrimAll(removeBases);
    var b, here := Rebasing(a, adds, rems), Local(tool, w);
    AddsTrimmed(addBases);
    var x, entry := PointerHere(tool, a, existing, d, edited, adds, rems, w);
    PointerOutcome(here, b, a, d.files, w, base, x, entry);
  }
}
