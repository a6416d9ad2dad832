/** Resolving `_stage2.<arch>` to a payload: a state machine over the document and the history. */
module Resolve {
  import opened Bytes
  import opened Wrappers
  import opened Json
  import opened Metadata
  import opened Fetch
  import Signing

  // ---- The architecture's entry in a document ----

  const STAGE2 := "_stage2"

  function Member(j: Json, key: string): Option<Json> {
    if j.Obj? && key in j.m then Some(j.m[key]) else None
  }

  function EntryAt(doc: Json, arch: string): Option<Json> {
    match Member(doc, STAGE2)
    case None => None
    case Some(stage) => Member(stage, arch)
  }

  /** The JSON of the manifest pointer. */
  function PointerAt(doc: Json, arch: string): Option<Json> {
    match EntryAt(doc, arch)
    case None => None
    case Some(entry) => Member(entry, "manifest")
  }

  function WithEntry(doc: Json, arch: string, entry: Json): (r: Json)
    requires EntryAt(doc, arch).Some?
    ensures EntryAt(r, arch) == Some(entry)
    ensures r.Obj? && r.m.Keys == doc.m.Keys
    ensures forall k :: k in doc.m && k != STAGE2 ==> r.m[k] == doc.m[k]
  {
    Obj(doc.m[STAGE2 := Obj(doc.m[STAGE2].m[arch := entry])])
  }

  /** The document with the pointer consumed. */
  function Consumed(doc: Json, arch: string): Json {
    match EntryAt(doc, arch)
    case Some(Obj(e)) => WithEntry(doc, arch, Obj(e - {"manifest"}))
    case _ => doc
  }

  /** The document with the history stamped over whatever a manifest put there. */
  function Stamped(doc: Json, arch: string, history: seq<ManifestRef>): Option<Json> {
    match EntryAt(doc, arch)
    case Some(Obj(e)) => Some(WithEntry(doc, arch, Obj(e["resolved_manifests" := RenderManifests(history)])))
    case _ => None
  }

  function Merged(doc: Json, arch: string, manifest: Json): Json {
    Merge(Consumed(doc, arch), manifest)
  }

  /** The pointer after a hop is the manifest's own, whole; nothing of the consumed one survives. */
  lemma NextPointer(doc: Json, arch: string, manifest: Json)
    ensures PointerAt(Merged(doc, arch, manifest), arch) == PointerAt(manifest, arch)
  {
    var base := Consumed(doc, arch);
    assert PointerAt(base, arch) == None;
    if Member(base, STAGE2).Some? && Member(manifest, STAGE2).Some? {
      var b, m := base.m[STAGE2], manifest.m[STAGE2];
      assert Merge(base, manifest).m[STAGE2] == Merge(b, m);
      if Member(b, arch).Some? && Member(m, arch).Some? {
        assert Merge(b, m).m[arch] == Merge(b.m[arch], m.m[arch]);
      }
    }
  }

  // ---- One iteration ----

  /** Everything outside: the environment, the network, and the received document. */
  datatype World = World(env: Env, net: Net, raw: Bytes)

  datatype State = State(doc: Json, history: seq<ManifestRef>, now: nat)

  datatype ResolveError = NotJson | NoEntry | BadEntry | InvalidPayload(why: Invalid) | InvalidManifest(why: Invalid)
                        | FetchFailed(last: FetchError) | Cycle(url: string, hash: string) | BadManifest | Vanished

  datatype Resolved = Resolved(binary: Bytes, args: seq<string>, stdin: Bytes)

  /** One followed pointer: the pointer, what it fetched, and the manifest in it. */
  datatype Hop = Hop(pointer: ManifestRef, fetched: Fetched, manifest: Json)

  datatype Step = Next(hop: Hop, state: State) | Return(resolved: Resolved) | Fail(error: ResolveError)

  function Record(m: ManifestRef, f: Fetched): ManifestRef {
    ManifestRef([f.url], m.ed25519, m.sigUrl, Some(f.hash))
  }

  predicate Seen(history: seq<ManifestRef>, url: string, hash: string) {
    exists i :: 0 <= i < |history| && history[i].sha256 == Some(hash) && history[i].url == [url]
  }

  /** The entry the loop acts on, if the document has a well-formed one. */
  function ConfigOf(w: World, doc: Json): Option<ArchConfig> {
    match EntryAt(doc, w.env.arch)
    case None => None
    case Some(e) => ParseArchConfig(e, w.env.order)
  }

  /** One iteration of the loop; with `checked` false the cycle check is left out. */
  function StepOf(w: World, checked: bool, s: State): Step {
    if EntryAt(s.doc, w.env.arch).None? then Fail(NoEntry)
    else match ConfigOf(w, s.doc)
         case None => Fail(BadEntry)
         case Some(ArchConfig(PayloadEntry(p), _)) => PayloadStep(w, s, p)
         case Some(ArchConfig(ManifestEntry(m), _)) => ManifestStep(w, checked, s, m)
  }

  function PayloadStep(w: World, s: State, p: Payload): Step {
    match Admission(p, Stage1)
    case Err(why) => Fail(InvalidPayload(why))
    case Ok(mode) =>
      match AdmitPayload(w.env, w.net, mode, s.now, p.url).result
      case Err(last) => Fail(FetchFailed(last))
      case Ok(a) => Finish(w, s, a.binary, ArgsOf(a, p))
  }

  /** Signed arguments override inline ones; without either there are none. */
  function ArgsOf(a: Admitted, p: Payload): seq<string> {
    if a.signedArgs.Some? then a.signedArgs.value else if p.args.Some? then p.args.value else []
  }

  function Finish(w: World, s: State, binary: Bytes, args: seq<string>): Step {
    if s.history == [] then Return(Resolved(binary, args, w.raw))
    else match Stamped(s.doc, w.env.arch, s.history)
         case None => Fail(Vanished)
         case Some(doc) => Return(Resolved(binary, args, w.env.render(doc)))
  }

  function ManifestStep(w: World, checked: bool, s: State, m: ManifestRef): Step {
    match ValidateManifest(m, Stage1)
    case Err(why) => Fail(InvalidManifest(why))
    case Ok(_) =>
      var o := FetchManifest(w.env, w.net, m, s.now);
      match o.result
      case Err(last) => Fail(FetchFailed(last))
      case Ok(f) =>
        if checked && Seen(s.history, f.url, f.hash) then Fail(Cycle(f.url, f.hash))
        else match w.env.parse(f.bytes)
             case None => Fail(BadManifest)
             case Some(manifest) =>
               Next(Hop(m, f, manifest),
                    State(Merged(s.doc, w.env.arch, manifest), s.history + [Record(m, f)], o.now))
  }

  /** A well-formed entry is an object, so the stamp never fails. */
  lemma NeverVanished(w: World, checked: bool, s: State)
    ensures StepOf(w, checked, s) != Fail(Vanished)
  {}

  // ---- Runs ----

  ghost predicate Initial(w: World, s: State) {
    w.env.parse(w.raw) == Some(s.doc) && s.history == [] && s.now == 0
  }

  ghost predicate Leads(w: World, checked: bool, s: State, t: State) {
    StepOf(w, checked, s).Next? && StepOf(w, checked, s).state == t
  }

  /** The states at the top of the loop, in order. */
  ghost predicate IsRun(w: World, checked: bool, run: seq<State>) {
    && |run| > 0 && Initial(w, run[0])
    && forall i :: 0 <= i < |run| - 1 ==> LeadsAt(w, checked, run, i)
  }

  ghost predicate LeadsAt(w: World, checked: bool, run: seq<State>, i: nat)
    requires i + 1 < |run|
  {
    Leads(w, checked, run[i], run[i + 1])
  }

  ghost predicate Returns(w: World, checked: bool, run: seq<State>, resolved: Resolved) {
    IsRun(w, checked, run) && StepOf(w, checked, run[|run| - 1]) == Return(resolved)
  }

  ghost predicate Fails(w: World, checked: bool, run: seq<State>, error: ResolveError) {
    IsRun(w, checked, run) && StepOf(w, checked, run[|run| - 1]) == Fail(error)
  }

  lemma RunExtends(w: World, checked: bool, run: seq<State>, t: State)
    requires IsRun(w, checked, run) && Leads(w, checked, run[|run| - 1], t)
    ensures IsRun(w, checked, run + [t])
  {
    assert (run + [t])[0] == run[0];
    forall i | 0 <= i < |run| ensures LeadsAt(w, checked, run + [t], i) {
      LeadsThroughout(w, checked, run, t, i);
    }
  }

  lemma LeadsThroughout(w: World, checked: bool, run: seq<State>, t: State, i: nat)
    requires IsRun(w, checked, run) && Leads(w, checked, run[|run| - 1], t) && i < |run|
    ensures LeadsAt(w, checked, run + [t], i)
  {
    if i < |run| - 1 {
      LeadsKeeps(w, checked, run, t, i);
    } else {
      LeadsLast(w, checked, run, t);
    }
  }

  lemma LeadsKeeps(w: World, checked: bool, run: seq<State>, t: State, i: nat)
    requires IsRun(w, checked, run) && i < |run| - 1
    ensures LeadsAt(w, checked, run + [t], i)
  {
    assert LeadsAt(w, checked, run, i);
  }

  lemma LeadsLast(w: World, checked: bool, run: seq<State>, t: State)
    requires |run| > 0 && Leads(w, checked, run[|run| - 1], t)
    ensures LeadsAt(w, checked, run + [t], |run| - 1)
  {}

  // ---- The loop, and why it ends ----

  type Pair = (string, string)

  /** The (url, digest) pairs of all manifests that can ever be fetched lie in `served`. */
  ghost predicate OnlyServes(w: World, served: set<Pair>) {
    forall m, now :: FetchManifest(w.env, w.net, m, now).result.Ok? ==>
      PairOf(FetchManifest(w.env, w.net, m, now).result.value) in served
  }

  function PairOf(f: Fetched): Pair {
    (f.url, f.hash)
  }

  ghost predicate Recorded(history: seq<ManifestRef>, pairs: set<Pair>) {
    && |pairs| == |history|
    && forall url, hash :: (url, hash) in pairs <==> Seen(history, url, hash)
  }

  lemma SeenAfter(history: seq<ManifestRef>, r: ManifestRef, url: string, hash: string)
    ensures Seen(history + [r], url, hash) <==> Seen(history, url, hash) || (r.sha256 == Some(hash) && r.url == [url])
  {
    var longer := history + [r];
    assert longer[|history|] == r;
    if Seen(history, url, hash) {
      var i :| 0 <= i < |history| && history[i].sha256 == Some(hash) && history[i].url == [url];
      assert longer[i] == history[i];
    }
  }

  lemma RecordOne(history: seq<ManifestRef>, pairs: set<Pair>, m: ManifestRef, f: Fetched)
    requires Recorded(history, pairs) && !Seen(history, f.url, f.hash)
    ensures Recorded(history + [Record(m, f)], pairs + {PairOf(f)})
  {
    forall url, hash
      ensures (url, hash) in pairs + {PairOf(f)} <==> Seen(history + [Record(m, f)], url, hash)
    {
      SeenAfter(history, Record(m, f), url, hash);
      assert [f.url] == [url] <==> f.url == url by {
        assert [f.url][0] == f.url && [url][0] == url;
      }
    }
  }

  lemma Within(pairs: set<Pair>, served: set<Pair>)
    requires pairs <= served
    ensures |pairs| <= |served|
  {
    assert served == pairs + (served - pairs);
  }

  /** What one hop adds to the history, and that it was not there. */
  lemma HopRecord(w: World, s: State, hop: Hop, t: State)
    requires StepOf(w, true, s) == Next(hop, t)
    ensures t.history == s.history + [Record(hop.pointer, hop.fetched)]
    ensures !Seen(s.history, hop.fetched.url, hop.fetched.hash)
    ensures FetchManifest(w.env, w.net, hop.pointer, s.now).result == Ok(hop.fetched)
  {}

  /** A run that has come to its end. */
  ghost predicate Ended(w: World, run: seq<State>) {
    IsRun(w, true, run) && !StepOf(w, true, run[|run| - 1]).Next?
  }

  /** Any run in such a world can be continued to an end, with at most one state more than there are pairs. */
  lemma {:induction false} RunEnds(w: World, run: seq<State>, pairs: set<Pair>, served: set<Pair>)
    returns (whole: seq<State>)
    requires OnlyServes(w, served) && IsRun(w, true, run) && |run| == |run[|run| - 1].history| + 1
    requires Recorded(run[|run| - 1].history, pairs) && pairs <= served
    ensures Ended(w, whole) && |whole| <= |served| + 1
    decreases |served| + 1 - |run|
  {
    var s := run[|run| - 1];
    Within(pairs, served);
    if StepOf(w, true, s).Next? {
      var hop, t := StepOf(w, true, s).hop, StepOf(w, true, s).state;
      HopRecord(w, s, hop, t);
      RecordOne(s.history, pairs, hop.pointer, hop.fetched);
      Within(pairs + {PairOf(hop.fetched)}, served);
      RunExtends(w, true, run, t);
      whole := RunEnds(w, run + [t], pairs + {PairOf(hop.fetched)}, served);
    } else {
      whole := run;
    }
  }

  /** In a world that serves finitely many verifying manifests a run ends. */
  lemma FiniteWorldEnds(w: World, served: set<Pair>) returns (whole: seq<State>)
    requires OnlyServes(w, served) && w.env.parse(w.raw).Some?
    ensures Ended(w, whole) && |whole| <= |served| + 1
  {
    whole := RunEnds(w, [State(w.env.parse(w.raw).value, [], 0)], {}, served);
  }

  /** Where a run can be continued, and only there, its last state is not the last of the ended one. */
  lemma NextOnWhole(w: World, whole: seq<State>, n: nat)
    requires Ended(w, whole) && n < |whole|
    ensures StepOf(w, true, whole[n]).Next? <==> n + 1 < |whole|
    ensures n + 1 < |whole| ==> whole[n + 1] == StepOf(w, true, whole[n]).state
  {
    if n + 1 < |whole| {
      assert LeadsAt(w, true, whole, n);
    }
  }

  /** The loop of the code: where a run comes to an end, so does the loop, with the outcome of that run. */
  method ResolvePayload(w: World, ghost whole: seq<State>) returns (r: Result<Resolved, ResolveError>)
    requires w.env.parse(w.raw).Some? ==> Ended(w, whole)
    ensures w.env.parse(w.raw).None? ==> r == Err(NotJson)
    ensures w.env.parse(w.raw).Some? ==> Ends(w, whole, r)
  {
    var parsed := w.env.parse(w.raw);
    if parsed.None? {
      return Err(NotJson);
    }
    var s := State(parsed.value, [], 0);
    ghost var n := 0;
    while true
      invariant n < |whole| && whole[n] == s
      decreases |whole| - n
    {
      NextOnWhole(w, whole, n);
      var step := Iterate(w, s);
      match step
      case Return(resolved) => return Ok(resolved);
      case Fail(error) => return Err(error);
      case Next(_, t) => s, n := t, n + 1;
    }
  }

  /**
   * The same loop in any world at all, watched for a number of iterations: it has ended with the outcome
   * of a run, or is still running after that many hops.
   */
  method ResolveWithin(w: World, limit: nat)
    returns (r: Option<Result<Resolved, ResolveError>>, ghost run: seq<State>)
    ensures w.env.parse(w.raw).None? ==> r == Some(Err(NotJson))
    ensures w.env.parse(w.raw).Some? && r.None? ==> IsRun(w, true, run) && |run| == limit + 1
    ensures w.env.parse(w.raw).Some? && r.Some? ==> |run| <= limit && Ends(w, run, r.value)
  {
    run := [];
    var parsed := w.env.parse(w.raw);
    if parsed.None? {
      return Some(Err(NotJson)), run;
    }
    var s := State(parsed.value, [], 0);
    run := [s];
    for i := 0 to limit
      invariant IsRun(w, true, run) && run[|run| - 1] == s && |run| == i + 1
    {
      var step := Iterate(w, s);
      match step
      case Return(resolved) => return Some(Ok(resolved)), run;
      case Fail(error) => return Some(Err(error)), run;
      case Next(_, t) =>
        RunExtends(w, true, run, t);
        run := run + [t];
        s := t;
    }
    return None, run;
  }

  ghost predicate Ends(w: World, run: seq<State>, r: Result<Resolved, ResolveError>) {
    match r
    case Ok(resolved) => Returns(w, true, run, resolved)
    case Err(error) => Fails(w, true, run, error)
  }

  /** The body of the loop. */
  method Iterate(w: World, s: State) returns (step: Step)
    ensures step == StepOf(w, true, s)
  {
    var doc, history := s.doc, s.history;
    var entry := EntryAt(doc, w.env.arch);
    if entry.None? {
      return Fail(NoEntry);
    }
    var config := ParseArchConfig(entry.value, w.env.order);
    if config.None? {
      return Fail(BadEntry);
    }
    match config.value.entry
    case PayloadEntry(p) =>
      step := AdmitAndFinish(w, s, p);
    case ManifestEntry(m) =>
      if ValidateManifest(m, Stage1).Err? {
        return Fail(InvalidManifest(ValidateManifest(m, Stage1).error));
      }
      var o := TryMirrors(Fetching(w.env, w.net, m), s.now, m.url);
      if o.result.Err? {
        return Fail(FetchFailed(o.result.error));
      }
      var f := o.result.value;
      if Seen(history, f.url, f.hash) {
        return Fail(Cycle(f.url, f.hash));
      }
      history := history + [Record(m, f)];
      doc := Consumed(doc, w.env.arch);
      var manifest := w.env.parse(f.bytes);
      if manifest.None? {
        return Fail(BadManifest);
      }
      doc := DeepMerge(doc, manifest.value);
      step := Next(Hop(m, f, manifest.value), State(doc, history, o.now));
  }

  method AdmitAndFinish(w: World, s: State, p: Payload) returns (step: Step)
    ensures step == PayloadStep(w, s, p)
  {
    var admission := Admission(p, Stage1);
    if admission.Err? {
      return Fail(InvalidPayload(admission.error));
    }
    var o := TryMirrors(Admitting(w.env, w.net, admission.value), s.now, p.url);
    if o.result.Err? {
      return Fail(FetchFailed(o.result.error));
    }
    var a := o.result.value;
    var args := ArgsOf(a, p);
    if s.history == [] {
      return Return(Resolved(a.binary, args, w.raw));
    }
    var stamped := Stamped(s.doc, w.env.arch, s.history);
    if stamped.None? {
      return Fail(Vanished);
    }
    step := Return(Resolved(a.binary, args, w.env.render(stamped.value)));
  }
}
