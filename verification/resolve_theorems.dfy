/** What every run of manifest resolution keeps, and what the document handed to the payload is. */
module ResolveTheorems {
  import opened Bytes
  import opened Wrappers
  import opened Json
  import opened Metadata
  import opened Fetch
  import opened Resolve
  import opened Signing

  // ---- Runs and their hops ----

  /** The hops of a run, one between each state and the next. */
  ghost predicate HopsOf(w: World, checked: bool, run: seq<State>, hops: seq<Hop>) {
    && IsRun(w, checked, run) && |hops| == |run| - 1
    && forall i :: 0 <= i < |hops| ==> TakesAt(w, checked, run, hops, i)
  }

  predicate TakesAt(w: World, checked: bool, run: seq<State>, hops: seq<Hop>, i: nat)
    requires i < |hops| && i + 1 < |run|
  {
    Takes(w, checked, run[i], hops[i], run[i + 1])
  }

  predicate Takes(w: World, checked: bool, s: State, hop: Hop, t: State) {
    StepOf(w, checked, s) == Next(hop, t)
  }

  lemma HopsExist(w: World, checked: bool, run: seq<State>) returns (hops: seq<Hop>)
    requires IsRun(w, checked, run)
    ensures HopsOf(w, checked, run, hops)
  {
    hops := HopsTo(w, checked, run, |run| - 1);
  }

  lemma {:induction false} HopsTo(w: World, checked: bool, run: seq<State>, n: nat) returns (hops: seq<Hop>)
    requires IsRun(w, checked, run) && n < |run|
    ensures |hops| == n && forall i :: 0 <= i < n ==> TakesAt(w, checked, run, hops, i)
  {
    if n == 0 {
      return [];
    }
    var before := HopsTo(w, checked, run, n - 1);
    hops := OneMoreHop(w, checked, run, before, n);
  }

  lemma OneMoreHop(w: World, checked: bool, run: seq<State>, before: seq<Hop>, n: nat) returns (hops: seq<Hop>)
    requires IsRun(w, checked, run) && 0 < n < |run| && |before| == n - 1
    requires forall i :: 0 <= i < n - 1 ==> TakesAt(w, checked, run, before, i)
    ensures |hops| == n && forall i :: 0 <= i < n ==> TakesAt(w, checked, run, hops, i)
  {
    var hop := HopAt(w, checked, run, n - 1);
    hops := before + [hop];
    TakesExtend(w, checked, run, before, hop, n);
  }

  lemma TakesExtend(w: World, checked: bool, run: seq<State>, before: seq<Hop>, hop: Hop, n: nat)
    requires 0 < n < |run| && |before| == n - 1 && Takes(w, checked, run[n - 1], hop, run[n])
    requires forall i :: 0 <= i < n - 1 ==> TakesAt(w, checked, run, before, i)
    ensures forall i :: 0 <= i < n ==> TakesAt(w, checked, run, before + [hop], i)
  {
    forall i | 0 <= i < n ensures TakesAt(w, checked, run, before + [hop], i) {
      assert i < n - 1 ==> TakesAt(w, checked, run, before, i);
    }
  }

  lemma HopAt(w: World, checked: bool, run: seq<State>, i: nat) returns (hop: Hop)
    requires IsRun(w, checked, run) && i + 1 < |run|
    ensures Takes(w, checked, run[i], hop, run[i + 1])
  {
    LeadsToNext(w, checked, run, i);
    hop := StepOf(w, checked, run[i]).hop;
  }

  lemma LeadsToNext(w: World, checked: bool, run: seq<State>, i: nat)
    requires IsRun(w, checked, run) && i + 1 < |run|
    ensures StepOf(w, checked, run[i]).Next? && run[i + 1] == StepOf(w, checked, run[i]).state
  {
    assert LeadsAt(w, checked, run, i);
  }

  lemma TakesHere(w: World, checked: bool, run: seq<State>, hops: seq<Hop>, i: nat)
    requires HopsOf(w, checked, run, hops) && i < |hops|
    ensures Takes(w, checked, run[i], hops[i], run[i + 1])
  {
    assert TakesAt(w, checked, run, hops, i);
  }

  /** What is recorded of a hop: the URL that served, the key and signature location of the pointer, the digest. */
  function RecordOf(hop: Hop): ManifestRef {
    ManifestRef([hop.fetched.url], hop.pointer.ed25519, hop.pointer.sigUrl, Some(hop.fetched.hash))
  }

  /** The history is the true one: a record of each hop, in order. */
  function Records(hops: seq<Hop>): (h: seq<ManifestRef>)
    ensures |h| == |hops| && forall i :: 0 <= i < |h| ==> h[i] == RecordOf(hops[i])
  {
    seq(|hops|, i requires 0 <= i < |hops| => RecordOf(hops[i]))
  }

  /** The left fold of the merge over the first `n` manifests, consuming the pointer before each. */
  function Folded(doc: Json, arch: string, hops: seq<Hop>, n: nat): Json
    requires n <= |hops|
  {
    if n == 0 then doc else Merged(Folded(doc, arch, hops, n - 1), arch, hops[n - 1].manifest)
  }

  lemma {:induction false} StateAfter(w: World, checked: bool, run: seq<State>, hops: seq<Hop>, n: nat)
    requires HopsOf(w, checked, run, hops) && n < |run|
    ensures run[n].doc == Folded(run[0].doc, w.env.arch, hops, n)
    ensures run[n].history == Records(hops[..n])
  {
    if n > 0 {
      StateAfter(w, checked, run, hops, n - 1);
      assert TakesAt(w, checked, run, hops, n - 1);
      HopState(w, checked, run[n - 1], hops[n - 1], run[n]);
      RecordsExtend(hops, n);
    }
  }

  lemma HopState(w: World, checked: bool, s: State, hop: Hop, t: State)
    requires Takes(w, checked, s, hop, t)
    ensures t.doc == Merged(s.doc, w.env.arch, hop.manifest)
    ensures t.history == s.history + [RecordOf(hop)]
  {}

  lemma RecordsExtend(hops: seq<Hop>, n: nat)
    requires 0 < n <= |hops|
    ensures Records(hops[..n]) == Records(hops[..n - 1]) + [RecordOf(hops[n - 1])]
  {}

  // ---- What a hop does to the document ----

  /** The path leads to the pointer, or into it. */
  predicate InPointer(arch: string, path: seq<string>) {
    |path| >= 3 && path[0] == "_stage2" && path[1] == arch && path[2] == "manifest"
  }

  /** Consuming removes the pointer and nothing else. */
  lemma {:induction false} ConsumedAt(doc: Json, arch: string, path: seq<string>)
    ensures At(Consumed(doc, arch), path) == if InPointer(arch, path) then Absent else At(doc, path)
  {
    var after := Consumed(doc, arch);
    if |path| >= 1 && Member(doc, "_stage2").Some? && path[0] == "_stage2" {
      var rest := path[1..];
      if |rest| >= 1 && EntryAt(doc, arch).Some? && rest[0] == arch {
        EntryConsumedAt(EntryAt(doc, arch).value, EntryAt(after, arch).value, rest[1..]);
      }
    }
  }

  lemma {:induction false} EntryConsumedAt(entry: Json, after: Json, path: seq<string>)
    requires after == if entry.Obj? then Obj(entry.m - {"manifest"}) else entry
    ensures At(after, path) == if path != [] && path[0] == "manifest" then Absent else At(entry, path)
  {}

  /** After a hop a path shows what the manifest says there; where it is silent, the document, less the pointer. */
  lemma {:induction false} HopShows(doc: Json, arch: string, manifest: Json, path: seq<string>)
    ensures At(Merged(doc, arch, manifest), path)
      == if Blocked(manifest, path) then Absent
         else if At(manifest, path) != Absent then At(manifest, path)
         else if InPointer(arch, path) then Absent
         else At(doc, path)
  {
    MergeAt(Consumed(doc, arch), manifest, path);
    ConsumedAt(doc, arch, path);
  }

  // ---- The document handed on ----

  /**
   * With no hop the payload gets the received bytes; otherwise the fold of the verified manifests
   * over the received document, stamped with the true history.
   */
  lemma FinalDocument(w: World, checked: bool, run: seq<State>, hops: seq<Hop>, resolved: Resolved)
    requires Returns(w, checked, run, resolved) && HopsOf(w, checked, run, hops)
    ensures hops == [] ==> resolved.stdin == w.raw
    ensures hops != [] ==> StampedFold(w, run[0].doc, hops, resolved.stdin)
  {
    var n := |hops|;
    StateAfter(w, checked, run, hops, n);
    assert hops[..n] == hops;
    FinalStep(w, checked, run[n], resolved);
  }

  /** The JSON text of the document handed on reads back as that document. */
  predicate FinalReadsBack(w: World, doc: Json, hops: seq<Hop>) {
    var final := Stamped(Folded(doc, w.env.arch, hops, |hops|), w.env.arch, Records(hops));
    final.Some? ==> w.env.parse(w.env.render(final.value)) == final
  }

  predicate StampedFold(w: World, doc: Json, hops: seq<Hop>, stdin: Bytes) {
    var final := Stamped(Folded(doc, w.env.arch, hops, |hops|), w.env.arch, Records(hops));
    final.Some? && stdin == w.env.render(final.value)
  }

  lemma FinalStep(w: World, checked: bool, s: State, resolved: Resolved)
    requires StepOf(w, checked, s) == Return(resolved)
    ensures s.history == [] ==> resolved.stdin == w.raw
    ensures s.history != [] ==> Stamped(s.doc, w.env.arch, s.history).Some?
    ensures s.history != [] ==> resolved.stdin == w.env.render(Stamped(s.doc, w.env.arch, s.history).value)
  {}

  /** The stamp overwrites `resolved_manifests`, whatever a manifest wrote there, and touches nothing else. */
  lemma StampShows(doc: Json, arch: string, history: seq<ManifestRef>)
    requires Stamped(doc, arch, history).Some?
    ensures var stamped := Stamped(doc, arch, history).value;
      && EntryAt(stamped, arch).Some? && EntryAt(doc, arch).Some?
      && StampedEntry(EntryAt(doc, arch).value, EntryAt(stamped, arch).value, history)
      && forall k :: k != STAGE2 ==> Member(stamped, k) == Member(doc, k)
  {
    ManifestsRoundTrip(history);
  }

  predicate StampedEntry(before: Json, after: Json, history: seq<ManifestRef>) {
    && before.Obj? && after.Obj? && after.m.Keys == before.m.Keys + {"resolved_manifests"}
    && ParseManifests(after.m["resolved_manifests"]) == Some(history)
    && forall k :: k in before.m && k != "resolved_manifests" ==> after.m[k] == before.m[k]
  }

  /** After at least one hop, the payload reads the true history from its input, forged or erased or not. */
  lemma PayloadReadsHistory(
      w: World, checked: bool, run: seq<State>, hops: seq<Hop>, resolved: Resolved)
    requires Returns(w, checked, run, resolved) && HopsOf(w, checked, run, hops) && hops != []
    requires FinalReadsBack(w, run[0].doc, hops)
    ensures w.env.parse(resolved.stdin).Some?
    ensures ReadsHistory(w, w.env.parse(resolved.stdin).value, Records(hops))
  {
    FinalDocument(w, checked, run, hops, resolved);
    StampShows(Folded(run[0].doc, w.env.arch, hops, |hops|), w.env.arch, Records(hops));
  }

  predicate ReadsHistory(w: World, doc: Json, history: seq<ManifestRef>) {
    var entry := EntryAt(doc, w.env.arch);
    && entry.Some? && Member(entry.value, "resolved_manifests").Some?
    && ParseManifests(Member(entry.value, "resolved_manifests").value) == Some(history)
  }

  // ---- Delegation ----

  /** One hop: verified under the key that the document before it pins, its own pointer taken over whole. */
  ghost predicate Delegated(w: World, s: State, hop: Hop, t: State) {
    && ConfigOf(w, s.doc).Some? && ConfigOf(w, s.doc).value.entry == ManifestEntry(hop.pointer)
    && ValidateManifest(hop.pointer, Stage1).Ok?
    && Authentic(w.env, w.net, hop.pointer, hop.fetched)
    && w.env.parse(hop.fetched.bytes) == Some(hop.manifest)
    && PointerAt(t.doc, w.env.arch) == PointerAt(hop.manifest, w.env.arch)
    && t.history == s.history + [RecordOf(hop)]
  }

  /** What an iteration has found when it goes on. */
  lemma HopFound(w: World, checked: bool, s: State, hop: Hop, t: State)
    requires Takes(w, checked, s, hop, t)
    ensures ConfigOf(w, s.doc).Some? && ConfigOf(w, s.doc).value.entry == ManifestEntry(hop.pointer)
    ensures ValidateManifest(hop.pointer, Stage1).Ok?
    ensures FetchManifest(w.env, w.net, hop.pointer, s.now).result == Ok(hop.fetched)
    ensures w.env.parse(hop.fetched.bytes) == Some(hop.manifest)
  {}

  lemma HopDelegates(w: World, checked: bool, s: State, hop: Hop, t: State)
    requires Takes(w, checked, s, hop, t)
    ensures Delegated(w, s, hop, t)
  {
    HopFound(w, checked, s, hop, t);
    HopState(w, checked, s, hop, t);
    FetchedIsAuthentic(w.env, w.net, hop.pointer, s.now);
    NextPointer(s.doc, w.env.arch, hop.manifest);
  }

  /** The pointer of a hop is the one written in the document before it. */
  lemma PointerIsWritten(w: World, doc: Json)
    requires ConfigOf(w, doc).Some? && ConfigOf(w, doc).value.entry.ManifestEntry?
    ensures PointerAt(doc, w.env.arch).Some?
    ensures ParseManifest(PointerAt(doc, w.env.arch).value) == Some(ConfigOf(w, doc).value.entry.manifest)
  {}

  /** In a run every hop is delegated, and each next pointer is the one its predecessor's manifest carries. */
  ghost predicate Chain(w: World, run: seq<State>, hops: seq<Hop>)
    requires |run| == |hops| + 1
  {
    && (forall i :: 0 <= i < |hops| ==> DelegatedAt(w, run, hops, i))
    && (forall i :: 0 < i < |hops| ==> NamedAt(w, hops, i))
  }

  ghost predicate DelegatedAt(w: World, run: seq<State>, hops: seq<Hop>, i: nat)
    requires i < |hops| && i + 1 < |run|
  {
    Delegated(w, run[i], hops[i], run[i + 1])
  }

  predicate NamedAt(w: World, hops: seq<Hop>, i: nat)
    requires 0 < i < |hops|
  {
    Names(w, hops[i - 1], hops[i])
  }

  predicate Names(w: World, hop: Hop, next: Hop) {
    var pointer := PointerAt(hop.manifest, w.env.arch);
    pointer.Some? && ParseManifest(pointer.value) == Some(next.pointer)
  }

  lemma RunDelegates(w: World, checked: bool, run: seq<State>, hops: seq<Hop>)
    requires HopsOf(w, checked, run, hops)
    ensures Chain(w, run, hops)
  {
    forall i | 0 <= i < |hops| ensures DelegatedAt(w, run, hops, i) {
      assert TakesAt(w, checked, run, hops, i);
      HopDelegates(w, checked, run[i], hops[i], run[i + 1]);
    }
    forall i | 0 < i < |hops| ensures NamedAt(w, hops, i) {
      assert DelegatedAt(w, run, hops, i - 1);
      assert DelegatedAt(w, run, hops, i);
      PointerIsWritten(w, run[i].doc);
    }
  }

  /** The inline arguments of the payload, or none if it has none. */
  predicate InlineArgs(p: Payload, args: seq<string>) {
    p.args == Some(args) || (p.args.None? && args == [])
  }

  /** Pinned by digest: a listed URL serves the binary, and its digest is the pin; the arguments are inline. */
  ghost predicate ShowsPin(w: World, p: Payload, resolved: Resolved)
    requires p.sha256.Some?
  {
    && ServesSome(w.net, p.url, resolved.binary)
    && SameHex(Sha256Hex(w.env.scheme, resolved.binary), p.sha256.value) && InlineArgs(p, resolved.args)
  }

  /**
   * Under a key: a listed URL serves the binary, and its signature is where the payload says. If the payload
   * names signed arguments, these are the arguments, whatever is inline; otherwise the inline ones are.
   */
  ghost predicate ShowsSignature(w: World, p: Payload, resolved: Resolved)
    requires p.ed25519.Some?
  {
    var mode := Ed25519(p.ed25519.value, p.sigUrl, p.argsUrl, p.argsSigUrl);
    && (exists url :: url in p.url && SignedBinary(w.env, w.net, mode, url, resolved.binary))
    && if p.argsUrl.Some?
       then SignedArgs(w.env, w.net, mode, Sha256Hex(w.env.scheme, resolved.binary), resolved.args)
       else InlineArgs(p, resolved.args)
  }

  /** The returned binary and arguments are what the payload in the last document admits. */
  ghost predicate Admits(w: World, doc: Json, resolved: Resolved) {
    && ConfigOf(w, doc).Some? && ConfigOf(w, doc).value.entry.PayloadEntry?
    && var p := ConfigOf(w, doc).value.entry.payload;
    && Admission(p, Stage1).Ok? && (p.sha256.Some? <==> p.ed25519.None?)
    && (p.sha256.Some? ==> ShowsPin(w, p, resolved)) && (p.ed25519.Some? ==> ShowsSignature(w, p, resolved))
  }

  lemma ReturnAdmits(w: World, checked: bool, s: State, resolved: Resolved)
    requires StepOf(w, checked, s) == Return(resolved)
    ensures Admits(w, s.doc, resolved)
  {
    var p := ConfigOf(w, s.doc).value.entry.payload;
    PayloadShows(w, s, p, resolved);
  }

  lemma PayloadShows(w: World, s: State, p: Payload, resolved: Resolved)
    requires PayloadStep(w, s, p) == Return(resolved)
    ensures Admission(p, Stage1).Ok? && (p.sha256.Some? <==> p.ed25519.None?)
    ensures p.sha256.Some? ==> ShowsPin(w, p, resolved)
    ensures p.ed25519.Some? ==> ShowsSignature(w, p, resolved)
  {
    var mode := Admission(p, Stage1).value;
    AdmittedPasses(w.env, w.net, mode, s.now, p.url);
  }

  /** The chain of trust of a whole run, from the received document to the binary. */
  lemma {:induction false} Delegation(w: World, checked: bool, run: seq<State>, hops: seq<Hop>, resolved: Resolved)
    requires Returns(w, checked, run, resolved) && HopsOf(w, checked, run, hops)
    ensures Chain(w, run, hops)
    ensures Admits(w, Folded(run[0].doc, w.env.arch, hops, |hops|), resolved)
  {
    RunDelegates(w, checked, run, hops);
    StateAfter(w, checked, run, hops, |hops|);
    ReturnAdmits(w, checked, run[|hops|], resolved);
  }

  /** Where the entry stands in a document. */
  lemma EntryAtIff(doc: Json, arch: string, entry: Json)
    ensures EntryAt(doc, arch) == Some(entry)
      <==> && doc.Obj? && "_stage2" in doc.m && doc.m["_stage2"].Obj?
           && arch in doc.m["_stage2"].m && doc.m["_stage2"].m[arch] == entry
  {}

  // ---- No repetition, and the bound ----

  ghost predicate DistinctHops(hops: seq<Hop>) {
    forall i, j :: 0 <= i < j < |hops| ==> PairOf(hops[i].fetched) != PairOf(hops[j].fetched)
  }

  lemma NeverSeen(w: World, run: seq<State>, hops: seq<Hop>, i: nat, j: nat)
    requires HopsOf(w, true, run, hops) && i < j < |hops|
    ensures PairOf(hops[i].fetched) != PairOf(hops[j].fetched)
  {
    StateAfter(w, true, run, hops, j);
    assert TakesAt(w, true, run, hops, j);
    var r := run[j].history[i];
    assert r == RecordOf(hops[i]);
    assert hops[..j][i] == hops[i];
    assert !Seen(run[j].history, hops[j].fetched.url, hops[j].fetched.hash);
  }

  /** No (url, digest) pair is followed twice. */
  lemma NoRepeats(w: World, run: seq<State>, hops: seq<Hop>)
    requires HopsOf(w, true, run, hops)
    ensures DistinctHops(hops)
  {
    forall i, j | 0 <= i < j < |hops| ensures PairOf(hops[i].fetched) != PairOf(hops[j].fetched) {
      NeverSeen(w, run, hops, i, j);
    }
  }

  function Pairs(hops: seq<Hop>, n: nat): (pairs: set<Pair>)
    requires n <= |hops|
  {
    if n == 0 then {} else Pairs(hops, n - 1) + {PairOf(hops[n - 1].fetched)}
  }

  lemma {:induction false} PairsMeaning(hops: seq<Hop>, n: nat, pair: Pair)
    requires n <= |hops|
    ensures pair in Pairs(hops, n) <==> exists i :: 0 <= i < n && PairOf(hops[i].fetched) == pair
  {
    if n > 0 {
      PairsMeaning(hops, n - 1, pair);
    }
  }

  lemma {:induction false} PairsCount(hops: seq<Hop>, n: nat)
    requires n <= |hops| && DistinctHops(hops)
    ensures |Pairs(hops, n)| == n
  {
    if n > 0 {
      PairsCount(hops, n - 1);
      PairsMeaning(hops, n - 1, PairOf(hops[n - 1].fetched));
    }
  }

  /** A run has at most one state more than there are verifying (url, digest) pairs in the world. */
  lemma RunIsBounded(w: World, run: seq<State>, hops: seq<Hop>, served: set<Pair>)
    requires HopsOf(w, true, run, hops) && OnlyServes(w, served)
    ensures |run| <= |served| + 1
  {
    var n := |hops|;
    NoRepeats(w, run, hops);
    PairsCount(hops, n);
    forall pair | pair in Pairs(hops, n) ensures pair in served {
      PairsMeaning(hops, n, pair);
      var i :| 0 <= i < n && PairOf(hops[i].fetched) == pair;
      assert TakesAt(w, true, run, hops, i);
      assert FetchManifest(w.env, w.net, hops[i].pointer, run[i].now).result == Ok(hops[i].fetched);
    }
    Within(Pairs(hops, n), served);
  }

  // ---- Determinism ----

  /** A sequence of states, each the successor of the one before it. */
  ghost predicate Follows(next: State -> Option<State>, run: seq<State>) {
    |run| > 0 && forall i :: 0 <= i < |run| - 1 ==> FollowsAt(next, run, i)
  }

  ghost predicate FollowsAt(next: State -> Option<State>, run: seq<State>, i: nat)
    requires i + 1 < |run|
  {
    next(run[i]) == Some(run[i + 1])
  }

  function Successor(w: World, checked: bool): State -> Option<State> {
    (s: State) => match StepOf(w, checked, s)
                  case Next(_, t) => Some(t)
                  case _ => None
  }

  lemma RunFollows(w: World, checked: bool, run: seq<State>)
    requires IsRun(w, checked, run)
    ensures Follows(Successor(w, checked), run)
  {
    forall i | 0 <= i < |run| - 1 ensures FollowsAt(Successor(w, checked), run, i) {
      LeadsToNext(w, checked, run, i);
    }
  }

  lemma {:induction false} FollowersAgree(next: State -> Option<State>, a: seq<State>, b: seq<State>, n: nat)
    requires Follows(next, a) && Follows(next, b) && a[0] == b[0] && n < |a| && n < |b|
    ensures a[n] == b[n]
  {
    if n > 0 {
      FollowersAgree(next, a, b, n - 1);
      assert FollowsAt(next, a, n - 1) && FollowsAt(next, b, n - 1);
    }
  }

  lemma FollowersEndOnce(next: State -> Option<State>, a: seq<State>, b: seq<State>)
    requires Follows(next, a) && Follows(next, b) && a[0] == b[0]
    requires next(a[|a| - 1]).None? && next(b[|b| - 1]).None?
    ensures |a| == |b|
  {
    if |a| < |b| {
      FollowersAgree(next, a, b, |a| - 1);
      var _ := FollowsAt(next, b, |a| - 1);
    } else if |b| < |a| {
      FollowersAgree(next, a, b, |b| - 1);
      var _ := FollowsAt(next, a, |b| - 1);
    }
  }

  /** Two runs in one world agree as far as both go, and at most one of them ends. */
  lemma RunsAgree(w: World, checked: bool, a: seq<State>, b: seq<State>)
    requires IsRun(w, checked, a) && IsRun(w, checked, b)
    ensures forall n :: 0 <= n < |a| && n < |b| ==> a[n] == b[n]
    ensures !StepOf(w, checked, a[|a| - 1]).Next? && !StepOf(w, checked, b[|b| - 1]).Next? ==> a == b
  {
    var next := Successor(w, checked);
    RunFollows(w, checked, a);
    RunFollows(w, checked, b);
    forall n | 0 <= n < |a| && n < |b| ensures a[n] == b[n] {
      FollowersAgree(next, a, b, n);
    }
    if !StepOf(w, checked, a[|a| - 1]).Next? && !StepOf(w, checked, b[|b| - 1]).Next? {
      FollowersEndOnce(next, a, b);
    }
  }

  lemma EndsOnce(w: World, checked: bool, a: seq<State>, b: seq<State>, x: Step, y: Step)
    requires IsRun(w, checked, a) && StepOf(w, checked, a[|a| - 1]) == x && !x.Next?
    requires IsRun(w, checked, b) && StepOf(w, checked, b[|b| - 1]) == y && !y.Next?
    ensures x == y
  {
    SameRun(w, checked, a, b);
  }

  lemma SameRun(w: World, checked: bool, a: seq<State>, b: seq<State>)
    requires IsRun(w, checked, a) && !StepOf(w, checked, a[|a| - 1]).Next?
    requires IsRun(w, checked, b) && !StepOf(w, checked, b[|b| - 1]).Next?
    ensures a == b
  {
    RunsAgree(w, checked, a, b);
  }

  /** Where one run fails, no other run returns. */
  lemma FailsMeansNoReturn(
      w: World, checked: bool, a: seq<State>, error: ResolveError, b: seq<State>, resolved: Resolved)
    requires Fails(w, checked, a, error)
    ensures !Returns(w, checked, b, resolved)
  {
    if Returns(w, checked, b, resolved) {
      EndsOnce(w, checked, a, b, Fail(error), Return(resolved));
    }
  }
}
