/** In a world that does not change, the cycle check rejects nothing that would resolve without it. */
module ResolveCycle {
  import opened Bytes
  import opened Wrappers
  import opened Json
  import opened Metadata
  import opened Fetch
  import opened Mirrored
  import opened Resolve
  import opened ResolveTheorems

  // ---- A repeated manifest repeats for ever ----

  /** Two hops from one URL found the same manifest. */
  lemma SameUrlSameManifest(w: World, s: State, a: Hop, s': State, t: State, b: Hop, t': State)
    requires Fixed(w.net) && Takes(w, false, s, a, s') && Takes(w, false, t, b, t')
    requires a.fetched.url == b.fetched.url
    ensures a.manifest == b.manifest
  {
    HopDelegates(w, false, s, a, s');
    HopDelegates(w, false, t, b, t');
    var i :| w.net(i, a.fetched.url) == Some(a.fetched.bytes);
    var j :| w.net(j, b.fetched.url) == Some(b.fetched.bytes);
    assert w.net(i, a.fetched.url) == w.net(j, a.fetched.url);
  }

  /** Two hops along one pointer fetched the same. */
  lemma SamePointerSameManifest(w: World, s: State, a: Hop, s': State, t: State, b: Hop, t': State)
    requires Fixed(w.net) && Takes(w, false, s, a, s') && Takes(w, false, t, b, t')
    requires a.pointer == b.pointer
    ensures a.manifest == b.manifest
  {
    HopFetches(w, s, a, s');
    HopFetches(w, t, b, t');
    FetchTimeless(w.env, w.net, a.pointer, s.now, t.now);
  }

  lemma HopFetches(w: World, s: State, hop: Hop, t: State)
    requires Takes(w, false, s, hop, t)
    ensures FetchManifest(w.env, w.net, hop.pointer, s.now).result == Ok(hop.fetched)
    ensures w.env.parse(hop.fetched.bytes) == Some(hop.manifest)
  {}

  lemma SamePointers(w: World, a: Hop, a': Hop, b: Hop, b': Hop)
    requires Names(w, a, a') && Names(w, b, b') && a.manifest == b.manifest
    ensures a'.pointer == b'.pointer
  {}

  lemma RepeatsOnce(w: World, run: seq<State>, hops: seq<Hop>, a: nat, b: nat)
    requires Fixed(w.net) && HopsOf(w, false, run, hops)
    requires 0 < a < |hops| && 0 < b < |hops| && hops[a - 1].manifest == hops[b - 1].manifest
    ensures hops[a].manifest == hops[b].manifest
  {
    RunDelegates(w, false, run, hops);
    assert NamedAt(w, hops, a) && NamedAt(w, hops, b);
    SamePointers(w, hops[a - 1], hops[a], hops[b - 1], hops[b]);
    assert TakesAt(w, false, run, hops, a);
    assert TakesAt(w, false, run, hops, b);
    SamePointerSameManifest(w, run[a], hops[a], run[a + 1], run[b], hops[b], run[b + 1]);
  }

  lemma RepeatsFirst(w: World, run: seq<State>, hops: seq<Hop>, i: nat, j: nat)
    requires Fixed(w.net) && HopsOf(w, false, run, hops)
    requires i < |hops| && j < |hops| && PairOf(hops[i].fetched) == PairOf(hops[j].fetched)
    ensures hops[i].manifest == hops[j].manifest
  {
    assert TakesAt(w, false, run, hops, i) && TakesAt(w, false, run, hops, j);
    SameUrlSameManifest(w, run[i], hops[i], run[i + 1], run[j], hops[j], run[j + 1]);
  }

  lemma {:induction false} Repeats(w: World, run: seq<State>, hops: seq<Hop>, i: nat, j: nat, k: nat)
    requires Fixed(w.net) && HopsOf(w, false, run, hops)
    requires i < j && j + k < |hops| && PairOf(hops[i].fetched) == PairOf(hops[j].fetched)
    ensures hops[i + k].manifest == hops[j + k].manifest
  {
    if k == 0 {
      RepeatsFirst(w, run, hops, i, j);
    } else {
      Repeats(w, run, hops, i, j, k - 1);
      RepeatsOnce(w, run, hops, i + k, j + k);
    }
  }

  predicate AtPayload(w: World, s: State) {
    ConfigOf(w, s.doc).Some? && ConfigOf(w, s.doc).value.entry.PayloadEntry?
  }

  /** With `manifest` chosen first, a document at a payload has no pointer. */
  lemma PayloadMeansNoPointer(w: World, s: State)
    requires ManifestFirst(w.env.order) && AtPayload(w, s)
    ensures PointerAt(s.doc, w.env.arch).None?
  {
    var e := EntryAt(s.doc, w.env.arch).value;
    assert w.env.order(e.m);
  }

  lemma NoRepeatBeforePayload(w: World, run: seq<State>, hops: seq<Hop>, i: nat, j: nat)
    requires Fixed(w.net) && ManifestFirst(w.env.order) && HopsOf(w, false, run, hops)
    requires AtPayload(w, run[|run| - 1]) && i < j < |hops|
    ensures PairOf(hops[i].fetched) != PairOf(hops[j].fetched)
  {
    var last := |hops| - 1;
    var k := last - j;
    PayloadMeansNoPointer(w, run[last + 1]);
    if PairOf(hops[i].fetched) == PairOf(hops[j].fetched) {
      Repeats(w, run, hops, i, j, k);
      RecurringPointer(w, run, hops, i + k);
    }
  }

  /** A manifest that a hop followed and that recurs as the last one leaves a pointer in the last document. */
  lemma RecurringPointer(w: World, run: seq<State>, hops: seq<Hop>, i: nat)
    requires HopsOf(w, false, run, hops) && i + 1 < |hops| && hops[i].manifest == hops[|hops| - 1].manifest
    ensures PointerAt(run[|hops|].doc, w.env.arch).Some?
  {
    RunDelegates(w, false, run, hops);
    assert DelegatedAt(w, run, hops, |hops| - 1) && NamedAt(w, hops, i + 1);
  }

  // ---- With and without the check ----

  lemma UncheckedHop(w: World, s: State, hop: Hop, t: State)
    requires Takes(w, true, s, hop, t)
    ensures Takes(w, false, s, hop, t)
  {}

  lemma CheckedHop(w: World, s: State, hop: Hop, t: State)
    requires Takes(w, false, s, hop, t) && !Seen(s.history, hop.fetched.url, hop.fetched.hash)
    ensures Takes(w, true, s, hop, t)
  {}

  lemma SameReturn(w: World, s: State, resolved: Resolved)
    ensures StepOf(w, true, s) == Return(resolved) <==> StepOf(w, false, s) == Return(resolved)
  {}

  lemma ReturnsAtPayload(w: World, s: State, resolved: Resolved)
    requires StepOf(w, false, s) == Return(resolved)
    ensures AtPayload(w, s)
  {}

  lemma RunOfHops(w: World, checked: bool, run: seq<State>, hops: seq<Hop>)
    requires |run| == |hops| + 1 && Initial(w, run[0])
    requires forall i :: 0 <= i < |hops| ==> TakesAt(w, checked, run, hops, i)
    ensures IsRun(w, checked, run)
  {
    forall i | 0 <= i < |run| - 1 ensures LeadsAt(w, checked, run, i) {
      assert TakesAt(w, checked, run, hops, i);
    }
  }

  lemma NotSeenYet(w: World, run: seq<State>, hops: seq<Hop>, j: nat)
    requires HopsOf(w, false, run, hops) && DistinctHops(hops) && j < |hops|
    ensures !Seen(run[j].history, hops[j].fetched.url, hops[j].fetched.hash)
  {
    StateAfter(w, false, run, hops, j);
    var h := run[j].history;
    forall i | 0 <= i < |h|
      ensures !(h[i].sha256 == Some(hops[j].fetched.hash) && h[i].url == [hops[j].fetched.url])
    {
      assert hops[..j][i] == hops[i];
      assert PairOf(hops[i].fetched) != PairOf(hops[j].fetched);
      assert h[i].url == [hops[i].fetched.url];
      assert h[i].url[0] == hops[i].fetched.url;
    }
  }

  lemma DroppingTheCheck(w: World, run: seq<State>, resolved: Resolved)
    requires Returns(w, true, run, resolved)
    ensures Returns(w, false, run, resolved)
  {
    var hops := HopsExist(w, true, run);
    forall i | 0 <= i < |hops| ensures TakesAt(w, false, run, hops, i) {
      assert TakesAt(w, true, run, hops, i);
      UncheckedHop(w, run[i], hops[i], run[i + 1]);
    }
    RunOfHops(w, false, run, hops);
    SameReturn(w, run[|run| - 1], resolved);
  }

  lemma AddingTheCheck(w: World, run: seq<State>, resolved: Resolved)
    requires Fixed(w.net) && ManifestFirst(w.env.order) && Returns(w, false, run, resolved)
    ensures Returns(w, true, run, resolved)
  {
    var hops := HopsExist(w, false, run);
    ReturnsAtPayload(w, run[|run| - 1], resolved);
    forall i, j | 0 <= i < j < |hops| ensures PairOf(hops[i].fetched) != PairOf(hops[j].fetched) {
      NoRepeatBeforePayload(w, run, hops, i, j);
    }
    forall j | 0 <= j < |hops| ensures TakesAt(w, true, run, hops, j) {
      NotSeenYet(w, run, hops, j);
      assert TakesAt(w, false, run, hops, j);
      CheckedHop(w, run[j], hops[j], run[j + 1]);
    }
    RunOfHops(w, true, run, hops);
    SameReturn(w, run[|run| - 1], resolved);
  }

  /** In a fixed world exactly the same runs return the same results with the cycle check and without it. */
  lemma CycleCheckExact(w: World, run: seq<State>, resolved: Resolved)
    requires Fixed(w.net) && ManifestFirst(w.env.order)
    ensures Returns(w, true, run, resolved) <==> Returns(w, false, run, resolved)
  {
    if Returns(w, true, run, resolved) {
      DroppingTheCheck(w, run, resolved);
    }
    if Returns(w, false, run, resolved) {
      AddingTheCheck(w, run, resolved);
    }
  }

  /** A run that the check aborts would not have returned anything without it. */
  lemma AbortedNeverReturns(
      w: World, aborted: seq<State>, url: string, hash: string, run: seq<State>, resolved: Resolved)
    requires Fixed(w.net) && ManifestFirst(w.env.order) && Fails(w, true, aborted, Cycle(url, hash))
    ensures !Returns(w, false, run, resolved)
  {
    if Returns(w, false, run, resolved) {
      AddingTheCheck(w, run, resolved);
      FailsMeansNoReturn(w, true, aborted, Cycle(url, hash), run, resolved);
    }
  }
}
