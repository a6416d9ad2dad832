/** A fully pinned document resolves to the same payload over every network that lets it resolve. */
module ResolveIndependence {
  import opened Bytes
  import opened Wrappers
  import opened Json
  import opened Metadata
  import opened Fetch
  import opened Resolve
  import opened ResolveTheorems
  import opened ResolveCycle
  import opened Signing

  /** No byte string of one network shares its digest with a different one of the other. */
  ghost predicate CollisionFree(c: Scheme, a: Net, b: Net) {
    forall url, url', x, y :: Serves(a, url, x) && Serves(b, url', y) && c.sha256(x) == c.sha256(y) ==> x == y
  }

  /** The manifest pointer, or the payload, that the document holds carries a digest. */
  predicate Pinned(w: World, doc: Json) {
    ConfigOf(w, doc).Some? ==>
      match ConfigOf(w, doc).value.entry
      case ManifestEntry(m) => m.sha256.Some?
      case PayloadEntry(p) => p.sha256.Some?
  }

  predicate AllPinned(w: World, run: seq<State>) {
    forall i :: 0 <= i < |run| ==> PinnedAt(w, run, i)
  }

  predicate PinnedAt(w: World, run: seq<State>, i: nat)
    requires i < |run|
  {
    Pinned(w, run[i].doc)
  }

  function Over(w: World, net: Net): World {
    World(w.env, net, w.raw)
  }

  // ---- One hop ----

  lemma PinDeterminesBytes(env: Env, a: Net, b: Net, m: ManifestRef, f: Fetched, g: Fetched)
    requires CollisionFree(env.scheme, a, b) && m.sha256.Some?
    requires Authentic(env, a, m, f) && Authentic(env, b, m, g)
    ensures f.bytes == g.bytes && f.hash == g.hash
  {
    PinDeterminesDigest(env.scheme, m.sha256.value, f.bytes, g.bytes);
  }

  lemma HopsAgree(w: World, net: Net, s: State, a: Hop, s': State, t: State, b: Hop, t': State)
    requires CollisionFree(w.env.scheme, w.net, net) && Pinned(w, s.doc) && s.doc == t.doc
    requires Takes(w, true, s, a, s') && Takes(Over(w, net), true, t, b, t')
    ensures a.pointer == b.pointer && a.fetched.hash == b.fetched.hash && s'.doc == t'.doc
  {
    HopDelegates(w, true, s, a, s');
    HopDelegates(Over(w, net), true, t, b, t');
    HopState(w, true, s, a, s');
    HopState(Over(w, net), true, t, b, t');
    SamePointer(w, net, s.doc, a.pointer, b.pointer);
    PinDeterminesBytes(w.env, w.net, net, a.pointer, a.fetched, b.fetched);
  }

  lemma SamePointer(w: World, net: Net, doc: Json, m: ManifestRef, m': ManifestRef)
    requires Pinned(w, doc) && ConfigOf(w, doc).Some? && ConfigOf(Over(w, net), doc).Some?
    requires ConfigOf(w, doc).value.entry == ManifestEntry(m)
    requires ConfigOf(Over(w, net), doc).value.entry == ManifestEntry(m')
    ensures m == m' && m.sha256.Some?
  {}

  // ---- Lockstep ----

  predicate SameButUrl(a: ManifestRef, b: ManifestRef) {
    a.ed25519 == b.ed25519 && a.sigUrl == b.sigUrl && a.sha256 == b.sha256
  }

  predicate SameHistory(a: seq<ManifestRef>, b: seq<ManifestRef>) {
    |a| == |b| && forall i :: 0 <= i < |a| ==> SameButUrl(a[i], b[i])
  }

  lemma {:induction false} Lockstep(
      w: World, net: Net, a: seq<State>, ha: seq<Hop>, b: seq<State>, hb: seq<Hop>, n: nat)
    requires CollisionFree(w.env.scheme, w.net, net) && AllPinned(w, a)
    requires HopsOf(w, true, a, ha) && HopsOf(Over(w, net), true, b, hb) && n < |a| && n < |b|
    ensures a[n].doc == b[n].doc && SameHistory(a[n].history, b[n].history)
  {
    if n > 0 {
      Lockstep(w, net, a, ha, b, hb, n - 1);
      LockstepOnce(w, net, a, ha, b, hb, n - 1);
    }
  }

  lemma LockstepOnce(
      w: World, net: Net, a: seq<State>, ha: seq<Hop>, b: seq<State>, hb: seq<Hop>, i: nat)
    requires CollisionFree(w.env.scheme, w.net, net) && AllPinned(w, a)
    requires HopsOf(w, true, a, ha) && HopsOf(Over(w, net), true, b, hb) && i < |ha| && i < |hb|
    requires SameDocAt(a, b, i)
    ensures SameDocAt(a, b, i + 1)
  {
    assert PinnedAt(w, a, i);
    TakesHere(w, true, a, ha, i);
    TakesHere(Over(w, net), true, b, hb, i);
    StatesAgree(w, net, a[i], ha[i], a[i + 1], b[i], hb[i], b[i + 1]);
  }

  lemma StatesAgree(w: World, net: Net, s: State, a: Hop, s': State, t: State, b: Hop, t': State)
    requires CollisionFree(w.env.scheme, w.net, net) && Pinned(w, s.doc)
    requires s.doc == t.doc && SameHistory(s.history, t.history)
    requires Takes(w, true, s, a, s') && Takes(Over(w, net), true, t, b, t')
    ensures s'.doc == t'.doc && SameHistory(s'.history, t'.history)
  {
    HopsAgree(w, net, s, a, s', t, b, t');
    HopState(w, true, s, a, s');
    HopState(Over(w, net), true, t, b, t');
  }

  /** A payload step and a manifest step never start from the same document. */
  lemma HopsNotAtPayload(w: World, net: Net, s: State, t: State, hop: Hop, t': State)
    requires s.doc == t.doc && AtPayload(w, s)
    ensures !Takes(Over(w, net), true, t, hop, t')
  {}

  lemma SameLength(
      w: World, net: Net, a: seq<State>, ha: seq<Hop>, b: seq<State>, hb: seq<Hop>)
    requires CollisionFree(w.env.scheme, w.net, net) && AllPinned(w, a)
    requires HopsOf(w, true, a, ha) && HopsOf(Over(w, net), true, b, hb)
    requires AtPayload(w, a[|a| - 1]) && AtPayload(Over(w, net), b[|b| - 1])
    ensures |a| == |b|
  {
    if |a| < |b| {
      var i := |a| - 1;
      Lockstep(w, net, a, ha, b, hb, i);
      HopsNotAtPayload(w, net, a[i], b[i], hb[i], b[i + 1]);
      var _ := TakesAt(Over(w, net), true, b, hb, i);
    } else if |b| < |a| {
      var i := |b| - 1;
      Lockstep(w, net, a, ha, b, hb, i);
      HopsNotAtPayload(Over(w, net), w.net, b[i], a[i], ha[i], a[i + 1]);
      var _ := TakesAt(w, true, a, ha, i);
    }
  }

  // ---- The last step ----

  lemma CheckedAtPayload(w: World, s: State, resolved: Resolved)
    requires StepOf(w, true, s) == Return(resolved)
    ensures AtPayload(w, s)
  {}

  /** What returning from a payload step shows, whatever the mode. */
  lemma PayloadReturn(w: World, s: State, p: Payload, resolved: Resolved)
    requires PayloadStep(w, s, p) == Return(resolved)
    ensures Admission(p, Stage1).Ok?
    ensures exists a ::
      && Passes(w.env, w.net, Admission(p, Stage1).value, p.url, a)
      && resolved.binary == a.binary && resolved.args == ArgsOf(a, p)
  {
    AdmittedPasses(w.env, w.net, Admission(p, Stage1).value, s.now, p.url);
  }

  lemma ReturnIsPayloadStep(w: World, s: State, resolved: Resolved)
    requires StepOf(w, true, s) == Return(resolved)
    ensures AtPayload(w, s) && PayloadStep(w, s, ConfigOf(w, s.doc).value.entry.payload) == Return(resolved)
  {}

  predicate PinnedPayload(w: World, p: Payload, resolved: Resolved) {
    && p.sha256.Some? && SameHex(p.sha256.value, Sha256Hex(w.env.scheme, resolved.binary))
    && resolved.args == (if p.args.Some? then p.args.value else [])
  }

  lemma PinnedReturn(w: World, s: State, p: Payload, resolved: Resolved)
    requires PayloadStep(w, s, p) == Return(resolved) && p.sha256.Some?
    ensures PinnedPayload(w, p, resolved) && ServesSome(w.net, p.url, resolved.binary)
  {
    PayloadReturn(w, s, p, resolved);
  }

  lemma ReturnsAgree(w: World, net: Net, s: State, x: Resolved, t: State, y: Resolved)
    requires CollisionFree(w.env.scheme, w.net, net) && Pinned(w, s.doc) && s.doc == t.doc
    requires StepOf(w, true, s) == Return(x) && StepOf(Over(w, net), true, t) == Return(y)
    ensures x.binary == y.binary && x.args == y.args
  {
    ReturnIsPayloadStep(w, s, x);
    ReturnIsPayloadStep(Over(w, net), t, y);
    PayloadsAgree(w, net, s, x, t, y, ConfigOf(w, s.doc).value.entry.payload);
  }

  lemma PayloadsAgree(
      w: World, net: Net, s: State, x: Resolved, t: State, y: Resolved, p: Payload)
    requires CollisionFree(w.env.scheme, w.net, net) && p.sha256.Some?
    requires PayloadStep(w, s, p) == Return(x) && PayloadStep(Over(w, net), t, p) == Return(y)
    ensures x.binary == y.binary && x.args == y.args
  {
    PinnedReturn(w, s, p, x);
    PinnedReturn(Over(w, net), t, p, y);
    PinDeterminesDigest(w.env.scheme, p.sha256.value, x.binary, y.binary);
  }

  /** The two documents handed on are one document, stamped with histories that differ at most in URLs. */
  ghost predicate SameUpToUrls(w: World, x: Bytes, y: Bytes) {
    x == y || exists doc, h, h' :: SameHistory(h, h') && StampedAs(w, doc, h, x) && StampedAs(w, doc, h', y)
  }

  predicate StampedAs(w: World, doc: Json, history: seq<ManifestRef>, stdin: Bytes) {
    Stamped(doc, w.env.arch, history).Some? && stdin == w.env.render(Stamped(doc, w.env.arch, history).value)
  }

  lemma StdinsAgree(w: World, net: Net, s: State, x: Resolved, t: State, y: Resolved)
    requires s.doc == t.doc && SameHistory(s.history, t.history)
    requires StepOf(w, true, s) == Return(x) && StepOf(Over(w, net), true, t) == Return(y)
    ensures SameUpToUrls(w, x.stdin, y.stdin)
  {
    FinalStep(w, true, s, x);
    FinalStep(Over(w, net), true, t, y);
    if s.history != [] {
      assert StampedAs(w, s.doc, s.history, x.stdin) && StampedAs(w, t.doc, t.history, y.stdin);
    }
  }

  /** Equally many states, with the same documents and histories that differ at most in URLs. */
  predicate SameDocs(a: seq<State>, b: seq<State>) {
    |a| == |b| && forall i :: 0 <= i < |a| ==> SameDocAt(a, b, i)
  }

  predicate SameDocAt(a: seq<State>, b: seq<State>, i: nat)
    requires i < |a| && i < |b|
  {
    a[i].doc == b[i].doc && SameHistory(a[i].history, b[i].history)
  }

  lemma DocsAgree(
      w: World, net: Net, a: seq<State>, x: Resolved, b: seq<State>, y: Resolved)
    requires Returns(w, true, a, x) && Returns(Over(w, net), true, b, y)
    requires CollisionFree(w.env.scheme, w.net, net) && AllPinned(w, a)
    ensures SameDocs(a, b)
  {
    var ha := HopsExist(w, true, a);
    var hb := HopsExist(Over(w, net), true, b);
    CheckedAtPayload(w, a[|a| - 1], x);
    CheckedAtPayload(Over(w, net), b[|b| - 1], y);
    SameLength(w, net, a, ha, b, hb);
    forall i | 0 <= i < |a| ensures SameDocAt(a, b, i) {
      Lockstep(w, net, a, ha, b, hb, i);
    }
  }

  lemma EndsAgree(w: World, net: Net, s: State, x: Resolved, t: State, y: Resolved)
    requires CollisionFree(w.env.scheme, w.net, net) && Pinned(w, s.doc)
    requires s.doc == t.doc && SameHistory(s.history, t.history)
    requires StepOf(w, true, s) == Return(x) && StepOf(Over(w, net), true, t) == Return(y)
    ensures x.binary == y.binary && x.args == y.args && SameUpToUrls(w, x.stdin, y.stdin)
  {
    ReturnsAgree(w, net, s, x, t, y);
    StdinsAgree(w, net, s, x, t, y);
  }

  /**
   * Two successful runs over any two networks follow the same chain of documents and return the same
   * binary and arguments; their input documents differ at most in the URLs of the history records.
   */
  lemma NetworkIndependent(
      w: World, net: Net, a: seq<State>, x: Resolved, b: seq<State>, y: Resolved)
    requires Returns(w, true, a, x) && Returns(Over(w, net), true, b, y)
    requires CollisionFree(w.env.scheme, w.net, net) && AllPinned(w, a)
    ensures SameDocs(a, b)
    ensures x.binary == y.binary && x.args == y.args && SameUpToUrls(w, x.stdin, y.stdin)
  {
    DocsAgree(w, net, a, x, b, y);
    LastPinned(w, a, b);
    EndsAgree(w, net, a[|a| - 1], x, b[|b| - 1], y);
  }

  lemma LastPinned(w: World, a: seq<State>, b: seq<State>)
    requires AllPinned(w, a) && SameDocs(a, b) && |a| > 0
    ensures Pinned(w, a[|a| - 1].doc)
    ensures a[|a| - 1].doc == b[|b| - 1].doc && SameHistory(a[|a| - 1].history, b[|b| - 1].history)
  {
    assert PinnedAt(w, a, |a| - 1) && SameDocAt(a, b, |a| - 1);
  }
}
