/** Why one iteration of resolution fails, and that it fails for no other reason. */
module ResolveFailures {
  import opened Bytes
  import opened Wrappers
  import opened Json
  import opened Metadata
  import opened Fetch
  import opened Resolve
  import opened Signing
  import opened Validation

  /** The document has this payload where the machine looks. */
  predicate HasPayload(w: World, doc: Json, p: Payload) {
    ConfigOf(w, doc).Some? && ConfigOf(w, doc).value.entry == PayloadEntry(p)
  }

  predicate HasPointer(w: World, doc: Json, m: ManifestRef) {
    ConfigOf(w, doc).Some? && ConfigOf(w, doc).value.entry == ManifestEntry(m)
  }

  /** A hop was recorded that was served under this URL and has this digest. */
  predicate Visited(history: seq<ManifestRef>, url: string, hash: string) {
    exists i :: 0 <= i < |history| && WasServed(history[i], url, hash)
  }

  predicate WasServed(r: ManifestRef, url: string, hash: string) {
    r.url == [url] && r.sha256 == Some(hash)
  }

  lemma SeenIff(history: seq<ManifestRef>, url: string, hash: string)
    ensures Seen(history, url, hash) <==> Visited(history, url, hash)
  {
    if Seen(history, url, hash) {
      var i :| 0 <= i < |history| && history[i].sha256 == Some(hash) && history[i].url == [url];
      assert WasServed(history[i], url, hash);
    }
  }

  ghost predicate PayloadRefused(w: World, s: State, p: Payload, e: ResolveError) {
    match e
    case InvalidPayload(why) => FirstProblem(p, true, why)
    case FetchFailed(last) =>
      exists mode ::
        Admission(p, Stage1) == Ok(mode) && AdmitPayload(w.env, w.net, mode, s.now, p.url).result == Err(last)
    case _ => false
  }

  ghost predicate PointerRefused(w: World, s: State, m: ManifestRef, e: ResolveError) {
    var fetched := FetchManifest(w.env, w.net, m, s.now).result;
    match e
    case InvalidManifest(why) => FirstManifestProblem(m, true, why)
    case FetchFailed(last) => ValidateManifest(m, Stage1).Ok? && fetched == Err(last)
    case Cycle(url, hash) =>
      && ValidateManifest(m, Stage1).Ok? && fetched.Ok? && fetched.value.url == url && fetched.value.hash == hash
      && Visited(s.history, url, hash)
    case BadManifest =>
      && ValidateManifest(m, Stage1).Ok? && fetched.Ok? && w.env.parse(fetched.value.bytes).None?
      && !Visited(s.history, fetched.value.url, fetched.value.hash)
    case _ => false
  }

  /** What the document, the history and the network say to this failure. */
  ghost predicate Explains(w: World, s: State, e: ResolveError) {
    match e
    case NoEntry => EntryAt(s.doc, w.env.arch).None?
    case BadEntry => EntryAt(s.doc, w.env.arch).Some? && ConfigOf(w, s.doc).None?
    case _ =>
      || (exists p :: HasPayload(w, s.doc, p) && PayloadRefused(w, s, p, e))
      || (exists m :: HasPointer(w, s.doc, m) && PointerRefused(w, s, m, e))
  }

  lemma PayloadFailsIff(w: World, s: State, p: Payload, e: ResolveError)
    requires HasPayload(w, s.doc, p)
    ensures StepOf(w, true, s) == Fail(e) <==> PayloadRefused(w, s, p, e)
  {
    assert StepOf(w, true, s) == PayloadStep(w, s, p);
    NeverVanished(w, true, s);
    match Admission(p, Stage1)
    case Ok(mode) => RefusedWithFirst(p, Stage1);
    case Err(why) =>
      if e.InvalidPayload? {
        RefusedIff(p, Stage1, e.why);
      }
  }

  lemma PointerFailsIff(w: World, s: State, m: ManifestRef, e: ResolveError)
    requires HasPointer(w, s.doc, m)
    ensures StepOf(w, true, s) == Fail(e) <==> PointerRefused(w, s, m, e)
  {
    assert StepOf(w, true, s) == ManifestStep(w, true, s, m);
    var fetched := FetchManifest(w.env, w.net, m, s.now).result;
    if fetched.Ok? {
      SeenIff(s.history, fetched.value.url, fetched.value.hash);
    }
    match ValidateManifest(m, Stage1)
    case Ok(_) => ManifestRefusedWithFirst(m, Stage1);
    case Err(why) =>
      if e.InvalidManifest? {
        ManifestRefusedIff(m, Stage1, e.why);
      }
  }

  /** An iteration fails with this error exactly if that is what it found. */
  lemma StepFailsIff(w: World, s: State, e: ResolveError)
    ensures StepOf(w, true, s) == Fail(e) <==> Explains(w, s, e)
  {
    match ConfigOf(w, s.doc)
    case None =>
    case Some(ArchConfig(PayloadEntry(p), _)) => PayloadFailsIff(w, s, p, e);
    case Some(ArchConfig(ManifestEntry(m), _)) => PointerFailsIff(w, s, m, e);
  }
}
