/** The JSON of the admission metadata, member by member: what is written, and exactly what is read. */
module WireFormat {
  import opened Bytes
  import opened Wrappers
  import opened Json
  import opened Metadata
  import Signing
  import Base64

  // ---- Values ----

  /** The strings of an array, in order. */
  predicate IsStrings(j: Json, l: seq<string>) {
    j.Arr? && |j.items| == |l| && forall i :: 0 <= i < |l| ==> j.items[i] == Str(l[i])
  }

  /** One URL, or an array of them. */
  predicate IsUrls(j: Json, l: UrlList) {
    (j.Str? && l == [j.s]) || IsStrings(j, l)
  }

  predicate IsText(j: Json, s: string) {
    j == Str(s)
  }

  lemma StringsIff(j: Json, l: seq<string>)
    ensures ParseStrings(j) == Some(l) <==> IsStrings(j, l)
  {
    if IsStrings(j, l) {
      assert ParseStrings(j).value == l;
    }
  }

  lemma UrlsIff(j: Json, l: UrlList)
    ensures ParseUrls(j) == Some(l) <==> IsUrls(j, l)
  {
    StringsIff(j, l);
  }

  lemma StrIff(j: Json, s: string)
    ensures ParseStr(j) == Some(s) <==> IsText(j, s)
  {}

  // ---- What is written ----

  /** A list is written as a bare string if it has one member, as an array otherwise. */
  lemma UrlsWritten(l: UrlList)
    ensures RenderUrls(l).Str? <==> |l| == 1
    ensures IsUrls(RenderUrls(l), l)
  {
    if |l| == 1 {
      assert [l[0]] == l;
    }
  }

  const PAYLOAD_NAMES := {"url", "sha256", "ed25519", "sig_url", "args", "args_url", "args_sig_url"}

  /** A member is there exactly if it is given, and then as it is written. */
  predicate Writes<T>(m: map<string, Json>, name: string, v: Option<T>, shows: (Json, T) -> bool) {
    (name in m <==> v.Some?) && (v.Some? ==> shows(m[name], v.value))
  }

  /** A list as it is written: a string if it has one member. */
  predicate IsWrittenList(j: Json, l: UrlList) {
    IsUrls(j, l) && (j.Str? <==> |l| == 1)
  }

  /** Exactly the members that are there, under their names. */
  predicate WritesPayload(m: map<string, Json>, p: Payload) {
    && m.Keys <= PAYLOAD_NAMES && "url" in m && IsWrittenList(m["url"], p.url)
    && Writes(m, "sha256", p.sha256, IsText) && Writes(m, "ed25519", p.ed25519, IsText)
    && Writes(m, "sig_url", p.sigUrl, IsWrittenList) && Writes(m, "args", p.args, IsStrings)
    && Writes(m, "args_url", p.argsUrl, IsWrittenList) && Writes(m, "args_sig_url", p.argsSigUrl, IsWrittenList)
  }

  lemma PayloadWritten(p: Payload)
    ensures RenderPayload(p).Obj? && WritesPayload(RenderPayload(p).m, p)
  {
    PayloadFields(p);
    var m := RenderPayload(p).m;
    assert Field(RenderPayload(p), "sha256", 1) == OptStr(p.sha256);
    UrlsWritten(p.url);
    OptUrlsWritten(p.sigUrl);
    OptUrlsWritten(p.argsUrl);
    OptUrlsWritten(p.argsSigUrl);
    PayloadNames(p);
  }

  lemma PayloadNames(p: Payload)
    ensures RenderPayload(p).m.Keys <= PAYLOAD_NAMES
  {}

  lemma OptUrlsWritten(l: Option<UrlList>)
    ensures l.Some? ==> IsWrittenList(RenderUrls(l.value), l.value)
  {
    if l.Some? {
      UrlsWritten(l.value);
    }
  }

  predicate WritesManifest(m: map<string, Json>, r: ManifestRef) {
    && m.Keys <= {"url", "ed25519", "sig_url", "sha256"} && "url" in m && IsWrittenList(m["url"], r.url)
    && "ed25519" in m && IsText(m["ed25519"], r.ed25519)
    && Writes(m, "sig_url", r.sigUrl, IsWrittenList) && Writes(m, "sha256", r.sha256, IsText)
  }

  lemma ManifestWritten(r: ManifestRef)
    ensures RenderManifest(r).Obj? && WritesManifest(RenderManifest(r).m, r)
  {
    UrlsWritten(r.url);
    OptUrlsWritten(r.sigUrl);
  }

  /** One union member, and the history only if there is one. */
  lemma ArchConfigWritten(ac: ArchConfig)
    ensures RenderArchConfig(ac).Obj?
    ensures var m := RenderArchConfig(ac).m;
      && (match ac.entry
          case PayloadEntry(p) => "manifest" !in m && "payload" in m && m["payload"] == RenderPayload(p)
          case ManifestEntry(r) => "payload" !in m && "manifest" in m && m["manifest"] == RenderManifest(r))
      && (forall k :: k in m ==> k == "payload" || k == "manifest" || k == "resolved_manifests")
      && ("resolved_manifests" in m <==> ac.resolvedManifests != [])
      && ("resolved_manifests" in m ==> m["resolved_manifests"] == RenderManifests(ac.resolvedManifests))
  {}

  // ---- What is read ----

  /** A member that may be missing or null. */
  predicate IsOptional<T>(m: map<string, Json>, name: string, v: Option<T>, shows: (Json, T) -> bool) {
    if name !in m || m[name].Null? then v.None? else v.Some? && shows(m[name], v.value)
  }

  /** The members of an object, of which only the first must be there; others are not looked at. */
  predicate ReadsPayload(m: map<string, Json>, p: Payload) {
    && "url" in m && IsUrls(m["url"], p.url)
    && IsOptional(m, "sha256", p.sha256, IsText) && IsOptional(m, "ed25519", p.ed25519, IsText)
    && IsOptional(m, "sig_url", p.sigUrl, IsUrls) && IsOptional(m, "args", p.args, IsStrings)
    && IsOptional(m, "args_url", p.argsUrl, IsUrls) && IsOptional(m, "args_sig_url", p.argsSigUrl, IsUrls)
  }

  predicate ReadsManifest(m: map<string, Json>, r: ManifestRef) {
    && "url" in m && IsUrls(m["url"], r.url) && "ed25519" in m && IsText(m["ed25519"], r.ed25519)
    && IsOptional(m, "sig_url", r.sigUrl, IsUrls) && IsOptional(m, "sha256", r.sha256, IsText)
  }

  lemma TextIff(m: map<string, Json>, name: string, v: Option<string>)
    ensures Optional(Field(Obj(m), name, 0), ParseStr) == Some(v) <==> IsOptional(m, name, v, IsText)
  {
    if name in m && v.Some? {
      StrIff(m[name], v.value);
    }
  }

  lemma UrlIff(m: map<string, Json>, name: string, v: Option<UrlList>)
    ensures Optional(Field(Obj(m), name, 0), ParseUrls) == Some(v) <==> IsOptional(m, name, v, IsUrls)
  {
    if name in m && v.Some? {
      UrlsIff(m[name], v.value);
    }
  }

  lemma ListIff(m: map<string, Json>, name: string, v: Option<seq<string>>)
    ensures Optional(Field(Obj(m), name, 0), ParseStrings) == Some(v) <==> IsOptional(m, name, v, IsStrings)
  {
    if name in m && v.Some? {
      StringsIff(m[name], v.value);
    }
  }

  /** An object is read as a payload exactly if its members are those of the payload. */
  lemma PayloadReadIff(m: map<string, Json>, p: Payload)
    ensures ParsePayload(Obj(m)) == Some(p) <==> ReadsPayload(m, p)
  {
    if "url" in m {
      UrlsIff(m["url"], p.url);
    }
    TextIff(m, "sha256", p.sha256);
    TextIff(m, "ed25519", p.ed25519);
    UrlIff(m, "sig_url", p.sigUrl);
    ListIff(m, "args", p.args);
    UrlIff(m, "args_url", p.argsUrl);
    UrlIff(m, "args_sig_url", p.argsSigUrl);
  }

  lemma ManifestReadIff(m: map<string, Json>, r: ManifestRef)
    ensures ParseManifest(Obj(m)) == Some(r) <==> ReadsManifest(m, r)
  {
    if "url" in m {
      UrlsIff(m["url"], r.url);
    }
    if "ed25519" in m {
      StrIff(m["ed25519"], r.ed25519);
    }
    UrlIff(m, "sig_url", r.sigUrl);
    TextIff(m, "sha256", r.sha256);
  }

  // ---- Structs written as arrays ----

  const PAYLOAD_FIELDS := ["url", "sha256", "ed25519", "sig_url", "args", "args_url", "args_sig_url"]
  const MANIFEST_FIELDS := ["url", "ed25519", "sig_url", "sha256"]

  predicate Distinct(names: seq<string>) {
    forall i, j :: 0 <= i < j < |names| ==> names[i] != names[j]
  }

  /** The object with these values under the names, in the order of the struct. */
  function Named(items: seq<Json>, names: seq<string>): (m: map<string, Json>)
    requires |items| <= |names| && Distinct(names)
    ensures forall i :: 0 <= i < |names| ==> (names[i] in m <==> i < |items|)
    ensures forall i :: 0 <= i < |items| ==> m[names[i]] == items[i]
  {
    NamedTo(items, names, |items|)
  }

  function NamedTo(items: seq<Json>, names: seq<string>, n: nat): (m: map<string, Json>)
    requires n <= |items| <= |names| && Distinct(names)
    ensures forall i :: 0 <= i < |names| ==> (names[i] in m <==> i < n)
    ensures forall i :: 0 <= i < n ==> m[names[i]] == items[i]
  {
    if n == 0 then map[] else NamedTo(items, names, n - 1)[names[n - 1] := items[n - 1]]
  }

  lemma FieldNames()
    ensures Distinct(PAYLOAD_FIELDS) && Distinct(MANIFEST_FIELDS)
  {}

  lemma FieldAt(items: seq<Json>, names: seq<string>, i: nat)
    requires |items| <= |names| && Distinct(names) && i < |names|
    ensures Field(Arr(items), names[i], i) == Field(Obj(Named(items, names)), names[i], i)
  {}

  /** An array is read like the object with its items under the names of the fields, if it is not too long. */
  lemma PayloadArray(items: seq<Json>)
    ensures |items| > 7 ==> ParsePayload(Arr(items)) == None
    ensures |items| <= 7 ==>
      Distinct(PAYLOAD_FIELDS) && ParsePayload(Arr(items)) == ParsePayload(Obj(Named(items, PAYLOAD_FIELDS)))
  {
    FieldNames();
    if |items| <= 7 {
      FieldAt(items, PAYLOAD_FIELDS, 0);
      FieldAt(items, PAYLOAD_FIELDS, 1);
      FieldAt(items, PAYLOAD_FIELDS, 2);
      FieldAt(items, PAYLOAD_FIELDS, 3);
      FieldAt(items, PAYLOAD_FIELDS, 4);
      FieldAt(items, PAYLOAD_FIELDS, 5);
      FieldAt(items, PAYLOAD_FIELDS, 6);
    }
  }

  lemma ManifestArray(items: seq<Json>)
    ensures |items| > 4 ==> ParseManifest(Arr(items)) == None
    ensures |items| <= 4 ==>
      Distinct(MANIFEST_FIELDS) && ParseManifest(Arr(items)) == ParseManifest(Obj(Named(items, MANIFEST_FIELDS)))
  {
    FieldNames();
    if |items| <= 4 {
      FieldAt(items, MANIFEST_FIELDS, 0);
      FieldAt(items, MANIFEST_FIELDS, 1);
      FieldAt(items, MANIFEST_FIELDS, 2);
      FieldAt(items, MANIFEST_FIELDS, 3);
    }
  }

  /** Nothing else is a struct. */
  lemma OnlyStructs(j: Json)
    requires !j.Obj? && !j.Arr?
    ensures ParsePayload(j) == None && ParseManifest(j) == None
  {}

  // ---- Entries ----

  /** The member that selects the mode; of both, the one that comes first in the map. */
  predicate ReadsEntry(m: map<string, Json>, order: KeyOrder, e: Entry) {
    match e
    case PayloadEntry(p) =>
      "payload" in m && ("manifest" in m ==> !order(m)) && ParsePayload(m["payload"]) == Some(p)
    case ManifestEntry(r) =>
      "manifest" in m && ("payload" in m ==> order(m)) && ParseManifest(m["manifest"]) == Some(r)
  }

  /** An array of records, none if the member is missing. */
  predicate ReadsHistory(m: map<string, Json>, l: seq<ManifestRef>) {
    if "resolved_manifests" !in m then l == []
    else
      var j := m["resolved_manifests"];
      j.Arr? && |j.items| == |l| && forall i :: 0 <= i < |l| ==> ParseManifest(j.items[i]) == Some(l[i])
  }

  lemma {:induction false} RecordsIff(items: seq<Json>, n: nat, l: seq<ManifestRef>)
    requires n <= |items|
    ensures ParseManifestsTo(items, n) == Some(l)
      <==> |l| == n && forall i :: 0 <= i < n ==> ParseManifest(items[i]) == Some(l[i])
  {
    if n > 0 {
      var before := ParseManifestsTo(items, n - 1);
      if before.Some? {
        RecordsIff(items, n - 1, before.value);
      }
      if |l| == n {
        RecordsIff(items, n - 1, l[..n - 1]);
        assert l == l[..n - 1] + [l[n - 1]];
      }
    }
  }

  lemma EntryIff(m: map<string, Json>, order: KeyOrder, e: Entry)
    ensures ParseEntry(m, order) == Some(e) <==> ReadsEntry(m, order, e)
  {}

  /** An entry is read exactly from an object with such a member and such a history. */
  lemma ArchConfigReadIff(m: map<string, Json>, order: KeyOrder, ac: ArchConfig)
    ensures ParseArchConfig(Obj(m), order) == Some(ac)
      <==> ReadsEntry(m, order, ac.entry) && ReadsHistory(m, ac.resolvedManifests)
  {
    EntryIff(m, order, ac.entry);
    if "resolved_manifests" in m && m["resolved_manifests"].Arr? {
      var items := m["resolved_manifests"].items;
      RecordsIff(items, |items|, ac.resolvedManifests);
    }
  }
}
