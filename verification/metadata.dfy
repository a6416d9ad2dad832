/** The admission metadata: its types, their JSON form, and validation. */
module Metadata {
  import opened Wrappers
  import opened Json
  import Base64
  import Signing

  type UrlList = seq<string>

  datatype Payload = Payload(
    url: UrlList, sha256: Option<string>, ed25519: Option<string>, sigUrl: Option<UrlList>,
    args: Option<seq<string>>, argsUrl: Option<UrlList>, argsSigUrl: Option<UrlList>)

  datatype ManifestRef = ManifestRef(url: UrlList, ed25519: string, sigUrl: Option<UrlList>, sha256: Option<string>)

  datatype Entry = PayloadEntry(payload: Payload) | ManifestEntry(manifest: ManifestRef)

  datatype ArchConfig = ArchConfig(entry: Entry, resolvedManifests: seq<ManifestRef>)

  // ---- To JSON ----

  function RenderStrings(l: seq<string>): (j: Json)
    ensures j.Arr? && |j.items| == |l| && forall i :: 0 <= i < |l| ==> j.items[i] == Str(l[i])
  {
    Arr(seq(|l|, i requires 0 <= i < |l| => Str(l[i])))
  }

  /** A single URL is written as a bare string. */
  function RenderUrls(l: UrlList): Json {
    if |l| == 1 then Str(l[0]) else RenderStrings(l)
  }

  /** Adds a field, unless it is absent. */
  function With(m: map<string, Json>, key: string, field: Option<Json>): map<string, Json> {
    if field.Some? then m[key := field.value] else m
  }

  function OptStr(s: Option<string>): Option<Json> {
    if s.Some? then Some(Str(s.value)) else None
  }

  function OptUrls(l: Option<UrlList>): Option<Json> {
    if l.Some? then Some(RenderUrls(l.value)) else None
  }

  function OptStrings(l: Option<seq<string>>): Option<Json> {
    if l.Some? then Some(RenderStrings(l.value)) else None
  }

  function RenderPayload(p: Payload): Json {
    var m := map["url" := RenderUrls(p.url)];
    var m := With(With(m, "sha256", OptStr(p.sha256)), "ed25519", OptStr(p.ed25519));
    var m := With(With(m, "sig_url", OptUrls(p.sigUrl)), "args", OptStrings(p.args));
    Obj(With(With(m, "args_url", OptUrls(p.argsUrl)), "args_sig_url", OptUrls(p.argsSigUrl)))
  }

  function RenderManifest(r: ManifestRef): Json {
    var m := map["url" := RenderUrls(r.url), "ed25519" := Str(r.ed25519)];
    Obj(With(With(m, "sig_url", OptUrls(r.sigUrl)), "sha256", OptStr(r.sha256)))
  }

  function RenderManifests(l: seq<ManifestRef>): (j: Json)
    ensures j.Arr? && |j.items| == |l| && forall i :: 0 <= i < |l| ==> j.items[i] == RenderManifest(l[i])
  {
    Arr(seq(|l|, i requires 0 <= i < |l| => RenderManifest(l[i])))
  }

  function RenderArchConfig(ac: ArchConfig): Json {
    var m := match ac.entry
             case PayloadEntry(p) => map["payload" := RenderPayload(p)]
             case ManifestEntry(r) => map["manifest" := RenderManifest(r)];
    Obj(if ac.resolvedManifests == [] then m
        else m["resolved_manifests" := RenderManifests(ac.resolvedManifests)])
  }

  // ---- From JSON ----

  function ParseStr(j: Json): Option<string> {
    if j.Str? then Some(j.s) else None
  }

  function ParseStrings(j: Json): Option<seq<string>> {
    if j.Arr? && forall i :: 0 <= i < |j.items| ==> j.items[i].Str? then
      Some(seq(|j.items|, i requires 0 <= i < |j.items| => if j.items[i].Str? then j.items[i].s else ""))
    else None
  }

  function ParseUrls(j: Json): Option<UrlList> {
    if j.Str? then Some([j.s]) else ParseStrings(j)
  }

  /** A struct is read from an object, or from an array holding its fields in order, later ones left out. */
  predicate IsStruct(j: Json, fields: nat) {
    j.Obj? || (j.Arr? && |j.items| <= fields)
  }

  function Field(j: Json, name: string, position: nat): Option<Json> {
    if j.Obj? then (if name in j.m then Some(j.m[name]) else None)
    else if j.Arr? && position < |j.items| then Some(j.items[position])
    else None
  }

  /** An optional field: missing or null is `Some(None)`, ill-formed is `None`. */
  function Optional<T>(field: Option<Json>, parse: Json -> Option<T>): Option<Option<T>> {
    if field.None? || field.value.Null? then Some(None)
    else match parse(field.value)
         case None => None
         case Some(v) => Some(Some(v))
  }

  function Required<T>(field: Option<Json>, parse: Json -> Option<T>): Option<T> {
    if field.None? then None else parse(field.value)
  }

  function ParsePayload(j: Json): Option<Payload> {
    var url := Required(Field(j, "url", 0), ParseUrls);
    var sha256 := Optional(Field(j, "sha256", 1), ParseStr);
    var ed25519 := Optional(Field(j, "ed25519", 2), ParseStr);
    var sigUrl := Optional(Field(j, "sig_url", 3), ParseUrls);
    var args := Optional(Field(j, "args", 4), ParseStrings);
    var argsUrl := Optional(Field(j, "args_url", 5), ParseUrls);
    var argsSigUrl := Optional(Field(j, "args_sig_url", 6), ParseUrls);
    if IsStruct(j, 7) && url.Some? && sha256.Some? && ed25519.Some? && sigUrl.Some? && args.Some? && argsUrl.Some?
       && argsSigUrl.Some?
    then Some(Payload(url.value, sha256.value, ed25519.value, sigUrl.value, args.value, argsUrl.value,
                      argsSigUrl.value))
    else None
  }

  function ParseManifest(j: Json): Option<ManifestRef> {
    var url := Required(Field(j, "url", 0), ParseUrls);
    var ed25519 := Required(Field(j, "ed25519", 1), ParseStr);
    var sigUrl := Optional(Field(j, "sig_url", 2), ParseUrls);
    var sha256 := Optional(Field(j, "sha256", 3), ParseStr);
    if IsStruct(j, 4) && url.Some? && ed25519.Some? && sigUrl.Some? && sha256.Some?
    then Some(ManifestRef(url.value, ed25519.value, sigUrl.value, sha256.value))
    else None
  }

  /** The first `n` records, all of which must be well-formed. */
  function ParseManifestsTo(items: seq<Json>, n: nat): (r: Option<seq<ManifestRef>>)
    requires n <= |items|
    ensures r.Some? ==> |r.value| == n
  {
    if n == 0 then Some([])
    else match (ParseManifestsTo(items, n - 1), ParseManifest(items[n - 1]))
         case (Some(l), Some(r)) => Some(l + [r])
         case _ => None
  }

  function ParseManifests(j: Json): Option<seq<ManifestRef>> {
    if j.Arr? then ParseManifestsTo(j.items, |j.items|) else None
  }

  /** Which union key comes first in a map holding both; `true` everywhere for a map sorted by key. */
  type KeyOrder = map<string, Json> -> bool

  /** The map is sorted, so that `manifest` comes before `payload`. */
  ghost predicate ManifestFirst(order: KeyOrder) {
    forall m :: order(m)
  }

  function ParseEntry(m: map<string, Json>, order: KeyOrder): Option<Entry> {
    if "manifest" in m && ("payload" !in m || order(m)) then
      match ParseManifest(m["manifest"])
      case None => None
      case Some(r) => Some(ManifestEntry(r))
    else if "payload" in m then
      match ParsePayload(m["payload"])
      case None => None
      case Some(p) => Some(PayloadEntry(p))
    else None
  }

  function ParseArchConfig(j: Json, order: KeyOrder): Option<ArchConfig> {
    if !j.Obj? then None
    else
      var resolved := if "resolved_manifests" in j.m then ParseManifests(j.m["resolved_manifests"]) else Some([]);
      match (ParseEntry(j.m, order), resolved)
      case (Some(e), Some(l)) => Some(ArchConfig(e, l))
      case _ => None
  }

  // ---- Round trips ----

  lemma StringsRoundTrip(l: seq<string>)
    ensures ParseStrings(RenderStrings(l)) == Some(l)
  {
    assert ParseStrings(RenderStrings(l)).value == l;
  }

  lemma UrlsRoundTrip(l: UrlList)
    ensures ParseUrls(RenderUrls(l)) == Some(l)
  {
    StringsRoundTrip(l);
    if |l| == 1 {
      assert [l[0]] == l;
    }
  }

  lemma OptRoundTrip(s: Option<string>, l: Option<UrlList>, a: Option<seq<string>>)
    ensures Optional(OptStr(s), ParseStr) == Some(s)
    ensures Optional(OptUrls(l), ParseUrls) == Some(l)
    ensures Optional(OptStrings(a), ParseStrings) == Some(a)
  {
    if l.Some? {
      UrlsRoundTrip(l.value);
    }
    if a.Some? {
      StringsRoundTrip(a.value);
    }
  }

  lemma ManifestRoundTrip(r: ManifestRef)
    ensures ParseManifest(RenderManifest(r)) == Some(r)
  {
    UrlsRoundTrip(r.url);
    OptRoundTrip(r.sha256, r.sigUrl, None);
    var j := RenderManifest(r);
    assert Field(j, "url", 0) == Some(RenderUrls(r.url)) && Field(j, "ed25519", 1) == Some(Str(r.ed25519));
    assert Field(j, "sig_url", 2) == OptUrls(r.sigUrl) && Field(j, "sha256", 3) == OptStr(r.sha256);
  }

  lemma PayloadFields(p: Payload)
    ensures var j := RenderPayload(p);
      && Field(j, "url", 0) == Some(RenderUrls(p.url))
      && Field(j, "sha256", 1) == OptStr(p.sha256) && Field(j, "ed25519", 2) == OptStr(p.ed25519)
      && Field(j, "sig_url", 3) == OptUrls(p.sigUrl) && Field(j, "args", 4) == OptStrings(p.args)
      && Field(j, "args_url", 5) == OptUrls(p.argsUrl) && Field(j, "args_sig_url", 6) == OptUrls(p.argsSigUrl)
  {}

  lemma PayloadRoundTrip(p: Payload)
    ensures ParsePayload(RenderPayload(p)) == Some(p)
  {
    PayloadFields(p);
    UrlsRoundTrip(p.url);
    OptRoundTrip(p.sha256, p.sigUrl, p.args);
    OptRoundTrip(p.ed25519, p.argsUrl, None);
    OptRoundTrip(None, p.argsSigUrl, None);
  }

  lemma ManifestsRoundTrip(l: seq<ManifestRef>)
    ensures ParseManifests(RenderManifests(l)) == Some(l)
  {
    var j := RenderManifests(l);
    ManifestsRoundTripTo(l, j.items, |l|);
    assert ParseManifestsTo(j.items, |l|).value == l;
  }

  lemma {:induction false} ManifestsRoundTripTo(l: seq<ManifestRef>, items: seq<Json>, n: nat)
    requires n <= |l| == |items| && forall i :: 0 <= i < |l| ==> items[i] == RenderManifest(l[i])
    ensures ParseManifestsTo(items, n).Some?
    ensures forall i :: 0 <= i < n ==> ParseManifestsTo(items, n).value[i] == l[i]
  {
    if n > 0 {
      ManifestsRoundTripTo(l, items, n - 1);
      var item := items[n - 1];
      assert ParseManifest(item) == Some(l[n - 1]) by {
        ManifestRoundTrip(l[n - 1]);
      }
    }
  }

  /** Writing an entry and reading it back is the identity, whatever the order of map keys. */
  lemma ArchConfigRoundTrip(ac: ArchConfig, order: KeyOrder)
    ensures ParseArchConfig(RenderArchConfig(ac), order) == Some(ac)
  {
    ManifestsRoundTrip(ac.resolvedManifests);
    match ac.entry
    case PayloadEntry(p) => PayloadRoundTrip(p);
    case ManifestEntry(r) => ManifestRoundTrip(r);
  }

  // ---- Validation ----

  datatype Profile = Stage0 | Stage1

  datatype Admit = Sha256(expected: string)
                 | Ed25519(pubkey: string, sigUrl: Option<UrlList>, argsUrl: Option<UrlList>,
                           argsSigUrl: Option<UrlList>)

  datatype Invalid = BadUrl | BadSigUrl | BadArgsUrl | BadArgsSigUrl | ArgsSigWithoutArgs | BothModes | NoMode
                   | ArgsNeedKey | BadSha256 | KeyNotBase64 | KeyLength

  predicate IsGraphic(s: string) {
    forall i :: 0 <= i < |s| ==> '!' <= s[i] <= '~'
  }

  predicate OkUrl(s: string, allowHttps: bool) {
    ("http://" <= s || (allowHttps && "https://" <= s)) && IsGraphic(s)
  }

  predicate OkList(l: UrlList, allowHttps: bool) {
    |l| > 0 && forall i :: 0 <= i < |l| ==> OkUrl(l[i], allowHttps)
  }

  predicate OkOptional(l: Option<UrlList>, allowHttps: bool) {
    l.Some? ==> OkList(l.value, allowHttps)
  }

  predicate IsHexDigit(c: char) {
    '0' <= c <= '9' || 'a' <= c <= 'f' || 'A' <= c <= 'F'
  }

  predicate OkSha256(s: string) {
    |s| == 64 && forall i :: 0 <= i < |s| ==> IsHexDigit(s[i])
  }

  function OkPubkey(s: string): Result<(), Invalid> {
    match Base64.Decode(Signing.Trim(s))
    case None => Err(KeyNotBase64)
    case Some(key) => if |key| == 32 then Ok(()) else Err(KeyLength)
  }

  /** The admission mode a payload selects, or the first thing wrong with it. */
  function Admission(p: Payload, profile: Profile): Result<Admit, Invalid> {
    var https := profile.Stage1?;
    if !OkList(p.url, https) then Err(BadUrl)
    else if !OkOptional(p.sigUrl, https) then Err(BadSigUrl)
    else if !OkOptional(p.argsUrl, https) then Err(BadArgsUrl)
    else if !OkOptional(p.argsSigUrl, https) then Err(BadArgsSigUrl)
    else if p.argsSigUrl.Some? && p.argsUrl.None? then Err(ArgsSigWithoutArgs)
    else match (p.sha256, p.ed25519)
         case (Some(_), Some(_)) => Err(BothModes)
         case (None, None) => Err(NoMode)
         case (Some(hex), None) =>
           if p.argsUrl.Some? then Err(ArgsNeedKey)
           else if !OkSha256(hex) then Err(BadSha256)
           else Ok(Sha256(hex))
         case (None, Some(pubkey)) =>
           match OkPubkey(pubkey)
           case Err(e) => Err(e)
           case Ok(_) => Ok(Ed25519(pubkey, p.sigUrl, p.argsUrl, p.argsSigUrl))
  }

  function ValidateManifest(r: ManifestRef, profile: Profile): Result<(), Invalid> {
    var https := profile.Stage1?;
    if !OkList(r.url, https) then Err(BadUrl)
    else if !OkOptional(r.sigUrl, https) then Err(BadSigUrl)
    else if r.sha256.Some? && !OkSha256(r.sha256.value) then Err(BadSha256)
    else OkPubkey(r.ed25519)
  }

  function Validate(ac: ArchConfig, profile: Profile): Result<(), Invalid> {
    match ac.entry
    case PayloadEntry(p) =>
      (match Admission(p, profile)
       case Ok(_) => Ok(())
       case Err(e) => Err(e))
    case ManifestEntry(r) => ValidateManifest(r, profile)
  }

  /** Every URL given is admissible under the profile. */
  predicate UrlsOk(p: Payload, https: bool) {
    && OkList(p.url, https) && OkOptional(p.sigUrl, https)
    && OkOptional(p.argsUrl, https) && OkOptional(p.argsSigUrl, https)
  }

  /** Exactly one mode, well-formed; signed arguments only under a key, their signature only with them. */
  lemma AdmissionIff(p: Payload, profile: Profile)
    ensures Admission(p, profile).Ok?
      <==> && UrlsOk(p, profile.Stage1?)
           && (p.sha256.Some? <==> p.ed25519.None?)
           && (p.argsSigUrl.Some? ==> p.argsUrl.Some?) && (p.argsUrl.Some? ==> p.ed25519.Some?)
           && (p.sha256.Some? ==> OkSha256(p.sha256.value))
           && (p.ed25519.Some? ==> OkPubkey(p.ed25519.value).Ok?)
    ensures Admission(p, profile).Ok? ==> (Admission(p, profile).value.Sha256? <==> p.sha256.Some?)
  {}

  lemma OkListWidens(l: UrlList)
    requires OkList(l, false)
    ensures OkList(l, true)
  {}

  lemma OkOptionalWidens(l: Option<UrlList>)
    requires OkOptional(l, false)
    ensures OkOptional(l, true)
  {
    if l.Some? {
      OkListWidens(l.value);
    }
  }

  /** What stage 0 admits, stage 1 admits in the same mode. */
  lemma AdmissionWidens(p: Payload)
    requires Admission(p, Stage0).Ok?
    ensures Admission(p, Stage1) == Admission(p, Stage0)
  {
    OkListWidens(p.url);
    OkOptionalWidens(p.sigUrl);
    OkOptionalWidens(p.argsUrl);
    OkOptionalWidens(p.argsSigUrl);
  }

  lemma ValidateWidens(ac: ArchConfig)
    requires Validate(ac, Stage0).Ok?
    ensures Validate(ac, Stage1).Ok?
  {
    match ac.entry
    case PayloadEntry(p) => AdmissionWidens(p);
    case ManifestEntry(r) =>
      OkListWidens(r.url);
      OkOptionalWidens(r.sigUrl);
  }
}
