/** Validation by its rules: what a URL, a digest, a key, a payload and a manifest record must be. */
module Validation {
  import opened Bytes
  import opened Wrappers
  import opened Metadata
  import opened Signing
  import opened SigningDomains
  import opened ContentAddress
  import Base64

  /** Plain HTTP, or HTTPS where that is allowed, in printable ASCII without blanks. */
  predicate IsUrl(s: string, allowHttps: bool) {
    && (IsAt(s, "http://") || (allowHttps && IsAt(s, "https://")))
    && forall i :: 0 <= i < |s| ==> 33 <= s[i] as int <= 126
  }

  predicate IsAt(s: string, start: string) {
    |start| <= |s| && s[..|start|] == start
  }

  lemma UrlOkIff(s: string, allowHttps: bool)
    ensures OkUrl(s, allowHttps) <==> IsUrl(s, allowHttps)
  {
    StartIff(s, "http://");
    StartIff(s, "https://");
  }

  lemma StartIff(s: string, start: string)
    ensures IsAt(s, start) <==> start <= s
  {
    if IsAt(s, start) {
      assert s == s[..|start|] + s[|start|..];
    }
  }

  predicate AreUrls(l: UrlList, allowHttps: bool) {
    l != [] && forall i :: 0 <= i < |l| ==> IsUrl(l[i], allowHttps)
  }

  lemma ListOkIff(l: UrlList, allowHttps: bool)
    ensures OkList(l, allowHttps) <==> AreUrls(l, allowHttps)
  {
    forall i | 0 <= i < |l| ensures OkUrl(l[i], allowHttps) <==> IsUrl(l[i], allowHttps) {
      UrlOkIff(l[i], allowHttps);
    }
  }

  predicate AreUrlsIfAny(l: Option<UrlList>, allowHttps: bool) {
    l.Some? ==> AreUrls(l.value, allowHttps)
  }

  lemma OptionalOkIff(l: Option<UrlList>, allowHttps: bool)
    ensures OkOptional(l, allowHttps) <==> AreUrlsIfAny(l, allowHttps)
  {
    if l.Some? {
      ListOkIff(l.value, allowHttps);
    }
  }

  /** The byte that two digits spell. */
  function Spelt(high: char, low: char): Byte
    requires DigitValue(high).Some? && DigitValue(low).Some?
  {
    DigitValue(high).value * 16 + DigitValue(low).value
  }

  lemma SpeltDigits(high: char, low: char)
    requires DigitValue(high).Some? && DigitValue(low).Some?
    ensures DigitValue(high) == Some(Spelt(high, low) / 16) && DigitValue(low) == Some(Spelt(high, low) % 16)
  {}

  lemma DigitIff(c: char)
    ensures IsHexDigit(c) <==> DigitValue(c).Some?
  {}

  /** A digest is well-formed exactly if it spells 32 bytes. */
  lemma DigestOkIff(s: string)
    ensures OkSha256(s) <==> exists b :: |b| == 32 && Spells(s, b)
  {
    if OkSha256(s) {
      assert forall i :: 0 <= i < 64 ==> DigitValue(s[i]).Some?;
      var b := seq(32, i requires 0 <= i < 32 => Spelt(s[2 * i], s[2 * i + 1]));
      forall i | 0 <= i < 32 ensures SpellsByte(s, i, b[i]) {
        SpeltDigits(s[2 * i], s[2 * i + 1]);
      }
      assert |b| == 32 && Spells(s, b);
    }
    forall b | |b| == 32 && Spells(s, b) ensures OkSha256(s) {
      forall k | 0 <= k < 64 ensures IsHexDigit(s[k]) {
        assert SpellsByte(s, k / 2, b[k / 2]);
        DigitIff(s[k]);
      }
    }
  }

  /** Base64 of 32 bytes, whitespace around it aside. */
  lemma KeyOkIff(s: string)
    ensures OkPubkey(s).Ok? <==> exists key :: IsKey(s, key)
  {
    var key := Base64.Decode(Trim(s));
    if key.Some? && |key.value| == 32 {
      assert IsKey(s, key.value);
    }
  }

  /** One digest or one key, well-formed; signed arguments under a key, their signature location only with them. */
  predicate IsAdmissible(p: Payload, allowHttps: bool) {
    && AreUrls(p.url, allowHttps) && AreUrlsIfAny(p.sigUrl, allowHttps)
    && AreUrlsIfAny(p.argsUrl, allowHttps) && AreUrlsIfAny(p.argsSigUrl, allowHttps)
    && (p.argsSigUrl.Some? ==> p.argsUrl.Some?)
    && (match (p.sha256, p.ed25519)
        case (Some(digest), None) => OkSha256(digest) && p.argsUrl.None?
        case (None, Some(key)) => OkPubkey(key).Ok?
        case _ => false)
  }

  /** The digest to match, or the key with all locations as they were given. */
  predicate IsMode(p: Payload, mode: Admit) {
    match mode
    case Sha256(expected) => p.sha256 == Some(expected)
    case Ed25519(pubkey, sigUrl, argsUrl, argsSigUrl) =>
      p.ed25519 == Some(pubkey) && p.sigUrl == sigUrl && p.argsUrl == argsUrl && p.argsSigUrl == argsSigUrl
  }

  /** Stage 0 has no TLS. */
  lemma AdmitsIff(p: Payload, mode: Admit)
    ensures Admission(p, Stage0) == Ok(mode) <==> IsAdmissible(p, false) && IsMode(p, mode)
    ensures Admission(p, Stage1) == Ok(mode) <==> IsAdmissible(p, true) && IsMode(p, mode)
  {
    AdmitsUnder(p, mode, Stage0);
    AdmitsUnder(p, mode, Stage1);
  }

  lemma AdmitsUnder(p: Payload, mode: Admit, profile: Profile)
    ensures Admission(p, profile) == Ok(mode) <==> IsAdmissible(p, profile.Stage1?) && IsMode(p, mode)
  {
    ListOkIff(p.url, profile.Stage1?);
    OptionalOkIff(p.sigUrl, profile.Stage1?);
    OptionalOkIff(p.argsUrl, profile.Stage1?);
    OptionalOkIff(p.argsSigUrl, profile.Stage1?);
  }

  /** Everything that can be wrong with a payload, by what is said about it. */
  ghost predicate HasProblem(p: Payload, allowHttps: bool, e: Invalid) {
    match e
    case BadUrl => !AreUrls(p.url, allowHttps)
    case BadSigUrl => !AreUrlsIfAny(p.sigUrl, allowHttps)
    case BadArgsUrl => !AreUrlsIfAny(p.argsUrl, allowHttps)
    case BadArgsSigUrl => !AreUrlsIfAny(p.argsSigUrl, allowHttps)
    case ArgsSigWithoutArgs => p.argsSigUrl.Some? && p.argsUrl.None?
    case BothModes => p.sha256.Some? && p.ed25519.Some?
    case NoMode => p.sha256.None? && p.ed25519.None?
    case ArgsNeedKey => p.ed25519.None? && p.argsUrl.Some?
    case BadSha256 => p.sha256.Some? && !OkSha256(p.sha256.value)
    case KeyNotBase64 => p.ed25519.Some? && Base64.Decode(Trim(p.ed25519.value)).None?
    case KeyLength => p.ed25519.Some? && !exists key :: IsKey(p.ed25519.value, key)
  }

  /** The order in which problems are reported. */
  function Rank(e: Invalid): nat {
    match e
    case BadUrl => 0
    case BadSigUrl => 1
    case BadArgsUrl => 2
    case BadArgsSigUrl => 3
    case ArgsSigWithoutArgs => 4
    case BothModes => 5
    case NoMode => 6
    case ArgsNeedKey => 7
    case BadSha256 => 8
    case KeyNotBase64 => 9
    case KeyLength => 10
  }

  ghost predicate FirstProblem(p: Payload, allowHttps: bool, e: Invalid) {
    HasProblem(p, allowHttps, e) && forall other :: Rank(other) < Rank(e) ==> !HasProblem(p, allowHttps, other)
  }

  lemma RefusedWithFirst(p: Payload, profile: Profile)
    ensures match Admission(p, profile)
            case Ok(_) => forall e :: !HasProblem(p, profile.Stage1?, e)
            case Err(e) => FirstProblem(p, profile.Stage1?, e)
  {
    ListOkIff(p.url, profile.Stage1?);
    OptionalOkIff(p.sigUrl, profile.Stage1?);
    OptionalOkIff(p.argsUrl, profile.Stage1?);
    OptionalOkIff(p.argsSigUrl, profile.Stage1?);
    if p.ed25519.Some? {
      KeyOkIff(p.ed25519.value);
    }
  }

  lemma RanksDiffer(e: Invalid, other: Invalid)
    requires Rank(e) == Rank(other)
    ensures e == other
  {}

  /** A payload is refused with the first of its problems. */
  lemma RefusedIff(p: Payload, profile: Profile, e: Invalid)
    ensures Admission(p, profile) == Err(e) <==> FirstProblem(p, profile.Stage1?, e)
  {
    RefusedWithFirst(p, profile);
    match Admission(p, profile)
    case Ok(_) =>
    case Err(first) =>
      if FirstProblem(p, profile.Stage1?, e) && Rank(first) == Rank(e) {
        RanksDiffer(first, e);
      }
  }

  /** The problems of a manifest record, in the order in which they are reported. */
  ghost predicate HasManifestProblem(r: ManifestRef, allowHttps: bool, e: Invalid) {
    match e
    case BadUrl => !AreUrls(r.url, allowHttps)
    case BadSigUrl => !AreUrlsIfAny(r.sigUrl, allowHttps)
    case BadSha256 => r.sha256.Some? && !OkSha256(r.sha256.value)
    case KeyNotBase64 => Base64.Decode(Trim(r.ed25519)).None?
    case KeyLength => !exists key :: IsKey(r.ed25519, key)
    case _ => false
  }

  ghost predicate FirstManifestProblem(r: ManifestRef, allowHttps: bool, e: Invalid) {
    && HasManifestProblem(r, allowHttps, e)
    && forall other :: Rank(other) < Rank(e) ==> !HasManifestProblem(r, allowHttps, other)
  }

  lemma ManifestRefusedWithFirst(r: ManifestRef, profile: Profile)
    ensures match ValidateManifest(r, profile)
            case Ok(_) => forall e :: !HasManifestProblem(r, profile.Stage1?, e)
            case Err(e) => FirstManifestProblem(r, profile.Stage1?, e)
  {
    ListOkIff(r.url, profile.Stage1?);
    OptionalOkIff(r.sigUrl, profile.Stage1?);
    KeyOkIff(r.ed25519);
  }

  /** A manifest record is refused with the first of its problems, and valid if it has none. */
  lemma ManifestRefusedIff(r: ManifestRef, profile: Profile, e: Invalid)
    ensures ValidateManifest(r, profile) == Err(e) <==> FirstManifestProblem(r, profile.Stage1?, e)
  {
    ManifestRefusedWithFirst(r, profile);
    match ValidateManifest(r, profile)
    case Ok(_) =>
    case Err(first) =>
      if FirstManifestProblem(r, profile.Stage1?, e) && Rank(first) == Rank(e) {
        RanksDiffer(first, e);
      }
  }
}
