/** The other half of what `create` emits: the `_stage1` entry, which the previous boot stage checks. */
module UkiEntry {
  import opened Bytes
  import opened Wrappers
  import opened Json
  import opened Metadata
  import opened Fetch
  import opened Resolve
  import opened Signing
  import opened Deploy
  import opened EndToEnd

  const EFI := "linux.efi"
  const EFI_SIG := "linux.efi.sig"
  const MANIFEST := "linux.efi.manifest.json"
  const MANIFEST_SIG := "linux.efi.manifest.json.sig"

  lemma EfiNames()
    ensures EFI + ".sig" == EFI_SIG && EFI + ".manifest.json" == MANIFEST && MANIFEST + ".sig" == MANIFEST_SIG
  {}

  /** The payload names the emitted image and either pins its digest or has a signature that verifies beside it. */
  predicate Vouched(c: Scheme, a: CreateArgs, p: Payload, files: Files) {
    && p.url == ComposeUrls(Bases(a), a.arch, EFI) && EFI in files && files[EFI] == a.uki
    && (PayloadKey(a).None? ==> p.sha256 == Some(Sha256Hex(c, a.uki)) && p.ed25519.None?)
    && (PayloadKey(a).Some? ==>
      && p.sha256.None? && p.ed25519 == Some(KeyOf(c, PayloadKey(a).value)) && EFI_SIG in files
      && Verify(c, p.ed25519.value, Stage1Uki, a.uki, files[EFI_SIG]))
  }

  /** The entry is that payload, or points to a manifest that holds it and is signed in the manifest domain. */
  predicate VouchedEntry(tool: Tool, a: CreateArgs, p: Payload, entry: ArchConfig, files: Files) {
    && Vouched(tool.env.scheme, a, p, files) && entry.resolvedManifests == []
    && (!a.manifest ==> entry.entry == PayloadEntry(p))
    && (a.manifest ==> a.key.Some? && VouchedPointer(tool, a, p, entry.entry, files))
  }

  predicate VouchedPointer(tool: Tool, a: CreateArgs, p: Payload, entry: Entry, files: Files)
    requires a.key.Some?
  {
    && entry == ManifestEntry(ManifestRef(ComposeUrls(Bases(a), a.arch, MANIFEST),
                                          KeyOf(tool.env.scheme, a.key.value), None, None))
    && MANIFEST in files && MANIFEST_SIG in files
    && tool.env.parse(files[MANIFEST]) == Some(Fragment(STAGE1, a.arch, p))
    && Verify(tool.env.scheme, entry.manifest.ed25519, Stage1Manifest, files[MANIFEST], files[MANIFEST_SIG])
  }

  lemma BuildVouches(tool: Tool, a: CreateArgs, b: Built)
    requires UkiBuilt(tool, a) == Some(b) && (a.key.Some? ==> SignVerifyAgree(tool.env.scheme))
    ensures Vouched(tool.env.scheme, a, b.payload, b.files)
    ensures b.files.Keys <= {EFI, EFI_SIG}
  {
    EfiNames();
    if PayloadKey(a).Some? {
      SignedShape(tool.env.scheme, PayloadKey(a).value, Stage1Uki, a.uki);
    }
  }

  lemma WrapVouches(tool: Tool, a: CreateArgs, b: Built, u: Wrapped)
    requires Parsed(a) && Wrap(tool, a, STAGE1, EFI, b, Stage1Manifest) == Some(u)
    requires Vouched(tool.env.scheme, a, b.payload, b.files) && b.files.Keys <= {EFI, EFI_SIG}
    requires a.manifest ==> SignVerifyAgree(tool.env.scheme)
    requires a.manifest ==> FragmentReadsBack(tool, STAGE1, a.arch, b.payload)
    ensures VouchedEntry(tool, a, b.payload, u.entry, u.files)
    ensures u.files.Keys <= {EFI, EFI_SIG, MANIFEST, MANIFEST_SIG}
  {
    EfiNames();
    if a.manifest {
      SignedShape(tool.env.scheme, a.key.value, Stage1Manifest, tool.pretty(Fragment(STAGE1, a.arch, b.payload)));
    }
  }

  /** The other stage writes other files. */
  predicate OtherFiles(files: Files) {
    EFI !in files && EFI_SIG !in files && MANIFEST !in files && MANIFEST_SIG !in files
  }

  lemma BuildOther(tool: Tool, a: CreateArgs, b: Built)
    requires Parsed(a) && Stage2Built(tool, a) == Ok(b)
    ensures OtherFiles(b.files)
  {
    FileNames();
  }

  lemma WrapOther(tool: Tool, a: CreateArgs, b: Built, s: Wrapped)
    requires Parsed(a) && OtherFiles(b.files) && Wrap(tool, a, STAGE2, "stage2", b, Stage2Manifest) == Some(s)
    ensures OtherFiles(s.files)
  {
    FileNames();
  }

  lemma VouchedInUnion(
      tool: Tool, a: CreateArgs, p: Payload, entry: ArchConfig, files: Files, others: Files)
    requires VouchedEntry(tool, a, p, entry, files) && OtherFiles(others)
    ensures VouchedEntry(tool, a, p, entry, files + others)
  {}

  /**
   * The emitted `_stage1` entry is valid under the plain-HTTP profile, and everything a verifier
   * needs to accept the image from it, in the right signing domain, is among the emitted files.
   */
  lemma CreateVouchesUki(tool: Tool, a: CreateArgs, existing: Option<Bytes>, d: Deployment)
    returns (p: Payload, entry: ArchConfig)
    requires Parsed(a) && Create(tool, a, existing) == Ok(d)
    requires a.key.Some? ==> SignVerifyAgree(tool.env.scheme)
    requires a.manifest && UkiBuilt(tool, a).Some? ==>
      FragmentReadsBack(tool, STAGE1, a.arch, UkiBuilt(tool, a).value.payload)
    ensures ArchAt(d.doc, STAGE1, a.arch) == Some(RenderArchConfig(entry)) && Validate(entry, Stage0).Ok?
    ensures VouchedEntry(tool, a, p, entry, d.files)
  {
    var uki, u, stage2, s := CreateParts(tool, a, existing, d);
    p, entry := uki.payload, u.entry;
    MergeSets(tool.env, existing, a.arch, u.entry, s.entry);
    BuildVouches(tool, a, uki);
    WrapVouches(tool, a, uki, u);
    BuildOther(tool, a, stage2);
    WrapOther(tool, a, stage2, s);
    VouchedInUnion(tool, a, p, entry, u.files, s.files);
  }
}
