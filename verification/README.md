# Lock.Boot stage1, modelled and proved in Dafny

The project models four parts of the repository and proves what they are for.

* **Image building** (`crates/mkuki/src/uki.rs`). A PE32+ stub is decoded from raw little-endian bytes,
  section data is appended, new section headers are written into the header padding, and the section
  count, SizeOfImage and CheckSum are patched. The format is the Microsoft PE Format specification,
  sections "COFF File Header", "Optional Header (Image Only)" and "Section Table (Section Headers)".
* **Archives** (`crates/mkuki/src/cpio.rs`, `crates/mkuki/src/lib.rs`). A builder with a sorted map renders
  newc archives; layers are concatenated. A reader is written from the format ("New ASCII Format" in
  cpio(5)); tar streams and walks over directory trees are taken in by folds.
* **Resolution** (`crates/stage1/src/main.rs`, `crates/metadata/src/lib.rs`). Following signed manifests to a
  payload is a state machine over the document and the history; the network is a function of the number
  of the download and the URL, so that it may change at any time.
* **Deployment** (`crates/deploy/src/main.rs`, `crates/ed25519-sign/src/lib.rs`). What `create` emits, and what
  `modify` edits, is tied to what resolution accepts.

## Layout

| files | content |
|---|---|
| `wrappers`, `arithmetic`, `bytes`, `alignment` | options and results, division facts, little-endian integers, buffers, `align_up` with its bit mask |
| `pe_image`, `graft` | the PE view and `build` as methods proved against a function |
| `pe_format`, `graft_format`, `graft_unique` | the PE file by its literal offsets, a grafted image by what the format says of it, and that the two determine parsing and grafting |
| `graft_theorems`, `graft_compose`, `uki` | frame, round trip, layout, compositionality, section order of a UKI |
| `name_order`, `cpio`, `cpio_builder`, `cpio_reader` | byte-wise name order, the writer, the builder class, the reader and the round trip |
| `tar_stream`, `tar_paths`, `tar_theorems`, `tar_faults`, `dir_walk`, `dir_theorems`, `layers` | ingestion of tar streams and directory trees, names, its laws and its failures, layers and the overlay |
| `base64`, `signing`, `signing_domains`, `key_files` | RFC 4648 section 4, signing domains and their separation, key files (section 7 of RFC 8410) |
| `json`, `metadata`, `wire_format`, `validation` | JSON values, the deep merge and its laws; wire types, parsing and validation, and both by their written rules |
| `fetch`, `content_address`, `fetch_failures`, `mirrored` | mirrors, admission, manifest fetching; content addresses and pins; what a failure says; what the order of mirrors decides |
| `resolve`, `resolve_theorems`, `resolve_failures`, `resolve_cycle`, `resolve_independence` | the loop and its runs, chain of trust, failures, cycle check, two-run property |
| `deploy`, `create_succeeds`, `create_failures`, `uki_entry` | the emitter, when it succeeds, why it fails, what it vouches for to the previous stage |
| `end_to_end`, `honest_mirrors`, `inhabited` | the agreement of emitter and verifier, mirrors that serve the emitted files or nothing, two architectures, worlds that meet the hypotheses |
| `modify`, `modify_doc`, `modify_paths`, `modify_create`, `modify_resolve` | editing mirrors in one list and in whole documents, path by path, against creating afresh, and resolving what was edited |

Many recursive definitions come in pairs (`PaddedTo`/`PaddedStep`, `ReadArchive`/`ReadStep`): the first unfolds to the
second only where a proof asks for it. What a specification shares with the code it specifies, an offset, a tag, a name
or a file type, is stated once more in literals, and the two are proved to agree: `pe_format`, `graft_format`, `tar_paths`,
`signing_domains`, `key_files`, `wire_format`, `validation`, `content_address` and `modify_paths` do nothing else.

## Hypotheses

sha256, ed25519, gzip and the JSON text layer are parameters. What is needed of them is stated where it is used, never
assumed globally:

* `Signing.SignVerifyAgree`: the scheme accepts its own signatures; only where a key is used.
* `SigningDomains.OnlyMadeFor`, `SigningDomains.Distinguished`: a key accepts a signature that its seed made for 64 bytes
  for no other 64 bytes, and the six tags and the two messages in question have digests of their own. Only
  `SigningDomains.VerifiesOnlyThere` needs them; `SigningDomains.SchemeExists` shows that they can be met for any messages.
* `ResolveIndependence.CollisionFree`, `EndToEnd.NoCollision`: no collision among the bytes that the networks actually
  serve; `NoCollision` only where the payload is pinned by digest, and only at the URLs of that payload.
* `EndToEnd.OnlySigned`: at the URLs where the deployment itself is looked up, nothing but what `create` signed for it
  verifies under the key against a signature found where it is looked for. Everywhere else the network may serve
  anything that is signed under the same key, such as the files of another architecture or of another release.
* `EndToEnd.ArgsServed`: only for `--sign-args`, every mirror that responds serves the emitted argument files. The code
  takes the first mirror that responds, not the first one that verifies (`crates/stage1/src/main.rs:200-212`).
* `EndToEnd.TextLayer`, `EndToEnd.FragmentReadsBack`, `ResolveTheorems.FinalReadsBack`: the JSON text of one document
  reads back: the signed arguments, the fragment inside a signed manifest, or the document handed on. Nothing is asked
  of other documents.
* `EndToEnd.Receives`: the received bytes parse to a document that holds the emitted entry for the architecture. The
  rest of the document is free: a later `create` for another architecture may have merged into it.

Where every mirror serves the emitted files or nothing under the emitted URLs, `HonestMirrors.HonestIsGood` derives
`OnlySigned`, `NoCollision` and `ArgsServed`; what is left is the scheme accepting its own signatures, the text layer,
and for signed arguments that no base contains a placeholder.
`Inhabited.GoodWorldExists` shows that the hypotheses can be met in every mode, `Inhabited.BothArchitecturesExist` that
they can be met for two architectures at once, under one key and in one network.

Further hypotheses:

* `Metadata.ManifestFirst`: of an entry with both union keys the one sorted first, `manifest`, is chosen. Everything
  but the cycle check holds for any choice.
* `Mirrored.Fixed`: what a URL serves does not change. Used for the cycle check, the mirror lists and
  `ModifyResolve.ModifiedManifestResolvesIff` only.
* `Layers.MultiMember`: decompressing one or more compressed members, one after the other, gives their contents. Only
  `Layers.InitramfsOverlays` needs it; the overlay of the archives themselves, `Layers.TreesOverlay`, needs nothing.
* `PeImage.WellFormedStub`: what the code does not check of a stub but relies on: power-of-two alignments, an optional
  header that reaches its patched fields, a header ceiling inside the file. Theorems that read addresses back also ask
  that the final one is below 2^32, which the code does not check either.

## Where code and documentation differ

The model follows the code.

* The comment at `crates/mkuki/src/cpio.rs:25` says names carry no leading `./`. `normalize` maps `/./a` to `./a`;
  `TarStream.NormalizeCleanIff` says exactly, of the path given, when the comment and idempotence hold.
* The repository's own README.md, line 72, says that in every URL list a dead or wrong mirror is skipped. That holds
  for payload and manifest lists (`Mirrored.PayloadMirrorsIff`, `Mirrored.ManifestMirrorsIff`). For the signature lists
  of payloads, manifests and arguments, and for the argument list itself, it holds exactly when the first mirror to
  respond is a good one, or none is (`Mirrored.SkipsIff` and its five instances); `Mirrored.SignatureOrderMatters` and
  `Mirrored.TwoPlacesExist` show it failing.
* `modify` takes the suffix of an added mirror from the first URL (`crates/deploy/src/main.rs:501-503`). When the first
  base carries a path this differs from what `create` composes; `Modify.PathBaseAgreesIff` says exactly when.

## Model

| member | source | states |
|---|---|---|
| Alignment.AlignUpIsLeastMultiple | crates/mkuki/src/uki.rs:49-52 | for a power of two the mask formula is the least multiple not below the argument |
| Alignment.AlignUpIsMask | crates/mkuki/src/uki.rs:49-52 | on words of any width it is `(x + a - 1) & !(a - 1)` with wrapping subtraction, `a` zero or no power of two included |
| Alignment.AndNotBit | crates/mkuki/src/uki.rs:51 | `x & !m`, bit by bit |
| Bytes.LeRoundTrip | crates/mkuki/src/uki.rs:36-47 | writing and reading a little-endian integer keeps exactly its low bytes |
| PeImage.ParseFrame | crates/mkuki/src/uki.rs:55-89 | parsing depends on the bytes below the section table only; another section count changes nothing else |
| PeFormat.ParseIff | crates/mkuki/src/uki.rs:55-89 | parsing succeeds exactly on a file with the signatures, the PE32+ magic and a section table inside it, read at their literal offsets, and yields the fields there: SectionAlignment at 32, FileAlignment at 36, SizeOfHeaders at 60 of the optional header |
| PeFormat.ParseFailsIff | crates/mkuki/src/uki.rs:56-78 | each error, the slice panic included, exactly where the first check that fails is its own |
| PeFormat.WrittenParses | crates/mkuki/src/uki.rs:55-89 | any file that holds these headers, laid out from arbitrary numbers, parses to exactly these numbers |
| PeImage.MaxVaEndMeaning | crates/mkuki/src/uki.rs:96-109 | the scan computes the largest virtual end of the stub's sections: an upper bound that one of them attains |
| PeImage.MinRawPointerMeaning | crates/mkuki/src/uki.rs:104-108 | the scan's file offset is the least one among the sections that have raw data, and one of them has it |
| PeImage.NoRawPointer | crates/mkuki/src/uki.rs:98-108 | without raw data anywhere it stays the largest 64-bit number |
| Graft.ScanSections | crates/mkuki/src/uki.rs:98-109 | the scanning loop computes those two extrema |
| Graft.AppendSections | crates/mkuki/src/uki.rs:129-162 | the append loop fails exactly on a name over eight bytes and otherwise yields the padded file, the next address and the new headers |
| Graft.WriteHeaders | crates/mkuki/src/uki.rs:164-168 | headers are written back to back behind the old table, exactly when they fit |
| Graft.Build | crates/mkuki/src/uki.rs:93-186 | the whole of `build`, errors included, equals the specification that the theorems below are about |
| GraftUnique.GraftedIff | crates/mkuki/src/uki.rs:93-186 | on a stub as the format describes it, grafting returns a file exactly when there is room, and that is the only file with the header fields, characteristics, addresses, file pointers, padding, patched fields and untouched bytes that the format and the alignments of the stub prescribe |
| GraftFormat.StubIff | crates/mkuki/src/uki.rs:55-89 | the well-formed stubs, by their bytes |
| GraftFormat.GraftErrors | crates/mkuki/src/uki.rs:111-184 | on such a stub each of the four errors exactly where its limit is the first one exceeded |
| GraftTheorems.GraftSucceedsIff | crates/mkuki/src/uki.rs:111-124 | on a well-formed stub grafting succeeds exactly when headers, names, count and size fit, and no slice is out of bounds |
| GraftTheorems.GraftReparses | crates/mkuki/src/uki.rs:55-89 | the output parses to the stub's view with the larger section count |
| GraftTheorems.GraftHolds | crates/mkuki/src/uki.rs:125-180 | each new header names its section and its file range holds exactly the section's data, in order; every stub byte outside the patched fields and new slots is unchanged |
| GraftTheorems.GraftLayout | crates/mkuki/src/uki.rs:96-176 | new sections are aligned to the values at offsets 32 and 36 of the stub's optional header, overlap neither each other nor a stub section in file or memory, and SizeOfImage is aligned and covers them |
| GraftTheorems.AddressAdvancesIff | crates/mkuki/src/uki.rs:150-160 | a section has an address of its own exactly when it is not empty |
| GraftCompose.BuiltImageIsWellFormed | crates/mkuki/src/uki.rs:93-186 | a built image is again a well-formed stub |
| GraftCompose.GraftComposes | crates/mkuki/src/uki.rs:93-186 | grafting A++B succeeds exactly when grafting A and then B does, and the images are equal byte for byte |
| Uki.Assemble | crates/mkuki/src/lib.rs:131-158 | the result, errors included, is that of grafting the parts in the fixed order under their literal names, uname only if given; on a well-formed stub it succeeds exactly when headers, count and file size have room, and then the image is the one the format describes and holds every part under its name; the names are never too long |
| Cpio.DeviceNumbersRecompose | crates/mkuki/src/cpio.rs:191-203 | the major and minor halves recompose to every 64-bit device number |
| CpioReader.FieldRoundTrip | crates/mkuki/src/cpio.rs:260-263 | the eight hex digits written for a header field read back as its number |
| Cpio.Pad4 | crates/mkuki/src/cpio.rs:265-269 | pads the whole buffer to a multiple of four |
| Cpio.WriteEntry | crates/mkuki/src/cpio.rs:216-245 | appends magic, thirteen fields, name, padding, data, padding |
| Cpio.WriteTrailer | crates/mkuki/src/cpio.rs:248-258 | the trailer is an entry like any other, with number 0 |
| Builder.CpioBuilder.AddTar | crates/mkuki/src/cpio.rs:93-158 | the loop is the fold over the stream up to its first error, entries inserted before it kept |
| Builder.CpioBuilder.Finish | crates/mkuki/src/cpio.rs:165-176 | refuses an empty map, otherwise renders the entries in name order with numbers 1..n and a trailer |
| Builder.ValuesInOrder | crates/mkuki/src/cpio.rs:35-41 | iterating a sorted map by least key visits each entry once in ascending order |
| CpioReader.EntryRoundTrip | crates/mkuki/src/cpio.rs:216-245 | a record read where an entry was written is that entry, and the next header follows on a four-byte boundary |
| CpioReader.OffsetAligned | crates/mkuki/src/cpio.rs:265-269 | every header starts on a four-byte boundary |
| CpioReader.ArchiveRoundTripIff | crates/mkuki/src/cpio.rs:165-176 | reading an archive returns exactly its entries and consumes it whole, if and only if no entry is named TRAILER!!! |
| CpioReader.RecordsNumbered | crates/mkuki/src/cpio.rs:170-173 | each record holds its entry's fields, inode numbers count from 1, owner, group, time and containing device are zero |
| CpioReader.ArchiveText | crates/mkuki/src/cpio.rs:216-269 | every header is written as the format says: the magic 070701, lowercase digits, zero bytes as NUL and padding |
| CpioReader.TrailerRecord | crates/mkuki/src/cpio.rs:248-258 | the archive ends in a trailer named TRAILER!!! with one link and all other fields zero |
| CpioReader.TrailerNameTruncates | crates/mkuki/src/cpio.rs:248-258 | an entry named like the trailer hides itself and all behind it |
| Layers.BuilderRoundTripIff | crates/mkuki/src/cpio.rs:165-176 | the same for a builder's map: sorted entries come back exactly when the map has no such name |
| TarStream.NormalizedShape | crates/mkuki/src/cpio.rs:273-281 | a normalised name is not empty, not ".", and has no slash at either end |
| TarStream.NormalizeCleanIff | crates/mkuki/src/cpio.rs:271-281 | no leading "./" and idempotence hold exactly when the path is not some "./", then at least one slash, then "./" again |
| TarStream.HiddenIff | crates/mkuki/src/cpio.rs:273-281 | exactly such a path leaves a leading "./" after the trimming |
| TarStream.NormalizeNotClean | crates/mkuki/src/cpio.rs:25 | "/./a" keeps its "./" |
| TarPaths.NormalizeIff | crates/mkuki/src/cpio.rs:273-281 | a path gets a name exactly if it is spelt as some "./", some "/", the name, some "/", the name without a slash at either end |
| TarPaths.SkippedIff | crates/mkuki/src/cpio.rs:273-281 | a path is skipped exactly if it is spelt so with nothing or "." in place of the name |
| NameOrder.BelowIff | crates/mkuki/src/cpio.rs:35-41 | names compare by the first byte in which they differ, a proper prefix first |
| TarTheorems.LastItemWins | crates/mkuki/src/cpio.rs:93-158 | each name holds its last item, with the file type of its kind (4, 10, 2, 6, 1 or 8 above the lowest twelve bits), its own permissions, link count and device; a hardlink is a regular file with the data of the latest earlier regular item of its target, empty if none |
| TarTheorems.CleanIff | crates/mkuki/src/cpio.rs:93-158 | a stream is taken in without error exactly when each of its items by itself is well-formed |
| TarFaults.StreamFailsIff | crates/mkuki/src/cpio.rs:93-158 | a stream fails with an error exactly if that is the fault of the first item that has one |
| TarTheorems.OrderIndependent | crates/mkuki/src/cpio.rs:93-176 | with distinct names and no hardlinks every order of the stream is taken in or none is, with the same entries and the same rendered bytes |
| TarTheorems.DirectoryFirst | crates/mkuki/src/cpio.rs:165-176 | a directory's entry precedes those of everything inside it |
| Builder.CpioBuilder.AddDir | crates/mkuki/src/cpio.rs:49-90 | the loop over a walked directory tree is the fold up to its first error, entries inserted before it kept |
| DirTheorems.DirIsTar | crates/mkuki/src/cpio.rs:49-158 | a directory tree and the tar stream of it leave the same entries, and are refused for the same items |
| DirTheorems.WalkLeaves | crates/mkuki/src/cpio.rs:49-90 | after a walk each name holds what the last file of that name is: content, link count, file type, permissions, device number; other names keep what they had |
| TarFaults.WalkFailsIff | crates/mkuki/src/cpio.rs:49-90 | a walk fails with an error exactly if that is what is wrong with the first item that cannot be filed |
| DirTheorems.WalkOrderIndependent | crates/mkuki/src/cpio.rs:53-88 | when no two files of a tree have one name, the order of the walk decides neither whether it is taken in nor the entries |
| Layers.DirLayerIsTarLayer | crates/mkuki/src/lib.rs:161-168 | a layer from a directory tree and one from the tar stream of it build alike, with the same entries |
| Layers.BuildLayer | crates/mkuki/src/lib.rs:161-168 | a layer, from a directory tree or a tar stream, builds exactly when reading it meets no error and leaves an entry, and is then its compressed archive |
| Layers.BuildInitramfs | crates/mkuki/src/lib.rs:97-109 | the loop concatenates the layers and pairs each label with the digest of its bytes |
| Layers.ReadTrees | crates/mkuki/src/lib.rs:92-109 | reading and unpacking from the i-th archive on lays the remaining trees over those before |
| Layers.TreesOverlay | crates/mkuki/src/lib.rs:92-109 | the concatenated archives of any number of trees unpack to their right-biased union |
| Layers.InitramfsOverlays | crates/mkuki/src/lib.rs:92-109 | so does the decompressed initramfs of any number of layers |
| Layers.OverlayAt | crates/mkuki/src/lib.rs:92-96 | name by name, the last layer that has it decides, with all fields of its entry |
| Base64.DecodeEncode | crates/ed25519-sign/src/lib.rs:153-171 | strict decoding inverts encoding for every byte string |
| Base64.EncodeDecode | crates/metadata/src/lib.rs:186-192 | whatever decodes is the encoding of the result |
| Base64.EncodeIs | crates/ed25519-sign/src/lib.rs:153-171 | every symbol is the one that RFC 4648 prescribes for its six bits, or padding |
| Signing.SignedVerifies | crates/ed25519-sign/src/lib.rs:81-127 | what is signed verifies under the reported key in the same domain |
| SigningDomains.VerifiesIff | crates/ed25519-sign/src/lib.rs:25-100 | for each domain: the signature is 64 bytes that the scheme accepts, under the 32 bytes the key is base64 of, for the digest of the literal tag followed by that of the message |
| SigningDomains.VerifiesOnlyThere | crates/ed25519-sign/src/lib.rs:72-100 | what is signed for one domain and message verifies for another domain or message exactly if both are the same |
| SigningDomains.SchemeExists | crates/ed25519-sign/src/lib.rs:72-100 | for any two messages there is a scheme that meets the hypotheses of this |
| SigningDomains.HexDigits | crates/ed25519-sign/src/lib.rs:102-109 | two lowercase digits a byte, the high one first |
| KeyFiles.PaddedKeyVerifies | crates/ed25519-sign/src/lib.rs:81-100 | white space around a key does not change what it verifies |
| KeyFiles.Spaces | crates/ed25519-sign/src/lib.rs:88 | white space is what Unicode says it is |
| KeyFiles.TrimIs | crates/ed25519-sign/src/lib.rs:88 | trimming takes away white space at both ends, all of it and nothing else |
| KeyFiles.SeedIff | crates/ed25519-sign/src/lib.rs:133-150 | the seed is the 32 bytes behind the first marker, if there are so many |
| KeyFiles.KeyTextReads | crates/ed25519-sign/src/lib.rs:133-150 | whatever the width of the base64 lines and the line ending, a key file gives the seed of its encoding |
| KeyFiles.GeneratedText | crates/ed25519-sign/src/lib.rs:153-165 | the generated file in full |
| Signing.HexInjective | crates/ed25519-sign/src/lib.rs:102-109 | a digest can be read off its hex form |
| Signing.KeyFileRoundTrip | crates/ed25519-sign/src/lib.rs:129-165 | reading a generated key file gives the seed, for every seed, also one containing the marker |
| Signing.SignWithGeneratedKey | crates/ed25519-sign/src/lib.rs:118-171 | signing with a generated key file uses that seed, and reports its public key |
| Json.DeepMerge | crates/stage1/src/main.rs:444-458 | the key loop computes the merge, in whatever order keys are visited |
| Json.MergeAt | crates/stage1/src/main.rs:441-458 | at every path the overlay's object or leaf wins, below its leaves there is nothing, elsewhere the base survives |
| Json.MergeUnique | crates/stage1/src/main.rs:441-458 | the merge is the only document with that path law |
| Json.MergeIdempotent | crates/stage1/src/main.rs:444-458 | merging the same overlay twice is merging it once |
| Json.AssociativeIff | crates/stage1/src/main.rs:444-458 | two groupings agree exactly when, wherever the middle document cuts an object of the first away under an object of the last, the last absorbs it |
| Json.AssociativeWithoutClash | crates/stage1/src/main.rs:444-458 | in particular when no path has object, non-object, object |
| Json.NotAssociative | crates/stage1/src/main.rs:444-458 | a concrete triple for which the groupings differ |
| Metadata.ArchConfigRoundTrip | crates/metadata/src/lib.rs:63-152 | writing an entry and reading it back is the identity: one URL or many, absent fields, either union key beside the history |
| Metadata.PayloadRoundTrip | crates/metadata/src/lib.rs:118-137 | the same for a payload |
| Metadata.ManifestRoundTrip | crates/metadata/src/lib.rs:143-152 | the same for a pointer or a history record |
| WireFormat.PayloadWritten | crates/metadata/src/lib.rs:118-137 | a payload is written as an object with exactly the members that are given, under their literal names, a list of one URL as a bare string |
| WireFormat.ManifestWritten | crates/metadata/src/lib.rs:143-152 | the same for a pointer or a history record |
| WireFormat.ArchConfigWritten | crates/metadata/src/lib.rs:91-112 | one union member, and the history only if there is one |
| WireFormat.PayloadReadIff | crates/metadata/src/lib.rs:118-137 | an object is read as a payload exactly if its members are the payload's; optional ones may be missing or null, others are not looked at |
| WireFormat.ManifestReadIff | crates/metadata/src/lib.rs:143-152 | the same for a pointer |
| WireFormat.PayloadArray | crates/metadata/src/lib.rs:118-137 | an array of up to seven items is read like the object with them as members in the order of the struct |
| WireFormat.ManifestArray | crates/metadata/src/lib.rs:143-152 | and one of up to four like a pointer |
| WireFormat.OnlyStructs | crates/metadata/src/lib.rs:118-152 | nothing else is read as either |
| WireFormat.ArchConfigReadIff | crates/metadata/src/lib.rs:91-112 | an entry is read exactly from an object with a well-formed union member and a well-formed history |
| Metadata.AdmissionIff | crates/metadata/src/lib.rs:204-261 | a payload is admissible exactly when its URLs are, exactly one well-formed mode is given, and signed arguments come with a key |
| Validation.AdmitsIff | crates/metadata/src/lib.rs:204-261 | under each profile the mode admitted, with all its locations, by the written rules: which URLs, exactly one of digest and key |
| Validation.RefusedIff | crates/metadata/src/lib.rs:206-259 | a payload is refused with the first of its problems |
| Validation.ManifestRefusedIff | crates/metadata/src/lib.rs:264-290 | so is a pointer |
| Validation.DigestOkIff | crates/metadata/src/lib.rs:183-185 | a well-formed digest is 64 hex digits in either case |
| Validation.KeyOkIff | crates/metadata/src/lib.rs:186-192 | a well-formed key is base64 of 32 bytes, white space around it aside |
| Metadata.AdmissionWidens | crates/metadata/src/lib.rs:204-261 | a payload admitted under stage 0 is admitted under stage 1 in the same mode |
| Metadata.ValidateWidens | crates/metadata/src/lib.rs:194-202 | whatever validates under stage 0 validates under stage 1 |
| Fetch.TryMirrors | crates/stage1/src/main.rs:200-212 | the mirror loop returns the first success, or the error of the last attempt |
| Fetch.MirrorsChoose | crates/stage1/src/main.rs:242-256 | a success is that of one attempt at one listed URL |
| Fetch.MirrorsReach | crates/stage1/src/main.rs:242-256 | if one URL always succeeds, the list does |
| Fetch.PinDeterminesDigest | crates/stage1/src/main.rs:555-565 | byte strings that match one pin, letter case aside, have one digest |
| Fetch.AdmittedPasses | crates/stage1/src/main.rs:216-293 | an admitted binary was served by a listed URL and matches its pin, or carries a signature in the payload domain served where the mode looks for it, and so do its signed arguments in theirs |
| Fetch.FetchedIsAuthentic | crates/stage1/src/main.rs:396-439 | a fetched manifest was served by a listed URL, matches the pin if any, and has a signature in the manifest domain under the key that the document pins, served at the signature location it names |
| ContentAddress.ReplacedFirst | crates/stage1/src/main.rs:194-197 | the first `{sha256}` is replaced by the digest, and what follows it is treated alike |
| ContentAddress.ReplacedNowhere | crates/stage1/src/main.rs:194-197 | without one a URL stays as it is |
| ContentAddress.PayloadSignedAtAddress | crates/stage1/src/main.rs:272-289 | a payload whose signature location is prefix, `{sha256}`, suffix is admitted exactly if what is served at prefix, digest, suffix is a signature of it under the literal payload tag |
| ContentAddress.PayloadSignedBeside | crates/stage1/src/main.rs:274-289 | without a location, exactly if what is served at the URL with `.sig` is |
| ContentAddress.ManifestSignedAtAddress | crates/stage1/src/main.rs:412-433 | the same for a manifest and its own digest |
| ContentAddress.ManifestSignedBeside | crates/stage1/src/main.rs:422-433 | and beside it |
| ContentAddress.ArgsSignedAtAddress | crates/stage1/src/main.rs:216-240 | arguments and their signature are looked for at the payload's digest, under the literal tag of arguments |
| ContentAddress.ArgsSignedBeside | crates/stage1/src/main.rs:222-226 | and the signature beside them without a location |
| ContentAddress.PinnedIff | crates/stage1/src/main.rs:555-565 | a payload is admitted under a pin exactly if the pin spells its digest, two digits a byte, in either case |
| FetchFailures.MirrorsFail | crates/stage1/src/main.rs:200-212 | a list fails only after every mirror has been tried and failed, with the error of the last one |
| FetchFailures.AdmissionFails | crates/stage1/src/main.rs:242-293 | the error is true of the last mirror: it did not respond, or served a binary that does not match the pin, or a signature or arguments that do not verify, or arguments that are no list |
| FetchFailures.FetchFails | crates/stage1/src/main.rs:396-439 | the same for manifests |
| Mirrored.PayloadMirrorsIff | crates/stage1/src/main.rs:242-256 | a payload list admits exactly when one of its URLs does by itself |
| Mirrored.ManifestMirrorsIff | crates/stage1/src/main.rs:396-410 | a manifest list succeeds exactly when one of its URLs does by itself |
| Mirrored.FirstResponderDecides | crates/stage1/src/main.rs:200-212 | a download list returns what its first responder serves |
| Mirrored.ListAcceptsIff | crates/stage1/src/main.rs:200-212 | a download list delivers something acceptable exactly when there is a first responder and what it serves is acceptable |
| Mirrored.SkipsIff | crates/stage1/src/main.rs:199-212 | a list accepts whenever one of its URLs alone would, exactly when the first responder is good or none is |
| Mirrored.PayloadSignatureSkipsIff | crates/stage1/src/main.rs:274-289 | the same for a payload's signature list, with or without signed arguments |
| Mirrored.ManifestSignatureSkipsIff | crates/stage1/src/main.rs:422-433 | the same for a manifest's signature list |
| Mirrored.ArgsSkipsIff | crates/stage1/src/main.rs:222-236 | the same for the list of signed arguments, with signature locations of their own |
| Mirrored.ArgsSignatureSkipsIff | crates/stage1/src/main.rs:223-236 | the same for the signature list of signed arguments |
| Mirrored.ArgsPairsSkipIff | crates/stage1/src/main.rs:225 | with the signatures beside the arguments, the first responders of both lists must belong together, or no mirror has a good pair |
| Mirrored.SignatureOrderMatters | crates/stage1/src/main.rs:274-286 | a wrong signature mirror blocks admission when listed first and not when listed last |
| Mirrored.TwoPlacesExist | crates/stage1/src/main.rs:274-286 | for every key there are a scheme and a network for which that happens, with URLs in a payload that validation accepts in either order |
| Resolve.NextPointer | crates/stage1/src/main.rs:366-377 | after a hop the pointer is the manifest's own, whole; no field of the consumed one survives |
| Resolve.NeverVanished | crates/stage1/src/main.rs:383-394 | the last error of the stamp cannot occur |
| ResolveTheorems.EntryAtIff | crates/stage1/src/main.rs:326-329 | the entry is the member of `_stage2` named like the architecture |
| ResolveTheorems.HopShows | crates/stage1/src/main.rs:366-377 | after a hop every path shows what the manifest says there, and where it is silent the document before, less the consumed pointer |
| ResolveFailures.StepFailsIff | crates/stage1/src/main.rs:325-381 | an iteration fails with an error exactly if that is what it found: no entry, a malformed one, the first problem of its payload or pointer, a failed fetch, a hop recorded before, a manifest that is no JSON |
| Resolve.ResolvePayload | crates/stage1/src/main.rs:315-381 | wherever a run of the state machine comes to an end, the loop ends with the outcome of that run, errors included |
| Resolve.FiniteWorldEnds | crates/stage1/src/main.rs:353-365 | when the world serves n verifying (url, digest) pairs, a run comes to an end within n+1 states |
| Resolve.ResolveWithin | crates/stage1/src/main.rs:315-381 | in any world, after any number of iterations the loop has ended with the outcome of a run or has made that many hops of one |
| ResolveTheorems.ReturnAdmits | crates/stage1/src/main.rs:334-339 | what the payload branch returns passes the admission mode of the document's payload; with an argument location the arguments are the verified ones whatever the inline ones are, without one they are the inline ones |
| ResolveTheorems.FinalDocument | crates/stage1/src/main.rs:340-377 | with no hop the payload gets the received bytes; otherwise the left fold of the merge over the verified manifests, pointers consumed, stamped with the true history |
| ResolveTheorems.StampShows | crates/stage1/src/main.rs:386-394 | the stamp replaces the history whatever a manifest wrote, and touches nothing else |
| ResolveTheorems.PayloadReadsHistory | crates/stage1/src/main.rs:340-347 | the payload reads the true history from its input |
| ResolveTheorems.Delegation | crates/stage1/src/main.rs:326-379 | every hop is verified under the key pinned before it and recorded with the URL that served it, the key and signature location of its pointer and its digest; each next pointer is the one its manifest carries, and binary and arguments are those of the payload in the last merged document |
| ResolveTheorems.NoRepeats | crates/stage1/src/main.rs:353-365 | no (url, digest) pair is followed twice |
| ResolveTheorems.RunIsBounded | crates/stage1/src/main.rs:323-381 | every run has at most one state more than there are verifying pairs |
| ResolveTheorems.RunsAgree | crates/stage1/src/main.rs:315-381 | two runs in one world agree as far as both go, and at most one ends |
| ResolveCycle.CycleCheckExact | crates/stage1/src/main.rs:353-359 | in a fixed world the same runs return the same results with the check and without it |
| ResolveCycle.AbortedNeverReturns | crates/stage1/src/main.rs:353-359 | a run that the check aborts would never have reached a payload |
| ResolveCycle.Repeats | crates/stage1/src/main.rs:353-377 | once a manifest recurs, every later one recurs with it |
| ResolveIndependence.NetworkIndependent | crates/stage1/src/main.rs:315-439 | for pinned documents two successful runs over any two networks take the same documents, return the same binary and arguments, and hand on documents that differ at most in history URLs |
| Deploy.MergeSets | crates/deploy/src/main.rs:384-412 | both stages hold the new entries for the architecture |
| Deploy.MergeKeeps | crates/deploy/src/main.rs:384-412 | other keys and other architectures of an existing document stay |
| Deploy.CreateEmits | crates/deploy/src/main.rs:274-382 | a successful `create` has written a valid stage 2 entry and the files behind it |
| UkiEntry.CreateVouchesUki | crates/deploy/src/main.rs:206-272 | the stage 1 entry is valid under the plain-HTTP profile; the emitted files hold the image it names and a pin, signature or signed manifest that vouches for it in the right domain |
| EndToEnd.PlainBaseServesArgs | crates/stage1/src/main.rs:222-228 | a base without a placeholder serves the argument files where they are looked for |
| CreateSucceeds.CreateSucceedsIff | crates/deploy/src/main.rs:274-412 | `create` succeeds exactly when all bases are printable `http://` URLs, the architecture is printable, `--sign-args` and `--manifest` are not combined, the key file holds a seed, the arguments are an array of strings, and the existing document is an object whose stages, if present, are objects |
| CreateFailures.CreateFailsIff | crates/deploy/src/main.rs:206-412 | `create` fails with an error exactly if that is what is wrong; with `--manifest` unreadable arguments are reported before an unusable key, otherwise after it; validation only ever refuses a URL of the `_stage1` entry |
| EndToEnd.CreateThenResolve | crates/deploy/src/main.rs:206-401 | in all three modes, and with signed arguments, resolving a document with the entry that `create` emitted returns the original payload and arguments when one base serves the emitted directory, whatever else is signed under the key elsewhere |
| EndToEnd.EveryOutcome | crates/stage1/src/main.rs:315-381 | no run over such a document ends in another result or an error |
| HonestMirrors.HonestIsGood | crates/deploy/src/main.rs:187-194 | mirrors that serve the emitted files or nothing, one of them always, meet the hypotheses of the two theorems above |
| HonestMirrors.TwoArchitectures | crates/deploy/src/main.rs:384-412 | two architectures created one after the other into one document, under one key and in one network: each machine resolves to its own original payload and arguments, also the one created first |
| Inhabited.GoodWorldExists | crates/deploy/src/main.rs:274-382 | for every payload, architecture, key, argument list and mode, signed arguments and manifest included, there are a tool with which `create` succeeds and a world that meets the hypotheses |
| Inhabited.BothArchitecturesExist | crates/deploy/src/main.rs:384-412 | so do a tool and one network for any two deployments of different architectures under one key, one merged into the document of the other |
| EndToEnd.PayloadUrlsOk | crates/deploy/src/main.rs:244-272 | validating the pointer's URLs also validates those of the payload inside the manifest, whatever the bases |
| Modify.RewriteUrls | crates/deploy/src/main.rs:504-528 | the two loops compute the rewritten list, and fail exactly on a field that is neither string nor array |
| Modify.PathOfLonger | crates/deploy/src/main.rs:530-540 | the path of a composed URL is the base's own path followed by the composed part |
| Modify.ModifyRegenerates | crates/deploy/src/main.rs:187-194 | when the first base has no path, rewriting a field equals composing it from the surviving bases followed by the new ones without duplicates, whatever is added or removed |
| Modify.HostSurvivors | crates/deploy/src/main.rs:504-515 | among host-only bases and removals the survivors are the bases not removed |
| Modify.SameSurvivors | crates/deploy/src/main.rs:515 | which bases survive does not depend on the file |
| Modify.ValidIffBaseRemains | crates/deploy/src/main.rs:504-528 | the rewritten list is valid exactly when some base survives or is added |
| Modify.EmptyPathAgrees | crates/deploy/src/main.rs:504-540 | a first base without a path: rewriting agrees with composing, for any additions and removals |
| Modify.PathBaseAgreesIff | crates/deploy/src/main.rs:504-540 | for any bases and additions rewriting agrees with composing exactly when the same additions are new with the first base's path and without it |
| Modify.PathBaseAgreesIfNothingNew | crates/deploy/src/main.rs:504-540 | unless one addition extends another by that path, and it is not empty, this is exactly when nothing is new either way |
| Modify.PathBaseBreaks | crates/deploy/src/main.rs:511-520 | a concrete base with a path for which they differ |
| ModifyDoc.ModifyUserData | crates/deploy/src/main.rs:451-491 | the nested loops edit exactly the URL fields of both variants, architectures and stages, or fail without an edit |
| ModifyPaths.ModifyKeeps | crates/deploy/src/main.rs:472-489 | path by path: whatever is not one of the four URL fields of a variant of a stage, or inside one, is as it was |
| ModifyPaths.ModifyRewrites | crates/deploy/src/main.rs:472-489 | every such field that is there is rewritten |
| ModifyPaths.ModifyFailsIff | crates/deploy/src/main.rs:467-512 | editing fails exactly if the document is no object or some such field is neither a string nor an array |
| ModifyPaths.StringsKept | crates/deploy/src/main.rs:507-510 | of an array the strings are kept, in order, and anything else is dropped |
| ModifyPaths.PathBehindHost | crates/deploy/src/main.rs:530-540 | the path of a URL is what follows its host, behind either scheme |
| ModifyDoc.ModifyCreated | crates/deploy/src/main.rs:451-499 | modifying an emitted document gives the document that `create` emits for the remaining bases into the modified existing document, in every mode, for any bases, additions, removals and existing document; remaining are the survivors, then the additions, each followed by the first base's path |
| ModifyDoc.ModifyCreatedFresh | crates/deploy/src/main.rs:451-499 | the same for a first deployment |
| ModifyDoc.PlainLeft | crates/deploy/src/main.rs:513-523 | when the first base has no path, the remaining bases are the survivors followed by the additions themselves |
| ModifyCreate.ModifyIsCreateIff | crates/deploy/src/main.rs:274-285 | `create` accepts the remaining bases exactly when there are any and every addition, with the path it gets, is a printable `http://` URL, and then what was modified is what it emits |
| ModifyResolve.ModifiedResolvesIff | crates/deploy/src/main.rs:451-499 | without a manifest, where a remaining base serves the files emitted before the modification, the modified deployment resolves exactly when every addition composes to an admissible URL, `https://` included, and then to the original payload and arguments |
| ModifyResolve.ModifiedManifestResolvesIff | crates/deploy/src/main.rs:244-272 | through a signed manifest, which keeps the old payload URLs, and in a network that does not change: where a remaining base serves the manifest, exactly when moreover some base of the original list, removed or not, still serves the payload |

## Left out

- Resolve.ResolvePayload: asks for a run that comes to an end; where none does, the loop of the code does not end either. Resolve.ResolveWithin and the theorems about runs cover all worlds.
- ModifyDoc.ModifyCreated: compares the documents only; in manifest mode the files differ, since `modify` does not sign again and the signed manifest keeps the old payload URLs. ModifyResolve.ModifiedManifestResolvesIff says what resolution then depends on.
- Fetch.PinDeterminesDigest: lower-casing is that of ASCII; the code's is that of Unicode, which differs only for pins that validation has rejected before.
- Layers.BuilderRoundTripIff: sizes and the number of entries are below 2^32, what the eight hex digits can hold; the code casts silently.
- GraftCompose.GraftComposes: file offsets and lengths are unbounded integers, so that `align_up` near 2^64 does not wrap.
- Updating JSON in place: `deep_merge`, `set_resolved_manifests`, `set_arch` and `modify` work on values here; there is no aliasing to capture.
- Files written by `create` are a map from name to contents; directories, file modes and I/O errors are not modelled.
- HTTP, TLS, metadata services, standard input, logging and time: the network is an arbitrary function.
- TPM attestation, PCR extension, memfd, execution and power-off have no effect the model could state.
- The text syntax of JSON, gzip, tar headers, sha256 and ed25519 are parameters.
- The early parse of the whole user-data document, and `validate`, which repeat the checks of single entries.
- Listing a directory and reading its files (the walk's items are an input, in any order), `docker_export`, command line parsing, `keygen`'s random seed and file modes.
- `generate_os_release`, `layer_label` and parsing of domain names: easy members.
