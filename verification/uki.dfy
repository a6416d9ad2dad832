/** Assembling a Unified Kernel Image: the fixed order of sections, and reading them back. */
module Uki {
  import opened Bytes
  import opened Wrappers
  import opened PeImage
  import opened Graft
  import opened GraftTheorems
  import opened GraftFormat
  import opened GraftUnique

  datatype UkiSpec = UkiSpec(
    stub: Bytes, kernel: Bytes, initrd: Bytes, osRelease: Bytes, cmdline: Bytes, uname: Option<Bytes>)

  const OSREL: Bytes := [0x2E, 0x6F, 0x73, 0x72, 0x65, 0x6C]
  const CMDLINE: Bytes := [0x2E, 0x63, 0x6D, 0x64, 0x6C, 0x69, 0x6E, 0x65]
  const UNAME: Bytes := [0x2E, 0x75, 0x6E, 0x61, 0x6D, 0x65]
  const LINUX: Bytes := [0x2E, 0x6C, 0x69, 0x6E, 0x75, 0x78]
  const INITRD: Bytes := [0x2E, 0x69, 0x6E, 0x69, 0x74, 0x72, 0x64]

  /** Place of the kernel among the new sections: after os-release, command line and an optional uname. */
  function KernelIndex(spec: UkiSpec): nat {
    if spec.uname.Some? then 3 else 2
  }

  /** The image holds every part of `spec` under its section name, in ascending table order. */
  predicate HoldsSpec(out: Bytes, pe: PeView, spec: UkiSpec) {
    var n, k := pe.numSections, KernelIndex(spec);
    && Carries(out, Slot(pe, n), Section(Ascii(".osrel"), spec.osRelease))
    && Carries(out, Slot(pe, n + 1), Section(Ascii(".cmdline"), spec.cmdline))
    && (spec.uname.Some? ==> Carries(out, Slot(pe, n + 2), Section(Ascii(".uname"), spec.uname.value)))
    && Carries(out, Slot(pe, n + k), Section(Ascii(".linux"), spec.kernel))
    && Carries(out, Slot(pe, n + k + 1), Section(Ascii(".initrd"), spec.initrd))
  }

  lemma NamesSpelt()
    ensures OSREL == Ascii(".osrel") && CMDLINE == Ascii(".cmdline") && UNAME == Ascii(".uname")
    ensures LINUX == Ascii(".linux") && INITRD == Ascii(".initrd")
  {}

  predicate AddsSections(stub: Bytes, out: Bytes, n: nat) {
    Parse(stub).Ok? && Parse(out).Ok? && Parse(out).value.numSections == Parse(stub).value.numSections + n
  }

  /** The parts in table order. */
  function Sections(spec: UkiSpec): (sections: seq<Section>)
    ensures SectionsOf(spec, sections)
  {
    NamesSpelt();
    [Section(OSREL, spec.osRelease), Section(CMDLINE, spec.cmdline)]
    + (if spec.uname.Some? then [Section(UNAME, spec.uname.value)] else [])
    + [Section(LINUX, spec.kernel), Section(INITRD, spec.initrd)]
  }

  /** There is room for the headers, and neither the section count nor the file outgrows its field. */
  predicate Room(spec: UkiSpec, pe: PeView)
    requires TableEnd(pe) <= |spec.stub|
  {
    var count := KernelIndex(spec) + 2;
    && Slot(pe, pe.numSections + count) <= HeaderCeiling(spec.stub, pe)
    && pe.numSections + count <= U16_MAX
    && FileEnd(|spec.stub|, Sections(spec), count, pe.fileAlign) <= U32_MAX
  }

  /** The push sequence of the code; its result is that of grafting the five or four parts, errors included. */
  method Assemble(spec: UkiSpec) returns (r: Result<Bytes, PeError>)
    ensures r == Grafted(spec.stub, Sections(spec))
    ensures WellFormedStub(spec.stub) ==> (r.Ok? <==> Room(spec, Parse(spec.stub).value))
    ensures WellFormedStub(spec.stub) && r.Ok? ==> HoldsSpec(r.value, Parse(spec.stub).value, spec)
    ensures IsStub(spec.stub) ==> r.Ok? == CanGraft(spec.stub, Sections(spec))
    ensures IsStub(spec.stub) && r.Ok? ==> IsGraftOf(spec.stub, Sections(spec), r.value)
    ensures WellFormedStub(spec.stub) && r.Ok? ==> AddsSections(spec.stub, r.value, KernelIndex(spec) + 2)
    ensures Parse(spec.stub).Err? ==> r == Err(Parse(spec.stub).error)
    ensures r != Err(NameTooLong)
  {
    var sections := [Section(OSREL, spec.osRelease), Section(CMDLINE, spec.cmdline)];
    if spec.uname.Some? {
      sections := sections + [Section(UNAME, spec.uname.value)];
    }
    sections := sections + [Section(LINUX, spec.kernel)];
    sections := sections + [Section(INITRD, spec.initrd)];
    assert sections == Sections(spec);
    r := Build(spec.stub, sections);
    NeverTooLong(spec, sections);
    if IsStub(spec.stub) && r.Ok? {
      GraftedIff(spec.stub, sections, r.value);
    } else if IsStub(spec.stub) {
      GraftsIff(spec.stub, sections);
    }
    if WellFormedStub(spec.stub) {
      SucceedsWithRoom(spec);
      if r.Ok? {
        HoldsGrafted(spec, Parse(spec.stub).value, sections, r.value);
        GraftReparses(spec.stub, sections, r.value);
      }
    }
  }

  lemma SucceedsWithRoom(spec: UkiSpec)
    requires WellFormedStub(spec.stub)
    ensures Grafted(spec.stub, Sections(spec)).Ok? <==> Room(spec, Parse(spec.stub).value)
  {
    GraftSucceedsIff(spec.stub, Sections(spec));
    NamesShort(spec, Sections(spec));
  }

  predicate SectionsOf(spec: UkiSpec, sections: seq<Section>) {
    && |sections| == KernelIndex(spec) + 2
    && sections[0] == Section(Ascii(".osrel"), spec.osRelease)
    && sections[1] == Section(Ascii(".cmdline"), spec.cmdline)
    && (spec.uname.Some? ==> sections[2] == Section(Ascii(".uname"), spec.uname.value))
    && sections[KernelIndex(spec)] == Section(Ascii(".linux"), spec.kernel)
    && sections[KernelIndex(spec) + 1] == Section(Ascii(".initrd"), spec.initrd)
  }

  lemma NeverTooLong(spec: UkiSpec, sections: seq<Section>)
    requires SectionsOf(spec, sections)
    ensures Grafted(spec.stub, sections) != Err(NameTooLong)
  {
    NamesShort(spec, sections);
    ParseErrors(spec.stub);
  }

  lemma ParseErrors(b: Bytes)
    ensures Parse(b) != Err(NameTooLong)
  {}

  lemma HoldsGrafted(spec: UkiSpec, pe: PeView, sections: seq<Section>, out: Bytes)
    requires SectionsOf(spec, sections) && Parse(spec.stub) == Ok(pe)
    requires WellFormedStub(spec.stub) && Grafted(spec.stub, sections) == Ok(out)
    ensures HoldsSpec(out, pe, spec)
  {
    GraftHolds(spec.stub, sections, out);
    CarriesEach(spec.stub, pe, sections, out, 0);
    CarriesEach(spec.stub, pe, sections, out, 1);
    CarriesEach(spec.stub, pe, sections, out, 2);
    CarriesEach(spec.stub, pe, sections, out, KernelIndex(spec));
    CarriesEach(spec.stub, pe, sections, out, KernelIndex(spec) + 1);
  }

  lemma CarriesEach(stub: Bytes, pe: PeView, sections: seq<Section>, out: Bytes, i: nat)
    requires TableEnd(pe) <= |stub| && HoldsStubAndSections(stub, pe, sections, out) && i < |sections|
    ensures Carries(out, Slot(pe, pe.numSections + i), sections[i])
  {}

  lemma NamesShort(spec: UkiSpec, sections: seq<Section>)
    requires SectionsOf(spec, sections)
    ensures NamesFit(sections)
  {}
}
