/** When `create` still succeeds for the bases that a modification leaves, and that it then emits what was modified. */
module ModifyCreate {
  import opened Bytes
  import opened Wrappers
  import opened Json
  import opened Metadata
  import opened Fetch
  import opened Resolve
  import opened Deploy
  import opened Modify
  import opened ModifyDoc
  import opened CreateSucceeds

  // ---- What remains ----

  predicate Survives(base: string, rems: seq<string>, arch: string) {
    !Removed(Located(base, arch, "linux.efi"), rems)
  }

  lemma {:induction false} AppendNewHolds(list: seq<string>, items: seq<string>)
    ensures forall x :: x in AppendNew(list, items) <==> x in list || x in items
    decreases |items|
  {
    if items != [] {
      AppendNewCons(list, items);
      AppendNewHolds(if items[0] in list then list else list + [items[0]], items[1..]);
    }
  }

  /** A base remains if it survives or is added. */
  lemma LeftMembers(bases: seq<string>, adds: seq<string>, rems: seq<string>, arch: string, x: string)
    ensures x in Left(bases, adds, rems, arch)
      <==> (x in bases && Survives(x, rems, arch)) || x in Carried(bases, adds)
  {
    AppendNewHolds(Survivors(bases, rems, arch, "linux.efi"), Carried(bases, adds));
    SurvivorsMean(bases, rems, arch, "linux.efi", |bases|);
  }

  predicate BaseRemains(bases: seq<string>, adds: seq<string>, rems: seq<string>, arch: string) {
    adds != [] || exists i :: 0 <= i < |bases| && Survives(bases[i], rems, arch)
  }

  lemma RemainsIff(bases: seq<string>, adds: seq<string>, rems: seq<string>, arch: string)
    ensures Left(bases, adds, rems, arch) != [] <==> BaseRemains(bases, adds, rems, arch)
  {
    var left := Left(bases, adds, rems, arch);
    assert |Carried(bases, adds)| == |adds|;
    if left != [] {
      LeftMembers(bases, adds, rems, arch, left[0]);
      assert left[0] in left;
    }
    if adds != [] {
      LeftMembers(bases, adds, rems, arch, Carried(bases, adds)[0]);
      assert Carried(bases, adds)[0] in Carried(bases, adds);
    } else if BaseRemains(bases, adds, rems, arch) {
      var i :| 0 <= i < |bases| && Survives(bases[i], rems, arch);
      LeftMembers(bases, adds, rems, arch, bases[i]);
    }
  }

  lemma RebasedParses(a: CreateArgs, adds: seq<string>, rems: seq<string>)
    requires Parsed(a)
    ensures Parsed(Rebasing(a, adds, rems)) <==> BaseRemains(Bases(a), adds, rems, a.arch)
  {
    RemainsIff(Bases(a), adds, rems, a.arch);
  }

  // ---- When `create` accepts it ----

  /** Every addition, with the path it gets, is a printable plain HTTP URL. */
  predicate PlainAdds(bases: seq<string>, adds: seq<string>) {
    forall x :: x in Carried(bases, adds) ==> OkUrl(x, false)
  }

  lemma RebasedOkIff(a: CreateArgs, adds: seq<string>, rems: seq<string>)
    requires OkBases(a) && AllTrimmed(adds)
    ensures OkBases(Rebasing(a, adds, rems)) <==> PlainAdds(Bases(a), adds)
  {
    var b, left := Rebasing(a, adds, rems), Left(Bases(a), adds, rems, a.arch);
    RebasedBases(a, adds, rems);
    if OkBases(b) {
      forall x | x in Carried(Bases(a), adds) ensures OkUrl(x, false) {
        LeftMembers(Bases(a), adds, rems, a.arch, x);
        var i :| 0 <= i < |left| && left[i] == x;
        assert OkUrl(Bases(b)[i], false);
      }
    }
    if PlainAdds(Bases(a), adds) {
      forall i | 0 <= i < |left| ensures OkUrl(left[i], false) {
        LeftMembers(Bases(a), adds, rems, a.arch, left[i]);
        if left[i] !in Carried(Bases(a), adds) {
          var k :| 0 <= k < |Bases(a)| && Bases(a)[k] == left[i];
          assert OkUrl(Bases(a)[k], false);
        }
      }
    }
  }

  /** A stage that could be written into still can be after the modification, and conversely. */
  lemma EditedOpen(env: Env, existing: Option<Bytes>, edited: Option<Bytes>, adds: seq<string>, rems: seq<string>)
    requires ExistingDoc(env, existing).Some? && ExistingDoc(env, edited).Some?
    requires Modified(ExistingDoc(env, existing).value, adds, rems) == ExistingDoc(env, edited)
    ensures Mergeable(env, existing) ==> Mergeable(env, edited)
  {
    var doc, out := ExistingDoc(env, existing).value, ExistingDoc(env, edited).value;
    ModifiedObject(doc, out, adds, rems);
    forall key | key in STAGES && key in doc.m && doc.m[key].Obj? ensures key in out.m && out.m[key].Obj? {
      StageEdits(doc.m, out.m, key, InAll(EditingEntry(adds, rems)));
      AllKeepsObjects(EditingEntry(adds, rems), doc.m[key], out.m[key]);
    }
    forall key | key in STAGES && key in out.m ensures key in doc.m {
      StageEdits(doc.m, out.m, key, InAll(EditingEntry(adds, rems)));
    }
  }

  /** `create` could have been run instead: a base remains, and `create` takes all that do. */
  predicate StillCreates(a: CreateArgs, adds: seq<string>, rems: seq<string>) {
    BaseRemains(Bases(a), adds, rems, a.arch) && PlainAdds(Bases(a), adds)
  }

  /**
   * `create` succeeds for the remaining bases exactly when there are any and the additions are printable plain
   * HTTP URLs, and then modifying what it emitted before gives what it emits for them. `modify` itself asks for
   * neither: it takes `https://` additions, and it may leave no base at all.
   */
  lemma ModifyIsCreateIff(
      tool: Tool, a: CreateArgs, existing: Option<Bytes>, d: Deployment, edited: Option<Bytes>,
      addBases: seq<string>, removeBases: seq<string>)
    requires Parsed(a) && Create(tool, a, existing) == Ok(d)
    requires ExistingDoc(tool.env, existing).Some? && ExistingDoc(tool.env, edited).Some?
    requires Modified(ExistingDoc(tool.env, existing).value, TrimAll(addBases), TrimAll(removeBases))
             == ExistingDoc(tool.env, edited)
    ensures var adds, rems := TrimAll(addBases), TrimAll(removeBases);
      var b := Rebasing(a, adds, rems);
      && (Parsed(b) && Create(tool, b, edited).Ok? <==> StillCreates(a, adds, rems))
      && (Parsed(b) && Create(tool, b, edited).Ok? ==>
        Modified(d.doc, adds, rems) == Some(Create(tool, b, edited).value.doc))
  {
    var adds, rems := TrimAll(addBases), TrimAll(removeBases);
    var b := Rebasing(a, adds, rems);
    RebasedParses(a, adds, rems);
    if Parsed(b) {
      RebasedCreatesIff(tool, a, existing, edited, addBases, removeBases);
      if Create(tool, b, edited).Ok? {
        ModifyCreated(tool, a, existing, d, edited, Create(tool, b, edited).value, addBases, removeBases);
      }
    }
  }

  lemma RebasedCreatesIff(
      tool: Tool, a: CreateArgs, existing: Option<Bytes>, edited: Option<Bytes>,
      addBases: seq<string>, removeBases: seq<string>)
    requires Parsed(a) && Create(tool, a, existing).Ok?
    requires ExistingDoc(tool.env, existing).Some? && ExistingDoc(tool.env, edited).Some?
    requires Modified(ExistingDoc(tool.env, existing).value, TrimAll(addBases), TrimAll(removeBases))
             == ExistingDoc(tool.env, edited)
    requires Parsed(Rebasing(a, TrimAll(addBases), TrimAll(removeBases)))
    ensures Create(tool, Rebasing(a, TrimAll(addBases), TrimAll(removeBases)), edited).Ok?
      <==> PlainAdds(Bases(a), TrimAll(addBases))
  {
    var adds, rems := TrimAll(addBases), TrimAll(removeBases);
    CreateSucceedsIff(tool, a, existing);
    CreateSucceedsIff(tool, Rebasing(a, adds, rems), edited);
    EditedOpen(tool.env, existing, edited, adds, rems);
    AddsTrimmed(addBases);
    RebasedOkIff(a, adds, rems);
  }
}
