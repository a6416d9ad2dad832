/** What `modify` changes in a document, path by path: the URL fields of both variants and stages, and nothing else. */
module ModifyPaths {
  import opened Bytes
  import opened Wrappers
  import opened Json
  import opened Metadata
  import opened Modify
  import opened ModifyDoc

  // ---- Paths ----

  /** The value at a path through objects. */
  function ValueAt(j: Json, path: seq<string>): Option<Json>
    decreases |path|
  {
    if path == [] then Some(j)
    else if j.Obj? && path[0] in j.m then ValueAt(j.m[path[0]], path[1..])
    else None
  }

  predicate IsUrlField(name: string) {
    name == "url" || name == "sig_url" || name == "args_url" || name == "args_sig_url"
  }

  predicate IsVariant(name: string) {
    name == "payload" || name == "manifest"
  }

  predicate IsStage(name: string) {
    name == "_stage1" || name == "_stage2"
  }

  /** A stage, any architecture, a variant, a URL field. */
  predicate IsUrlPath(path: seq<string>) {
    |path| == 4 && IsStage(path[0]) && IsVariant(path[2]) && IsUrlField(path[3])
  }

  /** The path leads to a URL field, or into one. */
  predicate ReachesUrl(path: seq<string>) {
    |path| >= 4 && IsUrlPath(path[..4])
  }

  // ---- One level ----

  predicate EditedLevel(j: Json, k: Json, keys: set<string>, f: Edit) {
    && (!j.Obj? ==> k == j)
    && (j.Obj? ==>
      && k.Obj? && k.m.Keys == j.m.Keys
      && forall x :: x in j.m ==> if x in keys then f(j.m[x]) == Some(k.m[x]) else k.m[x] == j.m[x])
  }

  lemma FieldsLevel(j: Json, keys: set<string>, f: Edit)
    ensures InFields(keys, f)(j).None? <==> j.Obj? && exists x :: x in keys && x in j.m && f(j.m[x]).None?
    ensures InFields(keys, f)(j).Some? ==> EditedLevel(j, InFields(keys, f)(j).value, keys, f)
  {}

  lemma AllLevel(j: Json, f: Edit)
    ensures InAll(f)(j).None? <==> j.Obj? && exists x :: x in j.m && f(j.m[x]).None?
    ensures InAll(f)(j).Some? ==> EditedLevel(j, InAll(f)(j).value, if j.Obj? then j.m.Keys else {}, f)
  {
    if j.Obj? {
      FieldsLevel(j, j.m.Keys, f);
    }
  }

  lemma {:induction false} StepDown(j: Json, k: Json, keys: set<string>, f: Edit, path: seq<string>)
    requires EditedLevel(j, k, keys, f) && path != []
    ensures At(j, path) == Absent <==> !j.Obj? || path[0] !in j.m || At(j.m[path[0]], path[1..]) == Absent
    ensures j.Obj? && path[0] in j.m ==>
      k.Obj? && path[0] in k.m && At(k, path) == At(k.m[path[0]], path[1..])
    ensures j.Obj? && path[0] in j.m ==> At(j, path) == At(j.m[path[0]], path[1..])
    ensures !(j.Obj? && path[0] in j.m) ==> At(k, path) == At(j, path)
  {}

  lemma {:induction false} RootKept(j: Json, k: Json, keys: set<string>, f: Edit)
    requires EditedLevel(j, k, keys, f)
    ensures At(k, []) == At(j, [])
  {}

  // ---- What stays ----

  lemma {:induction false} VariantKept(j: Json, k: Json, adds: seq<string>, rems: seq<string>, path: seq<string>)
    requires EditingVariant(adds, rems)(j) == Some(k) && !(|path| >= 1 && IsUrlField(path[0]))
    ensures At(k, path) == At(j, path)
  {
    FieldsLevel(j, URL_FIELDS, Rewriting(adds, rems));
    if path == [] {
      RootKept(j, k, URL_FIELDS, Rewriting(adds, rems));
    } else {
      StepDown(j, k, URL_FIELDS, Rewriting(adds, rems), path);
    }
  }

  lemma {:induction false} EntryKept(j: Json, k: Json, adds: seq<string>, rems: seq<string>, path: seq<string>)
    requires EditingEntry(adds, rems)(j) == Some(k)
    requires !(|path| >= 2 && IsVariant(path[0]) && IsUrlField(path[1]))
    ensures At(k, path) == At(j, path)
  {
    FieldsLevel(j, VARIANTS, EditingVariant(adds, rems));
    if path == [] {
      RootKept(j, k, VARIANTS, EditingVariant(adds, rems));
    } else {
      StepDown(j, k, VARIANTS, EditingVariant(adds, rems), path);
      if j.Obj? && path[0] in j.m && path[0] in VARIANTS {
        VariantKept(j.m[path[0]], k.m[path[0]], adds, rems, path[1..]);
      }
    }
  }

  lemma {:induction false} StageKept(j: Json, k: Json, adds: seq<string>, rems: seq<string>, path: seq<string>)
    requires EditingStage(adds, rems)(j) == Some(k)
    requires !(|path| >= 3 && IsVariant(path[1]) && IsUrlField(path[2]))
    ensures At(k, path) == At(j, path)
  {
    AllLevel(j, EditingEntry(adds, rems));
    var keys := if j.Obj? then j.m.Keys else {};
    if path == [] {
      RootKept(j, k, keys, EditingEntry(adds, rems));
    } else {
      StepDown(j, k, keys, EditingEntry(adds, rems), path);
      if j.Obj? && path[0] in j.m {
        EntryKept(j.m[path[0]], k.m[path[0]], adds, rems, path[1..]);
      }
    }
  }

  /** Whatever is not a URL field, or inside one, is as it was. */
  lemma {:induction false} ModifyKeeps(doc: Json, edited: Json, adds: seq<string>, rems: seq<string>, path: seq<string>)
    requires Modified(doc, adds, rems) == Some(edited) && !ReachesUrl(path)
    ensures At(edited, path) == At(doc, path)
  {
    FieldsLevel(doc, STAGES, EditingStage(adds, rems));
    if path == [] {
      RootKept(doc, edited, STAGES, EditingStage(adds, rems));
    } else {
      StepDown(doc, edited, STAGES, EditingStage(adds, rems), path);
      if doc.Obj? && path[0] in doc.m && path[0] in STAGES {
        StageKept(doc.m[path[0]], edited.m[path[0]], adds, rems, path[1..]);
      }
    }
  }

  // ---- What changes ----

  /** The value at a path whose edit is `f`, before and after. */
  predicate EditedAt(before: Option<Json>, after: Option<Json>, f: Edit) {
    match before
    case None => after == None
    case Some(v) => after.Some? && f(v) == after
  }

  lemma {:induction false} OneKey(j: Json, path: seq<string>)
    requires |path| == 1
    ensures ValueAt(j, path) == if j.Obj? && path[0] in j.m then Some(j.m[path[0]]) else None
  {
    assert path[1..] == [];
  }

  lemma {:induction false} VariantEdited(j: Json, k: Json, adds: seq<string>, rems: seq<string>, path: seq<string>)
    requires EditingVariant(adds, rems)(j) == Some(k) && |path| == 1 && IsUrlField(path[0])
    ensures EditedAt(ValueAt(j, path), ValueAt(k, path), Rewriting(adds, rems))
  {
    FieldsLevel(j, URL_FIELDS, Rewriting(adds, rems));
    OneKey(j, path);
    OneKey(k, path);
  }

  lemma {:induction false} EntryEdited(j: Json, k: Json, adds: seq<string>, rems: seq<string>, path: seq<string>)
    requires EditingEntry(adds, rems)(j) == Some(k) && |path| == 2 && IsVariant(path[0]) && IsUrlField(path[1])
    ensures EditedAt(ValueAt(j, path), ValueAt(k, path), Rewriting(adds, rems))
  {
    FieldsLevel(j, VARIANTS, EditingVariant(adds, rems));
    if j.Obj? && path[0] in j.m {
      VariantEdited(j.m[path[0]], k.m[path[0]], adds, rems, path[1..]);
    }
  }

  lemma {:induction false} StageEdited(j: Json, k: Json, adds: seq<string>, rems: seq<string>, path: seq<string>)
    requires EditingStage(adds, rems)(j) == Some(k) && |path| == 3 && IsVariant(path[1]) && IsUrlField(path[2])
    ensures EditedAt(ValueAt(j, path), ValueAt(k, path), Rewriting(adds, rems))
  {
    AllLevel(j, EditingEntry(adds, rems));
    if j.Obj? && path[0] in j.m {
      EntryEdited(j.m[path[0]], k.m[path[0]], adds, rems, path[1..]);
    }
  }

  /** Every URL field that is there is rewritten. */
  lemma {:induction false} ModifyRewrites(
      doc: Json, edited: Json, adds: seq<string>, rems: seq<string>, path: seq<string>)
    requires Modified(doc, adds, rems) == Some(edited) && IsUrlPath(path)
    ensures match ValueAt(doc, path)
            case None => ValueAt(edited, path) == None
            case Some(v) => ValueAt(edited, path).Some? && ValueAt(edited, path) == Rewritten(v, adds, rems)
  {
    FieldsLevel(doc, STAGES, EditingStage(adds, rems));
    if doc.Obj? && path[0] in doc.m {
      StageEdited(doc.m[path[0]], edited.m[path[0]], adds, rems, path[1..]);
    }
  }

  // ---- When it fails ----

  predicate BadField(v: Json) {
    !v.Str? && !v.Arr?
  }

  lemma VariantFails(j: Json, adds: seq<string>, rems: seq<string>) returns (path: seq<string>)
    requires EditingVariant(adds, rems)(j).None?
    ensures |path| == 1 && IsUrlField(path[0]) && ValueAt(j, path).Some? && BadField(ValueAt(j, path).value)
  {
    FieldsLevel(j, URL_FIELDS, Rewriting(adds, rems));
    var x :| x in URL_FIELDS && x in j.m && Rewriting(adds, rems)(j.m[x]).None?;
    path := [x];
    OneKey(j, path);
  }

  lemma EntryFails(j: Json, adds: seq<string>, rems: seq<string>) returns (path: seq<string>)
    requires EditingEntry(adds, rems)(j).None?
    ensures |path| == 2 && IsVariant(path[0]) && IsUrlField(path[1])
    ensures ValueAt(j, path).Some? && BadField(ValueAt(j, path).value)
  {
    FieldsLevel(j, VARIANTS, EditingVariant(adds, rems));
    var x :| x in VARIANTS && x in j.m && EditingVariant(adds, rems)(j.m[x]).None?;
    var below := VariantFails(j.m[x], adds, rems);
    path := [x] + below;
    assert path[1..] == below;
  }

  lemma StageFails(j: Json, adds: seq<string>, rems: seq<string>) returns (path: seq<string>)
    requires EditingStage(adds, rems)(j).None?
    ensures |path| == 3 && IsVariant(path[1]) && IsUrlField(path[2])
    ensures ValueAt(j, path).Some? && BadField(ValueAt(j, path).value)
  {
    AllLevel(j, EditingEntry(adds, rems));
    var x :| x in j.m && EditingEntry(adds, rems)(j.m[x]).None?;
    var below := EntryFails(j.m[x], adds, rems);
    path := [x] + below;
    assert path[1..] == below;
  }

  /** A URL field that cannot be rewritten. */
  predicate BadAt(doc: Json, path: seq<string>) {
    IsUrlPath(path) && ValueAt(doc, path).Some? && BadField(ValueAt(doc, path).value)
  }

  lemma DocumentFails(doc: Json, adds: seq<string>, rems: seq<string>) returns (path: seq<string>)
    requires doc.Obj? && Modified(doc, adds, rems).None?
    ensures BadAt(doc, path)
  {
    FieldsLevel(doc, STAGES, EditingStage(adds, rems));
    var x :| x in STAGES && x in doc.m && EditingStage(adds, rems)(doc.m[x]).None?;
    var below := StageFails(doc.m[x], adds, rems);
    path := [x] + below;
    assert path[1..] == below && path[0] == x;
    assert path[2] == below[1] && path[3] == below[2];
  }

  /** `modify` fails exactly if the document is no object, or some URL field is neither a string nor an array. */
  lemma ModifyFailsIff(doc: Json, adds: seq<string>, rems: seq<string>)
    ensures Modified(doc, adds, rems).None? <==> !doc.Obj? || exists path :: BadAt(doc, path)
  {
    match Modified(doc, adds, rems)
    case None =>
      if doc.Obj? {
        var path := DocumentFails(doc, adds, rems);
      }
    case Some(edited) =>
      forall path ensures !BadAt(doc, path) {
        if IsUrlPath(path) {
          ModifyRewrites(doc, edited, adds, rems, path);
        }
      }
  }

  // ---- The path of a URL ----

  /** The path is what follows the host, behind a scheme of either kind. */
  lemma PathBehindHost(scheme: string, host: string, path: string)
    requires scheme == "http://" || scheme == "https://"
    requires '/' !in host && (path == "" || path[0] == '/')
    ensures UrlPath(scheme + host + path) == path
  {
    var u := scheme + host + path;
    assert u[..|scheme|] == scheme;
    assert scheme <= u;
    assert scheme == "https://" ==> u[4] == 's';
    assert SchemeLength(u) == |scheme|;
    var n := SlashFrom(u, |scheme|);
    assert forall k :: |scheme| <= k < |scheme| + |host| ==> u[k] == host[k - |scheme|];
    assert path != "" ==> u[|scheme + host|] == path[0];
    assert u[|scheme + host|..] == path;
  }

  // ---- The members of a list ----

  lemma {:induction false} StringsAppend(a: seq<Json>, b: seq<Json>)
    ensures StringsOf(a + b) == StringsOf(a) + StringsOf(b)
  {
    if a == [] {
      assert a + b == b;
    } else {
      assert (a + b)[0] == a[0] && (a + b)[1..] == a[1..] + b;
      StringsAppend(a[1..], b);
    }
  }

  /** Of an array the strings are kept, in order; anything else in it is dropped. */
  lemma {:induction false} StringsKept(a: seq<Json>, j: Json, b: seq<Json>)
    ensures StringsOf(a + [j] + b) == StringsOf(a) + (if j.Str? then [j.s] else []) + StringsOf(b)
  {
    StringsAppend(a + [j], b);
    StringsAppend(a, [j]);
    assert StringsOf([j]) == if j.Str? then [j.s] else [];
  }
}
