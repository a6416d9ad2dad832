/** JSON values and the recursive merge of a signed manifest into the document. */
module Json {
  /** Numbers keep their text; objects are finite maps, as in serde_json's `Map`. */
  datatype Json = Null | Bool(b: bool) | Num(text: string) | Str(s: string) | Arr(items: seq<Json>)
                | Obj(m: map<string, Json>)

  // ---- Merging ----

  /** `overlay` merged into `base`: objects merge key by key, anything else takes the overlay, null included. */
  function Merge(base: Json, overlay: Json): Json
    decreases overlay
  {
    if base.Obj? && overlay.Obj? then
      Obj(map k | k in base.m.Keys + overlay.m.Keys ::
            if k !in overlay.m then base.m[k]
            else if k in base.m then Merge(base.m[k], overlay.m[k])
            else overlay.m[k])
    else overlay
  }

  /** The entries of `b` with the keys of `o` in `done` merged in. */
  predicate PartlyMerged(b: map<string, Json>, o: map<string, Json>, done: set<string>, now: map<string, Json>)
    requires done <= o.Keys
  {
    && now.Keys == b.Keys + done
    && forall k :: k in now ==>
         now[k] == if k !in done then b[k] else if k in b then Merge(b[k], o[k]) else o[k]
  }

  /** The key loop of the code; the order in which keys are visited does not matter. */
  method DeepMerge(base: Json, overlay: Json) returns (merged: Json)
    ensures merged == Merge(base, overlay)
    decreases overlay
  {
    if !base.Obj? || !overlay.Obj? {
      return overlay;
    }
    var now, done := base.m, {};
    while overlay.m.Keys - done != {}
      invariant done <= overlay.m.Keys && PartlyMerged(base.m, overlay.m, done, now)
      decreases overlay.m.Keys - done
    {
      var k :| k in overlay.m.Keys - done;
      var value := overlay.m[k];
      if k in now {
        value := DeepMerge(now[k], overlay.m[k]);
      }
      now, done := now[k := value], done + {k};
    }
    assert done == overlay.m.Keys;
    AllMerged(base.m, overlay.m, now);
    merged := Obj(now);
  }

  lemma AllMerged(b: map<string, Json>, o: map<string, Json>, now: map<string, Json>)
    requires PartlyMerged(b, o, o.Keys, now)
    ensures Obj(now) == Merge(Obj(b), Obj(o))
  {
    assert now == Merge(Obj(b), Obj(o)).m;
  }

  // ---- What a path shows ----

  datatype Shape = Absent | Object | Leaf(value: Json)

  function At(j: Json, path: seq<string>): Shape
    decreases |path|
  {
    if path == [] then (if j.Obj? then Object else Leaf(j))
    else if j.Obj? && path[0] in j.m then At(j.m[path[0]], path[1..])
    else Absent
  }

  /** A proper prefix of `path` is a leaf of `j`: nothing can lie below it. */
  predicate Blocked(j: Json, path: seq<string>)
    decreases |path|
  {
    path != [] && (!j.Obj? || (path[0] in j.m && Blocked(j.m[path[0]], path[1..])))
  }

  lemma {:induction false} BlockedAbsent(j: Json, path: seq<string>)
    requires Blocked(j, path)
    ensures At(j, path) == Absent
    decreases |path|
  {
    if j.Obj? {
      BlockedAbsent(j.m[path[0]], path[1..]);
    }
  }

  function Overlaid(base: Json, overlay: Json, path: seq<string>): Shape {
    if Blocked(overlay, path) then Absent
    else if At(overlay, path) != Absent then At(overlay, path)
    else At(base, path)
  }

  /** Whatever the overlay says at a path wins; where it is silent, the base survives. */
  lemma {:induction false} MergeAt(base: Json, overlay: Json, path: seq<string>)
    ensures At(Merge(base, overlay), path) == Overlaid(base, overlay, path)
    decreases |path|
  {
    if Blocked(overlay, path) {
      BlockedAbsent(overlay, path);
    }
    if path != [] && base.Obj? && overlay.Obj? && path[0] in base.m && path[0] in overlay.m {
      MergeAt(base.m[path[0]], overlay.m[path[0]], path[1..]);
    }
  }

  /** Two different values show a difference at some path, so the paths determine the value. */
  lemma {:induction false} DifferAt(a: Json, b: Json) returns (path: seq<string>)
    requires a != b
    ensures At(a, path) != At(b, path)
    decreases a
  {
    if a.Obj? && b.Obj? {
      if a.m.Keys == b.m.Keys {
        var k :| k in a.m && a.m[k] != b.m[k];
        var below := DifferAt(a.m[k], b.m[k]);
        path := [k] + below;
        assert path[1..] == below;
      } else {
        var k :| k in a.m.Keys + b.m.Keys && (k in a.m) != (k in b.m);
        path := [k];
        NotAbsent(if k in a.m then a.m[k] else b.m[k]);
      }
    } else {
      path := [];
    }
  }

  lemma {:induction false} NotAbsent(j: Json)
    ensures At(j, []) != Absent
  {}

  /** The path law determines the merge: a document showing it at every path is the merge. */
  lemma MergeUnique(base: Json, overlay: Json, merged: Json)
    ensures merged == Merge(base, overlay)
      <==> forall path :: At(merged, path) == Overlaid(base, overlay, path)
  {
    forall path ensures At(Merge(base, overlay), path) == Overlaid(base, overlay, path) {
      MergeAt(base, overlay, path);
    }
    if merged != Merge(base, overlay) {
      var path := DifferAt(merged, Merge(base, overlay));
      assert At(merged, path) != Overlaid(base, overlay, path);
    }
  }

  /** Merging the same overlay again changes nothing. */
  lemma {:induction false} MergeIdempotent(base: Json, overlay: Json)
    ensures Merge(Merge(base, overlay), overlay) == Merge(base, overlay)
  {
    var once := Merge(base, overlay);
    if Merge(once, overlay) != once {
      var path := DifferAt(Merge(once, overlay), once);
      MergeAt(once, overlay, path);
      MergeAt(base, overlay, path);
    }
  }

  // ---- Associativity, and exactly when it fails ----

  /** `a` adds nothing under `c`: every key of `a` that could survive the merge is already decided by `c`. */
  predicate Absorbed(a: Json, c: Json)
    decreases a
  {
    a.Obj? && c.Obj? ==> forall k :: k in a.m ==> k in c.m && Absorbed(a.m[k], c.m[k])
  }

  lemma {:induction false} AbsorbedIff(a: Json, c: Json)
    ensures Absorbed(a, c) <==> Merge(a, c) == c
    decreases a
  {
    if a.Obj? && c.Obj? {
      forall k | k in a.m && k in c.m ensures Absorbed(a.m[k], c.m[k]) <==> Merge(a.m[k], c.m[k]) == c.m[k] {
        AbsorbedIff(a.m[k], c.m[k]);
      }
      var merged := Merge(a, c).m;
      if Absorbed(a, c) {
        assert merged == c.m;
      } else {
        var k :| k in a.m && !(k in c.m && Absorbed(a.m[k], c.m[k]));
        assert k in merged;
        assert k in c.m ==> merged[k] != c.m[k];
      }
    }
  }

  /** Wherever all three are met and `b` cuts an object of `a` away, `c` absorbs what `a` had there. */
  predicate Compatible(a: Json, b: Json, c: Json)
    decreases c
  {
    if !c.Obj? then true
    else if !b.Obj? then Absorbed(a, c)
    else a.Obj? ==> forall k :: k in a.m && k in b.m && k in c.m ==> Compatible(a.m[k], b.m[k], c.m[k])
  }

  /** The order of merging two overlays matters exactly when they are not compatible with the base. */
  lemma {:induction false} AssociativeIff(a: Json, b: Json, c: Json)
    ensures Merge(Merge(a, b), c) == Merge(a, Merge(b, c)) <==> Compatible(a, b, c)
    decreases c
  {
    if c.Obj? && !b.Obj? {
      AbsorbedIff(a, c);
    } else if c.Obj? && a.Obj? {
      forall k | k in a.m && k in b.m && k in c.m
        ensures Merge(Merge(a.m[k], b.m[k]), c.m[k]) == Merge(a.m[k], Merge(b.m[k], c.m[k]))
          <==> Compatible(a.m[k], b.m[k], c.m[k])
      {
        AssociativeIff(a.m[k], b.m[k], c.m[k]);
      }
      MergeKeys(a, b, c);
    }
  }

  predicate SharedAssociate(a: map<string, Json>, b: map<string, Json>, c: map<string, Json>) {
    forall k :: k in a && k in b && k in c ==> Merge(Merge(a[k], b[k]), c[k]) == Merge(a[k], Merge(b[k], c[k]))
  }

  /** Two groupings of three objects differ at most where all three hold the key. */
  lemma {:induction false} MergeKeys(a: Json, b: Json, c: Json)
    requires a.Obj? && b.Obj? && c.Obj?
    ensures Merge(Merge(a, b), c) == Merge(a, Merge(b, c))
      <==> SharedAssociate(a.m, b.m, c.m)
  {
    var left, right := Merge(Merge(a, b), c).m, Merge(a, Merge(b, c)).m;
    assert left.Keys == right.Keys == a.m.Keys + b.m.Keys + c.m.Keys;
    forall k | k in left ensures !(k in a.m && k in b.m && k in c.m) ==> left[k] == right[k] {
    }
    forall k | k in a.m && k in b.m && k in c.m
      ensures left[k] == Merge(Merge(a.m[k], b.m[k]), c.m[k]) && right[k] == Merge(a.m[k], Merge(b.m[k], c.m[k]))
    {
    }
    assert (forall k :: k in left ==> left[k] == right[k]) <==> left == right;
  }

  /** No path that is an object in the first and the last document and something else in the middle one. */
  ghost predicate NoClash(a: Json, b: Json, c: Json) {
    forall path :: !(At(a, path) == Object && At(b, path).Leaf? && At(c, path) == Object)
  }

  lemma {:induction false} AssociativeWithoutClash(a: Json, b: Json, c: Json)
    requires NoClash(a, b, c)
    ensures Merge(Merge(a, b), c) == Merge(a, Merge(b, c))
  {
    NoClashCompatible(a, b, c);
    AssociativeIff(a, b, c);
  }

  lemma {:induction false} NoClashCompatible(a: Json, b: Json, c: Json)
    requires NoClash(a, b, c)
    ensures Compatible(a, b, c)
    decreases c
  {
    assert !(At(a, []) == Object && At(b, []).Leaf? && At(c, []) == Object);
    if a.Obj? && b.Obj? && c.Obj? {
      forall k | k in a.m && k in b.m && k in c.m ensures Compatible(a.m[k], b.m[k], c.m[k]) {
        NoClashBelow(a, b, c, k);
        NoClashCompatible(a.m[k], b.m[k], c.m[k]);
      }
    }
  }

  lemma NoClashBelow(a: Json, b: Json, c: Json, k: string)
    requires a.Obj? && b.Obj? && c.Obj? && k in a.m && k in b.m && k in c.m && NoClash(a, b, c)
    ensures NoClash(a.m[k], b.m[k], c.m[k])
  {
    forall path: seq<string>
      ensures !(At(a.m[k], path) == Object && At(b.m[k], path).Leaf? && At(c.m[k], path) == Object)
    {
      assert ([k] + path)[1..] == path;
      assert !(At(a, [k] + path) == Object && At(b, [k] + path).Leaf? && At(c, [k] + path) == Object);
    }
  }

  /** An object, then null, then an object: the grouping decides whether the base's key survives. */
  lemma NotAssociative()
    ensures var a, b, c := Obj(map["x" := Null]), Null, Obj(map["y" := Null]);
      Merge(Merge(a, b), c) == c && Merge(a, Merge(b, c)) == Obj(map["x" := Null, "y" := Null])
  {
    assert Merge(Obj(map["x" := Null]), Obj(map["y" := Null])).m == map["x" := Null, "y" := Null];
  }
}
