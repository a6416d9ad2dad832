/** Bytewise order of names, and the order in which a sorted map yields its keys. */
module NameOrder {
  import opened Bytes

  /** `a` comes strictly before `b`. */
  predicate Below(a: Bytes, b: Bytes) {
    if b == [] then false
    else if a == [] then true
    else a[0] < b[0] || (a[0] == b[0] && Below(a[1..], b[1..]))
  }

  /** At position `i` the names part: `a` ends there, or has the smaller byte. */
  predicate PartsAt(a: Bytes, b: Bytes, i: nat) {
    i <= |a| && i < |b| && a[..i] == b[..i] && (i < |a| ==> a[i] < b[i])
  }

  /** Two names compare by the first byte in which they differ, and a proper prefix comes first. */
  lemma {:induction false} BelowIff(a: Bytes, b: Bytes)
    ensures Below(a, b) <==> exists i :: PartsAt(a, b, i)
  {
    if a == [] || b == [] || a[0] != b[0] {
      assert Below(a, b) ==> PartsAt(a, b, 0);
      forall i: nat | PartsAt(a, b, i) ensures i == 0 {}
    } else {
      BelowIff(a[1..], b[1..]);
      forall i: nat | PartsAt(a[1..], b[1..], i) ensures PartsAt(a, b, i + 1) {
        assert a[..i + 1] == [a[0]] + a[1..][..i] && b[..i + 1] == [b[0]] + b[1..][..i];
      }
      forall i: nat | PartsAt(a, b, i) ensures i > 0 && PartsAt(a[1..], b[1..], i - 1) {
        assert a[1..][..i - 1] == a[..i][1..] && b[1..][..i - 1] == b[..i][1..];
      }
    }
  }

  lemma {:induction false} BelowIrreflexive(a: Bytes)
    ensures !Below(a, a)
  {
    if a != [] {
      BelowIrreflexive(a[1..]);
    }
  }

  lemma {:induction false} BelowTransitive(a: Bytes, b: Bytes, c: Bytes)
    requires Below(a, b) && Below(b, c)
    ensures Below(a, c)
  {
    if a != [] && a[0] == b[0] && b[0] == c[0] {
      BelowTransitive(a[1..], b[1..], c[1..]);
    }
  }

  lemma {:induction false} BelowTotal(a: Bytes, b: Bytes)
    ensures a == b || Below(a, b) || Below(b, a)
  {
    if a != [] && b != [] && a[0] == b[0] {
      BelowTotal(a[1..], b[1..]);
      assert a == [a[0]] + a[1..] && b == [b[0]] + b[1..];
    }
  }

  /** A proper prefix comes first: a directory before everything inside it. */
  lemma {:induction false} PrefixBelow(a: Bytes, rest: Bytes)
    requires rest != []
    ensures Below(a, a + rest)
  {
    if a != [] {
      PrefixBelow(a[1..], rest);
      assert (a + rest)[1..] == a[1..] + rest;
    }
  }

  ghost predicate StrictlySorted(names: seq<Bytes>) {
    forall i, j :: 0 <= i < j < |names| ==> Below(names[i], names[j])
  }

  predicate IsLeast(name: Bytes, names: set<Bytes>) {
    name in names && forall other :: other in names ==> other == name || Below(name, other)
  }

  lemma {:induction false} LeastExists(names: set<Bytes>)
    requires names != {}
    ensures exists name :: IsLeast(name, names)
    decreases |names|
  {
    var x :| x in names;
    if names == {x} {
      assert IsLeast(x, names);
    } else {
      LeastExists(names - {x});
      var y :| IsLeast(y, names - {x});
      BelowTotal(x, y);
      if Below(y, x) {
        assert IsLeast(y, names);
      } else {
        forall other | other in names
          ensures other == x || Below(x, other)
        {
          if other != x && other != y {
            BelowTransitive(x, y, other);
          }
        }
        assert IsLeast(x, names);
      }
    }
  }

  /** The names in ascending order. */
  ghost function InOrder(names: set<Bytes>): seq<Bytes>
    decreases |names|
  {
    if names == {} then []
    else
      LeastExists(names);
      var least :| IsLeast(least, names);
      [least] + InOrder(names - {least})
  }

  lemma {:induction false} InOrderSorted(names: set<Bytes>)
    ensures StrictlySorted(InOrder(names))
    ensures forall name :: name in InOrder(names) <==> name in names
    ensures |InOrder(names)| == |names|
    decreases |names|
  {
    if names != {} {
      var order := InOrder(names);
      assert IsLeast(order[0], names) && order[1..] == InOrder(names - {order[0]});
      InOrderSorted(names - {order[0]});
      forall i, j | 0 <= i < j < |order|
        ensures Below(order[i], order[j])
      {
        assert order[j] == order[1..][j - 1];
        assert order[j] in order[1..];
        if i > 0 {
          assert order[i] == order[1..][i - 1];
        }
      }
    }
  }

  /** Sorting determines the sequence: there is only one strictly sorted listing of a set. */
  lemma {:induction false} SortedUnique(a: seq<Bytes>, b: seq<Bytes>)
    requires StrictlySorted(a) && StrictlySorted(b)
    requires forall name :: name in a <==> name in b
    ensures a == b
  {
    assert a != [] ==> a[0] in b;
    assert b != [] ==> b[0] in a;
    if a != [] && b != [] {
      HeadsEqual(a, b);
      forall name
        ensures name in a[1..] <==> name in b[1..]
      {
        TailMembers(a, name);
        TailMembers(b, name);
      }
      SortedUnique(a[1..], b[1..]);
      assert a == [a[0]] + a[1..] && b == [b[0]] + b[1..];
    }
  }

  lemma HeadsEqual(a: seq<Bytes>, b: seq<Bytes>)
    requires StrictlySorted(a) && StrictlySorted(b) && a != [] && b != []
    requires a[0] in b && b[0] in a
    ensures a[0] == b[0]
  {
    var i :| 0 <= i < |b| && b[i] == a[0];
    var j :| 0 <= j < |a| && a[j] == b[0];
    if i > 0 && j > 0 {
      BelowTransitive(a[0], b[0], a[0]);
      BelowIrreflexive(a[0]);
    }
  }

  lemma TailMembers(a: seq<Bytes>, name: Bytes)
    requires StrictlySorted(a) && a != []
    ensures name in a[1..] <==> name in a && name != a[0]
  {
    BelowIrreflexive(a[0]);
    if name in a && name != a[0] {
      var i :| 0 <= i < |a| && a[i] == name;
      assert a[1..][i - 1] == name;
    }
    if name in a[1..] {
      var i :| 0 <= i < |a| - 1 && a[1..][i] == name;
      assert a[i + 1] == name;
    }
  }
}
