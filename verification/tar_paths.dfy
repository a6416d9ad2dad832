/** Which name a path of an archive member gets, as a matter of how the path is spelt. */
module TarPaths {
  import opened Bytes
  import opened Wrappers
  import opened TarStream

  /** Any number of "./", then of "/", then the name, then any number of "/". */
  function Spelling(m: nat, n: nat, name: Bytes, k: nat): Bytes {
    Repeated(Ascii("./"), m) + (Repeated(Ascii("/"), n) + (name + Repeated(Ascii("/"), k)))
  }

  /** A name without a slash at either end; a leading "./" stays only where a slash went before it. */
  predicate IsName(name: Bytes, n: nat) {
    && name != [] && name != Ascii(".") && name[0] != 0x2F && name[|name| - 1] != 0x2F
    && (n == 0 ==> !(Ascii("./") <= name))
  }

  ghost predicate Spells(path: Bytes, name: Bytes) {
    exists m, n, k :: path == Spelling(m, n, name, k) && IsName(name, n)
  }

  /** Nothing but dots and slashes that stand for the root itself. */
  ghost predicate SpellsRoot(path: Bytes) {
    exists m, n, k :: path == Spelling(m, n, [], k) || path == Spelling(m, n, Ascii("."), k)
  }

  lemma LettersSpelt()
    ensures Ascii("./") == [DOT, SLASH] && Ascii("/") == [SLASH] && Ascii(".") == [DOT]
    ensures DOT == 0x2E && SLASH == 0x2F
  {}

  lemma {:induction false} RepeatedSlashes(n: nat)
    ensures |Repeated([SLASH], n)| == n && forall i :: 0 <= i < n ==> Repeated([SLASH], n)[i] == SLASH
  {
    if n > 0 {
      RepeatedSlashes(n - 1);
    }
  }

  lemma {:induction false} AllSlashes(p: Bytes)
    requires forall i :: 0 <= i < |p| ==> p[i] == SLASH
    ensures p == Repeated([SLASH], |p|)
  {
    RepeatedSlashes(|p|);
  }

  lemma {:induction false} TrimsEnd(p: Bytes, k: nat)
    requires p == [] || p[|p| - 1] != SLASH
    ensures TrimEndSlashes(p + Repeated([SLASH], k)) == p
  {
    var q := p + Repeated([SLASH], k);
    RepeatedSlashes(k);
    TrimEndMeaning(q);
    assert forall i :: |p| <= i < |q| ==> q[i] == SLASH;
    assert p != [] ==> q[|p| - 1] != SLASH;
  }

  lemma EndTrimmed(q: Bytes) returns (k: nat)
    ensures q == TrimEndSlashes(q) + Repeated([SLASH], k)
  {
    TrimEndMeaning(q);
    var name := TrimEndSlashes(q);
    k := |q| - |name|;
    AllSlashes(q[|name|..]);
  }

  /** What the three trimmings leave of a spelling. */
  lemma {:induction false} TrimsSpelling(m: nat, n: nat, name: Bytes, k: nat)
    requires !StartsSlash(name + Repeated([SLASH], k)) && (name == [] || name[|name| - 1] != SLASH)
    requires n == 0 ==> !StartsDotSlash(name + Repeated([SLASH], k))
    ensures TrimEndSlashes(TrimSlashes(TrimDotSlashes(Spelling(m, n, name, k)))) == name
  {
    LettersSpelt();
    var behind := name + Repeated([SLASH], k);
    var rooted := Repeated([SLASH], n) + behind;
    RepeatedSlashes(n);
    assert n > 0 ==> rooted[0] == SLASH;
    assert n == 0 ==> rooted == behind;
    TrimsRepeatedDots(m, rooted);
    TrimsRepeatedSlashes(n, behind);
    TrimsEnd(name, k);
  }

  /** Any path is spelt so, with what is left of it as the name. */
  lemma SpellingOf(path: Bytes) returns (m: nat, n: nat, k: nat)
    ensures var name := TrimEndSlashes(TrimSlashes(TrimDotSlashes(path)));
      && path == Spelling(m, n, name, k)
      && (n == 0 ==> !StartsDotSlash(name)) && !StartsSlash(name)
      && (name != [] ==> name[|name| - 1] != SLASH)
  {
    LettersSpelt();
    var p := TrimDotSlashes(path);
    var q := TrimSlashes(p);
    var name := TrimEndSlashes(q);
    m := DotsTrimmed(path);
    n := SlashesTrimmed(p);
    k := EndTrimmed(q);
    TrimsMeaning(path);
    TrimSlashesMeaning(p);
    TrimEndMeaning(q);
    if n == 0 {
      assert p == q;
    }
  }

  /** A path gets this name exactly if it is spelt so. */
  lemma NormalizeIff(path: Bytes, name: Bytes)
    ensures Normalize(path) == Some(name) <==> Spells(path, name)
  {
    LettersSpelt();
    if Normalize(path) == Some(name) {
      var m, n, k := SpellingOf(path);
      assert path == Spelling(m, n, name, k) && IsName(name, n);
    }
    if Spells(path, name) {
      var m, n, k :| path == Spelling(m, n, name, k) && IsName(name, n);
      NameTrims(path, m, n, name, k);
    }
  }

  lemma NameTrims(path: Bytes, m: nat, n: nat, name: Bytes, k: nat)
    requires path == Spelling(m, n, name, k) && IsName(name, n)
    ensures Normalize(path) == Some(name)
  {
    LettersSpelt();
    var behind := name + Repeated([SLASH], k);
    assert behind[0] == name[0];
    assert |name| >= 2 ==> behind[1] == name[1];
    assert StartsDotSlash(name) ==> [DOT, SLASH] <= name;
    assert |name| == 1 ==> name == [name[0]];
    TrimsSpelling(m, n, name, k);
  }

  lemma {:induction false} OneMoreDot(m: nat)
    ensures Repeated([DOT, SLASH], m) + [DOT, SLASH] == Repeated([DOT, SLASH], m + 1)
  {
    if m > 0 {
      OneMoreDot(m - 1);
    }
  }

  lemma {:induction false} MoreSlashes(n: nat, k: nat)
    ensures Repeated([SLASH], n) + Repeated([SLASH], k) == Repeated([SLASH], n + k)
  {
    RepeatedSlashes(n);
    RepeatedSlashes(k);
    RepeatedSlashes(n + k);
  }

  lemma BareTrims(m: nat, n: nat, k: nat)
    ensures Normalize(Spelling(m, n, [], k)) == None
  {
    LettersSpelt();
    MoreSlashes(n, k);
    assert [] + Repeated([SLASH], k) == Repeated([SLASH], k);
    assert Repeated([SLASH], n + k) + ([] + Repeated([SLASH], 0)) == Repeated([SLASH], n + k);
    assert Spelling(m, n, [], k) == Spelling(m, n + k, [], 0);
    TrimsSpelling(m, n + k, [], 0);
  }

  lemma DotTrims(m: nat, n: nat, k: nat)
    ensures Normalize(Spelling(m, n, Ascii("."), k)) == None
  {
    LettersSpelt();
    if n == 0 && k > 0 {
      OneMoreDot(m);
      var slashes := Repeated([SLASH], k - 1);
      assert [DOT] + Repeated([SLASH], k) == [DOT, SLASH] + slashes;
      assert Repeated([SLASH], 0) + ([DOT] + Repeated([SLASH], k)) == [DOT, SLASH] + slashes;
      assert Repeated([SLASH], 0) + ([] + slashes) == slashes;
      assert Repeated([DOT, SLASH], m) + ([DOT, SLASH] + slashes)
          == Repeated([DOT, SLASH], m) + [DOT, SLASH] + slashes;
      assert Spelling(m, 0, [DOT], k) == Spelling(m + 1, 0, [], k - 1);
      BareTrims(m + 1, 0, k - 1);
    } else {
      TrimsSpelling(m, n, [DOT], k);
    }
  }

  /** A path is skipped exactly if it stands for the root. */
  lemma SkippedIff(path: Bytes)
    ensures Normalize(path) == None <==> SpellsRoot(path)
  {
    if Normalize(path) == None {
      var m, n, k := SpellingOf(path);
      LettersSpelt();
      assert path == Spelling(m, n, [], k) || path == Spelling(m, n, Ascii("."), k);
    }
    if SpellsRoot(path) {
      var m, n, k :| path == Spelling(m, n, [], k) || path == Spelling(m, n, Ascii("."), k);
      BareTrims(m, n, k);
      DotTrims(m, n, k);
    }
  }
}
