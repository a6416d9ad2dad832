/** Adding and removing mirrors in an existing document, against composing the lists afresh. */
module Modify {
  import opened Wrappers
  import opened Json
  import opened Metadata
  import opened Deploy

  // ---- The parts of a URL ----

  function SchemeLength(u: string): (n: nat)
    ensures n <= |u|
  {
    if "http://" <= u then 7 else if "https://" <= u then 8 else 0
  }

  /** The first slash at or after `i`, or the length. */
  function SlashFrom(u: string, i: nat): (n: nat)
    requires i <= |u|
    ensures i <= n <= |u| && (n < |u| ==> u[n] == '/') && forall k :: i <= k < n ==> u[k] != '/'
    decreases |u| - i
  {
    if i == |u| || u[i] == '/' then i else SlashFrom(u, i + 1)
  }

  /** Everything from the first slash after the scheme and host. */
  function UrlPath(u: string): string {
    u[SlashFrom(u, SchemeLength(u))..]
  }

  function Tail(arch: string, name: string): (t: string)
    ensures t != "" && t[0] == '/'
  {
    "/" + arch + "/" + name
  }

  lemma LocatedTail(base: string, arch: string, name: string)
    ensures Located(base, arch, name) == base + Tail(arch, name)
  {}

  /** A scheme and a host, nothing after them. */
  predicate HostOnly(base: string) {
    SchemeLength(base) > 0 && UrlPath(base) == ""
  }

  lemma SchemeOfLonger(base: string, tail: string)
    requires SchemeLength(base) > 0
    ensures SchemeLength(base + tail) == SchemeLength(base)
  {
    assert (base + tail)[..|base|] == base;
    if "https://" <= base {
      assert (base + tail)[4] == base[4] == "https://"[4];
      assert "http://"[4] != "https://"[4];
    }
  }

  /** The path of a base with a tail is the base's own path with the tail. */
  lemma PathOfLonger(base: string, tail: string)
    requires SchemeLength(base) > 0 && tail != "" && tail[0] == '/'
    ensures UrlPath(base + tail) == UrlPath(base) + tail
  {
    var n := SchemeLength(base);
    SchemeOfLonger(base, tail);
    var i, j := SlashFrom(base, n), SlashFrom(base + tail, n);
    assert i == j by {
      assert i < |base| ==> (base + tail)[i] == base[i];
      assert (base + tail)[|base|] == tail[0];
      assert j < |base| ==> (base + tail)[j] == base[j];
    }
    assert (base + tail)[i..] == base[i..] + tail;
  }

  // ---- Rewriting one URL list ----

  predicate Under(base: string, url: string) {
    base + "/" <= url
  }

  predicate Removed(url: string, rems: seq<string>) {
    exists i :: 0 <= i < |rems| && Under(rems[i], url)
  }

  /** Those of the first `n` entries that lie under no removed base. */
  function KeptTo(list: seq<string>, rems: seq<string>, n: nat): seq<string>
    requires n <= |list|
  {
    if n == 0 then []
    else KeptTo(list, rems, n - 1) + (if Removed(list[n - 1], rems) then [] else [list[n - 1]])
  }

  /** Each item appended unless it is there already. */
  function AppendNew(list: seq<string>, items: seq<string>): seq<string>
    decreases |items|
  {
    if items == [] then list
    else AppendNew(if items[0] in list then list else list + [items[0]], items[1..])
  }

  function Suffixed(bases: seq<string>, suffix: string): (r: seq<string>)
    ensures |r| == |bases| && forall i :: 0 <= i < |r| ==> r[i] == bases[i] + suffix
  {
    seq(|bases|, i requires 0 <= i < |bases| => bases[i] + suffix)
  }

  function StringsOf(items: seq<Json>): seq<string> {
    if items == [] then [] else (if items[0].Str? then [items[0].s] else []) + StringsOf(items[1..])
  }

  function ListOf(v: Json): Option<seq<string>> {
    match v
    case Str(s) => Some([s])
    case Arr(items) => Some(StringsOf(items))
    case _ => None
  }

  function RewrittenList(list: seq<string>, adds: seq<string>, rems: seq<string>): seq<string> {
    var kept := KeptTo(list, rems, |list|);
    if list == [] then kept else AppendNew(kept, Suffixed(adds, UrlPath(list[0])))
  }

  function Rewritten(v: Json, adds: seq<string>, rems: seq<string>): Option<Json> {
    match ListOf(v)
    case None => None
    case Some(list) => Some(RenderUrls(RewrittenList(list, adds, rems)))
  }

  /** The loops of `rewrite_urls`: drop what is removed, then push what is new. */
  method RewriteUrls(v: Json, adds: seq<string>, rems: seq<string>) returns (r: Option<Json>)
    ensures r == Rewritten(v, adds, rems)
  {
    var parsed := ListOf(v);
    if parsed.None? {
      return None;
    }
    var all, list := parsed.value, [];
    for i := 0 to |all|
      invariant list == KeptTo(all, rems, i)
    {
      if !Removed(all[i], rems) {
        list := list + [all[i]];
      }
    }
    if |all| > 0 {
      var suffix := UrlPath(all[0]);
      ghost var cands := Suffixed(adds, suffix);
      for i := 0 to |adds|
        invariant AppendNew(list, cands[i..]) == RewrittenList(all, adds, rems)
      {
        var cand := adds[i] + suffix;
        assert cands[i..][0] == cand && cands[i..][1..] == cands[i + 1..];
        if cand !in list {
          list := list + [cand];
        }
      }
    }
    return Some(RenderUrls(list));
  }

  // ---- Appending what is new ----

  lemma {:induction false} AppendNewShape(list: seq<string>, items: seq<string>) returns (more: seq<string>)
    ensures AppendNew(list, items) == list + more
    ensures forall x :: x in more ==> x in items && x !in list
    ensures more == [] <==> forall x :: x in items ==> x in list
    decreases |items|
  {
    if items == [] {
      more := [];
      assert list + more == list;
    } else if items[0] in list {
      more := AppendNewShape(list, items[1..]);
      AppendNewCons(list, items);
    } else {
      var rest := AppendNewShape(list + [items[0]], items[1..]);
      more := [items[0]] + rest;
      assert list + more == (list + [items[0]]) + rest;
      AppendNewCons(list, items);
    }
  }

  lemma AppendNewCons(list: seq<string>, items: seq<string>)
    requires items != []
    ensures forall x :: x in items <==> x == items[0] || x in items[1..]
  {
    assert items == [items[0]] + items[1..];
  }

  /** A URL tells its base, for a fixed tail. */
  lemma LocatedInjective(a: string, b: string, arch: string, name: string)
    requires Located(a, arch, name) == Located(b, arch, name)
    ensures a == b
  {
    LocatedTail(a, arch, name);
    LocatedTail(b, arch, name);
    assert (a + Tail(arch, name))[..|a|] == a && (b + Tail(arch, name))[..|b|] == b;
  }

  lemma ComposedIn(x: string, bases: seq<string>, arch: string, name: string)
    ensures Located(x, arch, name) in ComposeUrls(bases, arch, name) <==> x in bases
  {
    var urls := ComposeUrls(bases, arch, name);
    if Located(x, arch, name) in urls {
      var i :| 0 <= i < |urls| && urls[i] == Located(x, arch, name);
      LocatedInjective(x, bases[i], arch, name);
    }
    if x in bases {
      var i :| 0 <= i < |bases| && bases[i] == x;
      assert urls[i] == Located(x, arch, name);
    }
  }

  /** Composing URLs and appending what is new commute. */
  lemma {:induction false} ComposeAppend(bases: seq<string>, adds: seq<string>, arch: string, name: string)
    ensures AppendNew(ComposeUrls(bases, arch, name), ComposeUrls(adds, arch, name))
      == ComposeUrls(AppendNew(bases, adds), arch, name)
    decreases |adds|
  {
    if adds != [] {
      var next := if adds[0] in bases then bases else bases + [adds[0]];
      ComposeAppend(next, adds[1..], arch, name);
      ComposedIn(adds[0], bases, arch, name);
      assert ComposeUrls(adds, arch, name)[1..] == ComposeUrls(adds[1..], arch, name);
      assert ComposeUrls(bases + [adds[0]], arch, name)
          == ComposeUrls(bases, arch, name) + [Located(adds[0], arch, name)];
    }
  }

  lemma ComposeInjective(a: seq<string>, b: seq<string>, arch: string, name: string)
    requires ComposeUrls(a, arch, name) == ComposeUrls(b, arch, name)
    ensures a == b
  {
    var x, y := ComposeUrls(a, arch, name), ComposeUrls(b, arch, name);
    assert |a| == |x| == |y| == |b|;
    forall i | 0 <= i < |a| ensures a[i] == b[i] {
      assert x[i] == y[i];
      LocatedInjective(a[i], b[i], arch, name);
    }
  }

  // ---- Against composing afresh ----

  /** The bases whose URL lies under no removed base. */
  function SurvivorsTo(bases: seq<string>, rems: seq<string>, arch: string, name: string, n: nat): seq<string>
    requires n <= |bases|
  {
    if n == 0 then []
    else SurvivorsTo(bases, rems, arch, name, n - 1)
         + (if Removed(Located(bases[n - 1], arch, name), rems) then [] else [bases[n - 1]])
  }

  function Survivors(bases: seq<string>, rems: seq<string>, arch: string, name: string): seq<string> {
    SurvivorsTo(bases, rems, arch, name, |bases|)
  }

  lemma {:induction false} KeptAreSurvivors(bases: seq<string>, rems: seq<string>, arch: string, name: string, n: nat)
    requires n <= |bases|
    ensures KeptTo(ComposeUrls(bases, arch, name), rems, n)
      == ComposeUrls(SurvivorsTo(bases, rems, arch, name, n), arch, name)
  {
    if n > 0 {
      KeptAreSurvivors(bases, rems, arch, name, n - 1);
      var before := SurvivorsTo(bases, rems, arch, name, n - 1);
      assert ComposeUrls(before + [bases[n - 1]], arch, name)
          == ComposeUrls(before, arch, name) + [Located(bases[n - 1], arch, name)];
      assert before + [] == before;
      assert ComposeUrls(before, arch, name) + [] == ComposeUrls(before, arch, name);
    }
  }

  /** The candidates that the code builds are the URLs of the added bases followed by the first base's path. */
  lemma Candidates(first: string, adds: seq<string>, arch: string, name: string)
    requires SchemeLength(first) > 0
    ensures Suffixed(adds, UrlPath(Located(first, arch, name)))
      == ComposeUrls(Suffixed(adds, UrlPath(first)), arch, name)
  {
    LocatedTail(first, arch, name);
    PathOfLonger(first, Tail(arch, name));
    var path := UrlPath(first);
    forall i | 0 <= i < |adds| ensures adds[i] + (path + Tail(arch, name)) == Located(adds[i] + path, arch, name) {
      LocatedTail(adds[i] + path, arch, name);
      assert adds[i] + (path + Tail(arch, name)) == (adds[i] + path) + Tail(arch, name);
    }
  }

  /** What rewriting makes of a composed list, whatever the bases: added bases get the first base's path. */
  lemma RewriteComposed(
      bases: seq<string>, adds: seq<string>, rems: seq<string>, arch: string, name: string)
    requires |bases| > 0 && SchemeLength(bases[0]) > 0
    ensures RewrittenList(ComposeUrls(bases, arch, name), adds, rems)
      == ComposeUrls(AppendNew(Survivors(bases, rems, arch, name), Suffixed(adds, UrlPath(bases[0]))), arch, name)
  {
    KeptAreSurvivors(bases, rems, arch, name, |bases|);
    Candidates(bases[0], adds, arch, name);
    ComposeAppend(Survivors(bases, rems, arch, name), Suffixed(adds, UrlPath(bases[0])), arch, name);
  }

  // ---- When the two agree ----

  /** What `AppendNew` appends. */
  function NewAmong(list: seq<string>, items: seq<string>): seq<string>
    decreases |items|
  {
    if items == [] then []
    else if items[0] in list then NewAmong(list, items[1..])
    else [items[0]] + NewAmong(list + [items[0]], items[1..])
  }

  lemma {:induction false} AppendNewIs(list: seq<string>, items: seq<string>)
    ensures AppendNew(list, items) == list + NewAmong(list, items)
    decreases |items|
  {
    if items != [] {
      if items[0] in list {
        AppendNewIs(list, items[1..]);
      } else {
        AppendNewIs(list + [items[0]], items[1..]);
        assert list + NewAmong(list, items) == (list + [items[0]]) + NewAmong(list + [items[0]], items[1..]);
      }
    } else {
      assert list + [] == list;
    }
  }

  lemma {:induction false} NewAmongIn(list: seq<string>, items: seq<string>)
    ensures forall x :: x in NewAmong(list, items) ==> x in items && x !in list
    ensures NewAmong(list, items) == [] <==> forall x :: x in items ==> x in list
    decreases |items|
  {
    if items != [] {
      AppendNewCons(list, items);
      NewAmongIn(if items[0] in list then list else list + [items[0]], items[1..]);
    }
  }

  /** A first base without a path: the list is the one composed from the survivors and what is new. */
  lemma {:induction false} EmptyPathAgrees(
      bases: seq<string>, adds: seq<string>, rems: seq<string>, arch: string, name: string)
    requires |bases| > 0 && HostOnly(bases[0])
    ensures RewrittenList(ComposeUrls(bases, arch, name), adds, rems)
      == ComposeUrls(AppendNew(Survivors(bases, rems, arch, name), adds), arch, name)
  {
    RewriteComposed(bases, adds, rems, arch, name);
    SuffixedNothing(adds);
  }

  lemma SuffixedNothing(adds: seq<string>)
    ensures Suffixed(adds, "") == adds
  {
    assert forall i :: 0 <= i < |adds| ==> adds[i] + "" == adds[i];
  }

  /**
   * Whatever the bases and the additions: `modify` agrees with composing the list afresh exactly when the
   * same additions are new with the first base's path and without it.
   */
  lemma {:induction false} PathBaseAgreesIff(
      bases: seq<string>, adds: seq<string>, rems: seq<string>, arch: string, name: string)
    requires |bases| > 0 && SchemeLength(bases[0]) > 0
    ensures var survivors, path := Survivors(bases, rems, arch, name), UrlPath(bases[0]);
      RewrittenList(ComposeUrls(bases, arch, name), adds, rems)
        == ComposeUrls(AppendNew(survivors, adds), arch, name)
      <==> NewAmong(survivors, Suffixed(adds, path)) == NewAmong(survivors, adds)
  {
    var survivors, path := Survivors(bases, rems, arch, name), UrlPath(bases[0]);
    RewriteComposed(bases, adds, rems, arch, name);
    var left, right := AppendNew(survivors, Suffixed(adds, path)), AppendNew(survivors, adds);
    if ComposeUrls(left, arch, name) == ComposeUrls(right, arch, name) {
      ComposeInjective(left, right, arch, name);
    }
    SameAppended(survivors, Suffixed(adds, path), adds);
  }

  lemma {:induction false} SameAppended(list: seq<string>, x: seq<string>, y: seq<string>)
    ensures AppendNew(list, x) == AppendNew(list, y) <==> NewAmong(list, x) == NewAmong(list, y)
  {
    AppendNewIs(list, x);
    AppendNewIs(list, y);
    var u, v := NewAmong(list, x), NewAmong(list, y);
    assert (list + u)[|list|..] == u && (list + v)[|list|..] == v;
  }

  /** No added base is another one followed by the path. */
  predicate NoneExtends(adds: seq<string>, path: string) {
    forall i, j :: 0 <= i < |adds| && 0 <= j < |adds| ==> adds[j] != adds[i] + path
  }

  /** No added base is new, with the path or without it. */
  predicate NothingNew(survivors: seq<string>, adds: seq<string>, path: string) {
    forall i :: 0 <= i < |adds| ==> adds[i] in survivors && adds[i] + path in survivors
  }

  /** For a first base with a path, and additions that do not extend each other by it: only if nothing is new. */
  lemma {:induction false} PathBaseAgreesIfNothingNew(
      bases: seq<string>, adds: seq<string>, rems: seq<string>, arch: string, name: string)
    requires |bases| > 0 && SchemeLength(bases[0]) > 0 && NoneExtends(adds, UrlPath(bases[0]))
    ensures var survivors := Survivors(bases, rems, arch, name);
      RewrittenList(ComposeUrls(bases, arch, name), adds, rems)
        == ComposeUrls(AppendNew(survivors, adds), arch, name)
      <==> NothingNew(survivors, adds, UrlPath(bases[0]))
  {
    var survivors, path := Survivors(bases, rems, arch, name), UrlPath(bases[0]);
    PathBaseAgreesIff(bases, adds, rems, arch, name);
    NewAmongIn(survivors, adds);
    NewAmongIn(survivors, Suffixed(adds, path));
    NothingNewMeans(survivors, adds, path);
    NothingShared(adds, path, NewAmong(survivors, Suffixed(adds, path)), NewAmong(survivors, adds));
  }

  lemma NothingShared(adds: seq<string>, path: string, x: seq<string>, y: seq<string>)
    requires NoneExtends(adds, path)
    requires (forall u :: u in x ==> u in Suffixed(adds, path)) && (forall u :: u in y ==> u in adds)
    ensures x == y <==> x == [] && y == []
  {
    if x != [] {
      assert x[0] in x;
    }
  }

  lemma NothingNewMeans(survivors: seq<string>, adds: seq<string>, path: string)
    ensures NothingNew(survivors, adds, path)
      <==> (forall x :: x in Suffixed(adds, path) ==> x in survivors) && (forall x :: x in adds ==> x in survivors)
  {
    var cands := Suffixed(adds, path);
    forall i | 0 <= i < |adds| ensures adds[i] in adds && adds[i] + path in cands {
      assert cands[i] == adds[i] + path;
    }
  }

  predicate AllHostOnly(bases: seq<string>) {
    forall i :: 0 <= i < |bases| ==> HostOnly(bases[i])
  }

  /** Hosts alone never extend each other by a path. */
  lemma HostsNeverExtend(adds: seq<string>, path: string)
    requires AllHostOnly(adds) && path != "" && path[0] == '/'
    ensures NoneExtends(adds, path)
  {
    forall i, j | 0 <= i < |adds| && 0 <= j < |adds| ensures adds[j] != adds[i] + path {
      PathOfLonger(adds[i], path);
    }
  }

  // ---- Host-only bases ----

  /** A host-only URL lies under a host-only base only if it has that base. */
  lemma UnderSameHost(base: string, rem: string, arch: string, name: string)
    requires HostOnly(base) && HostOnly(rem)
    ensures Under(rem, Located(base, arch, name)) <==> rem == base
  {
    var url := Located(base, arch, name);
    LocatedTail(base, arch, name);
    assert url[..|base|] == base && url[|base|] == '/';
    if Under(rem, url) {
      assert url[..|rem| + 1] == rem + "/";
      assert url[|rem|] == (rem + "/")[|rem|] == '/';
      assert url[..|rem|] == rem by {
        assert url[..|rem|] == (rem + "/")[..|rem|];
      }
      SameScheme(base, rem, url);
    }
  }

  lemma SameScheme(base: string, rem: string, url: string)
    requires HostOnly(base) && HostOnly(rem) && base <= url && rem <= url
    ensures SchemeLength(base) == SchemeLength(rem)
  {
    assert url == base + url[|base|..] && url == rem + url[|rem|..];
    SchemeOfLonger(base, url[|base|..]);
    SchemeOfLonger(rem, url[|rem|..]);
  }

  /** The bases that are not removed. */
  function Without(bases: seq<string>, rems: seq<string>): seq<string> {
    WithoutTo(bases, rems, |bases|)
  }

  function WithoutTo(bases: seq<string>, rems: seq<string>, n: nat): seq<string>
    requires n <= |bases|
  {
    if n == 0 then []
    else WithoutTo(bases, rems, n - 1) + (if bases[n - 1] in rems then [] else [bases[n - 1]])
  }

  lemma HostsRemoved(base: string, rems: seq<string>, arch: string, name: string)
    requires HostOnly(base) && AllHostOnly(rems)
    ensures Removed(Located(base, arch, name), rems) <==> base in rems
  {
    forall i | 0 <= i < |rems| ensures Under(rems[i], Located(base, arch, name)) <==> rems[i] == base {
      UnderSameHost(base, rems[i], arch, name);
    }
  }

  lemma {:induction false} SurvivorsAreRest(
      bases: seq<string>, rems: seq<string>, arch: string, name: string, n: nat)
    requires AllHostOnly(bases) && AllHostOnly(rems) && n <= |bases|
    ensures SurvivorsTo(bases, rems, arch, name, n) == WithoutTo(bases, rems, n)
  {
    if n > 0 {
      SurvivorsAreRest(bases, rems, arch, name, n - 1);
      HostsRemoved(bases[n - 1], rems, arch, name);
    }
  }

  /** Among host-only bases and removals, the survivors are the bases that are not removed. */
  lemma HostSurvivors(bases: seq<string>, rems: seq<string>, arch: string, name: string)
    requires AllHostOnly(bases) && AllHostOnly(rems)
    ensures Survivors(bases, rems, arch, name) == Without(bases, rems)
  {
    SurvivorsAreRest(bases, rems, arch, name, |bases|);
  }

  // ---- The field in a document ----

  /** The bases after the modification: those that survive, then the new ones, none twice. */
  function Remaining(bases: seq<string>, adds: seq<string>, rems: seq<string>, arch: string, name: string)
    : seq<string>
  {
    AppendNew(Survivors(bases, rems, arch, name), adds)
  }

  /** When the first base has no path, modifying a composed field gives what the remaining bases compose. */
  lemma ModifyRegenerates(bases: seq<string>, adds: seq<string>, rems: seq<string>, arch: string, name: string)
    requires |bases| > 0 && HostOnly(bases[0])
    ensures Rewritten(RenderUrls(ComposeUrls(bases, arch, name)), adds, rems)
      == Some(RenderUrls(ComposeUrls(Remaining(bases, adds, rems, arch, name), arch, name)))
  {
    RenderedList(ComposeUrls(bases, arch, name));
    EmptyPathAgrees(bases, adds, rems, arch, name);
  }

  /** The name of the file plays no part in which bases survive. */
  lemma SameSurvivors(bases: seq<string>, rems: seq<string>, arch: string, x: string, y: string)
    requires '/' !in x && '/' !in y
    ensures Survivors(bases, rems, arch, x) == Survivors(bases, rems, arch, y)
  {
    SameSurvivorsTo(bases, rems, arch, x, y, |bases|);
  }

  lemma {:induction false} SameSurvivorsTo(
      bases: seq<string>, rems: seq<string>, arch: string, x: string, y: string, n: nat)
    requires '/' !in x && '/' !in y && n <= |bases|
    ensures SurvivorsTo(bases, rems, arch, x, n) == SurvivorsTo(bases, rems, arch, y, n)
  {
    if n > 0 {
      SameSurvivorsTo(bases, rems, arch, x, y, n - 1);
      forall i | 0 <= i < |rems|
        ensures Under(rems[i], Located(bases[n - 1], arch, x)) <==> Under(rems[i], Located(bases[n - 1], arch, y))
      {
        UnderDirectory(rems[i], bases[n - 1], arch, x);
        UnderDirectory(rems[i], bases[n - 1], arch, y);
      }
    }
  }

  /** A file lies under a base exactly when its directory does. */
  lemma UnderDirectory(rem: string, base: string, arch: string, name: string)
    requires '/' !in name
    ensures Under(rem, Located(base, arch, name)) <==> rem + "/" <= base + "/" + arch + "/"
  {
    var dir := base + "/" + arch + "/";
    var url, r := Located(base, arch, name), rem + "/";
    assert url == dir + name;
    assert forall i :: |dir| <= i < |url| ==> url[i] == name[i - |dir|];
    if r <= url {
      assert url[|r| - 1] == '/';
    }
  }

  lemma RenderedList(list: seq<string>)
    ensures ListOf(RenderUrls(list)) == Some(list)
  {
    StringsOfRendered(list);
    if |list| == 1 {
      assert [list[0]] == list;
    }
  }

  lemma {:induction false} StringsOfRendered(list: seq<string>)
    ensures StringsOf(RenderStrings(list).items) == list
  {
    if list != [] {
      StringsOfRendered(list[1..]);
      assert RenderStrings(list).items[1..] == RenderStrings(list[1..]).items;
      assert list == [list[0]] + list[1..];
    }
  }

  /** The field stays valid exactly when some base survives or is added. */
  lemma ValidIffBaseRemains(bases: seq<string>, adds: seq<string>, rems: seq<string>, arch: string, name: string)
    requires |bases| > 0 && HostOnly(bases[0])
    requires OkList(ComposeUrls(bases, arch, name), true) && OkList(ComposeUrls(bases + adds, arch, name), true)
    ensures OkList(RewrittenList(ComposeUrls(bases, arch, name), adds, rems), true)
      <==> (exists b :: b in bases && !Removed(Located(b, arch, name), rems)) || |adds| > 0
  {
    var rest, left := Survivors(bases, rems, arch, name), Remaining(bases, adds, rems, arch, name);
    EmptyPathAgrees(bases, adds, rems, arch, name);
    var more := AppendNewShape(rest, adds);
    SurvivorsMean(bases, rems, arch, name, |bases|);
    assert left != [] <==> (exists b :: b in bases && !Removed(Located(b, arch, name), rems)) || |adds| > 0 by {
      assert rest != [] ==> rest[0] in rest;
      assert adds != [] ==> adds[0] in adds;
    }
    AllFromOk(bases + adds, left, arch, name);
  }

  lemma AllFromOk(all: seq<string>, some: seq<string>, arch: string, name: string)
    requires OkList(ComposeUrls(all, arch, name), true) && forall b :: b in some ==> b in all
    ensures forall i :: 0 <= i < |some| ==> OkUrl(ComposeUrls(some, arch, name)[i], true)
  {
    var urls := ComposeUrls(all, arch, name);
    forall i | 0 <= i < |some| ensures OkUrl(Located(some[i], arch, name), true) {
      assert some[i] in all;
      var j :| 0 <= j < |all| && all[j] == some[i];
      assert OkUrl(urls[j], true);
    }
  }

  lemma {:induction false} SurvivorsMean(bases: seq<string>, rems: seq<string>, arch: string, name: string, n: nat)
    requires n <= |bases|
    ensures forall b :: (b in SurvivorsTo(bases, rems, arch, name, n)
                         <==> b in bases[..n] && !Removed(Located(b, arch, name), rems))
    ensures bases[..|bases|] == bases
  {
    if n > 0 {
      SurvivorsMean(bases, rems, arch, name, n - 1);
      assert bases[..n] == bases[..n - 1] + [bases[n - 1]];
    }
  }

  /** A base with a path: the added mirror gets a path that composing afresh would not give it. */
  lemma PathBaseBreaks(arch: string, name: string)
    ensures UrlPath("http://a/p") == "/p"
    ensures RewrittenList(ComposeUrls(["http://a/p"], arch, name), ["http://b"], [])
      != ComposeUrls(AppendNew(Survivors(["http://a/p"], [], arch, name), ["http://b"]), arch, name)
  {
    assert UrlPath("http://b") == "";
    var survivors := Survivors(["http://a/p"], [], arch, name);
    assert SurvivorsTo(["http://a/p"], [], arch, name, 1) == ["http://a/p"];
    HostsNeverExtend(["http://b"], "/p");
    PathBaseAgreesIfNothingNew(["http://a/p"], ["http://b"], [], arch, name);
    assert "http://b" != "http://a/p";
    assert ["http://b"][0] !in survivors;
  }
}
