// The order in which corsMux of api/app/cors.go adds the enabled routes: they come from a map, so it is
// arbitrary. A tree is compared with what absorbing every remaining sibling would make of it.
module RouteOrder {
  import opened RouteTrie

  // The tree after every wildcard has absorbed its siblings, down to a depth.
  ghost function Collapsed(t: Route, n: nat): Route
    decreases n
  {
    if n == 0 then EMPTY
    else if WILD in t.sub then Route(t.last, map[WILD := Collapsed(MergeAll(t, t.sub.Keys), n - 1)])
    else Route(t.last, map k | k in t.sub :: Collapsed(t.sub[k], n - 1))
  }

  // The same up to siblings still to be absorbed.
  ghost predicate Alike(x: Route, y: Route, n: nat) {
    Collapsed(x, n) == Collapsed(y, n)
  }

  // The tree of a single route.
  function Path(segments: seq<string>): Route {
    if segments == [] then EMPTY
    else Route(false, map[Normalized(segments[0]) := Marked(Path(segments[1..]), segments[1..])])
  }

  // All routes side by side, nothing absorbed.
  function SideBySide(enabled: seq<seq<string>>): Route {
    if enabled == [] then EMPTY
    else Merge(SideBySide(enabled[..|enabled| - 1]), Path(enabled[|enabled| - 1]))
  }

  // --- merging ---

  lemma MergeAssociates(a: Route, b: Route, c: Route)
    ensures Merge(Merge(a, b), c) == Merge(a, Merge(b, c))
  {
    MergeCommutes(a, b);
    MergeSwaps(b, a, c);
    MergeCommutes(a, Merge(b, c));
  }

  lemma MergeNothing(t: Route)
    ensures Merge(t, EMPTY) == t
  {
    MergeCommutes(t, EMPTY);
    MergeEmpty(t);
  }

  // The two children of a merge under a key.
  lemma MergedChild(a: Route, b: Route, k: string)
    requires k in a.sub || k in b.sub
    ensures Merge(a, b).sub[k] == Merge(Child(a, k), Child(b, k))
  {
    MergeEmpty(Child(b, k));
    MergeNothing(Child(a, k));
  }

  lemma MiddleSwap(a: Route, b: Route, x: Route, y: Route)
    ensures Merge(Merge(a, b), Merge(x, y)) == Merge(Merge(a, x), Merge(b, y))
  {
    MergeAssociates(Merge(a, b), x, y);
    MergeSwaps(a, b, x);
    MergeAssociates(Merge(a, x), b, y);
  }

  function Present(t: Route, keys: set<string>): set<string> {
    set k | k in keys && k in t.sub
  }

  lemma PresentStep(t: Route, keys: set<string>, k: string)
    requires k in keys
    ensures MergeAll(t, Present(t, keys)) == Merge(MergeAll(t, Present(t, keys - {k})), Child(t, k))
  {
    if k in t.sub {
      MergeAllStep(t, Present(t, keys), k);
      assert Present(t, keys) - {k} == Present(t, keys - {k});
    } else {
      assert Present(t, keys) == Present(t, keys - {k});
      MergeNothing(MergeAll(t, Present(t, keys)));
    }
  }

  // Absorbing the siblings of a merge merges what both sides absorb.
  lemma {:induction false} MergeAllOfMerge(a: Route, b: Route, keys: set<string>)
    requires keys <= a.sub.Keys + b.sub.Keys
    ensures MergeAll(Merge(a, b), keys) == Merge(MergeAll(a, Present(a, keys)), MergeAll(b, Present(b, keys)))
    decreases |keys|
  {
    if keys == {} {
      MergeEmpty(EMPTY);
    } else {
      var k :| k in keys;
      MergeAllOfMerge(a, b, keys - {k});
      MergeAllStep(Merge(a, b), keys, k);
      MergedChild(a, b, k);
      PresentStep(a, keys, k);
      PresentStep(b, keys, k);
      MiddleSwap(MergeAll(a, Present(a, keys - {k})), MergeAll(b, Present(b, keys - {k})), Child(a, k), Child(b, k));
    }
  }

  // All children of a node merged.
  ghost function Absorbed(t: Route): Route {
    MergeAll(t, t.sub.Keys)
  }

  lemma AbsorbedOfMerge(a: Route, b: Route)
    ensures Absorbed(Merge(a, b)) == Merge(Absorbed(a), Absorbed(b))
  {
    var keys := a.sub.Keys + b.sub.Keys;
    assert Merge(a, b).sub.Keys == keys;
    MergeAllOfMerge(a, b, keys);
    assert Present(a, keys) == a.sub.Keys && Present(b, keys) == b.sub.Keys;
  }

  lemma AbsorbedOnly(t: Route, k: string)
    requires t.sub.Keys == {k}
    ensures Absorbed(t) == t.sub[k]
  {
    MergeOne(t, k);
  }

  // --- collapsing ---

  // What the collapse of a node looks like.
  ghost predicate CollapseOf(c: Route, a: Route, n: nat) {
    && c.last == a.last
    && if WILD in a.sub then c.sub.Keys == {WILD} && c.sub[WILD] == Collapsed(Absorbed(a), n)
       else c.sub.Keys == a.sub.Keys && forall k :: k in a.sub ==> c.sub[k] == Collapsed(a.sub[k], n)
  }

  lemma CollapsedIs(a: Route, n: nat) returns (c: Route)
    requires n > 0
    ensures c == Collapsed(a, n) && CollapseOf(c, a, n - 1)
  {
    c := Collapsed(a, n);
  }

  // A collapsed node whose wildcard has absorbed its siblings.
  ghost predicate OnlyWild(c: Route, last: bool, wildcard: Route) {
    c == Route(last, map[WILD := wildcard])
  }

  lemma CollapsedWild(t: Route, n: nat)
    requires n > 0 && WILD in t.sub
    ensures OnlyWild(Collapsed(t, n), t.last, Collapsed(Absorbed(t), n - 1))
  {
  }

  lemma CollapsedMerge(a: Route, b: Route, n: nat)
    requires n > 0 && (WILD in a.sub || WILD in b.sub)
    ensures OnlyWild(Collapsed(Merge(a, b), n), a.last || b.last, Collapsed(Merge(Absorbed(a), Absorbed(b)), n - 1))
  {
    CollapsedWild(Merge(a, b), n);
    AbsorbedOfMerge(a, b);
  }

  ghost predicate SameAt(x: Route, y: Route, k: string, n: nat) {
    k in x.sub && k in y.sub && Alike(x.sub[k], y.sub[k], n)
  }

  lemma SameWithoutWildcard(x: Route, y: Route, n: nat)
    requires n > 0 && x.last == y.last && WILD !in x.sub && x.sub.Keys == y.sub.Keys
    requires forall k {:trigger SameAt(x, y, k, n - 1)} :: k in x.sub ==> SameAt(x, y, k, n - 1)
    ensures Alike(x, y, n)
  {
    var l, r := Collapsed(x, n), Collapsed(y, n);
    assert l.sub.Keys == r.sub.Keys;
    forall k | k in l.sub ensures l.sub[k] == r.sub[k] {
      assert SameAt(x, y, k, n - 1);
    }
    assert l.sub == r.sub;
  }

  // A part of a merge may be collapsed first.
  lemma {:induction false} CollapseFirst(a: Route, b: Route, n: nat)
    ensures Alike(Merge(Collapsed(a, n), b), Merge(a, b), n)
    decreases n, 1
  {
    if n > 0 {
      var c := CollapsedIs(a, n);
      if WILD in a.sub || WILD in b.sub {
        CollapseAbsorbedFirst(a, c, b, n);
      } else {
        CollapseEachFirst(a, c, b, n);
      }
    }
  }

  lemma {:induction false} CollapseAbsorbedFirst(a: Route, c: Route, b: Route, n: nat)
    requires n > 0 && (WILD in a.sub || WILD in b.sub) && CollapseOf(c, a, n - 1)
    ensures Alike(Merge(c, b), Merge(a, b), n)
    decreases n, 0
  {
    AbsorbedFirst(a, c, Absorbed(b), n - 1);
    CollapsedMerge(c, b, n);
    CollapsedMerge(a, b, n);
  }

  lemma {:induction false} AbsorbedFirst(a: Route, c: Route, y: Route, n: nat)
    requires CollapseOf(c, a, n)
    ensures Alike(Merge(Absorbed(c), y), Merge(Absorbed(a), y), n)
    decreases n, 4
  {
    if WILD in a.sub {
      AbsorbedOnly(c, WILD);
      CollapseFirst(Absorbed(a), y, n);
    } else {
      CollapseChildrenFirst(a, c, a.sub.Keys, y, n);
    }
  }

  // Without wildcards on this level.
  lemma {:induction false} CollapseEachFirst(a: Route, c: Route, b: Route, n: nat)
    requires n > 0 && WILD !in a.sub && WILD !in b.sub && CollapseOf(c, a, n - 1)
    ensures Alike(Merge(c, b), Merge(a, b), n)
    decreases n, 0
  {
    var l, r := Merge(c, b), Merge(a, b);
    assert l.sub.Keys == r.sub.Keys;
    forall k | k in l.sub ensures SameAt(l, r, k, n - 1) {
      CollapseChildFirst(a, c, b, k, n - 1);
    }
    SameWithoutWildcard(l, r, n);
  }

  lemma {:induction false} CollapseChildFirst(a: Route, c: Route, b: Route, k: string, n: nat)
    requires WILD !in a.sub && CollapseOf(c, a, n) && (k in a.sub || k in b.sub)
    ensures SameAt(Merge(c, b), Merge(a, b), k, n)
    decreases n, 4
  {
    MergedChild(c, b, k);
    MergedChild(a, b, k);
    if k in a.sub {
      CollapseFirst(a.sub[k], Child(b, k), n);
    }
  }

  // So may each of several absorbed children.
  lemma {:induction false} CollapseChildrenFirst(a: Route, c: Route, keys: set<string>, y: Route, n: nat)
    requires WILD !in a.sub && keys <= a.sub.Keys && CollapseOf(c, a, n)
    ensures Alike(Merge(MergeAll(c, keys), y), Merge(MergeAll(a, keys), y), n)
    decreases n, 3, |keys|
  {
    if keys != {} {
      var k :| k in keys;
      MergeAllStep(c, keys, k);
      MergeAllStep(a, keys, k);
      CollapseChildrenFirst(a, c, keys - {k}, Merge(c.sub[k], y), n);
      OneMoreChild(MergeAll(c, keys - {k}), MergeAll(a, keys - {k}), a.sub[k], y, n);
    }
  }

  // The collapsed child goes to the other side, where it need not be collapsed.
  lemma {:induction false} OneMoreChild(before: Route, after: Route, child: Route, y: Route, n: nat)
    requires Alike(Merge(before, Merge(Collapsed(child, n), y)), Merge(after, Merge(Collapsed(child, n), y)), n)
    ensures Alike(Merge(Merge(before, Collapsed(child, n)), y), Merge(Merge(after, child), y), n)
    decreases n, 2
  {
    MergeAssociates(before, Collapsed(child, n), y);
    MoveOut(after, Collapsed(child, n), y);
    CollapseFirst(child, Merge(after, y), n);
    MoveOut(after, child, y);
    MergeAssociates(after, child, y);
  }

  lemma MoveOut(a: Route, b: Route, y: Route)
    ensures Merge(a, Merge(b, y)) == Merge(b, Merge(a, y))
  {
    MergeAssociates(a, b, y);
    MergeCommutes(a, b);
    MergeAssociates(b, a, y);
  }

  // Collapsed in front of a merge, two trees with the same collapse are interchangeable.
  lemma Interchange(a: Route, b: Route, y: Route, n: nat)
    requires Alike(a, b, n)
    ensures Alike(Merge(a, y), Merge(b, y), n)
  {
    CollapseFirst(a, y, n);
    CollapseFirst(b, y, n);
  }

  // --- adding a route ---

  lemma MarkEither(x: Route, p: Route, rest: seq<string>)
    ensures Merge(Marked(x, rest), p) == Merge(x, Marked(p, rest))
  {
    assert Merge(Marked(x, rest), p).sub == Merge(x, Marked(p, rest)).sub;
  }

  // Up to what is still absorbed, adding a route puts it beside the others.
  lemma {:induction false} AddIsMerge(t: Route, segments: seq<string>, n: nat)
    ensures Alike(Add(t, segments), Merge(t, Path(segments)), n)
    decreases |segments|, 2
  {
    if segments == [] {
      MergeNothing(t);
    } else if n > 0 {
      if Normalized(segments[0]) == WILD {
        AddWildIsMerge(t, segments, n);
      } else if WILD in t.sub {
        var child := Add(Marked(t.sub[WILD], segments[1..]), segments[1..]);
        AddBesideWildIsMerge(t, segments, n, child, MergeAll(t, t.sub.Keys - {WILD}), Path(segments));
      } else {
        AddStaticIsMerge(t, segments, n);
      }
    }
  }

  // The node the route goes through, with what is added to it.
  lemma {:induction false} AddToNode(x: Route, rest: seq<string>, n: nat)
    ensures Alike(Add(Marked(x, rest), rest), Merge(x, Marked(Path(rest), rest)), n)
    decreases |rest|, 3
  {
    AddIsMerge(Marked(x, rest), rest, n);
    MarkEither(x, Path(rest), rest);
  }

  lemma AbsorbedPath(segments: seq<string>)
    requires segments != []
    ensures Absorbed(Path(segments)) == Marked(Path(segments[1..]), segments[1..])
  {
    AbsorbedOnly(Path(segments), Normalized(segments[0]));
  }

  lemma {:induction false} AddBeside(x: Route, segments: seq<string>, n: nat)
    requires segments != []
    ensures Alike(Add(Marked(x, segments[1..]), segments[1..]), Merge(x, Absorbed(Path(segments))), n)
    decreases |segments|, 1, 0
  {
    AddToNode(x, segments[1..], n);
    AbsorbedPath(segments);
  }

  // A node made of t has a wildcard: what it absorbs decides.
  lemma WildEnd(t: Route, p: Route, n: nat, added: Route, absorbed: Route)
    requires n > 0 && (WILD in t.sub || WILD in p.sub) && !p.last
    requires added.last == t.last && WILD in added.sub && absorbed == Absorbed(added)
    requires Alike(absorbed, Merge(Absorbed(t), Absorbed(p)), n - 1)
    ensures Alike(added, Merge(t, p), n)
  {
    CollapsedMerge(t, p, n);
    CollapsedWild(added, n);
  }

  lemma WildAlone(t: Route, p: Route, n: nat, child: Route)
    requires n > 0 && WILD in p.sub && !p.last
    requires Alike(child, Merge(Absorbed(t), Absorbed(p)), n - 1)
    ensures Alike(t.(sub := map[WILD := child]), Merge(t, p), n)
  {
    OnlyWildcard(t, child);
    WildEnd(t, p, n, t.(sub := map[WILD := child]), child);
  }

  lemma InFrontOfOthers(child: Route, w: Route, q: Route, others: Route, absorbed: Route, n: nat)
    requires Alike(child, Merge(w, q), n) && absorbed == Merge(w, others)
    ensures Alike(Merge(child, others), Merge(absorbed, q), n)
  {
    Interchange(child, Merge(w, q), others, n);
    MergeSwaps(w, q, others);
  }

  lemma BesideOthers(t: Route, q: Route, n: nat, child: Route)
    requires WILD in t.sub && Alike(child, Merge(t.sub[WILD], q), n)
    ensures Alike(Merge(child, MergeAll(t, t.sub.Keys - {WILD})), Merge(Absorbed(t), q), n)
  {
    AbsorbedWithWildcard(t);
    InFrontOfOthers(child, t.sub[WILD], q, MergeAll(t, t.sub.Keys - {WILD}), Absorbed(t), n);
  }

  lemma WildBeside(t: Route, p: Route, n: nat, child: Route, others: Route)
    requires n > 0 && WILD in t.sub && !p.last && others == MergeAll(t, t.sub.Keys - {WILD})
    requires Alike(Merge(child, others), Merge(Absorbed(t), Absorbed(p)), n - 1)
    ensures Alike(t.(sub := t.sub[WILD := child]), Merge(t, p), n)
  {
    NewWildcard(t, child);
    WildEnd(t, p, n, t.(sub := t.sub[WILD := child]), Merge(child, others));
  }

  lemma {:induction false} AddBesideOthers(t: Route, segments: seq<string>, n: nat, child: Route, others: Route, p: Route)
    requires segments != [] && p == Path(segments) && WILD in t.sub
    requires child == Add(Marked(t.sub[WILD], segments[1..]), segments[1..]) && others == MergeAll(t, t.sub.Keys - {WILD})
    ensures Alike(Merge(child, others), Merge(Absorbed(t), Absorbed(p)), n)
    decreases |segments|, 1, 1
  {
    AddBeside(t.sub[WILD], segments, n);
    BesideOthers(t, Absorbed(p), n, child);
  }

  lemma {:induction false} AddWildIsMerge(t: Route, segments: seq<string>, n: nat)
    requires n > 0 && segments != [] && Normalized(segments[0]) == WILD
    ensures var child := Add(Marked(Absorbed(t), segments[1..]), segments[1..]);
      Alike(t.(sub := map[WILD := child]), Merge(t, Path(segments)), n)
    decreases |segments|, 1, 1
  {
    AddBeside(Absorbed(t), segments, n - 1);
    WildAlone(t, Path(segments), n, Add(Marked(Absorbed(t), segments[1..]), segments[1..]));
  }

  lemma {:induction false} AddBesideWildIsMerge(t: Route, segments: seq<string>, n: nat, child: Route, others: Route, p: Route)
    requires n > 0 && segments != [] && p == Path(segments) && WILD in t.sub
    requires child == Add(Marked(t.sub[WILD], segments[1..]), segments[1..]) && others == MergeAll(t, t.sub.Keys - {WILD})
    ensures Alike(t.(sub := t.sub[WILD := child]), Merge(t, p), n)
    decreases |segments|, 1, 2
  {
    AddBesideOthers(t, segments, n - 1, child, others, p);
    WildBeside(t, p, n, child, others);
  }

  lemma OnlyWildcard(t: Route, child: Route)
    ensures Absorbed(t.(sub := map[WILD := child])) == child
  {
    AbsorbedOnly(t.(sub := map[WILD := child]), WILD);
  }

  // What a node with a wildcard absorbs, the wildcard apart.
  lemma AbsorbedWithWildcard(t: Route)
    requires WILD in t.sub
    ensures Absorbed(t) == Merge(t.sub[WILD], MergeAll(t, t.sub.Keys - {WILD}))
  {
    MergeAllStep(t, t.sub.Keys, WILD);
    MergeCommutes(t.sub[WILD], MergeAll(t, t.sub.Keys - {WILD}));
  }

  lemma NewWildcard(t: Route, child: Route)
    requires WILD in t.sub
    ensures Absorbed(t.(sub := t.sub[WILD := child])) == Merge(child, MergeAll(t, t.sub.Keys - {WILD}))
  {
    var l := t.(sub := t.sub[WILD := child]);
    assert l.sub.Keys == t.sub.Keys;
    AbsorbedWithWildcard(l);
    SameChildren(t, l, t.sub.Keys - {WILD});
  }

  lemma {:induction false} SameChildren(t: Route, u: Route, keys: set<string>)
    requires keys <= t.sub.Keys && keys <= u.sub.Keys && forall k :: k in keys ==> t.sub[k] == u.sub[k]
    ensures MergeAll(t, keys) == MergeAll(u, keys)
    decreases |keys|
  {
    if keys != {} {
      var j :| j in keys;
      MergeAllStep(t, keys, j);
      MergeAllStep(u, keys, j);
      SameChildren(t, u, keys - {j});
    }
  }

  lemma {:induction false} AddStaticIsMerge(t: Route, segments: seq<string>, n: nat)
    requires n > 0 && segments != [] && Normalized(segments[0]) != WILD && WILD !in t.sub
    ensures Alike(Add(t, segments), Merge(t, Path(segments)), n)
    decreases |segments|, 1
  {
    var seg, rest := Normalized(segments[0]), segments[1..];
    var l, r := t.(sub := t.sub[seg := Add(Marked(Child(t, seg), rest), rest)]), Merge(t, Path(segments));
    assert r.sub.Keys == l.sub.Keys;
    forall k | k in l.sub ensures SameAt(l, r, k, n - 1) {
      AddToChild(t, segments, k, n - 1);
    }
    SameWithoutWildcard(l, r, n);
  }

  lemma {:induction false} AddToChild(t: Route, segments: seq<string>, k: string, n: nat)
    requires segments != [] && (k in t.sub || k == Normalized(segments[0]))
    ensures var seg, rest := Normalized(segments[0]), segments[1..];
      SameAt(t.(sub := t.sub[seg := Add(Marked(Child(t, seg), rest), rest)]), Merge(t, Path(segments)), k, n)
    decreases |segments|, 0
  {
    MergedChild(t, Path(segments), k);
    if k == Normalized(segments[0]) {
      AddToNode(Child(t, k), segments[1..], n);
    } else {
      MergeNothing(t.sub[k]);
    }
  }

  // --- any order ---

  // Up to what is still absorbed, the tree is that of the routes side by side.
  lemma {:induction false} TreeIsSideBySide(enabled: seq<seq<string>>, n: nat)
    ensures Alike(Tree(enabled), SideBySide(enabled), n)
    decreases |enabled|
  {
    if enabled != [] {
      var before, last := enabled[..|enabled| - 1], enabled[|enabled| - 1];
      TreeIsSideBySide(before, n);
      AddIsMerge(Tree(before), last, n);
      Interchange(Tree(before), SideBySide(before), Path(last), n);
    }
  }

  function Without(enabled: seq<seq<string>>, i: nat): seq<seq<string>>
    requires i < |enabled|
  {
    enabled[..i] + enabled[i + 1..]
  }

  lemma WithoutCounts(enabled: seq<seq<string>>, i: nat)
    requires i < |enabled|
    ensures multiset(enabled) == multiset(Without(enabled, i)) + multiset{enabled[i]}
  {
    assert enabled == enabled[..i] + [enabled[i]] + enabled[i + 1..];
  }

  lemma WithoutEarlier(enabled: seq<seq<string>>, i: nat)
    requires i + 1 < |enabled|
    ensures var n, rest := |enabled| - 1, Without(enabled, i);
      |rest| == n && rest[..n - 1] == Without(enabled[..n], i) && rest[n - 1] == enabled[n] && enabled[..n][i] == enabled[i]
  {
  }

  lemma {:induction false} SideBySideWithout(enabled: seq<seq<string>>, i: nat)
    requires i < |enabled|
    ensures SideBySide(enabled) == Merge(SideBySide(Without(enabled, i)), Path(enabled[i]))
    decreases |enabled|
  {
    var n := |enabled| - 1;
    if i == n {
      assert Without(enabled, i) == enabled[..n];
    } else {
      WithoutEarlier(enabled, i);
      SideBySideWithout(enabled[..n], i);
      MergeSwaps(SideBySide(Without(enabled[..n], i)), Path(enabled[i]), Path(enabled[n]));
    }
  }

  lemma Cancelled<T>(a: multiset<T>, b: multiset<T>, x: T)
    requires a + multiset{x} == b + multiset{x}
    ensures a == b
  {
    assert a + multiset{x} - multiset{x} == a && b + multiset{x} - multiset{x} == b;
  }

  // The last of one order, found in the other.
  lemma SameLast(a: seq<seq<string>>, b: seq<seq<string>>) returns (i: nat)
    requires multiset(a) == multiset(b) && a != []
    ensures i < |b| && b[i] == a[|a| - 1] && multiset(a[..|a| - 1]) == multiset(Without(b, i))
  {
    var n := |a| - 1;
    assert a[n] in multiset(b);
    i :| 0 <= i < |b| && b[i] == a[n];
    WithoutCounts(a, n);
    WithoutCounts(b, i);
    assert Without(a, n) == a[..n];
    Cancelled(multiset(a[..n]), multiset(Without(b, i)), a[n]);
  }

  lemma {:induction false} SideBySideAnyOrder(a: seq<seq<string>>, b: seq<seq<string>>)
    requires multiset(a) == multiset(b)
    ensures SideBySide(a) == SideBySide(b)
    decreases |a|
  {
    assert |a| == |multiset(a)| == |multiset(b)| == |b|;
    if a != [] {
      var i := SameLast(a, b);
      SideBySideAnyOrder(a[..|a| - 1], Without(b, i));
      SideBySideWithout(b, i);
    }
  }

  // Trees whose wildcards are alone have nothing left to absorb.
  lemma {:induction false} WildOnlyIsCollapsed(t: Route, n: nat)
    requires WildOnly(t) && HeightAtMost(t, n)
    ensures Collapsed(t, n + 1) == t
    decreases n
  {
    if WILD in t.sub {
      AbsorbedOnly(t, WILD);
      WildOnlyIsCollapsed(t.sub[WILD], n - 1);
      CollapsedWild(t, n + 1);
      assert t.sub == map[WILD := t.sub[WILD]];
    } else {
      forall k | k in t.sub ensures Collapsed(t.sub[k], n) == t.sub[k] {
        WildOnlyIsCollapsed(t.sub[k], n - 1);
      }
      assert Collapsed(t, n + 1).sub == t.sub;
    }
  }

  lemma {:induction false} HasHeight(t: Route, keys: set<string>) returns (n: nat)
    requires keys <= t.sub.Keys
    ensures forall k :: k in keys ==> HeightAtMost(t.sub[k], n)
    decreases t, |keys|
  {
    n := 0;
    if keys != {} {
      var k :| k in keys;
      var m := HasHeight(t, keys - {k});
      var j := HasHeight(t.sub[k], t.sub[k].sub.Keys);
      n := if m < j + 1 then j + 1 else m;
      forall i | i in keys - {k} ensures HeightAtMost(t.sub[i], n) {
        HeightIsUpward(t.sub[i], m, n);
      }
      HeightIsUpward(t.sub[k], j + 1, n);
    }
  }

  lemma {:induction false} HeightIsUpward(t: Route, m: nat, n: nat)
    requires HeightAtMost(t, m) && m <= n
    ensures HeightAtMost(t, n)
    decreases n - m
  {
    if m < n {
      HeightGrows(t, m);
      HeightIsUpward(t, m + 1, n);
    }
  }

  // Whatever the order, what absorbing the remaining siblings makes of the tree is the same.
  lemma AlikeOnceCollapsed(a: seq<seq<string>>, b: seq<seq<string>>, n: nat)
    requires multiset(a) == multiset(b)
    ensures Alike(Tree(a), Tree(b), n)
  {
    TreeIsSideBySide(a, n);
    TreeIsSideBySide(b, n);
    SideBySideAnyOrder(a, b);
  }

  // The orders that leave every wildcard alone all give the same tree, and the other orders another one.
  lemma SameTreeIff(a: seq<seq<string>>, b: seq<seq<string>>)
    requires multiset(a) == multiset(b) && WildOnly(Tree(a))
    ensures Tree(a) == Tree(b) <==> WildOnly(Tree(b))
  {
    if WildOnly(Tree(b)) {
      var j := HasHeight(Tree(a), Tree(a).sub.Keys);
      var k := HasHeight(Tree(b), Tree(b).sub.Keys);
      var n := j + k + 1;
      HeightIsUpward(Tree(a), j + 1, n);
      HeightIsUpward(Tree(b), k + 1, n);
      AlikeOnceCollapsed(a, b, n + 1);
      WildOnlyIsCollapsed(Tree(a), n);
      WildOnlyIsCollapsed(Tree(b), n);
    }
  }

  // --- routes that never mix ---

  lemma MarksDoNotMix(a: Route, p: Route, rest: seq<string>)
    requires WildOnly(a) && Compatible(a, Marked(p, rest))
    ensures WildOnly(Marked(a, rest)) && Compatible(Marked(a, rest), p)
  {
  }

  // Where a compatible route goes: to its own child, without absorbing anything.
  lemma UnmixedNode(t: Route, segments: seq<string>)
    requires segments != [] && WildOnly(t) && Compatible(t, Path(segments))
    ensures var seg, rest := Normalized(segments[0]), segments[1..];
      && Add(t, segments) == t.(sub := t.sub[seg := Add(Marked(Child(t, seg), rest), rest)])
      && WildOnly(Child(t, seg)) && Compatible(Child(t, seg), Marked(Path(rest), rest))
  {
    var seg, rest := Normalized(segments[0]), segments[1..];
    var p := Path(segments);
    assert p.sub.Keys == {seg} && seg in p.sub;
    if seg == WILD {
      if WILD in t.sub {
        AbsorbedOnly(t, WILD);
      }
      assert t.sub[seg := Add(Marked(Child(t, seg), rest), rest)] == map[seg := Add(Marked(Child(t, seg), rest), rest)];
    }
  }

  lemma {:induction false} AddUnmixed(t: Route, segments: seq<string>)
    requires WildOnly(t) && Compatible(t, Path(segments))
    ensures Add(t, segments) == Merge(t, Path(segments))
    decreases |segments|
  {
    if segments == [] {
      MergeNothing(t);
    } else {
      var seg, rest := Normalized(segments[0]), segments[1..];
      UnmixedNode(t, segments);
      MarksDoNotMix(Child(t, seg), Path(rest), rest);
      AddUnmixed(Marked(Child(t, seg), rest), rest);
      MarkEither(Child(t, seg), Path(rest), rest);
      OneChild(t, Path(segments), seg);
    }
  }

  lemma OneChild(t: Route, p: Route, seg: string)
    requires p.sub.Keys == {seg} && !p.last
    ensures Merge(t, p) == t.(sub := t.sub[seg := Merge(Child(t, seg), p.sub[seg])])
  {
    MergedChild(t, p, seg);
    assert Merge(t, p).sub == t.sub[seg := Merge(Child(t, seg), p.sub[seg])];
  }

  // Routes of which no two have a static segment and a parameter in the same place: in every order the
  // tree is that of the routes side by side.
  lemma {:induction false} UnmixedRoutesAnyOrder(enabled: seq<seq<string>>, other: seq<seq<string>>)
    requires WildOnly(SideBySide(enabled)) && multiset(other) == multiset(enabled)
    ensures Tree(other) == SideBySide(enabled)
    decreases |other|
  {
    SideBySideAnyOrder(other, enabled);
    if other != [] {
      var before, last := other[..|other| - 1], other[|other| - 1];
      MergeKeepsWildOnlyIff(SideBySide(before), Path(last));
      UnmixedRoutesAnyOrder(before, before);
      AddUnmixed(Tree(before), last);
    }
  }
}
