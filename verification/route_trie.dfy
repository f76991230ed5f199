// The tree of OPTIONS routes in api/app/cors.go. A tree is the route at its root, whose own mark is
// never set; Go's nested maps are values here and are iterated in an arbitrary order.
module RouteTrie {
  datatype Route = Route(last: bool, sub: map<string, Route>)

  const EMPTY := Route(false, map[])
  const WILD := ":param"

  predicate IsParam(seg: string) {
    |seg| > 0 && seg[0] == ':'
  }

  function Normalized(seg: string): string {
    if IsParam(seg) then WILD else seg
  }

  // --- meaning ---

  // A request path is matched through static or wildcard branches.
  predicate Accepts(t: Route, path: seq<string>)
    decreases |path|
  {
    if path == [] then t.last
    else
      || (path[0] in t.sub && Accepts(t.sub[path[0]], path[1..]))
      || (WILD in t.sub && Accepts(t.sub[WILD], path[1..]))
  }

  // A request path is an instance of a route pattern.
  predicate Covers(pattern: seq<string>, path: seq<string>) {
    if pattern == [] then path == []
    else path != [] && (IsParam(pattern[0]) || pattern[0] == path[0]) && Covers(pattern[1..], path[1..])
  }

  // A pattern ends at a marked node.
  predicate LeafAt(t: Route, pattern: seq<string>) {
    if pattern == [] then t.last else pattern[0] in t.sub && LeafAt(t.sub[pattern[0]], pattern[1..])
  }

  // Every key is a static segment or the one wildcard.
  predicate NormalKeys(t: Route) {
    forall k :: k in t.sub ==> (IsParam(k) ==> k == WILD) && NormalKeys(t.sub[k])
  }

  // A wildcard has no siblings.
  predicate WildOnly(t: Route) {
    (WILD in t.sub ==> t.sub.Keys == {WILD}) && forall k :: k in t.sub ==> WildOnly(t.sub[k])
  }

  predicate LeafCovers(t: Route, pattern: seq<string>, path: seq<string>) {
    LeafAt(t, pattern) && Covers(pattern, path)
  }

  // The tree accepts what its leaf patterns cover.
  lemma {:induction false} AcceptsIffSomeLeafCovers(t: Route, path: seq<string>)
    requires NormalKeys(t)
    ensures Accepts(t, path) <==> exists pattern :: LeafCovers(t, pattern, path)
    decreases |path|
  {
    if Accepts(t, path) {
      var pattern := LeafFor(t, path);
      assert LeafCovers(t, pattern, path);
    }
    forall pattern | LeafCovers(t, pattern, path) ensures Accepts(t, path) {
      LeafAccepts(t, pattern, path);
    }
  }

  lemma {:induction false} LeafFor(t: Route, path: seq<string>) returns (pattern: seq<string>)
    requires NormalKeys(t) && Accepts(t, path)
    ensures LeafAt(t, pattern) && Covers(pattern, path)
    decreases |path|
  {
    if path == [] {
      pattern := [];
    } else {
      var k := if path[0] in t.sub && Accepts(t.sub[path[0]], path[1..]) then path[0] else WILD;
      var rest := LeafFor(t.sub[k], path[1..]);
      pattern := [k] + rest;
      assert pattern[1..] == rest;
    }
  }

  lemma {:induction false} LeafAccepts(t: Route, pattern: seq<string>, path: seq<string>)
    requires NormalKeys(t) && LeafAt(t, pattern) && Covers(pattern, path)
    ensures Accepts(t, path)
    decreases |path|
  {
    if pattern != [] {
      LeafAccepts(t.sub[pattern[0]], pattern[1..], path[1..]);
    }
  }

  // --- merging ---

  function Merge(d: Route, s: Route): Route
    decreases s
  {
    Route(d.last || s.last,
          map k | k in d.sub.Keys + s.sub.Keys ::
            if k in d.sub && k in s.sub then Merge(d.sub[k], s.sub[k])
            else if k in d.sub then d.sub[k] else s.sub[k])
  }

  // Merging denotes the union.
  lemma {:induction false} MergeIsUnion(d: Route, s: Route, path: seq<string>)
    ensures Accepts(Merge(d, s), path) <==> Accepts(d, path) || Accepts(s, path)
    decreases |path|
  {
    if path != [] {
      if path[0] in d.sub && path[0] in s.sub {
        MergeIsUnion(d.sub[path[0]], s.sub[path[0]], path[1..]);
      }
      if WILD in d.sub && WILD in s.sub {
        MergeIsUnion(d.sub[WILD], s.sub[WILD], path[1..]);
      }
    }
  }

  lemma MergeEmpty(s: Route)
    ensures Merge(EMPTY, s) == s
  {
    assert Merge(EMPTY, s).sub == s.sub;
  }

  lemma {:induction false} MergeCommutes(a: Route, b: Route)
    ensures Merge(a, b) == Merge(b, a)
    decreases b
  {
    forall k | k in a.sub && k in b.sub ensures Merge(a.sub[k], b.sub[k]) == Merge(b.sub[k], a.sub[k]) {
      MergeCommutes(a.sub[k], b.sub[k]);
    }
    assert Merge(a, b).sub == Merge(b, a).sub;
  }

  lemma {:induction false} MergeSwaps(x: Route, a: Route, b: Route)
    ensures Merge(Merge(x, a), b) == Merge(Merge(x, b), a)
    decreases x
  {
    var l, r := Merge(Merge(x, a), b), Merge(Merge(x, b), a);
    assert l.sub.Keys == r.sub.Keys;
    forall k | k in l.sub ensures l.sub[k] == r.sub[k] {
      if k in a.sub && k in b.sub {
        if k in x.sub {
          MergeSwaps(x.sub[k], a.sub[k], b.sub[k]);
        } else {
          MergeCommutes(a.sub[k], b.sub[k]);
        }
      }
    }
    assert l.sub == r.sub;
  }

  // All children under the given keys merged; the order does not matter, see MergeAllStep.
  ghost function MergeAll(t: Route, keys: set<string>): Route
    requires keys <= t.sub.Keys
    decreases |keys|
  {
    if keys == {} then EMPTY
    else
      var k :| k in keys;
      Merge(MergeAll(t, keys - {k}), t.sub[k])
  }

  lemma {:induction false} MergeAllStep(t: Route, keys: set<string>, k: string)
    requires keys <= t.sub.Keys && k in keys
    ensures MergeAll(t, keys) == Merge(MergeAll(t, keys - {k}), t.sub[k])
    decreases |keys|
  {
    var j :| j in keys && MergeAll(t, keys) == Merge(MergeAll(t, keys - {j}), t.sub[j]);
    if j != k {
      MergeAllStep(t, keys - {j}, k);
      MergeAllStep(t, keys - {k}, j);
      assert keys - {j} - {k} == keys - {k} - {j};
      MergeSwaps(MergeAll(t, keys - {j} - {k}), t.sub[k], t.sub[j]);
    }
  }

  lemma {:induction false} MergeAllIsUnion(t: Route, keys: set<string>, path: seq<string>)
    requires keys <= t.sub.Keys
    ensures Accepts(MergeAll(t, keys), path) <==> exists k :: k in keys && Accepts(t.sub[k], path)
    decreases |keys|
  {
    if keys != {} {
      var j :| j in keys;
      MergeAllStep(t, keys, j);
      MergeAllIsUnion(t, keys - {j}, path);
      MergeIsUnion(MergeAll(t, keys - {j}), t.sub[j], path);
    }
  }

  lemma {:induction false} MergeKeepsNormal(d: Route, s: Route)
    requires NormalKeys(d) && NormalKeys(s)
    ensures NormalKeys(Merge(d, s))
    decreases s
  {
    forall k | k in d.sub && k in s.sub ensures NormalKeys(Merge(d.sub[k], s.sub[k])) {
      MergeKeepsNormal(d.sub[k], s.sub[k]);
    }
  }

  lemma {:induction false} MergeAllKeepsNormal(t: Route, keys: set<string>)
    requires NormalKeys(t) && keys <= t.sub.Keys
    ensures NormalKeys(MergeAll(t, keys))
    decreases |keys|
  {
    if keys != {} {
      var j :| j in keys;
      MergeAllStep(t, keys, j);
      MergeAllKeepsNormal(t, keys - {j});
      MergeKeepsNormal(MergeAll(t, keys - {j}), t.sub[j]);
    }
  }

  // mergeOptionsSub on the children of two nodes.
  method MergeOptionsSub(dst: Route, src: Route) returns (r: Route)
    ensures r == Merge(dst, src).(last := dst.last)
    decreases src
  {
    r := dst;
    var rest := src.sub.Keys;
    while rest != {}
      invariant rest <= src.sub.Keys && r.last == dst.last
      invariant r.sub.Keys == dst.sub.Keys + (src.sub.Keys - rest)
      invariant forall k :: k in r.sub ==> r.sub[k] == if k in rest then dst.sub[k] else Merge(dst, src).sub[k]
      decreases rest
    {
      var key :| key in rest;
      var val := src.sub[key];
      if key in r.sub {
        var existing := r.sub[key];
        if val.last {
          existing := existing.(last := true);
        }
        existing := MergeOptionsSub(existing, val);
        r := r.(sub := r.sub[key := existing]);
      } else {
        r := r.(sub := r.sub[key := val]);
      }
      rest := rest - {key};
    }
    assert r.sub == Merge(dst, src).sub;
  }

  // --- adding a path ---

  function Marked(n: Route, rest: seq<string>): Route {
    if rest == [] then n.(last := true) else n
  }

  function Child(t: Route, seg: string): Route {
    if seg in t.sub then t.sub[seg] else EMPTY
  }

  ghost function Add(t: Route, segments: seq<string>): Route
    decreases |segments|
  {
    if segments == [] then t
    else
      var seg, rest := Normalized(segments[0]), segments[1..];
      if seg == WILD then t.(sub := map[WILD := Add(Marked(MergeAll(t, t.sub.Keys), rest), rest)])
      else if WILD in t.sub then t.(sub := t.sub[WILD := Add(Marked(t.sub[WILD], rest), rest)])
      else t.(sub := t.sub[seg := Add(Marked(Child(t, seg), rest), rest)])
  }

  // addOptionsPath: whatever order the siblings are absorbed in, the result is the same.
  method AddOptionsPath(t: Route, segments: seq<string>) returns (r: Route)
    ensures r == Add(t, segments)
    decreases |segments|
  {
    if |segments| == 0 {
      return t;
    }
    var seg := segments[0];
    if IsParam(seg) {
      seg := WILD;
    }
    if seg != WILD && WILD in t.sub {
      var wildcard := t.sub[WILD];
      if |segments| == 1 {
        wildcard := wildcard.(last := true);
      }
      wildcard := AddOptionsPath(wildcard, segments[1..]);
      return t.(sub := t.sub[WILD := wildcard]);
    }
    var node := Child(t, seg);
    r := t;
    if seg == WILD {
      node := AbsorbSiblings(t, node);
      r := r.(sub := map[]);
    }
    if |segments| == 1 {
      node := node.(last := true);
    }
    node := AddOptionsPath(node, segments[1..]);
    r := r.(sub := r.sub[seg := node]);
  }

  // All static routes at a level are merged into its wildcard.
  method AbsorbSiblings(t: Route, wildcard: Route) returns (node: Route)
    requires wildcard == Child(t, WILD)
    ensures node == MergeAll(t, t.sub.Keys)
  {
    node := wildcard;
    var rest := t.sub.Keys - {WILD};
    ghost var done := t.sub.Keys - rest;
    if WILD in t.sub {
      assert done == {WILD};
      MergeAllStep(t, done, WILD);
      assert done - {WILD} == {};
      MergeEmpty(wildcard);
    }
    while rest != {}
      invariant rest <= t.sub.Keys && done == t.sub.Keys - rest
      invariant node == MergeAll(t, done)
      decreases rest
    {
      var key :| key in rest;
      var route := t.sub[key];
      var before := node;
      if route.last {
        node := node.(last := true);
      }
      node := MergeOptionsSub(node, route);
      assert node == Merge(before, route);
      done := done + {key};
      MergeAllStep(t, done, key);
      assert done - {key} == t.sub.Keys - rest;
      rest := rest - {key};
    }
    assert done == t.sub.Keys;
  }

  // Adding a path never loses a request path.
  lemma {:induction false} AddIsMonotone(t: Route, segments: seq<string>, path: seq<string>)
    requires Accepts(t, path)
    ensures Accepts(Add(t, segments), path)
    decreases |segments|
  {
    if segments != [] && path != [] {
      var seg, rest := Normalized(segments[0]), segments[1..];
      if seg == WILD {
        var k := if path[0] in t.sub && Accepts(t.sub[path[0]], path[1..]) then path[0] else WILD;
        MergeAllIsUnion(t, t.sub.Keys, path[1..]);
        AddIsMonotone(Marked(MergeAll(t, t.sub.Keys), rest), rest, path[1..]);
      } else {
        var k := if WILD in t.sub then WILD else seg;
        if Accepts(Child(t, k), path[1..]) {
          AddIsMonotone(Marked(Child(t, k), rest), rest, path[1..]);
        }
      }
    }
  }

  // The new path is covered.
  lemma {:induction false} AddCovers(t: Route, segments: seq<string>, path: seq<string>)
    requires Covers(segments, path) && (segments == [] ==> t.last)
    ensures Accepts(Add(t, segments), path)
    decreases |segments|
  {
    if segments != [] {
      var seg, rest := Normalized(segments[0]), segments[1..];
      var node := if seg == WILD then MergeAll(t, t.sub.Keys) else if WILD in t.sub then t.sub[WILD] else Child(t, seg);
      AddCovers(Marked(node, rest), rest, path[1..]);
    }
  }

  lemma {:induction false} AddKeepsNormal(t: Route, segments: seq<string>)
    requires NormalKeys(t)
    ensures NormalKeys(Add(t, segments))
    decreases |segments|
  {
    if segments != [] {
      var seg, rest := Normalized(segments[0]), segments[1..];
      MergeAllKeepsNormal(t, t.sub.Keys);
      var node := if seg == WILD then MergeAll(t, t.sub.Keys) else if WILD in t.sub then t.sub[WILD] else Child(t, seg);
      AddKeepsNormal(Marked(node, rest), rest);
    }
  }

  // --- when wildcards stay alone ---

  // No level has a wildcard on one side and something static on the other.
  predicate Compatible(a: Route, b: Route)
    decreases b
  {
    && (WILD in a.sub ==> b.sub.Keys <= {WILD})
    && (WILD in b.sub ==> a.sub.Keys <= {WILD})
    && forall k :: k in a.sub && k in b.sub ==> Compatible(a.sub[k], b.sub[k])
  }

  // A merged tree has wildcards alone if and only if both trees have and they are compatible.
  lemma {:induction false} MergeKeepsWildOnlyIff(d: Route, s: Route)
    ensures WildOnly(Merge(d, s)) <==> WildOnly(d) && WildOnly(s) && Compatible(d, s)
    decreases s
  {
    var m := Merge(d, s);
    assert m.sub.Keys == d.sub.Keys + s.sub.Keys;
    forall k | k in d.sub && k in s.sub
      ensures WildOnly(m.sub[k]) <==> WildOnly(d.sub[k]) && WildOnly(s.sub[k]) && Compatible(d.sub[k], s.sub[k])
    {
      MergeKeepsWildOnlyIff(d.sub[k], s.sub[k]);
    }
    if WildOnly(m) {
      forall k | k in d.sub ensures WildOnly(d.sub[k]) {
        assert k in m.sub && WildOnly(m.sub[k]);
      }
      forall k | k in s.sub ensures WildOnly(s.sub[k]) {
        assert k in m.sub && WildOnly(m.sub[k]);
      }
      forall k | k in d.sub && k in s.sub ensures Compatible(d.sub[k], s.sub[k]) {
        assert k in m.sub && WildOnly(m.sub[k]);
      }
    }
  }

  lemma {:induction false} CompatibleWithMerge(a: Route, b: Route, c: Route)
    ensures Compatible(Merge(a, b), c) <==> Compatible(a, c) && Compatible(b, c)
    decreases c
  {
    var m := Merge(a, b);
    assert m.sub.Keys == a.sub.Keys + b.sub.Keys;
    forall k | k in a.sub && k in b.sub && k in c.sub
      ensures Compatible(m.sub[k], c.sub[k]) <==> Compatible(a.sub[k], c.sub[k]) && Compatible(b.sub[k], c.sub[k])
    {
      CompatibleWithMerge(a.sub[k], b.sub[k], c.sub[k]);
    }
    if Compatible(m, c) {
      forall k | k in a.sub && k in c.sub ensures Compatible(a.sub[k], c.sub[k]) {
        assert k in m.sub && Compatible(m.sub[k], c.sub[k]);
      }
      forall k | k in b.sub && k in c.sub ensures Compatible(b.sub[k], c.sub[k]) {
        assert k in m.sub && Compatible(m.sub[k], c.sub[k]);
      }
    }
  }

  ghost predicate AllCompatibleWith(t: Route, keys: set<string>, c: Route)
    requires keys <= t.sub.Keys
  {
    forall k :: k in keys ==> Compatible(t.sub[k], c)
  }

  // The children are compatible with one another.
  ghost predicate PairwiseCompatible(t: Route, keys: set<string>)
    requires keys <= t.sub.Keys
  {
    forall j, k :: j in keys && k in keys && j != k ==> Compatible(t.sub[j], t.sub[k])
  }

  lemma {:induction false} CompatibleWithAll(t: Route, keys: set<string>, c: Route)
    requires keys <= t.sub.Keys
    ensures Compatible(MergeAll(t, keys), c) <==> AllCompatibleWith(t, keys, c)
    decreases |keys|
  {
    if keys != {} {
      var j :| j in keys;
      MergeAllStep(t, keys, j);
      CompatibleWithAll(t, keys - {j}, c);
      CompatibleWithMerge(MergeAll(t, keys - {j}), t.sub[j], c);
    }
  }

  lemma {:induction false} CompatibleIsSymmetric(a: Route, b: Route)
    requires Compatible(a, b)
    ensures Compatible(b, a)
    decreases b
  {
    forall k | k in a.sub && k in b.sub ensures Compatible(b.sub[k], a.sub[k]) {
      CompatibleIsSymmetric(a.sub[k], b.sub[k]);
    }
  }

  ghost predicate AllWildOnly(t: Route, keys: set<string>)
    requires keys <= t.sub.Keys
  {
    forall k :: k in keys ==> WildOnly(t.sub[k])
  }

  lemma {:induction false} MergeAllWildOnlyIff(t: Route, keys: set<string>)
    requires keys <= t.sub.Keys
    ensures WildOnly(MergeAll(t, keys)) <==> AllWildOnly(t, keys) && PairwiseCompatible(t, keys)
    decreases |keys|
  {
    if keys != {} {
      var j :| j in keys;
      var others := keys - {j};
      MergeAllStep(t, keys, j);
      MergeAllWildOnlyIff(t, others);
      CompatibleWithAll(t, others, t.sub[j]);
      MergeKeepsWildOnlyIff(MergeAll(t, others), t.sub[j]);
      assert AllWildOnly(t, keys) <==> AllWildOnly(t, others) && WildOnly(t.sub[j]);
      PairwiseStep(t, keys, j);
    }
  }

  lemma PairwiseStep(t: Route, keys: set<string>, j: string)
    requires keys <= t.sub.Keys && j in keys
    ensures PairwiseCompatible(t, keys) <==> PairwiseCompatible(t, keys - {j}) && AllCompatibleWith(t, keys - {j}, t.sub[j])
  {
    if AllCompatibleWith(t, keys - {j}, t.sub[j]) && PairwiseCompatible(t, keys - {j}) {
      forall a, b | a in keys && b in keys && a != b ensures Compatible(t.sub[a], t.sub[b]) {
        if a == j {
          CompatibleIsSymmetric(t.sub[b], t.sub[j]);
        }
      }
    }
  }

  predicate HasParam(segments: seq<string>) {
    exists i :: 0 <= i < |segments| && IsParam(segments[i])
  }

  // What a caller can check before adding a path: the children the last parameter absorbs are clean and
  // compatible with one another, and so is everything beside the way there.
  ghost predicate Absorbable(t: Route, segments: seq<string>)
    decreases |segments|
  {
    if !HasParam(segments) then WildOnly(t)
    else
      var seg, rest := Normalized(segments[0]), segments[1..];
      if seg != WILD then
        var k := if WILD in t.sub then WILD else seg;
        && (WILD in t.sub ==> t.sub.Keys == {WILD})
        && AllWildOnly(t, t.sub.Keys - {k})
        && Absorbable(Child(t, k), rest)
      else if HasParam(rest) then Absorbable(MergeAll(t, t.sub.Keys), rest)
      else AllWildOnly(t, t.sub.Keys) && PairwiseCompatible(t, t.sub.Keys)
  }

  // The mark of a node has no part in this.
  lemma {:induction false} MarkIrrelevant(t: Route, segments: seq<string>, rest: seq<string>)
    ensures WildOnly(Marked(t, rest)) <==> WildOnly(t)
    ensures Absorbable(Marked(t, rest), segments) <==> Absorbable(t, segments)
    decreases |segments|
  {
    SameChildrenMerge(t, Marked(t, rest), t.sub.Keys);
  }

  lemma {:induction false} SameChildrenMerge(t: Route, u: Route, keys: set<string>)
    requires t.sub == u.sub && keys <= t.sub.Keys
    ensures MergeAll(t, keys) == MergeAll(u, keys)
    decreases |keys|
  {
    if keys != {} {
      var j :| j in keys;
      MergeAllStep(t, keys, j);
      MergeAllStep(u, keys, j);
      SameChildrenMerge(t, u, keys - {j});
    }
  }

  // A path without parameters changes nothing about wildcards.
  lemma {:induction false} StaticAddKeepsWildOnly(t: Route, segments: seq<string>)
    requires !HasParam(segments)
    ensures WildOnly(Add(t, segments)) <==> WildOnly(t)
    decreases |segments|
  {
    if segments != [] {
      var rest := segments[1..];
      assert !IsParam(segments[0]);
      assert forall i :: 0 <= i < |rest| ==> rest[i] == segments[i + 1];
      var k := if WILD in t.sub then WILD else segments[0];
      StaticAddKeepsWildOnly(Marked(Child(t, k), rest), rest);
      MarkIrrelevant(Child(t, k), [], rest);
      ReplacedChild(t, k, Add(Marked(Child(t, k), rest), rest));
    }
  }

  lemma ReplacedChild(t: Route, k: string, child: Route)
    requires k == WILD || WILD !in t.sub
    requires k == WILD ==> WILD in t.sub
    ensures WildOnly(t.(sub := t.sub[k := child])) <==>
      (WILD in t.sub ==> t.sub.Keys == {WILD}) && AllWildOnly(t, t.sub.Keys - {k}) && WildOnly(child)
  {
    var r := t.(sub := t.sub[k := child]);
    assert r.sub.Keys == t.sub.Keys + {k};
    if WildOnly(r) {
      forall j | j in t.sub.Keys - {k} ensures WildOnly(t.sub[j]) {
        assert j in r.sub && WildOnly(r.sub[j]);
      }
    }
  }

  // After adding a path, wildcards are alone if and only if what it absorbs is compatible.
  lemma {:induction false} AddKeepsWildOnlyIff(t: Route, segments: seq<string>)
    ensures WildOnly(Add(t, segments)) <==> Absorbable(t, segments)
    decreases |segments|
  {
    if !HasParam(segments) {
      StaticAddKeepsWildOnly(t, segments);
    } else {
      var seg, rest := Normalized(segments[0]), segments[1..];
      if seg != WILD {
        var k := if WILD in t.sub then WILD else seg;
        AddKeepsWildOnlyIff(Marked(Child(t, k), rest), rest);
        MarkIrrelevant(Child(t, k), rest, rest);
        ReplacedChild(t, k, Add(Marked(Child(t, k), rest), rest));
      } else {
        var merged := MergeAll(t, t.sub.Keys);
        OnlyChild(t, Add(Marked(merged, rest), rest));
        MarkIrrelevant(merged, rest, rest);
        if HasParam(rest) {
          AddKeepsWildOnlyIff(Marked(merged, rest), rest);
        } else {
          StaticAddKeepsWildOnly(Marked(merged, rest), rest);
          MergeAllWildOnlyIff(t, t.sub.Keys);
        }
      }
    }
  }

  lemma OnlyChild(t: Route, child: Route)
    ensures WildOnly(t.(sub := map[WILD := child])) <==> WildOnly(child)
  {
    var r := t.(sub := map[WILD := child]);
    assert r.sub[WILD] == child && r.sub.Keys == {WILD};
  }

  // --- the conflict check ---

  // optionsTreeContains from a node down; the root itself is never marked.
  predicate Contains(t: Route, segments: seq<string>)
    decreases |segments|
  {
    if segments == [] then t.last
    else if IsParam(segments[0]) then exists k :: k in t.sub && Contains(t.sub[k], segments[1..])
    else if segments[0] in t.sub then Contains(t.sub[segments[0]], segments[1..])
    else WILD in t.sub && Contains(t.sub[WILD], segments[1..])
  }

  method OptionsTreeContains(t: Route, segments: seq<string>) returns (found: bool)
    ensures found <==> segments != [] && Contains(t, segments)
    decreases |segments|
  {
    if |segments| == 0 {
      return false;
    }
    var seg := segments[0];
    if IsParam(seg) {
      var rest := t.sub.Keys;
      while rest != {}
        invariant rest <= t.sub.Keys
        invariant forall k :: k in t.sub && k !in rest ==> !Contains(t.sub[k], segments[1..])
        decreases rest
      {
        var key :| key in rest;
        var ok := CheckNode(t.sub[key], segments);
        if ok {
          return true;
        }
        rest := rest - {key};
      }
      return false;
    }
    if seg in t.sub {
      found := CheckNode(t.sub[seg], segments);
    } else if WILD in t.sub {
      found := CheckNode(t.sub[WILD], segments);
    } else {
      found := false;
    }
  }

  method CheckNode(node: Route, segments: seq<string>) returns (ok: bool)
    requires segments != []
    ensures ok <==> Contains(node, segments[1..])
    decreases |segments|, 0
  {
    if |segments| == 1 {
      return node.last;
    }
    ok := OptionsTreeContains(node, segments[1..]);
  }

  // A request path of both the tree and the queried route.
  predicate Conflict(t: Route, query: seq<string>, path: seq<string>) {
    Covers(query, path) && Accepts(t, path)
  }

  // A hit is always a conflict: some request path belongs to both the tree and the queried route.
  lemma {:induction false} ContainsIsConflict(t: Route, query: seq<string>) returns (path: seq<string>)
    requires Contains(t, query)
    ensures Covers(query, path) && Accepts(t, path)
    decreases |query|
  {
    if query == [] {
      path := [];
    } else {
      var k: string;
      if IsParam(query[0]) {
        k :| k in t.sub && Contains(t.sub[k], query[1..]);
      } else {
        k := if query[0] in t.sub then query[0] else WILD;
      }
      var rest := ContainsIsConflict(t.sub[k], query[1..]);
      var first := if IsParam(query[0]) then k else query[0];
      path := [first] + rest;
      assert path[1..] == rest;
    }
  }

  // Every request path of one node is a request path of the other.
  ghost predicate Includes(larger: Route, smaller: Route) {
    forall path {:trigger Accepts(smaller, path)} :: Accepts(smaller, path) ==> Accepts(larger, path)
  }

  // A static child of a node accepts whatever its wildcard sibling accepts, if there is one.
  ghost predicate ShadowsAt(t: Route, k: string)
    requires k in t.sub
  {
    k != WILD && WILD in t.sub ==> Includes(t.sub[k], t.sub[WILD])
  }

  // So it is at every node. The search may then pass over the wildcard.
  ghost predicate Shadowed(t: Route) {
    forall k {:trigger ShadowsAt(t, k)} :: k in t.sub ==> ShadowsAt(t, k) && Shadowed(t.sub[k])
  }

  // Every conflict with the second tree is found in the first.
  ghost predicate Answers(t: Route, u: Route) {
    forall query, path {:trigger Conflict(u, query, path)} :: Conflict(u, query, path) ==> Contains(t, query)
  }

  lemma {:induction false} ConflictIsFound(t: Route, query: seq<string>, path: seq<string>)
    requires NormalKeys(t) && Shadowed(t) && Conflict(t, query, path)
    ensures Contains(t, query)
    decreases |query|
  {
    if query != [] {
      var k := if path[0] in t.sub && Accepts(t.sub[path[0]], path[1..]) then path[0] else WILD;
      assert ShadowsAt(t, k) && (path[0] in t.sub ==> ShadowsAt(t, path[0]));
      assert Accepts(t.sub[k], path[1..]);
      assert Conflict(t.sub[k], query[1..], path[1..]);
      ConflictIsFound(t.sub[k], query[1..], path[1..]);
    }
  }

  lemma {:induction false} LongerThanAll(keys: set<string>) returns (n: nat)
    ensures forall k :: k in keys ==> |k| < n
  {
    n := 0;
    if keys != {} {
      var k :| k in keys;
      n := LongerThanAll(keys - {k});
      if n <= |k| {
        n := |k| + 1;
      }
    }
  }

  // There is always a static segment a level does not have.
  lemma FreshSegment(keys: set<string>) returns (f: string)
    ensures !IsParam(f) && f !in keys
  {
    var n := LongerThanAll(keys);
    f := seq(n, i => 'a');
  }

  lemma ConflictBelow(u: Route, k: string, first: string, query: seq<string>, path: seq<string>)
    requires k in u.sub && Conflict(u.sub[k], query, path) && !IsParam(first) && (k == first || k == WILD)
    ensures Conflict(u, [first] + query, [first] + path)
  {
    assert ([first] + query)[1..] == query && ([first] + path)[1..] == path;
  }

  // A search in t that starts with this static segment goes on in the child the code picks.
  lemma AnswersBelow(t: Route, u: Route, k: string, first: string)
    requires Answers(t, u) && k in u.sub && !IsParam(first) && (k == first || k == WILD)
    ensures first in t.sub ==> Answers(t.sub[first], u.sub[k])
    ensures first !in t.sub && WILD in t.sub ==> Answers(t.sub[WILD], u.sub[k])
    ensures first !in t.sub && WILD !in t.sub ==> forall path :: !Accepts(u.sub[k], path)
  {
    forall query, path | Conflict(u.sub[k], query, path)
      ensures if first in t.sub then Contains(t.sub[first], query) else WILD in t.sub && Contains(t.sub[WILD], query)
    {
      ConflictBelow(u, k, first, query, path);
      assert Contains(t, [first] + query) && ([first] + query)[1..] == query;
    }
    forall path | Accepts(u.sub[k], path) ensures first in t.sub || WILD in t.sub {
      CoversItself(path);
      assert Conflict(u.sub[k], path, path);
    }
  }

  lemma {:induction false} CoversItself(path: seq<string>)
    ensures Covers(path, path)
  {
    if path != [] {
      CoversItself(path[1..]);
    }
  }

  // What answers for another tree includes it.
  lemma {:induction false} AnswersIncludes(t: Route, u: Route, path: seq<string>)
    requires NormalKeys(t) && NormalKeys(u) && Answers(t, u) && Accepts(u, path)
    ensures Accepts(t, path)
    decreases |path|
  {
    if path == [] {
      assert Conflict(u, [], []);
    } else {
      var k := if path[0] in u.sub && Accepts(u.sub[path[0]], path[1..]) then path[0] else WILD;
      var first := path[0];
      if IsParam(first) {
        first := FreshSegment(t.sub.Keys); // the path goes through the wildcard, as a fresh segment would
      }
      AnswersBelow(t, u, k, first);
      var next := if first in t.sub then first else WILD;
      AnswersIncludes(t.sub[next], u.sub[k], path[1..]);
    }
  }

  lemma {:induction false} CompleteIsShadowed(t: Route)
    requires NormalKeys(t) && Answers(t, t)
    ensures Shadowed(t)
    decreases t
  {
    forall k | k in t.sub ensures ShadowsAt(t, k) && Shadowed(t.sub[k]) {
      var first := k;
      if k == WILD {
        first := FreshSegment(t.sub.Keys);
      }
      AnswersBelow(t, t, k, first);
      CompleteIsShadowed(t.sub[k]);
      if k != WILD && WILD in t.sub {
        AnswersBelow(t, t, WILD, k);
        forall path | Accepts(t.sub[WILD], path) ensures Accepts(t.sub[k], path) {
          AnswersIncludes(t.sub[k], t.sub[WILD], path);
        }
      }
    }
  }

  // The check finds every conflict if and only if every static child beside a wildcard accepts what the
  // wildcard accepts.
  lemma CheckIsCompleteIff(t: Route)
    requires NormalKeys(t)
    ensures Answers(t, t) <==> Shadowed(t)
  {
    if Shadowed(t) {
      forall query, path | Conflict(t, query, path) ensures Contains(t, query) {
        ConflictIsFound(t, query, path);
      }
    }
    if Answers(t, t) {
      CompleteIsShadowed(t);
    }
  }

  // --- the condition as a finite check on the tree ---

  // No path in the tree is longer than n.
  predicate HeightAtMost(t: Route, n: nat) {
    forall k :: k in t.sub ==> n > 0 && HeightAtMost(t.sub[k], n - 1)
  }

  // Where a request goes on after this static segment.
  function Branch(t: Route, seg: string): Route {
    Merge(Child(t, seg), Child(t, WILD))
  }

  // Compares two trees level by level, through the segments the smaller one names and its wildcard.
  predicate Subsumes(larger: Route, smaller: Route, n: nat)
    decreases n
  {
    && (smaller.last ==> larger.last)
    && (n > 0 ==>
      && (forall k :: k in smaller.sub && k != WILD ==> Subsumes(Branch(larger, k), Branch(smaller, k), n - 1))
      && Subsumes(Child(larger, WILD), Child(smaller, WILD), n - 1))
  }

  predicate ShadowedWithin(t: Route, n: nat) {
    forall k :: k in t.sub ==>
      (k != WILD && WILD in t.sub ==> Subsumes(t.sub[k], t.sub[WILD], n)) && ShadowedWithin(t.sub[k], n)
  }

  lemma {:induction false} MergeHeight(a: Route, b: Route, n: nat)
    requires HeightAtMost(a, n) && HeightAtMost(b, n)
    ensures HeightAtMost(Merge(a, b), n)
    decreases n
  {
    forall k | k in Merge(a, b).sub ensures n > 0 && HeightAtMost(Merge(a, b).sub[k], n - 1) {
      if k in a.sub && k in b.sub {
        MergeHeight(a.sub[k], b.sub[k], n - 1);
      }
    }
  }

  lemma BranchHeight(t: Route, k: string, n: nat)
    requires n > 0 && HeightAtMost(t, n)
    ensures HeightAtMost(Branch(t, k), n - 1) && HeightAtMost(Child(t, WILD), n - 1)
  {
    MergeHeight(Child(t, k), Child(t, WILD), n - 1);
  }

  lemma BranchAccepts(t: Route, seg: string, path: seq<string>)
    requires seg != WILD
    ensures Accepts(t, [seg] + path) <==> Accepts(Branch(t, seg), path)
    ensures seg !in t.sub ==> (Accepts(t, [seg] + path) <==> Accepts(Child(t, WILD), path))
  {
    assert ([seg] + path)[1..] == path;
    MergeIsUnion(Child(t, seg), Child(t, WILD), path);
    EmptyAccepts(path);
  }

  lemma EmptyAccepts(path: seq<string>)
    ensures !Accepts(EMPTY, path)
  {
  }

  lemma {:induction false} SubsumesIncludes(larger: Route, smaller: Route, n: nat, path: seq<string>)
    requires HeightAtMost(smaller, n) && Subsumes(larger, smaller, n) && Accepts(smaller, path)
    ensures Accepts(larger, path)
    decreases |path|
  {
    if path != [] {
      var k, rest := path[0], path[1..];
      assert path == [k] + rest;
      assert n > 0;
      BranchHeight(smaller, k, n);
      if k != WILD && k in smaller.sub {
        BranchAccepts(smaller, k, rest);
        SubsumesIncludes(Branch(larger, k), Branch(smaller, k), n - 1, rest);
        BranchAccepts(larger, k, rest);
      } else {
        SubsumesIncludes(Child(larger, WILD), Child(smaller, WILD), n - 1, rest);
        EmptyAccepts(rest);
      }
    }
  }

  lemma {:induction false} IncludesSubsumes(larger: Route, smaller: Route, n: nat)
    requires Includes(larger, smaller)
    ensures Subsumes(larger, smaller, n)
    decreases n
  {
    assert Accepts(smaller, []) ==> Accepts(larger, []);
    if n > 0 {
      forall k | k in smaller.sub && k != WILD ensures Subsumes(Branch(larger, k), Branch(smaller, k), n - 1) {
        forall path | Accepts(Branch(smaller, k), path) ensures Accepts(Branch(larger, k), path) {
          BranchAccepts(smaller, k, path);
          BranchAccepts(larger, k, path);
        }
        IncludesSubsumes(Branch(larger, k), Branch(smaller, k), n - 1);
      }
      var f := FreshSegment(smaller.sub.Keys + larger.sub.Keys);
      forall path | Accepts(Child(smaller, WILD), path) ensures Accepts(Child(larger, WILD), path) {
        BranchAccepts(smaller, f, path);
        BranchAccepts(larger, f, path);
      }
      IncludesSubsumes(Child(larger, WILD), Child(smaller, WILD), n - 1);
    }
  }

  // For a tree of height at most n, the condition under which the check is complete is this finite one.
  lemma {:induction false} ShadowedIffWithin(t: Route, n: nat)
    requires HeightAtMost(t, n)
    ensures Shadowed(t) <==> ShadowedWithin(t, n)
    decreases t
  {
    forall k | k in t.sub
      ensures HeightAtMost(t.sub[k], n) && (Shadowed(t.sub[k]) <==> ShadowedWithin(t.sub[k], n))
      ensures k != WILD && WILD in t.sub ==> (ShadowsAt(t, k) <==> Subsumes(t.sub[k], t.sub[WILD], n))
    {
      HeightGrows(t.sub[k], n - 1);
      ShadowedIffWithin(t.sub[k], n);
      if k != WILD && WILD in t.sub {
        HeightGrows(t.sub[WILD], n - 1);
        if Subsumes(t.sub[k], t.sub[WILD], n) {
          forall path | Accepts(t.sub[WILD], path) ensures Accepts(t.sub[k], path) {
            SubsumesIncludes(t.sub[k], t.sub[WILD], n, path);
          }
        }
        if ShadowsAt(t, k) {
          IncludesSubsumes(t.sub[k], t.sub[WILD], n);
        }
      }
    }
    if Shadowed(t) {
      forall k | k in t.sub ensures ShadowsAt(t, k) && ShadowedWithin(t.sub[k], n) {
        assert ShadowsAt(t, k);
      }
    }
    if ShadowedWithin(t, n) {
      forall k | k in t.sub ensures ShadowsAt(t, k) && Shadowed(t.sub[k]) {
      }
    }
  }

  lemma {:induction false} HeightGrows(t: Route, n: nat)
    requires HeightAtMost(t, n)
    ensures HeightAtMost(t, n + 1)
    decreases n
  {
    forall k | k in t.sub ensures HeightAtMost(t.sub[k], n) {
      HeightGrows(t.sub[k], n - 1);
    }
  }

  // --- exact answers ---

  // The condition holds in particular when wildcards have no siblings.
  lemma {:induction false} WildOnlyIsShadowed(t: Route)
    requires WildOnly(t)
    ensures Shadowed(t)
  {
    forall k | k in t.sub ensures ShadowsAt(t, k) && Shadowed(t.sub[k]) {
      WildOnlyIsShadowed(t.sub[k]);
    }
  }

  // On such trees the check says exactly whether a route shares a request path with the tree.
  lemma ContainsIffConflict(t: Route, query: seq<string>)
    requires NormalKeys(t) && Shadowed(t)
    ensures Contains(t, query) <==> exists path :: Conflict(t, query, path)
  {
    if Contains(t, query) {
      var path := ContainsIsConflict(t, query);
      assert Conflict(t, query, path);
    }
    forall path | Conflict(t, query, path) ensures Contains(t, query) {
      ConflictIsFound(t, query, path);
    }
  }

  // --- flattening ---

  function Join(pattern: seq<string>): string {
    if pattern == [] then "" else "/" + pattern[0] + Join(pattern[1..])
  }

  ghost predicate ListedVia(t: Route, keys: set<string>, prefix: string, s: string, pattern: seq<string>) {
    pattern != [] && pattern[0] in keys && LeafAt(t, pattern) && s == prefix + Join(pattern)
  }

  ghost predicate Listed(t: Route, keys: set<string>, prefix: string, s: string) {
    exists pattern :: ListedVia(t, keys, prefix, s, pattern)
  }

  // flattenOptionsPaths lists exactly the leaf patterns of the tree.
  method FlattenOptionsPaths(t: Route, prefix: string) returns (paths: seq<string>)
    ensures forall s :: s in paths <==> Listed(t, t.sub.Keys, prefix, s)
    decreases t
  {
    paths := [];
    var rest := t.sub.Keys;
    while rest != {}
      invariant rest <= t.sub.Keys
      invariant forall s :: s in paths <==> Listed(t, t.sub.Keys - rest, prefix, s)
      decreases rest
    {
      var seg :| seg in rest;
      var r := t.sub[seg];
      var path := prefix + "/" + seg;
      var below := FlattenOptionsPaths(r, path);
      ghost var before := paths;
      if r.last {
        paths := paths + [path];
      }
      paths := paths + below;
      forall s ensures s in paths <==> Listed(t, t.sub.Keys - (rest - {seg}), prefix, s) {
        ListedOneMore(t, t.sub.Keys - rest, seg, prefix, s);
        ListedUnder(t, seg, prefix, s);
        assert t.sub.Keys - (rest - {seg}) == t.sub.Keys - rest + {seg};
      }
      rest := rest - {seg};
    }
    assert t.sub.Keys - {} == t.sub.Keys;
  }

  // A listed string whose pattern starts with seg, and the same string below seg.
  lemma BelowSegment(t: Route, seg: string, prefix: string, s: string, pattern: seq<string>)
    requires seg in t.sub && pattern != [] && pattern[0] == seg
    ensures LeafAt(t, pattern) <==> LeafAt(t.sub[seg], pattern[1..])
    ensures prefix + Join(pattern) == prefix + "/" + seg + Join(pattern[1..])
    ensures pattern[1..] != [] && LeafAt(t, pattern) ==> pattern[1] in t.sub[seg].sub
  {
    var below := Join(pattern[1..]);
    assert Join(pattern) == "/" + seg + below;
    assert prefix + ("/" + seg + below) == prefix + "/" + seg + below;
  }

  // Whether a string is listed with a pattern that starts with seg.
  lemma ListedUnder(t: Route, seg: string, prefix: string, s: string)
    requires seg in t.sub
    ensures Listed(t, {seg}, prefix, s) <==>
      || (t.sub[seg].last && s == prefix + "/" + seg)
      || Listed(t.sub[seg], t.sub[seg].sub.Keys, prefix + "/" + seg, s)
  {
    var path := prefix + "/" + seg;
    if t.sub[seg].last && s == path {
      BelowSegment(t, seg, prefix, s, [seg]);
      assert path + "" == path;
      assert ListedVia(t, {seg}, prefix, s, [seg]);
    }
    if Listed(t.sub[seg], t.sub[seg].sub.Keys, path, s) {
      var below :| ListedVia(t.sub[seg], t.sub[seg].sub.Keys, path, s, below);
      assert ([seg] + below)[1..] == below;
      BelowSegment(t, seg, prefix, s, [seg] + below);
      assert ListedVia(t, {seg}, prefix, s, [seg] + below);
    }
    if Listed(t, {seg}, prefix, s) {
      var pattern :| ListedVia(t, {seg}, prefix, s, pattern);
      BelowSegment(t, seg, prefix, s, pattern);
      if pattern[1..] == [] {
        assert path + "" == path;
      } else {
        assert ListedVia(t.sub[seg], t.sub[seg].sub.Keys, path, s, pattern[1..]);
      }
    }
  }

  lemma ListedOneMore(t: Route, keys: set<string>, seg: string, prefix: string, s: string)
    ensures Listed(t, keys + {seg}, prefix, s) <==> Listed(t, keys, prefix, s) || Listed(t, {seg}, prefix, s)
  {
    if Listed(t, keys, prefix, s) {
      var pattern :| ListedVia(t, keys, prefix, s, pattern);
      assert ListedVia(t, keys + {seg}, prefix, s, pattern);
    }
    if Listed(t, {seg}, prefix, s) {
      var pattern :| ListedVia(t, {seg}, prefix, s, pattern);
      assert ListedVia(t, keys + {seg}, prefix, s, pattern);
    }
    if Listed(t, keys + {seg}, prefix, s) {
      var pattern :| ListedVia(t, keys + {seg}, prefix, s, pattern);
      assert ListedVia(t, keys, prefix, s, pattern) || ListedVia(t, {seg}, prefix, s, pattern);
    }
  }

  // --- the mux ---

  ghost function Tree(enabled: seq<seq<string>>): Route {
    if enabled == [] then EMPTY else Add(Tree(enabled[..|enabled| - 1]), enabled[|enabled| - 1])
  }

  method BuildTree(enabled: seq<seq<string>>) returns (t: Route)
    ensures t == Tree(enabled)
  {
    t := EMPTY;
    for i := 0 to |enabled|
      invariant t == Tree(enabled[..i])
    {
      t := AddOptionsPath(t, enabled[i]);
      assert enabled[..i + 1][..i] == enabled[..i];
    }
    assert enabled[..|enabled|] == enabled;
  }

  // Every request path of an enabled route gets an OPTIONS handler: a flattened pattern covers it.
  lemma {:induction false} EnabledIsCovered(enabled: seq<seq<string>>, i: nat, path: seq<string>)
    requires i < |enabled| && enabled[i] != [] && Covers(enabled[i], path)
    ensures NormalKeys(Tree(enabled)) && Accepts(Tree(enabled), path)
    ensures exists pattern :: LeafCovers(Tree(enabled), pattern, path)
    decreases |enabled|
  {
    var n := |enabled| - 1;
    TreeIsNormal(enabled);
    if i < n {
      EnabledIsCovered(enabled[..n], i, path);
      AddIsMonotone(Tree(enabled[..n]), enabled[n], path);
    } else {
      AddCovers(Tree(enabled[..n]), enabled[n], path);
    }
    AcceptsIffSomeLeafCovers(Tree(enabled), path);
  }

  lemma {:induction false} TreeIsNormal(enabled: seq<seq<string>>)
    ensures NormalKeys(Tree(enabled))
    decreases |enabled|
  {
    if enabled != [] {
      TreeIsNormal(enabled[..|enabled| - 1]);
      AddKeepsNormal(Tree(enabled[..|enabled| - 1]), enabled[|enabled| - 1]);
    }
  }

  // A disabled route that passes the check shares no request path with the OPTIONS handlers.
  lemma AcceptedDisabledRouteIsSafe(enabled: seq<seq<string>>, disabled: seq<string>, path: seq<string>)
    requires Shadowed(Tree(enabled)) && !Contains(Tree(enabled), disabled) && Covers(disabled, path)
    ensures !Accepts(Tree(enabled), path)
  {
    TreeIsNormal(enabled);
    assert Accepts(Tree(enabled), path) ==> Conflict(Tree(enabled), disabled, path);
    ContainsIffConflict(Tree(enabled), disabled);
  }

  // Without that there is a disabled route that passes the check and still shares a path.
  lemma UnsafeDisabledRouteExists(enabled: seq<seq<string>>) returns (disabled: seq<string>, path: seq<string>)
    requires !Shadowed(Tree(enabled))
    ensures !Contains(Tree(enabled), disabled) && Covers(disabled, path) && Accepts(Tree(enabled), path)
  {
    TreeIsNormal(enabled);
    CheckIsCompleteIff(Tree(enabled));
    disabled, path :| Conflict(Tree(enabled), disabled, path) && !Contains(Tree(enabled), disabled);
  }

  // --- three routes, in two orders ---

  const LEAF := Route(true, map[])
  const STATIC_FIRST: seq<seq<string>> := [["a", "x", "y"], ["b", ":p"], [":id"]]
  const WILDCARD_FIRST: seq<seq<string>> := [[":id"], ["a", "x", "y"], ["b", ":p"]]

  lemma AddToEnd(enabled: seq<seq<string>>)
    requires enabled != []
    ensures Tree(enabled) == Add(Tree(enabled[..|enabled| - 1]), enabled[|enabled| - 1])
  {
  }

  lemma OfOne(r: seq<string>)
    ensures Tree([r]) == Add(EMPTY, r)
  {
    assert [r][..0] == [];
  }

  lemma OfThree(r: seq<string>, s: seq<string>, t: seq<string>)
    ensures Tree([r, s, t]) == Add(Add(Add(EMPTY, r), s), t)
  {
    var two, three := [r, s], [r, s, t];
    assert two[..1] == [r] && three[..2] == two;
    OfOne(r);
    AddToEnd(two);
    AddToEnd(three);
  }

  lemma AddLeaf(t: Route, seg: string)
    requires !IsParam(seg) && WILD !in t.sub
    ensures Add(t, [seg]) == t.(sub := t.sub[seg := Child(t, seg).(last := true)])
  {
    assert [seg][1..] == [];
  }

  lemma AddStep(t: Route, seg: string, rest: seq<string>)
    requires !IsParam(seg) && WILD !in t.sub && rest != []
    ensures Add(t, [seg] + rest) == t.(sub := t.sub[seg := Add(Child(t, seg), rest)])
  {
    assert ([seg] + rest)[1..] == rest;
  }

  lemma AddBesideWild(t: Route, seg: string, rest: seq<string>)
    requires !IsParam(seg) && WILD in t.sub && rest != []
    ensures Add(t, [seg] + rest) == t.(sub := t.sub[WILD := Add(t.sub[WILD], rest)])
  {
    assert ([seg] + rest)[1..] == rest;
  }

  lemma AddWildLeaf(t: Route, seg: string)
    requires IsParam(seg)
    ensures Add(t, [seg]) == t.(sub := map[WILD := MergeAll(t, t.sub.Keys).(last := true)])
  {
    assert [seg][1..] == [];
  }

  lemma MergeOne(t: Route, k: string)
    requires t.sub.Keys == {k}
    ensures MergeAll(t, t.sub.Keys) == t.sub[k]
  {
    MergeAllStep(t, {k}, k);
    assert {k} - {k} == {};
    MergeEmpty(t.sub[k]);
  }

  lemma PathOfThree(t: Route)
    requires t == EMPTY
    ensures Add(t, ["x", "y"]) == Route(false, map["x" := Route(false, map["y" := LEAF])])
    ensures Add(t, ["a", "x", "y"]) == Route(false, map["a" := Route(false, map["x" := Route(false, map["y" := LEAF])])])
  {
    assert ["x"] + ["y"] == ["x", "y"] && ["a"] + ["x", "y"] == ["a", "x", "y"];
    AddLeaf(EMPTY, "y");
    AddStep(EMPTY, "x", ["y"]);
    AddStep(EMPTY, "a", ["x", "y"]);
  }

  const A: Route := Route(false, map["x" := Route(false, map["y" := LEAF])])
  const B: Route := Route(false, map[WILD := LEAF])

  lemma TwoStatics()
    ensures Add(Add(EMPTY, ["a", "x", "y"]), ["b", ":p"]) == Route(false, map["a" := A, "b" := B])
  {
    PathOfThree(EMPTY);
    AddWildLeaf(EMPTY, ":p");
    assert MergeAll(EMPTY, {}) == EMPTY;
    assert Add(EMPTY, [":p"]).sub == B.sub;
    assert ["b"] + [":p"] == ["b", ":p"];
    AddStep(Route(false, map["a" := A]), "b", [":p"]);
    assert map["a" := A]["b" := B] == map["a" := A, "b" := B];
  }

  lemma Absorbed()
    ensures Merge(A, B) == Route(false, map["x" := Route(false, map["y" := LEAF]), WILD := LEAF])
  {
    assert Merge(A, B).sub == map["x" := Route(false, map["y" := LEAF]), WILD := LEAF];
  }

  lemma StaticFirstTree()
    ensures Tree(STATIC_FIRST) ==
      Route(false, map[WILD := Route(true, map["x" := Route(false, map["y" := LEAF]), WILD := LEAF])])
  {
    OfThree(["a", "x", "y"], ["b", ":p"], [":id"]);
    TwoStatics();
    var t := Route(false, map["a" := A, "b" := B]);
    AddWildLeaf(t, ":id");
    TwoSiblings(t, "a", "b");
    Absorbed();
  }

  lemma TwoSiblings(t: Route, j: string, k: string)
    requires j != k && t.sub.Keys == {j, k}
    ensures MergeAll(t, t.sub.Keys) == Merge(t.sub[j], t.sub[k])
  {
    MergeAllStep(t, {j, k}, k);
    assert {j, k} - {k} == {j};
    MergeAllStep(t, {j}, j);
    assert {j} - {j} == {};
    MergeEmpty(t.sub[j]);
  }

  lemma WildcardFirstTree()
    ensures Tree(WILDCARD_FIRST) == Route(false, map[WILD := Route(true, map[WILD := Route(true, map["y" := LEAF])])])
  {
    OfThree([":id"], ["a", "x", "y"], ["b", ":p"]);
    assert ["a"] + ["x", "y"] == ["a", "x", "y"] && ["x"] + ["y"] == ["x", "y"] && ["b"] + [":p"] == ["b", ":p"];
    var t1 := Route(false, map[WILD := LEAF]);
    AddWildLeaf(EMPTY, ":id");
    var w2 := Route(true, map["x" := Route(false, map["y" := LEAF])]);
    AddLeaf(EMPTY, "y");
    AddStep(LEAF, "x", ["y"]);
    AddBesideWild(t1, "a", ["x", "y"]);
    var t2 := Route(false, map[WILD := w2]);
    AddBesideWild(t2, "b", [":p"]);
    AddWildLeaf(w2, ":p");
    MergeOne(w2, "x");
  }

  // Enabled /a/x/y, /b/:p and /:id, added in this order, put a static segment beside a wildcard, and the
  // check misses the disabled /c/x although OPTIONS /:param/:param covers its requests.
  lemma MixedShapesMissConflict()
    ensures !Shadowed(Tree(STATIC_FIRST))
    ensures Conflict(Tree(STATIC_FIRST), ["c", "x"], ["c", "x"]) && !Contains(Tree(STATIC_FIRST), ["c", "x"])
  {
    StaticFirstTree();
    assert ["c", "x"][1..] == ["x"] && ["x"][1..] == [];
    var t := Tree(STATIC_FIRST);
    TreeIsNormal(STATIC_FIRST);
    CheckIsCompleteIff(t);
    assert Conflict(t, ["c", "x"], ["c", "x"]);
  }

  // A static segment beside a wildcard need not matter: enabled /a/x, /b/:p and /:id leave one.
  const HARMLESS: seq<seq<string>> := [["a", "x"], ["b", ":p"], [":id"]]

  lemma TwoShortStatics()
    ensures Add(Add(EMPTY, ["a", "x"]), ["b", ":p"]) == Route(false, map["a" := Route(false, map["x" := LEAF]), "b" := B])
  {
    var a := Route(false, map["x" := LEAF]);
    AddLeaf(EMPTY, "x");
    assert ["a"] + ["x"] == ["a", "x"] && ["b"] + [":p"] == ["b", ":p"];
    AddStep(EMPTY, "a", ["x"]);
    AddWildLeaf(EMPTY, ":p");
    assert MergeAll(EMPTY, {}) == EMPTY;
    assert Add(EMPTY, [":p"]).sub == B.sub;
    AddStep(Route(false, map["a" := a]), "b", [":p"]);
    assert map["a" := a]["b" := B] == map["a" := a, "b" := B];
  }

  lemma HarmlessTree()
    ensures Tree(HARMLESS) == Route(false, map[WILD := Route(true, map["x" := LEAF, WILD := LEAF])])
  {
    OfThree(["a", "x"], ["b", ":p"], [":id"]);
    TwoShortStatics();
    var a := Route(false, map["x" := LEAF]);
    var t := Route(false, map["a" := a, "b" := B]);
    AddWildLeaf(t, ":id");
    TwoSiblings(t, "a", "b");
    assert Merge(a, B).sub == map["x" := LEAF, WILD := LEAF];
  }

  lemma HarmlessBesideWildcard()
    ensures !WildOnly(Tree(HARMLESS)) && Shadowed(Tree(HARMLESS))
  {
    HarmlessTree();
    var node := Route(true, map["x" := LEAF, WILD := LEAF]);
    var t := Route(false, map[WILD := node]);
    assert "x" in node.sub.Keys && t.sub[WILD] == node;
    forall k | k in node.sub ensures ShadowsAt(node, k) && Shadowed(node.sub[k]) {
    }
    assert Shadowed(node) && ShadowsAt(t, WILD);
  }

  // The same routes with /:id added first: the check finds that conflict. The routes come from a map, so
  // which of the two happens depends on its order.
  lemma OrderDecidesTheCheck()
    ensures multiset(STATIC_FIRST) == multiset(WILDCARD_FIRST)
    ensures !Contains(Tree(STATIC_FIRST), ["c", "x"]) && Contains(Tree(WILDCARD_FIRST), ["c", "x"])
    ensures Shadowed(Tree(WILDCARD_FIRST))
  {
    MixedShapesMissConflict();
    WildcardFirstTree();
    assert ["c", "x"][1..] == ["x"] && ["x"][1..] == [];
    var t := Tree(WILDCARD_FIRST);
    ChainIsWildOnly();
    WildOnlyIsShadowed(t);
  }

  lemma ChainIsWildOnly()
    ensures WildOnly(Route(false, map[WILD := Route(true, map[WILD := Route(true, map["y" := LEAF])])]))
  {
    var y := Route(true, map["y" := LEAF]);
    assert y.sub.Keys == {"y"} && WildOnly(LEAF) && WildOnly(y);
    var w := Route(true, map[WILD := y]);
    assert w.sub.Keys == {WILD} && WildOnly(w);
  }
}
