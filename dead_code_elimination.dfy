/** The name bookkeeping of the JavaScript dead-code eliminator. Every JavaScript value the eliminator
    tracks is a `FqnRoot` node of a union-find forest (union by rank, path compression); the root of a
    node's tree carries the local names and the qualifiers (`Fqn`s: a root plus a property path) the
    value is known by. `collectRootFqNames` walks the qualifiers back to unqualified roots, and the
    parent-chain loop of `apply` records, for every qualified name, the edges from its parent up. */
module DeadCodeElimination {
  import opened Sequences

  /** A JavaScript name, identified by its declaration. */
  type JsName = nat

  /** `Fqn(root, path)`: the value reached from the value of node `root` through the property names of
      `path`. Nodes are handles into the `FqnRoots` arena. */
  datatype Fqn = Fqn(root: nat, path: seq<string>)

  /** `child(name)` */
  function Child(f: Fqn, name: string): Fqn {
    Fqn(f.root, f.path + [name])
  }

  /** `parent()`: the path without its last name (`dropLast(1)`, which leaves an empty path empty). */
  function Parent(f: Fqn): Fqn {
    Fqn(f.root, if f.path == [] then [] else f.path[..|f.path| - 1])
  }

  /** `isRoot` */
  predicate IsRoot(f: Fqn) {
    f.path == []
  }

  /** `parent` undoes `child`, a root is its own parent, and any other name is the child of its parent
      by its last path element. */
  lemma ParentChild(f: Fqn, name: string)
    ensures Parent(Child(f, name)) == f && !IsRoot(Child(f, name))
    ensures IsRoot(f) <==> |f.path| == 0
    ensures IsRoot(f) ==> Parent(f) == f
    ensures !IsRoot(f) ==> |Parent(f).path| == |f.path| - 1 && Child(Parent(f), f.path[|f.path| - 1]) == f
  {
    assert (f.path + [name])[..|f.path|] == f.path;
  }

  /** The prefix of `f` with the first `k` names of its path. */
  function Ancestor(f: Fqn, k: nat): Fqn
    requires k <= |f.path|
  {
    Fqn(f.root, f.path[..k])
  }

  lemma AncestorOfParent(f: Fqn)
    requires !IsRoot(f)
    ensures Ancestor(f, |f.path|) == f && Ancestor(f, |f.path| - 1) == Parent(f)
    ensures forall k :: 0 <= k <= |f.path| - 1 ==> Ancestor(Parent(f), k) == Ancestor(f, k)
  {
    assert f.path[..|f.path|] == f.path;
  }

  // -----------------------------------------------------------------------------------------------
  // `MutableMap<K, MutableSet<V>>.add`

  /** The set `m` holds for `key`, empty when there is none. */
  function Lookup<K, V>(m: map<K, set<V>>, key: K): set<V> {
    if key in m then m[key] else {}
  }

  /** A `MutableMap<K, MutableSet<V>>`, with the `add(key, vararg values)` helper. */
  class SetMap<K(==), V(==)> {
    var entries: map<K, set<V>>

    constructor ()
      ensures entries == map[]
    {
      entries := map[];
    }

    /** `getOrPut(key, ::mutableSetOf).addAll(values)`: the key gets an entry, its set gains the values,
        and the answer is whether some value was not there before. */
    method Add(key: K, values: seq<V>) returns (changed: bool)
      modifies this
      ensures entries == old(entries)[key := Lookup(old(entries), key) + set v | v in values]
      ensures changed <==> exists v :: v in values && v !in Lookup(old(entries), key)
    {
      var s := Lookup(entries, key);
      var vs := set v | v in values;
      changed := !(vs <= s);
      entries := entries[key := s + vs];
    }
  }

  // -----------------------------------------------------------------------------------------------
  // The parent-chain loop of `apply`

  /** `c` is recorded as a child of `p` only when `p` is its parent. */
  predicate ChildEdge(p: Fqn, c: Fqn) {
    !IsRoot(c) && Parent(c) == p
  }

  /** Every recorded parent-to-child edge is one, and the edge into its parent is recorded too, except
      possibly for the edges out of `f`. */
  predicate ClosedExcept(m: map<Fqn, set<Fqn>>, f: Fqn) {
    forall q, c :: q in m && c in m[q] ==> ChildEdge(q, c) && (!IsRoot(q) && q != f ==> q in Lookup(m, Parent(q)))
  }

  /** The edge map is closed upwards: a recorded edge out of a name implies the edge into that name. */
  predicate Closed(m: map<Fqn, set<Fqn>>) {
    forall q, c :: q in m && c in m[q] ==> ChildEdge(q, c) && (!IsRoot(q) ==> q in Lookup(m, Parent(q)))
  }

  /** All edges along `f`'s path are recorded: from the root to the first name, and so on down to `f`. */
  predicate Recorded(m: map<Fqn, set<Fqn>>, f: Fqn) {
    forall k :: 0 <= k < |f.path| ==> Ancestor(f, k + 1) in Lookup(m, Ancestor(f, k))
  }

  /** The loop over one name: walk up from `f`, adding each name as a child of its parent, and stop at
      the first edge that was already there or at the root. */
  function AncestorEdges(m: map<Fqn, set<Fqn>>, f: Fqn): map<Fqn, set<Fqn>>
    decreases |f.path|
  {
    if IsRoot(f) then m
    else
      var p := Parent(f);
      if f in Lookup(m, p) then m else AncestorEdges(m[p := Lookup(m, p) + {f}], p)
  }

  /** The loop over all names, in order. */
  function AllAncestorEdges(m: map<Fqn, set<Fqn>>, fqns: seq<Fqn>): map<Fqn, set<Fqn>>
    decreases |fqns|
  {
    if fqns == [] then m else AncestorEdges(AllAncestorEdges(m, fqns[..|fqns| - 1]), fqns[|fqns| - 1])
  }

  /** `while (!currentFqn.isRoot) { ...; if (!childFqnMap.add(parent, currentFqn)) break; ... }` */
  method RecordAncestors(childFqnMap: SetMap<Fqn, Fqn>, fqn: Fqn)
    modifies childFqnMap
    ensures childFqnMap.entries == AncestorEdges(old(childFqnMap.entries), fqn)
  {
    var currentFqn := fqn;
    while !IsRoot(currentFqn)
      invariant AncestorEdges(childFqnMap.entries, currentFqn) == AncestorEdges(old(childFqnMap.entries), fqn)
      decreases |currentFqn.path|
    {
      var parent := Parent(currentFqn);
      ghost var before := childFqnMap.entries;
      var added := childFqnMap.Add(parent, [currentFqn]);
      assert (set v | v in [currentFqn]) == {currentFqn};
      if !added {
        assert Lookup(before, parent) + {currentFqn} == before[parent];
        assert childFqnMap.entries == before;
        break;
      }
      currentFqn := parent;
    }
  }

  /** `for (fqn in ...) { ... }`: the loop runs for each collected name in turn. */
  method RecordAllAncestors(childFqnMap: SetMap<Fqn, Fqn>, fqns: seq<Fqn>)
    modifies childFqnMap
    ensures childFqnMap.entries == AllAncestorEdges(old(childFqnMap.entries), fqns)
  {
    for i := 0 to |fqns|
      invariant childFqnMap.entries == AllAncestorEdges(old(childFqnMap.entries), fqns[..i])
    {
      assert fqns[..i + 1][..i] == fqns[..i];
      RecordAncestors(childFqnMap, fqns[i]);
    }
    assert fqns[..|fqns|] == fqns;
  }

  /** In a closed map, a recorded edge into `c` implies every edge along `c`'s path. */
  lemma {:induction false} ClosedChain(m: map<Fqn, set<Fqn>>, c: Fqn)
    requires Closed(m) && !IsRoot(c) && c in Lookup(m, Parent(c))
    ensures Recorded(m, c)
    decreases |c.path|
  {
    var p := Parent(c);
    AncestorOfParent(c);
    if !IsRoot(p) {
      assert p in Lookup(m, Parent(p));
      ClosedChain(m, p);
    }
    forall k | 0 <= k < |c.path|
      ensures Ancestor(c, k + 1) in Lookup(m, Ancestor(c, k))
    {
      if k + 1 < |c.path| {
        assert Ancestor(p, k + 1) in Lookup(m, Ancestor(p, k));
      }
    }
  }

  /** The loop only adds edges, and only the edges along `f`'s path. */
  lemma {:induction false} AncestorEdgesAdds(m: map<Fqn, set<Fqn>>, f: Fqn)
    ensures forall q :: Lookup(m, q) <= Lookup(AncestorEdges(m, f), q)
    ensures forall q, c :: c in Lookup(AncestorEdges(m, f), q) && c !in Lookup(m, q) ==>
              exists k :: 0 <= k < |f.path| && q == Ancestor(f, k) && c == Ancestor(f, k + 1)
    decreases |f.path|
  {
    if !IsRoot(f) {
      var p := Parent(f);
      if f !in Lookup(m, p) {
        var m' := m[p := Lookup(m, p) + {f}];
        AncestorEdgesAdds(m', p);
        AncestorOfParent(f);
        forall q, c | c in Lookup(AncestorEdges(m, f), q) && c !in Lookup(m, q)
          ensures exists k :: 0 <= k < |f.path| && q == Ancestor(f, k) && c == Ancestor(f, k + 1)
        {
          if c in Lookup(m', q) {
            assert q == p && c == f;
            assert q == Ancestor(f, |f.path| - 1) && c == Ancestor(f, |f.path| - 1 + 1);
          } else {
            var k :| 0 <= k < |p.path| && q == Ancestor(p, k) && c == Ancestor(p, k + 1);
            assert q == Ancestor(f, k) && c == Ancestor(f, k + 1);
          }
        }
      }
    }
  }

  /** Starting from a map that is closed except above `f`, the loop leaves it closed and with every edge
      along `f`'s path recorded: stopping at an edge that is already there loses nothing. */
  lemma {:induction false} AncestorEdgesClose(m: map<Fqn, set<Fqn>>, f: Fqn)
    requires ClosedExcept(m, f)
    ensures Closed(AncestorEdges(m, f)) && Recorded(AncestorEdges(m, f), f)
    decreases |f.path|
  {
    if IsRoot(f) {
      return;
    }
    var p := Parent(f);
    AncestorOfParent(f);
    if f in Lookup(m, p) {
      assert Closed(m);
      ClosedChain(m, f);
    } else {
      var m' := m[p := Lookup(m, p) + {f}];
      forall q, c | q in m' && c in m'[q]
        ensures ChildEdge(q, c) && (!IsRoot(q) && q != p ==> q in Lookup(m', Parent(q)))
      {
        if q == p && c == f {
        } else {
          assert q in m && c in m[q];
          if !IsRoot(q) && q != p && q != f {
            assert q in Lookup(m, Parent(q));
          }
        }
      }
      assert ClosedExcept(m', p);
      AncestorEdgesClose(m', p);
      var r := AncestorEdges(m', p);
      AncestorEdgesAdds(m', p);
      assert f in Lookup(r, p);
      forall k | 0 <= k < |f.path|
        ensures Ancestor(f, k + 1) in Lookup(r, Ancestor(f, k))
      {
        if k < |f.path| - 1 {
          assert Ancestor(p, k) == Ancestor(f, k) && Ancestor(p, k + 1) == Ancestor(f, k + 1);
        }
      }
    }
  }

  /** Run over a sequence of names from a closed map (the empty map is one), the loop keeps the map
      closed and records every edge along every name's path. */
  lemma {:induction false} AllAncestorsRecorded(m: map<Fqn, set<Fqn>>, fqns: seq<Fqn>)
    requires Closed(m)
    ensures Closed(AllAncestorEdges(m, fqns))
    ensures forall i :: 0 <= i < |fqns| ==> Recorded(AllAncestorEdges(m, fqns), fqns[i])
    decreases |fqns|
  {
    if fqns != [] {
      var init := fqns[..|fqns| - 1];
      var last := fqns[|fqns| - 1];
      AllAncestorsRecorded(m, init);
      var m0 := AllAncestorEdges(m, init);
      AncestorEdgesClose(m0, last);
      AncestorEdgesAdds(m0, last);
      forall i | 0 <= i < |fqns|
        ensures Recorded(AllAncestorEdges(m, fqns), fqns[i])
      {
        if i < |fqns| - 1 {
          assert fqns[i] == init[i];
          assert Recorded(m0, fqns[i]);
        }
      }
    }
  }

  // -----------------------------------------------------------------------------------------------
  // The union-find forest

  /** Every parent is a node, and ranks grow strictly from a node to its parent. */
  predicate Forest(parent: seq<nat>, rank: seq<nat>) {
    |rank| == |parent| &&
    forall x :: 0 <= x < |parent| ==> parent[x] < |parent| && (parent[x] != x ==> rank[x] < rank[parent[x]])
  }

  function MaxRank(rank: seq<nat>): (m: nat)
    ensures forall x :: 0 <= x < |rank| ==> rank[x] <= m
  {
    if rank == [] then 0
    else
      var m := MaxRank(rank[1..]);
      assert forall x :: 1 <= x < |rank| ==> rank[x] == rank[1..][x - 1];
      if rank[0] > m then rank[0] else m
  }

  /** The root of `x`'s tree, the representative that `original` returns: a node that is its own parent,
      and of strictly higher rank than `x` when `x` is not a root itself. */
  function Root(parent: seq<nat>, rank: seq<nat>, x: nat): (r: nat)
    requires Forest(parent, rank) && x < |parent|
    ensures r < |parent| && parent[r] == r
    ensures rank[x] <= rank[r] && (parent[x] != x ==> rank[x] < rank[r])
    decreases MaxRank(rank) - rank[x]
  {
    if parent[x] == x then x else Root(parent, rank, parent[x])
  }

  /** The representative of every node. */
  function RootsOf(parent: seq<nat>, rank: seq<nat>): (reps: seq<nat>)
    requires Forest(parent, rank)
    ensures |reps| == |parent|
    ensures forall x :: 0 <= x < |parent| ==> reps[x] == Root(parent, rank, x)
  {
    seq(|parent|, x requires 0 <= x < |parent| => Root(parent, rank, x))
  }

  /** Pointing `x` straight at its root (path compression) keeps the forest a forest and leaves every
      node's root where it was. */
  lemma {:induction false} CompressKeepsRoot(parent: seq<nat>, rank: seq<nat>, x: nat, y: nat)
    requires Forest(parent, rank) && x < |parent| && y < |parent|
    ensures Forest(parent[x := Root(parent, rank, x)], rank)
    ensures Root(parent[x := Root(parent, rank, x)], rank, y) == Root(parent, rank, y)
    decreases MaxRank(rank) - rank[y]
  {
    var r := Root(parent, rank, x);
    var p' := parent[x := r];
    assert Forest(p', rank);
    if y == x {
      if r != x {
        assert p'[r] == r;
        assert Root(p', rank, r) == r;
      }
    } else if parent[y] != y {
      CompressKeepsRoot(parent, rank, x, parent[y]);
    }
  }

  /** The rank of root `s` after root `l` is attached under it. */
  function LinkedRank(rank: seq<nat>, s: nat, l: nat): seq<nat>
    requires s < |rank| && l < |rank|
  {
    if rank[l] == rank[s] then rank[s := rank[s] + 1] else rank
  }

  /** Attaching root `l` under root `s` of no lower rank, with the rank of `s` raised on a tie, keeps the
      forest a forest; the nodes of `l`'s tree get root `s`, and every other node keeps its root. */
  lemma {:induction false} LinkRoots(parent: seq<nat>, rank: seq<nat>, s: nat, l: nat, z: nat)
    requires Forest(parent, rank) && s < |parent| && l < |parent| && z < |parent| && s != l
    requires parent[s] == s && parent[l] == l && rank[l] <= rank[s]
    ensures Forest(parent[l := s], LinkedRank(rank, s, l))
    ensures Root(parent[l := s], LinkedRank(rank, s, l), z)
            == if Root(parent, rank, z) == l then s else Root(parent, rank, z)
    decreases MaxRank(rank) - rank[z]
  {
    var p', r' := parent[l := s], LinkedRank(rank, s, l);
    assert forall x :: 0 <= x < |rank| ==> rank[x] <= r'[x];
    assert Forest(p', r');
    if z == l {
      assert Root(p', r', s) == s;
    } else if parent[z] != z {
      LinkRoots(parent, rank, s, l, parent[z]);
    }
  }

  /** Appending a new root keeps the forest a forest and every old node's root. */
  lemma {:induction false} ExtendKeepsRoot(parent: seq<nat>, rank: seq<nat>, y: nat)
    requires Forest(parent, rank) && y < |parent|
    ensures Forest(parent + [|parent|], rank + [0])
    ensures Root(parent + [|parent|], rank + [0], y) == Root(parent, rank, y)
    decreases MaxRank(rank) - rank[y]
  {
    var p', r' := parent + [|parent|], rank + [0];
    assert Forest(p', r');
    if parent[y] != y {
      ExtendKeepsRoot(parent, rank, parent[y]);
    }
  }

  lemma ExtendKeepsRoots(parent: seq<nat>, rank: seq<nat>)
    requires Forest(parent, rank)
    ensures Forest(parent + [|parent|], rank + [0])
    ensures forall y :: 0 <= y < |parent| ==> Root(parent + [|parent|], rank + [0], y) == Root(parent, rank, y)
  {
    assert Forest(parent + [|parent|], rank + [0]);
    forall y | 0 <= y < |parent|
      ensures Root(parent + [|parent|], rank + [0], y) == Root(parent, rank, y)
    {
      ExtendKeepsRoot(parent, rank, y);
    }
  }

  // -----------------------------------------------------------------------------------------------
  // `collectRootFqNames`

  /** The representative of each node, and the qualifiers of each node, naming nodes only. */
  predicate Resolved(reps: seq<nat>, quals: seq<seq<Fqn>>) {
    |quals| == |reps| && (forall x :: 0 <= x < |reps| ==> reps[x] < |reps|) &&
    forall x, q :: 0 <= x < |quals| && q in quals[x] ==> q.root < |reps|
  }

  /** The nodes of an arena of `n` nodes. */
  function Nodes(n: nat): (r: set<nat>)
    ensures forall x: nat :: x in r <==> x < n
  {
    if n == 0 then {} else Nodes(n - 1) + {n - 1}
  }

  lemma SubsetCard<T>(a: set<T>, b: set<T>)
    requires a <= b
    ensures |a| <= |b|
  {
    assert b == a + (b - a);
    assert a * (b - a) == {};
  }

  /** Visiting more nodes leaves no more of them unvisited, and visiting a new one leaves fewer. */
  lemma Unvisited(n: nat, v: set<nat>, w: set<nat>)
    requires v <= w
    ensures |Nodes(n) - w| <= |Nodes(n) - v|
    ensures (exists o :: o in w && o !in v && o < n) ==> |Nodes(n) - w| < |Nodes(n) - v|
  {
    SubsetCard(Nodes(n) - w, Nodes(n) - v);
    if o :| o in w && o !in v && o < n {
      assert o in Nodes(n);
      SubsetCard(Nodes(n) - w, (Nodes(n) - v) - {o});
      assert (Nodes(n) - v) == ((Nodes(n) - v) - {o}) + {o};
    }
  }

  /** What one call of `collectRootFqNamesImpl` leaves: whether its node's root was not yet visited, and
      the result and visited sets after it. */
  datatype Collected = Collected(entered: bool, result: set<Fqn>, visited: set<nat>)

  /** `collectRootFqNamesImpl(path, result, visited)` on node `x`: a root already visited answers
      `false`; otherwise it is marked visited, and a root without qualifiers adds `Fqn(root, path)`
      while a qualified one continues through each of its qualifiers in order. `asWritten` selects the
      fallback for a qualifier whose root was already visited (see `CollectQualifiers`). */
  function Collect(reps: seq<nat>, quals: seq<seq<Fqn>>, x: nat, path: seq<string>, result: set<Fqn>,
                   visited: set<nat>, asWritten: bool): (c: Collected)
    requires Resolved(reps, quals) && x < |reps| && visited <= Nodes(|reps|)
    ensures result <= c.result && visited <= c.visited <= Nodes(|reps|)
    ensures c.entered <==> reps[x] !in visited
    decreases |Nodes(|reps|) - visited|, 0
  {
    var original := reps[x];
    if original in visited then Collected(false, result, visited)
    else
      var v := visited + {original};
      assert original in Nodes(|reps|);
      Unvisited(|reps|, visited, v);
      if quals[original] == [] then Collected(true, result + {Fqn(original, path)}, v)
      else
        var (res, vis) := CollectQualifiers(reps, quals, quals[original], 0, path, result, v, asWritten);
        Collected(true, res, vis)
  }

  /** The loop over a root's qualifiers `(root, qualifierPath)`: each continues the walk at `root` with
      path `qualifierPath + path`; when `root` was already visited, the fallback name is added instead.
      As written the fallback is `Fqn(root, qualifierPath)`, which drops `path`; the corrected fallback
      is `Fqn(root, qualifierPath + path)`. */
  function CollectQualifiers(reps: seq<nat>, quals: seq<seq<Fqn>>, qs: seq<Fqn>, k: nat, path: seq<string>,
                             result: set<Fqn>, visited: set<nat>, asWritten: bool): (rv: (set<Fqn>, set<nat>))
    requires Resolved(reps, quals) && k <= |qs| && visited <= Nodes(|reps|)
    requires forall q :: q in qs ==> q.root < |reps|
    ensures result <= rv.0 && visited <= rv.1 <= Nodes(|reps|)
    decreases |Nodes(|reps|) - visited|, 1, |qs| - k
  {
    if k == |qs| then (result, visited)
    else
      var q := qs[k];
      var c := Collect(reps, quals, q.root, q.path + path, result, visited, asWritten);
      Unvisited(|reps|, visited, c.visited);
      var fallback := if asWritten then Fqn(q.root, q.path) else Fqn(q.root, q.path + path);
      var res := if c.entered then c.result else c.result + {fallback};
      CollectQualifiers(reps, quals, qs, k + 1, path, res, c.visited, asWritten)
  }

  /** `collectRootFqNames()` on node `x`: the alternative names of the value, as collected from an
      empty result and visited set with the fallback as written or corrected, or `{ Fqn(x, []) }` if
      the walk answered `false`. */
  function RootFqNames(reps: seq<nat>, quals: seq<seq<Fqn>>, x: nat, asWritten: bool): set<Fqn>
    requires Resolved(reps, quals) && x < |reps|
  {
    var c := Collect(reps, quals, x, [], {}, {}, asWritten);
    if c.entered then c.result else {Fqn(x, [])}
  }

  /** The walk from an empty visited set always starts at a root it has not visited, so the fallback
      `{ Fqn(x, []) }` of `collectRootFqNames` is never taken; and a value whose root has no qualifiers
      is known only by that root. */
  lemma RootFqNamesStart(reps: seq<nat>, quals: seq<seq<Fqn>>, x: nat, asWritten: bool)
    requires Resolved(reps, quals) && x < |reps|
    ensures RootFqNames(reps, quals, x, asWritten) == Collect(reps, quals, x, [], {}, {}, asWritten).result
    ensures quals[reps[x]] == [] ==> RootFqNames(reps, quals, x, asWritten) == {Fqn(reps[x], [])}
  {
  }

  /** With the corrected fallback, every name the walk adds ends with the path it was started with. */
  lemma {:induction false} CollectedPathsEndWithPath(reps: seq<nat>, quals: seq<seq<Fqn>>, x: nat, path: seq<string>,
                                                     result: set<Fqn>, visited: set<nat>)
    requires Resolved(reps, quals) && x < |reps| && visited <= Nodes(|reps|)
    ensures forall f :: f in Collect(reps, quals, x, path, result, visited, false).result && f !in result ==>
              EndsWith(f.path, path)
    decreases |Nodes(|reps|) - visited|, 0
  {
    var original := reps[x];
    if original !in visited {
      var v := visited + {original};
      assert original in Nodes(|reps|);
      Unvisited(|reps|, visited, v);
      if quals[original] == [] {
        assert path[0..] == path;
      } else {
        QualifierPathsEndWithPath(reps, quals, quals[original], 0, path, result, v);
      }
    }
  }

  lemma {:induction false} QualifierPathsEndWithPath(reps: seq<nat>, quals: seq<seq<Fqn>>, qs: seq<Fqn>, k: nat,
                                                     path: seq<string>, result: set<Fqn>, visited: set<nat>)
    requires Resolved(reps, quals) && k <= |qs| && visited <= Nodes(|reps|)
    requires forall q :: q in qs ==> q.root < |reps|
    ensures forall f :: f in CollectQualifiers(reps, quals, qs, k, path, result, visited, false).0 && f !in result ==>
              EndsWith(f.path, path)
    decreases |Nodes(|reps|) - visited|, 1, |qs| - k
  {
    if k < |qs| {
      var q := qs[k];
      var c := Collect(reps, quals, q.root, q.path + path, result, visited, false);
      Unvisited(|reps|, visited, c.visited);
      CollectedPathsEndWithPath(reps, quals, q.root, q.path + path, result, visited);
      var fallback := Fqn(q.root, q.path + path);
      var res := if c.entered then c.result else c.result + {fallback};
      QualifierPathsEndWithPath(reps, quals, qs, k + 1, path, res, c.visited);
      forall f | f in res && f !in result
        ensures EndsWith(f.path, path)
      {
        if f == fallback {
          assert f.path[|f.path| - |path|..] == path;
        } else {
          EndsWithAppend(f.path, q.path, path);
        }
      }
    }
  }

  /** A value qualified by itself (`x.p` is `x` again) is cut off by the visited set: its only
      alternative name is `x.p`. */
  lemma SelfQualified(reps: seq<nat>, quals: seq<seq<Fqn>>, x: nat, p: seq<string>, asWritten: bool)
    requires Resolved(reps, quals) && x < |reps|
    requires quals[reps[x]] == [Fqn(x, p)]
    ensures RootFqNames(reps, quals, x, asWritten) == {Fqn(x, p)}
  {
    var o := reps[x];
    var qs := quals[o];
    assert p + [] == p;
    assert Collect(reps, quals, x, p, {}, {o}, asWritten) == Collected(false, {}, {o});
    assert qs[0] == Fqn(x, p) && Fqn(x, p + []) == Fqn(x, p);
    var none: set<Fqn>, unvisited: set<nat> := {}, {};
    assert none + {Fqn(x, p)} == {Fqn(x, p)} && unvisited + {o} == {o};
    assert CollectQualifiers(reps, quals, qs, 1, [], {Fqn(x, p)}, {o}, asWritten) == ({Fqn(x, p)}, {o});
    assert CollectQualifiers(reps, quals, qs, 0, [], {}, {o}, asWritten) == ({Fqn(x, p)}, {o});
  }

  /** A diamond: node 0 is `a` of node 1, and node 1 is both `b` and `c` of node 2. The value of node 0
      is reached as `2.b.a` and as `2.c.a`; walked from node 1 with path `a`, the as-written fallback
      adds `2.c`, which names node 1 and does not end with `a`; the corrected walk adds `2.c.a`. */
  lemma DiamondDropsPath(reps: seq<nat>, quals: seq<seq<Fqn>>)
    requires reps == [0, 1, 2]
    requires quals == [[Fqn(1, ["a"])], [Fqn(2, ["b"]), Fqn(2, ["c"])], []]
    ensures Collect(reps, quals, 0, [], {}, {}, true).result == {Fqn(2, ["b", "a"]), Fqn(2, ["c"])}
    ensures Fqn(2, ["c"]) in Collect(reps, quals, 1, ["a"], {}, {0}, true).result && !EndsWith(["c"], ["a"])
    ensures RootFqNames(reps, quals, 0, true) == {Fqn(2, ["b", "a"]), Fqn(2, ["c"])}
    ensures RootFqNames(reps, quals, 0, false) == {Fqn(2, ["b", "a"]), Fqn(2, ["c", "a"])}
  {
    assert Resolved(reps, quals);
    assert reps[0] == 0 && reps[1] == 1 && reps[2] == 2;
    assert quals[2] == [] && quals[1] == [Fqn(2, ["b"]), Fqn(2, ["c"])] && quals[0] == [Fqn(1, ["a"])];
    assert ["b"] + ["a"] == ["b", "a"] && ["c"] + ["a"] == ["c", "a"] && ["a"] + [] == ["a"];
    var ba := Fqn(2, ["b", "a"]);
    assert Collect(reps, quals, 2, ["b", "a"], {}, {0, 1}, true) == Collected(true, {ba}, {0, 1, 2});
    assert Collect(reps, quals, 2, ["b", "a"], {}, {0, 1}, false) == Collected(true, {ba}, {0, 1, 2});
    assert Collect(reps, quals, 2, ["c", "a"], {ba}, {0, 1, 2}, true) == Collected(false, {ba}, {0, 1, 2});
    assert Collect(reps, quals, 2, ["c", "a"], {ba}, {0, 1, 2}, false) == Collected(false, {ba}, {0, 1, 2});
    var written := {ba, Fqn(2, ["c"])};
    var corrected := {ba, Fqn(2, ["c", "a"])};
    assert {ba} + {Fqn(2, ["c"])} == written && {ba} + {Fqn(2, ["c", "a"])} == corrected;
    var none: set<Fqn>, unvisited: set<nat>, first: set<nat> := {}, {}, {0, 1};
    assert none + {ba} == {ba} && first + {2} == {0, 1, 2} && unvisited + {0} == {0} && {0} + {1} == first;
    assert CollectQualifiers(reps, quals, quals[1], 2, ["a"], written, {0, 1, 2}, true) == (written, {0, 1, 2});
    assert CollectQualifiers(reps, quals, quals[1], 2, ["a"], corrected, {0, 1, 2}, false) == (corrected, {0, 1, 2});
    assert CollectQualifiers(reps, quals, quals[1], 1, ["a"], {ba}, {0, 1, 2}, true) == (written, {0, 1, 2});
    assert CollectQualifiers(reps, quals, quals[1], 1, ["a"], {ba}, {0, 1, 2}, false) == (corrected, {0, 1, 2});
    assert CollectQualifiers(reps, quals, quals[1], 0, ["a"], {}, {0, 1}, true) == (written, {0, 1, 2});
    assert CollectQualifiers(reps, quals, quals[1], 0, ["a"], {}, {0, 1}, false) == (corrected, {0, 1, 2});
    assert Collect(reps, quals, 1, ["a"], {}, {0}, true) == Collected(true, written, {0, 1, 2});
    assert Collect(reps, quals, 1, ["a"], {}, {0}, false) == Collected(true, corrected, {0, 1, 2});
    assert CollectQualifiers(reps, quals, quals[0], 1, [], written, {0, 1, 2}, true) == (written, {0, 1, 2});
    assert CollectQualifiers(reps, quals, quals[0], 1, [], corrected, {0, 1, 2}, false) == (corrected, {0, 1, 2});
    assert CollectQualifiers(reps, quals, quals[0], 0, [], {}, {0}, true) == (written, {0, 1, 2});
    assert CollectQualifiers(reps, quals, quals[0], 0, [], {}, {0}, false) == (corrected, {0, 1, 2});
    assert ["c"][1 - 1..] != ["a"];
  }

  // -----------------------------------------------------------------------------------------------
  // `FqnRoot`

  /** The `FqnRoot` objects, as an arena: node `x` has parent `parent[x]`, rank `rank[x]`, and the
      `localNamesImpl` and `qualifiersImpl` sets `localNames[x]` and `qualifiers[x]` (insertion-ordered,
      as Kotlin's `mutableSetOf`). Only a root's sets are read. */
  class FqnRoots {
    var parent: seq<nat>
    var rank: seq<nat>
    var localNames: seq<seq<JsName>>
    var qualifiers: seq<seq<Fqn>>

    predicate Valid()
      reads this
    {
      Forest(parent, rank) && |localNames| == |parent| && |qualifiers| == |parent| &&
      forall x, q :: 0 <= x < |qualifiers| && q in qualifiers[x] ==> q.root < |parent|
    }

    constructor ()
      ensures Valid() && parent == [] && rank == [] && localNames == [] && qualifiers == []
    {
      parent, rank, localNames, qualifiers := [], [], [], [];
    }

    /** `FqnRoot()`: a new node, its own root, of rank 0, with no names; every other node keeps its root. */
    method NewRoot() returns (x: nat)
      requires Valid()
      modifies this
      ensures Valid() && x == old(|parent|)
      ensures parent == old(parent) + [x] && rank == old(rank) + [0]
      ensures localNames == old(localNames) + [[]] && qualifiers == old(qualifiers) + [[]]
      ensures forall y :: 0 <= y < x ==> Root(parent, rank, y) == Root(old(parent), old(rank), y)
    {
      x := |parent|;
      ExtendKeepsRoots(parent, rank);
      forall y, q | 0 <= y < x + 1 && q in (qualifiers + [[]])[y]
        ensures q.root < x + 1
      {
        assert y < x && q in qualifiers[y];
      }
      parent, rank, localNames, qualifiers := parent + [x], rank + [0], localNames + [[]], qualifiers + [[]];
    }

    /** `original`: the root of `x`'s tree. On the way back every node on the path from `x` is pointed
        straight at the root; no node changes its root, and nothing but parents changes. */
    method Original(x: nat) returns (r: nat)
      requires Valid() && x < |parent|
      modifies this
      ensures Valid() && |parent| == old(|parent|)
      ensures r == Root(old(parent), old(rank), x) && parent[r] == r && parent[x] == r
      ensures RootsOf(parent, rank) == RootsOf(old(parent), old(rank))
      ensures forall y :: 0 <= y < |parent| ==> parent[y] == old(parent[y]) || parent[y] == r
      ensures rank == old(rank) && localNames == old(localNames) && qualifiers == old(qualifiers)
      decreases MaxRank(rank) - rank[x]
    {
      if parent[x] == x {
        return x;
      }
      ghost var p0 := parent;
      r := Original(parent[x]);
      assert r == Root(parent, rank, x);
      ghost var p1 := parent;
      forall y | 0 <= y < |parent|
        ensures Root(p1[x := r], rank, y) == Root(p1, rank, y)
      {
        CompressKeepsRoot(p1, rank, x, y);
      }
      CompressKeepsRoot(p1, rank, x, x);
      parent := parent[x := r];
      assert forall y :: 0 <= y < |parent| ==> RootsOf(parent, rank)[y] == RootsOf(p0, rank)[y];
    }

    /** `merge(other)`: the sets of `from` are added to those of `into`. */
    method Merge(into: nat, from: nat)
      requires into < |localNames| && from < |localNames| && |qualifiers| == |localNames|
      modifies this
      ensures localNames == old(localNames)[into := AddAll(old(localNames[into]), old(localNames[from]))]
      ensures qualifiers == old(qualifiers)[into := AddAll(old(qualifiers[into]), old(qualifiers[from]))]
      ensures parent == old(parent) && rank == old(rank)
    {
      localNames := localNames[into := AddAll(localNames[into], localNames[from])];
      qualifiers := qualifiers[into := AddAll(qualifiers[into], qualifiers[from])];
    }

    /** `union(other)`: afterwards `x` and `y` have one root. Two distinct roots are joined by rank: the
        lower-ranked root goes under the other, on a tie `y`'s root goes under `x`'s, whose rank grows
        by one; the survivor's sets gain the other root's. Two nodes already joined keep everything
        but the compressed paths. */
    method Union(x: nat, y: nat)
      requires Valid() && x < |parent| && y < |parent|
      modifies this
      ensures Valid() && |parent| == old(|parent|)
      ensures Root(parent, rank, x) == Root(parent, rank, y)
      ensures var a, b := Root(old(parent), old(rank), x), Root(old(parent), old(rank), y);
              var s := if old(rank[a]) < old(rank[b]) then b else a;
              var l := if s == a then b else a;
              Root(parent, rank, x) == s &&
              (forall z :: 0 <= z < |parent| ==>
                 Root(parent, rank, z) == if Root(old(parent), old(rank), z) == l then s else Root(old(parent), old(rank), z)) &&
              (a == b ==> rank == old(rank) && localNames == old(localNames) && qualifiers == old(qualifiers)) &&
              (a != b ==> rank == LinkedRank(old(rank), s, l) &&
                          localNames == old(localNames)[s := AddAll(old(localNames[s]), old(localNames[l]))] &&
                          qualifiers == old(qualifiers)[s := AddAll(old(qualifiers[s]), old(qualifiers[l]))])
    {
      ghost var p0 := parent;
      var a := Original(x);
      ghost var p1 := parent;
      var b := Original(y);
      assert b == RootsOf(p1, rank)[y] == RootsOf(p0, rank)[y];
      assert RootsOf(parent, rank)[a] == RootsOf(p1, rank)[a] == a;
      assert parent[a] == a;
      forall z | 0 <= z < |parent|
        ensures Root(parent, rank, z) == Root(p0, rank, z)
      {
        assert RootsOf(parent, rank)[z] == RootsOf(p0, rank)[z];
      }
      if a == b {
        return;
      }
      if rank[a] < rank[b] {
        Link(b, a);
      } else {
        Link(a, b);
      }
    }

    /** The joining step of `union` for two distinct roots: `l` goes under `s`, `s` merges `l`'s sets, and
        on a tie the rank of `s` grows by one (where `a.rank < b.rank` the ranks differ, so the source's
        tie test after both branches only ever fires in the second). */
    method Link(s: nat, l: nat)
      requires Valid() && s < |parent| && l < |parent| && s != l
      requires parent[s] == s && parent[l] == l && rank[l] <= rank[s]
      modifies this
      ensures Valid() && |parent| == old(|parent|)
      ensures parent == old(parent)[l := s] && rank == LinkedRank(old(rank), s, l)
      ensures localNames == old(localNames)[s := AddAll(old(localNames[s]), old(localNames[l]))]
      ensures qualifiers == old(qualifiers)[s := AddAll(old(qualifiers[s]), old(qualifiers[l]))]
      ensures forall z :: 0 <= z < |parent| ==>
                Root(parent, rank, z) == if Root(old(parent), old(rank), z) == l then s else Root(old(parent), old(rank), z)
    {
      ghost var p0, r0 := parent, rank;
      forall z | 0 <= z < |parent|
        ensures Root(p0[l := s], LinkedRank(r0, s, l), z) == if Root(p0, r0, z) == l then s else Root(p0, r0, z)
      {
        LinkRoots(p0, r0, s, l, z);
      }
      LinkRoots(p0, r0, s, l, s);
      parent := parent[l := s];
      Merge(s, l);
      if rank[l] == rank[s] {
        rank := rank[s := rank[s] + 1];
      }
      assert rank == LinkedRank(r0, s, l);
    }

    /** `localNames`: the local names of `x`'s root. */
    method LocalNames(x: nat) returns (names: seq<JsName>)
      requires Valid() && x < |parent|
      modifies this
      ensures Valid() && RootsOf(parent, rank) == RootsOf(old(parent), old(rank))
      ensures rank == old(rank) && localNames == old(localNames) && qualifiers == old(qualifiers)
      ensures names == localNames[Root(old(parent), old(rank), x)]
    {
      var r := Original(x);
      names := localNames[r];
    }

    /** `addLocalNames(names)`: only the local names of `x`'s root change, gaining `names`. */
    method AddLocalNames(x: nat, names: seq<JsName>)
      requires Valid() && x < |parent|
      modifies this
      ensures Valid() && RootsOf(parent, rank) == RootsOf(old(parent), old(rank))
      ensures rank == old(rank) && qualifiers == old(qualifiers)
      ensures var r := Root(old(parent), old(rank), x);
              localNames == old(localNames)[r := AddAll(old(localNames[r]), names)]
    {
      var r := Original(x);
      localNames := localNames[r := AddAll(localNames[r], names)];
    }

    /** `addQualifiers(qualifiers)`: only the qualifiers of `x`'s root change, gaining `qs`. */
    method AddQualifiers(x: nat, qs: seq<Fqn>)
      requires Valid() && x < |parent|
      requires forall q :: q in qs ==> q.root < |parent|
      modifies this
      ensures Valid() && RootsOf(parent, rank) == RootsOf(old(parent), old(rank))
      ensures rank == old(rank) && localNames == old(localNames)
      ensures var r := Root(old(parent), old(rank), x);
              qualifiers == old(qualifiers)[r := AddAll(old(qualifiers[r]), qs)]
    {
      var r := Original(x);
      qualifiers := qualifiers[r := AddAll(qualifiers[r], qs)];
    }

    /** `collectRootFqNamesImpl(path, result, visited)` on node `x`, with the fallback for an already
        visited qualifier root as written (`asWritten`) or corrected. */
    method CollectRootFqNamesImpl(x: nat, path: seq<string>, result: set<Fqn>, visited: set<nat>, asWritten: bool)
      returns (entered: bool, result': set<Fqn>, visited': set<nat>)
      requires Valid() && x < |parent| && visited <= Nodes(|parent|)
      modifies this
      ensures Valid() && RootsOf(parent, rank) == RootsOf(old(parent), old(rank))
      ensures rank == old(rank) && localNames == old(localNames) && qualifiers == old(qualifiers)
      ensures Collected(entered, result', visited')
           == Collect(RootsOf(old(parent), old(rank)), qualifiers, x, path, result, visited, asWritten)
      decreases |Nodes(|parent|) - visited|, 0
    {
      ghost var reps := RootsOf(parent, rank);
      assert Resolved(reps, qualifiers);
      var original := Original(x);
      if original in visited {
        return false, result, visited;
      }
      entered := true;
      visited' := visited + {original};
      assert original in Nodes(|parent|);
      Unvisited(|parent|, visited, visited');
      result' := result;
      if qualifiers[original] == [] {
        result' := result' + {Fqn(original, path)};
        return;
      }
      var qs := qualifiers[original];
      for k := 0 to |qs|
        invariant Valid() && RootsOf(parent, rank) == reps && |parent| == |reps|
        invariant rank == old(rank) && localNames == old(localNames) && qualifiers == old(qualifiers)
        invariant visited + {original} <= visited' <= Nodes(|parent|)
        invariant CollectQualifiers(reps, qualifiers, qs, k, path, result', visited', asWritten)
                  == CollectQualifiers(reps, qualifiers, qs, 0, path, result, visited + {original}, asWritten)
      {
        var q := qs[k];
        assert q in qualifiers[original];
        Unvisited(|parent|, visited, visited');
        var f, r2, v2 := CollectRootFqNamesImpl(q.root, q.path + path, result', visited', asWritten);
        var fallback := if asWritten then Fqn(q.root, q.path) else Fqn(q.root, q.path + path);
        result' := if f then r2 else r2 + {fallback};
        visited' := v2;
      }
    }

    /** `collectRootFqNames()` on node `x`. */
    method CollectRootFqNames(x: nat, asWritten: bool) returns (names: set<Fqn>)
      requires Valid() && x < |parent|
      modifies this
      ensures Valid() && RootsOf(parent, rank) == RootsOf(old(parent), old(rank))
      ensures rank == old(rank) && localNames == old(localNames) && qualifiers == old(qualifiers)
      ensures names == RootFqNames(RootsOf(old(parent), old(rank)), qualifiers, x, asWritten)
    {
      var entered, result, visited := CollectRootFqNamesImpl(x, [], {}, {}, asWritten);
      if entered {
        names := result;
      } else {
        names := {Fqn(x, [])};
      }
    }

    /** `Fqn.collectRootFqNames()`: the alternative names of `f`'s root, each extended by `f`'s path. */
    method CollectFqnRootFqNames(f: Fqn, asWritten: bool) returns (names: set<Fqn>)
      requires Valid() && f.root < |parent|
      modifies this
      ensures Valid() && RootsOf(parent, rank) == RootsOf(old(parent), old(rank))
      ensures rank == old(rank) && localNames == old(localNames) && qualifiers == old(qualifiers)
      ensures names == set b | b in RootFqNames(RootsOf(old(parent), old(rank)), qualifiers, f.root, asWritten)
                             :: Fqn(b.root, b.path + f.path)
    {
      var bases := CollectRootFqNames(f.root, asWritten);
      names := set b | b in bases :: Fqn(b.root, b.path + f.path);
    }
  }
}
