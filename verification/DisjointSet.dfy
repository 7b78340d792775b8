/** The union-find of app/killchain.py: a parent table updated in place, with path compression. */
module DisjointSets {

  /** `x` after following the parent table `n` times. */
  ghost function Follow<T>(parent: map<T, T>, x: T, n: nat): T {
    if n == 0 || x !in parent then x else Follow(parent, parent[x], n - 1)
  }

  /** One element's links: `rep` is its root, and `dist` falls on the way there. */
  ghost predicate Node<T>(parent: map<T, T>, rep: map<T, T>, dist: map<T, nat>, x: T)
    requires rep.Keys == parent.Keys && dist.Keys == parent.Keys && x in parent
  {
    && parent[x] in parent && rep[x] in parent
    && rep[parent[x]] == rep[x]
    && (parent[x] == x <==> rep[x] == x)
    && parent[rep[x]] == rep[x]
    && (parent[x] != x ==> dist[parent[x]] < dist[x])
    && (rep[x] != x ==> dist[rep[x]] < dist[x])
  }

  /** `parent` is a forest whose roots are named by `rep`. */
  ghost predicate Forest<T(!new)>(parent: map<T, T>, rep: map<T, T>, dist: map<T, nat>) {
    && rep.Keys == parent.Keys && dist.Keys == parent.Keys
    && forall x {:trigger Node(parent, rep, dist, x)} :: x in parent ==> Node(parent, rep, dist, x)
  }

  /** The ghost `rep` is no free choice: it is where the parent links really end. */
  lemma {:induction false} RepIsEndOfParentLinks<T(!new)>(
    parent: map<T, T>, rep: map<T, T>, dist: map<T, nat>, x: T, n: nat)
    requires Forest(parent, rep, dist) && x in parent && dist[x] <= n
    ensures Follow(parent, x, n) == rep[x]
    decreases n
  {
    assert Node(parent, rep, dist, x);
    if parent[x] == x {
      FollowRoot(parent, x, n);
    } else {
      RepIsEndOfParentLinks(parent, rep, dist, parent[x], n - 1);
    }
  }

  lemma {:induction false} FollowRoot<T>(parent: map<T, T>, x: T, n: nat)
    requires x in parent && parent[x] == x
    ensures Follow(parent, x, n) == x
  {
    if n != 0 { FollowRoot(parent, x, n - 1); }
  }

  /** A fresh singleton tree. */
  lemma AddForest<T(!new)>(parent: map<T, T>, rep: map<T, T>, dist: map<T, nat>, x: T)
    requires Forest(parent, rep, dist) && x !in parent
    ensures Forest(parent[x := x], rep[x := x], dist[x := 0])
  {
    var p, r, d := parent[x := x], rep[x := x], dist[x := 0];
    forall y | y in p ensures Node(p, r, d, y) {
      if y != x { assert Node(parent, rep, dist, y); }
    }
  }

  /** Pointing an element straight at its root. */
  lemma CompressForest<T(!new)>(parent: map<T, T>, rep: map<T, T>, dist: map<T, nat>, x: T)
    requires Forest(parent, rep, dist) && x in parent
    ensures Forest(parent[x := rep[x]], rep, dist)
  {
    assert Node(parent, rep, dist, x);
    assert Node(parent, rep, dist, rep[x]);
    var p := parent[x := rep[x]];
    forall y | y in p ensures Node(p, rep, dist, y) {
      assert Node(parent, rep, dist, y);
      assert Node(parent, rep, dist, rep[y]);
    }
  }

  /** Every element answering `ra` now answers `rb`. */
  ghost function Merged<T>(rep: map<T, T>, ra: T, rb: T): map<T, T> {
    map x | x in rep :: if rep[x] == ra then rb else rep[x]
  }

  /** Hanging one root below another. */
  lemma LinkForest<T(!new)>(parent: map<T, T>, rep: map<T, T>, dist: map<T, nat>, ra: T, rb: T)
    returns (dist': map<T, nat>)
    requires Forest(parent, rep, dist) && ra in parent && rb in parent && ra != rb
    requires parent[ra] == ra && parent[rb] == rb
    ensures Forest(parent[ra := rb], Merged(rep, ra, rb), dist')
  {
    dist' := map x | x in dist :: if rep[x] == ra then dist[x] + dist[rb] + 1 else dist[x];
    var p, r := parent[ra := rb], Merged(rep, ra, rb);
    assert Node(parent, rep, dist, ra) && Node(parent, rep, dist, rb);
    forall y | y in p ensures Node(p, r, dist', y) {
      assert Node(parent, rep, dist, y);
      assert Node(parent, rep, dist, parent[y]);
      assert Node(parent, rep, dist, rep[y]);
    }
  }

  class DisjointSet<T(==,!new)> {
    var parent: map<T, T>
    ghost var rep: map<T, T>
    ghost var dist: map<T, nat>

    ghost predicate Valid()
      reads this
    {
      Forest(parent, rep, dist)
    }

    constructor ()
      ensures Valid() && parent == map[] && rep == map[]
    {
      parent, rep, dist := map[], map[], map[];
    }

    /** `setdefault(x, x)`: a known element is left where it is. */
    method Add(x: T)
      requires Valid()
      modifies this
      ensures Valid()
      ensures rep == if x in old(rep) then old(rep) else old(rep)[x := x]
      ensures parent == if x in old(parent) then old(parent) else old(parent)[x := x]
    {
      if x !in parent {
        AddForest(parent, rep, dist, x);
        parent, rep, dist := parent[x := x], rep[x := x], dist[x := 0];
      }
    }

    /** Compression rewrites links, never a representative. */
    method Find(x: T) returns (root: T)
      requires Valid() && x in parent
      modifies this
      ensures Valid() && rep == old(rep) && root == rep[x]
      ensures root in parent && parent[x] == root && parent[root] == root
      ensures parent.Keys == old(parent.Keys)
      ensures forall y :: y in parent ==> parent[y] == old(parent)[y] || parent[y] == rep[y]
    {
      root := x;
      assert Node(parent, rep, dist, x);
      while parent[root] != root
        invariant root in parent && rep[root] == rep[x]
        decreases dist[root]
      {
        assert Node(parent, rep, dist, root);
        root := parent[root];
      }
      assert Node(parent, rep, dist, root);
      var cur := x;
      while parent[cur] != root
        invariant Valid() && rep == old(rep) && dist == old(dist) && parent.Keys == old(parent.Keys)
        invariant cur in parent && rep[cur] == root && parent[root] == root
        invariant cur == x || parent[x] == root
        invariant forall y :: y in parent ==> parent[y] == old(parent)[y] || parent[y] == rep[y]
        decreases dist[cur]
      {
        assert Node(parent, rep, dist, cur);
        CompressForest(parent, rep, dist, cur);
        parent, cur := parent[cur := root], parent[cur];
      }
    }

    /** Merges two trees: afterwards every element of `a`'s tree answers with `b`'s root. */
    method Union(a: T, b: T)
      requires Valid() && a in parent && b in parent
      modifies this
      ensures Valid() && parent.Keys == old(parent.Keys)
      ensures rep == Merged(old(rep), old(rep)[a], old(rep)[b])
    {
      var ra := Find(a);
      var rb := Find(b);
      assert Node(parent, rep, dist, a) && Node(parent, rep, dist, b);
      if ra != rb {
        ghost var dist' := LinkForest(parent, rep, dist, ra, rb);
        parent := parent[ra := rb];
        dist := dist';
        rep := Merged(rep, ra, rb);
      } else {
        assert Merged(rep, ra, rb) == rep;
      }
    }
  }
}
