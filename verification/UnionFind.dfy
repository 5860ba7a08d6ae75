/** Union-find with path compression and its cluster numbering (`src/index.rs:454-515`). */
module UnionFinds {
  /** A parent table without cycles: every step up lowers the rank. */
  ghost predicate Ranked(parent: seq<nat>, rank: seq<nat>) {
    && |rank| == |parent|
    && forall i :: 0 <= i < |parent| ==>
         parent[i] < |parent| && (parent[i] != i ==> rank[parent[i]] < rank[i])
  }

  ghost predicate Forest(parent: seq<nat>) {
    exists rank: seq<nat> :: Ranked(parent, rank)
  }

  /** Where following parents from `i` ends. */
  ghost function Root(parent: seq<nat>, rank: seq<nat>, i: nat): (r: nat)
    requires Ranked(parent, rank) && i < |parent|
    ensures r < |parent| && parent[r] == r && rank[r] <= rank[i]
    ensures r != i ==> rank[r] < rank[i]
    decreases rank[i]
  {
    if parent[i] == i then i else Root(parent, rank, parent[i])
  }

  /** Following parents from `i` comes past `j`. */
  ghost predicate OnPath(parent: seq<nat>, rank: seq<nat>, i: nat, j: nat)
    requires Ranked(parent, rank) && i < |parent|
    decreases rank[i]
  {
    i == j || (parent[i] != i && OnPath(parent, rank, parent[i], j))
  }

  /** Pointing one element straight at its root moves nobody. */
  lemma {:induction false} CompressKeepsRoots(parent: seq<nat>, rank: seq<nat>, at: nat, i: nat)
    requires Ranked(parent, rank) && at < |parent| && i < |parent|
    ensures Ranked(parent[at := Root(parent, rank, at)], rank)
    ensures Root(parent[at := Root(parent, rank, at)], rank, i) == Root(parent, rank, i)
    decreases rank[i]
  {
    var q := parent[at := Root(parent, rank, at)];
    if i == at {
      assert q[q[at]] == q[at];
    } else if parent[i] != i {
      CompressKeepsRoots(parent, rank, at, parent[i]);
    }
  }

  /** `q` is `p` with some elements pointed straight at their roots. */
  ghost predicate Compressed(p: seq<nat>, q: seq<nat>, rank: seq<nat>)
    requires Ranked(p, rank)
  {
    && Ranked(q, rank)
    && forall i :: 0 <= i < |p| ==>
         (q[i] == p[i] || q[i] == Root(p, rank, i)) && Root(q, rank, i) == Root(p, rank, i)
  }

  lemma CompressedTrans(p: seq<nat>, q: seq<nat>, r: seq<nat>, rank: seq<nat>)
    requires Ranked(p, rank) && Compressed(p, q, rank) && Compressed(q, r, rank)
    ensures Compressed(p, r, rank)
  {
  }

  /** How many of the first `k` elements are roots. */
  ghost function RootCount(parent: seq<nat>, k: nat): nat
    requires k <= |parent|
  {
    if k == 0 then 0 else RootCount(parent, k - 1) + (if parent[k - 1] == k - 1 then 1 else 0)
  }

  lemma {:induction false} RootCountMonotone(parent: seq<nat>, j: nat, k: nat)
    requires j <= k <= |parent|
    ensures RootCount(parent, j) <= RootCount(parent, k)
    decreases k
  {
    if j < k { RootCountMonotone(parent, j, k - 1); }
  }

  /** Lower roots get lower numbers. */
  lemma RootNumbersIncrease(parent: seq<nat>, r: nat, k: nat)
    requires r < k <= |parent| && parent[r] == r
    ensures RootCount(parent, r) < RootCount(parent, k)
  {
    RootCountMonotone(parent, r + 1, k);
  }

  /** Every number below the count belongs to a root. */
  lemma {:induction false} NumberHasRoot(parent: seq<nat>, c: nat, k: nat) returns (r: nat)
    requires k <= |parent| && c < RootCount(parent, k)
    ensures r < k && parent[r] == r && RootCount(parent, r) == c
    decreases k
  {
    if c < RootCount(parent, k - 1) {
      r := NumberHasRoot(parent, c, k - 1);
    } else {
      r := k - 1;
    }
  }

  /** Every element points straight at a root. */
  ghost predicate Flat(parent: seq<nat>) {
    forall i :: 0 <= i < |parent| ==> parent[i] < |parent| && parent[parent[i]] == parent[i]
  }

  /** Two elements share a number exactly when they share a root; the numbers are `0..count`, and
      grow with the roots. */
  ghost predicate IsNumbering(roots: seq<nat>, map_: seq<nat>, count: nat) {
    && |map_| == |roots|
    && (forall i, j :: 0 <= i < |map_| && 0 <= j < |map_| ==> (map_[i] == map_[j] <==> roots[i] == roots[j]))
    && (forall i, j :: 0 <= i < |map_| && 0 <= j < |map_| && roots[i] < roots[j] ==> map_[i] < map_[j])
    && (forall c: nat :: c in map_ <==> c < count)
  }

  /** The two numbering loops; the second rewrites the table it reads (`src/index.rs:493-514`). */
  method Number(parent: seq<nat>) returns (map_: seq<nat>, count: nat)
    requires Flat(parent)
    ensures IsNumbering(parent, map_, count)
  {
    map_ := seq(|parent|, _ => 0);
    count := 0;
    for i := 0 to |parent|
      invariant |map_| == |parent| && count == RootCount(parent, i)
      invariant forall j :: 0 <= j < i && parent[j] == j ==> map_[j] == RootCount(parent, j)
    {
      if parent[i] == i {
        map_ := map_[i := count];
        count := count + 1;
      }
    }
    for i := 0 to |parent|
      invariant |map_| == |parent|
      invariant forall j :: 0 <= j < i ==> map_[j] == RootCount(parent, parent[j])
      invariant forall j :: 0 <= j < |parent| && parent[j] == j ==> map_[j] == RootCount(parent, j)
    {
      map_ := map_[i := map_[parent[i]]];
    }
    CountsNumber(parent, map_);
  }

  lemma CountsNumber(parent: seq<nat>, map_: seq<nat>)
    requires Flat(parent) && |map_| == |parent|
    requires forall j :: 0 <= j < |parent| ==> map_[j] == RootCount(parent, parent[j])
    ensures IsNumbering(parent, map_, RootCount(parent, |parent|))
  {
    forall i, j | 0 <= i < |map_| && 0 <= j < |map_| && parent[i] < parent[j] ensures map_[i] < map_[j] {
      RootNumbersIncrease(parent, parent[i], parent[j]);
    }
    forall c: nat ensures c in map_ <==> c < RootCount(parent, |parent|) {
      if c in map_ {
        var i :| 0 <= i < |map_| && map_[i] == c;
        RootNumbersIncrease(parent, parent[i], |parent|);
      }
      if c < RootCount(parent, |parent|) {
        var r := NumberHasRoot(parent, c, |parent|);
        assert map_[r] == c;
      }
    }
  }

  class UnionFind {
    var parent: seq<nat>
    ghost var rank: seq<nat>

    ghost predicate Valid()
      reads this
    {
      Ranked(parent, rank)
    }

    ghost function RootOf(i: nat): nat
      requires Valid() && i < |parent|
      reads this
    {
      Root(parent, rank, i)
    }

    constructor FromRaw(raw: seq<nat>)
      requires Forest(raw)
      ensures Valid() && parent == raw
    {
      ghost var r: seq<nat> :| Ranked(raw, r);
      parent, rank := raw, r;
    }

    /** Finds the root, and points everything on the way straight at it. */
    method FindRoot(idx: nat) returns (root: nat)
      requires Valid() && idx < |parent|
      modifies this`parent
      ensures Valid() && Compressed(old(parent), parent, rank)
      ensures root == old(RootOf(idx)) == parent[idx]
      ensures forall j :: 0 <= j < |parent| ==>
        parent[j] == if OnPath(old(parent), rank, idx, j) then root else old(parent)[j]
      decreases rank[idx]
    {
      var p := parent[idx];
      if p == idx {
        return idx;
      }
      root := FindRoot(p);
      ghost var mid := parent;
      assert Root(mid, rank, idx) == root;
      forall i | 0 <= i < |mid|
        ensures Ranked(mid[idx := root], rank) && Root(mid[idx := root], rank, i) == Root(mid, rank, i)
      {
        CompressKeepsRoots(mid, rank, idx, i);
      }
      parent := parent[idx := root];
      assert Compressed(mid, parent, rank);
      CompressedTrans(old(parent), mid, parent, rank);
    }

    /** Numbers the clusters densely, in the order of their roots. */
    method ClusterMap() returns (map_: seq<nat>, count: nat)
      requires Valid()
      modifies this`parent
      ensures Valid() && Compressed(old(parent), parent, rank)
      ensures forall i :: 0 <= i < |parent| ==> parent[i] == old(RootOf(i))
      ensures IsNumbering(parent, map_, count)
    {
      CompressAll();
      map_, count := Number(parent);
    }

    /** Points every element at its root (`src/index.rs:496-499`). */
    method CompressAll()
      requires Valid()
      modifies this`parent
      ensures Valid() && Compressed(old(parent), parent, rank)
      ensures forall i :: 0 <= i < |parent| ==> parent[i] == old(RootOf(i)) && parent[parent[i]] == parent[i]
    {
      ghost var start := parent;
      for i := 0 to |parent|
        invariant Valid() && Compressed(start, parent, rank)
        invariant forall j :: 0 <= j < i ==> parent[j] == Root(start, rank, j)
      {
        ghost var before := parent;
        var root := FindRoot(i);
        CompressedTrans(start, before, parent, rank);
      }
      forall i | 0 <= i < |parent| ensures parent[parent[i]] == parent[i] {
        assert Root(parent, rank, parent[i]) == parent[i];
      }
    }
  }
}
