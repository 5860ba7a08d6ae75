/** The transitive reduction over a solved order of `src/graph.rs:438-478`. */
module TransitiveReduction {
  import opened Relations
  import opened Sequences
  import opened TopologicalSort

  /** What the reduction asks of its inputs: an order of the nodes in which every edge goes
      forward, except that an edge may lead back to its own node.  The compiler passes atom graphs
      with such self-edges (`src/compiler.rs:288-310`). */
  ghost predicate Solved(r: Rel, t: TopologicalOrder) {
    && IsListing(t, |r|)
    && forall u: nat, v: nat :: Edge(r, u, v) ==> u < |r| && v < |r| && (u == v || t.map_[u] < t.map_[v])
  }

  /** `w` lies strictly between `u` and `v`. */
  ghost predicate Between(r: Rel, u: nat, w: nat, v: nat) {
    w != u && w != v && Reach(r, u, w) && Reach(r, w, v)
  }

  /** No detour from `u` to `v`: nothing lies strictly between them. */
  ghost predicate Direct(r: Rel, u: nat, v: nat) {
    forall w: nat :: !Between(r, u, w, v)
  }

  /** `q` keeps exactly the edges of `r` that no other walk makes redundant. */
  ghost predicate IsReduction(r: Rel, q: Rel) {
    && |q| == |r|
    && forall u: nat, v: nat :: Edge(q, u, v) <==> Edge(r, u, v) && (u == v || Direct(r, u, v))
  }

  // ----- what such a graph is worth

  lemma SolvedForward(r: Rel, t: TopologicalOrder, u: nat, v: nat)
    requires Solved(r, t) && Reach(r, u, v)
    ensures u < |r| && v < |r| && (u == v || t.map_[u] < t.map_[v])
  {
    ReachForward(r, t.map_, u, v);
  }

  /** Only a self-edge leads from a node back to itself. */
  lemma SelfReachIsEdge(r: Rel, t: TopologicalOrder, u: nat)
    requires Solved(r, t) && Reach(r, u, u)
    ensures Edge(r, u, u)
  {
    var w := ReachFirst(r, u, u);
    if w != u {
      SolvedForward(r, t, w, u);
      EdgeReach(r, u, w);
      SolvedForward(r, t, u, w);
    }
  }

  /** A walk to another node leaves `u` for good through some other successor. */
  lemma {:induction false} FirstOtherStep(r: Rel, n: nat, u: nat, v: nat) returns (w: nat)
    requires u != v && Steps(r, n, u, v)
    ensures w != u && Edge(r, u, w) && ReachRefl(r, w, v)
    decreases n
  {
    w :| Edge(r, u, w) && Steps(r, n - 1, w, v);
    if w == u {
      w := FirstOtherStep(r, n - 1, u, v);
    } else if n > 1 {
      assert Reach(r, w, v);
    }
  }

  /** An edge with a detour has one through an edge of `u` itself. */
  lemma DetourFirst(r: Rel, t: TopologicalOrder, u: nat, w: nat, v: nat) returns (x: nat)
    requires Solved(r, t) && Between(r, u, w, v)
    ensures Edge(r, u, x) && Between(r, u, x, v)
  {
    var n: nat :| n > 0 && Steps(r, n, u, w);
    x := FirstOtherStep(r, n, u, w);
    EdgeReach(r, u, x);
    ReachReflTrans(r, x, w, v);
    SolvedForward(r, t, w, v);
    if x != w { SolvedForward(r, t, x, w); }
  }

  /** Every edge of `r` is still a walk in its reduction. */
  lemma {:induction false} EdgeKept(r: Rel, q: Rel, t: TopologicalOrder, u: nat, v: nat)
    requires Solved(r, t) && IsReduction(r, q) && Reach(r, u, v)
    ensures u < |r| && v < |r| && Reach(q, u, v)
    decreases if u < |r| && v < |r| && t.map_[v] >= t.map_[u] then t.map_[v] - t.map_[u] else 0
  {
    SolvedForward(r, t, u, v);
    if u == v {
      SelfReachIsEdge(r, t, u);
      EdgeReach(q, u, u);
    } else if Direct(r, u, v) {
      var n: nat :| n > 0 && Steps(r, n, u, v);
      var w := FirstOtherStep(r, n, u, v);
      EdgeReach(r, u, w);
      if w != v { assert Between(r, u, w, v); }
      EdgeReach(q, u, v);
    } else {
      var w: nat :| Between(r, u, w, v);
      SolvedForward(r, t, u, w);
      SolvedForward(r, t, w, v);
      EdgeKept(r, q, t, u, w);
      EdgeKept(r, q, t, w, v);
      ReachTrans(q, u, w, v);
    }
  }

  /** The reduction reaches exactly what the graph reaches. */
  lemma ReductionReach(r: Rel, q: Rel, t: TopologicalOrder, u: nat, v: nat)
    requires Solved(r, t) && IsReduction(r, q)
    ensures Reach(q, u, v) <==> Reach(r, u, v)
  {
    if Reach(q, u, v) {
      ReachMonotone(q, r, u, v);
    }
    if Reach(r, u, v) {
      EdgeKept(r, q, t, u, v);
    }
  }

  /** Any graph with the same reachability has all the edges of the reduction, so the reduction is
      the unique smallest one. */
  lemma ReductionLeast(r: Rel, q: Rel, t: TopologicalOrder, h: Rel, u: nat, v: nat)
    requires Solved(r, t) && IsReduction(r, q)
    requires forall x: nat, y: nat :: Reach(h, x, y) <==> Reach(r, x, y)
    requires Edge(q, u, v)
    ensures Edge(h, u, v)
  {
    EdgeReach(r, u, v);
    var n: nat :| n > 0 && Steps(h, n, u, v);
    StepWithin(r, t, h, n, u, v);
  }

  lemma {:induction false} StepWithin(r: Rel, t: TopologicalOrder, h: Rel, n: nat, u: nat, v: nat)
    requires Solved(r, t) && (u == v || Direct(r, u, v))
    requires forall x: nat, y: nat :: Reach(h, x, y) <==> Reach(r, x, y)
    requires n > 0 && Steps(h, n, u, v)
    ensures Edge(h, u, v)
    decreases n
  {
    var w: nat :| Edge(h, u, w) && Steps(h, n - 1, w, v);
    EdgeReach(h, u, w);
    if n > 1 && w == u {
      StepWithin(r, t, h, n - 1, u, v);
    } else if n > 1 && w != v {
      assert Reach(h, w, v);
      if u == v {
        SolvedForward(r, t, u, w);
        SolvedForward(r, t, w, u);
      } else {
        assert Between(r, u, w, v);
      }
    }
  }

  // ----- the algorithm

  /** `covered` after the first `i` of `from`'s sorted successors: those nodes and what they reach.
      `from` itself has nothing recorded yet. */
  ghost predicate Covers(r: Rel, from: nat, successors: seq<nat>, i: nat, x: nat)
    requires i <= |successors|
  {
    exists j :: 0 <= j < i && (successors[j] == x || (successors[j] != from && Reach(r, successors[j], x)))
  }

  /** Merges one successor into the covered nodes (`src/graph.rs:466-471`). */
  method Cover(covered: seq<bool>, to: nat, row: seq<bool>) returns (result: seq<bool>)
    requires to < |covered| == |row|
    ensures |result| == |covered|
    ensures forall x :: 0 <= x < |covered| ==> result[x] == (covered[x] || x == to || row[x])
  {
    result := covered[to := true];
    for index := 0 to |row|
      invariant |result| == |covered|
      invariant forall x :: 0 <= x < |covered| ==> result[x] == (covered[x] || x == to || (x < index && row[x]))
    {
      result := result[index := result[index] || row[index]];
    }
  }

  /** A successor is redundant exactly when it is covered by an earlier one. */
  lemma CoveredIsRedundant(r: Rel, t: TopologicalOrder, from: nat, successors: seq<nat>, i: nat)
    requires Solved(r, t) && from < |r|
    requires forall x: nat :: x in successors <==> Edge(r, from, x)
    requires StrictlySortedBy(successors, t.map_) && i < |successors|
    ensures Covers(r, from, successors, i, successors[i]) <==> !(from == successors[i] || Direct(r, from, successors[i]))
  {
    var to := successors[i];
    assert to in successors;
    if Covers(r, from, successors, i, to) {
      var j :| 0 <= j < i && (successors[j] == to || (successors[j] != from && Reach(r, successors[j], to)));
      var w := successors[j];
      assert w in successors;
      EdgeReach(r, from, w);
      assert t.map_[w] < t.map_[to];
      assert Between(r, from, w, to);
    }
    if from != to && !Direct(r, from, to) {
      CoveredByDetour(r, t, from, successors, i);
    }
  }

  lemma CoveredByDetour(r: Rel, t: TopologicalOrder, from: nat, successors: seq<nat>, i: nat)
    requires Solved(r, t) && from < |r|
    requires forall x: nat :: x in successors <==> Edge(r, from, x)
    requires StrictlySortedBy(successors, t.map_) && i < |successors|
    requires !Direct(r, from, successors[i])
    ensures Covers(r, from, successors, i, successors[i])
  {
    var to := successors[i];
    var w: nat :| Between(r, from, w, to);
    var x := DetourFirst(r, t, from, w, to);
    SolvedForward(r, t, x, to);
    var j :| 0 <= j < |successors| && successors[j] == x;
    assert j < i;
  }

  /** Skipping a covered successor loses nothing; keeping one adds it and what it reaches. */
  ghost predicate CoversGrows(r: Rel, from: nat, successors: seq<nat>, i: nat, x: nat)
    requires i < |successors|
  {
    var to := successors[i];
    && (Covers(r, from, successors, i + 1, x) <==>
          Covers(r, from, successors, i, x) || to == x || (to != from && Reach(r, to, x)))
    && (Covers(r, from, successors, i, to) && from != to ==>
          (Covers(r, from, successors, i + 1, x) <==> Covers(r, from, successors, i, x)))
  }

  lemma CoversNext(r: Rel, from: nat, successors: seq<nat>, i: nat, x: nat)
    requires i < |successors|
    ensures CoversGrows(r, from, successors, i, x)
  {
    if Covers(r, from, successors, i, successors[i]) && from != successors[i] && Reach(r, successors[i], x) {
      var j :| 0 <= j < i && (successors[j] == successors[i] || (successors[j] != from && Reach(r, successors[j], successors[i])));
      if successors[j] != successors[i] {
        ReachTrans(r, successors[j], successors[i], x);
      }
    }
  }

  /** All successors together cover exactly what `from` reaches. */
  lemma CoversAll(r: Rel, t: TopologicalOrder, from: nat, successors: seq<nat>, x: nat)
    requires Solved(r, t) && from < |r|
    requires forall y: nat :: y in successors <==> Edge(r, from, y)
    ensures Covers(r, from, successors, |successors|, x) <==> Reach(r, from, x)
  {
    if Covers(r, from, successors, |successors|, x) {
      var j :| 0 <= j < |successors| && (successors[j] == x || (successors[j] != from && Reach(r, successors[j], x)));
      assert successors[j] in successors;
      EdgeThenReach(r, from, successors[j], x);
    }
    if Reach(r, from, x) {
      var n: nat :| n > 0 && Steps(r, n, from, x);
      var w: nat;
      if from == x {
        SelfReachIsEdge(r, t, from);
        w := from;
      } else {
        w := FirstOtherStep(r, n, from, x);
      }
      var j :| 0 <= j < |successors| && successors[j] == w;
    }
  }

  /** The edges kept among the first `i` successors: the self-edge and those nothing runs around. */
  ghost predicate KeptOf(r: Rel, t: TopologicalOrder, from: nat, successors: seq<nat>, i: nat, kept: seq<nat>)
    requires i <= |successors|
  {
    && StrictlySortedBy(kept, t.map_)
    && forall v: nat :: v in kept <==> v in successors[..i] && (from == v || Direct(r, from, v))
  }

  lemma KeptNext(r: Rel, t: TopologicalOrder, from: nat, successors: seq<nat>, i: nat, kept: seq<nat>)
    requires Solved(r, t) && from < |r|
    requires forall x: nat :: x in successors <==> Edge(r, from, x)
    requires StrictlySortedBy(successors, t.map_) && i < |successors|
    requires KeptOf(r, t, from, successors, i, kept)
    ensures KeptOf(r, t, from, successors, i + 1,
      if Covers(r, from, successors, i, successors[i]) then kept else kept + [successors[i]])
  {
    var to := successors[i];
    assert to !in successors[..i];
    forall v: nat | v in kept ensures v < |t.map_| && t.map_[v] < t.map_[to] {
      var j :| 0 <= j < i && successors[..i][j] == v;
    }
    assert forall k :: 0 <= k < |kept| ==> kept[k] in kept;
    CoveredIsRedundant(r, t, from, successors, i);
    assert successors[..i + 1] == successors[..i] + [to];
    assert forall v: nat :: v in kept + [to] <==> v in kept || v == to;
  }

  /** `covered` records what the first `i` successors cover. */
  ghost predicate RowOf(r: Rel, from: nat, successors: seq<nat>, i: nat, row: seq<bool>)
    requires i <= |successors|
  {
    |row| == |r| && forall x :: 0 <= x < |r| ==> (row[x] <==> Covers(r, from, successors, i, x))
  }

  lemma RowSkips(r: Rel, from: nat, successors: seq<nat>, i: nat, row: seq<bool>)
    requires i < |successors| && RowOf(r, from, successors, i, row)
    requires Covers(r, from, successors, i, successors[i]) && from != successors[i]
    ensures RowOf(r, from, successors, i + 1, row)
  {
    forall x | 0 <= x < |r| ensures row[x] <==> Covers(r, from, successors, i + 1, x) {
      CoversNext(r, from, successors, i, x);
    }
  }

  lemma RowGrows(r: Rel, from: nat, successors: seq<nat>, i: nat, row: seq<bool>, more: seq<bool>, next: seq<bool>)
    requires i < |successors| && RowOf(r, from, successors, i, row)
    requires |more| == |next| == |r|
    requires forall x :: 0 <= x < |r| ==> (more[x] <==> successors[i] != from && Reach(r, successors[i], x))
    requires forall x :: 0 <= x < |r| ==> next[x] == (row[x] || x == successors[i] || more[x])
    ensures RowOf(r, from, successors, i + 1, next)
  {
    forall x | 0 <= x < |r| ensures next[x] <==> Covers(r, from, successors, i + 1, x) {
      CoversNext(r, from, successors, i, x);
    }
  }

  /** One node: which of its edges stay, and what it reaches (`src/graph.rs:454-474`). */
  method ReduceNode(g: Lists, t: TopologicalOrder, reachable: seq<seq<bool>>, from: nat)
    returns (kept: seq<nat>, row: seq<bool>)
    requires Solved(Succ(g), t) && from < |g| == |reachable|
    requires forall u :: 0 <= u < |g| ==> |reachable[u]| == |g|
    requires forall x :: 0 <= x < |g| ==> !reachable[from][x]
    requires forall u, x :: 0 <= u < |g| && t.map_[u] > t.map_[from] && 0 <= x < |g| ==>
      (reachable[u][x] <==> Reach(Succ(g), u, x))
    ensures |row| == |g| && forall x :: 0 <= x < |g| ==> (row[x] <==> Reach(Succ(g), from, x))
    ensures forall v: nat :: v in kept <==> Edge(Succ(g), from, v) && (from == v || Direct(Succ(g), from, v))
    ensures StrictlySortedBy(kept, t.map_)
  {
    ghost var r := Succ(g);
    assert forall v: nat :: v in g[from] ==> Edge(r, from, v);
    var successors := SortDedupBy(g[from], t.map_);
    kept, row := [], seq(|g|, _ => false);
    for i := 0 to |successors|
      invariant RowOf(r, from, successors, i, row)
      invariant KeptOf(r, t, from, successors, i, kept)
    {
      var to := successors[i];
      assert to in successors && Edge(r, from, to);
      KeptNext(r, t, from, successors, i, kept);
      CoveredIsRedundant(r, t, from, successors, i);
      if row[to] {
        RowSkips(r, from, successors, i, row);
        continue;
      }
      kept := kept + [to];
      ghost var before := row;
      row := Cover(row, to, reachable[to]);
      RowGrows(r, from, successors, i, before, reachable[to], row);
    }
    forall x | 0 <= x < |g| ensures row[x] <==> Reach(r, from, x) {
      assert row[x] <==> Covers(r, from, successors, |successors|, x);
      CoversAll(r, t, from, successors, x);
    }
    assert successors[..|successors|] == successors;
  }

  /** The nodes from place `i` on are reduced, and what they reach is recorded. */
  ghost predicate ReducedFrom(r: Rel, t: TopologicalOrder, i: nat, reachable: seq<seq<bool>>, reduced: Lists) {
    && |reachable| == |reduced| == |r| == |t.map_|
    && (forall u :: 0 <= u < |r| ==> |reachable[u]| == |r|)
    && (forall u, x :: 0 <= u < |r| && 0 <= x < |r| ==> (reachable[u][x] <==> t.map_[u] >= i && Reach(r, u, x)))
    && (forall u: nat, v: nat :: u < |r| && t.map_[u] >= i ==>
          (v in reduced[u] <==> Edge(r, u, v) && (u == v || Direct(r, u, v))))
    && (forall u: nat :: u < |r| ==> StrictlySortedBy(reduced[u], t.map_))
  }

  lemma ReducedNext(r: Rel, t: TopologicalOrder, i: nat, reachable: seq<seq<bool>>, reduced: Lists, kept: seq<nat>, row: seq<bool>)
    requires IsListing(t, |r|) && i < |r| && ReducedFrom(r, t, i + 1, reachable, reduced)
    requires |row| == |r| && forall x :: 0 <= x < |r| ==> (row[x] <==> Reach(r, t.order[i], x))
    requires forall v: nat :: v in kept <==> Edge(r, t.order[i], v) && (t.order[i] == v || Direct(r, t.order[i], v))
    requires StrictlySortedBy(kept, t.map_)
    ensures ReducedFrom(r, t, i, reachable[t.order[i] := row], reduced[t.order[i] := kept])
  {
    assert forall u :: 0 <= u < |r| && u != t.order[i] ==> t.map_[u] != i;
  }

  /** Removes every edge that another walk makes redundant. */
  method Reduce(g: Lists, t: TopologicalOrder) returns (reduced: Lists)
    requires Solved(Succ(g), t)
    ensures IsReduction(Succ(g), Succ(reduced))
    ensures forall u: nat :: u < |reduced| ==> StrictlySortedBy(reduced[u], t.map_)
  {
    var reachable := seq(|g|, _ => seq(|g|, _ => false));
    reduced := seq(|g|, _ => []);
    ghost var r := Succ(g);
    for i := |g| downto 0
      invariant ReducedFrom(r, t, i, reachable, reduced)
    {
      var from := t.order[i];
      var kept, row := ReduceNode(g, t, reachable, from);
      ReducedNext(r, t, i, reachable, reduced, kept, row);
      reduced := reduced[from := kept];
      reachable := reachable[from := row];
    }
  }

  /** Sorts first; a cyclic graph gives the cycle instead (`src/graph.rs:480-489`). */
  method ReduceAcyclic(g: Lists) returns (r: Result<(Lists, TopologicalOrder), GraphCycle>)
    requires InRange(g)
    ensures r.Ok? <==> Acyclic(Succ(g))
    ensures r.Ok? ==> IsTopological(Succ(g), r.value.1)
    ensures r.Ok? ==> IsReduction(Succ(g), Succ(r.value.0))
    ensures r.Ok? ==> forall u: nat, v: nat :: Reach(Succ(r.value.0), u, v) <==> Reach(Succ(g), u, v)
    ensures r.Err? ==> IsCycle(Succ(g), r.error.nodes)
  {
    var sorted := Sort(g);
    if sorted.Err? {
      return Err(sorted.error);
    }
    var reduced := Reduce(g, sorted.value);
    forall u: nat, v: nat ensures Reach(Succ(reduced), u, v) <==> Reach(Succ(g), u, v) {
      ReductionReach(Succ(g), Succ(reduced), sorted.value, u, v);
    }
    r := Ok((reduced, sorted.value));
  }
}
