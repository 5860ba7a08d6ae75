/** `TaskInfo::compile` (`src/compiler.rs:11-338`): merging, sorting, reducing and renaming on top
    of the earlier passes, and the theorem that the result means what the description means.
 */
module Compiler {
  import opened Relations
  import opened Sequences
  import opened VecGraphs
  import opened Model
  import opened Meaning
  import opened Boundaries
  import opened AtomEdges
  import opened Contraction
  import opened Determinism
  import opened SearchOrder
  import opened BoundaryPass
  import TopologicalSort
  import opened TransitiveReduction

  type TopologicalOrder = TopologicalSort.TopologicalOrder

  // ----- atom edges as task edges

  ghost predicate LiftedAt(p: Packing, edges: Rel, x: nat, y: nat, u: nat, v: nat) {
    && Edge(edges, x, y) && x < |p.tasks| && y < |p.tasks|
    && p.tasks[x] == u && p.tasks[y] == v && u != v
  }

  ghost predicate Lifted(p: Packing, edges: Rel, u: nat, v: nat) {
    exists x: nat, y: nat :: LiftedAt(p, edges, x, y, u, v)
  }

  /** Adds the atom edges to the task graph, except those from an atom to itself
      (`src/compiler.rs:265-271`). */
  method MergeAtomEdges(info: TaskInfo, p: Packing, order: Rel, edges: Rel) returns (merged: Rel)
    requires IsPacking(info, p) && |order| == |info.tasks| && |edges| == |p.tasks|
    requires forall x: nat, y: nat :: Edge(edges, x, y) ==> y < |p.tasks|
    ensures |merged| == |order|
    ensures forall u: nat, v: nat :: Edge(merged, u, v) <==> Edge(order, u, v) || Lifted(p, edges, u, v)
  {
    merged := order;
    for from := 0 to |edges|
      invariant |merged| == |order|
      invariant forall u: nat, v: nat :: Edge(merged, u, v) <==>
        Edge(order, u, v) || exists x: nat, y: nat :: x < from && LiftedAt(p, edges, x, y, u, v)
    {
      var fromTask := p.tasks[from];
      ghost var before := merged;
      assert forall to :: to in edges[from] ==> Edge(edges, from, to);
      var added := set to | to in edges[from] && p.tasks[to] != fromTask :: p.tasks[to];
      merged := merged[fromTask := merged[fromTask] + added];
      forall u: nat, v: nat
        ensures Edge(merged, u, v) <==> Edge(before, u, v) || exists y: nat :: LiftedAt(p, edges, from, y, u, v)
      {
        assert Edge(merged, u, v) <==> Edge(before, u, v) || (u == fromTask && v in added);
        if u == fromTask && v in added {
          var to :| to in edges[from] && p.tasks[to] != fromTask && p.tasks[to] == v;
          assert LiftedAt(p, edges, from, to, u, v);
        }
      }
    }
  }

  // ----- the atoms in task order

  /** `order` holds the atoms whose tasks stand before place `k`, in the order of their tasks. */
  ghost predicate OrderedUpTo(info: TaskInfo, p: Packing, t: TopologicalOrder, k: nat, order: seq<nat>)
    requires IsPacking(info, p) && TopologicalSort.IsListing(t, |info.tasks|) && k <= |t.order|
  {
    && (forall x: nat :: x in order <==> x < |p.tasks| && TaskPlaces(info, p, t)[x] < k)
    && StrictlySortedBy(order, TaskPlaces(info, p, t))
    && NumbersOf(p, AtomsOf(info, t.order[..k]), order)
  }

  lemma OrderedNone(info: TaskInfo, p: Packing, t: TopologicalOrder)
    requires IsPacking(info, p) && TopologicalSort.IsListing(t, |info.tasks|)
    ensures OrderedUpTo(info, p, t, 0, [])
  {
    assert t.order[..0] == [];
  }

  lemma OrderedNext(info: TaskInfo, p: Packing, t: TopologicalOrder, k: nat, order: seq<nat>)
    requires IsPacking(info, p) && TopologicalSort.IsListing(t, |info.tasks|) && k < |t.order|
    requires OrderedUpTo(info, p, t, k, order)
    ensures OrderedUpTo(info, p, t, k + 1,
      if info.tasks[t.order[k]].AtomTask? then order + [p.index[t.order[k]]] else order)
  {
    var task := t.order[k];
    var key := TaskPlaces(info, p, t);
    PlaceOf(info, p, t, k);
    assert t.order[..k + 1][..k] == t.order[..k] && IsAtom(info, task) == info.tasks[task].AtomTask?;
    var next := if info.tasks[task].AtomTask? then order + [p.index[task]] else order;
    forall x: nat ensures x in next <==> x < |p.tasks| && key[x] < k + 1 {
      assert x in next <==> x in order || (info.tasks[task].AtomTask? && x == p.index[task]);
    }
    assert forall i :: 0 <= i < |order| ==> order[i] in order;
  }

  /** The atom numbers in the order of their tasks (`src/compiler.rs:295-301`). */
  method OrderAtoms(info: TaskInfo, p: Packing, t: TopologicalOrder) returns (order: seq<nat>)
    requires IsPacking(info, p) && TopologicalSort.IsListing(t, |info.tasks|)
    ensures NoDuplicates(order) && |order| == |p.tasks|
    ensures forall x: nat :: x in order <==> x < |p.tasks|
    ensures InTaskOrder(p, t, order) && NumbersOf(p, AtomsOf(info, t.order), order)
  {
    order := [];
    OrderedNone(info, p, t);
    for k := 0 to |t.order|
      invariant OrderedUpTo(info, p, t, k, order)
    {
      var task := t.order[k];
      OrderedNext(info, p, t, k, order);
      if info.tasks[task].AtomTask? {
        order := order + [p.index[task]];
      }
    }
    OrderedAll(info, p, t, order);
  }

  lemma OrderedAll(info: TaskInfo, p: Packing, t: TopologicalOrder, order: seq<nat>)
    requires IsPacking(info, p) && TopologicalSort.IsListing(t, |info.tasks|) && OrderedUpTo(info, p, t, |t.order|, order)
    ensures NoDuplicates(order) && |order| == |p.tasks|
    ensures forall x: nat :: x in order <==> x < |p.tasks|
    ensures InTaskOrder(p, t, order) && NumbersOf(p, AtomsOf(info, t.order), order)
  {
    var key := TaskPlaces(info, p, t);
    assert t.order[..|t.order|] == t.order;
    SortedDistinct(order, key);
    CompleteLength(order, |p.tasks|);
  }

  lemma SortedDistinct(s: seq<nat>, key: seq<nat>)
    requires StrictlySortedBy(s, key)
    ensures NoDuplicates(s)
  {
  }

  /** The atoms stand in the order of their tasks. */
  ghost predicate InTaskOrder(p: Packing, t: TopologicalOrder, order: seq<nat>) {
    && (forall i :: 0 <= i < |order| ==> order[i] < |p.tasks| && p.tasks[order[i]] < |t.map_|)
    && forall i, j :: 0 <= i < j < |order| ==> t.map_[p.tasks[order[i]]] < t.map_[p.tasks[order[j]]]
  }

  /** `numbers` are the numbers of the atom tasks `tasks`. */
  ghost predicate NumbersOf(p: Packing, tasks: seq<nat>, numbers: seq<nat>) {
    |numbers| == |tasks| && forall i :: 0 <= i < |tasks| ==> numbers[i] < |p.tasks| && p.tasks[numbers[i]] == tasks[i]
  }

  /** Where each atom's task stands in the task order. */
  ghost function TaskPlaces(info: TaskInfo, p: Packing, t: TopologicalOrder): (key: seq<nat>)
    requires IsPacking(info, p) && TopologicalSort.IsListing(t, |info.tasks|)
    ensures |key| == |p.tasks| && forall x: nat :: x < |key| ==> key[x] < |t.order| && key[x] == t.map_[p.tasks[x]]
  {
    seq(|p.tasks|, x requires 0 <= x < |p.tasks| => t.map_[p.tasks[x]])
  }

  lemma PlaceOf(info: TaskInfo, p: Packing, t: TopologicalOrder, k: nat)
    requires IsPacking(info, p) && TopologicalSort.IsListing(t, |info.tasks|) && k < |t.order|
    ensures forall x: nat :: x < |p.tasks| && TaskPlaces(info, p, t)[x] == k <==>
      info.tasks[t.order[k]].AtomTask? && x == p.index[t.order[k]]
  {
    var task := t.order[k];
    assert t.map_[task] == k;
    assert info.tasks[task].AtomTask? ==> IsAtom(info, task);
    forall x: nat | x < |p.tasks| && TaskPlaces(info, p, t)[x] == k ensures IsAtom(info, task) && x == p.index[task] {
      assert t.order[t.map_[p.tasks[x]]] == p.tasks[x] && p.index[p.tasks[x]] == x;
    }
  }

  lemma AtomOrderSolved(info: TaskInfo, p: Packing, merged: Rel, t: TopologicalOrder, edges: Rel, a: TopologicalOrder)
    requires IsPacking(info, p) && |edges| == |p.tasks| && TopologicalSort.IsTopological(merged, t)
    requires |merged| == |info.tasks|
    requires forall x: nat, y: nat :: Edge(edges, x, y) ==> y < |p.tasks|
    requires forall u: nat, v: nat :: Lifted(p, edges, u, v) ==> Edge(merged, u, v)
    requires TopologicalSort.IsListing(a, |p.tasks|) && InTaskOrder(p, t, a.order)
    ensures Solved(edges, a)
  {
    forall x: nat, y: nat | Edge(edges, x, y) && x != y ensures a.map_[x] < a.map_[y] {
      assert LiftedAt(p, edges, x, y, p.tasks[x], p.tasks[y]);
      assert a.order[a.map_[x]] == x && a.order[a.map_[y]] == y;
    }
  }

  // ----- renaming and turning round

  /** Renames every node to its place in the order (`src/compiler.rs:317-322`). */
  method Reindex(g: Lists, t: TopologicalOrder) returns (after: Lists)
    requires InRange(g) && TopologicalSort.IsListing(t, |g|)
    requires forall u: nat :: u < |g| ==> StrictlySortedBy(g[u], t.map_)
    ensures |after| == |g|
    ensures forall i: nat, j: nat :: Edge(Succ(after), i, j) <==>
      i < |g| && j < |g| && Edge(Succ(g), t.order[i], t.order[j])
    ensures forall i: nat :: i < |after| ==> StrictlySorted(after[i])
  {
    after := [];
    for i := 0 to |g|
      invariant |after| == i
      invariant forall k: nat, j: nat :: k < i ==> (j in after[k] <==> j < |g| && t.order[j] in g[t.order[k]])
      invariant forall k: nat :: k < i ==> StrictlySorted(after[k])
    {
      var list := RenameList(g[t.order[i]], t);
      after := after + [list];
    }
  }

  method RenameList(list: seq<nat>, t: TopologicalOrder) returns (renamed: seq<nat>)
    requires TopologicalSort.IsListing(t, |t.order|) && StrictlySortedBy(list, t.map_)
    ensures StrictlySorted(renamed)
    ensures forall j: nat :: j in renamed <==> j < |t.order| && t.order[j] in list
  {
    renamed := [];
    for k := 0 to |list|
      invariant |renamed| == k
      invariant forall m :: 0 <= m < k ==>
        renamed[m] == t.map_[list[m]] && renamed[m] < |t.order| && t.order[renamed[m]] == list[m]
    {
      renamed := renamed + [t.map_[list[k]]];
    }
    forall j: nat | j < |t.order| && t.order[j] in list ensures j in renamed {
      var m :| 0 <= m < |list| && list[m] == t.order[j];
      assert t.map_[t.order[renamed[m]]] == renamed[m] && t.map_[t.order[j]] == j;
      assert renamed[m] == j;
    }
  }

  /** `list` holds, in order, what leads to `v` from the nodes before `from` and over the first `k`
      edges of `from`. */
  ghost predicate Incoming(after: Lists, from: nat, k: nat, v: nat, list: seq<nat>)
    requires from < |after| && k <= |after[from]|
  {
    && StrictlySorted(list)
    && forall u: nat :: u in list <==> (u < from && v in after[u]) || (u == from && v in after[from][..k])
  }

  /** One more edge of `from`. */
  lemma IncomingNext(after: Lists, from: nat, k: nat, v: nat, list: seq<nat>)
    requires from < |after| && k < |after[from]| && StrictlySorted(after[from]) && Incoming(after, from, k, v, list)
    ensures Incoming(after, from, k + 1, v, if v == after[from][k] then list + [from] else list)
  {
    assert after[from][..k + 1] == after[from][..k] + [after[from][k]];
    assert after[from][k] !in after[from][..k];
    assert forall m :: 0 <= m < |list| ==> list[m] in list;
  }

  /** The next node, once all edges of `from` are turned. */
  lemma IncomingAll(after: Lists, from: nat, v: nat, list: seq<nat>)
    requires from < |after| && Incoming(after, from, |after[from]|, v, list)
    ensures forall u: nat :: u in list <==> u <= from && v in after[u]
    ensures from + 1 < |after| ==> Incoming(after, from + 1, 0, v, list)
  {
    assert after[from][..|after[from]|] == after[from];
  }

  /** Turns every edge round (`src/compiler.rs:323-329`). */
  method Transpose(after: Lists) returns (before: Lists)
    requires InRange(after)
    requires forall u: nat :: u < |after| ==> StrictlySorted(after[u])
    ensures IsTranspose(after, before)
    ensures forall v: nat :: v < |before| ==> StrictlySorted(before[v])
  {
    before := seq(|after|, _ => []);
    for from := 0 to |after|
      invariant |before| == |after|
      invariant from < |after| ==> forall v: nat :: v < |before| ==> Incoming(after, from, 0, v, before[v])
      invariant forall v: nat :: v < |before| ==> StrictlySorted(before[v])
      invariant forall v: nat, u: nat :: v < |before| ==> (u in before[v] <==> u < from && v in after[u])
    {
      for k := 0 to |after[from]|
        invariant |before| == |after|
        invariant forall v: nat :: v < |before| ==> Incoming(after, from, k, v, before[v])
      {
        var to := after[from][k];
        forall v: nat | v < |before|
          ensures Incoming(after, from, k + 1, v, if v == to then before[v] + [from] else before[v])
        {
          IncomingNext(after, from, k, v, before[v]);
        }
        before := before[to := before[to] + [from]];
      }
      forall v: nat | v < |before|
        ensures forall u: nat :: u in before[v] <==> u <= from && v in after[u]
        ensures from + 1 < |after| ==> Incoming(after, from + 1, 0, v, before[v])
      {
        IncomingAll(after, from, v, before[v]);
      }
    }
  }

  /** Renaming nodes by a listing renames walks. */
  lemma RenamedReach(r: Rel, q: Rel, t: TopologicalOrder, i: nat, j: nat)
    requires TopologicalSort.IsListing(t, |r|) && RelInRange(r)
    requires forall x: nat, y: nat :: Edge(q, x, y) <==> x < |r| && y < |r| && Edge(r, t.order[x], t.order[y])
    ensures Reach(q, i, j) ==> i < |r| && j < |r|
    ensures i < |r| && j < |r| ==> (Reach(q, i, j) <==> Reach(r, t.order[i], t.order[j]))
  {
    var forth := (x: nat) => if x < |t.order| then t.order[x] else 0;
    var back := (x: nat) => if x < |t.map_| then t.map_[x] else 0;
    if Reach(q, i, j) {
      var w := ReachFirst(q, i, j);
      if w != j {
        ReachClosed(q, Range(|r|), w, j);
      }
      forall x: nat, y: nat | Edge(q, x, y) ensures Reach(r, forth(x), forth(y)) {
        EdgeReach(r, t.order[x], t.order[y]);
      }
      ReachSimulated(q, r, forth, i, j);
    }
    if i < |r| && j < |r| && Reach(r, t.order[i], t.order[j]) {
      forall x: nat, y: nat | Edge(r, x, y) ensures Reach(q, back(x), back(y)) {
        EdgeReach(q, t.map_[x], t.map_[y]);
      }
      ReachSimulated(r, q, back, t.order[i], t.order[j]);
    }
  }

  // ----- which descriptions have an order

  /** The merged task graph has exactly the cycles of the description's constraints. */
  lemma MergedConstraints(info: TaskInfo, p: Packing, bs: seq<Boundary>, edges: Rel, merged: Rel)
    requires WellFormed(info) && Complete(info, p, bs, edges)
    requires forall u: nat, v: nat :: Edge(merged, u, v) <==> Edge(TaskOrder(info), u, v) || Lifted(p, edges, u, v)
    ensures Acyclic(merged) <==> Acyclic(Constraints(info))
    ensures forall u: nat, v: nat :: Edge(merged, u, v) ==> Edge(Constraints(info), u, v)
    ensures forall u: nat, v: nat :: Reach(merged, u, v) <==> Reach(Constraints(info), u, v)
  {
    var q := Constraints(info);
    forall u: nat, v: nat | Edge(merged, u, v) ensures Edge(q, u, v) && Reach(q, u, v) {
      EdgeReach(q, u, v);
    }
    forall u: nat, v: nat | Edge(q, u, v) ensures Reach(merged, u, v) {
      if Edge(TaskOrder(info), u, v) {
        EdgeReach(merged, u, v);
      } else {
        BeforeMerged(info, p, bs, edges, merged, u, v);
      }
    }
    AcyclicAlike(merged, q);
    forall u: nat, v: nat ensures Reach(merged, u, v) <==> Reach(q, u, v) {
      if Reach(merged, u, v) { ReachIncluded(merged, q, u, v); }
      if Reach(q, u, v) { ReachIncluded(q, merged, u, v); }
    }
  }

  lemma BeforeMerged(info: TaskInfo, p: Packing, bs: seq<Boundary>, edges: Rel, merged: Rel, u: nat, v: nat)
    requires WellFormed(info) && Complete(info, p, bs, edges)
    requires forall a: nat, b: nat :: Lifted(p, edges, a, b) ==> Edge(merged, a, b)
    requires u != v && Before(info, u, v)
    ensures Reach(merged, u, v)
  {
    var x, y := p.index[u], p.index[v];
    BeforeReaches(info, p, bs, edges, x, y);
    forall a: nat, b: nat | Edge(edges, a, b) && a != b ensures Reach(merged, TaskOf(p)(a), TaskOf(p)(b)) {
      assert LiftedAt(p, edges, a, b, p.tasks[a], p.tasks[b]);
      EdgeReach(merged, p.tasks[a], p.tasks[b]);
    }
    var n: nat :| n > 0 && Steps(edges, n, x, y);
    StepsStripped(edges, merged, TaskOf(p), n, x, y);
  }

  lemma CycleWidened(r: Rel, q: Rel, nodes: seq<nat>)
    requires IsCycle(r, nodes) && forall u: nat, v: nat :: Edge(r, u, v) ==> Edge(q, u, v)
    ensures IsCycle(q, nodes)
  {
  }

  // ----- the compiler

  /** The passes after sorting (`src/compiler.rs:284-336`). */
  method Finish(info: TaskInfo, p: Packing, atoms: seq<Atom>, ghost bs: seq<Boundary>, edges: Rel,
                ghost merged: Rel, t: TopologicalOrder)
    returns (setup: CompiledSetup)
    requires WellFormed(info) && Complete(info, p, bs, edges)
    requires |atoms| == |p.tasks| && forall x: nat :: x < |atoms| ==> info.tasks[p.tasks[x]] == AtomTask(atoms[x])
    requires |merged| == |info.tasks| && TopologicalSort.IsTopological(merged, t)
    requires forall u: nat, v: nat :: Lifted(p, edges, u, v) ==> Edge(merged, u, v)
    ensures Faithful(info, setup, AtomsOf(info, t.order))
  {
    var atomLists := SortedLists(edges);
    var atomGraph := FromAdjacencyLists(atomLists);
    var atomOrder := OrderAtoms(info, p, t);
    var atomMap := TopologicalSort.IndexMap(atomOrder);
    var a := TopologicalSort.TopologicalOrder(atomOrder, atomMap);
    AtomOrderSolved(info, p, merged, t, edges, a);
    SameEdges(Succ(atomLists), edges);
    var reduced := Reduce(Unpack(atomGraph), a);
    ReducedInRange(edges, reduced, a);
    var after := Reindex(reduced, a);
    AfterInRange(after, reduced, a);
    var before := Transpose(after);
    var afterGraph := FromAdjacencyLists(after);
    var beforeGraph := FromAdjacencyLists(before);
    setup := CompiledSetup(seq(|atomOrder|, i requires 0 <= i < |atomOrder| => atoms[atomOrder[i]]),
                           info.fileCount, afterGraph, beforeGraph);
    Assembled(info, p, atoms, bs, edges, t, a, reduced, after, before, setup);
  }

  lemma Assembled(info: TaskInfo, p: Packing, atoms: seq<Atom>, bs: seq<Boundary>, edges: Rel, t: TopologicalOrder,
                  a: TopologicalOrder, reduced: Lists, after: Lists, before: Lists, setup: CompiledSetup)
    requires WellFormed(info) && Complete(info, p, bs, edges) && Solved(edges, a)
    requires |atoms| == |p.tasks| && forall x: nat :: x < |atoms| ==> info.tasks[p.tasks[x]] == AtomTask(atoms[x])
    requires IsReduction(edges, Succ(reduced)) && NumbersOf(p, AtomsOf(info, t.order), a.order)
    requires Renamed(Succ(reduced), Succ(after), a) && IsTranspose(after, before)
    requires forall u: nat :: u < |after| ==> StrictlySorted(after[u]) && StrictlySorted(before[u])
    requires Packed(setup.afterGraph) && Unpack(setup.afterGraph) == after && setup.afterGraph == Pack(after)
    requires Packed(setup.beforeGraph) && Unpack(setup.beforeGraph) == before && setup.beforeGraph == Pack(before)
    requires setup.fileCount == info.fileCount && |setup.atoms| == |a.order|
    requires forall i :: 0 <= i < |a.order| ==> a.order[i] < |atoms| && setup.atoms[i] == atoms[a.order[i]]
    ensures Faithful(info, setup, AtomsOf(info, t.order))
  {
    AssembledGraphs(setup, after, before);
    IsFaithful(info, p, bs, edges, a, reduced, setup);
    SameOrder(p, a, AtomsOf(info, t.order));
  }

  lemma AssembledGraphs(setup: CompiledSetup, after: Lists, before: Lists)
    requires IsTranspose(after, before) && |setup.atoms| == |after|
    requires forall u: nat :: u < |after| ==> StrictlySorted(after[u]) && StrictlySorted(before[u])
    requires Packed(setup.afterGraph) && Unpack(setup.afterGraph) == after && setup.afterGraph == Pack(after)
    requires Packed(setup.beforeGraph) && Unpack(setup.beforeGraph) == before && setup.beforeGraph == Pack(before)
    ensures WellPacked(setup) && Canonical(setup) && After(setup) == Succ(after)
  {
  }

  lemma SameOrder(p: Packing, a: TopologicalOrder, tasks: seq<nat>)
    requires NumbersOf(p, tasks, a.order)
    ensures (forall i :: 0 <= i < |a.order| ==> a.order[i] < |p.tasks|) && TaskOrderOf(p, a) == tasks
  {
  }

  lemma ReducedInRange(edges: Rel, reduced: Lists, a: TopologicalOrder)
    requires Solved(edges, a) && IsReduction(edges, Succ(reduced))
    ensures InRange(reduced)
  {
    forall u, k | 0 <= u < |reduced| && 0 <= k < |reduced[u]| ensures reduced[u][k] < |reduced| {
      assert Edge(Succ(reduced), u, reduced[u][k]);
    }
  }

  lemma AfterInRange(after: Lists, g: Lists, a: TopologicalOrder)
    requires |after| == |g| && TopologicalSort.IsListing(a, |g|)
    requires forall i: nat, j: nat :: Edge(Succ(after), i, j) <==>
      i < |g| && j < |g| && Edge(Succ(g), a.order[i], a.order[j])
    ensures InRange(after)
  {
    forall u, k | 0 <= u < |after| && 0 <= k < |after[u]| ensures after[u][k] < |after| {
      assert Edge(Succ(after), u, after[u][k]);
    }
  }

  /** The task behind every place of the compiled order. */
  ghost function TaskOrderOf(p: Packing, a: TopologicalOrder): (order: seq<nat>)
    requires forall i :: 0 <= i < |a.order| ==> a.order[i] < |p.tasks|
    ensures |order| == |a.order| && forall i :: 0 <= i < |order| ==> order[i] == p.tasks[a.order[i]]
  {
    seq(|a.order|, i requires 0 <= i < |a.order| => p.tasks[a.order[i]])
  }

  ghost predicate Renamed(r: Rel, q: Rel, a: TopologicalOrder)
    requires TopologicalSort.IsListing(a, |r|)
  {
    |q| == |r| && forall i: nat, j: nat :: Edge(q, i, j) <==> i < |r| && j < |r| && Edge(r, a.order[i], a.order[j])
  }

  lemma IsFaithful(info: TaskInfo, p: Packing, bs: seq<Boundary>, edges: Rel, a: TopologicalOrder,
                   reduced: Lists, setup: CompiledSetup)
    requires WellFormed(info) && Complete(info, p, bs, edges) && Solved(edges, a)
    requires IsReduction(edges, Succ(reduced)) && WellPacked(setup)
    requires Renamed(Succ(reduced), After(setup), a)
    requires IsTranspose(Unpack(setup.afterGraph), Unpack(setup.beforeGraph)) && Canonical(setup)
    requires setup.fileCount == info.fileCount && |setup.atoms| == |p.tasks|
    requires forall i :: 0 <= i < |setup.atoms| ==> info.tasks[p.tasks[a.order[i]]] == AtomTask(setup.atoms[i])
    ensures Faithful(info, setup, TaskOrderOf(p, a))
  {
    var order := TaskOrderOf(p, a);
    OrderListsAtoms(info, p, a, setup.atoms);
    forall i: nat, j: nat
      ensures Reach(After(setup), i, j) <==> i < |order| && j < |order| && Reach(Precedence(info), order[i], order[j])
    {
      ReachFaithful(info, p, bs, edges, a, reduced, After(setup), i, j);
    }
    forall i: nat, j: nat | Edge(After(setup), i, j) ensures i <= j < |order| && (i != j ==> Direct(After(setup), i, j)) {
      EdgesFaithful(edges, a, reduced, After(setup), i, j);
    }
    forall i: nat | i < |order| ensures Edge(After(setup), i, i) <==> Before(info, order[i], order[i]) {
      var x := a.order[i];
      if Before(info, order[i], order[i]) {
        BeforeReaches(info, p, bs, edges, x, x);
        SelfReachIsEdge(edges, a, x);
      }
    }
  }

  lemma OrderListsAtoms(info: TaskInfo, p: Packing, a: TopologicalOrder, atoms: seq<Atom>)
    requires IsPacking(info, p) && TopologicalSort.IsListing(a, |p.tasks|) && |atoms| == |p.tasks|
    requires forall i :: 0 <= i < |atoms| ==> info.tasks[p.tasks[a.order[i]]] == AtomTask(atoms[i])
    ensures ListsAtoms(info, atoms, TaskOrderOf(p, a))
  {
    var order := TaskOrderOf(p, a);
    forall i, j | 0 <= i < j < |order| ensures order[i] != order[j] {
      assert p.index[order[i]] == a.order[i] && p.index[order[j]] == a.order[j];
      assert a.map_[a.order[i]] == i && a.map_[a.order[j]] == j;
    }
    forall t: nat | IsAtom(info, t) ensures t in order {
      var i := a.map_[p.index[t]];
      assert order[i] == t;
    }
  }

  lemma ReachFaithful(info: TaskInfo, p: Packing, bs: seq<Boundary>, edges: Rel, a: TopologicalOrder,
                      reduced: Lists, after: Rel, i: nat, j: nat)
    requires WellFormed(info) && Complete(info, p, bs, edges) && Solved(edges, a)
    requires IsReduction(edges, Succ(reduced)) && Renamed(Succ(reduced), after, a)
    ensures Reach(after, i, j) <==> i < |p.tasks| && j < |p.tasks| &&
                                    Reach(Precedence(info), p.tasks[a.order[i]], p.tasks[a.order[j]])
  {
    RenamedReach(Succ(reduced), after, a, i, j);
    if i < |p.tasks| && j < |p.tasks| {
      ReductionReach(edges, Succ(reduced), a, a.order[i], a.order[j]);
      AtomEdgesMean(info, p, bs, edges, a.order[i], a.order[j]);
    }
  }

  lemma EdgesFaithful(edges: Rel, a: TopologicalOrder, reduced: Lists, after: Rel, i: nat, j: nat)
    requires Solved(edges, a) && IsReduction(edges, Succ(reduced)) && Renamed(Succ(reduced), after, a)
    requires Edge(after, i, j)
    ensures i <= j < |edges| && (i != j ==> Direct(after, i, j))
  {
    var x, y := a.order[i], a.order[j];
    assert a.map_[x] == i && a.map_[y] == j && Edge(edges, x, y);
    if i != j {
      forall k: nat ensures !Between(after, i, k, j) {
        if Between(after, i, k, j) {
          RenamedReach(Succ(reduced), after, a, i, k);
          RenamedReach(Succ(reduced), after, a, k, j);
          var z := a.order[k];
          ReductionReach(edges, Succ(reduced), a, x, z);
          ReductionReach(edges, Succ(reduced), a, z, y);
          assert a.map_[z] == k;
          assert Between(edges, x, z, y);
        }
      }
    }
  }

  /** Compiles a description.  It succeeds exactly when no task contains itself and the constraints
      are acyclic, and then the result is faithful, its atoms in the order in which tasks are first
      reached from below; otherwise the reported nodes are a cycle of containment or of the
      constraints, the one the lowest task leads to.  The description determines the result, however
      hash sets are iterated. */
  method Compile(info: TaskInfo) returns (r: Result<CompiledSetup, GraphCycle>)
    requires WellFormed(info)
    ensures r.Ok? <==> Acyclic(Contains(info)) && Acyclic(Constraints(info))
    ensures r.Ok? ==> exists order: seq<nat> :: Faithful(info, r.value, order) && RootLaw(Constraints(info), order)
    ensures r.Err? ==>
      var broken := if Acyclic(Contains(info)) then Constraints(info) else Contains(info);
      IsCycle(broken, r.error.nodes) && StartsLow(broken, r.error.nodes)
    ensures IsCompiled(info, r)
  {
    var p, atoms := PackAtoms(info);
    var built := BuildBoundaries(info, p);
    if built.Err? {
      ChildListsContain(info);
      FirstCycleMeans(ChildLists(info), built.error.nodes);
      return Err(built.error);
    }
    var bs := built.value.0;
    var order := TaskEdges(info);
    var edges := ContractAll(info, p, order, bs, built.value.1);
    EdgesSound(info, p, bs, edges);
    var merged := MergeAtomEdges(info, p, order, edges);
    MergedConstraints(info, p, bs, edges, merged);
    var taskLists := SortedLists(merged);
    SameEdges(Succ(taskLists), merged);
    var taskGraph := FromAdjacencyLists(taskLists);
    MergedInRange(info, p, edges, merged, taskLists);
    var sorted := TopologicalSort.Sort(Unpack(taskGraph));
    if sorted.Err? {
      SortsTasks(info, p, bs, edges, merged, taskLists, Err(sorted.error));
      CycleWidened(merged, Constraints(info), sorted.error.nodes);
      FirstCycleMeans(taskLists, sorted.error.nodes);
      StartsLowAlike(merged, Constraints(info), sorted.error.nodes);
      return Err(sorted.error);
    }
    SortsTasks(info, p, bs, edges, merged, taskLists, Ok(sorted.value.order));
    AtomsKeepRootLaw(info, merged, Constraints(info), sorted.value.order);
    var setup := Finish(info, p, atoms, bs, edges, merged, sorted.value);
    assert CompiledIn(info, setup, sorted.value.order);
    r := Ok(setup);
  }

  lemma SortsTasks(info: TaskInfo, p: Packing, bs: seq<Boundary>, edges: Rel, merged: Rel, lists: Lists,
                   outcome: Result<seq<nat>, GraphCycle>)
    requires WellFormed(info) && Complete(info, p, bs, edges) && IsEnds(info, p, EndsAll(bs))
    requires exists height: seq<nat> :: IsHeight(info, height)
    requires forall u: nat, v: nat :: Edge(merged, u, v) <==> Edge(TaskOrder(info), u, v) || Lifted(p, edges, u, v)
    requires |merged| == |info.tasks| && Succ(lists) == merged && forall u: nat :: u < |lists| ==> StrictlySorted(lists[u])
    requires SortsAs(lists, outcome)
    ensures IsTaskSort(info, outcome)
  {
    var ends := EndsAll(bs);
    forall u: nat, v: nat ensures Lifted(p, edges, u, v) <==> LiftedEdge(info, p, ends, u, v) {
      if x: nat, y: nat :| LiftedAt(p, edges, x, y, u, v) {
        assert LiftedEdgeAt(info, p, ends, x, y, u, v);
      }
      if x: nat, y: nat :| LiftedEdgeAt(info, p, ends, x, y, u, v) {
        assert LiftedAt(p, edges, x, y, u, v);
      }
    }
    var height: seq<nat> :| IsHeight(info, height);
    assert SortedAs(info, p, ends, height, lists, outcome);
  }

  /** Compiling twice gives the same result twice. */
  method CompileTwice(info: TaskInfo) returns (first: Result<CompiledSetup, GraphCycle>, second: Result<CompiledSetup, GraphCycle>)
    requires WellFormed(info)
    ensures first == second
  {
    first := Compile(info);
    second := Compile(info);
    CompilationUnique(info, first, second);
  }

  lemma MergedInRange(info: TaskInfo, p: Packing, edges: Rel, merged: Rel, lists: Lists)
    requires WellFormed(info) && IsPacking(info, p) && |merged| == |info.tasks| && Succ(lists) == merged
    requires forall u: nat, v: nat :: Edge(merged, u, v) <==> Edge(TaskOrder(info), u, v) || Lifted(p, edges, u, v)
    ensures InRange(lists)
  {
    forall u, k | 0 <= u < |lists| && 0 <= k < |lists[u]| ensures lists[u][k] < |lists| {
      var v := lists[u][k];
      assert Edge(merged, u, v);
      if x: nat, y: nat :| LiftedAt(p, edges, x, y, u, v) {
        assert IsAtom(info, p.tasks[y]);
      }
    }
  }
}
