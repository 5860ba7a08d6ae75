/** The compiler iterates hash sets (`src/compiler.rs:242`, `src/compiler.rs:273-278`,
    `src/compiler.rs:288-293`), in an order that differs from run to run.  Here is what its result
    nevertheless is, step by step, and that there is only one such result.
 */
module Determinism {
  import opened Relations
  import opened Sequences
  import opened Model
  import opened Meaning
  import opened Boundaries
  import opened AtomEdges
  import opened BoundaryPass
  import opened SearchOrder
  import TopologicalSort

  type GraphCycle = TopologicalSort.GraphCycle

  /** An atom edge between the tasks of two different atoms. */
  ghost predicate LiftedEdge(info: TaskInfo, p: Packing, ends: seq<Ends>, u: nat, v: nat)
    requires WellFormed(info) && |ends| == |info.tasks|
  {
    exists x: nat, y: nat :: LiftedEdgeAt(info, p, ends, x, y, u, v)
  }

  ghost predicate LiftedEdgeAt(info: TaskInfo, p: Packing, ends: seq<Ends>, x: nat, y: nat, u: nat, v: nat)
    requires WellFormed(info) && |ends| == |info.tasks|
  {
    && AtomEdge(info, ends, x, y) && x < |p.tasks| && y < |p.tasks|
    && p.tasks[x] == u && p.tasks[y] == v && u != v
  }

  /** The lists that are sorted: task constraints and atom edges, in increasing order. */
  ghost predicate IsTaskLists(info: TaskInfo, p: Packing, ends: seq<Ends>, lists: Lists)
    requires WellFormed(info) && |ends| == |info.tasks|
  {
    && |lists| == |info.tasks|
    && (forall u: nat :: u < |lists| ==> StrictlySorted(lists[u]))
    && (forall u: nat, v: nat :: Edge(Succ(lists), u, v) <==> Constrained(info, u, v) || LiftedEdge(info, p, ends, u, v))
  }

  /** What sorting the lists gives: their search order, or their first cycle. */
  ghost predicate SortsAs(lists: Lists, outcome: Result<seq<nat>, GraphCycle>) {
    match outcome
    case Ok(order) => IsSearchOrder(lists, order)
    case Err(cycle) => FirstCycle(lists, cycle.nodes)
  }

  lemma SortUnique(lists: Lists, a: Result<seq<nat>, GraphCycle>, b: Result<seq<nat>, GraphCycle>)
    requires SortsAs(lists, a) && SortsAs(lists, b)
    ensures a == b
  {
    if a.Ok? && b.Ok? {
      SearchOrderUnique(lists, a.value, b.value);
    } else if a.Err? && b.Err? {
      FirstCycleUnique(lists, a.error.nodes, b.error.nodes);
    } else if a.Ok? {
      NoCycleInOrder(lists, a.value, b.error.nodes);
    } else {
      NoCycleInOrder(lists, b.value, a.error.nodes);
    }
  }

  lemma NoCycleInOrder(lists: Lists, order: seq<nat>, nodes: seq<nat>)
    requires IsSearchOrder(lists, order)
    ensures !FirstCycle(lists, nodes)
  {
    SearchOrderAcyclic(lists, order);
    if FirstCycle(lists, nodes) {
      FirstCycleMeans(lists, nodes);
      CycleReach(Succ(lists), nodes);
    }
  }

  ghost predicate SortedAs(info: TaskInfo, p: Packing, ends: seq<Ends>, height: seq<nat>, lists: Lists,
                           outcome: Result<seq<nat>, GraphCycle>)
    requires WellFormed(info)
  {
    && IsPacking(info, p) && IsEnds(info, p, ends) && IsHeight(info, height)
    && IsTaskLists(info, p, ends, lists) && SortsAs(lists, outcome)
  }

  /** What sorting the tasks of the description gives. */
  ghost predicate IsTaskSort(info: TaskInfo, outcome: Result<seq<nat>, GraphCycle>)
    requires WellFormed(info)
  {
    exists p: Packing, ends: seq<Ends>, height: seq<nat>, lists: Lists :: SortedAs(info, p, ends, height, lists, outcome)
  }

  /** The atom tasks among `order`. */
  ghost function AtomsOf(info: TaskInfo, order: seq<nat>): seq<nat> {
    if order == [] then []
    else
      var earlier, last := AtomsOf(info, order[..|order| - 1]), order[|order| - 1];
      if IsAtom(info, last) then earlier + [last] else earlier
  }

  /** What the compiler returns: the first containment cycle, if there is any; else what sorting the
      tasks gives, the atoms in that order. */
  ghost predicate IsCompiled(info: TaskInfo, r: Result<CompiledSetup, GraphCycle>)
    requires WellFormed(info)
  {
    if Acyclic(Contains(info)) then
      match r
      case Ok(setup) => exists order: seq<nat> :: CompiledIn(info, setup, order)
      case Err(cycle) => IsTaskSort(info, Err(cycle))
    else
      r.Err? && FirstCycle(ChildLists(info), r.error.nodes)
  }

  ghost predicate CompiledIn(info: TaskInfo, setup: CompiledSetup, order: seq<nat>)
    requires WellFormed(info)
  {
    IsTaskSort(info, Ok(order)) && Faithful(info, setup, AtomsOf(info, order))
  }

  // ----- the laws of the order, over the description

  lemma {:induction false} AtomsOfPrecede(info: TaskInfo, order: seq<nat>, u: nat, v: nat)
    requires Precedes(order, u, v) && IsAtom(info, u) && IsAtom(info, v)
    ensures Precedes(AtomsOf(info, order), u, v)
    decreases |order|
  {
    var front, last := order[..|order| - 1], order[|order| - 1];
    var i, j :| 0 <= i < j < |order| && order[i] == u && order[j] == v;
    if j < |order| - 1 {
      assert front[i] == u && front[j] == v;
      AtomsOfPrecede(info, front, u, v);
      var more := if IsAtom(info, last) then [last] else [];
      assert AtomsOf(info, order) == AtomsOf(info, front) + more;
      PrecedesIn(AtomsOf(info, front), more, u, v);
    } else {
      assert front[i] == u;
      AtomsOfHold(info, front, u);
      assert AtomsOf(info, order) == AtomsOf(info, front) + [v];
      PrecedesAcross(AtomsOf(info, front), [v], u, v);
    }
  }

  lemma {:induction false} AtomsOfHold(info: TaskInfo, order: seq<nat>, u: nat)
    ensures u in AtomsOf(info, order) <==> u in order && IsAtom(info, u)
    decreases |order|
  {
    if order != [] {
      AtomsOfHold(info, order[..|order| - 1], u);
      assert order == order[..|order| - 1] + [order[|order| - 1]];
    }
  }

  /** Atoms that a lower task leads to come later, in the order of atoms as in that of tasks. */
  lemma AtomsKeepRootLaw(info: TaskInfo, r: Rel, q: Rel, order: seq<nat>)
    requires RootLaw(r, order) && forall x: nat, y: nat :: Reach(r, x, y) <==> Reach(q, x, y)
    ensures RootLaw(q, AtomsOf(info, order))
  {
    var atoms := AtomsOf(info, order);
    forall x: nat, u: nat, v: nat | u in atoms && v in atoms && ReachRefl(q, x, u) && !ReachedBy(q, x, v)
      ensures Precedes(atoms, v, u)
    {
      AtomsOfHold(info, order, u);
      AtomsOfHold(info, order, v);
      assert ReachRefl(r, x, u);
      if y: nat :| y <= x && ReachRefl(r, y, v) { assert ReachRefl(q, y, v); }
      AtomsOfPrecede(info, order, v, u);
    }
  }

  lemma SameTaskLists(info: TaskInfo, p: Packing, ends: seq<Ends>, a: Lists, b: Lists)
    requires WellFormed(info) && |ends| == |info.tasks| && IsTaskLists(info, p, ends, a) && IsTaskLists(info, p, ends, b)
    ensures a == b
  {
    SameLists(a, b);
  }

  lemma TaskSortUnique(info: TaskInfo, a: Result<seq<nat>, GraphCycle>, b: Result<seq<nat>, GraphCycle>)
    requires WellFormed(info) && IsTaskSort(info, a) && IsTaskSort(info, b)
    ensures a == b
  {
    var p: Packing, ends: seq<Ends>, height: seq<nat>, lists: Lists :| SortedAs(info, p, ends, height, lists, a);
    var p': Packing, ends': seq<Ends>, height': seq<nat>, lists': Lists :| SortedAs(info, p', ends', height', lists', b);
    PackingUnique(info, p, p');
    forall t: nat | t < |ends| ensures ends[t] == ends'[t] {
      EndsUnique(info, p, ends, ends', height, t);
    }
    assert ends == ends';
    SameTaskLists(info, p, ends, lists, lists');
    SortUnique(lists, a, b);
  }

  /** Two compilations of one description return the same setup, or the same cycle. */
  lemma CompilationUnique(info: TaskInfo, a: Result<CompiledSetup, GraphCycle>, b: Result<CompiledSetup, GraphCycle>)
    requires WellFormed(info) && IsCompiled(info, a) && IsCompiled(info, b)
    ensures a == b
  {
    if Acyclic(Contains(info)) {
      var x := SortOf(info, a);
      var y := SortOf(info, b);
      TaskSortUnique(info, x, y);
      if a.Ok? {
        FaithfulUnique(info, a.value, b.value, AtomsOf(info, x.value));
      }
    } else {
      FirstCycleUnique(ChildLists(info), a.error.nodes, b.error.nodes);
    }
  }

  lemma SortOf(info: TaskInfo, r: Result<CompiledSetup, GraphCycle>) returns (outcome: Result<seq<nat>, GraphCycle>)
    requires WellFormed(info) && IsCompiled(info, r) && Acyclic(Contains(info))
    ensures IsTaskSort(info, outcome) && (outcome.Ok? <==> r.Ok?)
    ensures r.Ok? ==> Faithful(info, r.value, AtomsOf(info, outcome.value))
    ensures r.Err? ==> outcome == Err(r.error)
  {
    if r.Ok? {
      var order: seq<nat> :| CompiledIn(info, r.value, order);
      outcome := Ok(order);
    } else {
      outcome := Err(r.error);
    }
  }
}
