/** What a task description means, independently of how it is compiled.

    The order between tasks consists of the explicit constraints and of the consecutive children of
    ordered tasks (`src/compiler.rs:207-230`).  If a walk along that order leads from one task to
    another, every atom inside the first precedes every atom inside the second.
 */
module Meaning {
  import opened Relations
  import opened Sequences
  import opened Model
  import opened TransitiveReduction
  import opened VecGraphs

  /** Containment: a task and its direct children. */
  ghost function Contains(info: TaskInfo): (r: Rel)
    ensures |r| == |info.tasks|
    ensures forall t: nat, c: nat :: Edge(r, t, c) <==> t < |info.tasks| && c in Children(info.tasks[t])
  {
    seq(|info.tasks|, t requires 0 <= t < |info.tasks| => set c | c in Children(info.tasks[t]))
  }

  ghost predicate ConsecutiveAt(info: TaskInfo, t: nat, i: nat, u: nat, v: nat) {
    && t < |info.tasks| && info.tasks[t].Ordered? && i + 1 < |info.tasks[t].children|
    && info.tasks[t].children[i] == u && info.tasks[t].children[i + 1] == v
  }

  ghost predicate Constrained(info: TaskInfo, u: nat, v: nat) {
    || (u in info.happensBefore && v in info.happensBefore[u])
    || exists t: nat, i: nat :: ConsecutiveAt(info, t, i, u, v)
  }

  /** The order between tasks, one edge at a time. */
  ghost function TaskOrder(info: TaskInfo): (r: Rel)
    requires WellFormed(info)
    ensures |r| == |info.tasks|
    ensures forall u: nat, v: nat :: Edge(r, u, v) <==> Constrained(info, u, v)
    ensures RelInRange(r)
  {
    var r := seq(|info.tasks|, u requires 0 <= u < |info.tasks| =>
                   set v: nat | v < |info.tasks| && Constrained(info, u, v));
    assert forall u: nat, v: nat :: Constrained(info, u, v) ==> u < |info.tasks| && v < |info.tasks| by {
      forall u: nat, v: nat | Constrained(info, u, v) ensures u < |info.tasks| && v < |info.tasks| {
        if t: nat, i: nat :| ConsecutiveAt(info, t, i, u, v) {
          assert Children(info.tasks[t])[i] == u && Children(info.tasks[t])[i + 1] == v;
        }
      }
    }
    r
  }

  ghost predicate IsAtom(info: TaskInfo, a: nat) {
    a < |info.tasks| && info.tasks[a].AtomTask?
  }

  /** Atom task `a` is task `t` itself or lies somewhere inside it. */
  ghost predicate Inside(info: TaskInfo, t: nat, a: nat) {
    IsAtom(info, a) && ReachRefl(Contains(info), t, a)
  }

  ghost predicate HasAtom(info: TaskInfo, t: nat) {
    exists a: nat :: Inside(info, t, a)
  }

  /** The description puts atom `a` before atom `b`, through tasks `t` and `u`. */
  ghost predicate BeforeVia(info: TaskInfo, t: nat, u: nat, a: nat, b: nat)
    requires WellFormed(info)
  {
    Inside(info, t, a) && Inside(info, u, b) && Reach(TaskOrder(info), t, u)
  }

  ghost predicate Before(info: TaskInfo, a: nat, b: nat)
    requires WellFormed(info)
  {
    exists t: nat, u: nat :: BeforeVia(info, t, u, a, b)
  }

  /** `Before` as a relation; its transitive closure is the meaning of the description. */
  ghost function Precedence(info: TaskInfo): (r: Rel)
    requires WellFormed(info)
    ensures |r| == |info.tasks|
    ensures forall a: nat, b: nat :: Edge(r, a, b) <==> Before(info, a, b)
  {
    seq(|info.tasks|, a requires 0 <= a < |info.tasks| => set b: nat | b < |info.tasks| && Before(info, a, b))
  }

  /** Everything that rules out an order: task constraints, and precedence between two different atoms. */
  ghost function Constraints(info: TaskInfo): (r: Rel)
    requires WellFormed(info)
    ensures |r| == |info.tasks|
    ensures forall u: nat, v: nat :: Edge(r, u, v) <==> Constrained(info, u, v) || (u != v && Before(info, u, v))
  {
    var order := TaskOrder(info);
    assert forall u: nat, v: nat :: Edge(order, u, v) ==> u < |info.tasks| && v < |info.tasks|;
    seq(|info.tasks|, u requires 0 <= u < |info.tasks| =>
      set v: nat | v < |info.tasks| && (Edge(order, u, v) || (u != v && Before(info, u, v))))
  }

  /** The atoms inside a composite task are those inside its children. */
  lemma InsideComposite(info: TaskInfo, t: nat, a: nat)
    requires t < |info.tasks| && !info.tasks[t].AtomTask?
    ensures Inside(info, t, a) <==> exists c: nat :: c in Children(info.tasks[t]) && Inside(info, c, a)
  {
    var r := Contains(info);
    if Inside(info, t, a) {
      var c := ReachFirst(r, t, a);
      assert Inside(info, c, a);
    }
    if c: nat :| c in Children(info.tasks[t]) && Inside(info, c, a) {
      assert Edge(r, t, c);
      EdgeThenReach(r, t, c, a);
    }
  }

  /** An atom task has nothing but itself inside. */
  lemma InsideAtom(info: TaskInfo, t: nat, a: nat)
    requires IsAtom(info, t)
    ensures Inside(info, t, a) <==> a == t
  {
    if Inside(info, t, a) && a != t {
      var c := ReachFirst(Contains(info), t, a);
    }
  }

  /** An earlier child of an ordered task is ordered before every later one. */
  lemma {:induction false} OrderedChildren(info: TaskInfo, t: nat, i: nat, k: nat)
    requires WellFormed(info) && t < |info.tasks| && info.tasks[t].Ordered?
    requires i < k < |info.tasks[t].children|
    ensures Reach(TaskOrder(info), info.tasks[t].children[i], info.tasks[t].children[k])
    decreases k - i
  {
    var children := info.tasks[t].children;
    assert ConsecutiveAt(info, t, i, children[i], children[i + 1]);
    EdgeReach(TaskOrder(info), children[i], children[i + 1]);
    if i + 1 < k {
      OrderedChildren(info, t, i + 1, k);
      ReachTrans(TaskOrder(info), children[i], children[i + 1], children[k]);
    }
  }

  // ----- what it means for a compiled setup to be right

  /** Every edge of `q` turned round, and nothing else, with repeats kept apart. */
  ghost predicate IsTranspose(a: Lists, b: Lists) {
    && |a| == |b|
    && (forall u: nat :: u < |a| ==> NoDuplicates(a[u]) && NoDuplicates(b[u]))
    && (forall u: nat, v: nat :: Edge(Succ(a), u, v) <==> Edge(Succ(b), v, u))
  }

  /** `order` lists the atom tasks behind the atoms of `setup`. */
  ghost predicate ListsAtoms(info: TaskInfo, atoms: seq<Atom>, order: seq<nat>) {
    && NoDuplicates(order)
    && (forall a: nat :: a in order <==> IsAtom(info, a))
    && |atoms| == |order|
    && forall i :: 0 <= i < |order| ==> order[i] < |info.tasks| && info.tasks[order[i]] == AtomTask(atoms[i])
  }

  ghost predicate WellPacked(setup: CompiledSetup) {
    && Packed(setup.afterGraph) && Packed(setup.beforeGraph)
    && |setup.afterGraph.nodes| == |setup.beforeGraph.nodes| == |setup.atoms|
  }

  ghost function After(setup: CompiledSetup): (r: Rel)
    requires WellPacked(setup)
    ensures |r| == |setup.atoms|
  {
    Succ(Unpack(setup.afterGraph))
  }

  /** The graphs are packed back to back, every list in increasing order. */
  ghost predicate Canonical(setup: CompiledSetup)
    requires WellPacked(setup)
  {
    && setup.afterGraph == Pack(Unpack(setup.afterGraph))
    && setup.beforeGraph == Pack(Unpack(setup.beforeGraph))
    && (forall u: nat :: u < |setup.atoms| ==>
          StrictlySorted(Unpack(setup.afterGraph)[u]) && StrictlySorted(Unpack(setup.beforeGraph)[u]))
  }

  /** `setup` means what `info` means, with atom `order[i]` renamed to `i`:
      reachability is precedence, the order never goes back, no edge has a detour, and an edge leads to its own atom
      exactly when the description puts that atom before itself. */
  ghost predicate Faithful(info: TaskInfo, setup: CompiledSetup, order: seq<nat>)
    requires WellFormed(info)
  {
    && ListsAtoms(info, setup.atoms, order)
    && WellPacked(setup)
    && setup.fileCount == info.fileCount
    && (forall i: nat, j: nat :: Reach(After(setup), i, j) <==>
          i < |order| && j < |order| && Reach(Precedence(info), order[i], order[j]))
    && (forall i: nat, j: nat :: Edge(After(setup), i, j) ==> i <= j < |order|)
    && (forall i: nat, j: nat :: Edge(After(setup), i, j) && i != j ==> Direct(After(setup), i, j))
    && (forall i: nat :: i < |order| ==> (Edge(After(setup), i, i) <==> Before(info, order[i], order[i])))
    && IsTranspose(Unpack(setup.afterGraph), Unpack(setup.beforeGraph))
    && Canonical(setup)
  }

  // ----- there is only one right setup

  /** The edges of a faithful setup are determined by what it reaches. */
  lemma FaithfulEdge(info: TaskInfo, setup: CompiledSetup, order: seq<nat>, i: nat, j: nat)
    requires WellFormed(info) && Faithful(info, setup, order) && i != j
    ensures Edge(After(setup), i, j) <==> Reach(After(setup), i, j) && Direct(After(setup), i, j)
  {
    var r := After(setup);
    if Edge(r, i, j) {
      EdgeReach(r, i, j);
    }
    if Reach(r, i, j) && Direct(r, i, j) {
      var n: nat :| n > 0 && Steps(r, n, i, j);
      var w := FirstOtherStep(r, n, i, j);
      EdgeReach(r, i, w);
      if w != j { assert Between(r, i, w, j); }
    }
  }

  lemma SameAfter(info: TaskInfo, a: CompiledSetup, b: CompiledSetup, order: seq<nat>, i: nat, j: nat)
    requires WellFormed(info) && Faithful(info, a, order) && Faithful(info, b, order)
    ensures Edge(After(a), i, j) <==> Edge(After(b), i, j)
  {
    assert forall x: nat, y: nat :: Reach(After(a), x, y) <==> Reach(After(b), x, y);
    if i != j {
      FaithfulEdge(info, a, order, i, j);
      FaithfulEdge(info, b, order, i, j);
      assert Direct(After(a), i, j) <==> Direct(After(b), i, j) by {
        assert forall w: nat :: Between(After(a), i, w, j) <==> Between(After(b), i, w, j);
      }
    }
  }

  /** Sorted lists are determined by the edges they stand for. */
  lemma SameLists(a: Lists, b: Lists)
    requires |a| == |b| && forall u: nat, v: nat :: Edge(Succ(a), u, v) <==> Edge(Succ(b), u, v)
    requires forall u: nat :: u < |a| ==> StrictlySorted(a[u]) && StrictlySorted(b[u])
    ensures a == b
  {
    forall u: nat | u < |a| ensures a[u] == b[u] {
      forall v: nat ensures v in a[u] <==> v in b[u] {
        assert Edge(Succ(a), u, v) <==> Edge(Succ(b), u, v);
      }
      SortedUnique(a[u], b[u]);
    }
  }

  /** For one order of the atoms, what a description means leaves exactly one setup. */
  lemma FaithfulUnique(info: TaskInfo, a: CompiledSetup, b: CompiledSetup, order: seq<nat>)
    requires WellFormed(info) && Faithful(info, a, order) && Faithful(info, b, order)
    ensures a == b
  {
    forall i: nat, j: nat ensures Edge(After(a), i, j) <==> Edge(After(b), i, j) {
      SameAfter(info, a, b, order, i, j);
    }
    assert Succ(Unpack(a.afterGraph)) == After(a) && Succ(Unpack(b.afterGraph)) == After(b);
    SameLists(Unpack(a.afterGraph), Unpack(b.afterGraph));
    SameBefore(a, b);
    forall i | 0 <= i < |order| ensures a.atoms[i] == b.atoms[i] {
      assert AtomTask(a.atoms[i]) == AtomTask(b.atoms[i]);
    }
  }

  lemma SameBefore(a: CompiledSetup, b: CompiledSetup)
    requires WellPacked(a) && WellPacked(b) && Canonical(a) && Canonical(b) && |a.atoms| == |b.atoms|
    requires IsTranspose(Unpack(a.afterGraph), Unpack(a.beforeGraph))
    requires IsTranspose(Unpack(b.afterGraph), Unpack(b.beforeGraph))
    requires forall i: nat, j: nat :: Edge(After(a), i, j) <==> Edge(After(b), i, j)
    ensures a.beforeGraph == b.beforeGraph
  {
    var p, q := Unpack(a.beforeGraph), Unpack(b.beforeGraph);
    forall u: nat, v: nat ensures Edge(Succ(p), u, v) <==> Edge(Succ(q), u, v) {
      assert Edge(After(a), v, u) <==> Edge(After(b), v, u);
    }
    SameLists(p, q);
  }
}
