/** The first pass of the compiler (`src/compiler.rs:10-205`): the entry and exit atoms of every
    task, and the atom edges inside ordered tasks.
 */
module Boundaries {
  import opened Relations
  import opened Sequences
  import opened Model
  import opened Meaning

  datatype Boundary = Boundary(entries: seq<nat>, exits: seq<nat>)

  /** Atom tasks packed in task order: `index[t]` is the number of atom task `t` (the source's
      `atoms_map`), `tasks[x]` the task of atom number `x` (`atom_tasks`). */
  datatype Packing = Packing(index: seq<nat>, tasks: seq<nat>)

  ghost predicate IsPacking(info: TaskInfo, p: Packing) {
    && |p.index| == |info.tasks|
    && StrictlySorted(p.tasks)
    && (forall x: nat :: x < |p.tasks| ==> IsAtom(info, p.tasks[x]) && p.index[p.tasks[x]] == x)
    && (forall t: nat :: IsAtom(info, t) ==> p.index[t] < |p.tasks| && p.tasks[p.index[t]] == t)
    && (forall t: nat :: t < |p.index| && !IsAtom(info, t) ==> p.index[t] == 0)
  }

  /** The description determines the packing. */
  lemma PackingUnique(info: TaskInfo, p: Packing, q: Packing)
    requires IsPacking(info, p) && IsPacking(info, q)
    ensures p == q
  {
    forall t: nat ensures (t in p.tasks <==> IsAtom(info, t)) && (t in q.tasks <==> IsAtom(info, t)) {
      if t in p.tasks { var x :| 0 <= x < |p.tasks| && p.tasks[x] == t; }
      if t in q.tasks { var x :| 0 <= x < |q.tasks| && q.tasks[x] == t; }
    }
    SortedUnique(p.tasks, q.tasks);
    forall t: nat | t < |p.index| ensures p.index[t] == q.index[t] {
      if IsAtom(info, t) { assert q.index[p.tasks[p.index[t]]] == p.index[t]; }
    }
  }

  /** The first `n` tasks are numbered. */
  ghost predicate PackedUpTo(info: TaskInfo, n: nat, p: Packing, atoms: seq<Atom>) {
    && |p.index| == n <= |info.tasks| && |atoms| == |p.tasks|
    && StrictlySorted(p.tasks)
    && (forall x: nat :: x < |p.tasks| ==>
          p.tasks[x] < n && info.tasks[p.tasks[x]] == AtomTask(atoms[x]) && p.index[p.tasks[x]] == x)
    && (forall t: nat :: t < n && IsAtom(info, t) ==> p.index[t] < |p.tasks| && p.tasks[p.index[t]] == t)
    && (forall t: nat :: t < n && !IsAtom(info, t) ==> p.index[t] == 0)
  }

  lemma PackedAtom(info: TaskInfo, n: nat, p: Packing, atoms: seq<Atom>, atom: Atom)
    requires PackedUpTo(info, n, p, atoms) && n < |info.tasks| && info.tasks[n] == AtomTask(atom)
    ensures PackedUpTo(info, n + 1, Packing(p.index + [|p.tasks|], p.tasks + [n]), atoms + [atom])
  {
  }

  lemma PackedOther(info: TaskInfo, n: nat, p: Packing, atoms: seq<Atom>)
    requires PackedUpTo(info, n, p, atoms) && n < |info.tasks| && !info.tasks[n].AtomTask?
    ensures PackedUpTo(info, n + 1, Packing(p.index + [0], p.tasks), atoms)
  {
  }

  /** Numbers the atoms (`src/compiler.rs:153-177`, `src/compiler.rs:259-264`). */
  method PackAtoms(info: TaskInfo) returns (p: Packing, atoms: seq<Atom>)
    ensures IsPacking(info, p) && |atoms| == |p.tasks|
    ensures forall x: nat :: x < |atoms| ==> info.tasks[p.tasks[x]] == AtomTask(atoms[x])
  {
    p, atoms := Packing([], []), [];
    for t := 0 to |info.tasks|
      invariant PackedUpTo(info, t, p, atoms)
    {
      match info.tasks[t] {
        case AtomTask(atom) =>
          PackedAtom(info, t, p, atoms, atom);
          p := Packing(p.index + [|p.tasks|], p.tasks + [t]);
          atoms := atoms + [atom];
        case _ =>
          PackedOther(info, t, p, atoms);
          p := Packing(p.index + [0], p.tasks);
      }
    }
  }

  /** The atoms inside a task, by number. */
  ghost function AtomsIn(info: TaskInfo, p: Packing, t: nat): (atoms: set<nat>)
    ensures forall x: nat :: x in atoms <==> x < |p.tasks| && Inside(info, t, p.tasks[x])
  {
    set x: nat | x < |p.tasks| && Inside(info, t, p.tasks[x])
  }

  /** A composite task holds the atoms of its children. */
  lemma AtomsInComposite(info: TaskInfo, p: Packing, t: nat, x: nat)
    requires t < |info.tasks| && !info.tasks[t].AtomTask?
    ensures x in AtomsIn(info, p, t) <==> exists c: nat :: c in Children(info.tasks[t]) && x in AtomsIn(info, p, c)
  {
    if x < |p.tasks| {
      InsideComposite(info, t, p.tasks[x]);
      if c: nat :| c in Children(info.tasks[t]) && Inside(info, c, p.tasks[x]) {
        assert x in AtomsIn(info, p, c);
      }
    }
  }

  lemma AtomsInAtom(info: TaskInfo, p: Packing, t: nat)
    requires IsPacking(info, p) && IsAtom(info, t)
    ensures AtomsIn(info, p, t) == {p.index[t]}
  {
    forall x: nat ensures x in AtomsIn(info, p, t) <==> x == p.index[t] {
      if x < |p.tasks| { InsideAtom(info, t, p.tasks[x]); }
    }
  }

  lemma AtomsInEmpty(info: TaskInfo, p: Packing, t: nat)
    requires IsPacking(info, p)
    ensures AtomsIn(info, p, t) == {} <==> !HasAtom(info, t)
  {
    if a: nat :| Inside(info, t, a) {
      assert p.index[a] in AtomsIn(info, p, t);
    }
    if x: nat :| x in AtomsIn(info, p, t) {
      assert Inside(info, t, p.tasks[x]);
    }
  }

  // ----- what a boundary promises

  ghost predicate ReachedFrom(edges: Rel, xs: set<nat>, y: nat) {
    exists x: nat :: x in xs && ReachRefl(edges, x, y)
  }

  ghost predicate ReachesInto(edges: Rel, y: nat, xs: set<nat>) {
    exists x: nat :: x in xs && ReachRefl(edges, y, x)
  }

  /** `entries` and `exits` bound the atoms `atoms`: they are some of them, and every one of the
      atoms is reached from some entry and reaches some exit. */
  ghost predicate Bounds(edges: Rel, atoms: set<nat>, entries: set<nat>, exits: set<nat>) {
    && entries <= atoms && exits <= atoms
    && (forall x: nat {:trigger ReachedFrom(edges, entries, x)} :: x in atoms ==> ReachedFrom(edges, entries, x))
    && (forall x: nat {:trigger ReachesInto(edges, x, exits)} :: x in atoms ==> ReachesInto(edges, x, exits))
  }

  ghost predicate BoundsTask(info: TaskInfo, p: Packing, edges: Rel, t: nat, b: Boundary) {
    Bounds(edges, AtomsIn(info, p, t), Elements(b.entries), Elements(b.exits))
  }

  /** Every atom edge is one the description asks for. */
  ghost predicate Sound(info: TaskInfo, p: Packing, edges: Rel)
    requires WellFormed(info)
  {
    && |edges| == |p.tasks|
    && forall x: nat, y: nat :: Edge(edges, x, y) ==>
         x < |p.tasks| && y < |p.tasks| && Before(info, p.tasks[x], p.tasks[y])
  }

  ghost predicate Grown(e: Rel, f: Rel) {
    |f| == |e| && forall x: nat, y: nat :: Edge(e, x, y) ==> Edge(f, x, y)
  }

  lemma BoundsGrown(e: Rel, f: Rel, atoms: set<nat>, entries: set<nat>, exits: set<nat>)
    requires Bounds(e, atoms, entries, exits) && Grown(e, f)
    ensures Bounds(f, atoms, entries, exits)
  {
    forall x: nat | x in atoms ensures ReachedFrom(f, entries, x) {
      assert ReachedFrom(e, entries, x);
      var a: nat :| a in entries && ReachRefl(e, a, x);
      ReachMonotone(e, f, a, x);
    }
    forall x: nat | x in atoms ensures ReachesInto(f, x, exits) {
      assert ReachesInto(e, x, exits);
      var b: nat :| b in exits && ReachRefl(e, x, b);
      ReachMonotone(e, f, x, b);
    }
  }

  /** Entries and exits are empty together, exactly when there is no atom. */
  lemma BoundsEmpty(edges: Rel, atoms: set<nat>, entries: set<nat>, exits: set<nat>)
    requires Bounds(edges, atoms, entries, exits)
    ensures entries == {} <==> atoms == {}
    ensures exits == {} <==> atoms == {}
  {
    if x: nat :| x in atoms {
      assert ReachedFrom(edges, entries, x) && ReachesInto(edges, x, exits);
    }
  }

  lemma Widened(edges: Rel, xs: set<nat>, ys: set<nat>, x: nat)
    requires xs <= ys
    ensures ReachedFrom(edges, xs, x) ==> ReachedFrom(edges, ys, x)
    ensures ReachesInto(edges, x, xs) ==> ReachesInto(edges, x, ys)
  {
  }

  /** Unordered: entries and exits are pooled. */
  lemma BoundsPooled(edges: Rel, atoms: set<nat>, entries: set<nat>, exits: set<nat>,
                     atoms': set<nat>, entries': set<nat>, exits': set<nat>)
    requires Bounds(edges, atoms, entries, exits) && Bounds(edges, atoms', entries', exits')
    ensures Bounds(edges, atoms + atoms', entries + entries', exits + exits')
  {
    forall x: nat | x in atoms + atoms'
      ensures ReachedFrom(edges, entries + entries', x) && ReachesInto(edges, x, exits + exits')
    {
      if x in atoms {
        assert ReachedFrom(edges, entries, x) && ReachesInto(edges, x, exits);
        Widened(edges, entries, entries + entries', x);
        Widened(edges, exits, exits + exits', x);
      } else {
        assert ReachedFrom(edges, entries', x) && ReachesInto(edges, x, exits');
        Widened(edges, entries', entries + entries', x);
        Widened(edges, exits', exits + exits', x);
      }
    }
  }

  /** Every exit has an edge to every entry (`connect`, `src/compiler.rs:33-40`). */
  ghost predicate Joined(edges: Rel, exits: set<nat>, entries: set<nat>) {
    forall x: nat, y: nat :: x in exits && y in entries ==> Edge(edges, x, y)
  }

  /** Ordered: once the exits so far are joined to the next entries, the outer ends remain. */
  lemma BoundsChained(edges: Rel, atoms: set<nat>, entries: set<nat>, exits: set<nat>,
                      atoms': set<nat>, entries': set<nat>, exits': set<nat>)
    requires Bounds(edges, atoms, entries, exits) && Bounds(edges, atoms', entries', exits')
    requires entries != {} && entries' != {} && Joined(edges, exits, entries')
    ensures Bounds(edges, atoms + atoms', entries, exits')
  {
    forall x: nat {:trigger ReachesInto(edges, x, exits')} | x in atoms + atoms'
      ensures ReachesInto(edges, x, exits')
    {
      if x in atoms { ChainForward(edges, atoms, entries, exits, atoms', entries', exits', x); }
    }
    forall x: nat {:trigger ReachedFrom(edges, entries, x)} | x in atoms + atoms'
      ensures ReachedFrom(edges, entries, x)
    {
      if x in atoms' { ChainBack(edges, atoms, entries, exits, atoms', entries', exits', x); }
    }
  }

  lemma ChainForward(edges: Rel, atoms: set<nat>, entries: set<nat>, exits: set<nat>,
                     atoms': set<nat>, entries': set<nat>, exits': set<nat>, x: nat)
    requires Bounds(edges, atoms, entries, exits) && Bounds(edges, atoms', entries', exits')
    requires entries' != {} && Joined(edges, exits, entries') && x in atoms
    ensures ReachesInto(edges, x, exits')
  {
    assert ReachesInto(edges, x, exits);
    var m: nat :| m in exits && ReachRefl(edges, x, m);
    var e: nat :| e in entries';
    assert ReachesInto(edges, e, exits');
    var n: nat :| n in exits' && ReachRefl(edges, e, n);
    ReachThenEdge(edges, x, m, e);
    ReachReflTrans(edges, x, e, n);
  }

  lemma ChainBack(edges: Rel, atoms: set<nat>, entries: set<nat>, exits: set<nat>,
                  atoms': set<nat>, entries': set<nat>, exits': set<nat>, x: nat)
    requires Bounds(edges, atoms, entries, exits) && Bounds(edges, atoms', entries', exits')
    requires entries != {} && Joined(edges, exits, entries') && x in atoms'
    ensures ReachedFrom(edges, entries, x)
  {
    BoundsEmpty(edges, atoms, entries, exits);
    assert ReachedFrom(edges, entries', x);
    var m: nat :| m in entries' && ReachRefl(edges, m, x);
    var e: nat :| e in exits;
    assert ReachedFrom(edges, entries, e);
    var n: nat :| n in entries && ReachRefl(edges, n, e);
    EdgeThenReach(edges, e, m, x);
    ReachReflTrans(edges, n, e, x);
  }

  lemma EmptyElements(s: seq<nat>)
    ensures Elements(s) == {} <==> s == []
  {
    if s != [] { assert s[0] in Elements(s); }
  }

  /** A boundary is empty, on both sides, exactly when the task holds no atom. */
  lemma BoundaryEmptyIff(info: TaskInfo, p: Packing, edges: Rel, t: nat, b: Boundary)
    requires IsPacking(info, p) && BoundsTask(info, p, edges, t, b)
    ensures b.entries == [] <==> !HasAtom(info, t)
    ensures b.exits == [] <==> !HasAtom(info, t)
  {
    BoundsEmpty(edges, AtomsIn(info, p, t), Elements(b.entries), Elements(b.exits));
    AtomsInEmpty(info, p, t);
    EmptyElements(b.entries);
    EmptyElements(b.exits);
  }
}
