/** The recursive search that computes every task's boundary (`src/compiler.rs:25-151`), and the
    loop that runs it over all tasks (`src/compiler.rs:179-205`).
 */
module BoundaryPass {
  import opened Relations
  import opened Sequences
  import opened Model
  import opened Meaning
  import opened Boundaries
  import opened AtomEdges
  import opened SearchOrder
  import TopologicalSort

  type GraphCycle = TopologicalSort.GraphCycle

  datatype State = NotSeen | OnStack | Done

  ghost function Unseen(states: seq<State>): set<nat> {
    set t | 0 <= t < |states| && states[t] == NotSeen
  }

  ghost predicate OnStackAt(stack: seq<nat>, positions: seq<nat>, t: nat)
    requires t < |positions|
  {
    positions[t] < |stack| && stack[positions[t]] == t
  }

  /** The stack holds the tasks being worked on, each a child of the one below. */
  ghost predicate Stacked(info: TaskInfo, states: seq<State>, stack: seq<nat>, positions: seq<nat>) {
    && |states| == |positions| == |info.tasks|
    && (forall i :: 0 <= i < |stack| ==>
          stack[i] < |info.tasks| && states[stack[i]] == OnStack && positions[stack[i]] == i)
    && (forall t: nat {:trigger OnStackAt(stack, positions, t)} ::
          t < |states| && states[t] == OnStack ==> OnStackAt(stack, positions, t))
    && forall i, j :: 0 <= i && j == i + 1 && j < |stack| ==> NextChild(info, states, stack[i], stack[j])
  }

  ghost predicate PrefixDone(info: TaskInfo, states: seq<State>, t: nat, k: nat) {
    && t < |info.tasks| && k <= |Children(info.tasks[t])|
    && forall j :: 0 <= j < k ==> Children(info.tasks[t])[j] < |states| && states[Children(info.tasks[t])[j]] == Done
  }

  /** `c` is a child of `t`, and the children before it are finished. */
  ghost predicate NextChild(info: TaskInfo, states: seq<State>, t: nat, c: nat) {
    exists k: nat :: NextChildAt(info, states, t, c, k)
  }

  ghost predicate NextChildAt(info: TaskInfo, states: seq<State>, t: nat, c: nat, k: nat) {
    PrefixDone(info, states, t, k) && k < |Children(info.tasks[t])| && Children(info.tasks[t])[k] == c
  }

  lemma NextChildKept(info: TaskInfo, states: seq<State>, states': seq<State>, t: nat, c: nat)
    requires NextChild(info, states, t, c) && |states'| == |states|
    requires forall u :: 0 <= u < |states| && states[u] == Done ==> states'[u] == Done
    ensures NextChild(info, states', t, c)
  {
    var k: nat :| NextChildAt(info, states, t, c, k);
    assert NextChildAt(info, states', t, c, k);
  }

  /** The children of every task, in order. */
  ghost function ChildLists(info: TaskInfo): (g: Lists) {
    seq(|info.tasks|, t requires 0 <= t < |info.tasks| => Children(info.tasks[t]))
  }

  lemma ChildListsContain(info: TaskInfo)
    ensures |ChildLists(info)| == |info.tasks|
    ensures forall t :: 0 <= t < |info.tasks| ==> ChildLists(info)[t] == Children(info.tasks[t])
    ensures Succ(ChildLists(info)) == Contains(info)
  {
    var g := ChildLists(info);
    forall t | 0 <= t < |g| ensures Succ(g)[t] == Contains(info)[t] {
      forall c: nat ensures c in Succ(g)[t] <==> c in Contains(info)[t] {
        assert Edge(Succ(g), t, c) <==> Edge(Contains(info), t, c);
      }
    }
  }

  /** Where the search for the task on top of the stack began. */
  ghost function BaseOf(stack: seq<nat>, t: nat): nat {
    if stack == [] then t else stack[0]
  }

  /** What is known of a finished task: its boundary, and that its children finished earlier. */
  ghost predicate Finished(info: TaskInfo, p: Packing, states: seq<State>, boundaries: seq<Option<Boundary>>,
                           edges: Rel, rank: seq<nat>, clock: nat, t: nat)
    requires |boundaries| == |rank| == |states| == |info.tasks| && t < |info.tasks|
  {
    && boundaries[t].Some? && BoundsTask(info, p, edges, t, boundaries[t].value)
    && rank[t] < clock
    && forall k :: 0 <= k < |Children(info.tasks[t])| ==>
         var c := Children(info.tasks[t])[k];
         c < |states| && states[c] == Done && rank[c] < rank[t]
  }

  /** Finished and in-progress tasks stay so. */
  ghost predicate Progress(before: seq<State>, after: seq<State>) {
    && |after| == |before|
    && forall t :: 0 <= t < |before| ==>
         && (before[t] != NotSeen ==> after[t] == before[t])
         && (before[t] == NotSeen ==> after[t] != OnStack)
  }

  lemma ProgressUnseen(before: seq<State>, after: seq<State>)
    requires Progress(before, after)
    ensures Unseen(after) <= Unseen(before)
  {
  }

  /** The atoms of the first `k` children. */
  ghost function AtomsOfFirst(info: TaskInfo, p: Packing, children: seq<nat>, k: nat): set<nat>
    requires k <= |children|
  {
    if k == 0 then {} else AtomsOfFirst(info, p, children, k - 1) + AtomsIn(info, p, children[k - 1])
  }

  lemma {:induction false} AtomsOfEach(info: TaskInfo, p: Packing, children: seq<nat>, k: nat, x: nat)
    requires k <= |children|
    ensures x in AtomsOfFirst(info, p, children, k) <==> exists j :: 0 <= j < k && x in AtomsIn(info, p, children[j])
  {
    if k > 0 { AtomsOfEach(info, p, children, k - 1, x); }
  }

  lemma AtomsOfAll(info: TaskInfo, p: Packing, t: nat)
    requires t < |info.tasks| && !info.tasks[t].AtomTask?
    ensures AtomsOfFirst(info, p, Children(info.tasks[t]), |Children(info.tasks[t])|) == AtomsIn(info, p, t)
  {
    var children := Children(info.tasks[t]);
    forall x: nat ensures x in AtomsOfFirst(info, p, children, |children|) <==> x in AtomsIn(info, p, t) {
      AtomsOfEach(info, p, children, |children|, x);
      AtomsInComposite(info, p, t, x);
      if c: nat :| c in children && x in AtomsIn(info, p, c) {
        var j :| 0 <= j < |children| && children[j] == c;
      }
    }
  }

  lemma ElementsOfSum(a: seq<nat>, b: seq<nat>)
    ensures Elements(a + b) == Elements(a) + Elements(b)
  {
  }

  /** The source's `connect`: joins each exit to each entry (`src/compiler.rs:33-40`). */
  method Join(edges: Rel, exits: seq<nat>, entries: seq<nat>) returns (r: Rel)
    requires forall i :: 0 <= i < |exits| ==> exits[i] < |edges|
    ensures Grown(edges, r) && Joined(r, Elements(exits), Elements(entries))
    ensures forall x: nat, y: nat :: Edge(r, x, y) ==> Edge(edges, x, y) || (x in exits && y in entries)
  {
    r := edges;
    for i := 0 to |exits|
      invariant Grown(edges, r)
      invariant forall x: nat, y: nat :: x in exits[..i] && y in entries ==> Edge(r, x, y)
      invariant forall x: nat, y: nat :: Edge(r, x, y) ==> Edge(edges, x, y) || (x in exits && y in entries)
    {
      var from := exits[i];
      for j := 0 to |entries|
        invariant Grown(edges, r)
        invariant forall x: nat, y: nat :: x in exits[..i] && y in entries ==> Edge(r, x, y)
        invariant forall y: nat :: y in entries[..j] ==> Edge(r, from, y)
        invariant forall x: nat, y: nat :: Edge(r, x, y) ==> Edge(edges, x, y) || (x in exits && y in entries)
      {
        r := r[from := r[from] + {entries[j]}];
        assert entries[..j + 1] == entries[..j] + [entries[j]];
      }
      assert entries[..|entries|] == entries;
      assert exits[..i + 1] == exits[..i] + [from];
    }
    assert exits[..|exits|] == exits;
  }

  // ----- exactly what has been recorded and emitted

  /** The edges between the first `k` children of `t` are there. */
  ghost predicate Honoured(info: TaskInfo, ends: seq<Ends>, edges: Rel, t: nat, k: nat)
    requires WellFormed(info) && |ends| == |info.tasks|
  {
    forall j: nat, x: nat, y: nat :: j < k && JoinAt(info, ends, t, j, x, y) ==> Edge(edges, x, y)
  }

  ghost predicate ExplainedAt(info: TaskInfo, states: seq<State>, ends: seq<Ends>, t: nat, k: nat, x: nat, y: nat)
    requires WellFormed(info) && |ends| == |info.tasks|
  {
    JoinAt(info, ends, t, k, x, y) && PrefixDone(info, states, t, k + 1)
  }

  /** An edge that is there joins two finished children of an ordered task. */
  ghost predicate Explained(info: TaskInfo, states: seq<State>, ends: seq<Ends>, x: nat, y: nat)
    requires WellFormed(info) && |ends| == |info.tasks|
  {
    exists t: nat, k: nat :: ExplainedAt(info, states, ends, t, k, x, y)
  }

  /** A finished task has the ends its children give it, and its edges are there. */
  ghost predicate ExactAt(info: TaskInfo, p: Packing, states: seq<State>, boundaries: seq<Option<Boundary>>,
                          ends: seq<Ends>, edges: Rel, t: nat)
    requires WellFormed(info) && |states| == |boundaries| == |ends| == |info.tasks| == |p.index| && t < |info.tasks|
  {
    && boundaries[t].Some? && ends[t] == EndsOf(boundaries[t].value)
    && ends[t] == LocalEnds(info, p, ends, t)
    && PrefixDone(info, states, t, |Children(info.tasks[t])|)
    && Honoured(info, ends, edges, t, |Children(info.tasks[t])|)
  }

  ghost predicate Exact(info: TaskInfo, p: Packing, states: seq<State>, boundaries: seq<Option<Boundary>>,
                        ends: seq<Ends>, edges: Rel)
    requires WellFormed(info)
  {
    && |states| == |boundaries| == |ends| == |info.tasks| == |p.index|
    && (forall t: nat {:trigger ExactAt(info, p, states, boundaries, ends, edges, t)} ::
          t < |states| && states[t] == Done ==> ExactAt(info, p, states, boundaries, ends, edges, t))
    && (forall x: nat, y: nat :: Edge(edges, x, y) ==> Explained(info, states, ends, x, y))
  }

  /** What is finished stays as it is. */
  ghost predicate EndsKept(states: seq<State>, ends: seq<Ends>, ends': seq<Ends>) {
    |ends'| == |ends| == |states| && forall u :: 0 <= u < |states| && states[u] == Done ==> ends'[u] == ends[u]
  }

  lemma ChainedKept(states: seq<State>, ends: seq<Ends>, ends': seq<Ends>, children: seq<nat>, k: nat)
    requires EndsKept(states, ends, ends') && k <= |children| && Listed(ends, children)
    requires forall j :: 0 <= j < k ==> states[children[j]] == Done
    ensures Chained(ends', children, k) == Chained(ends, children, k)
    ensures Pooled(ends', children, k) == Pooled(ends, children, k)
  {
    ChainedFrame(ends, ends', children, k);
    PooledFrame(ends, ends', children, k);
  }

  /** Whether an edge joins finished children does not change. */
  lemma JoinKept(info: TaskInfo, states: seq<State>, ends: seq<Ends>, ends': seq<Ends>, t: nat, k: nat, x: nat, y: nat)
    requires WellFormed(info) && |ends| == |info.tasks| && EndsKept(states, ends, ends')
    requires PrefixDone(info, states, t, k + 1)
    ensures JoinAt(info, ends, t, k, x, y) <==> JoinAt(info, ends', t, k, x, y)
  {
    var children := Children(info.tasks[t]);
    assert Listed(ends, children);
    ChainedKept(states, ends, ends', children, k);
    assert ends'[children[k]] == ends[children[k]];
  }

  lemma HonouredKept(info: TaskInfo, states: seq<State>, ends: seq<Ends>, ends': seq<Ends>, e: Rel, f: Rel, t: nat, k: nat)
    requires WellFormed(info) && |ends| == |info.tasks| && EndsKept(states, ends, ends') && Grown(e, f)
    requires PrefixDone(info, states, t, k) && Honoured(info, ends, e, t, k)
    ensures Honoured(info, ends', f, t, k)
  {
    forall j: nat, x: nat, y: nat | j < k && JoinAt(info, ends', t, j, x, y) ensures Edge(f, x, y) {
      JoinKept(info, states, ends, ends', t, j, x, y);
    }
  }

  /** The rest of the state may move on as long as it keeps what is finished. */
  ghost predicate Onward(states: seq<State>, boundaries: seq<Option<Boundary>>, ends: seq<Ends>, edges: Rel,
                         states': seq<State>, boundaries': seq<Option<Boundary>>, ends': seq<Ends>, edges': Rel)
  {
    && |states'| == |states| == |boundaries| == |boundaries'| && EndsKept(states, ends, ends') && Grown(edges, edges')
    && forall u :: 0 <= u < |states| && states[u] == Done ==> states'[u] == Done && boundaries'[u] == boundaries[u]
  }

  lemma ExactAtKept(info: TaskInfo, p: Packing,
                    states: seq<State>, boundaries: seq<Option<Boundary>>, ends: seq<Ends>, edges: Rel,
                    states': seq<State>, boundaries': seq<Option<Boundary>>, ends': seq<Ends>, edges': Rel, t: nat)
    requires WellFormed(info) && |states| == |boundaries| == |ends| == |info.tasks| == |p.index| && t < |info.tasks|
    requires Onward(states, boundaries, ends, edges, states', boundaries', ends', edges')
    requires states[t] == Done && ExactAt(info, p, states, boundaries, ends, edges, t)
    ensures ExactAt(info, p, states', boundaries', ends', edges', t)
  {
    LocalFrame(info, p, ends, ends', t);
    HonouredKept(info, states, ends, ends', edges, edges', t, |Children(info.tasks[t])|);
  }

  lemma ExplainedKept(info: TaskInfo, states: seq<State>, ends: seq<Ends>, states': seq<State>, ends': seq<Ends>, x: nat, y: nat)
    requires WellFormed(info) && |ends| == |info.tasks| && EndsKept(states, ends, ends') && |states'| == |states|
    requires forall u :: 0 <= u < |states| && states[u] == Done ==> states'[u] == Done
    requires Explained(info, states, ends, x, y)
    ensures Explained(info, states', ends', x, y)
  {
    var t: nat, k: nat :| ExplainedAt(info, states, ends, t, k, x, y);
    JoinKept(info, states, ends, ends', t, k, x, y);
    assert ExplainedAt(info, states', ends', t, k, x, y);
  }

  lemma ExactKept(info: TaskInfo, p: Packing,
                  states: seq<State>, boundaries: seq<Option<Boundary>>, ends: seq<Ends>, edges: Rel,
                  states': seq<State>, boundaries': seq<Option<Boundary>>, ends': seq<Ends>, edges': Rel)
    requires WellFormed(info) && Exact(info, p, states, boundaries, ends, edges)
    requires Onward(states, boundaries, ends, edges, states', boundaries', ends', edges')
    requires forall u: nat {:trigger ExactAt(info, p, states', boundaries', ends', edges', u)} ::
      u < |states| && states[u] != Done && states'[u] == Done ==> ExactAt(info, p, states', boundaries', ends', edges', u)
    requires forall x: nat, y: nat :: Edge(edges', x, y) && !Edge(edges, x, y) ==> Explained(info, states', ends', x, y)
    ensures Exact(info, p, states', boundaries', ends', edges')
  {
    forall t: nat | t < |states'| && states'[t] == Done ensures ExactAt(info, p, states', boundaries', ends', edges', t) {
      if states[t] == Done {
        assert ExactAt(info, p, states, boundaries, ends, edges, t);
        ExactAtKept(info, p, states, boundaries, ends, edges, states', boundaries', ends', edges', t);
      }
    }
    forall x: nat, y: nat | Edge(edges', x, y) ensures Explained(info, states', ends', x, y) {
      if Edge(edges, x, y) {
        ExplainedKept(info, states, ends, states', ends', x, y);
      }
    }
  }

  class BoundaryBuild {
    var boundaries: seq<Option<Boundary>>
    var states: seq<State>
    var stack: seq<nat>
    var stackPositions: seq<nat>
    var atomEdges: Rel
    ghost var ends: seq<Ends>
    ghost var rank: seq<nat>
    ghost var clock: nat

    ghost predicate FinishedHere(info: TaskInfo, p: Packing, t: nat)
      requires |boundaries| == |rank| == |states| == |info.tasks| && t < |info.tasks|
      reads this
    {
      Finished(info, p, states, boundaries, atomEdges, rank, clock, t)
    }

    ghost predicate Valid(info: TaskInfo, p: Packing)
      requires WellFormed(info) && IsPacking(info, p)
      reads this
    {
      && |boundaries| == |rank| == |info.tasks| && |atomEdges| == |p.tasks|
      && Stacked(info, states, stack, stackPositions)
      && (forall t: nat {:trigger FinishedHere(info, p, t)} ::
            t < |states| && states[t] == Done ==> FinishedHere(info, p, t))
      && Exact(info, p, states, boundaries, ends, atomEdges)
    }

    constructor (info: TaskInfo, p: Packing)
      requires WellFormed(info) && IsPacking(info, p)
      ensures Valid(info, p) && stack == []
    {
      boundaries := seq(|info.tasks|, _ => None);
      states := seq(|info.tasks|, _ => NotSeen);
      stack := [];
      stackPositions := seq(|info.tasks|, _ => 0);
      atomEdges := seq(|p.tasks|, _ => {});
      ends := seq(|info.tasks|, _ => NOTHING);
      rank := seq(|info.tasks|, _ => 0);
      clock := 0;
    }

    /** Marks `t` as being worked on (`src/compiler.rs:85-87`). */
    method Begin(info: TaskInfo, p: Packing, t: nat)
      requires WellFormed(info) && IsPacking(info, p) && Valid(info, p) && t < |info.tasks| && states[t] == NotSeen
      requires stack != [] ==> NextChild(info, states, stack[|stack| - 1], t)
      modifies this
      ensures Valid(info, p) && stack == old(stack) + [t] && states == old(states)[t := OnStack]
      ensures atomEdges == old(atomEdges) && boundaries == old(boundaries) && ends == old(ends)
    {
      states := states[t := OnStack];
      stackPositions := stackPositions[t := |stack|];
      stack := stack + [t];
      forall u: nat | u < |states| && states[u] == OnStack ensures OnStackAt(stack, stackPositions, u) {
        assert u != t ==> OnStackAt(old(stack), old(stackPositions), u);
      }
      forall u: nat | u < |states| && states[u] == Done ensures FinishedHere(info, p, u) {
        assert old(FinishedHere(info, p, u));
      }
      forall i, j | 0 <= i && j == i + 1 && j < |stack| ensures NextChild(info, states, stack[i], stack[j]) {
        assert NextChild(info, old(states), stack[i], stack[j]);
        NextChildKept(info, old(states), states, stack[i], stack[j]);
      }
      ExactKept(info, p, old(states), boundaries, ends, atomEdges, states, boundaries, ends, atomEdges);
    }

    /** Records the boundary of the task on top of the stack (`src/compiler.rs:146-148`). */
    method Finish(info: TaskInfo, p: Packing, t: nat, b: Boundary)
      requires WellFormed(info) && IsPacking(info, p) && Valid(info, p) && stack != [] && stack[|stack| - 1] == t && t < |info.tasks|
      requires Built(info, p, states, ends, atomEdges, t, b)
      modifies this
      ensures Valid(info, p) && stack == old(stack)[..|old(stack)| - 1] && states == old(states)[t := Done]
      ensures atomEdges == old(atomEdges) && ends == old(ends)[t := EndsOf(b)]
      ensures Recorded(info, p, states, boundaries, ends, atomEdges, t, b)
    {
      stack := stack[..|stack| - 1];
      states := states[t := Done];
      boundaries := boundaries[t := Some(b)];
      ends := ends[t := EndsOf(b)];
      rank := rank[t := clock];
      clock := clock + 1;
      forall u: nat | u < |states| && states[u] == OnStack ensures OnStackAt(stack, stackPositions, u) {
        assert OnStackAt(old(stack), stackPositions, u);
      }
      forall u: nat | u < |states| && states[u] == Done ensures FinishedHere(info, p, u) {
        assert u != t ==> old(FinishedHere(info, p, u));
        forall k | 0 <= k < |Children(info.tasks[t])| ensures rank[Children(info.tasks[t])[k]] < clock - 1 {
          assert old(FinishedHere(info, p, Children(info.tasks[t])[k]));
        }
      }
      forall i, j | 0 <= i && j == i + 1 && j < |stack| ensures NextChild(info, states, stack[i], stack[j]) {
        assert NextChild(info, old(states), old(stack)[i], old(stack)[j]);
        NextChildKept(info, old(states), states, stack[i], stack[j]);
      }
      RecordedExact(info, p, old(states), old(boundaries), old(ends), atomEdges, t, b);
    }

    /** Adds the edges between two consecutive non-empty children (`src/compiler.rs:132-134`). */
    method Connect(info: TaskInfo, p: Packing, t: nat, k: nat, exits: seq<nat>, entries: seq<nat>)
      requires WellFormed(info) && IsPacking(info, p) && Valid(info, p) && PrefixDone(info, states, t, k + 1) && info.tasks[t].Ordered?
      requires forall x: nat :: x in exits ==> x < |p.tasks|
      requires Listed(ends, info.tasks[t].children)
      requires Elements(exits) == Chained(ends, info.tasks[t].children, k).exits
      requires Elements(entries) == ends[info.tasks[t].children[k]].entries
      modifies this`atomEdges
      ensures Valid(info, p) && Grown(old(atomEdges), atomEdges)
      ensures Joined(atomEdges, Elements(exits), Elements(entries))
    {
      assert forall i :: 0 <= i < |exits| ==> exits[i] in exits;
      atomEdges := Join(atomEdges, exits, entries);
      JoinExact(info, p, states, boundaries, ends, old(atomEdges), atomEdges, t, k, exits, entries);
      forall u: nat | u < |states| && states[u] == Done ensures FinishedHere(info, p, u) {
        assert old(FinishedHere(info, p, u));
        BoundsGrown(old(atomEdges), atomEdges, AtomsIn(info, p, u),
                    Elements(boundaries[u].value.entries), Elements(boundaries[u].value.exits));
      }
    }

    /** The boundary of a task, building those inside it first. */
    method Build(info: TaskInfo, p: Packing, t: nat) returns (r: Result<Boundary, GraphCycle>)
      requires WellFormed(info) && IsPacking(info, p) && Valid(info, p) && t < |info.tasks|
      requires stack != [] ==> NextChild(info, states, stack[|stack| - 1], t)
      modifies this
      ensures r.Ok? ==> Valid(info, p) && stack == old(stack)
      ensures r.Ok? ==> Moved(old(states), old(ends), old(atomEdges), states, ends, atomEdges)
      ensures r.Ok? ==> Recorded(info, p, states, boundaries, ends, atomEdges, t, r.value)
      ensures r.Err? ==> CycleFrom(ChildLists(info), BaseOf(old(stack), t), r.error.nodes)
      decreases Unseen(states), 1
    {
      match states[t] {
        case OnStack =>
          CycleOnStack(info, p, t);
          return Err(TopologicalSort.GraphCycle(stack[stackPositions[t]..] + [t]));
        case Done =>
          DoneRecorded(info, p, t);
          return Ok(boundaries[t].value);
        case NotSeen =>
      }
      assert t in Unseen(states) && Unseen(states[t := OnStack]) == Unseen(states) - {t};
      Begin(info, p, t);
      r := BuildInside(info, p, t);
      if r.Err? { return; }
      var b := r.value;
      MovedAround(old(states), old(ends), old(atomEdges), states, ends, atomEdges, t, EndsOf(b));
      Finish(info, p, t, b);
      r := Ok(b);
    }

    /** The boundary of the task on top of the stack, by its kind (`src/compiler.rs:89-144`). */
    method BuildInside(info: TaskInfo, p: Packing, t: nat) returns (r: Result<Boundary, GraphCycle>)
      requires WellFormed(info) && IsPacking(info, p) && Valid(info, p) && t < |info.tasks|
      requires stack != [] && stack[|stack| - 1] == t
      modifies this
      ensures r.Ok? ==> Valid(info, p) && stack == old(stack)
      ensures r.Ok? ==> Moved(old(states), old(ends), old(atomEdges), states, ends, atomEdges)
      ensures r.Ok? ==> Built(info, p, states, ends, atomEdges, t, r.value)
      ensures r.Err? ==> CycleFrom(ChildLists(info), BaseOf(old(stack), t), r.error.nodes)
      decreases Unseen(states), 4
    {
      match info.tasks[t] {
        case AtomTask(_) =>
          AtomBuilt(info, p, states, ends, atomEdges, t);
          r := Ok(Boundary([p.index[t]], [p.index[t]]));
        case Unordered(_) =>
          r := BuildUnordered(info, p, t);
        case Ordered(_) =>
          r := BuildOrdered(info, p, t);
      }
    }

    lemma DoneRecorded(info: TaskInfo, p: Packing, t: nat)
      requires WellFormed(info) && IsPacking(info, p) && Valid(info, p) && t < |states| && states[t] == Done
      ensures t < |boundaries| && boundaries[t].Some?
      ensures Recorded(info, p, states, boundaries, ends, atomEdges, t, boundaries[t].value)
    {
      assert FinishedHere(info, p, t) && ExactAt(info, p, states, boundaries, ends, atomEdges, t);
    }

    /** Finished tasks contain finished tasks only, which were finished earlier. */
    lemma DoneSteps(info: TaskInfo, p: Packing, n: nat, t: nat, c: nat)
      requires WellFormed(info) && IsPacking(info, p) && Valid(info, p) && t < |states| && states[t] == Done
      requires Steps(Contains(info), n, t, c)
      ensures c < |states| && states[c] == Done && rank[c] <= rank[t] && (n > 0 ==> rank[c] < rank[t])
      decreases n
    {
      if n > 0 {
        var w: nat :| Edge(Contains(info), t, w) && Steps(Contains(info), n - 1, w, c);
        assert FinishedHere(info, p, t);
        var k :| 0 <= k < |Children(info.tasks[t])| && Children(info.tasks[t])[k] == w;
        DoneSteps(info, p, n - 1, w, c);
      }
    }

    /** So they lead to no cycle of containment. */
    lemma DoneAcyclic(info: TaskInfo, p: Packing, t: nat)
      requires WellFormed(info) && IsPacking(info, p) && Valid(info, p) && t < |states| && states[t] == Done
      ensures !Hits(Contains(info), CycleNodes(Contains(info)), t)
    {
      var r := Contains(info);
      if v: nat :| v in CycleNodes(r) && ReachRefl(r, t, v) {
        if t != v {
          var m: nat :| m > 0 && Steps(r, m, t, v);
          DoneSteps(info, p, m, t, v);
        }
        var n: nat :| n > 0 && Steps(r, n, v, v);
        DoneSteps(info, p, n, v, v);
      }
    }

    /** A task that is open already closes a cycle, the first on the walk from the bottom of the stack. */
    lemma CycleOnStack(info: TaskInfo, p: Packing, t: nat)
      requires WellFormed(info) && IsPacking(info, p) && Valid(info, p) && t < |states| && states[t] == OnStack
      requires stack != [] ==> NextChild(info, states, stack[|stack| - 1], t)
      ensures OnStackAt(stack, stackPositions, t)
      ensures CycleFrom(ChildLists(info), BaseOf(stack, t), stack[stackPositions[t]..] + [t])
    {
      assert OnStackAt(stack, stackPositions, t);
      var start := stackPositions[t];
      var walk := stack + [t];
      var g := ChildLists(info);
      StackPath(info, t);
      PathReach(Contains(info), walk, start, |stack|);
      forall i, j | 0 <= i && j == i + 1 && j < |walk| ensures Turns(g, CycleNodes(Contains(info)), walk[i], walk[j]) {
        StackTurn(info, p, t, i);
      }
      ChildListsContain(info);
      StackOnce(info);
      assert walk[..|walk| - 1] == stack && walk[start..] == stack[start..] + [t];
      assert CycleFromOn(g, BaseOf(stack, t), walk, start, walk[start..]);
    }

    lemma StackOnce(info: TaskInfo)
      requires Stacked(info, states, stack, stackPositions)
      ensures NoDuplicates(stack)
    {
      forall i, j | 0 <= i < j < |stack| ensures stack[i] != stack[j] {
        assert stackPositions[stack[i]] != stackPositions[stack[j]];
      }
    }

    lemma StackPath(info: TaskInfo, t: nat)
      requires WellFormed(info) && Stacked(info, states, stack, stackPositions)
      requires stack != [] ==> NextChild(info, states, stack[|stack| - 1], t)
      ensures IsPath(Contains(info), stack + [t])
    {
      var walk := stack + [t];
      forall i, j | 0 <= i && j == i + 1 && j < |walk| ensures Edge(Contains(info), walk[i], walk[j]) {
        assert NextChild(info, states, walk[i], walk[j]);
      }
    }

    /** Every step of the stack is the first towards a cycle. */
    lemma StackTurn(info: TaskInfo, p: Packing, t: nat, i: nat)
      requires WellFormed(info) && IsPacking(info, p) && Valid(info, p) && i < |stack|
      requires NextChild(info, states, stack[|stack| - 1], t) && t in CycleNodes(Contains(info))
      ensures Turns(ChildLists(info), CycleNodes(Contains(info)), stack[i], (stack + [t])[i + 1])
    {
      var walk, goal := stack + [t], CycleNodes(Contains(info));
      ChildListsContain(info);
      assert NextChild(info, states, walk[i], walk[i + 1]);
      var k: nat :| NextChildAt(info, states, walk[i], walk[i + 1], k);
      StackPath(info, t);
      if i + 1 < |stack| { PathReach(Contains(info), walk, i + 1, |stack|); }
      assert Hits(Contains(info), goal, walk[i + 1]);
      forall j: nat | j < k ensures !Hits(Contains(info), goal, ChildLists(info)[stack[i]][j]) {
        DoneAcyclic(info, p, Children(info.tasks[stack[i]])[j]);
      }
      assert TurnAt(ChildLists(info), goal, stack[i], k);
    }

    /** Builds one child and pools it (`src/compiler.rs:103-108`). */
    method PoolChild(info: TaskInfo, p: Packing, t: nat, k: nat, entries: seq<nat>, exits: seq<nat>)
      returns (r: Result<Boundary, GraphCycle>)
      requires WellFormed(info) && IsPacking(info, p) && Valid(info, p) && Pooling(info, p, states, ends, atomEdges, t, k, entries, exits)
      requires k < |Children(info.tasks[t])| && stack != [] && stack[|stack| - 1] == t
      modifies this
      ensures r.Ok? ==> Valid(info, p) && stack == old(stack)
      ensures r.Ok? ==> Moved(old(states), old(ends), old(atomEdges), states, ends, atomEdges)
      ensures r.Ok? ==> Pooling(info, p, states, ends, atomEdges, t, k + 1,
        r.value.entries, r.value.exits)
      ensures r.Err? ==> CycleFrom(ChildLists(info), BaseOf(old(stack), t), r.error.nodes)
      decreases Unseen(states), 2
    {
      assert NextChildAt(info, states, t, Children(info.tasks[t])[k], k);
      r := Build(info, p, Children(info.tasks[t])[k]);
      if r.Err? { return; }
      Pool(info, p, old(states), old(ends), old(atomEdges), states, boundaries, ends, atomEdges,
           t, k, entries, exits, r.value);
      r := Ok(Boundary(entries + r.value.entries, exits + r.value.exits));
    }

    /** `src/compiler.rs:99-114`. */
    method BuildUnordered(info: TaskInfo, p: Packing, t: nat) returns (r: Result<Boundary, GraphCycle>)
      requires WellFormed(info) && IsPacking(info, p) && Valid(info, p) && t < |info.tasks| && info.tasks[t].Unordered?
      requires stack != [] && stack[|stack| - 1] == t
      modifies this
      ensures r.Ok? ==> Valid(info, p) && stack == old(stack)
      ensures r.Ok? ==> Moved(old(states), old(ends), old(atomEdges), states, ends, atomEdges)
      ensures r.Ok? ==> Built(info, p, states, ends, atomEdges, t, r.value)
      ensures r.Err? ==> CycleFrom(ChildLists(info), BaseOf(old(stack), t), r.error.nodes)
      decreases Unseen(states), 3
    {
      var children := info.tasks[t].children;
      assert children == Children(info.tasks[t]);
      var entries: seq<nat>, exits: seq<nat> := [], [];
      PoolBegins(info, p, states, ends, atomEdges, t);
      for k := 0 to |children|
        invariant Valid(info, p) && stack == old(stack)
        invariant Moved(old(states), old(ends), old(atomEdges), states, ends, atomEdges)
        invariant Pooling(info, p, states, ends, atomEdges, t, k, entries, exits)
      {
        ghost var states', ends', edges' := states, ends, atomEdges;
        MovedUnseen(old(states), old(ends), old(atomEdges), states, ends, atomEdges);
        assert stack[|stack| - 1] == t;
        r := PoolChild(info, p, t, k, entries, exits);
        if r.Err? { return; }
        MovedTrans(old(states), old(ends), old(atomEdges), states', ends', edges', states, ends, atomEdges);
        entries, exits := r.value.entries, r.value.exits;
      }
      var sortedEntries := SortDedup(entries);
      var sortedExits := SortDedup(exits);
      PoolEnds(info, p, states, ends, atomEdges, t, entries, exits, sortedEntries, sortedExits);
      r := Ok(Boundary(sortedEntries, sortedExits));
    }

    /** Appends one child to an ordered chain (`src/compiler.rs:123-136`). */
    method Chain(info: TaskInfo, p: Packing, t: nat, k: nat,
                 entries: seq<nat>, previous: Option<seq<nat>>, child: Boundary)
      returns (entries': seq<nat>, previous': Option<seq<nat>>)
      requires WellFormed(info) && IsPacking(info, p) && Valid(info, p)
      requires Chaining(info, p, states, ends, atomEdges, t, k, entries, previous)
      requires k < |info.tasks[t].children|
      requires Recorded(info, p, states, boundaries, ends, atomEdges, info.tasks[t].children[k], child)
      modifies this`atomEdges
      ensures Valid(info, p) && Grown(old(atomEdges), atomEdges)
      ensures Chaining(info, p, states, ends, atomEdges, t, k + 1,
                       entries', previous')
    {
      PrefixNext(info, states, states, t, k);
      if child.entries == [] {
        ChainEmpty(info, p, states, ends, atomEdges, t, k, entries, previous, child);
        return entries, previous;
      }
      entries' := if entries == [] then child.entries else entries;
      if previous.None? {
        ChainFirst(info, p, states, ends, atomEdges, t, k, child);
      } else {
        ExitsInRange(info, p, states, ends, atomEdges, t, k, entries, previous.value);
        Connect(info, p, t, k, previous.value, child.entries);
        ChainJoined(info, p, states, ends, old(atomEdges), atomEdges, t, k, entries, previous.value, child);
      }
      previous' := Some(child.exits);
    }

    /** Builds one child and appends it (`src/compiler.rs:120-136`). */
    method ChainChild(info: TaskInfo, p: Packing, t: nat, k: nat,
                      entries: seq<nat>, previous: Option<seq<nat>>)
      returns (r: Result<(seq<nat>, Option<seq<nat>>), GraphCycle>)
      requires WellFormed(info) && IsPacking(info, p) && Valid(info, p) && Chaining(info, p, states, ends, atomEdges, t, k, entries, previous)
      requires k < |info.tasks[t].children| && stack != [] && stack[|stack| - 1] == t
      modifies this
      ensures r.Ok? ==> Valid(info, p) && stack == old(stack)
      ensures r.Ok? ==> Moved(old(states), old(ends), old(atomEdges), states, ends, atomEdges)
      ensures r.Ok? ==> Chaining(info, p, states, ends, atomEdges, t, k + 1, r.value.0, r.value.1)
      ensures r.Err? ==> CycleFrom(ChildLists(info), BaseOf(old(stack), t), r.error.nodes)
      decreases Unseen(states), 2
    {
      var child := info.tasks[t].children[k];
      assert NextChildAt(info, states, t, child, k);
      var b := Build(info, p, child);
      if b.Err? { return Err(b.error); }
      ChainingKept(info, p, old(states), old(ends), old(atomEdges), states, ends, atomEdges,
                   t, k, entries, previous);
      ghost var mid := atomEdges;
      var entries', previous' := Chain(info, p, t, k, entries, previous, b.value);
      MovedGrown(old(states), old(ends), old(atomEdges), states, ends, mid, atomEdges);
      r := Ok((entries', previous'));
    }

    /** `src/compiler.rs:116-143`. */
    method BuildOrdered(info: TaskInfo, p: Packing, t: nat) returns (r: Result<Boundary, GraphCycle>)
      requires WellFormed(info) && IsPacking(info, p) && Valid(info, p) && t < |info.tasks| && info.tasks[t].Ordered?
      requires stack != [] && stack[|stack| - 1] == t
      modifies this
      ensures r.Ok? ==> Valid(info, p) && stack == old(stack)
      ensures r.Ok? ==> Moved(old(states), old(ends), old(atomEdges), states, ends, atomEdges)
      ensures r.Ok? ==> Built(info, p, states, ends, atomEdges, t, r.value)
      ensures r.Err? ==> CycleFrom(ChildLists(info), BaseOf(old(stack), t), r.error.nodes)
      decreases Unseen(states), 3
    {
      var children := info.tasks[t].children;
      assert children == Children(info.tasks[t]);
      var entries: seq<nat> := [];
      var previous: Option<seq<nat>> := None;
      ChainBegins(info, p, states, ends, atomEdges, t);
      for k := 0 to |children|
        invariant Valid(info, p) && stack == old(stack)
        invariant Moved(old(states), old(ends), old(atomEdges), states, ends, atomEdges)
        invariant Chaining(info, p, states, ends, atomEdges, t, k, entries, previous)
      {
        ghost var states', ends', edges' := states, ends, atomEdges;
        MovedUnseen(old(states), old(ends), old(atomEdges), states, ends, atomEdges);
        assert stack[|stack| - 1] == t;
        var chain := ChainChild(info, p, t, k, entries, previous);
        if chain.Err? { return Err(chain.error); }
        MovedTrans(old(states), old(ends), old(atomEdges), states', ends', edges', states, ends, atomEdges);
        entries, previous := chain.value.0, chain.value.1;
      }
      ChainEnds(info, p, states, ends, atomEdges, t, entries, previous);
      r := Ok(Boundary(entries, OrEmpty(previous)));
    }
  }

  function OrEmpty(s: Option<seq<nat>>): seq<nat> {
    if s.Some? then s.value else []
  }

  // ----- the steps, on values

  /** What building a task establishes before it is recorded. */
  ghost predicate Built(info: TaskInfo, p: Packing, states: seq<State>, ends: seq<Ends>, edges: Rel, t: nat, b: Boundary) {
    && WellFormed(info) && |ends| == |info.tasks| == |p.index|
    && BoundsTask(info, p, edges, t, b)
    && PrefixDone(info, states, t, if t < |info.tasks| then |Children(info.tasks[t])| else 0)
    && EndsOf(b) == LocalEnds(info, p, ends, t)
    && Honoured(info, ends, edges, t, |Children(info.tasks[t])|)
  }

  lemma AtomBuilt(info: TaskInfo, p: Packing, states: seq<State>, ends: seq<Ends>, edges: Rel, t: nat)
    requires WellFormed(info) && IsPacking(info, p) && |ends| == |info.tasks| && IsAtom(info, t)
    ensures Built(info, p, states, ends, edges, t, Boundary([p.index[t]], [p.index[t]]))
  {
    AtomsInAtom(info, p, t);
    var own := Elements([p.index[t]]);
    assert own == {p.index[t]};
    assert ReachRefl(edges, p.index[t], p.index[t]);
    assert ReachedFrom(edges, own, p.index[t]) && ReachesInto(edges, p.index[t], own);
  }

  /** What is known of a task once it is recorded. */
  ghost predicate Recorded(info: TaskInfo, p: Packing, states: seq<State>, boundaries: seq<Option<Boundary>>,
                           ends: seq<Ends>, edges: Rel, t: nat, b: Boundary)
  {
    && t < |states| == |boundaries| == |ends| && states[t] == Done && boundaries[t] == Some(b)
    && BoundsTask(info, p, edges, t, b) && EndsOf(b) == ends[t]
  }

  /** How the state moves while tasks are built: what is seen stays, what is finished is kept. */
  ghost predicate Moved(states: seq<State>, ends: seq<Ends>, edges: Rel,
                        states': seq<State>, ends': seq<Ends>, edges': Rel)
  {
    Progress(states, states') && EndsKept(states, ends, ends') && Grown(edges, edges')
  }

  lemma MovedUnseen(states: seq<State>, ends: seq<Ends>, edges: Rel, states': seq<State>, ends': seq<Ends>, edges': Rel)
    requires Moved(states, ends, edges, states', ends', edges')
    ensures Unseen(states') <= Unseen(states)
  {
    ProgressUnseen(states, states');
  }

  lemma MovedTrans(states: seq<State>, ends: seq<Ends>, edges: Rel, states': seq<State>, ends': seq<Ends>, edges': Rel,
                   states'': seq<State>, ends'': seq<Ends>, edges'': Rel)
    requires Moved(states, ends, edges, states', ends', edges') && Moved(states', ends', edges', states'', ends'', edges'')
    ensures Moved(states, ends, edges, states'', ends'', edges'')
  {
  }

  lemma MovedGrown(states: seq<State>, ends: seq<Ends>, edges: Rel, states': seq<State>, ends': seq<Ends>, e: Rel, f: Rel)
    requires Moved(states, ends, edges, states', ends', e) && Grown(e, f)
    ensures Moved(states, ends, edges, states', ends', f)
  {
  }

  /** Opening a task, moving on and recording it is a move of its own. */
  lemma MovedAround(states: seq<State>, ends: seq<Ends>, edges: Rel, states': seq<State>, ends': seq<Ends>, edges': Rel,
                    t: nat, e: Ends)
    requires t < |states| == |ends| && states[t] == NotSeen
    requires Moved(states[t := OnStack], ends, edges, states', ends', edges')
    ensures Moved(states, ends, edges, states'[t := Done], ends'[t := e], edges')
  {
  }

  lemma RecordedExact(info: TaskInfo, p: Packing, states: seq<State>, boundaries: seq<Option<Boundary>>,
                      ends: seq<Ends>, edges: Rel, t: nat, b: Boundary)
    requires WellFormed(info) && Exact(info, p, states, boundaries, ends, edges) && t < |states| && states[t] == OnStack
    requires Built(info, p, states, ends, edges, t, b)
    ensures Exact(info, p, states[t := Done], boundaries[t := Some(b)], ends[t := EndsOf(b)], edges)
  {
    var states', boundaries', ends' := states[t := Done], boundaries[t := Some(b)], ends[t := EndsOf(b)];
    LocalFrame(info, p, ends, ends', t);
    HonouredKept(info, states, ends, ends', edges, edges, t, |Children(info.tasks[t])|);
    assert ExactAt(info, p, states', boundaries', ends', edges, t);
    ExactKept(info, p, states, boundaries, ends, edges, states', boundaries', ends', edges);
  }

  lemma JoinExact(info: TaskInfo, p: Packing, states: seq<State>, boundaries: seq<Option<Boundary>>,
                  ends: seq<Ends>, e: Rel, f: Rel, t: nat, k: nat, exits: seq<nat>, entries: seq<nat>)
    requires WellFormed(info) && Exact(info, p, states, boundaries, ends, e) && Grown(e, f)
    requires PrefixDone(info, states, t, k + 1) && info.tasks[t].Ordered? && Listed(ends, info.tasks[t].children)
    requires Elements(exits) == Chained(ends, info.tasks[t].children, k).exits
    requires Elements(entries) == ends[info.tasks[t].children[k]].entries
    requires forall x: nat, y: nat :: Edge(f, x, y) ==> Edge(e, x, y) || (x in exits && y in entries)
    ensures Exact(info, p, states, boundaries, ends, f)
  {
    forall x: nat, y: nat | Edge(f, x, y) && !Edge(e, x, y) ensures Explained(info, states, ends, x, y) {
      assert x in Elements(exits) && y in Elements(entries);
      assert ExplainedAt(info, states, ends, t, k, x, y);
    }
    ExactKept(info, p, states, boundaries, ends, e, states, boundaries, ends, f);
  }

  /** The first `k` children of an unordered task, pooled. */
  ghost predicate Pooling(info: TaskInfo, p: Packing, states: seq<State>, ends: seq<Ends>, edges: Rel, t: nat, k: nat,
                          entries: seq<nat>, exits: seq<nat>)
  {
    && PrefixDone(info, states, t, k) && Listed(ends, Children(info.tasks[t]))
    && Bounds(edges, AtomsOfFirst(info, p, Children(info.tasks[t]), k), Elements(entries), Elements(exits))
    && Ends(Elements(entries), Elements(exits)) == Pooled(ends, Children(info.tasks[t]), k)
  }

  lemma PoolBegins(info: TaskInfo, p: Packing, states: seq<State>, ends: seq<Ends>, edges: Rel, t: nat)
    requires WellFormed(info) && |ends| == |info.tasks| && t < |info.tasks|
    ensures Pooling(info, p, states, ends, edges, t, 0, [], [])
  {
    EmptyElements([]);
  }

  lemma Pool(info: TaskInfo, p: Packing, states: seq<State>, ends: seq<Ends>, e: Rel,
             states': seq<State>, boundaries: seq<Option<Boundary>>, ends': seq<Ends>, f: Rel, t: nat, k: nat,
             entries: seq<nat>, exits: seq<nat>, child: Boundary)
    requires Pooling(info, p, states, ends, e, t, k, entries, exits) && k < |Children(info.tasks[t])|
    requires Moved(states, ends, e, states', ends', f)
    requires Recorded(info, p, states', boundaries, ends', f, Children(info.tasks[t])[k], child)
    ensures Pooling(info, p, states', ends', f, t, k + 1, entries + child.entries, exits + child.exits)
  {
    var children := Children(info.tasks[t]);
    ChainedKept(states, ends, ends', children, k);
    PoolBounds(e, f, AtomsOfFirst(info, p, children, k), entries, exits, AtomsIn(info, p, children[k]), child);
    PooledNext(ends', children, k, entries, exits, child);
    PrefixNext(info, states, states', t, k);
  }

  lemma PrefixNext(info: TaskInfo, states: seq<State>, states': seq<State>, t: nat, k: nat)
    requires PrefixDone(info, states, t, k) && k < |Children(info.tasks[t])| && Progress(states, states')
    requires Children(info.tasks[t])[k] < |states'| && states'[Children(info.tasks[t])[k]] == Done
    ensures PrefixDone(info, states', t, k + 1)
  {
  }

  lemma PoolBounds(e: Rel, f: Rel, atoms: set<nat>, entries: seq<nat>, exits: seq<nat>, more: set<nat>, child: Boundary)
    requires Bounds(e, atoms, Elements(entries), Elements(exits)) && Grown(e, f)
    requires Bounds(f, more, Elements(child.entries), Elements(child.exits))
    ensures Bounds(f, atoms + more, Elements(entries + child.entries), Elements(exits + child.exits))
  {
    BoundsGrown(e, f, atoms, Elements(entries), Elements(exits));
    BoundsPooled(f, atoms, Elements(entries), Elements(exits), more, Elements(child.entries), Elements(child.exits));
    ElementsOfSum(entries, child.entries);
    ElementsOfSum(exits, child.exits);
  }

  lemma PooledNext(ends: seq<Ends>, children: seq<nat>, k: nat, entries: seq<nat>, exits: seq<nat>, child: Boundary)
    requires k < |children| && Listed(ends, children) && EndsOf(child) == ends[children[k]]
    requires Ends(Elements(entries), Elements(exits)) == Pooled(ends, children, k)
    ensures Ends(Elements(entries + child.entries), Elements(exits + child.exits)) == Pooled(ends, children, k + 1)
  {
    ElementsOfSum(entries, child.entries);
    ElementsOfSum(exits, child.exits);
  }

  lemma PoolEnds(info: TaskInfo, p: Packing, states: seq<State>, ends: seq<Ends>, edges: Rel, t: nat,
                 entries: seq<nat>, exits: seq<nat>, entries': seq<nat>, exits': seq<nat>)
    requires WellFormed(info) && |ends| == |info.tasks| == |p.index| && t < |info.tasks| && info.tasks[t].Unordered?
    requires Pooling(info, p, states, ends, edges, t, |info.tasks[t].children|, entries, exits)
    requires forall x: nat :: x in entries' <==> x in entries
    requires forall x: nat :: x in exits' <==> x in exits
    ensures Built(info, p, states, ends, edges, t, Boundary(entries', exits'))
  {
    AtomsOfAll(info, p, t);
    assert Elements(entries') == Elements(entries) && Elements(exits') == Elements(exits);
  }

  /** The first `k` children of an ordered task, chained. */
  ghost predicate Chaining(info: TaskInfo, p: Packing, states: seq<State>, ends: seq<Ends>, edges: Rel, t: nat, k: nat,
                           entries: seq<nat>, previous: Option<seq<nat>>)
  {
    && WellFormed(info) && |ends| == |info.tasks|
    && PrefixDone(info, states, t, k) && info.tasks[t].Ordered? && Listed(ends, info.tasks[t].children)
    && Bounds(edges, AtomsOfFirst(info, p, info.tasks[t].children, k), Elements(entries), Elements(OrEmpty(previous)))
    && (previous.None? <==> entries == [])
    && Ends(Elements(entries), Elements(OrEmpty(previous))) == Chained(ends, info.tasks[t].children, k)
    && Honoured(info, ends, edges, t, k)
  }

  lemma ChainBegins(info: TaskInfo, p: Packing, states: seq<State>, ends: seq<Ends>, edges: Rel, t: nat)
    requires WellFormed(info) && |ends| == |info.tasks| && t < |info.tasks| && info.tasks[t].Ordered?
    ensures Chaining(info, p, states, ends, edges, t, 0, [], None)
  {
    EmptyElements([]);
    assert info.tasks[t].children == Children(info.tasks[t]);
  }

  lemma ChainingKept(info: TaskInfo, p: Packing, states: seq<State>, ends: seq<Ends>, e: Rel,
                     states': seq<State>, ends': seq<Ends>, f: Rel, t: nat, k: nat,
                     entries: seq<nat>, previous: Option<seq<nat>>)
    requires Chaining(info, p, states, ends, e, t, k, entries, previous)
    requires Moved(states, ends, e, states', ends', f)
    ensures Chaining(info, p, states', ends', f, t, k, entries, previous)
  {
    ChainedKept(states, ends, ends', info.tasks[t].children, k);
    BoundsGrown(e, f, AtomsOfFirst(info, p, info.tasks[t].children, k), Elements(entries), Elements(OrEmpty(previous)));
    HonouredKept(info, states, ends, ends', e, f, t, k);
  }

  /** Once the edges of child `k` are there, so are those of the first `k + 1`. */
  lemma HonouredNext(info: TaskInfo, ends: seq<Ends>, edges: Rel, t: nat, k: nat)
    requires WellFormed(info) && |ends| == |info.tasks| && Honoured(info, ends, edges, t, k)
    requires forall x: nat, y: nat :: JoinAt(info, ends, t, k, x, y) ==> Edge(edges, x, y)
    ensures Honoured(info, ends, edges, t, k + 1)
  {
  }

  /** A child without atoms changes nothing. */
  lemma ChainEmpty(info: TaskInfo, p: Packing, states: seq<State>, ends: seq<Ends>, edges: Rel, t: nat, k: nat,
                   entries: seq<nat>, previous: Option<seq<nat>>, child: Boundary)
    requires Chaining(info, p, states, ends, edges, t, k, entries, previous)
    requires PrefixDone(info, states, t, k + 1)
    requires BoundsTask(info, p, edges, info.tasks[t].children[k], child) && child.entries == []
    requires EndsOf(child) == ends[info.tasks[t].children[k]]
    ensures Chaining(info, p, states, ends, edges, t, k + 1, entries, previous)
  {
    var children := info.tasks[t].children;
    var atoms, more := AtomsOfFirst(info, p, children, k), AtomsIn(info, p, children[k]);
    BoundsEmpty(edges, more, Elements(child.entries), Elements(child.exits));
    EmptyElements(child.entries);
    assert atoms + more == atoms;
    HonouredNext(info, ends, edges, t, k);
  }

  /** The first child with atoms begins the chain. */
  lemma ChainFirst(info: TaskInfo, p: Packing, states: seq<State>, ends: seq<Ends>, edges: Rel, t: nat, k: nat,
                   child: Boundary)
    requires Chaining(info, p, states, ends, edges, t, k, [], None)
    requires PrefixDone(info, states, t, k + 1)
    requires BoundsTask(info, p, edges, info.tasks[t].children[k], child) && child.entries != []
    requires EndsOf(child) == ends[info.tasks[t].children[k]]
    ensures Chaining(info, p, states, ends, edges, t, k + 1, child.entries, Some(child.exits))
  {
    var children := info.tasks[t].children;
    var atoms, more := AtomsOfFirst(info, p, children, k), AtomsIn(info, p, children[k]);
    BoundsEmpty(edges, atoms, Elements([]), Elements([]));
    EmptyElements([]);
    EmptyElements(child.entries);
    assert atoms + more == more;
    HonouredNext(info, ends, edges, t, k);
  }

  lemma ExitsInRange(info: TaskInfo, p: Packing, states: seq<State>, ends: seq<Ends>, edges: Rel, t: nat, k: nat,
                     entries: seq<nat>, exits: seq<nat>)
    requires Chaining(info, p, states, ends, edges, t, k, entries, Some(exits))
    ensures forall x: nat :: x in exits ==> x < |p.tasks|
  {
    forall x: nat | x in exits ensures x < |p.tasks| {
      assert x in Elements(exits);
      AtomsOfEach(info, p, info.tasks[t].children, k, x);
    }
  }

  lemma ChainJoined(info: TaskInfo, p: Packing, states: seq<State>, ends: seq<Ends>, e: Rel, f: Rel, t: nat, k: nat,
                    entries: seq<nat>, exits: seq<nat>, child: Boundary)
    requires Chaining(info, p, states, ends, e, t, k, entries, Some(exits)) && Grown(e, f)
    requires PrefixDone(info, states, t, k + 1)
    requires BoundsTask(info, p, e, info.tasks[t].children[k], child) && child.entries != []
    requires EndsOf(child) == ends[info.tasks[t].children[k]]
    requires Joined(f, Elements(exits), Elements(child.entries))
    ensures Chaining(info, p, states, ends, f, t, k + 1, entries, Some(child.exits))
  {
    var children := info.tasks[t].children;
    var atoms, more := AtomsOfFirst(info, p, children, k), AtomsIn(info, p, children[k]);
    EmptyElements(child.entries);
    EmptyElements(entries);
    BoundsGrown(e, f, atoms, Elements(entries), Elements(exits));
    BoundsGrown(e, f, more, Elements(child.entries), Elements(child.exits));
    BoundsChained(f, atoms, Elements(entries), Elements(exits), more, Elements(child.entries), Elements(child.exits));
    HonouredNext(info, ends, f, t, k);
  }

  lemma ChainEnds(info: TaskInfo, p: Packing, states: seq<State>, ends: seq<Ends>, edges: Rel, t: nat,
                  entries: seq<nat>, previous: Option<seq<nat>>)
    requires WellFormed(info) && |ends| == |info.tasks| == |p.index| && t < |info.tasks| && info.tasks[t].Ordered?
    requires Chaining(info, p, states, ends, edges, t, |info.tasks[t].children|, entries, previous)
    ensures Built(info, p, states, ends, edges, t, Boundary(entries, OrEmpty(previous)))
  {
    AtomsOfAll(info, p, t);
  }
}
