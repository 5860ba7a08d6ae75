/** Exactly which atoms begin and end a task, and exactly which edges the compiler emits between
    atoms, as functions of the description alone (`src/compiler.rs:89-151`,
    `src/compiler.rs:232-257`).
 */
module AtomEdges {
  import opened Relations
  import opened Sequences
  import opened Model
  import opened Meaning
  import opened Boundaries

  datatype Ends = Ends(entries: set<nat>, exits: set<nat>)

  const NOTHING := Ends({}, {})

  ghost function EndsOf(b: Boundary): Ends { Ends(Elements(b.entries), Elements(b.exits)) }

  ghost predicate Listed(ends: seq<Ends>, children: seq<nat>) {
    forall j :: 0 <= j < |children| ==> children[j] < |ends|
  }

  /** The ends of the first `k` of some unordered tasks: all of theirs. */
  ghost function Pooled(ends: seq<Ends>, children: seq<nat>, k: nat): Ends
    requires k <= |children| && Listed(ends, children)
  {
    if k == 0 then NOTHING
    else
      var earlier, e := Pooled(ends, children, k - 1), ends[children[k - 1]];
      Ends(earlier.entries + e.entries, earlier.exits + e.exits)
  }

  /** The ends of the first `k` tasks of a chain: the entries of the first that has any, and the
      exits of the last. */
  ghost function Chained(ends: seq<Ends>, children: seq<nat>, k: nat): Ends
    requires k <= |children| && Listed(ends, children)
  {
    if k == 0 then NOTHING
    else Linked(Chained(ends, children, k - 1), ends[children[k - 1]])
  }

  ghost function Linked(earlier: Ends, e: Ends): Ends {
    if e.entries == {} then earlier
    else Ends(if earlier.entries == {} then e.entries else earlier.entries, e.exits)
  }

  /** The ends of a task, given those of its children. */
  ghost function LocalEnds(info: TaskInfo, p: Packing, ends: seq<Ends>, t: nat): Ends
    requires WellFormed(info) && |ends| == |info.tasks| == |p.index| && t < |info.tasks|
  {
    match info.tasks[t]
    case AtomTask(_) => Ends({p.index[t]}, {p.index[t]})
    case Unordered(children) => assert children == Children(info.tasks[t]); Pooled(ends, children, |children|)
    case Ordered(children) => assert children == Children(info.tasks[t]); Chained(ends, children, |children|)
  }

  ghost predicate IsEnds(info: TaskInfo, p: Packing, ends: seq<Ends>)
    requires WellFormed(info)
  {
    |ends| == |info.tasks| == |p.index| && forall t: nat :: t < |ends| ==> ends[t] == LocalEnds(info, p, ends, t)
  }

  /** Child `k` of ordered task `t` begins with `y`, and the children before it end with `x`. */
  ghost predicate JoinAt(info: TaskInfo, ends: seq<Ends>, t: nat, k: nat, x: nat, y: nat)
    requires WellFormed(info) && |ends| == |info.tasks|
  {
    && t < |info.tasks| && info.tasks[t].Ordered? && k < |info.tasks[t].children|
    && Listed(ends, info.tasks[t].children)
    && x in Chained(ends, info.tasks[t].children, k).exits && y in ends[info.tasks[t].children[k]].entries
  }

  ghost predicate Emitted(info: TaskInfo, ends: seq<Ends>, x: nat, y: nat)
    requires WellFormed(info) && |ends| == |info.tasks|
  {
    exists t: nat, k: nat :: JoinAt(info, ends, t, k, x, y)
  }

  // ----- what the ends depend on

  lemma {:induction false} PooledFrame(e: seq<Ends>, f: seq<Ends>, children: seq<nat>, k: nat)
    requires k <= |children| && Listed(e, children) && Listed(f, children)
    requires forall j :: 0 <= j < k ==> e[children[j]] == f[children[j]]
    ensures Pooled(e, children, k) == Pooled(f, children, k)
  {
    if k > 0 { PooledFrame(e, f, children, k - 1); }
  }

  lemma {:induction false} ChainedFrame(e: seq<Ends>, f: seq<Ends>, children: seq<nat>, k: nat)
    requires k <= |children| && Listed(e, children) && Listed(f, children)
    requires forall j :: 0 <= j < k ==> e[children[j]] == f[children[j]]
    ensures Chained(e, children, k) == Chained(f, children, k)
  {
    if k > 0 { ChainedFrame(e, f, children, k - 1); }
  }

  lemma LocalFrame(info: TaskInfo, p: Packing, e: seq<Ends>, f: seq<Ends>, t: nat)
    requires WellFormed(info) && |e| == |f| == |info.tasks| == |p.index| && t < |info.tasks|
    requires forall j :: 0 <= j < |Children(info.tasks[t])| ==>
      e[Children(info.tasks[t])[j]] == f[Children(info.tasks[t])[j]]
    ensures LocalEnds(info, p, e, t) == LocalEnds(info, p, f, t)
  {
    var children := Children(info.tasks[t]);
    PooledFrame(e, f, children, |children|);
    ChainedFrame(e, f, children, |children|);
  }

  /** Containment going down in `height`. */
  ghost predicate IsHeight(info: TaskInfo, height: seq<nat>) {
    && |height| == |info.tasks|
    && forall t: nat, c: nat :: Edge(Contains(info), t, c) ==> c < |height| && height[c] < height[t]
  }

  /** The ends of every task are determined by the description. */
  lemma {:induction false} EndsUnique(info: TaskInfo, p: Packing, e: seq<Ends>, f: seq<Ends>, height: seq<nat>, t: nat)
    requires WellFormed(info) && IsEnds(info, p, e) && IsEnds(info, p, f) && IsHeight(info, height) && t < |info.tasks|
    ensures e[t] == f[t]
    decreases height[t]
  {
    var children := Children(info.tasks[t]);
    forall j | 0 <= j < |children| ensures e[children[j]] == f[children[j]] {
      assert Edge(Contains(info), t, children[j]);
      EndsUnique(info, p, e, f, height, children[j]);
    }
    LocalFrame(info, p, e, f, t);
  }

  /** What ends a chain ends one of its tasks. */
  lemma {:induction false} ChainedExit(ends: seq<Ends>, children: seq<nat>, k: nat, x: nat) returns (j: nat)
    requires k <= |children| && Listed(ends, children) && x in Chained(ends, children, k).exits
    ensures j < k && x in ends[children[j]].exits
  {
    if ends[children[k - 1]].entries == {} {
      j := ChainedExit(ends, children, k - 1, x);
    } else {
      j := k - 1;
    }
  }

  // ----- task order through empty tasks

  /** `s` follows `from` in the task order with `n` tasks in between, all without atoms. */
  ghost predicate ThroughIn(order: Rel, ends: seq<Ends>, n: nat, from: nat, s: nat) {
    if n == 0 then Edge(order, from, s)
    else exists u: nat :: ThroughIn(order, ends, n - 1, from, u) && Passes(order, ends, u, s)
  }

  ghost predicate Passes(order: Rel, ends: seq<Ends>, u: nat, s: nat) {
    u < |ends| && ends[u].entries == {} && Edge(order, u, s)
  }

  ghost predicate Through(order: Rel, ends: seq<Ends>, from: nat, s: nat) {
    exists n: nat :: ThroughIn(order, ends, n, from, s)
  }

  lemma ThroughEdge(order: Rel, ends: seq<Ends>, from: nat, s: nat)
    requires Edge(order, from, s)
    ensures Through(order, ends, from, s)
  {
    assert ThroughIn(order, ends, 0, from, s);
  }

  lemma ThroughOne(order: Rel, ends: seq<Ends>, from: nat, u: nat, s: nat)
    requires Through(order, ends, from, u) && Passes(order, ends, u, s)
    ensures Through(order, ends, from, s)
  {
    var n: nat :| ThroughIn(order, ends, n, from, u);
    assert ThroughIn(order, ends, n + 1, from, s);
  }

  lemma {:induction false} ThroughInReach(order: Rel, ends: seq<Ends>, n: nat, from: nat, s: nat)
    requires ThroughIn(order, ends, n, from, s)
    ensures Reach(order, from, s)
  {
    if n == 0 {
      EdgeReach(order, from, s);
    } else {
      var u: nat :| ThroughIn(order, ends, n - 1, from, u) && Passes(order, ends, u, s);
      ThroughInReach(order, ends, n - 1, from, u);
      ReachThenEdge(order, from, u, s);
    }
  }

  lemma ThroughReach(order: Rel, ends: seq<Ends>, from: nat, s: nat)
    requires Through(order, ends, from, s)
    ensures Reach(order, from, s)
  {
    var n: nat :| ThroughIn(order, ends, n, from, s);
    ThroughInReach(order, ends, n, from, s);
  }

  /** A set that holds the successors of `from` and those of its own empty tasks holds everything
      reached through empty tasks. */
  lemma {:induction false} ThroughClosed(order: Rel, ends: seq<Ends>, n: nat, from: nat, s: nat, seen: set<nat>)
    requires ThroughIn(order, ends, n, from, s)
    requires forall u: nat :: Edge(order, from, u) ==> u in seen
    requires forall u: nat, v: nat :: u in seen && Passes(order, ends, u, v) ==> v in seen
    ensures s in seen
  {
    if n > 0 {
      var u: nat :| ThroughIn(order, ends, n - 1, from, u) && Passes(order, ends, u, s);
      ThroughClosed(order, ends, n - 1, from, u, seen);
    }
  }

  // ----- the edges

  ghost predicate ContractedAt(order: Rel, ends: seq<Ends>, from: nat, to: nat, x: nat, y: nat) {
    from < |ends| && to < |ends| && Through(order, ends, from, to) && x in ends[from].exits && y in ends[to].entries
  }

  ghost predicate ContractedFrom(order: Rel, ends: seq<Ends>, from: nat, x: nat, y: nat) {
    exists to: nat :: ContractedAt(order, ends, from, to, x, y)
  }

  /** An edge between atoms: inside an ordered task, or between tasks ordered through empty ones. */
  ghost predicate AtomEdge(info: TaskInfo, ends: seq<Ends>, x: nat, y: nat)
    requires WellFormed(info) && |ends| == |info.tasks|
  {
    Emitted(info, ends, x, y) || exists from: nat :: ContractedFrom(TaskOrder(info), ends, from, x, y)
  }

  ghost predicate IsAtomEdges(info: TaskInfo, ends: seq<Ends>, edges: Rel)
    requires WellFormed(info) && |ends| == |info.tasks|
  {
    forall x: nat, y: nat :: Edge(edges, x, y) <==> AtomEdge(info, ends, x, y)
  }
}
