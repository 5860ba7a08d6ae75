/** The passes between boundaries and sorting (`src/compiler.rs:179-257`): all boundaries, the task
    order as an edge table, and the walk through empty tasks that turns task order into atom edges.
    Together they make atom reachability equal to the description's precedence.
 */
module Contraction {
  import opened Relations
  import opened Sequences
  import opened Model
  import opened Meaning
  import opened Boundaries
  import opened AtomEdges
  import opened BoundaryPass
  import opened SearchOrder

  ghost predicate BoundsAll(info: TaskInfo, p: Packing, edges: Rel, bs: seq<Boundary>) {
    |bs| == |info.tasks| && forall t: nat {:trigger BoundsTask(info, p, edges, t, bs[t])} ::
      t < |bs| ==> BoundsTask(info, p, edges, t, bs[t])
  }

  lemma BoundsAllGrown(info: TaskInfo, p: Packing, e: Rel, f: Rel, bs: seq<Boundary>)
    requires BoundsAll(info, p, e, bs) && Grown(e, f)
    ensures BoundsAll(info, p, f, bs)
  {
    forall t: nat | t < |bs| ensures BoundsTask(info, p, f, t, bs[t]) {
      assert BoundsTask(info, p, e, t, bs[t]);
      BoundsGrown(e, f, AtomsIn(info, p, t), Elements(bs[t].entries), Elements(bs[t].exits));
    }
  }

  ghost function EndsAll(bs: seq<Boundary>): (ends: seq<Ends>)
    ensures |ends| == |bs| && forall t :: 0 <= t < |bs| ==> ends[t] == EndsOf(bs[t])
  {
    seq(|bs|, t requires 0 <= t < |bs| => EndsOf(bs[t]))
  }

  /** Computes every boundary; fails exactly when some task contains itself.  The boundaries have the
      ends, and the edges are the ones, that the description determines (`src/compiler.rs:179-205`). */
  method BuildBoundaries(info: TaskInfo, p: Packing) returns (r: Result<(seq<Boundary>, Rel), GraphCycle>)
    requires WellFormed(info) && IsPacking(info, p)
    ensures r.Ok? <==> Acyclic(Contains(info))
    ensures r.Err? ==> IsCycle(Contains(info), r.error.nodes) && FirstCycle(ChildLists(info), r.error.nodes)
    ensures r.Ok? ==> BoundsAll(info, p, r.value.1, r.value.0) && |r.value.1| == |p.tasks|
    ensures r.Ok? ==> IsEnds(info, p, EndsAll(r.value.0)) && exists height: seq<nat> :: IsHeight(info, height)
    ensures r.Ok? ==> forall x: nat, y: nat :: Edge(r.value.1, x, y) <==> Emitted(info, EndsAll(r.value.0), x, y)
  {
    var build := new BoundaryBuild(info, p);
    for t := 0 to |info.tasks|
      invariant fresh(build) && build.Valid(info, p) && build.stack == []
      invariant forall u :: 0 <= u < t ==> build.states[u] == Done
    {
      ghost var goal := CycleNodes(Contains(info));
      forall u: nat | u < t ensures !Hits(Contains(info), goal, u) { build.DoneAcyclic(info, p, u); }
      var b := build.Build(info, p, t);
      if b.Err? {
        ChildListsContain(info);
        CycleFromLeast(ChildLists(info), t, b.error.nodes);
        FirstCycleMeans(ChildLists(info), b.error.nodes);
        CycleReach(Contains(info), b.error.nodes);
        return Err(b.error);
      }
    }
    var bs := [];
    for t := 0 to |info.tasks|
      invariant |bs| == t && build.Valid(info, p) && forall u :: 0 <= u < |info.tasks| ==> build.states[u] == Done
      invariant forall u :: 0 <= u < t ==> build.boundaries[u] == Some(bs[u])
    {
      build.DoneRecorded(info, p, t);
      bs := bs + [build.boundaries[t].value];
    }
    ghost var height := AllDone(info, p, build, bs);
    r := Ok((bs, build.atomEdges));
  }

  lemma AllDone(info: TaskInfo, p: Packing, build: BoundaryBuild, bs: seq<Boundary>) returns (height: seq<nat>)
    requires WellFormed(info) && IsPacking(info, p) && build.Valid(info, p) && |bs| == |info.tasks|
    requires forall u :: 0 <= u < |bs| ==> build.states[u] == Done && build.boundaries[u] == Some(bs[u])
    ensures IsHeight(info, height) && Acyclic(Contains(info))
    ensures BoundsAll(info, p, build.atomEdges, bs) && IsEnds(info, p, EndsAll(bs))
    ensures forall x: nat, y: nat :: Edge(build.atomEdges, x, y) <==> Emitted(info, EndsAll(bs), x, y)
  {
    height := build.rank;
    forall t: nat | t < |bs| ensures BoundsTask(info, p, build.atomEdges, t, bs[t]) {
      build.DoneRecorded(info, p, t);
    }
    forall t: nat, c: nat | Edge(Contains(info), t, c) ensures c < |height| && height[c] < height[t] {
      var k :| 0 <= k < |Children(info.tasks[t])| && Children(info.tasks[t])[k] == c;
      assert build.FinishedHere(info, p, t);
    }
    HeightAcyclic(info, height);
    ExactDone(info, p, build.states, build.boundaries, build.ends, build.atomEdges, bs);
  }

  lemma HeightAcyclic(info: TaskInfo, height: seq<nat>)
    requires IsHeight(info, height)
    ensures Acyclic(Contains(info))
  {
    var top := Highest(height);
    var depth := seq(|height|, t requires 0 <= t < |height| => if height[t] <= top then top - height[t] else 0);
    assert forall t :: 0 <= t < |height| ==> height[t] in height;
    RankedAcyclic(Contains(info), depth);
  }

  lemma Highest(height: seq<nat>) returns (top: nat)
    ensures forall h: nat :: h in height ==> h <= top
  {
    if height == [] {
      top := 0;
    } else {
      var rest := Highest(height[1..]);
      top := if rest < height[0] then height[0] else rest;
      assert height == [height[0]] + height[1..];
    }
  }

  lemma ExactDone(info: TaskInfo, p: Packing, states: seq<State>, boundaries: seq<Option<Boundary>>, ends: seq<Ends>,
                  edges: Rel, bs: seq<Boundary>)
    requires WellFormed(info) && Exact(info, p, states, boundaries, ends, edges) && |bs| == |info.tasks|
    requires forall u :: 0 <= u < |bs| ==> states[u] == Done && boundaries[u] == Some(bs[u])
    ensures EndsAll(bs) == ends && IsEnds(info, p, ends)
    ensures forall x: nat, y: nat :: Edge(edges, x, y) <==> Emitted(info, ends, x, y)
  {
    forall t: nat | t < |bs| ensures ends[t] == EndsOf(bs[t]) == LocalEnds(info, p, ends, t) {
      assert ExactAt(info, p, states, boundaries, ends, edges, t);
    }
    forall x: nat, y: nat ensures Edge(edges, x, y) <==> Emitted(info, ends, x, y) {
      if Edge(edges, x, y) {
        var t: nat, k: nat :| ExplainedAt(info, states, ends, t, k, x, y);
        assert JoinAt(info, ends, t, k, x, y);
      }
      if t: nat, k: nat :| JoinAt(info, ends, t, k, x, y) {
        assert ExactAt(info, p, states, boundaries, ends, edges, t);
      }
    }
  }

  lemma SameEdges(r: Rel, q: Rel)
    requires |r| == |q| && forall u: nat, v: nat :: Edge(r, u, v) <==> Edge(q, u, v)
    ensures r == q
  {
    forall u | 0 <= u < |r| ensures r[u] == q[u] {
      assert forall v: nat :: v in r[u] <==> Edge(r, u, v);
      assert forall v: nat :: v in q[u] <==> Edge(q, u, v);
    }
  }

  ghost predicate ConsecutiveIn(info: TaskInfo, t: nat, u: nat, v: nat) {
    exists i: nat :: ConsecutiveAt(info, t, i, u, v)
  }

  /** The task order as an edge table (`src/compiler.rs:207-230`). */
  method TaskEdges(info: TaskInfo) returns (edges: Rel)
    requires WellFormed(info)
    ensures edges == TaskOrder(info)
  {
    edges := seq(|info.tasks|, _ => {});
    var keys := info.happensBefore.Keys;
    while keys != {}
      invariant keys <= info.happensBefore.Keys && |edges| == |info.tasks|
      invariant forall u: nat, v: nat :: Edge(edges, u, v) <==>
        u in info.happensBefore && u !in keys && v in info.happensBefore[u]
      decreases keys
    {
      var from :| from in keys;
      ghost var before, left := edges, keys;
      keys := keys - {from};
      edges := edges[from := edges[from] + (set v | v in info.happensBefore[from])];
      forall u: nat, v: nat
        ensures Edge(edges, u, v) <==> u in info.happensBefore && u !in keys && v in info.happensBefore[u]
      {
        assert Edge(edges, u, v) <==> Edge(before, u, v) || (u == from && v in info.happensBefore[from]);
      }
    }
    for t := 0 to |info.tasks|
      invariant |edges| == |info.tasks|
      invariant forall u: nat, v: nat :: Edge(edges, u, v) <==>
        || (u in info.happensBefore && v in info.happensBefore[u])
        || exists t': nat :: t' < t && ConsecutiveIn(info, t', u, v)
    {
      ghost var before := edges;
      if info.tasks[t].Ordered? {
        edges := AddConsecutive(info, t, edges);
      }
      assert forall u: nat, v: nat :: Edge(edges, u, v) <==> Edge(before, u, v) || ConsecutiveIn(info, t, u, v);
    }
    forall u: nat, v: nat ensures Edge(edges, u, v) <==> Constrained(info, u, v) {
      if t: nat, i: nat :| ConsecutiveAt(info, t, i, u, v) {
        assert t < |info.tasks| && ConsecutiveIn(info, t, u, v);
      }
    }
    SameEdges(edges, TaskOrder(info));
  }

  /** Adds the edges between consecutive children of one ordered task. */
  method AddConsecutive(info: TaskInfo, t: nat, edges: Rel) returns (r: Rel)
    requires WellFormed(info) && t < |info.tasks| && info.tasks[t].Ordered? && |edges| == |info.tasks|
    ensures |r| == |edges|
    ensures forall u: nat, v: nat :: Edge(r, u, v) <==> Edge(edges, u, v) || ConsecutiveIn(info, t, u, v)
  {
    var children := info.tasks[t].children;
    assert children == Children(info.tasks[t]);
    r := edges;
    var i := 0;
    while i + 1 < |children|
      invariant |r| == |edges|
      invariant forall u: nat, v: nat :: Edge(r, u, v) <==>
        Edge(edges, u, v) || exists j: nat :: j < i && ConsecutiveAt(info, t, j, u, v)
    {
      var from, to := children[i], children[i + 1];
      ghost var before := r;
      r := r[from := r[from] + {to}];
      forall u: nat, v: nat ensures Edge(r, u, v) <==> Edge(before, u, v) || ConsecutiveAt(info, t, i, u, v) {
        assert ConsecutiveAt(info, t, i, u, v) <==> u == from && v == to;
      }
      i := i + 1;
    }
  }

  // ----- walking through empty tasks

  ghost function Unmarked(seen: seq<bool>): set<nat> {
    set s | 0 <= s < |seen| && !seen[s]
  }

  /** Task `s` has been met by the walk: it is waiting on the stack or done with. */
  ghost predicate Met(seen: seq<bool>, stack: seq<nat>, s: nat) {
    s in stack || (s < |seen| && seen[s])
  }

  /** The walk from `from`: it meets only what is reached through empty tasks, and leaves none out. */
  ghost predicate Walking(order: Rel, ends: seq<Ends>, from: nat, seen: seq<bool>, stack: seq<nat>) {
    && from < |ends| == |seen|
    && (forall s: nat {:trigger Met(seen, stack, s)} :: Met(seen, stack, s) ==> s < |ends| && Through(order, ends, from, s))
    && (forall s: nat :: Edge(order, from, s) ==> Met(seen, stack, s))
    && (forall s: nat, u: nat :: s < |seen| && seen[s] && Passes(order, ends, s, u) ==> Met(seen, stack, u))
  }

  /** The edges joined so far: from `from` to every task the walk is done with. */
  ghost predicate Walked(ends: seq<Ends>, first: Rel, edges: Rel, from: nat, seen: seq<bool>) {
    && from < |ends| == |seen| && |edges| == |first|
    && forall x: nat, y: nat :: Edge(edges, x, y) <==> Edge(first, x, y) || WalkedTo(ends, from, seen, x, y)
  }

  ghost predicate WalkedTo(ends: seq<Ends>, from: nat, seen: seq<bool>, x: nat, y: nat)
    requires from < |ends| == |seen|
  {
    exists to: nat :: to < |seen| && seen[to] && x in ends[from].exits && y in ends[to].entries
  }

  lemma WalkBegins(order: Rel, ends: seq<Ends>, from: nat, seen: seq<bool>, stack: seq<nat>)
    requires from < |ends| == |seen| == |order| && RelInRange(order) && forall s :: 0 <= s < |seen| ==> !seen[s]
    requires forall s: nat :: s in stack <==> Edge(order, from, s)
    ensures Walking(order, ends, from, seen, stack)
  {
    forall s: nat | Met(seen, stack, s) ensures s < |ends| && Through(order, ends, from, s) {
      ThroughEdge(order, ends, from, s);
    }
  }

  /** Popping a task that is already done with. */
  lemma WalkSkip(order: Rel, ends: seq<Ends>, from: nat, seen: seq<bool>, rest: seq<nat>, to: nat)
    requires Walking(order, ends, from, seen, rest + [to]) && to < |seen| && seen[to]
    ensures Walking(order, ends, from, seen, rest)
  {
    assert forall s: nat :: s in rest + [to] <==> s in rest || s == to;
    forall s: nat ensures Met(seen, rest, s) <==> Met(seen, rest + [to], s) {}
  }

  /** Popping a task and pushing its successors if it is empty. */
  lemma WalkOn(order: Rel, ends: seq<Ends>, from: nat, seen: seq<bool>, rest: seq<nat>, to: nat, more: seq<nat>)
    requires Walking(order, ends, from, seen, rest + [to]) && to < |seen| && |order| == |ends| && RelInRange(order)
    requires forall u: nat :: u in more <==> Passes(order, ends, to, u)
    ensures Walking(order, ends, from, seen[to := true], rest + more)
  {
    var seen', stack' := seen[to := true], rest + more;
    assert forall s: nat :: s in stack' <==> s in rest || s in more;
    assert forall s: nat :: s in rest + [to] <==> s in rest || s == to;
    assert Met(seen, rest + [to], to);
    forall s: nat ensures Met(seen', stack', s) <==> Met(seen, rest + [to], s) || Passes(order, ends, to, s) {
    }
    forall s: nat | Met(seen', stack', s) ensures s < |ends| && Through(order, ends, from, s) {
      if Passes(order, ends, to, s) { ThroughOne(order, ends, from, to, s); }
    }
    forall s: nat, u: nat | s < |seen'| && seen'[s] && Passes(order, ends, s, u) ensures Met(seen', stack', u) {
      assert s != to ==> Met(seen, rest + [to], u);
    }
  }

  /** At the end, the tasks done with are exactly those reached through empty tasks. */
  lemma WalkEnds(order: Rel, ends: seq<Ends>, from: nat, seen: seq<bool>, s: nat)
    requires Walking(order, ends, from, seen, [])
    ensures Through(order, ends, from, s) <==> s < |seen| && seen[s]
  {
    var done := set u: nat | u < |seen| && seen[u];
    assert forall u: nat :: Met(seen, [], u) <==> u in done;
    if Through(order, ends, from, s) {
      var n: nat :| ThroughIn(order, ends, n, from, s);
      ThroughClosed(order, ends, n, from, s, done);
    }
    if s < |seen| && seen[s] {
      assert Met(seen, [], s);
    }
  }

  lemma WalkedSkip(ends: seq<Ends>, first: Rel, edges: Rel, from: nat, seen: seq<bool>, to: nat)
    requires Walked(ends, first, edges, from, seen) && to < |seen| && ends[to].entries == {}
    ensures Walked(ends, first, edges, from, seen[to := true])
  {
    forall x: nat, y: nat ensures WalkedTo(ends, from, seen[to := true], x, y) <==> WalkedTo(ends, from, seen, x, y) {
      if u: nat :| u < |seen| && seen[u] && x in ends[from].exits && y in ends[u].entries {
        assert seen[to := true][u];
      }
    }
  }

  lemma WalkedJoin(ends: seq<Ends>, first: Rel, e: Rel, f: Rel, from: nat, seen: seq<bool>, to: nat)
    requires Walked(ends, first, e, from, seen) && to < |seen| && Grown(e, f)
    requires Joined(f, ends[from].exits, ends[to].entries)
    requires forall x: nat, y: nat :: Edge(f, x, y) ==> Edge(e, x, y) || (x in ends[from].exits && y in ends[to].entries)
    ensures Walked(ends, first, f, from, seen[to := true])
  {
    var seen' := seen[to := true];
    forall x: nat, y: nat ensures Edge(f, x, y) <==> Edge(first, x, y) || WalkedTo(ends, from, seen', x, y) {
      if Edge(f, x, y) && !Edge(e, x, y) {
        assert seen'[to];
      }
      if WalkedTo(ends, from, seen, x, y) {
        var u: nat :| u < |seen| && seen[u] && x in ends[from].exits && y in ends[u].entries;
        assert seen'[u];
      }
    }
  }

  lemma WalkedEnds(order: Rel, ends: seq<Ends>, first: Rel, edges: Rel, from: nat, seen: seq<bool>)
    requires Walking(order, ends, from, seen, []) && Walked(ends, first, edges, from, seen)
    ensures forall x: nat, y: nat :: Edge(edges, x, y) <==> Edge(first, x, y) || ContractedFrom(order, ends, from, x, y)
  {
    forall x: nat, y: nat ensures WalkedTo(ends, from, seen, x, y) <==> ContractedFrom(order, ends, from, x, y) {
      if to: nat :| to < |seen| && seen[to] && x in ends[from].exits && y in ends[to].entries {
        WalkEnds(order, ends, from, seen, to);
        assert ContractedAt(order, ends, from, to, x, y);
      }
      if to: nat :| ContractedAt(order, ends, from, to, x, y) {
        WalkEnds(order, ends, from, seen, to);
      }
    }
  }

  /** Follows the edges of one non-empty task through empty ones (`src/compiler.rs:242-256`). */
  method ContractFrom(order: Rel, bs: seq<Boundary>, from: nat, edges: Rel) returns (r: Rel)
    requires |order| == |bs| && RelInRange(order) && from < |bs|
    requires forall i :: 0 <= i < |bs[from].exits| ==> bs[from].exits[i] < |edges|
    ensures |r| == |edges|
    ensures forall x: nat, y: nat ::
      Edge(r, x, y) <==> Edge(edges, x, y) || ContractedFrom(order, EndsAll(bs), from, x, y)
  {
    ghost var ends := EndsAll(bs);
    r := edges;
    var seen := seq(|bs|, _ => false);
    var stack := Collect(order[from]);
    WalkBegins(order, ends, from, seen, stack);
    while stack != []
      invariant Walking(order, ends, from, seen, stack) && Walked(ends, edges, r, from, seen)
      decreases Unmarked(seen), |stack|
    {
      var to, rest := stack[|stack| - 1], stack[..|stack| - 1];
      assert stack == rest + [to] && Met(seen, stack, to);
      if seen[to] {
        WalkSkip(order, ends, from, seen, rest, to);
        stack := rest;
        continue;
      }
      assert to in Unmarked(seen) && Unmarked(seen[to := true]) == Unmarked(seen) - {to};
      EmptyElements(bs[to].entries);
      if bs[to].entries == [] {
        var more := Collect(order[to]);
        WalkOn(order, ends, from, seen, rest, to, more);
        WalkedSkip(ends, edges, r, from, seen, to);
        stack := rest + more;
      } else {
        WalkOn(order, ends, from, seen, rest, to, []);
        r := JoinTasks(bs, edges, r, from, to, seen);
        assert rest + [] == rest;
        stack := rest;
      }
      seen := seen[to := true];
    }
    WalkedEnds(order, ends, edges, r, from, seen);
  }

  method JoinTasks(bs: seq<Boundary>, ghost first: Rel, e: Rel, from: nat, to: nat, ghost seen: seq<bool>) returns (f: Rel)
    requires from < |bs| && to < |bs| == |seen| && Walked(EndsAll(bs), first, e, from, seen)
    requires forall i :: 0 <= i < |bs[from].exits| ==> bs[from].exits[i] < |first|
    ensures Walked(EndsAll(bs), first, f, from, seen[to := true])
  {
    f := Join(e, bs[from].exits, bs[to].entries);
    WalkedJoin(EndsAll(bs), first, e, f, from, seen, to);
  }

  /** Contracts from every non-empty task (`src/compiler.rs:232-257`). */
  method ContractAll(info: TaskInfo, p: Packing, order: Rel, bs: seq<Boundary>, edges: Rel) returns (r: Rel)
    requires WellFormed(info) && order == TaskOrder(info) && BoundsAll(info, p, edges, bs) && |edges| == |p.tasks|
    requires forall x: nat, y: nat :: Edge(edges, x, y) <==> Emitted(info, EndsAll(bs), x, y)
    ensures |r| == |edges| && BoundsAll(info, p, r, bs) && IsAtomEdges(info, EndsAll(bs), r)
  {
    ghost var ends := EndsAll(bs);
    r := edges;
    for from := 0 to |info.tasks|
      invariant |r| == |edges|
      invariant forall x: nat, y: nat :: Edge(r, x, y) <==>
        Edge(edges, x, y) || exists u: nat :: u < from && ContractedFrom(order, ends, u, x, y)
    {
      BoundaryInRange(info, p, edges, bs, from);
      if bs[from].entries == [] {
        assert forall x: nat, y: nat :: !ContractedFrom(order, ends, from, x, y);
        continue;
      }
      r := ContractFrom(order, bs, from, r);
    }
    assert forall u: nat, x: nat, y: nat :: ContractedFrom(order, ends, u, x, y) ==> u < |info.tasks|;
    BoundsAllGrown(info, p, edges, r, bs);
  }

  lemma BoundaryInRange(info: TaskInfo, p: Packing, edges: Rel, bs: seq<Boundary>, t: nat)
    requires BoundsAll(info, p, edges, bs) && t < |bs|
    ensures forall i :: 0 <= i < |bs[t].exits| ==> bs[t].exits[i] < |p.tasks|
    ensures bs[t].entries == [] ==> Elements(bs[t].exits) == {}
  {
    assert BoundsTask(info, p, edges, t, bs[t]);
    assert forall i :: 0 <= i < |bs[t].exits| ==> bs[t].exits[i] in Elements(bs[t].exits);
    BoundsEmpty(edges, AtomsIn(info, p, t), Elements(bs[t].entries), Elements(bs[t].exits));
    EmptyElements(bs[t].entries);
  }

  // ----- atom edges mean precedence

  /** What the passes so far have established. */
  ghost predicate Complete(info: TaskInfo, p: Packing, bs: seq<Boundary>, edges: Rel)
    requires WellFormed(info)
  {
    && IsPacking(info, p) && BoundsAll(info, p, edges, bs) && Sound(info, p, edges)
    && IsAtomEdges(info, EndsAll(bs), edges)
  }

  /** Every atom edge is one the description asks for. */
  lemma EdgesSound(info: TaskInfo, p: Packing, bs: seq<Boundary>, edges: Rel)
    requires WellFormed(info) && |edges| == |p.tasks|
    requires BoundsAll(info, p, edges, bs) && IsAtomEdges(info, EndsAll(bs), edges)
    ensures Sound(info, p, edges)
  {
    var ends := EndsAll(bs);
    forall x: nat, y: nat | Edge(edges, x, y)
      ensures x < |p.tasks| && y < |p.tasks| && Before(info, p.tasks[x], p.tasks[y])
    {
      if Emitted(info, ends, x, y) {
        var t: nat, k: nat :| JoinAt(info, ends, t, k, x, y);
        EmittedSound(info, p, bs, edges, t, k, x, y);
      } else {
        var from: nat :| ContractedFrom(TaskOrder(info), ends, from, x, y);
        var to: nat :| ContractedAt(TaskOrder(info), ends, from, to, x, y);
        ContractedSound(info, p, bs, edges, from, to, x, y);
      }
    }
  }

  lemma EmittedSound(info: TaskInfo, p: Packing, bs: seq<Boundary>, edges: Rel, t: nat, k: nat, x: nat, y: nat)
    requires WellFormed(info) && BoundsAll(info, p, edges, bs) && JoinAt(info, EndsAll(bs), t, k, x, y)
    ensures x < |p.tasks| && y < |p.tasks| && Before(info, p.tasks[x], p.tasks[y])
  {
    var children := info.tasks[t].children;
    var j := ChainedExit(EndsAll(bs), children, k, x);
    assert BoundsTask(info, p, edges, children[j], bs[children[j]]);
    assert BoundsTask(info, p, edges, children[k], bs[children[k]]);
    assert x in AtomsIn(info, p, children[j]) && y in AtomsIn(info, p, children[k]);
    OrderedChildren(info, t, j, k);
    assert BeforeVia(info, children[j], children[k], p.tasks[x], p.tasks[y]);
  }

  lemma ContractedSound(info: TaskInfo, p: Packing, bs: seq<Boundary>, edges: Rel, from: nat, to: nat, x: nat, y: nat)
    requires WellFormed(info) && BoundsAll(info, p, edges, bs)
    requires ContractedAt(TaskOrder(info), EndsAll(bs), from, to, x, y)
    ensures x < |p.tasks| && y < |p.tasks| && Before(info, p.tasks[x], p.tasks[y])
  {
    assert BoundsTask(info, p, edges, from, bs[from]) && BoundsTask(info, p, edges, to, bs[to]);
    assert x in AtomsIn(info, p, from) && y in AtomsIn(info, p, to);
    ThroughReach(TaskOrder(info), EndsAll(bs), from, to);
    assert BeforeVia(info, from, to, p.tasks[x], p.tasks[y]);
  }

  /** A task is joined to every task it reaches through empty ones. */
  lemma JoinedThrough(info: TaskInfo, p: Packing, bs: seq<Boundary>, edges: Rel, from: nat, s: nat)
    requires WellFormed(info) && Complete(info, p, bs, edges) && from < |bs| && s < |bs|
    requires Through(TaskOrder(info), EndsAll(bs), from, s)
    ensures Joined(edges, Elements(bs[from].exits), Elements(bs[s].entries))
  {
    forall x: nat, y: nat | x in Elements(bs[from].exits) && y in Elements(bs[s].entries) ensures Edge(edges, x, y) {
      assert ContractedAt(TaskOrder(info), EndsAll(bs), from, s, x, y);
      assert ContractedFrom(TaskOrder(info), EndsAll(bs), from, x, y);
    }
  }

  /** An exit of `from` reaches every atom of a task it is joined to. */
  lemma Arrive(info: TaskInfo, p: Packing, bs: seq<Boundary>, edges: Rel, from: nat, x: nat, s: nat, y: nat)
    requires BoundsAll(info, p, edges, bs) && from < |bs| && s < |bs|
    requires Joined(edges, Elements(bs[from].exits), Elements(bs[s].entries)) && x in Elements(bs[from].exits)
    requires y in AtomsIn(info, p, s)
    ensures Reach(edges, x, y)
  {
    assert BoundsTask(info, p, edges, s, bs[s]);
    assert ReachedFrom(edges, Elements(bs[s].entries), y);
    var e: nat :| e in Elements(bs[s].entries) && ReachRefl(edges, e, y);
    EdgeThenReach(edges, x, e, y);
  }

  /** ... and some exit of that task. */
  lemma PassThrough(info: TaskInfo, p: Packing, bs: seq<Boundary>, edges: Rel, from: nat, x: nat, s: nat)
    returns (z: nat)
    requires BoundsAll(info, p, edges, bs) && from < |bs| && s < |bs| && bs[s].entries != []
    requires Joined(edges, Elements(bs[from].exits), Elements(bs[s].entries)) && x in Elements(bs[from].exits)
    ensures z in Elements(bs[s].exits) && Reach(edges, x, z)
  {
    assert BoundsTask(info, p, edges, s, bs[s]);
    EmptyElements(bs[s].entries);
    var e: nat :| e in Elements(bs[s].entries);
    assert ReachesInto(edges, e, Elements(bs[s].exits));
    z :| z in Elements(bs[s].exits) && ReachRefl(edges, e, z);
    EdgeThenReach(edges, x, e, z);
  }

  lemma Occupied(info: TaskInfo, p: Packing, bs: seq<Boundary>, edges: Rel, t: nat, y: nat)
    requires BoundsAll(info, p, edges, bs) && t < |bs| && y in AtomsIn(info, p, t)
    ensures bs[t].entries != []
    ensures ReachesInto(edges, y, Elements(bs[t].exits))
  {
    assert BoundsTask(info, p, edges, t, bs[t]);
    BoundsEmpty(edges, AtomsIn(info, p, t), Elements(bs[t].entries), Elements(bs[t].exits));
    EmptyElements(bs[t].entries);
    assert ReachesInto(edges, y, Elements(bs[t].exits));
  }

  /** Task `s` has no atoms, or `z` is one of its exits and is reached from `x`. */
  lemma ThroughNext(info: TaskInfo, p: Packing, bs: seq<Boundary>, edges: Rel, from: nat, x: nat, s: nat, u: nat)
    returns (from': nat, z: nat)
    requires WellFormed(info) && Complete(info, p, bs, edges) && from < |bs| && s < |bs| && x in Elements(bs[from].exits)
    requires Through(TaskOrder(info), EndsAll(bs), from, s) && Edge(TaskOrder(info), s, u)
    ensures from' < |bs| && z in Elements(bs[from'].exits) && ReachRefl(edges, x, z)
    ensures Through(TaskOrder(info), EndsAll(bs), from', u)
  {
    EmptyElements(bs[s].entries);
    if bs[s].entries == [] {
      from', z := from, x;
      ThroughOne(TaskOrder(info), EndsAll(bs), from, s, u);
    } else {
      JoinedThrough(info, p, bs, edges, from, s);
      from' := s;
      z := PassThrough(info, p, bs, edges, from, x, s);
      ThroughEdge(TaskOrder(info), EndsAll(bs), s, u);
    }
  }

  /** From any exit of `from`, every atom of every task further on is reached. */
  lemma {:induction false} WalkConnects(info: TaskInfo, p: Packing, bs: seq<Boundary>, edges: Rel,
                                        from: nat, x: nat, n: nat, s: nat, t: nat, y: nat)
    requires WellFormed(info) && Complete(info, p, bs, edges) && from < |bs| && s < |bs| && x in Elements(bs[from].exits)
    requires Through(TaskOrder(info), EndsAll(bs), from, s)
    requires Steps(TaskOrder(info), n, s, t) && y in AtomsIn(info, p, t)
    ensures Reach(edges, x, y)
    decreases n
  {
    if n == 0 {
      JoinedThrough(info, p, bs, edges, from, s);
      Arrive(info, p, bs, edges, from, x, s, y);
    } else {
      var u: nat :| Edge(TaskOrder(info), s, u) && Steps(TaskOrder(info), n - 1, u, t);
      var from', z := ThroughNext(info, p, bs, edges, from, x, s, u);
      WalkConnects(info, p, bs, edges, from', z, n - 1, u, t, y);
      ReachReflTrans(edges, x, z, y);
    }
  }

  /** If the description puts one atom before another, atom edges lead from the one to the other. */
  lemma BeforeReaches(info: TaskInfo, p: Packing, bs: seq<Boundary>, edges: Rel, x: nat, y: nat)
    requires WellFormed(info) && Complete(info, p, bs, edges)
    requires x < |p.tasks| && y < |p.tasks| && Before(info, p.tasks[x], p.tasks[y])
    ensures Reach(edges, x, y)
  {
    var t: nat, u: nat :| BeforeVia(info, t, u, p.tasks[x], p.tasks[y]);
    assert x in AtomsIn(info, p, t) && y in AtomsIn(info, p, u);
    BeforeReachesVia(info, p, bs, edges, t, u, x, y);
  }

  lemma BeforeReachesVia(info: TaskInfo, p: Packing, bs: seq<Boundary>, edges: Rel, t: nat, u: nat, x: nat, y: nat)
    requires WellFormed(info) && Complete(info, p, bs, edges)
    requires x in AtomsIn(info, p, t) && y in AtomsIn(info, p, u) && Reach(TaskOrder(info), t, u)
    ensures Reach(edges, x, y)
  {
    Occupied(info, p, bs, edges, t, x);
    var z: nat :| z in Elements(bs[t].exits) && ReachRefl(edges, x, z);
    ExitReaches(info, p, bs, edges, t, u, z, y);
    ReachReflTrans(edges, x, z, y);
  }

  lemma ExitReaches(info: TaskInfo, p: Packing, bs: seq<Boundary>, edges: Rel, t: nat, u: nat, z: nat, y: nat)
    requires WellFormed(info) && Complete(info, p, bs, edges)
    requires t < |bs| && z in Elements(bs[t].exits) && y in AtomsIn(info, p, u) && Reach(TaskOrder(info), t, u)
    ensures Reach(edges, z, y)
  {
    var n: nat :| n > 0 && Steps(TaskOrder(info), n, t, u);
    var s: nat :| Edge(TaskOrder(info), t, s) && Steps(TaskOrder(info), n - 1, s, u);
    ThroughEdge(TaskOrder(info), EndsAll(bs), t, s);
    WalkConnects(info, p, bs, edges, t, z, n - 1, s, u, y);
  }

  ghost function TaskOf(p: Packing): nat -> nat {
    (x: nat) => if x < |p.tasks| then p.tasks[x] else 0
  }

  ghost function NumberOf(p: Packing): nat -> nat {
    (t: nat) => if t < |p.index| then p.index[t] else 0
  }

  /** Reachability over atom edges is exactly the description's precedence. */
  lemma AtomEdgesMean(info: TaskInfo, p: Packing, bs: seq<Boundary>, edges: Rel, x: nat, y: nat)
    requires WellFormed(info) && Complete(info, p, bs, edges) && x < |p.tasks| && y < |p.tasks|
    ensures Reach(edges, x, y) <==> Reach(Precedence(info), p.tasks[x], p.tasks[y])
  {
    var q := Precedence(info);
    if Reach(edges, x, y) {
      forall a: nat, b: nat | Edge(edges, a, b) ensures Reach(q, TaskOf(p)(a), TaskOf(p)(b)) {
        EdgeReach(q, p.tasks[a], p.tasks[b]);
      }
      ReachSimulated(edges, q, TaskOf(p), x, y);
    }
    if Reach(q, p.tasks[x], p.tasks[y]) {
      forall a: nat, b: nat | Edge(q, a, b) ensures Reach(edges, NumberOf(p)(a), NumberOf(p)(b)) {
        BeforeReaches(info, p, bs, edges, p.index[a], p.index[b]);
      }
      ReachSimulated(q, edges, NumberOf(p), p.tasks[x], p.tasks[y]);
    }
  }
}
