/** The iterative Tarjan of `src/graph.rs:103-287`: strongly connected components, with the
    condensation graph built while components are being closed.
 */
module Components {
  import opened Relations
  import opened VecGraphs

  datatype SCCs = SCCs(map_: seq<nat>, comps: seq<seq<nat>>, oDag: VecGraph)

  // ----- what the result means

  ghost predicate Mutual(r: Rel, u: nat, v: nat) {
    ReachRefl(r, u, v) && ReachRefl(r, v, u)
  }

  /** `comps` partitions the nodes, and `map_` says which part a node is in. */
  ghost predicate IsPartition(n: nat, map_: seq<nat>, comps: seq<seq<nat>>) {
    && |map_| == n
    && (forall v :: 0 <= v < n ==> map_[v] < |comps| && v in comps[map_[v]])
    && (forall c, k :: 0 <= c < |comps| && 0 <= k < |comps[c]| ==> comps[c][k] < n && map_[comps[c][k]] == c)
    && (forall c :: 0 <= c < |comps| ==> comps[c] != [] && NoDuplicates(comps[c]))
  }

  /** Some edge of the graph leads from component `c` to component `d`. */
  ghost predicate Crosses(r: Rel, map_: seq<nat>, c: nat, d: nat) {
    exists u: nat, v: nat :: Edge(r, u, v) && u < |map_| && v < |map_| && map_[u] == c && map_[v] == d
  }

  /** `list` holds the components an edge from `c` crosses into: once each, all numbered lower. */
  ghost predicate IsCondensed(r: Rel, map_: seq<nat>, c: nat, list: seq<nat>) {
    && NoDuplicates(list)
    && (forall d: nat :: d in list ==> d < c)
    && (forall d: nat :: d in list <==> d != c && Crosses(r, map_, c, d))
  }

  // ----- the search state

  datatype Visit =
    | NotSeen
    | Working(index: nat, minVal: nat)
    | Done(index: nat, minVal: nat, sccId: nat)

  /** `next` counts the edges the frame's iterator has yielded. */
  datatype Frame = Frame(node: nat, next: nat, successorLen: nat)

  datatype State = State(
    states: seq<Visit>, callStack: seq<Frame>, sccStack: seq<nat>, successors: seq<nat>,
    map_: seq<nat>, comps: seq<seq<nat>>, oDag: VecGraph, index: nat)

  predicate Live(s: State, v: nat) { v < |s.states| && s.states[v].Working? }

  predicate Sealed(s: State, v: nat) { v < |s.states| && s.states[v].Done? }

  ghost function Index(s: State, v: nat): nat {
    if v < |s.states| && !s.states[v].NotSeen? then s.states[v].index else 0
  }

  ghost function Low(s: State, v: nat): nat {
    if v < |s.states| && !s.states[v].NotSeen? then s.states[v].minVal else 0
  }

  ghost function Node(s: State, i: nat): nat
    requires i < |s.callStack|
  {
    s.callStack[i].node
  }

  /** The live nodes found while frame `i` was the deepest that is still open. */
  ghost predicate Segment(s: State, i: nat, x: nat) {
    && i < |s.callStack| && Live(s, x)
    && Index(s, Node(s, i)) <= Index(s, x)
    && (i + 1 < |s.callStack| ==> Index(s, x) < Index(s, Node(s, i + 1)))
  }

  /** Edge `k` of node `x` in segment `i` is fully dealt with.  The edge that frame `i` is waiting
      on, the one to the frame above, is not. */
  ghost predicate Settled(g: Lists, s: State, i: nat, x: nat, k: nat) {
    && Segment(s, i, x) && x < |g| && k < |g[x]|
    && (x == Node(s, i) ==> k < s.callStack[i].next - (if i + 1 == |s.callStack| then 0 else 1))
  }

  ghost function SuccessorEnd(s: State, i: nat): nat
    requires i < |s.callStack|
  {
    if i + 1 < |s.callStack| then s.callStack[i + 1].successorLen else |s.successors|
  }

  /** Component `c` is on the part of the successor stack that belongs to frame `i`. */
  ghost predicate Recorded(s: State, i: nat, c: nat)
    requires i < |s.callStack|
  {
    exists p :: s.callStack[i].successorLen <= p < SuccessorEnd(s, i) && p < |s.successors| && s.successors[p] == c
  }

  /** What a settled edge of segment `i` into `y` has left behind. */
  ghost predicate EdgeOk(s: State, i: nat, y: nat)
    requires i < |s.callStack|
  {
    && (Live(s, y) || Sealed(s, y))
    && (Live(s, y) ==> Low(s, Node(s, i)) <= Index(s, y))
    && (Live(s, y) && i + 1 < |s.callStack| ==> Index(s, y) < Index(s, Node(s, i + 1)))
    && (Sealed(s, y) ==> Recorded(s, i, s.states[y].sccId))
  }

  ghost predicate Witnessed(g: Lists, s: State, i: nat, c: nat) {
    exists x: nat, k: nat :: Settled(g, s, i, x, k) && Sealed(s, g[x][k]) && s.states[g[x][k]].sccId == c
  }

  /** Frame `i` is waiting for the node of the frame above it. */
  ghost predicate Calls(g: Lists, s: State, i: nat) {
    && i + 1 < |s.callStack| && Node(s, i) < |g|
    && 0 < s.callStack[i].next <= |g[Node(s, i)]|
    && g[Node(s, i)][s.callStack[i].next - 1] == Node(s, i + 1)
  }

  /** The lowest index recorded for `x` belongs to a live node that `x` reaches. */
  ghost predicate LowReached(r: Rel, s: State, x: nat) {
    exists w: nat :: Live(s, w) && Index(s, w) == Low(s, x) && ReachRefl(r, x, w)
  }

  // ----- the invariant

  ghost predicate FrameOk(g: Lists, s: State, i: nat)
    requires i < |s.callStack|
  {
    && Live(s, Node(s, i))
    && Node(s, i) < |g| && s.callStack[i].next <= |g[Node(s, i)]|
    && s.callStack[i].successorLen <= SuccessorEnd(s, i) <= |s.successors|
  }

  ghost predicate Shaped(g: Lists, s: State) {
    && InRange(g)
    && |s.states| == |s.map_| == |g|
    && (forall i :: 0 <= i < |s.callStack| ==> FrameOk(g, s, i))
    && (forall i, j :: 0 <= i < j < |s.callStack| ==> Index(s, Node(s, i)) < Index(s, Node(s, j)))
    && (forall i :: 0 <= i < |s.callStack| - 1 ==> Calls(g, s, i))
    && (forall x: nat :: Live(s, x) ==>
          && Low(s, x) <= Index(s, x) < s.index
          && s.callStack != [] && Index(s, Node(s, 0)) <= Index(s, x))
  }

  ghost predicate Stacked(s: State) {
    && (forall p :: 0 <= p < |s.sccStack| ==> Live(s, s.sccStack[p]))
    && (forall p, q :: 0 <= p < q < |s.sccStack| ==> Index(s, s.sccStack[p]) < Index(s, s.sccStack[q]))
    && (forall x: nat {:trigger Live(s, x)} :: Live(s, x) ==> x in s.sccStack)
  }

  ghost predicate Connected(r: Rel, s: State) {
    && (forall i: nat, x: nat :: Segment(s, i, x) ==> ReachRefl(r, Node(s, i), x))
    && (forall i: nat, x: nat :: Segment(s, i, x) && x != Node(s, i) ==> Low(s, x) < Index(s, x))
    && (forall x: nat {:trigger LowReached(r, s, x)} :: Live(s, x) ==> LowReached(r, s, x))
  }

  ghost predicate EdgesOk(g: Lists, s: State) {
    && (forall i: nat, x: nat, k: nat :: Settled(g, s, i, x, k) ==> EdgeOk(s, i, g[x][k]))
    && (forall i, p :: 0 <= i < |s.callStack| && s.callStack[i].successorLen <= p < SuccessorEnd(s, i) && p < |s.successors| ==>
          Witnessed(g, s, i, s.successors[p]))
  }

  ghost predicate Exact(r: Rel, s: State, u: nat, v: nat)
    requires Sealed(s, u) && |s.states| == |s.map_|
  {
    Mutual(r, u, v) <==> Sealed(s, v) && s.map_[u] == s.map_[v]
  }

  /** Closed components: nothing leaves the closed part, each is exact, and so is its condensation. */
  ghost predicate Closed(g: Lists, s: State)
    requires |s.states| == |s.map_| == |g|
  {
    && (forall u: nat, v: nat :: Sealed(s, u) && Edge(Succ(g), u, v) ==> Sealed(s, v))
    && (forall v: nat :: Sealed(s, v) ==>
          s.states[v].sccId == s.map_[v] < |s.comps| && v in s.comps[s.map_[v]])
    && (forall c, v: nat :: 0 <= c < |s.comps| && v in s.comps[c] ==> Sealed(s, v) && s.map_[v] == c)
    && (forall c :: 0 <= c < |s.comps| ==> s.comps[c] != [] && NoDuplicates(s.comps[c]))
    && (forall u: nat, v: nat {:trigger Exact(Succ(g), s, u, v)} :: Sealed(s, u) ==> Exact(Succ(g), s, u, v))
    && Packed(s.oDag) && |s.oDag.nodes| == |s.comps|
    && (forall c: nat :: c < |s.comps| ==> Condensed(g, s, c))
  }

  /** Edges between closed nodes only: the open ones are not in any component yet. */
  ghost predicate SealedCrossing(r: Rel, s: State, c: nat, d: nat)
    requires |s.states| == |s.map_|
  {
    exists u: nat, v: nat :: Edge(r, u, v) && Sealed(s, u) && Sealed(s, v) && s.map_[u] == c && s.map_[v] == d
  }

  ghost predicate Condensed(g: Lists, s: State, c: nat)
    requires |s.states| == |s.map_| && Packed(s.oDag) && c < |s.oDag.nodes|
  {
    var list := FullEdges(s.oDag, c);
    && NoDuplicates(list)
    && (forall d: nat :: d in list ==> d < c)
    && (forall d: nat :: d in list <==> d != c && SealedCrossing(Succ(g), s, c, d))
  }

  ghost predicate Invariant(g: Lists, s: State) {
    && Shaped(g, s) && Stacked(s) && Connected(Succ(g), s) && EdgesOk(g, s) && Closed(g, s)
  }

  // ----- finding a new node

  function Advanced(callStack: seq<Frame>): seq<Frame> {
    if callStack == [] then []
    else
      var top := |callStack| - 1;
      callStack[top := callStack[top].(next := callStack[top].next + 1)]
  }

  /** Opens a frame for the unseen node `d`, from the top frame's next edge or as a new root
      (`src/graph.rs:195-205`, `src/graph.rs:211-225`). */
  function Enter(s: State, d: nat): State
    requires d < |s.states|
  {
    s.(states := s.states[d := Working(s.index, s.index)],
       callStack := Advanced(s.callStack) + [Frame(d, 0, |s.successors|)],
       sccStack := s.sccStack + [d],
       index := s.index + 1)
  }

  ghost predicate CanEnter(g: Lists, s: State, d: nat) {
    && Shaped(g, s) && d < |g| && s.states[d].NotSeen?
    && (s.callStack != [] ==> Wants(g, s, d))
  }

  /** The next edge of the top frame leads to `d`. */
  ghost predicate Wants(g: Lists, s: State, d: nat)
    requires s.callStack != []
  {
    var top := s.callStack[|s.callStack| - 1];
    top.node < |g| && top.next < |g[top.node]| && g[top.node][top.next] == d
  }

  /** Nodes other than `d` look the same in both states. */
  ghost predicate SameBut(s: State, t: State, d: nat) {
    && (forall x: nat :: x != d ==> (Live(t, x) <==> Live(s, x)))
    && (forall x: nat :: x != d ==> Index(t, x) == Index(s, x) && Low(t, x) == Low(s, x))
    && (forall x: nat :: Sealed(t, x) <==> Sealed(s, x))
    && (forall x: nat :: Sealed(s, x) && Sealed(t, x) ==> t.states[x] == s.states[x])
  }

  ghost predicate Entered(s: State, t: State, d: nat) {
    var n := |s.callStack|;
    && SameBut(s, t, d)
    && !Live(s, d) && !Sealed(s, d) && Live(t, d) && Index(t, d) == Low(t, d) == s.index
    && |t.callStack| == n + 1 && t.callStack[n] == Frame(d, 0, |s.successors|)
    && (forall i :: 0 <= i < n - 1 ==> t.callStack[i] == s.callStack[i])
    && (n > 0 ==> t.callStack[n - 1] == s.callStack[n - 1].(next := s.callStack[n - 1].next + 1))
    && t.successors == s.successors && t.index == s.index + 1
    && t.sccStack == s.sccStack + [d]
    && |t.states| == |s.states| && t.map_ == s.map_ && t.comps == s.comps && t.oDag == s.oDag
  }

  lemma EnterNodes(g: Lists, s: State, t: State, d: nat)
    requires CanEnter(g, s, d) && Entered(s, t, d)
    ensures forall i :: 0 <= i < |s.callStack| ==> FrameOk(g, s, i) && Node(t, i) == Node(s, i) != d
  {
    forall i | 0 <= i < |s.callStack| ensures FrameOk(g, s, i) && Node(t, i) == Node(s, i) != d {
      assert FrameOk(g, s, i);
      if i < |s.callStack| - 1 { assert t.callStack[i] == s.callStack[i]; }
    }
  }

  lemma EnterShaped(g: Lists, s: State, t: State, d: nat)
    requires CanEnter(g, s, d) && Entered(s, t, d)
    ensures Shaped(g, t)
  {
    EnterNodes(g, s, t, d);
    forall i | 0 <= i < |t.callStack| ensures FrameOk(g, t, i) { EnterFrame(g, s, t, d, i); }
    forall i | 0 <= i < |t.callStack| - 1 ensures Calls(g, t, i) {
      if i < |s.callStack| - 1 { assert Calls(g, s, i); }
    }
  }

  lemma EnterFrame(g: Lists, s: State, t: State, d: nat, i: nat)
    requires CanEnter(g, s, d) && Entered(s, t, d) && i < |t.callStack|
    ensures FrameOk(g, t, i)
  {
    if i < |s.callStack| { assert FrameOk(g, s, i); }
  }

  lemma EnterStacked(g: Lists, s: State, t: State, d: nat)
    requires CanEnter(g, s, d) && Entered(s, t, d) && Stacked(s)
    ensures Stacked(t)
  {
    forall x: nat | Live(t, x) ensures x in t.sccStack {
      if x != d { assert Live(s, x); }
    }
  }

  lemma EnterSegments(g: Lists, s: State, t: State, d: nat)
    requires CanEnter(g, s, d) && Entered(s, t, d)
    ensures forall i: nat, x: nat :: Segment(t, i, x) <==> Segment(s, i, x) || (i == |s.callStack| && x == d)
    ensures forall i: nat, x: nat, k: nat :: Settled(g, t, i, x, k) <==> Settled(g, s, i, x, k)
  {
    EnterNodes(g, s, t, d);
  }

  lemma EnterConnected(g: Lists, s: State, t: State, d: nat)
    requires CanEnter(g, s, d) && Entered(s, t, d) && Connected(Succ(g), s)
    ensures Connected(Succ(g), t)
  {
    EnterSegments(g, s, t, d);
    EnterNodes(g, s, t, d);
    var r := Succ(g);
    forall x: nat | Live(t, x) ensures LowReached(r, t, x) {
      if x != d {
        assert LowReached(r, s, x);
        var w: nat :| Live(s, w) && Index(s, w) == Low(s, x) && ReachRefl(r, x, w);
        assert Live(t, w) && Index(t, w) == Low(t, x);
      }
    }
  }

  lemma EnterEdges(g: Lists, s: State, t: State, d: nat)
    requires CanEnter(g, s, d) && Entered(s, t, d) && EdgesOk(g, s)
    ensures EdgesOk(g, t)
  {
    EnterSegments(g, s, t, d);
    forall i: nat, x: nat, k: nat | Settled(g, t, i, x, k) ensures EdgeOk(t, i, g[x][k]) {
      assert Settled(g, s, i, x, k) && EdgeOk(s, i, g[x][k]) && FrameOk(g, s, i);
      assert SuccessorEnd(t, i) == SuccessorEnd(s, i);
      assert forall c: nat :: Recorded(s, i, c) ==> Recorded(t, i, c);
    }
    forall i, p | 0 <= i < |t.callStack| && t.callStack[i].successorLen <= p < SuccessorEnd(t, i) && p < |t.successors|
      ensures Witnessed(g, t, i, t.successors[p])
    {
      assert i < |s.callStack| && SuccessorEnd(t, i) == SuccessorEnd(s, i);
      WitnessKept(g, s, t, i, s.successors[p]);
    }
  }

  lemma WitnessKept(g: Lists, s: State, t: State, i: nat, c: nat)
    requires forall x: nat, k: nat :: Settled(g, s, i, x, k) ==> Settled(g, t, i, x, k)
    requires forall x: nat :: Sealed(s, x) ==> Sealed(t, x) && t.states[x] == s.states[x]
    requires Witnessed(g, s, i, c)
    ensures Witnessed(g, t, i, c)
  {
    var x: nat, k: nat :| Settled(g, s, i, x, k) && Sealed(s, g[x][k]) && s.states[g[x][k]].sccId == c;
    assert Settled(g, t, i, x, k);
  }

  /** The closed part does not notice changes elsewhere. */
  lemma ClosedCongruent(g: Lists, s: State, t: State)
    requires |s.states| == |s.map_| == |g| == |t.states| && Closed(g, s)
    requires t.map_ == s.map_ && t.comps == s.comps && t.oDag == s.oDag
    requires forall v: nat :: Sealed(t, v) <==> Sealed(s, v)
    requires forall v: nat :: Sealed(s, v) && Sealed(t, v) ==> t.states[v] == s.states[v]
    ensures Closed(g, t)
  {
    forall u: nat, v: nat | Sealed(t, u) ensures Exact(Succ(g), t, u, v) {
      assert Exact(Succ(g), s, u, v);
    }
    forall c: nat | c < |t.comps| ensures Condensed(g, t, c) {
      assert Condensed(g, s, c);
    }
  }

  lemma EnterKeeps(g: Lists, s: State, d: nat)
    requires Invariant(g, s) && CanEnter(g, s, d)
    ensures Invariant(g, Enter(s, d))
  {
    var t := Enter(s, d);
    EnterShaped(g, s, t, d);
    EnterStacked(g, s, t, d);
    EnterConnected(g, s, t, d);
    EnterEdges(g, s, t, d);
    ClosedCongruent(g, s, t);
  }

  // ----- an edge to a node already seen

  /** `VisitState::update_min` (`src/graph.rs:124-133`). */
  function UpdateMin(v: Visit, m: nat): Visit
    requires !v.NotSeen?
  {
    if v.minVal > m then v.(minVal := m) else v
  }

  /** The top frame's next edge leads to `y`, which is live or already in a component
      (`src/graph.rs:226-231`). */
  function Note(s: State, y: nat): State
    requires s.callStack != [] && Live(s, s.callStack[|s.callStack| - 1].node)
    requires Live(s, y) || Sealed(s, y)
  {
    var top := s.callStack[|s.callStack| - 1].node;
    match s.states[y]
    case Working(index, _) =>
      s.(callStack := Advanced(s.callStack), states := s.states[top := UpdateMin(s.states[top], index)])
    case Done(_, _, id) =>
      s.(callStack := Advanced(s.callStack), successors := s.successors + [id])
  }

  ghost predicate CanNote(g: Lists, s: State, y: nat) {
    && Shaped(g, s) && s.callStack != [] && Wants(g, s, y) && (Live(s, y) || Sealed(s, y))
  }

  ghost predicate Noted(s: State, t: State, y: nat)
    requires s.callStack != []
  {
    var n := |s.callStack|;
    var top := Node(s, n - 1);
    && SameBut(s, t, top)
    && Live(t, top) && Live(s, top) && Index(t, top) == Index(s, top)
    && Low(t, top) == (if Live(s, y) && Index(s, y) < Low(s, top) then Index(s, y) else Low(s, top))
    && |t.callStack| == n
    && (forall i :: 0 <= i < n - 1 ==> t.callStack[i] == s.callStack[i])
    && t.callStack[n - 1] == s.callStack[n - 1].(next := s.callStack[n - 1].next + 1)
    && t.successors == s.successors + (if Sealed(s, y) then [s.states[y].sccId] else [])
    && t.index == s.index && t.sccStack == s.sccStack
    && |t.states| == |s.states| && t.map_ == s.map_ && t.comps == s.comps && t.oDag == s.oDag
  }

  lemma NoteShaped(g: Lists, s: State, t: State, y: nat)
    requires CanNote(g, s, y) && Noted(s, t, y)
    ensures Shaped(g, t)
    ensures forall i :: 0 <= i < |s.callStack| ==> Node(t, i) == Node(s, i)
    ensures forall i: nat, x: nat :: Segment(t, i, x) <==> Segment(s, i, x)
  {
    forall i | 0 <= i < |s.callStack| ensures Node(t, i) == Node(s, i) && FrameOk(g, t, i) && FrameOk(g, s, i) {
      assert FrameOk(g, s, i);
      if i < |s.callStack| - 1 { assert t.callStack[i] == s.callStack[i]; }
    }
    forall i | 0 <= i < |t.callStack| - 1 ensures Calls(g, t, i) { assert Calls(g, s, i); }
  }

  lemma NoteLow(g: Lists, s: State, t: State, y: nat, x: nat)
    requires CanNote(g, s, y) && Noted(s, t, y) && Live(t, x) && Connected(Succ(g), s)
    ensures LowReached(Succ(g), t, x)
  {
    var r := Succ(g);
    var top := Node(s, |s.callStack| - 1);
    assert LowReached(r, s, x);
    if Low(t, x) != Low(s, x) {
      assert x == top && Edge(r, top, y);
      EdgeReach(r, top, y);
      assert Live(t, y) && Index(t, y) == Low(t, x);
    } else {
      var w: nat :| Live(s, w) && Index(s, w) == Low(s, x) && ReachRefl(r, x, w);
      assert Live(t, w) && Index(t, w) == Low(t, x);
    }
  }

  lemma NoteSegment(g: Lists, s: State, t: State, y: nat, i: nat, x: nat)
    requires CanNote(g, s, y) && Noted(s, t, y) && Connected(Succ(g), s) && Segment(t, i, x)
    ensures ReachRefl(Succ(g), Node(t, i), x) && (x != Node(t, i) ==> Low(t, x) < Index(t, x))
  {
    NoteShaped(g, s, t, y);
    assert Segment(s, i, x) && Node(t, i) == Node(s, i);
  }

  lemma NoteConnected(g: Lists, s: State, t: State, y: nat)
    requires CanNote(g, s, y) && Noted(s, t, y) && Connected(Succ(g), s)
    ensures Connected(Succ(g), t)
  {
    forall x: nat | Live(t, x) ensures LowReached(Succ(g), t, x) {
      NoteLow(g, s, t, y, x);
    }
    forall i: nat, x: nat | Segment(t, i, x)
      ensures ReachRefl(Succ(g), Node(t, i), x) && (x != Node(t, i) ==> Low(t, x) < Index(t, x))
    {
      NoteSegment(g, s, t, y, i, x);
    }
  }

  lemma NoteSettled(g: Lists, s: State, t: State, y: nat, i: nat, x: nat, k: nat)
    requires CanNote(g, s, y) && Noted(s, t, y)
    ensures Settled(g, t, i, x, k) <==>
      || Settled(g, s, i, x, k)
      || (i == |s.callStack| - 1 && x == Node(s, i) && k == s.callStack[i].next)
  {
    NoteShaped(g, s, t, y);
    assert FrameOk(g, s, |s.callStack| - 1);
    if i < |s.callStack| - 1 { assert t.callStack[i] == s.callStack[i]; }
  }

  lemma NoteEdgeOk(g: Lists, s: State, t: State, y: nat, i: nat, x: nat, k: nat)
    requires CanNote(g, s, y) && Noted(s, t, y) && EdgesOk(g, s) && Settled(g, t, i, x, k)
    ensures EdgeOk(t, i, g[x][k])
  {
    var n := |s.callStack|;
    NoteShaped(g, s, t, y);
    NoteSettled(g, s, t, y, i, x, k);
    assert FrameOk(g, s, n - 1);
    assert i < n - 1 ==> t.callStack[i] == s.callStack[i];
    if Settled(g, s, i, x, k) {
      assert EdgeOk(s, i, g[x][k]);
      RecordedKept(s, t, i);
    } else {
      assert Sealed(s, y) ==> t.successors[|s.successors|] == s.states[y].sccId;
    }
  }

  lemma NoteWitness(g: Lists, s: State, t: State, y: nat, i: nat, p: nat)
    requires CanNote(g, s, y) && Noted(s, t, y) && EdgesOk(g, s)
    requires i < |t.callStack| && t.callStack[i].successorLen <= p < SuccessorEnd(t, i) && p < |t.successors|
    ensures Witnessed(g, t, i, t.successors[p])
  {
    var n := |s.callStack|;
    if p == |s.successors| {
      if i < n - 1 { NoteOwner(g, s, t, y, i); }
      assert FrameOk(g, s, n - 1);
      NoteSettled(g, s, t, y, n - 1, Node(s, n - 1), s.callStack[n - 1].next);
      assert Settled(g, t, n - 1, Node(s, n - 1), s.callStack[n - 1].next) by {
        NoteShaped(g, s, t, y);
      }
    } else {
      assert i < n - 1 ==> t.callStack[i] == s.callStack[i];
      forall x: nat, k: nat | Settled(g, s, i, x, k) ensures Settled(g, t, i, x, k) {
        NoteSettled(g, s, t, y, i, x, k);
      }
      WitnessKept(g, s, t, i, s.successors[p]);
    }
  }

  lemma NoteEdges(g: Lists, s: State, t: State, y: nat)
    requires CanNote(g, s, y) && Noted(s, t, y) && EdgesOk(g, s)
    ensures EdgesOk(g, t)
  {
    forall i: nat, x: nat, k: nat | Settled(g, t, i, x, k) ensures EdgeOk(t, i, g[x][k]) {
      NoteEdgeOk(g, s, t, y, i, x, k);
    }
    forall i, p | 0 <= i < |t.callStack| && t.callStack[i].successorLen <= p < SuccessorEnd(t, i) && p < |t.successors|
      ensures Witnessed(g, t, i, t.successors[p])
    {
      NoteWitness(g, s, t, y, i, p);
    }
  }

  /** Only the top frame's part of the successor stack can grow. */
  lemma NoteOwner(g: Lists, s: State, t: State, y: nat, i: nat)
    requires CanNote(g, s, y) && Noted(s, t, y)
    requires i < |s.callStack| - 1
    ensures SuccessorEnd(t, i) <= |s.successors|
  {
    assert FrameOk(g, s, i + 1);
  }

  lemma RecordedKept(s: State, t: State, i: nat)
    requires i < |s.callStack| == |t.callStack| && s.successors <= t.successors
    requires t.callStack[i].successorLen == s.callStack[i].successorLen
    requires SuccessorEnd(s, i) <= SuccessorEnd(t, i)
    ensures forall c: nat :: Recorded(s, i, c) ==> Recorded(t, i, c)
  {
  }

  lemma NoteIsNoted(g: Lists, s: State, y: nat)
    requires CanNote(g, s, y)
    ensures Live(s, Node(s, |s.callStack| - 1)) && Noted(s, Note(s, y), y)
  {
    assert FrameOk(g, s, |s.callStack| - 1);
  }

  lemma StackedCongruent(s: State, t: State)
    requires Stacked(s) && t.sccStack == s.sccStack
    requires forall x: nat :: (Live(t, x) <==> Live(s, x)) && (Live(s, x) ==> Index(t, x) == Index(s, x))
    ensures Stacked(t)
  {
    forall x: nat | Live(t, x) ensures x in t.sccStack { assert Live(s, x); }
  }

  lemma NoteKeeps(g: Lists, s: State, y: nat)
    requires Invariant(g, s) && CanNote(g, s, y)
    ensures Live(s, Node(s, |s.callStack| - 1)) && Invariant(g, Note(s, y))
  {
    NoteIsNoted(g, s, y);
    var t := Note(s, y);
    NoteShaped(g, s, t, y);
    NoteConnected(g, s, t, y);
    NoteEdges(g, s, t, y);
    ClosedCongruent(g, s, t);
    StackedCongruent(s, t);
  }

  // ----- an exhausted frame whose node is not the first of its component

  /** Pops the top frame and lowers its caller's minimum (`src/graph.rs:235`, `src/graph.rs:280-283`). */
  function Return(s: State): State
    requires |s.callStack| >= 2
    requires var n := |s.callStack|;
      Live(s, s.callStack[n - 1].node) && Live(s, s.callStack[n - 2].node)
  {
    var n := |s.callStack|;
    var parent := s.callStack[n - 2].node;
    s.(callStack := s.callStack[..n - 1],
       states := s.states[parent := UpdateMin(s.states[parent], s.states[s.callStack[n - 1].node].minVal)])
  }

  ghost predicate Exhausted(g: Lists, s: State) {
    && s.callStack != []
    && var top := s.callStack[|s.callStack| - 1];
       top.node < |g| && top.next == |g[top.node]|
  }

  ghost predicate CanReturn(g: Lists, s: State) {
    && Shaped(g, s) && Exhausted(g, s) && |s.callStack| >= 2
    && Low(s, Node(s, |s.callStack| - 1)) < Index(s, Node(s, |s.callStack| - 1))
  }

  ghost predicate Returned(s: State, t: State)
    requires |s.callStack| >= 2
  {
    var n := |s.callStack|;
    var top, parent := Node(s, n - 1), Node(s, n - 2);
    && SameBut(s, t, parent)
    && Live(s, top) && Live(s, parent) && Live(t, parent) && Index(t, parent) == Index(s, parent)
    && Low(t, parent) == (if Low(s, top) < Low(s, parent) then Low(s, top) else Low(s, parent))
    && t.callStack == s.callStack[..n - 1]
    && t.successors == s.successors && t.index == s.index && t.sccStack == s.sccStack
    && |t.states| == |s.states| && t.map_ == s.map_ && t.comps == s.comps && t.oDag == s.oDag
  }

  lemma ReturnShaped(g: Lists, s: State, t: State)
    requires CanReturn(g, s) && Returned(s, t)
    ensures Shaped(g, t)
    ensures forall i :: 0 <= i < |t.callStack| ==> t.callStack[i] == s.callStack[i] && Node(t, i) == Node(s, i)
    ensures forall x: nat :: Index(t, x) == Index(s, x) && (Live(t, x) <==> Live(s, x))
  {
    var n := |s.callStack|;
    assert forall x: nat :: Index(t, x) == Index(s, x) && (Live(t, x) <==> Live(s, x));
    assert FrameOk(g, s, n - 1);
    forall i | 0 <= i < n - 1 ensures FrameOk(g, t, i) && Node(t, i) == Node(s, i) { assert FrameOk(g, s, i); }
    forall i | 0 <= i < n - 2 ensures Calls(g, t, i) { assert Calls(g, s, i); }
  }

  /** The top segment joins the one below it. */
  lemma ReturnSegments(g: Lists, s: State, t: State, i: nat, x: nat)
    requires CanReturn(g, s) && Returned(s, t)
    ensures Segment(t, i, x) <==>
      i + 1 < |s.callStack| && (Segment(s, i, x) || (i + 2 == |s.callStack| && Segment(s, i + 1, x)))
  {
    ReturnShaped(g, s, t);
    var n := |s.callStack|;
    assert Index(s, Node(s, n - 2)) < Index(s, Node(s, n - 1));
  }

  lemma ReturnSettled(g: Lists, s: State, t: State, i: nat, x: nat, k: nat)
    requires CanReturn(g, s) && Returned(s, t)
    ensures Settled(g, t, i, x, k) ==>
      || Settled(g, s, i, x, k)
      || (i + 2 == |s.callStack| && Settled(g, s, i + 1, x, k))
      || (i + 2 == |s.callStack| && x == Node(s, i) && k + 1 == s.callStack[i].next)
    ensures i + 1 < |s.callStack| && Settled(g, s, i, x, k) ==> Settled(g, t, i, x, k)
    ensures i + 2 == |s.callStack| && Settled(g, s, i + 1, x, k) ==> Settled(g, t, i, x, k)
  {
    ReturnShaped(g, s, t);
    ReturnSegments(g, s, t, i, x);
    var n := |s.callStack|;
    assert Index(s, Node(s, n - 2)) < Index(s, Node(s, n - 1));
  }

  lemma ReturnConnected(g: Lists, s: State, t: State)
    requires CanReturn(g, s) && Returned(s, t) && Connected(Succ(g), s)
    ensures Connected(Succ(g), t)
  {
    var r := Succ(g);
    forall x: nat | Live(t, x) ensures LowReached(r, t, x) {
      ReturnLow(g, s, t, x);
    }
    forall i: nat, x: nat | Segment(t, i, x)
      ensures ReachRefl(r, Node(t, i), x) && (x != Node(t, i) ==> Low(t, x) < Index(t, x))
    {
      ReturnSegment(g, s, t, i, x);
    }
  }

  lemma ReturnSegment(g: Lists, s: State, t: State, i: nat, x: nat)
    requires CanReturn(g, s) && Returned(s, t) && Connected(Succ(g), s) && Segment(t, i, x)
    ensures ReachRefl(Succ(g), Node(t, i), x) && (x != Node(t, i) ==> Low(t, x) < Index(t, x))
  {
    ReturnShaped(g, s, t);
    ReturnSegments(g, s, t, i, x);
    if !Segment(s, i, x) {
      assert Segment(s, i + 1, x) && Calls(g, s, i);
      EdgeThenReach(Succ(g), Node(s, i), Node(s, i + 1), x);
    }
  }

  lemma ReturnLow(g: Lists, s: State, t: State, x: nat)
    requires CanReturn(g, s) && Returned(s, t) && Connected(Succ(g), s) && Live(t, x)
    ensures LowReached(Succ(g), t, x)
  {
    var r, n := Succ(g), |s.callStack|;
    var top, parent := Node(s, n - 1), Node(s, n - 2);
    var y := if x == parent && Low(s, top) < Low(s, parent) then top else x;
    assert LowReached(r, s, y);
    var w: nat :| Live(s, w) && Index(s, w) == Low(s, y) && ReachRefl(r, y, w);
    assert Live(t, w) && Index(t, w) == Low(t, x);
    if y != x {
      assert Calls(g, s, n - 2);
      EdgeThenReach(r, parent, top, w);
    }
  }

  lemma ReturnEdges(g: Lists, s: State, t: State)
    requires CanReturn(g, s) && Returned(s, t) && EdgesOk(g, s)
    ensures EdgesOk(g, t)
  {
    ReturnShaped(g, s, t);
    forall i: nat, x: nat, k: nat | Settled(g, t, i, x, k) ensures EdgeOk(t, i, g[x][k]) {
      ReturnEdgeOk(g, s, t, i, x, k);
    }
    forall i, p | 0 <= i < |t.callStack| && t.callStack[i].successorLen <= p < SuccessorEnd(t, i) && p < |t.successors|
      ensures Witnessed(g, t, i, t.successors[p])
    {
      ReturnWitness(g, s, t, i, p);
    }
  }

  lemma ReturnEdgeOk(g: Lists, s: State, t: State, i: nat, x: nat, k: nat)
    requires CanReturn(g, s) && Returned(s, t) && EdgesOk(g, s) && Settled(g, t, i, x, k)
    ensures EdgeOk(t, i, g[x][k])
  {
    var n := |s.callStack|;
    ReturnShaped(g, s, t);
    ReturnSettled(g, s, t, i, x, k);
    assert FrameOk(g, s, n - 1) && FrameOk(g, s, n - 2);
    if Settled(g, s, i, x, k) {
      ReturnEdge(s, t, i, g[x][k]);
    } else if i + 2 == n && Settled(g, s, i + 1, x, k) {
      ReturnTopEdge(s, t, g[x][k]);
    } else {
      assert Calls(g, s, n - 2) && g[x][k] == Node(s, n - 1);
      assert Index(s, Node(s, n - 2)) < Index(s, Node(s, n - 1));
    }
  }

  lemma ReturnWitness(g: Lists, s: State, t: State, i: nat, p: nat)
    requires CanReturn(g, s) && Returned(s, t) && EdgesOk(g, s)
    requires i < |t.callStack| && t.callStack[i].successorLen <= p < SuccessorEnd(t, i) && p < |t.successors|
    ensures Witnessed(g, t, i, t.successors[p])
  {
    var n, c := |s.callStack|, s.successors[p];
    var j := if i == n - 2 && p >= s.callStack[n - 1].successorLen then n - 1 else i;
    assert Witnessed(g, s, j, c);
    var x: nat, k: nat :| Settled(g, s, j, x, k) && Sealed(s, g[x][k]) && s.states[g[x][k]].sccId == c;
    ReturnSettled(g, s, t, i, x, k);
    assert Settled(g, t, i, x, k);
  }

  lemma ReturnEdge(s: State, t: State, i: nat, y: nat)
    requires |s.callStack| >= 2 && i + 1 < |s.callStack| && Returned(s, t) && EdgeOk(s, i, y)
    requires s.callStack[|s.callStack| - 1].successorLen <= |s.successors|
    ensures EdgeOk(t, i, y)
  {
    assert t.callStack[i] == s.callStack[i];
    if Sealed(s, y) {
      var p :| s.callStack[i].successorLen <= p < SuccessorEnd(s, i) && p < |s.successors| && s.successors[p] == s.states[y].sccId;
      assert t.successors[p] == s.states[y].sccId;
    }
  }

  lemma ReturnTopEdge(s: State, t: State, y: nat)
    requires |s.callStack| >= 2 && Returned(s, t) && EdgeOk(s, |s.callStack| - 1, y)
    requires s.callStack[|s.callStack| - 2].successorLen <= s.callStack[|s.callStack| - 1].successorLen
    ensures EdgeOk(t, |s.callStack| - 2, y)
  {
    var n := |s.callStack|;
    assert t.callStack[n - 2] == s.callStack[n - 2];
    if Sealed(s, y) {
      var p :| s.callStack[n - 1].successorLen <= p < |s.successors| && s.successors[p] == s.states[y].sccId;
      assert t.successors[p] == s.states[y].sccId;
    }
  }

  lemma ReturnKeeps(g: Lists, s: State)
    requires Invariant(g, s) && CanReturn(g, s)
    ensures Live(s, Node(s, |s.callStack| - 1)) && Live(s, Node(s, |s.callStack| - 2))
    ensures Invariant(g, Return(s))
  {
    var n := |s.callStack|;
    assert FrameOk(g, s, n - 1) && FrameOk(g, s, n - 2);
    var t := Return(s);
    assert Returned(s, t);
    ReturnShaped(g, s, t);
    ReturnConnected(g, s, t);
    ReturnEdges(g, s, t);
    ClosedCongruent(g, s, t);
    StackedCongruent(s, t);
  }

  // ----- an exhausted frame whose node is the first of its component

  ghost predicate CanEmit(g: Lists, s: State) {
    && Shaped(g, s) && Exhausted(g, s)
    && Low(s, Node(s, |s.callStack| - 1)) == Index(s, Node(s, |s.callStack| - 1))
  }

  /** The nodes found since the top frame's node: the component about to be closed. */
  ghost predicate Member(s: State, x: nat)
    requires s.callStack != []
  {
    Live(s, x) && Index(s, Node(s, |s.callStack| - 1)) <= Index(s, x)
  }

  /** The top frame is gone, its component closed and its successors condensed
      (`src/graph.rs:242-277`). */
  ghost predicate Emitted(s: State, t: State)
    requires s.callStack != []
  {
    var n, id := |s.callStack|, |s.comps|;
    var frame := s.callStack[n - 1];
    && |t.states| == |s.states| && |t.map_| == |s.map_|
    && (forall x: nat :: Live(t, x) <==> Live(s, x) && !Member(s, x))
    && (forall x: nat :: Sealed(t, x) <==> Sealed(s, x) || Member(s, x))
    && (forall x: nat :: Index(t, x) == Index(s, x) && Low(t, x) == Low(s, x))
    && (forall x: nat :: Sealed(s, x) && Sealed(t, x) ==> t.states[x] == s.states[x])
    && (forall x: nat :: Member(s, x) && Sealed(t, x) ==> t.states[x].sccId == id)
    && (forall x :: 0 <= x < |t.map_| ==> t.map_[x] == if Member(s, x) then id else s.map_[x])
    && |t.comps| == id + 1 && t.comps[..id] == s.comps
    && NoDuplicates(t.comps[id]) && (forall x: nat :: x in t.comps[id] <==> Member(s, x))
    && (exists list: seq<nat> :: t.oDag == Append(s.oDag, list) && NoDuplicates(list)
          && (forall d: nat :: d in list <==> Recorded(s, n - 1, d)))
    && t.callStack == s.callStack[..n - 1]
    && frame.successorLen <= |s.successors|
    && t.successors == s.successors[..frame.successorLen] + (if n > 1 then [id] else [])
    && t.index == s.index
  }

  lemma EmitFrames(g: Lists, s: State, t: State, i: nat)
    requires CanEmit(g, s) && Emitted(s, t) && i < |t.callStack|
    ensures t.callStack[i] == s.callStack[i] && Node(t, i) == Node(s, i)
    ensures FrameOk(g, s, i) && Index(s, Node(s, i)) < Index(s, Node(s, |s.callStack| - 1))
    ensures Live(t, Node(t, i))
    ensures s.callStack[i].successorLen <= SuccessorEnd(s, i) <= s.callStack[|s.callStack| - 1].successorLen <= |s.successors|
    ensures SuccessorEnd(t, i) == SuccessorEnd(s, i) + (if i + 2 == |s.callStack| then 1 else 0)
  {
    var n := |s.callStack|;
    assert FrameOk(g, s, i) && Index(s, Node(s, i)) < Index(s, Node(s, n - 1));
    EmitLengths(g, s, i + 1);
  }

  lemma EmitShaped(g: Lists, s: State, t: State)
    requires CanEmit(g, s) && Emitted(s, t)
    ensures Shaped(g, t)
  {
    forall i | 0 <= i < |t.callStack| ensures FrameOk(g, t, i) && Node(t, i) == Node(s, i) {
      EmitFrames(g, s, t, i);
    }
    forall i | 0 <= i < |t.callStack| - 1 ensures Calls(g, t, i) { assert Calls(g, s, i); }
  }

  lemma {:induction false} EmitLengths(g: Lists, s: State, i: nat)
    requires Shaped(g, s) && i < |s.callStack|
    ensures s.callStack[i].successorLen <= s.callStack[|s.callStack| - 1].successorLen <= |s.successors|
    decreases |s.callStack| - i
  {
    assert FrameOk(g, s, i);
    if i + 1 < |s.callStack| {
      EmitLengths(g, s, i + 1);
    }
  }

  lemma EmitSegment(g: Lists, s: State, t: State, i: nat, x: nat)
    requires CanEmit(g, s) && Emitted(s, t)
    ensures Segment(t, i, x) <==> i + 1 < |s.callStack| && Segment(s, i, x)
    ensures Segment(s, |s.callStack| - 1, x) <==> Member(s, x)
  {
    var n := |s.callStack|;
    if i + 1 < n {
      EmitFrames(g, s, t, i);
      if i + 1 < n - 1 { EmitFrames(g, s, t, i + 1); }
      assert i + 1 < n - 1 ==> Index(s, Node(s, i + 1)) < Index(s, Node(s, n - 1));
    }
  }

  lemma EmitSettled(g: Lists, s: State, t: State, i: nat, x: nat, k: nat)
    requires CanEmit(g, s) && Emitted(s, t)
    ensures Settled(g, t, i, x, k) ==>
      && i + 1 < |s.callStack|
      && (Settled(g, s, i, x, k) || (i + 2 == |s.callStack| && x == Node(s, i) && k + 1 == s.callStack[i].next))
    ensures i + 1 < |s.callStack| && Settled(g, s, i, x, k) ==> Settled(g, t, i, x, k)
  {
    EmitSegment(g, s, t, i, x);
    if i < |t.callStack| { EmitFrames(g, s, t, i); }
  }

  // The component is closed, and it is one component.

  lemma MemberEdge(g: Lists, s: State, x: nat, y: nat)
    requires CanEmit(g, s) && EdgesOk(g, s) && Member(s, x) && Edge(Succ(g), x, y)
    ensures Member(s, y) || (Sealed(s, y) && Recorded(s, |s.callStack| - 1, s.states[y].sccId))
  {
    var n := |s.callStack|;
    var k: nat :| k < |g[x]| && g[x][k] == y;
    assert Settled(g, s, n - 1, x, k);
    assert EdgeOk(s, n - 1, g[x][k]);
  }

  lemma MembersClosed(g: Lists, s: State, x: nat, y: nat)
    requires CanEmit(g, s) && EdgesOk(g, s) && Closed(g, s)
    requires Member(s, x) && ReachRefl(Succ(g), x, y)
    ensures Member(s, y) || Sealed(s, y)
  {
    var closed := set v | 0 <= v < |s.states| && (Member(s, v) || Sealed(s, v));
    forall u: nat, v: nat | Edge(Succ(g), u, v) && u in closed ensures v in closed {
      if Member(s, u) { MemberEdge(g, s, u, v); }
    }
    ReachClosed(Succ(g), closed, x, y);
  }

  lemma {:induction false} MembersReachRoot(g: Lists, s: State, x: nat)
    requires CanEmit(g, s) && EdgesOk(g, s) && Closed(g, s) && Connected(Succ(g), s) && Member(s, x)
    ensures ReachRefl(Succ(g), x, Node(s, |s.callStack| - 1))
    decreases Index(s, x)
  {
    var n := |s.callStack|;
    assert Segment(s, n - 1, x);
    if x != Node(s, n - 1) {
      assert LowReached(Succ(g), s, x);
      var w: nat :| Live(s, w) && Index(s, w) == Low(s, x) && ReachRefl(Succ(g), x, w);
      MembersClosed(g, s, x, w);
      MembersReachRoot(g, s, w);
      ReachReflTrans(Succ(g), x, w, Node(s, n - 1));
    }
  }

  lemma MembersMutual(g: Lists, s: State, x: nat, y: nat)
    requires CanEmit(g, s) && EdgesOk(g, s) && Closed(g, s) && Connected(Succ(g), s)
    requires Member(s, x) && Member(s, y)
    ensures Mutual(Succ(g), x, y)
  {
    var n := |s.callStack|;
    assert Segment(s, n - 1, x) && Segment(s, n - 1, y);
    MembersReachRoot(g, s, x);
    MembersReachRoot(g, s, y);
    ReachReflTrans(Succ(g), x, Node(s, n - 1), y);
    ReachReflTrans(Succ(g), y, Node(s, n - 1), x);
  }

  lemma EmitExact(g: Lists, s: State, t: State, u: nat, v: nat)
    requires Invariant(g, s) && CanEmit(g, s) && Emitted(s, t) && Sealed(t, u)
    ensures Exact(Succ(g), t, u, v)
  {
    if Sealed(s, u) {
      assert Exact(Succ(g), s, u, v);
    } else if Sealed(s, v) {
      assert Exact(Succ(g), s, v, u);
    } else if Member(s, v) {
      MembersMutual(g, s, u, v);
    } else if Mutual(Succ(g), u, v) {
      MembersClosed(g, s, u, v);
    }
  }

  // The condensation: old components are untouched, the new one gets the recorded successors.

  lemma EmitOldCondensed(g: Lists, s: State, t: State, c: nat)
    requires |s.states| == |s.map_| == |g| && Closed(g, s) && s.callStack != [] && Emitted(s, t)
    requires c < |s.comps|
    ensures Packed(t.oDag) && |t.oDag.nodes| == |t.comps| && Condensed(g, t, c)
  {
    var list: seq<nat> :| t.oDag == Append(s.oDag, list);
    AppendUnpacks(s.oDag, list);
    assert FullEdges(t.oDag, c) == Unpack(t.oDag)[c] == Unpack(s.oDag)[c] == FullEdges(s.oDag, c);
    assert Condensed(g, s, c);
    forall d: nat ensures SealedCrossing(Succ(g), t, c, d) <==> SealedCrossing(Succ(g), s, c, d) {
      if SealedCrossing(Succ(g), s, c, d) {
        var u: nat, v: nat :| Edge(Succ(g), u, v) && Sealed(s, u) && Sealed(s, v) && s.map_[u] == c && s.map_[v] == d;
        assert Sealed(t, u) && Sealed(t, v) && t.map_[u] == c && t.map_[v] == d;
      }
      if SealedCrossing(Succ(g), t, c, d) {
        var u: nat, v: nat :| Edge(Succ(g), u, v) && Sealed(t, u) && Sealed(t, v) && t.map_[u] == c && t.map_[v] == d;
        assert Sealed(s, u) && Sealed(s, v);
      }
    }
  }

  lemma EmitRecorded(g: Lists, s: State, t: State, d: nat)
    requires Invariant(g, s) && CanEmit(g, s) && Emitted(s, t) && Recorded(s, |s.callStack| - 1, d)
    ensures d < |s.comps| && SealedCrossing(Succ(g), t, |s.comps|, d)
  {
    var n := |s.callStack|;
    var p :| s.callStack[n - 1].successorLen <= p < |s.successors| && s.successors[p] == d;
    assert Witnessed(g, s, n - 1, s.successors[p]);
    var x: nat, k: nat :| Settled(g, s, n - 1, x, k) && Sealed(s, g[x][k]) && s.states[g[x][k]].sccId == d;
    assert Edge(Succ(g), x, g[x][k]) && Member(s, x);
    assert t.map_[x] == |s.comps| && t.map_[g[x][k]] == d;
  }

  lemma EmitCrossing(g: Lists, s: State, t: State, d: nat)
    requires Invariant(g, s) && CanEmit(g, s) && Emitted(s, t)
    requires d != |s.comps| && SealedCrossing(Succ(g), t, |s.comps|, d)
    ensures Recorded(s, |s.callStack| - 1, d)
  {
    var u: nat, v: nat :|
      Edge(Succ(g), u, v) && Sealed(t, u) && Sealed(t, v) && t.map_[u] == |s.comps| && t.map_[v] == d;
    assert Member(s, u) && Sealed(s, v);
    MemberEdge(g, s, u, v);
  }

  lemma EmitNewCondensed(g: Lists, s: State, t: State)
    requires Invariant(g, s) && CanEmit(g, s) && Emitted(s, t)
    ensures Packed(t.oDag) && |t.oDag.nodes| == |t.comps| && Condensed(g, t, |s.comps|)
  {
    var id, n := |s.comps|, |s.callStack|;
    var list: seq<nat> :| t.oDag == Append(s.oDag, list) && NoDuplicates(list)
                && (forall d: nat :: d in list <==> Recorded(s, n - 1, d));
    AppendUnpacks(s.oDag, list);
    assert FullEdges(t.oDag, id) == Unpack(t.oDag)[id] == list;
    forall d: nat | d in list ensures d < id && SealedCrossing(Succ(g), t, id, d) {
      EmitRecorded(g, s, t, d);
    }
    forall d: nat | d != id && SealedCrossing(Succ(g), t, id, d) ensures d in list {
      EmitCrossing(g, s, t, d);
    }
  }

  lemma EmitClosed(g: Lists, s: State, t: State)
    requires Invariant(g, s) && CanEmit(g, s) && Emitted(s, t)
    ensures Closed(g, t)
  {
    var id := |s.comps|;
    EmitComponents(g, s, t);
    forall u: nat, v: nat | Sealed(t, u) && Edge(Succ(g), u, v) ensures Sealed(t, v) {
      if !Sealed(s, u) { MemberEdge(g, s, u, v); }
    }
    forall u: nat, v: nat | Sealed(t, u) ensures Exact(Succ(g), t, u, v) { EmitExact(g, s, t, u, v); }
    EmitNewCondensed(g, s, t);
    forall c: nat | c < |t.comps| ensures Condensed(g, t, c) {
      if c < id { EmitOldCondensed(g, s, t, c); }
    }
  }

  lemma EmitComponents(g: Lists, s: State, t: State)
    requires CanEmit(g, s) && Closed(g, s) && Emitted(s, t)
    ensures forall v: nat :: Sealed(t, v) ==>
      t.states[v].sccId == t.map_[v] < |t.comps| && v in t.comps[t.map_[v]]
    ensures forall c, v: nat :: 0 <= c < |t.comps| && v in t.comps[c] ==> Sealed(t, v) && t.map_[v] == c
    ensures forall c :: 0 <= c < |t.comps| ==> t.comps[c] != [] && NoDuplicates(t.comps[c])
  {
    assert FrameOk(g, s, |s.callStack| - 1);
    assert Member(s, Node(s, |s.callStack| - 1));
    assert forall c :: 0 <= c < |s.comps| ==> t.comps[c] == t.comps[..|s.comps|][c] == s.comps[c];
  }

  // The open part.

  lemma EmitConnected(g: Lists, s: State, t: State)
    requires CanEmit(g, s) && Emitted(s, t) && Connected(Succ(g), s)
    ensures Connected(Succ(g), t)
  {
    forall x: nat | Live(t, x) ensures LowReached(Succ(g), t, x) {
      assert LowReached(Succ(g), s, x);
      var w: nat :| Live(s, w) && Index(s, w) == Low(s, x) && ReachRefl(Succ(g), x, w);
      assert Live(t, w) && Index(t, w) == Low(t, x);
    }
    forall i: nat, x: nat | Segment(t, i, x)
      ensures ReachRefl(Succ(g), Node(t, i), x) && (x != Node(t, i) ==> Low(t, x) < Index(t, x))
    {
      EmitSegment(g, s, t, i, x);
      assert Node(t, i) == Node(s, i);
    }
  }

  /** An edge that was settled before stays so ... */
  lemma EmitOldEdge(g: Lists, s: State, t: State, i: nat, y: nat)
    requires CanEmit(g, s) && Emitted(s, t) && i < |t.callStack| && EdgeOk(s, i, y)
    ensures EdgeOk(t, i, y)
  {
    var n := |s.callStack|;
    EmitFrames(g, s, t, i);
    assert i + 1 < n - 1 ==> Index(s, Node(s, i + 1)) < Index(s, Node(s, n - 1));
    if Sealed(s, y) {
      var p :| s.callStack[i].successorLen <= p < SuccessorEnd(s, i) && p < |s.successors| && s.successors[p] == s.states[y].sccId;
      assert t.successors[p] == s.successors[p];
    }
  }

  /** ... and the edge into the closed node now leads into the recorded component. */
  lemma EmitNewEdge(g: Lists, s: State, t: State)
    requires CanEmit(g, s) && Emitted(s, t) && |s.callStack| >= 2
    ensures EdgeOk(t, |s.callStack| - 2, Node(s, |s.callStack| - 1))
  {
    var n := |s.callStack|;
    var y := Node(s, n - 1);
    EmitFrames(g, s, t, n - 2);
    assert FrameOk(g, s, n - 1) && Member(s, y);
    assert t.successors[s.callStack[n - 1].successorLen] == t.states[y].sccId;
  }

  lemma EmitEdgeOk(g: Lists, s: State, t: State, i: nat, x: nat, k: nat)
    requires CanEmit(g, s) && Emitted(s, t) && EdgesOk(g, s) && Settled(g, t, i, x, k)
    ensures EdgeOk(t, i, g[x][k])
  {
    EmitSettled(g, s, t, i, x, k);
    if Settled(g, s, i, x, k) {
      EmitOldEdge(g, s, t, i, g[x][k]);
    } else {
      assert Calls(g, s, |s.callStack| - 2);
      EmitNewEdge(g, s, t);
    }
  }

  /** The caller's edge into the closed node witnesses the new component on its successor stack. */
  lemma EmitNewWitness(g: Lists, s: State, t: State)
    requires CanEmit(g, s) && Emitted(s, t) && |s.callStack| >= 2
    ensures Witnessed(g, t, |s.callStack| - 2, |s.comps|)
  {
    var n := |s.callStack|;
    var parent, k := Node(s, n - 2), s.callStack[n - 2].next - 1;
    EmitFrames(g, s, t, n - 2);
    assert Calls(g, s, n - 2) && FrameOk(g, s, n - 1);
    assert Member(s, g[parent][k]);
    EmitSegment(g, s, t, n - 2, parent);
    assert Settled(g, t, n - 2, parent, k);
  }

  lemma EmitWitness(g: Lists, s: State, t: State, i: nat, p: nat)
    requires CanEmit(g, s) && Emitted(s, t) && EdgesOk(g, s)
    requires i < |t.callStack| && t.callStack[i].successorLen <= p < SuccessorEnd(t, i) && p < |t.successors|
    ensures Witnessed(g, t, i, t.successors[p])
  {
    EmitFrames(g, s, t, i);
    if p == s.callStack[|s.callStack| - 1].successorLen {
      EmitNewWitness(g, s, t);
    } else {
      assert Witnessed(g, s, i, s.successors[p]);
      var x: nat, k: nat :| Settled(g, s, i, x, k) && Sealed(s, g[x][k]) && s.states[g[x][k]].sccId == s.successors[p];
      EmitSettled(g, s, t, i, x, k);
      assert Settled(g, t, i, x, k);
    }
  }

  lemma EmitKeeps(g: Lists, s: State, t: State)
    requires Invariant(g, s) && CanEmit(g, s) && Emitted(s, t) && Stacked(t)
    ensures Invariant(g, t)
  {
    EmitShaped(g, s, t);
    EmitConnected(g, s, t);
    EmitClosed(g, s, t);
    assert EdgesOk(g, t) by {
      forall i: nat, x: nat, k: nat | Settled(g, t, i, x, k) ensures EdgeOk(t, i, g[x][k]) {
        EmitEdgeOk(g, s, t, i, x, k);
      }
      forall i, p | 0 <= i < |t.callStack| && t.callStack[i].successorLen <= p < SuccessorEnd(t, i) && p < |t.successors|
        ensures Witnessed(g, t, i, t.successors[p])
      {
        EmitWitness(g, s, t, i, p);
      }
    }
  }

  // ----- the algorithm

  /** `VisitState::mark_done` (`src/graph.rs:135-144`). */
  function MarkDone(v: Visit, id: nat): Visit {
    match v
    case Working(index, minVal) => Done(index, minVal, id)
    case _ => v
  }

  /** What popping the top component's nodes off the stack has done after each pop. */
  ghost predicate Gathered(s: State, t: State, members: seq<nat>)
    requires s.callStack != []
  {
    && |t.states| == |s.states| && |t.map_| == |s.map_|
    && t == s.(states := t.states, map_ := t.map_, sccStack := t.sccStack)
    && t.sccStack <= s.sccStack
    && NoDuplicates(members)
    && (forall x: nat :: x in s.sccStack[|t.sccStack|..] <==> x in members)
    && (forall x :: 0 <= x < |s.states| ==>
          t.states[x] == if x in members then MarkDone(s.states[x], |s.comps|) else s.states[x])
    && (forall x :: 0 <= x < |s.map_| ==> t.map_[x] == if x in members then |s.comps| else s.map_[x])
  }

  /** Moves the top of the component stack into component `id`. */
  function Popped(t: State, c: nat, id: nat): State
    requires t.sccStack != [] && c < |t.states| && c < |t.map_|
  {
    t.(states := t.states[c := MarkDone(t.states[c], id)],
       map_ := t.map_[c := id],
       sccStack := t.sccStack[..|t.sccStack| - 1])
  }

  lemma OnceOnStack(s: State, p: nat, m: nat)
    requires Stacked(s) && p < m <= |s.sccStack|
    ensures s.sccStack[p] !in s.sccStack[m..]
  {
    forall q | m <= q < |s.sccStack| ensures s.sccStack[q] != s.sccStack[p] {
      assert Index(s, s.sccStack[p]) < Index(s, s.sccStack[q]);
    }
  }

  lemma GatherOne(s: State, t: State, members: seq<nat>)
    requires s.callStack != [] && Stacked(s) && |s.states| == |s.map_|
    requires Gathered(s, t, members) && t.sccStack != []
    ensures var c := t.sccStack[|t.sccStack| - 1];
      && |t.sccStack| <= |s.sccStack| && c == s.sccStack[|t.sccStack| - 1]
      && c < |t.states| && c < |t.map_| && c !in members && Gathered(s, Popped(t, c, |s.comps|), members + [c])
  {
    var k := |t.sccStack| - 1;
    var c := t.sccStack[k];
    assert s.sccStack[k] == c && Live(s, c);
    OnceOnStack(s, k, k + 1);
    assert s.sccStack[k..] == [c] + s.sccStack[k + 1..];
  }

  /** The members gathered down to the top frame's node are exactly those above it on the stack. */
  lemma GatheredMembers(s: State, t: State, members: seq<nat>, x: nat)
    requires s.callStack != [] && Stacked(s) && Gathered(s, t, members)
    requires |t.sccStack| < |s.sccStack| && s.sccStack[|t.sccStack|] == Node(s, |s.callStack| - 1)
    ensures x in members <==> Member(s, x)
  {
    var k := |t.sccStack|;
    if x in s.sccStack[k..] {
      var q :| k <= q < |s.sccStack| && s.sccStack[q] == x;
    }
    if Member(s, x) {
      var q :| 0 <= q < |s.sccStack| && s.sccStack[q] == x;
      assert q >= k;
      assert s.sccStack[k..][q - k] == x;
    }
  }

  lemma GatheredBelow(s: State, t: State, members: seq<nat>, p: nat)
    requires s.callStack != [] && Stacked(s) && Gathered(s, t, members) && p < |t.sccStack|
    ensures p < |s.sccStack| && t.sccStack[p] == s.sccStack[p] && Live(s, s.sccStack[p]) && Live(t, t.sccStack[p])
    ensures Index(t, t.sccStack[p]) == Index(s, s.sccStack[p])
  {
    OnceOnStack(s, p, |t.sccStack|);
  }

  lemma GatheredLive(s: State, t: State, members: seq<nat>, x: nat)
    requires s.callStack != [] && Stacked(s) && Gathered(s, t, members) && Live(t, x)
    ensures x in t.sccStack
  {
    assert Live(s, x) && x in s.sccStack && x !in s.sccStack[|t.sccStack|..];
    var q :| 0 <= q < |s.sccStack| && s.sccStack[q] == x;
    assert q < |t.sccStack|;
    assert t.sccStack[q] == x;
  }

  lemma GatheredStacked(s: State, t: State, members: seq<nat>)
    requires s.callStack != [] && Stacked(s) && Gathered(s, t, members)
    requires |t.sccStack| < |s.sccStack| && s.sccStack[|t.sccStack|] == Node(s, |s.callStack| - 1)
    ensures Stacked(t) && forall x: nat :: x in members <==> Member(s, x)
  {
    forall x: nat ensures x in members <==> Member(s, x) { GatheredMembers(s, t, members, x); }
    forall p: nat | p < |t.sccStack|
      ensures Live(t, t.sccStack[p]) && p < |s.sccStack| && Index(t, t.sccStack[p]) == Index(s, s.sccStack[p])
    {
      GatheredBelow(s, t, members, p);
    }
    forall x: nat | Live(t, x) ensures x in t.sccStack { GatheredLive(s, t, members, x); }
  }

  /** Pops nodes off the component stack down to `root` (`src/graph.rs:244-258`). */
  method Gather(g: Lists, s: State) returns (t: State, members: seq<nat>)
    requires s.callStack != [] && FrameOk(g, s, |s.callStack| - 1) && Stacked(s) && |s.states| == |s.map_|
    ensures Gathered(s, t, members) && Stacked(t)
    ensures forall x: nat :: x in members <==> Member(s, x)
  {
    var root := s.callStack[|s.callStack| - 1].node;
    ghost var at :| 0 <= at < |s.sccStack| && s.sccStack[at] == root;
    t, members := s, [];
    while true
      invariant Gathered(s, t, members)
      invariant at < |t.sccStack|
      decreases |t.sccStack|
    {
      GatherOne(s, t, members);
      var c := t.sccStack[|t.sccStack| - 1];
      t := Popped(t, c, |s.comps|);
      members := members + [c];
      if c == root {
        break;
      }
    }
    GatheredStacked(s, t, members);
  }

  /** Keeps the first occurrence of every value (`src/graph.rs:262-270`). */
  method DedupFirst(s: seq<nat>) returns (list: seq<nat>)
    ensures NoDuplicates(list) && forall x: nat :: x in list <==> x in s
  {
    list := [];
    for i := 0 to |s|
      invariant NoDuplicates(list) && forall x: nat :: x in list <==> x in s[..i]
    {
      assert s[..i + 1] == s[..i] + [s[i]];
      if s[i] !in list {
        list := list + [s[i]];
      }
    }
    assert s[..|s|] == s;
  }

  /** The state once `members` is a component with successors `list`. */
  function Closing(s: State, gathered: State, members: seq<nat>, list: seq<nat>): State
    requires s.callStack != [] && s.callStack[|s.callStack| - 1].successorLen <= |s.successors|
  {
    var n := |s.callStack|;
    gathered.(comps := s.comps + [members],
              oDag := Append(s.oDag, list),
              successors := s.successors[..s.callStack[n - 1].successorLen] + (if n > 1 then [|s.comps|] else []),
              callStack := s.callStack[..n - 1])
  }

  /** Closes the component of the top frame's node. */
  method Emit(g: Lists, s: State) returns (t: State)
    requires Invariant(g, s) && CanEmit(g, s)
    ensures Emitted(s, t) && Invariant(g, t)
  {
    var frame := s.callStack[|s.callStack| - 1];
    assert FrameOk(g, s, |s.callStack| - 1);
    var gathered, members := Gather(g, s);
    var list := DedupFirst(s.successors[frame.successorLen..]);
    OwnRecorded(s, list);
    EmitEstablished(s, gathered, Closing(s, gathered, members, list), members, list);
    t := Closing(s, gathered, members, list);
    EmitKeeps(g, s, t);
  }

  lemma OwnRecorded(s: State, list: seq<nat>)
    requires s.callStack != [] && s.callStack[|s.callStack| - 1].successorLen <= |s.successors|
    requires forall d: nat :: d in list <==> d in s.successors[s.callStack[|s.callStack| - 1].successorLen..]
    ensures forall d: nat :: d in list <==> Recorded(s, |s.callStack| - 1, d)
  {
    var n := |s.callStack|;
    var start := s.callStack[n - 1].successorLen;
    forall d: nat | Recorded(s, n - 1, d) ensures d in list {
      var p :| start <= p < |s.successors| && s.successors[p] == d;
      assert s.successors[start..][p - start] == d;
    }
  }

  lemma EmitEstablished(s: State, gathered: State, t: State, members: seq<nat>, list: seq<nat>)
    requires s.callStack != [] && Gathered(s, gathered, members) && |s.states| == |s.map_|
    requires forall x: nat :: x in members <==> Member(s, x)
    requires NoDuplicates(list) && forall d: nat :: d in list <==> Recorded(s, |s.callStack| - 1, d)
    requires s.callStack[|s.callStack| - 1].successorLen <= |s.successors|
    requires t == Closing(s, gathered, members, list)
    requires Stacked(gathered)
    ensures Emitted(s, t) && Stacked(t)
  {
    assert t.comps[..|s.comps|] == s.comps;
    StackedCongruent(gathered, t);
  }

  ghost function Unseen(s: State): set<nat> {
    set v | 0 <= v < |s.states| && s.states[v].NotSeen?
  }

  ghost function EdgesLeft(g: Lists, s: State): int {
    if s.callStack == [] then 0
    else
      var top := s.callStack[|s.callStack| - 1];
      if top.node < |g| then |g[top.node]| - top.next else 0
  }

  /** The first node on the component stack belongs to the bottom frame, so only a root can be
      exhausted there. */
  lemma ReturnHasCaller(g: Lists, s: State)
    requires Invariant(g, s) && Exhausted(g, s)
    requires Low(s, Node(s, |s.callStack| - 1)) != Index(s, Node(s, |s.callStack| - 1))
    ensures CanReturn(g, s)
  {
    var c := Node(s, |s.callStack| - 1);
    assert FrameOk(g, s, |s.callStack| - 1) && LowReached(Succ(g), s, c);
    var w: nat :| Live(s, w) && Index(s, w) == Low(s, c) && ReachRefl(Succ(g), c, w);
  }

  /** The caller's minimum is never above that of a closed component (`src/graph.rs:280-283`). */
  lemma EmitLeavesCaller(g: Lists, s: State, t: State)
    requires CanEmit(g, s) && Emitted(s, t) && Shaped(g, t) && t.callStack != []
    ensures var parent, c := t.callStack[|t.callStack| - 1].node, Node(s, |s.callStack| - 1);
      && parent < |t.states| && t.states[parent].Working? && c < |t.states| && t.states[c].Done?
      && t.(states := t.states[parent := UpdateMin(t.states[parent], t.states[c].minVal)]) == t
  {
    var n := |s.callStack|;
    var c, parent := Node(s, n - 1), Node(t, n - 2);
    assert Sealed(t, c) by { assert FrameOk(g, s, n - 1); }
    assert Live(t, parent) by { assert FrameOk(g, t, n - 2); }
    EmitMinimum(g, s, t);
    UpdateAbove(t, parent, t.states[c].minVal);
  }

  lemma EmitMinimum(g: Lists, s: State, t: State)
    requires CanEmit(g, s) && Emitted(s, t) && Shaped(g, t) && t.callStack != []
    ensures Low(t, Node(t, |s.callStack| - 2)) < Low(t, Node(s, |s.callStack| - 1))
  {
    var n := |s.callStack|;
    var c, parent := Node(s, n - 1), Node(s, n - 2);
    assert Node(t, n - 2) == parent;
    assert FrameOk(g, t, n - 2);
    assert Index(s, parent) < Index(s, c);
  }

  lemma UpdateAbove(t: State, parent: nat, other: nat)
    requires Live(t, parent) && Low(t, parent) <= other
    ensures t.(states := t.states[parent := UpdateMin(t.states[parent], other)]) == t
  {
    assert t.states[parent := t.states[parent]] == t.states;
  }

  lemma EmitSeen(s: State, t: State)
    requires s.callStack != [] && Emitted(s, t)
    ensures SameSeen(s, t)
  {
    forall v | 0 <= v < |s.states| ensures t.states[v].NotSeen? <==> s.states[v].NotSeen? {
      assert Live(t, v) || Sealed(t, v) <==> Live(s, v) || Sealed(s, v);
    }
  }

  ghost predicate SameSeen(s: State, t: State) {
    |t.states| == |s.states| && forall v :: 0 <= v < |s.states| ==> (t.states[v].NotSeen? <==> s.states[v].NotSeen?)
  }

  lemma SameUnseen(s: State, t: State)
    requires SameSeen(s, t)
    ensures Unseen(t) == Unseen(s)
  {
  }

  /** Pops the exhausted top frame (`src/graph.rs:235-283`). */
  method Leave(g: Lists, s: State) returns (t: State)
    requires Invariant(g, s) && Exhausted(g, s)
    ensures Invariant(g, t) && SameSeen(s, t) && |t.callStack| == |s.callStack| - 1
  {
    var top := s.callStack[|s.callStack| - 1];
    assert FrameOk(g, s, |s.callStack| - 1);
    if s.states[top.node].index == s.states[top.node].minVal {
      t := Emit(g, s);
      EmitSeen(s, t);
      if t.callStack != [] {
        EmitLeavesCaller(g, s, t);
        var parent := t.callStack[|t.callStack| - 1].node;
        t := t.(states := t.states[parent := UpdateMin(t.states[parent], t.states[top.node].minVal)]);
      }
    } else {
      ReturnHasCaller(g, s);
      ReturnKeeps(g, s);
      t := Return(s);
    }
  }

  ghost predicate KeepsSeen(s: State, t: State) {
    |t.states| == |s.states| && forall v :: 0 <= v < |s.states| && !s.states[v].NotSeen? ==> !t.states[v].NotSeen?
  }

  /** Takes the next edge of the top frame (`src/graph.rs:209-233`). */
  method Follow(g: Lists, s: State) returns (t: State)
    requires Invariant(g, s) && s.callStack != []
    requires var top := s.callStack[|s.callStack| - 1]; top.node < |g| && top.next < |g[top.node]|
    ensures Invariant(g, t) && KeepsSeen(s, t)
    ensures Unseen(t) < Unseen(s) ||
            (Unseen(t) == Unseen(s) && |t.callStack| == |s.callStack| && 0 <= EdgesLeft(g, t) < EdgesLeft(g, s))
  {
    var top := s.callStack[|s.callStack| - 1];
    assert FrameOk(g, s, |s.callStack| - 1);
    var next := g[top.node][top.next];
    assert Wants(g, s, next);
    if s.states[next].NotSeen? {
      EnterKeeps(g, s, next);
      assert next in Unseen(s);
      t := Enter(s, next);
    } else {
      NoteKeeps(g, s, next);
      SameUnseen(s, Note(s, next));
      t := Note(s, next);
    }
  }

  /** Explores everything reachable from `root` (`src/graph.rs:195-284`). */
  method Explore(g: Lists, start: State, root: nat) returns (s: State)
    requires Invariant(g, start) && start.callStack == [] && root < |g| && start.states[root].NotSeen?
    ensures Invariant(g, s) && s.callStack == []
    ensures !s.states[root].NotSeen? && KeepsSeen(start, s)
  {
    EnterKeeps(g, start, root);
    s := Enter(start, root);
    while s.callStack != []
      invariant Invariant(g, s)
      invariant !s.states[root].NotSeen? && KeepsSeen(start, s)
      decreases Unseen(s), |s.callStack|, EdgesLeft(g, s)
    {
      var top := s.callStack[|s.callStack| - 1];
      assert FrameOk(g, s, |s.callStack| - 1);
      if top.next < |g[top.node]| {
        s := Follow(g, s);
      } else {
        var t := Leave(g, s);
        SameUnseen(s, t);
        s := t;
      }
    }
  }

  /** Strongly connected components and their condensation. */
  method Tarjan(g: Lists) returns (sccs: SCCs)
    requires InRange(g)
    ensures IsPartition(|g|, sccs.map_, sccs.comps)
    ensures forall u, v :: 0 <= u < |g| && 0 <= v < |g| ==> (sccs.map_[u] == sccs.map_[v] <==> Mutual(Succ(g), u, v))
    ensures Packed(sccs.oDag) && |sccs.oDag.nodes| == |sccs.comps|
    ensures forall c :: 0 <= c < |sccs.comps| ==> IsCondensed(Succ(g), sccs.map_, c, FullEdges(sccs.oDag, c))
  {
    var s := State(seq(|g|, _ => NotSeen), [], [], [], seq(|g|, _ => 0), [], EMPTY, 0);
    for root := 0 to |g|
      invariant Invariant(g, s) && s.callStack == []
      invariant forall v :: 0 <= v < root ==> !s.states[v].NotSeen?
    {
      if !s.states[root].NotSeen? {
        continue;
      }
      s := Explore(g, s, root);
    }
    AllSealed(g, s);
    sccs := SCCs(s.map_, s.comps, s.oDag);
  }

  lemma SealedPartition(g: Lists, s: State)
    requires |s.states| == |s.map_| == |g| && Closed(g, s) && forall v: nat :: v < |g| ==> Sealed(s, v)
    ensures IsPartition(|g|, s.map_, s.comps)
  {
    forall c, k | 0 <= c < |s.comps| && 0 <= k < |s.comps[c]|
      ensures s.comps[c][k] < |g| && s.map_[s.comps[c][k]] == c
    {
      assert s.comps[c][k] in s.comps[c] && Sealed(s, s.comps[c][k]);
    }
  }

  /** With no frame open, every seen node is in a component, and the invariant is the result. */
  lemma AllSealed(g: Lists, s: State)
    requires Invariant(g, s) && s.callStack == [] && forall v :: 0 <= v < |g| ==> !s.states[v].NotSeen?
    ensures IsPartition(|g|, s.map_, s.comps)
    ensures forall u, v :: 0 <= u < |g| && 0 <= v < |g| ==> (s.map_[u] == s.map_[v] <==> Mutual(Succ(g), u, v))
    ensures forall c :: 0 <= c < |s.comps| ==> IsCondensed(Succ(g), s.map_, c, FullEdges(s.oDag, c))
  {
    assert forall v: nat :: v < |g| ==> Sealed(s, v) by {
      forall v: nat | v < |g| ensures Sealed(s, v) { assert !Live(s, v); }
    }
    SealedPartition(g, s);
    forall u, v | 0 <= u < |g| && 0 <= v < |g| ensures s.map_[u] == s.map_[v] <==> Mutual(Succ(g), u, v) {
      assert Exact(Succ(g), s, u, v);
    }
    forall c | 0 <= c < |s.comps| ensures IsCondensed(Succ(g), s.map_, c, FullEdges(s.oDag, c)) {
      assert Condensed(g, s, c);
      forall d: nat ensures Crosses(Succ(g), s.map_, c, d) <==> SealedCrossing(Succ(g), s, c, d) {
      }
    }
  }
}
