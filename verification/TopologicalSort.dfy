/** The depth-first topological sort of `src/graph.rs:335-436`, which returns either an order or
    the first cycle it meets.
 */
module TopologicalSort {
  import opened Relations
  import opened Sequences
  import opened SearchOrder

  datatype GraphCycle = GraphCycle(nodes: seq<nat>)

  /** The nodes in their new order, and for every node its place there. */
  datatype TopologicalOrder = TopologicalOrder(order: seq<nat>, map_: seq<nat>)

  /** `order` and `map_` are mutually inverse listings of the nodes `0..n`. */
  ghost predicate IsListing(t: TopologicalOrder, n: nat) {
    && |t.order| == |t.map_| == n
    && (forall i :: 0 <= i < n ==> t.order[i] < n && t.map_[t.order[i]] == i)
    && (forall v :: 0 <= v < n ==> t.map_[v] < n && t.order[t.map_[v]] == v)
  }

  /** A listing that all edges follow. */
  ghost predicate IsTopological(r: Rel, t: TopologicalOrder) {
    && IsListing(t, |r|)
    && forall u: nat, v: nat :: Edge(r, u, v) ==> v < |r| && t.map_[u] < t.map_[v]
  }

  // ----- the search state

  datatype Visit = NotSeen | Working | Done

  /** A frame of the explicit call stack; `next` counts the edges its iterator has yielded. */
  datatype Frame = Frame(node: nat, next: nat)

  const NO_POSITION: nat := 0xFFFF_FFFF_FFFF_FFFF

  /** The four vectors of the search; `reversed` is the source's `reverse_order`. */
  datatype Search = Search(states: seq<Visit>, stackPos: seq<nat>, frames: seq<Frame>, reversed: seq<nat>)

  ghost predicate Shaped(g: Lists, s: Search) {
    && InRange(g)
    && |s.states| == |s.stackPos| == |g|
    && forall i :: 0 <= i < |s.frames| ==> s.frames[i].node < |g| && s.frames[i].next <= |g[s.frames[i].node]|
  }

  /** The frames are exactly the nodes being worked on, each reached by an edge of the one below. */
  ghost predicate Framed(g: Lists, s: Search)
    requires Shaped(g, s)
  {
    && (forall i :: 0 <= i < |s.frames| ==> s.states[s.frames[i].node] == Working && s.stackPos[s.frames[i].node] == i)
    && (forall v {:trigger OnStack(s, v)} :: 0 <= v < |g| && s.states[v] == Working ==> OnStack(s, v))
    && (forall i :: 0 <= i < |s.frames| - 1 ==> Calls(g, s.frames, i))
  }

  ghost predicate OnStack(s: Search, v: nat)
    requires v < |s.stackPos|
  {
    s.stackPos[v] < |s.frames| && s.frames[s.stackPos[v]].node == v
  }

  /** Frame `i` is waiting for the node of the frame above it. */
  ghost predicate Calls(g: Lists, frames: seq<Frame>, i: nat)
    requires i + 1 < |frames| && frames[i].node < |g| && frames[i].next <= |g[frames[i].node]|
  {
    frames[i].next > 0 && g[frames[i].node][frames[i].next - 1] == frames[i + 1].node
  }

  /** Finished nodes are listed once, after all their successors. */
  ghost predicate Finished(g: Lists, s: Search)
    requires Shaped(g, s)
  {
    && (forall v: nat :: v in s.reversed <==> v < |g| && s.states[v] == Done)
    && NoDuplicates(s.reversed)
    && (forall i, k :: 0 <= i < |s.reversed| && s.reversed[i] < |g| && 0 <= k < |g[s.reversed[i]]| ==>
          g[s.reversed[i]][k] in s.reversed[..i])
  }

  /** The edges frame `i` is past lead to finished nodes; the edge to the frame above does not count. */
  ghost predicate Settled(g: Lists, s: Search, i: nat)
    requires Shaped(g, s) && i < |s.frames|
  {
    var Frame(node, next) := s.frames[i];
    forall k :: 0 <= k < (if i + 1 == |s.frames| then next else next - 1) ==> s.states[g[node][k]] == Done
  }

  ghost predicate Invariant(g: Lists, s: Search) {
    && Shaped(g, s)
    && Framed(g, s)
    && Finished(g, s)
    && forall i :: 0 <= i < |s.frames| ==> Settled(g, s, i)
  }

  // ----- its three moves

  /** Start working on `node`. */
  function Push(s: Search, node: nat): Search
    requires node < |s.states| == |s.stackPos|
  {
    s.(states := s.states[node := Working],
       stackPos := s.stackPos[node := |s.frames|],
       frames := s.frames + [Frame(node, 0)])
  }

  /** Take one more edge from the top frame's iterator. */
  function Advance(s: Search): Search
    requires |s.frames| > 0
  {
    var top := |s.frames| - 1;
    s.(frames := s.frames[top := s.frames[top].(next := s.frames[top].next + 1)])
  }

  /** The top frame's iterator is exhausted. */
  function Pop(s: Search): Search
    requires |s.frames| > 0 && s.frames[|s.frames| - 1].node < |s.states| == |s.stackPos|
  {
    var node := s.frames[|s.frames| - 1].node;
    Search(s.states[node := Done], s.stackPos[node := NO_POSITION],
           s.frames[..|s.frames| - 1], s.reversed + [node])
  }

  lemma PushRoot(g: Lists, s: Search, root: nat)
    requires Invariant(g, s) && s.frames == [] && root < |g| && s.states[root] == NotSeen
    ensures Invariant(g, Push(s, root))
  {
    assert forall v :: 0 <= v < |g| && s.states[v] == Working ==> OnStack(s, v);
  }

  lemma PushChild(g: Lists, s: Search)
    requires Invariant(g, s) && s.frames != []
    requires var top := s.frames[|s.frames| - 1];
      top.next < |g[top.node]| && s.states[g[top.node][top.next]] == NotSeen
    ensures var top := s.frames[|s.frames| - 1];
      Invariant(g, Push(Advance(s), g[top.node][top.next]))
  {
    var top := s.frames[|s.frames| - 1];
    PushChildKeeps(g, s, Push(Advance(s), g[top.node][top.next]), g[top.node][top.next]);
  }

  /** The same over the changes alone. */
  lemma PushChildKeeps(g: Lists, s: Search, t: Search, next: nat)
    requires Invariant(g, s) && s.frames != [] && next < |g| && s.states[next] == NotSeen
    requires var n := |s.frames|;
      var Frame(node, at) := s.frames[n - 1];
      && at < |g[node]| && g[node][at] == next
      && t.frames == s.frames[..n - 1] + [Frame(node, at + 1), Frame(next, 0)]
      && t.states == s.states[next := Working] && t.stackPos == s.stackPos[next := n] && t.reversed == s.reversed
    ensures Invariant(g, t)
  {
    var n := |s.frames|;
    assert forall i :: 0 <= i < n ==> t.frames[i].node == s.frames[i].node;
    forall v | 0 <= v < |g| && t.states[v] == Working ensures OnStack(t, v) {
      assert s.states[v] == Working ==> OnStack(s, v);
    }
    forall i | 0 <= i < n ensures Calls(g, t.frames, i) {
      assert i < n - 1 ==> Calls(g, s.frames, i);
    }
    forall i | 0 <= i < |t.frames| ensures Settled(g, t, i) {
      assert i < n ==> Settled(g, s, i);
    }
  }

  lemma AdvancePastDone(g: Lists, s: Search)
    requires Invariant(g, s) && s.frames != []
    requires var top := s.frames[|s.frames| - 1];
      top.next < |g[top.node]| && s.states[g[top.node][top.next]] == Done
    ensures Invariant(g, Advance(s))
  {
    var t := Advance(s);
    assert forall i :: 0 <= i < |s.frames| ==> t.frames[i].node == s.frames[i].node;
    forall v | 0 <= v < |g| && t.states[v] == Working ensures OnStack(t, v) {
      assert OnStack(s, v);
    }
    forall i | 0 <= i < |t.frames| ensures Settled(g, t, i) { assert Settled(g, s, i); }
    forall i | 0 <= i < |t.frames| - 1 ensures Calls(g, t.frames, i) { assert Calls(g, s.frames, i); }
  }

  lemma PopFinished(g: Lists, s: Search)
    requires Invariant(g, s) && s.frames != []
    requires var top := s.frames[|s.frames| - 1]; top.next == |g[top.node]|
    ensures Invariant(g, Pop(s))
  {
    var n := |s.frames| - 1;
    var t := Pop(s);
    assert Settled(g, s, n);
    assert Finished(g, t) by {
      forall i, k | 0 <= i < |t.reversed| && t.reversed[i] < |g| && 0 <= k < |g[t.reversed[i]]|
        ensures g[t.reversed[i]][k] in t.reversed[..i]
      {
        assert t.reversed[..i] == s.reversed[..i];
      }
    }
    forall v | 0 <= v < |g| && t.states[v] == Working ensures OnStack(t, v) {
      assert OnStack(s, v);
    }
    forall i | 0 <= i < n ensures Settled(g, t, i) {
      assert Settled(g, s, i) && Calls(g, s.frames, i);
    }
    forall i | 0 <= i < n - 1 ensures Calls(g, t.frames, i) { assert Calls(g, s.frames, i); }
  }

  /** An edge back to a node on the stack closes a cycle along the frames. */
  lemma BackEdgeCycle(g: Lists, s: Search, target: nat)
    requires Invariant(g, s) && s.frames != []
    requires var top := s.frames[|s.frames| - 1];
      top.next < |g[top.node]| && g[top.node][top.next] == target && s.states[target] == Working
    ensures s.stackPos[target] < |s.frames|
    ensures IsCycle(Succ(g), FrameNodes(s.frames[s.stackPos[target]..]) + [target])
  {
    assert OnStack(s, target);
    var start := s.stackPos[target];
    var p := FrameNodes(s.frames[start..]) + [target];
    forall i, j | 0 <= i && j == i + 1 && j < |p| ensures Edge(Succ(g), p[i], p[j]) {
      FrameEdge(g, s, start + i);
      assert p[i] == s.frames[start + i].node;
      assert p[j] == if start + j < |s.frames| then s.frames[start + j].node else target;
    }
    var once := p[..|p| - 1];
    forall i, j | 0 <= i < j < |once| ensures once[i] != once[j] {
      assert s.stackPos[s.frames[start + i].node] != s.stackPos[s.frames[start + j].node];
    }
  }

  /** Every frame has an edge to the one above it, the top frame to the node of its next edge. */
  lemma FrameEdge(g: Lists, s: Search, i: nat)
    requires Invariant(g, s) && i < |s.frames|
    requires var top := s.frames[|s.frames| - 1]; top.next < |g[top.node]|
    ensures var top := s.frames[|s.frames| - 1];
      Edge(Succ(g), s.frames[i].node, if i + 1 < |s.frames| then s.frames[i + 1].node else g[top.node][top.next])
  {
    var frame := s.frames[i];
    if i + 1 < |s.frames| {
      assert Calls(g, s.frames, i);
      assert g[frame.node][frame.next - 1] in g[frame.node];
    } else {
      assert g[frame.node][frame.next] in g[frame.node];
    }
  }

  function FrameNodes(frames: seq<Frame>): (nodes: seq<nat>)
    ensures |nodes| == |frames|
    ensures forall i :: 0 <= i < |frames| ==> nodes[i] == frames[i].node
  {
    seq(|frames|, i requires 0 <= i < |frames| => frames[i].node)
  }

  ghost function Unseen(s: Search): set<nat> {
    set v | 0 <= v < |s.states| && s.states[v] == NotSeen
  }

  ghost function EdgesLeft(g: Lists, s: Search): nat {
    if s.frames == [] then 0
    else
      var top := s.frames[|s.frames| - 1];
      if top.node < |g| && top.next <= |g[top.node]| then |g[top.node]| - top.next else 0
  }

  // ----- which nodes are finished

  /** Finished nodes reach finished nodes only, and those are listed earlier. */
  lemma {:induction false} DoneSteps(g: Lists, s: Search, n: nat, i: nat, v: nat) returns (j: nat)
    requires Invariant(g, s) && i < |s.reversed| && Steps(Succ(g), n, s.reversed[i], v)
    ensures j <= i && s.reversed[j] == v && (n > 0 ==> j < i)
    decreases n
  {
    if n == 0 {
      j := i;
    } else {
      var w: nat :| Edge(Succ(g), s.reversed[i], w) && Steps(Succ(g), n - 1, w, v);
      var m := DoneEdge(g, s, i, w);
      j := DoneSteps(g, s, n - 1, m, v);
    }
  }

  lemma DoneEdge(g: Lists, s: Search, i: nat, w: nat) returns (m: nat)
    requires Invariant(g, s) && i < |s.reversed| && Edge(Succ(g), s.reversed[i], w)
    ensures m < i && s.reversed[m] == w
  {
    var u := s.reversed[i];
    assert u in s.reversed;
    var k :| 0 <= k < |g[u]| && g[u][k] == w;
    m :| 0 <= m < i && s.reversed[..i][m] == w;
  }

  lemma DoneClosed(g: Lists, s: Search, u: nat, v: nat)
    requires Invariant(g, s) && u < |g| && s.states[u] == Done && ReachRefl(Succ(g), u, v)
    ensures v < |g| && s.states[v] == Done
  {
    assert u in s.reversed;
    if u != v {
      var i :| 0 <= i < |s.reversed| && s.reversed[i] == u;
      var n: nat :| n > 0 && Steps(Succ(g), n, u, v);
      var j := DoneSteps(g, s, n, i, v);
      assert v in s.reversed;
    }
  }

  /** Finished nodes reach no cycle. */
  lemma DoneAcyclic(g: Lists, s: Search, u: nat)
    requires Invariant(g, s) && u < |g| && s.states[u] == Done
    ensures !Hits(Succ(g), CycleNodes(Succ(g)), u)
  {
    if v: nat :| v in CycleNodes(Succ(g)) && ReachRefl(Succ(g), u, v) {
      DoneClosed(g, s, u, v);
      assert v in s.reversed;
      var i :| 0 <= i < |s.reversed| && s.reversed[i] == v;
      var n: nat :| n > 0 && Steps(Succ(g), n, v, v);
      var j := DoneSteps(g, s, n, i, v);
    }
  }

  // ----- the frames follow the leftmost walk

  /** Only nodes from `root` on are not finished, and the search stands on `root`. */
  ghost predicate Rooted(g: Lists, s: Search, root: nat) {
    && s.frames != [] && s.frames[0].node == root
    && forall y: nat :: y < root && y < |s.states| ==> s.states[y] == Done
  }

  /** No finished node reaches the goal, but the top frame's next edge does. */
  ghost predicate Towards(g: Lists, s: Search, goal: set<nat>)
    requires Shaped(g, s) && s.frames != []
  {
    var top := s.frames[|s.frames| - 1];
    && top.next < |g[top.node]| && Hits(Succ(g), goal, g[top.node][top.next])
    && forall x: nat :: x < |g| && s.states[x] == Done ==> !Hits(Succ(g), goal, x)
  }

  /** The edge that frame `i` is taking. */
  ghost function Taking(s: Search, i: nat): int
    requires i < |s.frames|
  {
    if i + 1 == |s.frames| then s.frames[i].next else s.frames[i].next - 1
  }

  lemma {:induction false} FrameHits(g: Lists, s: Search, goal: set<nat>, i: nat)
    requires Invariant(g, s) && s.frames != [] && Towards(g, s, goal) && i < |s.frames|
    ensures Hits(Succ(g), goal, s.frames[i].node)
    decreases |s.frames| - i
  {
    FrameEdge(g, s, i);
    if i + 1 < |s.frames| {
      FrameHits(g, s, goal, i + 1);
      HitsBack(Succ(g), goal, s.frames[i].node, s.frames[i + 1].node);
    } else {
      HitsBack(Succ(g), goal, s.frames[i].node, g[s.frames[i].node][s.frames[i].next]);
    }
  }

  /** Every frame is taking its first edge towards the goal. */
  lemma FrameTurns(g: Lists, s: Search, goal: set<nat>, i: nat)
    requires Invariant(g, s) && s.frames != [] && Towards(g, s, goal) && i < |s.frames|
    ensures 0 <= Taking(s, i) && TurnAt(g, goal, s.frames[i].node, Taking(s, i))
    ensures i + 1 < |s.frames| ==> g[s.frames[i].node][Taking(s, i)] == s.frames[i + 1].node
  {
    var node := s.frames[i].node;
    assert Settled(g, s, i);
    if i + 1 < |s.frames| {
      assert Calls(g, s.frames, i);
      FrameHits(g, s, goal, i + 1);
    }
    forall j: nat | j < Taking(s, i) ensures !Hits(Succ(g), goal, g[node][j]) {
      assert s.states[g[node][j]] == Done;
    }
  }

  /** So the frames, and the next edge, are the leftmost walk towards the goal. */
  lemma StackWalk(g: Lists, s: Search, root: nat, goal: set<nat>)
    requires Invariant(g, s) && Rooted(g, s, root) && Towards(g, s, goal)
    ensures var top := s.frames[|s.frames| - 1];
      IsLeftWalk(g, goal, FrameNodes(s.frames) + [g[top.node][top.next]])
  {
    var top := s.frames[|s.frames| - 1];
    var walk := FrameNodes(s.frames) + [g[top.node][top.next]];
    FrameHits(g, s, goal, 0);
    forall i, j | 0 <= i && j == i + 1 && j < |walk| ensures Turns(g, goal, walk[i], walk[j]) {
      FrameTurns(g, s, goal, i);
      assert g[walk[i]][Taking(s, i)] == walk[j];
    }
  }

  // ----- what the search keeps of the laws

  /** How many edges of `w` have been taken. */
  ghost function Started(g: Lists, s: Search, w: nat): nat {
    if w >= |s.states| || w >= |g| || w >= |s.stackPos| then 0
    else match s.states[w]
      case NotSeen => 0
      case Working => if s.stackPos[w] < |s.frames| then s.frames[s.stackPos[w]].next else 0
      case Done => |g[w]|
  }

  ghost predicate TurnTaken(g: Lists, s: Search, w: nat, v: nat) {
    exists k: nat :: TurnAt(g, {v}, w, k) && k < Started(g, s, w)
  }

  /** A node has been seen only over the turns that lead to it. */
  ghost predicate TurnsTaken(g: Lists, s: Search) {
    forall w: nat, v: nat :: v < |s.states| && s.states[v] != NotSeen && Leads(g, w, v) ==> TurnTaken(g, s, w, v)
  }

  /** `TurnLaw` for the list of finished nodes, which runs the other way. */
  ghost predicate TurnsListed(g: Lists, finished: seq<nat>) {
    forall w: nat, i: nat, k: nat, u: nat, v: nat ::
      EarlierTurn(g, w, i, k, u, v) && v in finished ==> Precedes(finished, u, v)
  }

  /** `RootLaw` likewise. */
  ghost predicate RootsListed(r: Rel, finished: seq<nat>) {
    forall x: nat, u: nat, v: nat :: v in finished && ReachRefl(r, x, u) && !ReachedBy(r, x, v) ==>
      Precedes(finished, u, v)
  }

  ghost predicate ReachedBelow(r: Rel, root: nat, v: nat) {
    exists y: nat :: y < root && ReachRefl(r, y, v)
  }

  /** Between two roots: what is finished is what lower roots reach, listed by the laws. */
  ghost predicate Lawful(g: Lists, s: Search, root: nat) {
    && Invariant(g, s) && s.frames == []
    && (forall v: nat :: v < |g| ==> (s.states[v] == Done <==> ReachedBelow(Succ(g), root, v)))
    && (forall v :: 0 <= v < |g| ==> s.states[v] != Working)
    && TurnsTaken(g, s) && TurnsListed(g, s.reversed) && RootsListed(Succ(g), s.reversed)
  }

  /** Inside the search from `root`, which began in state `start`. */
  ghost predicate Exploring(g: Lists, start: Search, root: nat, s: Search) {
    && root < |g| && |s.states| == |start.states| == |g|
    && s.states[root] != NotSeen && (s.frames == [] ==> s.states[root] == Done)
    && (s.frames != [] ==> Rooted(g, s, root))
    && (forall v :: 0 <= v < |g| && start.states[v] == Done ==> s.states[v] == Done)
    && (forall v: nat :: v < |g| && s.states[v] != NotSeen ==> start.states[v] == Done || ReachRefl(Succ(g), root, v))
    && start.reversed <= s.reversed
    && TurnsTaken(g, s) && TurnsListed(g, s.reversed)
  }

  lemma StartedGrows(g: Lists, s: Search, t: Search)
    requires |t.states| == |s.states| && TurnsTaken(g, s)
    requires forall w: nat :: Started(g, s, w) <= Started(g, t, w)
    requires forall v :: 0 <= v < |s.states| ==> (t.states[v] == NotSeen <==> s.states[v] == NotSeen)
    ensures TurnsTaken(g, t)
  {
    forall w: nat, v: nat | v < |t.states| && t.states[v] != NotSeen && Leads(g, w, v) ensures TurnTaken(g, t, w, v) {
      assert TurnTaken(g, s, w, v);
      var k: nat :| TurnAt(g, {v}, w, k) && k < Started(g, s, w);
      assert k < Started(g, t, w);
    }
  }

  /** The turns towards a node that is about to be entered have just been taken. */
  lemma ChildTurns(g: Lists, s: Search, root: nat, w: nat)
    requires Invariant(g, s) && Rooted(g, s, root)
    requires var top := s.frames[|s.frames| - 1];
      top.next < |g[top.node]| && s.states[g[top.node][top.next]] == NotSeen && Leads(g, w, g[top.node][top.next])
    ensures var top := s.frames[|s.frames| - 1];
      TurnTaken(g, Push(Advance(s), g[top.node][top.next]), w, g[top.node][top.next])
  {
    var top := s.frames[|s.frames| - 1];
    var d := g[top.node][top.next];
    forall x: nat | x < |g| && s.states[x] == Done ensures !Hits(Succ(g), {d}, x) {
      if Hits(Succ(g), {d}, x) { DoneClosed(g, s, x, d); }
    }
    var i := LeadsFromFrame(g, s, root, w, d);
    FrameTurns(g, s, {d}, i);
    FrameStarted(g, s, i, d);
  }

  /** The leftmost walk to the node about to be entered leaves from frames only. */
  lemma LeadsFromFrame(g: Lists, s: Search, root: nat, w: nat, d: nat) returns (i: nat)
    requires Invariant(g, s) && Rooted(g, s, root) && Towards(g, s, {d}) && Leads(g, w, d)
    requires var top := s.frames[|s.frames| - 1]; g[top.node][top.next] == d
    ensures i < |s.frames| && s.frames[i].node == w
  {
    StackWalk(g, s, root, {d});
    var walk: seq<nat> :| LeadsOn(g, walk, w, d);
    var own := FrameNodes(s.frames) + [d];
    i := |walk| - 1;
    if i >= |s.frames| {
      LeftWalksAgree(g, {d}, walk, own, |s.frames|);
    } else {
      LeftWalksAgree(g, {d}, walk, own, i);
    }
  }

  lemma FrameStarted(g: Lists, s: Search, i: nat, d: nat)
    requires Invariant(g, s) && i < |s.frames| && d < |g| && s.states[d] == NotSeen
    requires var top := s.frames[|s.frames| - 1]; top.next < |g[top.node]| && g[top.node][top.next] == d
    ensures Started(g, Push(Advance(s), d), s.frames[i].node) == Taking(s, i) + 1
  {
    assert s.states[s.frames[i].node] == Working && s.stackPos[s.frames[i].node] == i;
  }

  /** No turn leads to a root that no lower node reaches. */
  lemma RootTurns(g: Lists, s: Search, root: nat, w: nat)
    requires Invariant(g, s) && root < |g| && s.states[root] == NotSeen
    requires forall y: nat :: y < root ==> s.states[y] == Done
    ensures !Leads(g, w, root)
  {
    if walk: seq<nat> :| LeadsOn(g, walk, w, root) {
      assert Hits(Succ(g), {root}, root);
      assert walk[0] in walk;
      if walk[0] < root { DoneClosed(g, s, walk[0], root); }
    }
  }

  lemma ExploringRoot(g: Lists, start: Search, root: nat)
    requires Lawful(g, start, root) && root < |g| && start.states[root] == NotSeen
    ensures Exploring(g, start, root, Push(start, root))
  {
    var s := Push(start, root);
    LowerDone(g, start, root);
    assert forall w: nat :: Started(g, start, w) <= Started(g, s, w);
    forall w: nat, v: nat | v < |s.states| && s.states[v] != NotSeen && Leads(g, w, v) ensures TurnTaken(g, s, w, v) {
      if v == root {
        RootTurns(g, start, root, w);
      } else {
        assert TurnTaken(g, start, w, v);
      }
    }
  }

  lemma LowerDone(g: Lists, s: Search, root: nat)
    requires Lawful(g, s, root)
    ensures forall y: nat :: y < root && y < |g| ==> s.states[y] == Done
  {
    forall y: nat | y < root && y < |g| ensures s.states[y] == Done {
      assert ReachRefl(Succ(g), y, y);
    }
  }

  lemma ExploringChild(g: Lists, start: Search, root: nat, s: Search)
    requires Invariant(g, s) && s.frames != [] && Exploring(g, start, root, s)
    requires var top := s.frames[|s.frames| - 1];
      top.next < |g[top.node]| && s.states[g[top.node][top.next]] == NotSeen
    ensures var top := s.frames[|s.frames| - 1]; Exploring(g, start, root, Push(Advance(s), g[top.node][top.next]))
  {
    var top := s.frames[|s.frames| - 1];
    var d := g[top.node][top.next];
    var t := Push(Advance(s), d);
    assert s.states[top.node] == Working;
    FrameEdge(g, s, |s.frames| - 1);
    TopReached(g, start, root, s);
    EdgeFromReach(Succ(g), root, top.node, d);
    ChildStarted(g, s);
    forall w: nat, v: nat | v < |t.states| && t.states[v] != NotSeen && Leads(g, w, v) ensures TurnTaken(g, t, w, v) {
      if v == d {
        ChildTurns(g, s, root, w);
      } else {
        assert TurnTaken(g, s, w, v);
        var k: nat :| TurnAt(g, {v}, w, k) && k < Started(g, s, w);
        assert k < Started(g, t, w);
      }
    }
  }

  lemma TopReached(g: Lists, start: Search, root: nat, s: Search)
    requires Invariant(g, s) && s.frames != [] && Exploring(g, start, root, s)
    ensures ReachRefl(Succ(g), root, s.frames[|s.frames| - 1].node)
  {
    var v := s.frames[|s.frames| - 1].node;
    assert s.states[v] == Working;
  }

  lemma EdgeFromReach(r: Rel, root: nat, u: nat, v: nat)
    requires ReachRefl(r, root, u) && Edge(r, u, v)
    ensures ReachRefl(r, root, v)
  {
    ReachThenEdge(r, root, u, v);
  }

  lemma ChildStarted(g: Lists, s: Search)
    requires Invariant(g, s) && s.frames != []
    requires var top := s.frames[|s.frames| - 1];
      top.next < |g[top.node]| && s.states[g[top.node][top.next]] == NotSeen
    ensures var top := s.frames[|s.frames| - 1];
      forall w: nat :: Started(g, s, w) <= Started(g, Push(Advance(s), g[top.node][top.next]), w)
  {
  }

  lemma ExploringAdvance(g: Lists, start: Search, root: nat, s: Search)
    requires Invariant(g, s) && s.frames != [] && Exploring(g, start, root, s)
    ensures Exploring(g, start, root, Advance(s))
  {
    var t := Advance(s);
    assert forall w: nat :: Started(g, s, w) <= Started(g, t, w);
    StartedGrows(g, s, t);
  }

  /** What an earlier turn reaches is finished before `v` is. */
  lemma EarlierFinished(g: Lists, s: Search, w: nat, i: nat, k: nat, u: nat, v: nat)
    requires Invariant(g, s) && TurnsTaken(g, s) && EarlierTurn(g, w, i, k, u, v)
    requires s.frames != [] && v == s.frames[|s.frames| - 1].node
    ensures u in s.reversed
  {
    assert s.states[v] == Working;
    assert TurnTaken(g, s, w, v);
    var m: nat :| TurnAt(g, {v}, w, m) && m < Started(g, s, w);
    TurnUnique(g, {v}, w, k, m);
    LeadsElsewhere(g, w, v);
    if s.states[w] == Working {
      assert OnStack(s, w);
      assert Settled(g, s, s.stackPos[w]);
    } else {
      assert w in s.reversed;
      var p :| 0 <= p < |s.reversed| && s.reversed[p] == w;
      assert g[w][i] in s.reversed[..p];
    }
    assert s.states[g[w][i]] == Done;
    DoneClosed(g, s, g[w][i], u);
  }

  lemma LeadsElsewhere(g: Lists, w: nat, v: nat)
    requires Leads(g, w, v)
    ensures w != v
  {
    var walk: seq<nat> :| LeadsOn(g, walk, w, v);
    assert w in walk;
  }

  lemma ExploringPop(g: Lists, start: Search, root: nat, s: Search)
    requires Invariant(g, s) && s.frames != [] && Exploring(g, start, root, s)
    requires var top := s.frames[|s.frames| - 1]; top.next == |g[top.node]|
    ensures Exploring(g, start, root, Pop(s))
  {
    var t := Pop(s);
    var d := s.frames[|s.frames| - 1].node;
    assert s.states[d] == Working;
    PopStarted(g, s);
    StartedGrows(g, s, t);
    forall w: nat, i: nat, k: nat, u: nat, v: nat | EarlierTurn(g, w, i, k, u, v) && v in t.reversed
      ensures Precedes(t.reversed, u, v)
    {
      if v in s.reversed {
        PrecedesIn(s.reversed, [d], u, v);
      } else {
        EarlierFinished(g, s, w, i, k, u, v);
        PrecedesAcross(s.reversed, [d], u, v);
      }
    }
  }

  lemma PopStarted(g: Lists, s: Search)
    requires Invariant(g, s) && s.frames != []
    requires var top := s.frames[|s.frames| - 1]; top.next == |g[top.node]|
    ensures forall w: nat :: Started(g, s, w) <= Started(g, Pop(s), w)
  {
    forall w: nat ensures Started(g, s, w) <= Started(g, Pop(s), w) {
      if w < |g| && s.states[w] == Working { assert OnStack(s, w); }
    }
  }

  /** After the search from `root`, the next root may come. */
  lemma ExploredLawful(g: Lists, start: Search, root: nat, s: Search)
    requires Lawful(g, start, root) && Invariant(g, s) && s.frames == [] && Exploring(g, start, root, s)
    ensures Lawful(g, s, root + 1)
  {
    forall v: nat | v < |g| ensures s.states[v] != Working && (s.states[v] == Done <==> ReachedBelow(Succ(g), root + 1, v)) {
      SeenIsDoneOrNot(g, s, v);
      ReachedUpTo(g, start, root, s, v);
    }
    forall x: nat, u: nat, v: nat | v in s.reversed && ReachRefl(Succ(g), x, u) && !ReachedBy(Succ(g), x, v)
      ensures Precedes(s.reversed, u, v)
    {
      RootsGrow(g, start, root, s, x, u, v);
    }
  }

  lemma SeenIsDoneOrNot(g: Lists, s: Search, v: nat)
    requires Invariant(g, s) && s.frames == [] && v < |g|
    ensures s.states[v] != Working
  {
    assert s.states[v] == Working ==> OnStack(s, v);
  }

  lemma ReachedUpTo(g: Lists, start: Search, root: nat, s: Search, v: nat)
    requires Lawful(g, start, root) && Invariant(g, s) && s.frames == [] && Exploring(g, start, root, s) && v < |g|
    ensures s.states[v] == Done <==> ReachedBelow(Succ(g), root + 1, v)
  {
    if s.states[v] == Done {
      if start.states[v] == Done {
        var y: nat :| y < root && ReachRefl(Succ(g), y, v);
        assert y < root + 1;
      } else {
        assert ReachRefl(Succ(g), root, v) && root < root + 1;
      }
    }
    if y: nat :| y < root + 1 && ReachRefl(Succ(g), y, v) {
      if y < root {
        assert start.states[v] == Done;
      } else {
        DoneClosed(g, s, root, v);
      }
    }
  }

  lemma RootsGrow(g: Lists, start: Search, root: nat, s: Search, x: nat, u: nat, v: nat)
    requires Lawful(g, start, root) && Invariant(g, s) && s.frames == [] && Exploring(g, start, root, s)
    requires v in s.reversed && ReachRefl(Succ(g), x, u) && !ReachedBy(Succ(g), x, v)
    ensures Precedes(s.reversed, u, v)
  {
    var more := s.reversed[|start.reversed|..];
    assert s.reversed == start.reversed + more;
    if v in start.reversed {
      assert Precedes(start.reversed, u, v);
      PrecedesIn(start.reversed, more, u, v);
    } else {
      assert v < |g| && s.states[v] == Done && start.states[v] != Done;
      assert ReachRefl(Succ(g), root, v);
      assert x < root;
      LowerDone(g, start, root);
      ReachInRange(g, x, u, v);
      DoneClosed(g, start, x, u);
      assert u in start.reversed;
      PrecedesAcross(start.reversed, more, u, v);
    }
  }

  lemma ReachInRange(g: Lists, x: nat, u: nat, v: nat)
    requires x < v < |g|
    ensures x < |g|
  {
  }

  /** A root that is finished already has nothing to add. */
  lemma SkipLawful(g: Lists, s: Search, root: nat)
    requires Lawful(g, s, root) && root < |g| && s.states[root] != NotSeen
    ensures Lawful(g, s, root + 1)
  {
    forall v: nat | v < |g| ensures s.states[v] == Done <==> ReachedBelow(Succ(g), root + 1, v) {
      if y: nat :| y < root + 1 && ReachRefl(Succ(g), y, v) {
        if y == root { DoneClosed(g, s, root, v); } else { assert ReachedBelow(Succ(g), root, v); }
      }
      if y: nat :| y < root && ReachRefl(Succ(g), y, v) {
        assert y < root + 1;
      }
    }
  }

  lemma FreshLawful(g: Lists)
    requires InRange(g)
    ensures Lawful(g, Fresh(|g|), 0)
  {
  }

  function Fresh(n: nat): Search {
    Search(seq(n, _ => NotSeen), seq(n, _ => NO_POSITION), [], [])
  }

  /** An edge back into the frames closes the first cycle. */
  lemma BackEdgeFirst(g: Lists, start: Search, root: nat, s: Search, target: nat)
    requires Invariant(g, s) && s.frames != [] && Exploring(g, start, root, s)
    requires var top := s.frames[|s.frames| - 1];
      top.next < |g[top.node]| && g[top.node][top.next] == target && s.states[target] == Working
    ensures s.stackPos[target] < |s.frames|
    ensures FirstCycle(g, FrameNodes(s.frames[s.stackPos[target]..]) + [target])
  {
    BackEdgeCycle(g, s, target);
    var at := s.stackPos[target];
    var nodes := FrameNodes(s.frames[at..]) + [target];
    assert OnStack(s, target);
    CycleReach(Succ(g), nodes);
    var goal := CycleNodes(Succ(g));
    assert target in goal && Hits(Succ(g), goal, target);
    forall x: nat | x < |g| && s.states[x] == Done ensures !Hits(Succ(g), goal, x) { DoneAcyclic(g, s, x); }
    StackWalk(g, s, root, goal);
    FramesOnce(g, s);
    var walk := FrameNodes(s.frames) + [target];
    assert walk[..|walk| - 1] == FrameNodes(s.frames) && nodes == walk[at..];
    assert FirstCycleOn(g, walk, at, nodes);
  }

  lemma FramesOnce(g: Lists, s: Search)
    requires Invariant(g, s)
    ensures NoDuplicates(FrameNodes(s.frames))
  {
    var once := FrameNodes(s.frames);
    forall i, j | 0 <= i < j < |once| ensures once[i] != once[j] {
      assert s.stackPos[s.frames[i].node] != s.stackPos[s.frames[j].node];
    }
  }

  // ----- the algorithm

  /** Explores everything reachable from `root` (`src/graph.rs:379-421`). */
  method Explore(g: Lists, start: Search, root: nat) returns (s: Search, cycle: Option<GraphCycle>)
    requires Lawful(g, start, root) && root < |g| && start.states[root] == NotSeen
    ensures cycle.None? ==> Lawful(g, s, root + 1)
    ensures cycle.Some? ==> IsCycle(Succ(g), cycle.value.nodes) && FirstCycle(g, cycle.value.nodes)
  {
    PushRoot(g, start, root);
    ExploringRoot(g, start, root);
    s := Push(start, root);
    while s.frames != []
      invariant Invariant(g, s) && Exploring(g, start, root, s)
      decreases Unseen(s), |s.frames|, EdgesLeft(g, s)
    {
      var top := s.frames[|s.frames| - 1];
      if top.next < |g[top.node]| {
        var next := g[top.node][top.next];
        match s.states[next] {
          case NotSeen =>
            PushChild(g, s);
            ExploringChild(g, start, root, s);
            assert next in Unseen(s);
            s := Push(Advance(s), next);
          case Working =>
            BackEdgeFirst(g, start, root, s, next);
            cycle := Some(GraphCycle(FrameNodes(s.frames[s.stackPos[next]..]) + [next]));
            FirstCycleMeans(g, cycle.value.nodes);
            return;
          case Done =>
            AdvancePastDone(g, s);
            ExploringAdvance(g, start, root, s);
            assert Unseen(Advance(s)) == Unseen(s);
            s := Advance(s);
        }
      } else {
        PopFinished(g, s);
        ExploringPop(g, start, root, s);
        assert Unseen(Pop(s)) == Unseen(s);
        s := Pop(s);
      }
    }
    ExploredLawful(g, start, root, s);
    cycle := None;
  }

  /** Searches from every root that is still unseen (`src/graph.rs:374-422`). */
  method SearchAll(g: Lists) returns (s: Search, cycle: Option<GraphCycle>)
    requires InRange(g)
    ensures cycle.None? ==> Lawful(g, s, |g|)
    ensures cycle.Some? ==> IsCycle(Succ(g), cycle.value.nodes) && FirstCycle(g, cycle.value.nodes)
  {
    s := Fresh(|g|);
    FreshLawful(g);
    for root := 0 to |g|
      invariant Lawful(g, s, root)
    {
      if s.states[root] != NotSeen {
        SkipLawful(g, s, root);
        continue;
      }
      s, cycle := Explore(g, s, root);
      if cycle.Some? {
        return;
      }
    }
    cycle := None;
  }

  /** Returns the search order, or the first cycle on the leftmost walk. */
  method Sort(g: Lists) returns (r: Result<TopologicalOrder, GraphCycle>)
    requires InRange(g)
    ensures r.Ok? <==> Acyclic(Succ(g))
    ensures r.Ok? ==> IsTopological(Succ(g), r.value) && IsSearchOrder(g, r.value.order)
    ensures r.Ok? ==> forall u: nat, v: nat :: u < v < |g| && !ReachedBy(Succ(g), u, v) ==>
      r.value.map_[v] < r.value.map_[u]
    ensures r.Err? ==> IsCycle(Succ(g), r.error.nodes) && FirstCycle(g, r.error.nodes)
    ensures r.Err? ==> StartsLow(Succ(g), r.error.nodes)
  {
    var s, cycle := SearchAll(g);
    if cycle.Some? {
      CycleReach(Succ(g), cycle.value.nodes);
      FirstCycleMeans(g, cycle.value.nodes);
      return Err(cycle.value);
    }
    LowerDone(g, s, |g|);
    CompleteLength(s.reversed, |g|);
    var order := Reversed(s.reversed);
    var map_ := IndexMap(order);
    ReversedIsTopological(g, s, order, map_);
    RankedAcyclic(Succ(g), map_);
    ReversedIsSearchOrder(g, s, order, map_);
    r := Ok(TopologicalOrder(order, map_));
    forall u: nat, v: nat | u < v < |g| && !ReachedBy(Succ(g), u, v) ensures map_[v] < map_[u] {
      LowerComesLater(g, r.value, u, v);
    }
  }

  lemma LowerComesLater(g: Lists, t: TopologicalOrder, u: nat, v: nat)
    requires IsListing(t, |g|) && IsSearchOrder(g, t.order) && u < v < |g| && !ReachedBy(Succ(g), u, v)
    ensures t.map_[v] < t.map_[u]
  {
    assert ReachRefl(Succ(g), u, u) && u in t.order && v in t.order;
    var i, j :| 0 <= i < j < |t.order| && t.order[i] == v && t.order[j] == u;
  }

  lemma ReversedIsSearchOrder(g: Lists, s: Search, order: seq<nat>, map_: seq<nat>)
    requires Lawful(g, s, |g|) && |s.reversed| == |g| && order == Reversed(s.reversed)
    requires IsTopological(Succ(g), TopologicalOrder(order, map_))
    ensures IsSearchOrder(g, order)
  {
    forall v: nat ensures v in order <==> v < |g| {
      if v < |g| { assert order[map_[v]] == v; }
    }
    forall u: nat, v: nat | Edge(Succ(g), u, v) ensures Precedes(order, u, v) {
      assert order[map_[u]] == u && order[map_[v]] == v;
    }
    forall u: nat, v: nat | Precedes(s.reversed, u, v) ensures Precedes(order, v, u) {
      ReversedPrecedes(s.reversed, u, v);
    }
  }

  lemma ReversedPrecedes(s: seq<nat>, u: nat, v: nat)
    requires Precedes(s, u, v)
    ensures Precedes(Reversed(s), v, u)
  {
    var i, j :| 0 <= i < j < |s| && s[i] == u && s[j] == v;
    assert Reversed(s)[|s| - 1 - i] == u && Reversed(s)[|s| - 1 - j] == v;
  }

  function Reversed(s: seq<nat>): (t: seq<nat>)
    ensures |t| == |s|
    ensures forall x: nat :: x in t <==> x in s
    ensures forall i :: 0 <= i < |s| ==> t[i] == s[|s| - 1 - i]
  {
    var t := seq(|s|, i requires 0 <= i < |s| => s[|s| - 1 - i]);
    assert forall i :: 0 <= i < |s| ==> s[i] == t[|s| - 1 - i];
    t
  }

  /** Inverts a listing (`src/graph.rs:426-430`, `src/compiler.rs:302-305`). */
  method IndexMap(order: seq<nat>) returns (map_: seq<nat>)
    requires NoDuplicates(order) && forall v: nat :: v in order <==> v < |order|
    ensures IsListing(TopologicalOrder(order, map_), |order|)
  {
    map_ := seq(|order|, (i: nat) => i);
    for index := 0 to |order|
      invariant |map_| == |order|
      invariant forall i :: 0 <= i < index ==> order[i] in order && map_[order[i]] == i
    {
      assert order[index] in order;
      map_ := map_[order[index] := index];
    }
    forall v | 0 <= v < |order| ensures map_[v] < |order| && order[map_[v]] == v {
      assert v in order;
    }
  }

  lemma ReversedIsTopological(g: Lists, s: Search, order: seq<nat>, map_: seq<nat>)
    requires Invariant(g, s) && |s.reversed| == |g|
    requires order == Reversed(s.reversed) && IsListing(TopologicalOrder(order, map_), |g|)
    ensures IsTopological(Succ(g), TopologicalOrder(order, map_))
  {
    forall u: nat, v: nat | Edge(Succ(g), u, v) ensures map_[u] < map_[v] {
      var k :| 0 <= k < |g[u]| && g[u][k] == v;
      var i := |g| - 1 - map_[u];
      assert s.reversed[i] == u;
      var j :| 0 <= j < i && s.reversed[..i][j] == v;
      assert order[|g| - 1 - j] == v;
    }
  }
}
