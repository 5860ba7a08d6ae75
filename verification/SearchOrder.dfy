/** Which order, and which cycle, a depth-first search finds that tries roots from the lowest up and
    edges in list order (`src/graph.rs:363-436`, `src/compiler.rs:61-151`).  Everything here is about
    the graph alone; nothing mentions how the search is carried out.
 */
module SearchOrder {
  import opened Relations
  import opened Sequences

  ghost predicate Precedes(s: seq<nat>, u: nat, v: nat) {
    exists i, j :: 0 <= i < j < |s| && s[i] == u && s[j] == v
  }

  lemma PrecedesIn(a: seq<nat>, b: seq<nat>, u: nat, v: nat)
    requires Precedes(a, u, v)
    ensures Precedes(a + b, u, v)
  {
    var i, j :| 0 <= i < j < |a| && a[i] == u && a[j] == v;
    assert (a + b)[i] == u && (a + b)[j] == v;
  }

  lemma PrecedesAcross(a: seq<nat>, b: seq<nat>, u: nat, v: nat)
    requires u in a && v in b
    ensures Precedes(a + b, u, v)
  {
    var i :| 0 <= i < |a| && a[i] == u;
    var j :| 0 <= j < |b| && b[j] == v;
    assert (a + b)[i] == u && (a + b)[|a| + j] == v;
  }

  // ----- the leftmost walk to a goal

  ghost predicate Hits(r: Rel, goal: set<nat>, x: nat) {
    exists v: nat :: v in goal && ReachRefl(r, x, v)
  }

  /** The lowest node that reaches the goal. */
  ghost predicate IsLeast(r: Rel, goal: set<nat>, c: nat) {
    Hits(r, goal, c) && forall y: nat :: y < c ==> !Hits(r, goal, y)
  }

  /** The first edge of `w`, in list order, that leads towards the goal. */
  ghost predicate TurnAt(g: Lists, goal: set<nat>, w: nat, k: nat) {
    && w < |g| && k < |g[w]| && Hits(Succ(g), goal, g[w][k])
    && forall j: nat :: j < k ==> !Hits(Succ(g), goal, g[w][j])
  }

  ghost predicate Turns(g: Lists, goal: set<nat>, w: nat, x: nat) {
    exists k: nat :: TurnAt(g, goal, w, k) && g[w][k] == x
  }

  /** Always along the first edge towards the goal. */
  ghost predicate TurnsOn(g: Lists, goal: set<nat>, walk: seq<nat>) {
    forall i, j :: 0 <= i && j == i + 1 && j < |walk| ==> Turns(g, goal, walk[i], walk[j])
  }

  /** The same, from the lowest node that reaches the goal. */
  ghost predicate IsLeftWalk(g: Lists, goal: set<nat>, walk: seq<nat>) {
    walk != [] && IsLeast(Succ(g), goal, walk[0]) && TurnsOn(g, goal, walk)
  }

  lemma HitsBack(r: Rel, goal: set<nat>, u: nat, w: nat)
    requires Edge(r, u, w) && Hits(r, goal, w)
    ensures Hits(r, goal, u)
  {
    var v: nat :| v in goal && ReachRefl(r, w, v);
    EdgeThenReach(r, u, w, v);
  }

  lemma TurnUnique(g: Lists, goal: set<nat>, w: nat, j: nat, k: nat)
    requires TurnAt(g, goal, w, j) && TurnAt(g, goal, w, k)
    ensures j == k
  {
  }

  lemma LeastUnique(r: Rel, goal: set<nat>, c: nat, d: nat)
    requires IsLeast(r, goal, c) && IsLeast(r, goal, d)
    ensures c == d
  {
  }

  /** There is only one such walk, as far as it goes. */
  lemma {:induction false} LeftWalksAgree(g: Lists, goal: set<nat>, a: seq<nat>, b: seq<nat>, i: nat)
    requires IsLeftWalk(g, goal, a) && IsLeftWalk(g, goal, b) && i < |a| && i < |b|
    ensures a[i] == b[i]
  {
    if i == 0 {
      LeastUnique(Succ(g), goal, a[0], b[0]);
    } else {
      LeftWalksAgree(g, goal, a, b, i - 1);
      assert Turns(g, goal, a[i - 1], a[i]) && Turns(g, goal, b[i - 1], b[i]);
      var j: nat :| TurnAt(g, goal, a[i - 1], j) && g[a[i - 1]][j] == a[i];
      var k: nat :| TurnAt(g, goal, b[i - 1], k) && g[b[i - 1]][k] == b[i];
      TurnUnique(g, goal, a[i - 1], j, k);
    }
  }

  /** The walk goes along edges. */
  lemma LeftWalkIsPath(g: Lists, goal: set<nat>, walk: seq<nat>)
    requires TurnsOn(g, goal, walk)
    ensures IsPath(Succ(g), walk)
  {
    forall i, j | 0 <= i && j == i + 1 && j < |walk| ensures Edge(Succ(g), walk[i], walk[j]) {
      assert Turns(g, goal, walk[i], walk[j]);
      var k: nat :| TurnAt(g, goal, walk[i], k) && g[walk[i]][k] == walk[j];
      assert walk[j] in g[walk[i]];
    }
  }

  /** Who is not there yet and can get there, turns. */
  lemma TurnExists(g: Lists, goal: set<nat>, w: nat) returns (k: nat)
    requires Hits(Succ(g), goal, w) && w !in goal
    ensures TurnAt(g, goal, w, k)
  {
    var v: nat :| v in goal && ReachRefl(Succ(g), w, v);
    var x := ReachFirst(Succ(g), w, v);
    var i :| 0 <= i < |g[w]| && g[w][i] == x;
    assert Hits(Succ(g), goal, g[w][i]);
    k := FirstTurn(g, goal, w, i);
  }

  lemma {:induction false} FirstTurn(g: Lists, goal: set<nat>, w: nat, i: nat) returns (k: nat)
    requires w < |g| && i < |g[w]| && Hits(Succ(g), goal, g[w][i])
    ensures TurnAt(g, goal, w, k)
    decreases i
  {
    if j: nat :| j < i && Hits(Succ(g), goal, g[w][j]) {
      k := FirstTurn(g, goal, w, j);
    } else {
      k := i;
    }
  }

  lemma {:induction false} LeastExists(r: Rel, goal: set<nat>, x: nat) returns (c: nat)
    requires Hits(r, goal, x)
    ensures IsLeast(r, goal, c) && c <= x
    decreases x
  {
    if y: nat :| y < x && Hits(r, goal, y) {
      c := LeastExists(r, goal, y);
    } else {
      c := x;
    }
  }

  // ----- which cycle

  ghost function CycleNodes(r: Rel): (nodes: set<nat>)
    ensures forall v: nat :: v in nodes <==> v < |r| && Reach(r, v, v)
  {
    set v: nat | v < |r| && Reach(r, v, v)
  }

  ghost predicate FirstCycleOn(g: Lists, walk: seq<nat>, start: nat, nodes: seq<nat>) {
    && IsLeftWalk(g, CycleNodes(Succ(g)), walk)
    && start + 1 < |walk| && NoDuplicates(walk[..|walk| - 1]) && walk[start] == walk[|walk| - 1]
    && nodes == walk[start..]
  }

  /** The cycle that the leftmost walk towards cycles runs into. */
  ghost predicate FirstCycle(g: Lists, nodes: seq<nat>) {
    exists walk: seq<nat>, start: nat :: FirstCycleOn(g, walk, start, nodes)
  }

  /** The same walk, begun at `base`. */
  ghost predicate CycleFrom(g: Lists, base: nat, nodes: seq<nat>) {
    exists walk: seq<nat>, start: nat :: CycleFromOn(g, base, walk, start, nodes)
  }

  ghost predicate CycleFromOn(g: Lists, base: nat, walk: seq<nat>, start: nat, nodes: seq<nat>) {
    && walk != [] && walk[0] == base && TurnsOn(g, CycleNodes(Succ(g)), walk)
    && start + 1 < |walk| && NoDuplicates(walk[..|walk| - 1]) && walk[start] == walk[|walk| - 1]
    && nodes == walk[start..]
  }

  lemma CycleFromLeast(g: Lists, base: nat, nodes: seq<nat>)
    requires CycleFrom(g, base, nodes) && forall y: nat :: y < base ==> !Hits(Succ(g), CycleNodes(Succ(g)), y)
    ensures FirstCycle(g, nodes)
  {
    var walk: seq<nat>, start: nat :| CycleFromOn(g, base, walk, start, nodes);
    var goal := CycleNodes(Succ(g));
    assert Turns(g, goal, walk[0], walk[1]);
    var k: nat :| TurnAt(g, goal, walk[0], k) && g[walk[0]][k] == walk[1];
    assert walk[1] in g[walk[0]];
    HitsBack(Succ(g), goal, walk[0], walk[1]);
    assert FirstCycleOn(g, walk, start, nodes);
  }

  lemma FirstWalkShorter(g: Lists, a: seq<nat>, i: nat, m: seq<nat>, b: seq<nat>, j: nat, n: seq<nat>)
    requires FirstCycleOn(g, a, i, m) && FirstCycleOn(g, b, j, n)
    ensures |a| >= |b|
  {
    if |a| < |b| {
      LeftWalksAgree(g, CycleNodes(Succ(g)), a, b, i);
      LeftWalksAgree(g, CycleNodes(Succ(g)), a, b, |a| - 1);
      Repeats(b, i, |a| - 1);
    }
  }

  lemma Repeats(walk: seq<nat>, i: nat, j: nat)
    requires i < j < |walk| - 1 && walk[i] == walk[j]
    ensures !NoDuplicates(walk[..|walk| - 1])
  {
    var once := walk[..|walk| - 1];
    assert once[i] == once[j];
  }

  lemma FirstCycleUnique(g: Lists, m: seq<nat>, n: seq<nat>)
    requires FirstCycle(g, m) && FirstCycle(g, n)
    ensures m == n
  {
    var a: seq<nat>, i: nat :| FirstCycleOn(g, a, i, m);
    var b: seq<nat>, j: nat :| FirstCycleOn(g, b, j, n);
    FirstWalkShorter(g, a, i, m, b, j, n);
    FirstWalkShorter(g, b, j, n, a, i, m);
    forall k: nat | k < |a| ensures a[k] == b[k] {
      LeftWalksAgree(g, CycleNodes(Succ(g)), a, b, k);
    }
    var once := a[..|a| - 1];
    assert a == b && once[i] == once[j];
  }

  /** It is a cycle; all of it is reached from the lowest node that reaches any cycle; and it is told
      from that node on, if that node is on it. */
  ghost predicate StartsLow(r: Rel, nodes: seq<nat>) {
    exists c: nat :: StartsLowAt(r, nodes, c)
  }

  ghost predicate StartsLowAt(r: Rel, nodes: seq<nat>, c: nat) {
    && nodes != [] && IsLeast(r, CycleNodes(r), c)
    && (forall n: nat :: n in nodes ==> ReachRefl(r, c, n))
    && (c in nodes ==> nodes[0] == c)
  }

  lemma FirstCycleMeans(g: Lists, nodes: seq<nat>)
    requires FirstCycle(g, nodes)
    ensures IsCycle(Succ(g), nodes) && StartsLow(Succ(g), nodes)
  {
    var walk: seq<nat>, start: nat :| FirstCycleOn(g, walk, start, nodes);
    LeftWalkIsPath(g, CycleNodes(Succ(g)), walk);
    var once := walk[..|walk| - 1];
    forall i, j | 0 <= i && j == i + 1 && j < |nodes| ensures Edge(Succ(g), nodes[i], nodes[j]) {
      assert nodes[i] == walk[start + i] && nodes[j] == walk[start + j];
    }
    forall i, j | 0 <= i < j < |nodes| - 1 ensures nodes[i] != nodes[j] {
      assert nodes[i] == once[start + i] && nodes[j] == once[start + j];
    }
    var c := walk[0];
    forall n: nat | n in nodes ensures ReachRefl(Succ(g), c, n) && (n == c ==> nodes[0] == c) {
      var i :| 0 <= i < |nodes| && nodes[i] == n;
      assert walk[start + i] == n;
      if start + i > 0 { PathReach(Succ(g), walk, 0, start + i); }
      if n == c {
        LowestFirst(walk, start, start + i);
      }
    }
    assert StartsLowAt(Succ(g), nodes, c);
  }

  lemma LowestFirst(walk: seq<nat>, start: nat, i: nat)
    requires start + 1 < |walk| && start <= i < |walk| && walk[start] == walk[|walk| - 1]
    requires NoDuplicates(walk[..|walk| - 1]) && walk[i] == walk[0]
    ensures walk[start] == walk[0]
  {
    var once := walk[..|walk| - 1];
    if i < |walk| - 1 {
      assert once[i] == once[0];
    }
  }

  /** The same for relations with the same walks. */
  lemma StartsLowAlike(r: Rel, q: Rel, nodes: seq<nat>)
    requires StartsLow(r, nodes) && |r| == |q| && forall x: nat, y: nat :: Reach(r, x, y) <==> Reach(q, x, y)
    ensures StartsLow(q, nodes)
  {
    var c: nat :| StartsLowAt(r, nodes, c);
    assert CycleNodes(r) == CycleNodes(q);
    forall x: nat ensures Hits(r, CycleNodes(r), x) <==> Hits(q, CycleNodes(q), x) {
      assert forall v: nat :: ReachRefl(r, x, v) <==> ReachRefl(q, x, v);
    }
    assert StartsLowAt(q, nodes, c);
  }

  // ----- which order

  /** Some node up to `x` reaches `v`. */
  ghost predicate ReachedBy(r: Rel, x: nat, v: nat) {
    exists y: nat :: y <= x && ReachRefl(r, y, v)
  }

  /** What some node reaches comes after everything that no node up to it reaches. */
  ghost predicate RootLaw(r: Rel, order: seq<nat>) {
    forall x: nat, u: nat, v: nat :: u in order && v in order && ReachRefl(r, x, u) && !ReachedBy(r, x, v) ==>
      Precedes(order, v, u)
  }

  /** The leftmost walk to `v` leaves from `w`. */
  ghost predicate Leads(g: Lists, w: nat, v: nat) {
    exists walk: seq<nat> :: LeadsOn(g, walk, w, v)
  }

  ghost predicate LeadsOn(g: Lists, walk: seq<nat>, w: nat, v: nat) {
    IsLeftWalk(g, {v}, walk) && v !in walk && walk[|walk| - 1] == w
  }

  ghost predicate EarlierTurn(g: Lists, w: nat, i: nat, k: nat, u: nat, v: nat) {
    Leads(g, w, v) && TurnAt(g, {v}, w, k) && i < k && ReachRefl(Succ(g), g[w][i], u)
  }

  /** Where the leftmost walk to `v` leaves from `w`, what an earlier edge of `w` reaches comes later. */
  ghost predicate TurnLaw(g: Lists, order: seq<nat>) {
    forall w: nat, i: nat, k: nat, u: nat, v: nat ::
      EarlierTurn(g, w, i, k, u, v) && v in order ==> Precedes(order, v, u)
  }

  ghost predicate IsSearchOrder(g: Lists, order: seq<nat>) {
    && NoDuplicates(order) && (forall v: nat :: v in order <==> v < |g|)
    && (forall u: nat, v: nat :: Edge(Succ(g), u, v) ==> Precedes(order, u, v))
    && RootLaw(Succ(g), order) && TurnLaw(g, order)
  }

  lemma PrecedesTrans(s: seq<nat>, u: nat, v: nat, w: nat)
    requires NoDuplicates(s) && Precedes(s, u, v) && Precedes(s, v, w)
    ensures Precedes(s, u, w)
  {
    var i, j :| 0 <= i < j < |s| && s[i] == u && s[j] == v;
    var k, l :| 0 <= k < l < |s| && s[k] == v && s[l] == w;
    assert j == k;
  }

  lemma PrecedesOnce(s: seq<nat>, u: nat, v: nat)
    requires NoDuplicates(s) && Precedes(s, u, v)
    ensures !Precedes(s, v, u) && u != v
  {
    var i, j :| 0 <= i < j < |s| && s[i] == u && s[j] == v;
  }

  lemma {:induction false} StepsPrecede(r: Rel, order: seq<nat>, n: nat, u: nat, v: nat)
    requires NoDuplicates(order) && forall x: nat, y: nat :: Edge(r, x, y) ==> Precedes(order, x, y)
    requires n > 0 && Steps(r, n, u, v)
    ensures Precedes(order, u, v)
    decreases n
  {
    var w: nat :| Edge(r, u, w) && Steps(r, n - 1, w, v);
    if n > 1 {
      StepsPrecede(r, order, n - 1, w, v);
      PrecedesTrans(order, u, w, v);
    }
  }

  lemma ReachPrecedes(g: Lists, order: seq<nat>, u: nat, v: nat)
    requires IsSearchOrder(g, order) && Reach(Succ(g), u, v)
    ensures Precedes(order, u, v)
  {
    var n: nat :| n > 0 && Steps(Succ(g), n, u, v);
    StepsPrecede(Succ(g), order, n, u, v);
  }

  /** Only acyclic graphs have a search order. */
  lemma SearchOrderAcyclic(g: Lists, order: seq<nat>)
    requires IsSearchOrder(g, order)
    ensures Acyclic(Succ(g))
  {
    forall v: nat ensures !Reach(Succ(g), v, v) {
      if Reach(Succ(g), v, v) {
        ReachPrecedes(g, order, v, v);
        PrecedesOnce(order, v, v);
      }
    }
  }

  /** The three laws agree on `u` before `v` in every order, or on `v` before `u` in every order. */
  ghost predicate Forced(g: Lists, u: nat, v: nat) {
    forall order: seq<nat> :: IsSearchOrder(g, order) ==> Precedes(order, u, v)
  }

  lemma RootForces(g: Lists, x: nat, u: nat, v: nat)
    requires u < |g| && v < |g| && ReachRefl(Succ(g), x, u) && !ReachedBy(Succ(g), x, v)
    ensures Forced(g, v, u)
  {
  }

  lemma TurnForces(g: Lists, w: nat, i: nat, k: nat, u: nat, v: nat)
    requires v < |g| && EarlierTurn(g, w, i, k, u, v)
    ensures Forced(g, v, u)
  {
  }

  lemma ReachForces(g: Lists, u: nat, v: nat)
    requires Reach(Succ(g), u, v)
    ensures Forced(g, u, v)
  {
    forall order: seq<nat> | IsSearchOrder(g, order) ensures Precedes(order, u, v) {
      ReachPrecedes(g, order, u, v);
    }
  }

  lemma {:induction false} DecidedFrom(g: Lists, some: seq<nat>, walk: seq<nat>, u: nat, v: nat, at: nat)
    requires IsSearchOrder(g, some) && u < |g| && v < |g| && u != v
    requires IsLeftWalk(g, {u}, walk) && IsLeftWalk(g, {v}, walk)
    requires u !in walk[..|walk| - 1] && v !in walk[..|walk| - 1]
    requires Hits(Succ(g), {u}, walk[|walk| - 1]) && Hits(Succ(g), {v}, walk[|walk| - 1])
    requires at < |some| && some[at] == walk[|walk| - 1]
    ensures Forced(g, u, v) || Forced(g, v, u)
    decreases |some| - at
  {
    var w := walk[|walk| - 1];
    assert walk == walk[..|walk| - 1] + [w];
    if w == u {
      ReachForces(g, u, v);
    } else if w == v {
      ReachForces(g, v, u);
    } else {
      var i := TurnExists(g, {u}, w);
      var k := TurnExists(g, {v}, w);
      assert LeadsOn(g, walk, w, u) && LeadsOn(g, walk, w, v);
      if i < k {
        assert EarlierTurn(g, w, i, k, u, v);
        TurnForces(g, w, i, k, u, v);
      } else if k < i {
        assert EarlierTurn(g, w, k, i, v, u);
        TurnForces(g, w, k, i, v, u);
      } else {
        var x := g[w][k];
        LeftWalkOn(g, {u}, walk, k);
        LeftWalkOn(g, {v}, walk, k);
        assert x in g[w] && (walk + [x])[..|walk|] == walk;
        assert Precedes(some, w, x);
        var p, q :| 0 <= p < q < |some| && some[p] == w && some[q] == x;
        DecidedFrom(g, some, walk + [x], u, v, q);
      }
    }
  }

  lemma LeftWalkOn(g: Lists, goal: set<nat>, walk: seq<nat>, k: nat)
    requires IsLeftWalk(g, goal, walk) && TurnAt(g, goal, walk[|walk| - 1], k)
    ensures IsLeftWalk(g, goal, walk + [g[walk[|walk| - 1]][k]])
  {
    var next := walk + [g[walk[|walk| - 1]][k]];
    assert Turns(g, goal, walk[|walk| - 1], g[walk[|walk| - 1]][k]);
    forall i, j | 0 <= i && j == i + 1 && j < |next| ensures Turns(g, goal, next[i], next[j]) {
      if j < |walk| { assert Turns(g, goal, walk[i], walk[j]); }
    }
  }

  lemma Decided(g: Lists, some: seq<nat>, u: nat, v: nat)
    requires IsSearchOrder(g, some) && u < |g| && v < |g| && u != v
    ensures Forced(g, u, v) || Forced(g, v, u)
  {
    var r := Succ(g);
    assert Hits(r, {u}, u) && Hits(r, {v}, v);
    var c := LeastExists(r, {u}, u);
    var d := LeastExists(r, {v}, v);
    if c < d {
      LowerRoot(g, c, u, d, v);
    } else if d < c {
      LowerRoot(g, d, v, c, u);
    } else {
      var at :| 0 <= at < |some| && some[at] == c;
      DecidedFrom(g, some, [c], u, v, at);
    }
  }

  lemma LowerRoot(g: Lists, c: nat, u: nat, d: nat, v: nat)
    requires IsLeast(Succ(g), {u}, c) && IsLeast(Succ(g), {v}, d) && c < d && u < |g| && v < |g|
    ensures Forced(g, v, u)
  {
    if ReachedBy(Succ(g), c, v) {
      var y: nat :| y <= c && ReachRefl(Succ(g), y, v);
      assert Hits(Succ(g), {v}, y);
    }
    RootForces(g, c, u, v);
  }

  /** So a graph has at most one search order. */
  lemma SearchOrderUnique(g: Lists, a: seq<nat>, b: seq<nat>)
    requires IsSearchOrder(g, a) && IsSearchOrder(g, b)
    ensures a == b
  {
    forall u: nat, v: nat | Precedes(a, u, v) ensures Precedes(b, u, v) {
      PrecedesOnce(a, u, v);
      assert u in a && v in a;
      Decided(g, a, u, v);
    }
    SameOrder(a, b);
  }

  /** Two listings of the same elements that agree on what comes first are the same. */
  lemma {:induction false} SameOrder(a: seq<nat>, b: seq<nat>)
    requires NoDuplicates(a) && NoDuplicates(b) && forall v: nat :: v in a <==> v in b
    requires forall u: nat, v: nat :: Precedes(a, u, v) ==> Precedes(b, u, v)
    ensures a == b
    decreases |a|
  {
    ElementCount(a);
    ElementCount(b);
    assert Elements(a) == Elements(b);
    if a != [] {
      var front, last := a[..|a| - 1], a[|a| - 1];
      var front', last' := b[..|b| - 1], b[|b| - 1];
      assert a == front + [last] && b == front' + [last'];
      assert last' in a;
      SameLast(a, b);
      forall u: nat, v: nat | Precedes(front, u, v) ensures Precedes(front', u, v) {
        FrontPrecedes(a, b, u, v);
      }
      forall v: nat ensures v in front <==> v in front' {
        assert (v in a <==> v in front || v == last) && (v in b <==> v in front' || v == last');
      }
      SameOrder(front, front');
    }
  }

  lemma SameLast(a: seq<nat>, b: seq<nat>)
    requires NoDuplicates(a) && NoDuplicates(b) && |a| == |b| > 0 && b[|b| - 1] in a
    requires forall u: nat, v: nat :: Precedes(a, u, v) ==> Precedes(b, u, v)
    ensures a[|a| - 1] == b[|b| - 1]
  {
    var i :| 0 <= i < |a| && a[i] == b[|b| - 1];
    if i < |a| - 1 {
      assert Precedes(a, a[i], a[|a| - 1]);
      LastPrecedesNone(b, a[|a| - 1]);
    }
  }

  lemma LastPrecedesNone(s: seq<nat>, x: nat)
    requires NoDuplicates(s) && s != []
    ensures !Precedes(s, s[|s| - 1], x)
  {
  }

  lemma FrontPrecedes(a: seq<nat>, b: seq<nat>, u: nat, v: nat)
    requires NoDuplicates(a) && NoDuplicates(b) && |a| == |b| > 0 && a[|a| - 1] == b[|b| - 1]
    requires forall x: nat, y: nat :: Precedes(a, x, y) ==> Precedes(b, x, y)
    requires Precedes(a[..|a| - 1], u, v)
    ensures Precedes(b[..|b| - 1], u, v)
  {
    var front, front' := a[..|a| - 1], b[..|b| - 1];
    var i, j :| 0 <= i < j < |front| && front[i] == u && front[j] == v;
    assert a[i] == u && a[j] == v;
    assert Precedes(a, u, v);
    var k, l :| 0 <= k < l < |b| && b[k] == u && b[l] == v;
    assert l < |b| - 1;
    assert front'[k] == u && front'[l] == v;
  }
}
