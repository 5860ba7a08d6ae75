/** Finite relations over node numbers, and what can be reached through them.

    A relation is a sequence of successor sets, the shape in which the compiler keeps its edge
    tables (`src/compiler.rs:182`, `src/compiler.rs:217`).  Graphs given by adjacency lists are
    read as relations through `Succ`.
 */
module Relations {

  type Rel = seq<set<nat>>

  /** Adjacency lists: `g[u]` lists the successors of `u`, possibly with repeats. */
  type Lists = seq<seq<nat>>

  predicate Edge(r: Rel, u: nat, v: nat) {
    u < |r| && v in r[u]
  }

  /** `v` is reached from `u` by following exactly `n` edges. */
  ghost predicate Steps(r: Rel, n: nat, u: nat, v: nat) {
    if n == 0 then u == v else exists w: nat :: Edge(r, u, w) && Steps(r, n - 1, w, v)
  }

  /** Transitive closure: at least one edge. */
  ghost predicate Reach(r: Rel, u: nat, v: nat) {
    exists n: nat :: n > 0 && Steps(r, n, u, v)
  }

  /** Reflexive and transitive closure. */
  ghost predicate ReachRefl(r: Rel, u: nat, v: nat) {
    u == v || Reach(r, u, v)
  }

  ghost predicate Acyclic(r: Rel) {
    forall v: nat :: !Reach(r, v, v)
  }

  ghost predicate InRange(g: Lists) {
    forall u, k :: 0 <= u < |g| && 0 <= k < |g[u]| ==> g[u][k] < |g|
  }

  ghost predicate RelInRange(r: Rel) {
    forall u: nat, v: nat :: Edge(r, u, v) ==> v < |r|
  }

  /** The relation that a table of adjacency lists stands for. */
  function Succ(g: Lists): (r: Rel)
    ensures |r| == |g|
    ensures forall u: nat, v: nat :: Edge(r, u, v) <==> u < |g| && v in g[u]
  {
    seq(|g|, u requires 0 <= u < |g| => set v | v in g[u])
  }

  ghost predicate NoDuplicates<T>(s: seq<T>) {
    forall i, j :: 0 <= i < j < |s| ==> s[i] != s[j]
  }

  /** A walk along edges of `r`. */
  ghost predicate IsPath(r: Rel, p: seq<nat>) {
    forall i, j :: 0 <= i && j == i + 1 && j < |p| ==> Edge(r, p[i], p[j])
  }

  /** A cycle as the source reports it: the first and last nodes coincide, nothing else repeats
      (`src/graph.rs:336-339`). */
  ghost predicate IsCycle(r: Rel, p: seq<nat>) {
    && |p| >= 2
    && p[0] == p[|p| - 1]
    && IsPath(r, p)
    && NoDuplicates(p[..|p| - 1])
  }

  // ----- closure laws

  lemma EdgeReach(r: Rel, u: nat, v: nat)
    requires Edge(r, u, v)
    ensures Reach(r, u, v)
  {
    assert Steps(r, 0, v, v);
    assert Steps(r, 1, u, v);
  }

  lemma {:induction false} StepsAppend(r: Rel, m: nat, n: nat, u: nat, v: nat, w: nat)
    requires Steps(r, m, u, v) && Steps(r, n, v, w)
    ensures Steps(r, m + n, u, w)
    decreases m
  {
    if m > 0 {
      var x: nat :| Edge(r, u, x) && Steps(r, m - 1, x, v);
      StepsAppend(r, m - 1, n, x, v, w);
      assert m + n - 1 == (m - 1) + n;
    }
  }

  lemma ReachTrans(r: Rel, u: nat, v: nat, w: nat)
    requires Reach(r, u, v) && Reach(r, v, w)
    ensures Reach(r, u, w)
  {
    var m: nat :| m > 0 && Steps(r, m, u, v);
    var n: nat :| n > 0 && Steps(r, n, v, w);
    StepsAppend(r, m, n, u, v, w);
  }

  lemma ReachReflTrans(r: Rel, u: nat, v: nat, w: nat)
    requires ReachRefl(r, u, v) && ReachRefl(r, v, w)
    ensures ReachRefl(r, u, w)
    ensures Reach(r, u, v) || Reach(r, v, w) ==> Reach(r, u, w)
  {
    if u != v && v != w {
      ReachTrans(r, u, v, w);
    } else if Reach(r, u, v) && Reach(r, v, w) {
      ReachTrans(r, u, v, w);
    }
  }

  /** An edge followed by any walk is a walk of at least one edge. */
  lemma EdgeThenReach(r: Rel, u: nat, v: nat, w: nat)
    requires Edge(r, u, v) && ReachRefl(r, v, w)
    ensures Reach(r, u, w)
  {
    EdgeReach(r, u, v);
    ReachReflTrans(r, u, v, w);
  }

  lemma ReachThenEdge(r: Rel, u: nat, v: nat, w: nat)
    requires ReachRefl(r, u, v) && Edge(r, v, w)
    ensures Reach(r, u, w)
  {
    EdgeReach(r, v, w);
    ReachReflTrans(r, u, v, w);
  }

  /** Every walk of at least one edge has a first edge. */
  lemma ReachFirst(r: Rel, u: nat, v: nat) returns (w: nat)
    requires Reach(r, u, v)
    ensures Edge(r, u, w) && ReachRefl(r, w, v)
  {
    var n: nat :| n > 0 && Steps(r, n, u, v);
    w :| Edge(r, u, w) && Steps(r, n - 1, w, v);
    if n > 1 {
      assert Reach(r, w, v);
    }
  }

  /** A set closed under the edges is never left. */
  lemma {:induction false} StepsClosed(r: Rel, s: set<nat>, n: nat, u: nat, v: nat)
    requires forall x: nat, y: nat :: Edge(r, x, y) && x in s ==> y in s
    requires u in s && Steps(r, n, u, v)
    ensures v in s
    decreases n
  {
    if n > 0 {
      var w: nat :| Edge(r, u, w) && Steps(r, n - 1, w, v);
      StepsClosed(r, s, n - 1, w, v);
    }
  }

  lemma ReachClosed(r: Rel, s: set<nat>, u: nat, v: nat)
    requires forall x: nat, y: nat :: Edge(r, x, y) && x in s ==> y in s
    requires u in s && ReachRefl(r, u, v)
    ensures v in s
  {
    if u != v {
      var n: nat :| n > 0 && Steps(r, n, u, v);
      StepsClosed(r, s, n, u, v);
    }
  }

  /** If every edge of `r` is matched by a walk of `q`, up to the renaming `f`, so is every walk. */
  lemma {:induction false} StepsSimulated(r: Rel, q: Rel, f: nat -> nat, n: nat, u: nat, v: nat)
    requires forall x: nat, y: nat :: Edge(r, x, y) ==> Reach(q, f(x), f(y))
    requires n > 0 && Steps(r, n, u, v)
    ensures Reach(q, f(u), f(v))
    decreases n
  {
    var w: nat :| Edge(r, u, w) && Steps(r, n - 1, w, v);
    if n > 1 {
      StepsSimulated(r, q, f, n - 1, w, v);
      ReachTrans(q, f(u), f(w), f(v));
    }
  }

  lemma ReachSimulated(r: Rel, q: Rel, f: nat -> nat, u: nat, v: nat)
    requires forall x: nat, y: nat :: Edge(r, x, y) ==> Reach(q, f(x), f(y))
    requires Reach(r, u, v)
    ensures Reach(q, f(u), f(v))
  {
    var n: nat :| n > 0 && Steps(r, n, u, v);
    StepsSimulated(r, q, f, n, u, v);
  }

  /** The same without renaming. */
  lemma ReachIncluded(r: Rel, q: Rel, u: nat, v: nat)
    requires forall x: nat, y: nat :: Edge(r, x, y) ==> Reach(q, x, y)
    requires Reach(r, u, v)
    ensures Reach(q, u, v)
  {
    ReachSimulated(r, q, (x: nat) => x, u, v);
  }

  /** Adding edges keeps every walk. */
  lemma ReachMonotone(r: Rel, q: Rel, u: nat, v: nat)
    requires forall x: nat, y: nat :: Edge(r, x, y) ==> Edge(q, x, y)
    requires ReachRefl(r, u, v)
    ensures ReachRefl(q, u, v)
    ensures Reach(r, u, v) ==> Reach(q, u, v)
  {
    if Reach(r, u, v) {
      forall x: nat, y: nat | Edge(r, x, y) ensures Reach(q, x, y) { EdgeReach(q, x, y); }
      ReachIncluded(r, q, u, v);
    }
  }

  /** The nodes on a path are reached in order. */
  lemma {:induction false} PathReach(r: Rel, p: seq<nat>, i: nat, j: nat)
    requires IsPath(r, p) && i < j < |p|
    ensures Reach(r, p[i], p[j])
    decreases j - i
  {
    assert Edge(r, p[i], p[i + 1]);
    if i + 1 < j {
      PathReach(r, p, i + 1, j);
      EdgeThenReach(r, p[i], p[i + 1], p[j]);
    } else {
      EdgeReach(r, p[i], p[j]);
    }
  }

  lemma CycleReach(r: Rel, p: seq<nat>)
    requires IsCycle(r, p)
    ensures Reach(r, p[0], p[0])
  {
    PathReach(r, p, 0, |p| - 1);
  }

  /** Edges that never go down in `pos` (and stay level only on self-edges) give walks of the same kind. */
  lemma {:induction false} StepsForward(r: Rel, pos: seq<nat>, n: nat, u: nat, v: nat)
    requires forall x: nat, y: nat :: Edge(r, x, y) ==> x < |pos| && y < |pos| && (x == y || pos[x] < pos[y])
    requires n > 0 && Steps(r, n, u, v)
    ensures u < |pos| && v < |pos| && (u == v || pos[u] < pos[v])
    decreases n
  {
    var w: nat :| Edge(r, u, w) && Steps(r, n - 1, w, v);
    if n > 1 {
      StepsForward(r, pos, n - 1, w, v);
    }
  }

  lemma ReachForward(r: Rel, pos: seq<nat>, u: nat, v: nat)
    requires forall x: nat, y: nat :: Edge(r, x, y) ==> x < |pos| && y < |pos| && (x == y || pos[x] < pos[y])
    requires Reach(r, u, v)
    ensures u < |pos| && v < |pos| && (u == v || pos[u] < pos[v])
  {
    var n: nat :| n > 0 && Steps(r, n, u, v);
    StepsForward(r, pos, n, u, v);
  }

  /** A relation whose edges all go strictly up in some numbering has no cycle. */
  lemma {:induction false} StepsStrict(r: Rel, pos: seq<nat>, n: nat, u: nat, v: nat)
    requires forall x: nat, y: nat :: Edge(r, x, y) ==> x < |pos| && y < |pos| && pos[x] < pos[y]
    requires n > 0 && Steps(r, n, u, v)
    ensures u < |pos| && v < |pos| && pos[u] < pos[v]
    decreases n
  {
    var w: nat :| Edge(r, u, w) && Steps(r, n - 1, w, v);
    if n > 1 {
      StepsStrict(r, pos, n - 1, w, v);
    }
  }

  lemma RankedAcyclic(r: Rel, pos: seq<nat>)
    requires forall x: nat, y: nat :: Edge(r, x, y) ==> x < |pos| && y < |pos| && pos[x] < pos[y]
    ensures Acyclic(r)
  {
    forall v: nat ensures !Reach(r, v, v) {
      if Reach(r, v, v) {
        var n: nat :| n > 0 && Steps(r, n, v, v);
        StepsStrict(r, pos, n, v, v);
      }
    }
  }

  /** Self-edges can be left out of a walk between different nodes. */
  lemma {:induction false} StepsStripped(r: Rel, q: Rel, f: nat -> nat, n: nat, u: nat, v: nat)
    requires forall x: nat, y: nat :: Edge(r, x, y) && x != y ==> Reach(q, f(x), f(y))
    requires Steps(r, n, u, v) && u != v
    ensures Reach(q, f(u), f(v))
    decreases n
  {
    var w: nat :| Edge(r, u, w) && Steps(r, n - 1, w, v);
    if w == u {
      StepsStripped(r, q, f, n - 1, u, v);
    } else if w != v {
      StepsStripped(r, q, f, n - 1, w, v);
      ReachTrans(q, f(u), f(w), f(v));
    }
  }

  /** Two relations whose edges are walks of each other have the same cycles. */
  lemma AcyclicAlike(r: Rel, q: Rel)
    requires forall x: nat, y: nat :: Edge(r, x, y) ==> Reach(q, x, y)
    requires forall x: nat, y: nat :: Edge(q, x, y) ==> Reach(r, x, y)
    ensures Acyclic(r) <==> Acyclic(q)
  {
    forall v: nat ensures Reach(r, v, v) <==> Reach(q, v, v) {
      if Reach(r, v, v) { ReachIncluded(r, q, v, v); }
      if Reach(q, v, v) { ReachIncluded(q, r, v, v); }
    }
  }
}
