/** Runs of the scheduler, seen from outside: which atoms were handed out and which were marked
    done, in order.  This is the specification the supervisor is proved against.
 */
module Runs {
  import opened Relations
  import opened Sequences
  import opened Model
  import opened Meaning
  import opened VecGraphs

  datatype Event = Took(id: nat) | Finished(id: nat)

  ghost function Taken(run: seq<Event>): (ids: set<nat>)
    ensures forall id: nat :: id in ids <==> Took(id) in run
  {
    set k | 0 <= k < |run| && run[k].Took? :: run[k].id
  }

  ghost function Done(run: seq<Event>): (ids: set<nat>)
    ensures forall id: nat :: id in ids <==> Finished(id) in run
  {
    set k | 0 <= k < |run| && run[k].Finished? :: run[k].id
  }

  /** The atoms that must be done before `id`: its `before_graph` neighbours. */
  ghost function Waits(setup: CompiledSetup, id: nat, done: set<nat>): (ids: set<nat>)
    requires WellPacked(setup) && id < |setup.atoms|
    ensures forall u: nat :: u in ids <==> u in FullEdges(setup.beforeGraph, id) && u !in done
  {
    set u | u in FullEdges(setup.beforeGraph, id) && u !in done
  }

  /** An atom may be taken once, when nothing it waits for is undone; it may be finished once,
      after it was taken. */
  ghost predicate Enabled(setup: CompiledSetup, run: seq<Event>, e: Event)
    requires WellPacked(setup)
  {
    && e.id < |setup.atoms|
    && match e
       case Took(id) => id !in Taken(run) && Waits(setup, id, Done(run)) == {}
       case Finished(id) => id in Taken(run) && id !in Done(run)
  }

  ghost predicate IsRun(setup: CompiledSetup, run: seq<Event>)
    requires WellPacked(setup)
  {
    forall k {:trigger Enabled(setup, run[..k], run[k])} :: 0 <= k < |run| ==> Enabled(setup, run[..k], run[k])
  }

  /** The two graphs of a setup agree, as `compile` guarantees. */
  ghost predicate Consistent(setup: CompiledSetup) {
    && WellPacked(setup)
    && IsTranspose(Unpack(setup.afterGraph), Unpack(setup.beforeGraph))
  }

  ghost predicate Complete(setup: CompiledSetup, run: seq<Event>) {
    forall id: nat :: id < |setup.atoms| ==> id in Done(run)
  }

  lemma Extend(setup: CompiledSetup, run: seq<Event>, e: Event)
    requires WellPacked(setup) && IsRun(setup, run) && Enabled(setup, run, e)
    ensures IsRun(setup, run + [e])
    ensures Taken(run + [e]) == if e.Took? then Taken(run) + {e.id} else Taken(run)
    ensures Done(run + [e]) == if e.Finished? then Done(run) + {e.id} else Done(run)
  {
    var longer := run + [e];
    forall k | 0 <= k < |longer| ensures Enabled(setup, longer[..k], longer[k]) {
      assert longer[..k] == if k < |run| then run[..k] else run;
    }
    ExtendSets(run, e);
  }

  lemma ExtendSets(run: seq<Event>, e: Event)
    ensures Taken(run + [e]) == if e.Took? then Taken(run) + {e.id} else Taken(run)
    ensures Done(run + [e]) == if e.Finished? then Done(run) + {e.id} else Done(run)
  {
    forall x: Event ensures x in run + [e] <==> x in run || x == e {}
  }

  /** Nothing happens twice. */
  lemma OnlyOnce(setup: CompiledSetup, run: seq<Event>, i: nat, j: nat)
    requires WellPacked(setup) && IsRun(setup, run) && i < j < |run|
    ensures run[i] != run[j]
  {
    assert run[i] in run[..j];
    assert Enabled(setup, run[..j], run[j]);
  }

  /** What was finished had been taken. */
  lemma TakenBefore(setup: CompiledSetup, run: seq<Event>, j: nat) returns (i: nat)
    requires WellPacked(setup) && IsRun(setup, run) && j < |run| && run[j].Finished?
    ensures i < j && run[i] == Took(run[j].id)
  {
    assert Enabled(setup, run[..j], run[j]);
    i :| 0 <= i < j && run[..j][i] == Took(run[j].id);
  }

  /** A direct neighbour is done before an atom is taken. */
  lemma NeighbourDone(setup: CompiledSetup, run: seq<Event>, j: nat, x: nat) returns (i: nat)
    requires Consistent(setup) && IsRun(setup, run) && j < |run| && run[j].Took?
    requires Edge(After(setup), x, run[j].id)
    ensures i < j && run[i] == Finished(x)
  {
    var y := run[j].id;
    assert Enabled(setup, run[..j], run[j]);
    assert x in FullEdges(setup.beforeGraph, y) by {
      assert Edge(Succ(Unpack(setup.beforeGraph)), y, x);
    }
    assert x !in Waits(setup, y, Done(run[..j]));
    i :| 0 <= i < j && run[..j][i] == Finished(x);
  }

  /** An atom is handed out only after everything that reaches it has been marked done. */
  lemma {:induction false} Safety(setup: CompiledSetup, run: seq<Event>, n: nat, x: nat, j: nat) returns (i: nat)
    requires Consistent(setup) && IsRun(setup, run) && j < |run| && run[j].Took?
    requires n > 0 && Steps(After(setup), n, x, run[j].id)
    ensures i < j && run[i] == Finished(x)
    decreases n
  {
    var w: nat :| Edge(After(setup), x, w) && Steps(After(setup), n - 1, w, run[j].id);
    if n == 1 {
      i := NeighbourDone(setup, run, j, x);
    } else {
      var k := Safety(setup, run, n - 1, w, j);
      var m := TakenBefore(setup, run, k);
      i := NeighbourDone(setup, run, m, x);
    }
  }

  /** An atom that leads to itself is never handed out. */
  lemma SelfEdgeStuck(setup: CompiledSetup, run: seq<Event>, x: nat)
    requires Consistent(setup) && IsRun(setup, run) && Reach(After(setup), x, x)
    ensures x !in Taken(run) && x !in Done(run)
  {
    forall j | 0 <= j < |run| ensures run[j] != Took(x) {
      SelfEdgeNotTaken(setup, run, x, j);
    }
    RunLength(setup, run);
  }

  lemma {:induction false} SelfEdgeNotTaken(setup: CompiledSetup, run: seq<Event>, x: nat, j: nat)
    requires Consistent(setup) && IsRun(setup, run) && Reach(After(setup), x, x) && j < |run|
    ensures run[j] != Took(x)
    decreases j
  {
    if run[j] == Took(x) {
      var n: nat :| n > 0 && Steps(After(setup), n, x, x);
      var i := Safety(setup, run, n, x, j);
      var k := TakenBefore(setup, run, i);
      SelfEdgeNotTaken(setup, run, x, k);
    }
  }

  /** Edges go strictly forward: the order has no self-edge. */
  ghost predicate StrictlyForward(setup: CompiledSetup)
    requires WellPacked(setup)
  {
    forall i: nat, j: nat :: Edge(After(setup), i, j) ==> i < j
  }

  /** While an atom is undone, some atom can be taken or finished. */
  lemma Progress(setup: CompiledSetup, run: seq<Event>, id: nat) returns (e: Event)
    requires Consistent(setup) && StrictlyForward(setup) && IsRun(setup, run)
    requires id < |setup.atoms| && id !in Done(run)
    ensures Enabled(setup, run, e)
    decreases id
  {
    if id in Taken(run) {
      return Finished(id);
    }
    if Waits(setup, id, Done(run)) == {} {
      return Took(id);
    }
    var u: nat :| u in Waits(setup, id, Done(run));
    assert Edge(After(setup), u, id) by {
      assert Edge(Succ(Unpack(setup.beforeGraph)), id, u);
    }
    e := Progress(setup, run, u);
  }

  lemma RunPrefix(setup: CompiledSetup, run: seq<Event>)
    requires WellPacked(setup) && IsRun(setup, run) && run != []
    ensures IsRun(setup, run[..|run| - 1]) && Enabled(setup, run[..|run| - 1], run[|run| - 1])
  {
    var front := run[..|run| - 1];
    forall k | 0 <= k < |front| ensures Enabled(setup, front[..k], front[k]) {
      assert front[..k] == run[..k];
      assert Enabled(setup, run[..k], run[k]);
    }
  }

  /** A run takes and finishes each atom at most once, so it is at most `2 * n` events long. */
  lemma {:induction false} RunLength(setup: CompiledSetup, run: seq<Event>)
    requires WellPacked(setup) && IsRun(setup, run)
    ensures |run| == |Taken(run)| + |Done(run)|
    ensures forall id: nat :: id in Taken(run) ==> id < |setup.atoms|
    ensures Done(run) <= Taken(run)
    decreases |run|
  {
    if run == [] {
      assert Taken(run) == {} && Done(run) == {};
    } else {
      var front, e := run[..|run| - 1], run[|run| - 1];
      assert run == front + [e];
      RunPrefix(setup, run);
      RunLength(setup, front);
      ExtendSets(front, e);
    }
  }

  lemma RunBound(setup: CompiledSetup, run: seq<Event>)
    requires WellPacked(setup) && IsRun(setup, run)
    ensures |Done(run)| <= |Taken(run)| <= |setup.atoms| && |run| <= 2 * |setup.atoms|
    ensures |Done(run)| == |setup.atoms| <==> Complete(setup, run)
  {
    RunLength(setup, run);
    assert Taken(run) <= Range(|setup.atoms|);
    SubsetCount(Taken(run), Range(|setup.atoms|));
    SubsetCount(Done(run), Taken(run));
    if Complete(setup, run) {
      assert Done(run) == Range(|setup.atoms|);
    } else {
      var id: nat :| id < |setup.atoms| && id !in Done(run);
      SubsetCount(Done(run), Range(|setup.atoms|) - {id});
    }
  }

  lemma OneMore(setup: CompiledSetup, run: seq<Event>) returns (longer: seq<Event>)
    requires Consistent(setup) && StrictlyForward(setup) && IsRun(setup, run) && !Complete(setup, run)
    ensures run <= longer && |longer| == |run| + 1 && IsRun(setup, longer)
    ensures |run| < 2 * |setup.atoms|
  {
    var id: nat :| id < |setup.atoms| && id !in Done(run);
    var e := Progress(setup, run, id);
    Extend(setup, run, e);
    longer := run + [e];
    RunBound(setup, longer);
  }

  /** Every run can be continued to one that finishes every atom, in exactly `n` completions. */
  lemma {:induction false} Completes(setup: CompiledSetup, run: seq<Event>) returns (full: seq<Event>)
    requires Consistent(setup) && StrictlyForward(setup) && IsRun(setup, run)
    ensures run <= full && IsRun(setup, full) && Complete(setup, full)
    ensures |full| == 2 * |setup.atoms| && |Done(full)| == |setup.atoms|
    decreases 2 * |setup.atoms| - |run|
  {
    RunBound(setup, run);
    if Complete(setup, run) {
      full := run;
      RunLength(setup, run);
    } else {
      var longer := OneMore(setup, run);
      full := Completes(setup, longer);
    }
  }

  /** A run that cannot be continued has finished every atom. */
  lemma StuckIsComplete(setup: CompiledSetup, run: seq<Event>)
    requires Consistent(setup) && StrictlyForward(setup) && IsRun(setup, run)
    requires forall e: Event :: !Enabled(setup, run, e)
    ensures Complete(setup, run) && |Done(run)| == |setup.atoms|
  {
    if !Complete(setup, run) {
      var id: nat :| id < |setup.atoms| && id !in Done(run);
      var e := Progress(setup, run, id);
    }
    RunBound(setup, run);
  }
}
