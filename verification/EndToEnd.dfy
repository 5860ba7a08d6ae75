/** Compiler and scheduler together: what a task description promises about every run of the
    supervisor on the setup compiled from it.
 */
module EndToEnd {
  import opened Relations
  import opened Sequences
  import opened Model
  import opened Meaning
  import opened VecGraphs
  import opened Runs
  import opened Scheduler
  import Compiler
  import Determinism

  /** What a description must be for its setup to be run to the end: no atom is put before itself,
      and none is a debug name. */
  ghost predicate Serviceable(info: TaskInfo)
    requires WellFormed(info)
  {
    && (forall a: nat :: !Before(info, a, a))
    && (forall a: nat :: IsAtom(info, a) ==> !info.tasks[a].atom.data.DebugName?)
  }

  /** Such a description compiles to a setup the scheduler accepts, however many atoms it has. */
  lemma CompiledRunnable(info: TaskInfo, setup: CompiledSetup, order: seq<nat>)
    requires WellFormed(info) && Faithful(info, setup, order) && Serviceable(info)
    ensures Runnable(setup) && StrictlyForward(setup)
  {
    StrictIff(info, setup, order);
    assert forall a: nat :: a in order ==> a < |info.tasks|;
    BoundedLength(order, |info.tasks|);
    forall id: nat | id < |setup.atoms| ensures |FullEdges(setup.beforeGraph, id)| < U32_MAX {
      FewEnough(setup, id);
    }
    forall id | 0 <= id < |setup.atoms| ensures !setup.atoms[id].data.DebugName? {
      assert order[id] in order;
    }
  }

  /** An atom that does not wait for itself waits for fewer atoms than there are. */
  lemma FewEnough(setup: CompiledSetup, id: nat)
    requires Consistent(setup) && StrictlyForward(setup) && id < |setup.atoms|
    ensures |FullEdges(setup.beforeGraph, id)| < |setup.atoms|
  {
    var list := FullEdges(setup.beforeGraph, id);
    assert list == Unpack(setup.beforeGraph)[id];
    forall u: nat | u in list ensures u < |setup.atoms| && u != id {
      BeforeInRange(setup, id, u);
    }
    assert id !in list;
    BoundedLength(list, |setup.atoms|);
  }

  /** In every run, an atom is handed out only after every atom that the description puts before
      it, directly or through others, has been marked done. */
  lemma DescriptionRespected(info: TaskInfo, setup: CompiledSetup, order: seq<nat>, run: seq<Event>, j: nat, a: nat)
    returns (i: nat)
    requires WellFormed(info) && Faithful(info, setup, order) && IsRun(setup, run)
    requires j < |run| && run[j].Took? && run[j].id < |order|
    requires Reach(Precedence(info), a, order[run[j].id])
    ensures i < j && run[i].Finished? && run[i].id < |order| && order[run[i].id] == a
  {
    var b := ReachFirst(Precedence(info), a, order[run[j].id]);
    assert Before(info, a, b) && IsAtom(info, a);
    var x: nat :| x < |order| && order[x] == a;
    assert Reach(After(setup), x, run[j].id);
    var n: nat :| n > 0 && Steps(After(setup), n, x, run[j].id);
    i := Safety(setup, run, n, x, j);
  }

  /** The order is strict exactly when the description puts no atom before itself. */
  lemma StrictIff(info: TaskInfo, setup: CompiledSetup, order: seq<nat>)
    requires WellFormed(info) && Faithful(info, setup, order)
    ensures StrictlyForward(setup) <==> forall a: nat :: !Before(info, a, a)
  {
    if a: nat :| Before(info, a, a) {
      assert IsAtom(info, a);
      var i: nat :| i < |order| && order[i] == a;
      assert Edge(After(setup), i, i);
    }
    if forall a: nat :: !Before(info, a, a) {
      forall i: nat, j: nat | Edge(After(setup), i, j) ensures i < j {
        assert !Before(info, order[i], order[i]);
        assert !Edge(After(setup), i, i);
      }
    }
  }

  /** Atoms are handed out in answer to requests, and only these: a debug name that becomes ready
      stops the supervisor (`src/runner/supervisor.rs:52-54`, `src/runner/supervisor.rs:73-75`). */
  ghost predicate Answers(setup: CompiledSetup, e: Event) {
    e.Took? ==> e.id < |setup.atoms| && !setup.atoms[e.id].data.DebugName?
  }

  ghost predicate IsAnsweredRun(setup: CompiledSetup, run: seq<Event>)
    requires WellPacked(setup)
  {
    IsRun(setup, run) && forall k :: 0 <= k < |run| ==> Answers(setup, run[k])
  }

  ghost predicate CanFinish(setup: CompiledSetup)
    requires WellPacked(setup)
  {
    exists run: seq<Event> :: IsAnsweredRun(setup, run) && Runs.Complete(setup, run)
  }

  /** A run that finishes everything shows that the description is serviceable. */
  lemma CompleteMeansServiceable(info: TaskInfo, setup: CompiledSetup, order: seq<nat>, run: seq<Event>)
    requires WellFormed(info) && Faithful(info, setup, order)
    requires IsAnsweredRun(setup, run) && Runs.Complete(setup, run)
    ensures Serviceable(info)
  {
    forall a: nat | IsAtom(info, a) ensures !Before(info, a, a) && !info.tasks[a].atom.data.DebugName? {
      var i: nat :| i < |order| && order[i] == a;
      CompleteMeansAnswered(setup, run, i);
      if Before(info, a, a) {
        EdgeReach(After(setup), i, i);
      }
    }
    assert forall a: nat :: Before(info, a, a) ==> IsAtom(info, a);
  }

  lemma CompleteMeansAnswered(setup: CompiledSetup, run: seq<Event>, id: nat)
    requires Consistent(setup) && IsAnsweredRun(setup, run) && id < |setup.atoms| && id in Done(run)
    ensures !setup.atoms[id].data.DebugName? && !Reach(After(setup), id, id)
  {
    if Reach(After(setup), id, id) {
      SelfEdgeStuck(setup, run, id);
    }
    RunLength(setup, run);
    TakenAnswered(setup, run, id);
  }

  lemma TakenAnswered(setup: CompiledSetup, run: seq<Event>, id: nat)
    requires id < |setup.atoms| && id in Taken(run) && forall k :: 0 <= k < |run| ==> Answers(setup, run[k])
    ensures !setup.atoms[id].data.DebugName?
  {
    var k :| 0 <= k < |run| && run[k] == Took(id);
    assert Answers(setup, run[k]);
  }

  /** A compiled setup can be run to the end exactly when the description is serviceable. */
  lemma FinishesIff(info: TaskInfo, setup: CompiledSetup, order: seq<nat>)
    requires WellFormed(info) && Faithful(info, setup, order)
    ensures CanFinish(setup) <==> Serviceable(info)
  {
    if run: seq<Event> :| IsAnsweredRun(setup, run) && Runs.Complete(setup, run) {
      CompleteMeansServiceable(info, setup, order, run);
    }
    if Serviceable(info) {
      CompiledRunnable(info, setup, order);
      var full := Completes(setup, []);
      forall k | 0 <= k < |full| ensures Answers(setup, full[k]) {
        assert Enabled(setup, full[..k], full[k]);
      }
      assert IsAnsweredRun(setup, full);
    }
  }

  /** No choice of atoms leads astray: a run that cannot go on has finished every atom, again
      exactly when the description is serviceable. */
  lemma StuckRunsAreComplete(info: TaskInfo, setup: CompiledSetup, order: seq<nat>, run: seq<Event>)
    requires WellFormed(info) && Faithful(info, setup, order) && IsAnsweredRun(setup, run)
    requires forall e: Event :: Enabled(setup, run, e) ==> !Answers(setup, e)
    ensures Runs.Complete(setup, run) <==> Serviceable(info)
    ensures Runs.Complete(setup, run) <==> |Done(run)| == |setup.atoms|
  {
    RunBound(setup, run);
    if Runs.Complete(setup, run) {
      CompleteMeansServiceable(info, setup, order, run);
    }
    if Serviceable(info) {
      CompiledRunnable(info, setup, order);
      forall e: Event ensures !Enabled(setup, run, e) {
        assert Enabled(setup, run, e) ==> Answers(setup, e);
      }
      StuckIsComplete(setup, run);
    }
  }

  /** On a compiled setup, completions queue the atoms they free in increasing order. */
  lemma FreedInOrder(info: TaskInfo, setup: CompiledSetup, order: seq<nat>, id: nat, keep: set<nat>)
    requires WellFormed(info) && Faithful(info, setup, order) && id < |setup.atoms|
    ensures StrictlySorted(Selected(FullEdges(setup.afterGraph, id), keep))
  {
    assert FullEdges(setup.afterGraph, id) == Unpack(setup.afterGraph)[id];
    SelectedSorted(FullEdges(setup.afterGraph, id), keep);
  }

  // ----- the supervisor itself, driven to the end

  /** The lowest undone atom waits for nothing. */
  lemma LowestReady(setup: CompiledSetup, run: seq<Event>, id: nat)
    requires Consistent(setup) && StrictlyForward(setup) && IsRun(setup, run)
    requires id < |setup.atoms| && id !in Taken(run) && forall u: nat :: u < id ==> u in Done(run)
    ensures Enabled(setup, run, Took(id))
  {
    forall u: nat ensures u !in Waits(setup, id, Done(run)) {
      if u in FullEdges(setup.beforeGraph, id) { BeforeInRange(setup, id, u); }
    }
  }

  /** Takes and finishes atoms until none is undone: no order of atoms is known beforehand, only
      what `iter_undone` and `get_task` say. */
  method Drive(supervisor: Supervisor)
    requires supervisor.Valid() && StrictlyForward(supervisor.info)
    requires Taken(supervisor.run) == Done(supervisor.run)
    modifies supervisor
    ensures supervisor.Valid() && Runs.Complete(supervisor.info, supervisor.run)
    ensures |Done(supervisor.run)| == |supervisor.info.atoms|
  {
    ghost var setup := supervisor.info;
    var undone := supervisor.IterUndone();
    while undone != []
      invariant supervisor.Valid() && Taken(supervisor.run) == Done(supervisor.run)
      invariant StrictlySorted(undone)
      invariant forall id: nat :: id in undone <==> id < |setup.atoms| && id !in Done(supervisor.run)
      decreases 2 * |setup.atoms| - |supervisor.run|
    {
      ghost var before := supervisor.run;
      NextReady(setup, before, undone);
      var request := Request(supervisor.info.atoms[undone[0]].data).value;
      RequestServes(supervisor.info.atoms[undone[0]].data, request);
      var task := supervisor.GetTask(request);
      var id := task.value.0;
      TakenAndFinished(before, id);
      supervisor.MarkDone(id);
      RunBound(setup, supervisor.run);
      undone := supervisor.IterUndone();
    }
    RunBound(setup, supervisor.run);
  }

  lemma NextReady(setup: CompiledSetup, run: seq<Event>, undone: seq<nat>)
    requires Consistent(setup) && StrictlyForward(setup) && IsRun(setup, run) && Taken(run) == Done(run)
    requires StrictlySorted(undone) && undone != []
    requires forall id: nat :: id in undone <==> id < |setup.atoms| && id !in Done(run)
    ensures undone[0] < |setup.atoms| && Enabled(setup, run, Took(undone[0]))
  {
    assert undone[0] in undone;
    LowestUndone(undone, |setup.atoms|, Done(run));
    LowestReady(setup, run, undone[0]);
  }

  lemma TakenAndFinished(run: seq<Event>, id: nat)
    ensures id in Taken(run + [Took(id)]) && Done(run + [Took(id)]) == Done(run)
    ensures Taken(run + [Took(id)] + [Finished(id)]) == Taken(run) + {id}
    ensures Done(run + [Took(id)] + [Finished(id)]) == Done(run) + {id}
  {
    ExtendSets(run, Took(id));
    ExtendSets(run + [Took(id)], Finished(id));
  }

  lemma LowestUndone(undone: seq<nat>, n: nat, done: set<nat>)
    requires StrictlySorted(undone) && undone != []
    requires forall id: nat :: id in undone <==> id < n && id !in done
    ensures undone[0] in undone && forall u: nat :: u < undone[0] ==> u in done
  {
    assert undone[0] in undone;
    assert forall k :: 0 <= k < |undone| ==> undone[0] <= undone[k];
  }

  /** What an observer of the run sees: whatever the description puts before an atom was finished
      before that atom was handed out. */
  ghost predicate Respects(info: TaskInfo, order: seq<nat>, run: seq<Event>)
    requires WellFormed(info)
  {
    forall j: nat, a: nat ::
      j < |run| && run[j].Took? && run[j].id < |order| && Reach(Precedence(info), a, order[run[j].id]) ==>
      FinishedEarlier(order, run, j, a)
  }

  ghost predicate FinishedEarlier(order: seq<nat>, run: seq<Event>, j: nat, a: nat)
    requires j < |run|
  {
    exists i: nat :: i < j && run[i].Finished? && run[i].id < |order| && order[run[i].id] == a
  }

  /** Compiling a serviceable description and driving the supervisor on the result finishes every
      atom, in an order the description allows. */
  method CompileAndRun(info: TaskInfo) returns (r: Result<Supervisor, Determinism.GraphCycle>, ghost order: seq<nat>)
    requires WellFormed(info) && Serviceable(info)
    ensures r.Ok? <==> Acyclic(Contains(info)) && Acyclic(Constraints(info))
    ensures r.Ok? ==> fresh(r.value) && r.value.Valid() && Faithful(info, r.value.info, order)
    ensures r.Ok? ==> Runs.Complete(r.value.info, r.value.run) && Respects(info, order, r.value.run)
  {
    order := [];
    var compiled := Compiler.Compile(info);
    if compiled.Err? {
      return Err(compiled.error), order;
    }
    order :| Faithful(info, compiled.value, order);
    CompiledRunnable(info, compiled.value, order);
    var supervisor := new Supervisor(compiled.value);
    Drive(supervisor);
    EveryRunRespects(info, compiled.value, order, supervisor.run);
    r := Ok(supervisor);
  }

  lemma EveryRunRespects(info: TaskInfo, setup: CompiledSetup, order: seq<nat>, run: seq<Event>)
    requires WellFormed(info) && Faithful(info, setup, order) && IsRun(setup, run)
    ensures Respects(info, order, run)
  {
    forall j: nat, a: nat |
      j < |run| && run[j].Took? && run[j].id < |order| && Reach(Precedence(info), a, order[run[j].id])
      ensures FinishedEarlier(order, run, j, a)
    {
      var i := DescriptionRespected(info, setup, order, run, j, a);
    }
  }

  // ----- accepted descriptions that can never finish

  /** What the compiler accepts need not be serviceable, and then no run of the result finishes. */
  method CompileUnserviceable(info: TaskInfo) returns (setup: CompiledSetup)
    requires WellFormed(info) && Acyclic(Contains(info)) && Acyclic(Constraints(info)) && !Serviceable(info)
    ensures exists order: seq<nat> :: Faithful(info, setup, order)
    ensures WellPacked(setup) && !CanFinish(setup)
  {
    var r := Compiler.Compile(info);
    setup := r.value;
    ghost var order: seq<nat> :| Faithful(info, setup, order);
    FinishesIff(info, setup, order);
  }

  /** One atom inside two groups, the first ordered before the second. */
  const SHARED_ATOM := TaskInfo(
    [AtomTask(Atom(Close(MockFd(0)), None)), Unordered([0]), Unordered([0])], map[1 := [2]], 0)

  lemma SharedAtomBeforeItself()
    ensures WellFormed(SHARED_ATOM) && Before(SHARED_ATOM, 0, 0)
  {
    var info := SHARED_ATOM;
    assert Edge(Contains(info), 1, 0) && Edge(Contains(info), 2, 0);
    EdgeReach(Contains(info), 1, 0);
    EdgeReach(Contains(info), 2, 0);
    assert 2 in info.happensBefore[1] && Constrained(info, 1, 2);
    EdgeReach(TaskOrder(info), 1, 2);
    assert BeforeVia(info, 1, 2, 0, 0);
  }

  lemma SharedAtomCompiles()
    ensures WellFormed(SHARED_ATOM) && Acyclic(Contains(SHARED_ATOM)) && Acyclic(Constraints(SHARED_ATOM))
  {
    var info := SHARED_ATOM;
    forall t: nat, c: nat | Edge(Contains(info), t, c) ensures t in {1, 2} && c == 0 {
      assert t < 3;
    }
    RankedAcyclic(Contains(info), [1, 0, 0]);
    forall u: nat, v: nat | Edge(Constraints(info), u, v) ensures u == 1 && v == 2 {
      assert forall t: nat :: t < |info.tasks| ==> !info.tasks[t].Ordered?;
    }
    RankedAcyclic(Constraints(info), [0, 0, 1]);
  }

  /** The compiler accepts it, yet no run of the result finishes. */
  method SharedAtomNeverFinishes() returns (setup: CompiledSetup)
    ensures exists order: seq<nat> :: Faithful(SHARED_ATOM, setup, order)
    ensures WellPacked(setup) && !CanFinish(setup)
  {
    SharedAtomBeforeItself();
    SharedAtomCompiles();
    setup := CompileUnserviceable(SHARED_ATOM);
  }

  /** A debug name alone. */
  const DEBUG_NAME := TaskInfo([AtomTask(Atom(DebugName("start"), None))], map[], 0)

  lemma DebugNameCompiles()
    ensures WellFormed(DEBUG_NAME) && Acyclic(Contains(DEBUG_NAME)) && Acyclic(Constraints(DEBUG_NAME))
    ensures !Serviceable(DEBUG_NAME)
  {
    var info := DEBUG_NAME;
    assert info.tasks[0].AtomTask? && IsAtom(info, 0);
    forall t: nat, c: nat ensures !Edge(Contains(info), t, c) {}
    RankedAcyclic(Contains(info), [0]);
    forall u: nat, v: nat ensures !Constrained(info, u, v) {}
    forall u: nat, v: nat ensures !Edge(Constraints(info), u, v) {
      if t: nat, w: nat :| BeforeVia(info, t, w, u, v) {
        var x := ReachFirst(TaskOrder(info), t, w);
      }
    }
    RankedAcyclic(Constraints(info), [0]);
  }

  /** The compiler accepts it as well, and the supervisor cannot finish it either. */
  method DebugNameNeverFinishes() returns (setup: CompiledSetup)
    ensures exists order: seq<nat> :: Faithful(DEBUG_NAME, setup, order)
    ensures WellPacked(setup) && !CanFinish(setup)
  {
    DebugNameCompiles();
    setup := CompileUnserviceable(DEBUG_NAME);
  }
}
