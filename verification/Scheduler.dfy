/** The ready-set scheduler: the request projection of `src/runner/request.rs:5-35` and the
    scheduling part of `src/runner/supervisor.rs:30-88` and `src/runner/supervisor.rs:193-198`.
 */
module Scheduler {
  import opened Relations
  import opened Sequences
  import opened Model
  import opened Meaning
  import opened VecGraphs
  import opened Runs

  datatype AtomReq =
    | ReqOpen(path: Text)
    | ReqTcpSocket(family: IpFamily)
    | ReqBind(file: MockFd, address: SocketAddr)
    | ReqListen(file: MockFd, backlog: int)
    | ReqConnect(file: MockFd, address: SocketAddr)
    | ReqAccept(file: MockFd)
    | ReqShutdown(file: MockFd, how: ShutdownHow)
    | ReqRead(file: MockFd, size: nat)
    | ReqWrite(file: MockFd, text: Text)
    | ReqClose(file: MockFd)

  /** The request an atom answers (`AtomReq::new`). */
  function Request(data: AtomData): Option<AtomReq> {
    match data
    case Open(_, path) => Some(ReqOpen(path))
    case TcpSocket(family) => Some(ReqTcpSocket(family))
    case Bind(file, address) => Some(ReqBind(file, address))
    case Listen(file, backlog) => Some(ReqListen(file, backlog))
    case Connect(file, address) => Some(ReqConnect(file, address))
    case Accept(file) => Some(ReqAccept(file))
    case Shutdown(file, how) => Some(ReqShutdown(file, how))
    case Read(file, _, size) => Some(ReqRead(file, size))
    case Write(file, text, _) => Some(ReqWrite(file, text))
    case Close(file) => Some(ReqClose(file))
    case DebugName(_) => None
  }

  /** An atom with this data answers the request. */
  predicate Serves(data: AtomData, r: AtomReq) {
    match r
    case ReqOpen(path) => data.Open? && data.path == path
    case ReqTcpSocket(family) => data == TcpSocket(family)
    case ReqBind(file, address) => data == Bind(file, address)
    case ReqListen(file, backlog) => data == Listen(file, backlog)
    case ReqConnect(file, address) => data == Connect(file, address)
    case ReqAccept(file) => data == Accept(file)
    case ReqShutdown(file, how) => data == Shutdown(file, how)
    case ReqRead(file, size) => data.Read? && data.file == file && data.size == size
    case ReqWrite(file, text) => data.Write? && data.file == file && data.text == text
    case ReqClose(file) => data == Close(file)
  }

  /** The projection asks an atom for exactly the request it answers. */
  lemma RequestServes(data: AtomData, r: AtomReq)
    ensures Request(data) == Some(r) <==> Serves(data, r)
  {
  }

  /** Request by request: files and texts are left out where the process cannot know them. */
  lemma RequestLaws(data: AtomData)
    ensures forall path :: Request(data) == Some(ReqOpen(path)) <==> data.Open? && data.path == path
    ensures forall family :: Request(data) == Some(ReqTcpSocket(family)) <==> data == TcpSocket(family)
    ensures forall file, address :: Request(data) == Some(ReqBind(file, address)) <==> data == Bind(file, address)
    ensures forall file, backlog :: Request(data) == Some(ReqListen(file, backlog)) <==> data == Listen(file, backlog)
    ensures forall file, address :: Request(data) == Some(ReqConnect(file, address)) <==> data == Connect(file, address)
    ensures forall file :: Request(data) == Some(ReqAccept(file)) <==> data == Accept(file)
    ensures forall file, how :: Request(data) == Some(ReqShutdown(file, how)) <==> data == Shutdown(file, how)
    ensures forall file, size :: Request(data) == Some(ReqRead(file, size)) <==>
      data.Read? && data.file == file && data.size == size
    ensures forall file, text :: Request(data) == Some(ReqWrite(file, text)) <==>
      data.Write? && data.file == file && data.text == text
    ensures forall file :: Request(data) == Some(ReqClose(file)) <==> data == Close(file)
    ensures Request(data) == None <==> data.DebugName?
  {
  }

  type Queues = map<AtomReq, seq<nat>>

  function Queue(ready: Queues, r: AtomReq): seq<nat> {
    if r in ready then ready[r] else []
  }

  /** What the scheduler asks of a setup: consistent graphs, 32-bit atom ids, counts that differ
      from the done marker, and no debug names, which the source does not handle yet
      (`src/runner/supervisor.rs:52-54`). */
  ghost predicate Runnable(setup: CompiledSetup) {
    && Consistent(setup)
    && |setup.atoms| <= U32_MAX
    && (forall id: nat :: id < |setup.atoms| ==> |FullEdges(setup.beforeGraph, id)| < U32_MAX)
    && forall id :: 0 <= id < |setup.atoms| ==> !setup.atoms[id].data.DebugName?
  }

  /** The request of every atom. */
  function Requests(setup: CompiledSetup): (requests: seq<Option<AtomReq>>)
    ensures |requests| == |setup.atoms|
  {
    seq(|setup.atoms|, i requires 0 <= i < |setup.atoms| => Request(setup.atoms[i].data))
  }

  /** The queues hold exactly the atoms `ids`, each once, under its own request. */
  ghost predicate QueuesHold(requests: seq<Option<AtomReq>>, ready: Queues, ids: set<nat>) {
    forall r {:trigger Queue(ready, r)} :: QueueHolds(requests, Queue(ready, r), ids, r)
  }

  ghost predicate QueueHolds(requests: seq<Option<AtomReq>>, queue: seq<nat>, ids: set<nat>, r: AtomReq) {
    && NoDuplicates(queue)
    && forall id: nat :: id in queue <==> id in ids && id < |requests| && requests[id] == Some(r)
  }

  /** Every undone atom counts what it still waits for; the maximum marks the done ones. */
  ghost predicate Counted(setup: CompiledSetup, waitCounts: seq<nat>, run: seq<Event>, id: nat)
    requires WellPacked(setup) && id < |setup.atoms| == |waitCounts|
  {
    waitCounts[id] == if id in Done(run) then U32_MAX else |Waits(setup, id, Done(run))|
  }

  ghost predicate CountsAll(setup: CompiledSetup, waitCounts: seq<nat>, run: seq<Event>)
    requires WellPacked(setup)
  {
    |waitCounts| == |setup.atoms| && forall id: nat :: id < |setup.atoms| ==> Counted(setup, waitCounts, run, id)
  }

  /** The atoms that may be handed out next. */
  ghost function Ready(setup: CompiledSetup, run: seq<Event>): (ids: set<nat>)
    requires WellPacked(setup)
    ensures forall id: nat :: id in ids <==> Enabled(setup, run, Took(id))
  {
    set id: nat | id < |setup.atoms| && Enabled(setup, run, Took(id))
  }

  // ----- facts about setups and runs

  lemma BeforeInRange(setup: CompiledSetup, id: nat, u: nat)
    requires Consistent(setup) && id < |setup.atoms| && u in FullEdges(setup.beforeGraph, id)
    ensures u < |setup.atoms| && Edge(After(setup), u, id)
  {
    assert Edge(Succ(Unpack(setup.beforeGraph)), id, u);
  }

  /** A count never collides with the done marker. */
  lemma CountBelowMax(setup: CompiledSetup, id: nat, done: set<nat>)
    requires Runnable(setup) && id < |setup.atoms|
    ensures |Waits(setup, id, done)| < U32_MAX
  {
    var list := FullEdges(setup.beforeGraph, id);
    assert list == Unpack(setup.beforeGraph)[id];
    ElementCount(list);
    SubsetCount(Waits(setup, id, done), Elements(list));
  }

  lemma InitialCount(setup: CompiledSetup, id: nat)
    requires Consistent(setup) && id < |setup.atoms|
    ensures |Waits(setup, id, {})| == |FullEdges(setup.beforeGraph, id)|
  {
    var list := FullEdges(setup.beforeGraph, id);
    assert list == Unpack(setup.beforeGraph)[id];
    ElementCount(list);
    assert Waits(setup, id, {}) == Elements(list);
  }

  /** Once taken, an atom waits for nothing. */
  lemma TakenWaitsForNothing(setup: CompiledSetup, run: seq<Event>, id: nat)
    requires Consistent(setup) && IsRun(setup, run) && id in Taken(run) && id < |setup.atoms|
    ensures Waits(setup, id, Done(run)) == {}
  {
    var j :| 0 <= j < |run| && run[j] == Took(id);
    assert Enabled(setup, run[..j], run[j]);
    assert Done(run[..j]) <= Done(run);
    WaitsShrink(setup, id, Done(run[..j]), Done(run));
  }

  lemma WaitsShrink(setup: CompiledSetup, id: nat, done: set<nat>, more: set<nat>)
    requires WellPacked(setup) && id < |setup.atoms| && done <= more
    ensures Waits(setup, id, more) <= Waits(setup, id, done)
  {
  }

  /** The waiting sets while `mark_done(id)` has visited only the neighbours `visited`. */
  ghost function WaitsMid(setup: CompiledSetup, done: set<nat>, id: nat, visited: seq<nat>, v: nat): set<nat>
    requires WellPacked(setup) && v < |setup.atoms|
  {
    Waits(setup, v, if v in visited then done + {id} else done)
  }

  ghost function ReadyMid(setup: CompiledSetup, taken: set<nat>, done: set<nat>, id: nat, visited: seq<nat>): (ids: set<nat>)
    requires WellPacked(setup)
    ensures forall v: nat :: v in ids <==> v < |setup.atoms| && v !in taken && WaitsMid(setup, done, id, visited, v) == {}
  {
    set v: nat | v < |setup.atoms| && v !in taken && WaitsMid(setup, done, id, visited, v) == {}
  }

  ghost predicate CountedMid(setup: CompiledSetup, waitCounts: seq<nat>, done: set<nat>, id: nat, visited: seq<nat>)
    requires WellPacked(setup) && |setup.atoms| == |waitCounts|
  {
    forall v: nat :: v < |setup.atoms| ==>
      waitCounts[v] == if v in done then U32_MAX else |WaitsMid(setup, done, id, visited, v)|
  }

  /** `x` has not been taken, and waits for `id` and possibly others. */
  ghost predicate WaitsFor(setup: CompiledSetup, taken: set<nat>, done: set<nat>, id: nat, x: nat)
    requires WellPacked(setup)
  {
    && x < |setup.atoms| && x !in taken && x !in done
    && id in Waits(setup, x, done)
    && Waits(setup, x, done + {id}) == Waits(setup, x, done) - {id}
  }

  lemma NeighbourWaits(setup: CompiledSetup, run: seq<Event>, id: nat, x: nat)
    requires Consistent(setup) && IsRun(setup, run) && Enabled(setup, run, Finished(id))
    requires x in FullEdges(setup.afterGraph, id)
    ensures WaitsFor(setup, Taken(run), Done(run), id, x)
  {
    assert Edge(Succ(Unpack(setup.afterGraph)), id, x);
    assert Edge(Succ(Unpack(setup.beforeGraph)), x, id);
    assert id in FullEdges(setup.beforeGraph, x);
    RunLength(setup, run);
    if x in Taken(run) {
      TakenWaitsForNothing(setup, run, x);
    }
  }

  /** An atom that is no neighbour does not notice. */
  lemma OthersUnaffected(setup: CompiledSetup, id: nat, v: nat, done: set<nat>)
    requires Consistent(setup) && id < |setup.atoms| && v < |setup.atoms|
    requires v !in FullEdges(setup.afterGraph, id)
    ensures Waits(setup, v, done + {id}) == Waits(setup, v, done)
  {
    assert Edge(Succ(Unpack(setup.beforeGraph)), v, id) <==> Edge(Succ(Unpack(setup.afterGraph)), id, v);
  }

  /** What visiting neighbour `x` of a finished atom does to the counts and to the ready atoms. */
  lemma Visit(setup: CompiledSetup, waitCounts: seq<nat>, taken: set<nat>, done: set<nat>, id: nat, visited: seq<nat>, x: nat)
    requires WellPacked(setup) && WaitsFor(setup, taken, done, id, x) && x !in visited
    requires |waitCounts| == |setup.atoms| && CountedMid(setup, waitCounts, done, id, visited)
    ensures waitCounts[x] > 0 && x !in ReadyMid(setup, taken, done, id, visited)
    ensures CountedMid(setup, waitCounts[x := waitCounts[x] - 1], done, id, visited + [x])
    ensures ReadyMid(setup, taken, done, id, visited + [x]) ==
      ReadyMid(setup, taken, done, id, visited) + (if waitCounts[x] == 1 then {x} else {})
  {
    VisitOthers(setup, done, id, visited, x);
    assert |WaitsMid(setup, done, id, visited + [x], x)| == waitCounts[x] - 1;
    assert WaitsMid(setup, done, id, visited + [x], x) == {} <==> waitCounts[x] == 1;
  }

  lemma VisitOthers(setup: CompiledSetup, done: set<nat>, id: nat, visited: seq<nat>, x: nat)
    requires WellPacked(setup)
    ensures forall v: nat :: v < |setup.atoms| && v != x ==>
      WaitsMid(setup, done, id, visited + [x], v) == WaitsMid(setup, done, id, visited, v)
  {
  }

  /** Before any neighbour is visited, the counts and queues are those of the run so far ... */
  lemma NoneVisited(setup: CompiledSetup, waitCounts: seq<nat>, run: seq<Event>, id: nat)
    requires WellPacked(setup) && |waitCounts| == |setup.atoms|
    requires forall v: nat :: v < |setup.atoms| ==> Counted(setup, waitCounts, run, v)
    ensures CountedMid(setup, waitCounts, Done(run), id, [])
    ensures ReadyMid(setup, Taken(run), Done(run), id, []) == Ready(setup, run)
  {
    forall v: nat | v < |setup.atoms|
      ensures waitCounts[v] == if v in Done(run) then U32_MAX else |WaitsMid(setup, Done(run), id, [], v)|
    {
      assert Counted(setup, waitCounts, run, v);
    }
  }

  /** ... and once all are, they are those of the run with the completion added. */
  lemma AllVisited(setup: CompiledSetup, waitCounts: seq<nat>, run: seq<Event>, id: nat)
    requires Consistent(setup) && |waitCounts| == |setup.atoms| && id < |setup.atoms|
    requires CountedMid(setup, waitCounts, Done(run), id, FullEdges(setup.afterGraph, id))
    requires Taken(run + [Finished(id)]) == Taken(run) && Done(run + [Finished(id)]) == Done(run) + {id}
    ensures CountsAll(setup, waitCounts[id := U32_MAX], run + [Finished(id)])
    ensures ReadyMid(setup, Taken(run), Done(run), id, FullEdges(setup.afterGraph, id)) == Ready(setup, run + [Finished(id)])
  {
    forall v: nat | v < |setup.atoms|
      ensures WaitsMid(setup, Done(run), id, FullEdges(setup.afterGraph, id), v) == Waits(setup, v, Done(run) + {id})
    {
      if v !in FullEdges(setup.afterGraph, id) {
        OthersUnaffected(setup, id, v, Done(run));
      }
    }
  }

  lemma QueuePushed(requests: seq<Option<AtomReq>>, ready: Queues, ids: set<nat>, id: nat, r: AtomReq)
    requires QueuesHold(requests, ready, ids) && id < |requests| && id !in ids && requests[id] == Some(r)
    ensures QueuesHold(requests, ready[r := Queue(ready, r) + [id]], ids + {id})
  {
    var pushed := ready[r := Queue(ready, r) + [id]];
    forall q ensures QueueHolds(requests, Queue(pushed, q), ids + {id}, q) {
      assert QueueHolds(requests, Queue(ready, q), ids, q);
      if q == r {
        assert forall v: nat :: v in Queue(pushed, q) <==> v in Queue(ready, q) || v == id;
      }
    }
  }

  lemma QueuePopped(requests: seq<Option<AtomReq>>, ready: Queues, ids: set<nat>, r: AtomReq)
    requires QueuesHold(requests, ready, ids) && r in ready && ready[r] != []
    ensures var id := ready[r][|ready[r]| - 1]; id in ids && id < |requests| && requests[id] == Some(r)
    ensures QueuesHold(requests, ready[r := ready[r][..|ready[r]| - 1]], ids - {ready[r][|ready[r]| - 1]})
  {
    var queue := ready[r];
    var id, rest := queue[|queue| - 1], queue[..|queue| - 1];
    assert queue == rest + [id];
    assert QueueHolds(requests, Queue(ready, r), ids, r);
    assert id in queue && id !in rest;
    var popped := ready[r := rest];
    forall q ensures QueueHolds(requests, Queue(popped, q), ids - {id}, q) {
      assert QueueHolds(requests, Queue(ready, q), ids, q);
      if q == r {
        assert forall v: nat :: v in queue <==> v in rest || v == id;
      }
    }
  }

  /** One neighbour of a finished atom: counts it down and queues it at zero
      (`src/runner/supervisor.rs:71-77`). */
  function Countdown(setup: CompiledSetup, waitCounts: seq<nat>, ready: Queues, x: nat): (seq<nat>, Queues)
    requires x < |waitCounts| == |setup.atoms| && waitCounts[x] > 0
  {
    var counts := waitCounts[x := waitCounts[x] - 1];
    var request := Request(setup.atoms[x].data);
    if counts[x] == 0 && request.Some? then (counts, ready[request.value := Queue(ready, request.value) + [x]])
    else (counts, ready)
  }

  /** Counts and queues while the neighbours `visited` of `id` have been visited. */
  ghost predicate Midway(setup: CompiledSetup, waitCounts: seq<nat>, ready: Queues, taken: set<nat>, done: set<nat>,
                         id: nat, visited: seq<nat>)
    requires WellPacked(setup)
  {
    && |waitCounts| == |setup.atoms|
    && CountedMid(setup, waitCounts, done, id, visited)
    && QueuesHold(Requests(setup), ready, ReadyMid(setup, taken, done, id, visited))
  }

  /** A neighbour that still waits for others stays out of the queues ... */
  lemma CountdownWaits(setup: CompiledSetup, waitCounts: seq<nat>, ready: Queues, taken: set<nat>, done: set<nat>,
                       id: nat, visited: seq<nat>, x: nat)
    requires WellPacked(setup) && Midway(setup, waitCounts, ready, taken, done, id, visited)
    requires WaitsFor(setup, taken, done, id, x) && x !in visited && waitCounts[x] != 1
    ensures waitCounts[x] > 0
    ensures Midway(setup, waitCounts[x := waitCounts[x] - 1], ready, taken, done, id, visited + [x])
  {
    Visit(setup, waitCounts, taken, done, id, visited, x);
    assert ReadyMid(setup, taken, done, id, visited + [x]) == ReadyMid(setup, taken, done, id, visited);
  }

  /** ... and one that waited for `id` alone enters the queue of its request. */
  lemma CountdownQueues(setup: CompiledSetup, waitCounts: seq<nat>, ready: Queues, taken: set<nat>, done: set<nat>,
                        id: nat, visited: seq<nat>, x: nat, r: AtomReq)
    requires WellPacked(setup) && Midway(setup, waitCounts, ready, taken, done, id, visited)
    requires WaitsFor(setup, taken, done, id, x) && x !in visited && waitCounts[x] == 1
    requires Request(setup.atoms[x].data) == Some(r)
    ensures Midway(setup, waitCounts[x := 0], ready[r := Queue(ready, r) + [x]], taken, done, id, visited + [x])
  {
    Visit(setup, waitCounts, taken, done, id, visited, x);
    QueuePushed(Requests(setup), ready, ReadyMid(setup, taken, done, id, visited), x, r);
  }

  lemma CountdownKeeps(setup: CompiledSetup, waitCounts: seq<nat>, ready: Queues, taken: set<nat>, done: set<nat>,
                       id: nat, visited: seq<nat>, x: nat)
    requires WellPacked(setup) && Midway(setup, waitCounts, ready, taken, done, id, visited)
    requires WaitsFor(setup, taken, done, id, x) && x !in visited && !setup.atoms[x].data.DebugName?
    ensures waitCounts[x] > 0
    ensures var (counts, queues) := Countdown(setup, waitCounts, ready, x);
      Midway(setup, counts, queues, taken, done, id, visited + [x])
  {
    if waitCounts[x] == 1 {
      CountdownQueues(setup, waitCounts, ready, taken, done, id, visited, x, Request(setup.atoms[x].data).value);
    } else {
      CountdownWaits(setup, waitCounts, ready, taken, done, id, visited, x);
    }
  }

  /** The elements of `list` that are in `keep`, in their order. */
  ghost function Selected(list: seq<nat>, keep: set<nat>): seq<nat> {
    if list == [] then []
    else
      var earlier, last := Selected(list[..|list| - 1], keep), list[|list| - 1];
      if last in keep then earlier + [last] else earlier
  }

  lemma {:induction false} SelectedElements(list: seq<nat>, keep: set<nat>, x: nat)
    ensures x in Selected(list, keep) <==> x in list && x in keep
    decreases |list|
  {
    if list != [] {
      SelectedElements(list[..|list| - 1], keep, x);
      assert list == list[..|list| - 1] + [list[|list| - 1]];
    }
  }

  lemma {:induction false} SelectedSorted(list: seq<nat>, keep: set<nat>)
    requires StrictlySorted(list)
    ensures StrictlySorted(Selected(list, keep))
    decreases |list|
  {
    if list != [] {
      var front := list[..|list| - 1];
      SelectedSorted(front, keep);
      forall i | 0 <= i < |Selected(front, keep)| ensures Selected(front, keep)[i] < list[|list| - 1] {
        SelectedElements(front, keep, Selected(front, keep)[i]);
      }
    }
  }

  lemma {:induction false} SelectedSame(list: seq<nat>, a: set<nat>, b: set<nat>)
    requires forall x: nat :: x in list ==> (x in a <==> x in b)
    ensures Selected(list, a) == Selected(list, b)
    decreases |list|
  {
    if list != [] {
      assert list == list[..|list| - 1] + [list[|list| - 1]];
      SelectedSame(list[..|list| - 1], a, b);
    }
  }

  /** The atoms that answer `r` and wait for nothing once `done` are done. */
  ghost function Freed(setup: CompiledSetup, done: set<nat>, r: AtomReq): (ids: set<nat>)
    requires WellPacked(setup)
    ensures forall x: nat :: x in ids <==>
      x < |setup.atoms| && Waits(setup, x, done) == {} && Serves(setup.atoms[x].data, r)
  {
    set x: nat | x < |setup.atoms| && Waits(setup, x, done) == {} && Serves(setup.atoms[x].data, r)
  }

  /** Every queue is what it was, followed by the freed atoms of `list`, in their order. */
  ghost predicate Extends(setup: CompiledSetup, before: Queues, after: Queues, list: seq<nat>, done: set<nat>)
    requires WellPacked(setup)
  {
    forall r {:trigger Queue(after, r)} :: Queue(after, r) == Queue(before, r) + Selected(list, Freed(setup, done, r))
  }

  /** The count of a neighbour is one exactly when this completion frees it. */
  lemma LastCount(setup: CompiledSetup, waitCounts: seq<nat>, ready: Queues, taken: set<nat>, done: set<nat>,
                  id: nat, visited: seq<nat>, x: nat)
    requires WellPacked(setup) && Midway(setup, waitCounts, ready, taken, done, id, visited)
    requires WaitsFor(setup, taken, done, id, x) && x !in visited
    ensures waitCounts[x] > 0 && (waitCounts[x] == 1 <==> Waits(setup, x, done + {id}) == {})
  {
    var waits := Waits(setup, x, done);
    assert waitCounts[x] == |waits|;
    assert waits == Waits(setup, x, done + {id}) + {id};
  }

  lemma CountdownExtends(setup: CompiledSetup, first: Queues, waitCounts: seq<nat>, ready: Queues,
                         list: seq<nat>, done: set<nat>, x: nat)
    requires WellPacked(setup) && x < |waitCounts| == |setup.atoms| && waitCounts[x] > 0
    requires waitCounts[x] == 1 <==> Waits(setup, x, done) == {}
    requires Extends(setup, first, ready, list, done)
    ensures Extends(setup, first, Countdown(setup, waitCounts, ready, x).1, list + [x], done)
  {
    var after := Countdown(setup, waitCounts, ready, x).1;
    forall r ensures Queue(after, r) == Queue(first, r) + Selected(list + [x], Freed(setup, done, r)) {
      assert (list + [x])[..|list|] == list;
      RequestServes(setup.atoms[x].data, r);
      assert Queue(ready, r) == Queue(first, r) + Selected(list, Freed(setup, done, r));
      assert Queue(after, r) == Queue(ready, r) + if x in Freed(setup, done, r) then [x] else [];
    }
  }

  lemma ReleaseOne(setup: CompiledSetup, first: Queues, counts: seq<nat>, queues: Queues, taken: set<nat>, done: set<nat>,
                   id: nat, neighbours: seq<nat>, k: nat)
    requires WellPacked(setup) && NoDuplicates(neighbours) && k < |neighbours|
    requires WaitsFor(setup, taken, done, id, neighbours[k]) && !setup.atoms[neighbours[k]].data.DebugName?
    requires Midway(setup, counts, queues, taken, done, id, neighbours[..k])
    requires Extends(setup, first, queues, neighbours[..k], done + {id})
    ensures counts[neighbours[k]] > 0
    ensures var step := Countdown(setup, counts, queues, neighbours[k]);
      && Midway(setup, step.0, step.1, taken, done, id, neighbours[..k + 1])
      && Extends(setup, first, step.1, neighbours[..k + 1], done + {id})
  {
    assert neighbours[k] !in neighbours[..k] && neighbours[..k + 1] == neighbours[..k] + [neighbours[k]];
    CountdownKeeps(setup, counts, queues, taken, done, id, neighbours[..k], neighbours[k]);
    LastCount(setup, counts, queues, taken, done, id, neighbours[..k], neighbours[k]);
    CountdownExtends(setup, first, counts, queues, neighbours[..k], done + {id}, neighbours[k]);
  }

  /** Visits every neighbour of `id` (`src/runner/supervisor.rs:68-78`). */
  method Release(setup: CompiledSetup, waitCounts: seq<nat>, ready: Queues, neighbours: seq<nat>,
                 ghost taken: set<nat>, ghost done: set<nat>, ghost id: nat)
    returns (counts: seq<nat>, queues: Queues)
    requires WellPacked(setup) && NoDuplicates(neighbours)
    requires forall x: nat :: x in neighbours ==>
      WaitsFor(setup, taken, done, id, x) && !setup.atoms[x].data.DebugName?
    requires Midway(setup, waitCounts, ready, taken, done, id, [])
    ensures Midway(setup, counts, queues, taken, done, id, neighbours)
    ensures Extends(setup, ready, queues, neighbours, done + {id})
  {
    counts, queues := waitCounts, ready;
    for k := 0 to |neighbours|
      invariant Midway(setup, counts, queues, taken, done, id, neighbours[..k])
      invariant Extends(setup, ready, queues, neighbours[..k], done + {id})
    {
      ReleaseOne(setup, ready, counts, queues, taken, done, id, neighbours, k);
      var step := Countdown(setup, counts, queues, neighbours[k]);
      counts, queues := step.0, step.1;
    }
    assert neighbours[..|neighbours|] == neighbours;
  }

  /** Counts and queues are those of the run. */
  ghost predicate Tracks(setup: CompiledSetup, waitCounts: seq<nat>, ready: Queues, run: seq<Event>)
    requires WellPacked(setup)
  {
    CountsAll(setup, waitCounts, run) && QueuesHold(Requests(setup), ready, Ready(setup, run))
  }

  lemma MarkBegins(setup: CompiledSetup, waitCounts: seq<nat>, ready: Queues, run: seq<Event>, id: nat)
    requires WellPacked(setup) && Tracks(setup, waitCounts, ready, run)
    ensures Midway(setup, waitCounts, ready, Taken(run), Done(run), id, [])
  {
    NoneVisited(setup, waitCounts, run, id);
  }

  lemma MarkNeighbours(setup: CompiledSetup, run: seq<Event>, id: nat)
    requires Runnable(setup) && IsRun(setup, run) && id in Taken(run) && id !in Done(run)
    ensures id < |setup.atoms| && Enabled(setup, run, Finished(id))
    ensures NoDuplicates(FullEdges(setup.afterGraph, id))
    ensures forall x: nat :: x in FullEdges(setup.afterGraph, id) ==>
      WaitsFor(setup, Taken(run), Done(run), id, x) && !setup.atoms[x].data.DebugName?
  {
    RunLength(setup, run);
    assert NoDuplicates(Unpack(setup.afterGraph)[id]);
    forall x: nat | x in FullEdges(setup.afterGraph, id)
      ensures WaitsFor(setup, Taken(run), Done(run), id, x) && !setup.atoms[x].data.DebugName?
    {
      NeighbourWaits(setup, run, id, x);
    }
  }

  lemma MarkEnds(setup: CompiledSetup, waitCounts: seq<nat>, ready: Queues, run: seq<Event>, id: nat)
    requires Consistent(setup) && IsRun(setup, run) && Enabled(setup, run, Finished(id))
    requires Midway(setup, waitCounts, ready, Taken(run), Done(run), id, FullEdges(setup.afterGraph, id))
    ensures IsRun(setup, run + [Finished(id)])
    ensures Tracks(setup, waitCounts[id := U32_MAX], ready, run + [Finished(id)])
  {
    Extend(setup, run, Finished(id));
    AllVisited(setup, waitCounts, run, id);
  }

  /** The atoms that answer `r` and may be handed out now that `id` is finished, but not before. */
  ghost function NewlyReady(setup: CompiledSetup, run: seq<Event>, id: nat, r: AtomReq): (ids: set<nat>)
    requires WellPacked(setup)
    ensures forall x: nat :: x in ids <==>
      && x < |setup.atoms| && Serves(setup.atoms[x].data, r)
      && Enabled(setup, run + [Finished(id)], Took(x)) && !Enabled(setup, run, Took(x))
  {
    set x: nat | x < |setup.atoms| && Serves(setup.atoms[x].data, r) &&
      Enabled(setup, run + [Finished(id)], Took(x)) && !Enabled(setup, run, Took(x))
  }

  /** Every queue is what it was, followed by the neighbours of `id` that are newly ready for its
      request, in the order of the after graph. */
  ghost predicate QueuedBehind(setup: CompiledSetup, before: Queues, after: Queues, run: seq<Event>, id: nat)
    requires WellPacked(setup)
  {
    && id < |setup.atoms|
    && forall r {:trigger Queue(after, r)} ::
         Queue(after, r) == Queue(before, r) + Selected(FullEdges(setup.afterGraph, id), NewlyReady(setup, run, id, r))
  }

  /** Among the neighbours, these are the freed ones. */
  lemma FreedIsNew(setup: CompiledSetup, run: seq<Event>, id: nat)
    requires Runnable(setup) && IsRun(setup, run) && id in Taken(run) && id !in Done(run) && id < |setup.atoms|
    ensures forall r :: Selected(FullEdges(setup.afterGraph, id), Freed(setup, Done(run) + {id}, r)) ==
                        Selected(FullEdges(setup.afterGraph, id), NewlyReady(setup, run, id, r))
  {
    MarkNeighbours(setup, run, id);
    ExtendSets(run, Finished(id));
    var list := FullEdges(setup.afterGraph, id);
    forall r ensures Selected(list, Freed(setup, Done(run) + {id}, r)) == Selected(list, NewlyReady(setup, run, id, r)) {
      forall x: nat | x in list
        ensures x in Freed(setup, Done(run) + {id}, r) <==> x in NewlyReady(setup, run, id, r)
      {
        assert WaitsFor(setup, Taken(run), Done(run), id, x);
      }
      SelectedSame(list, Freed(setup, Done(run) + {id}, r), NewlyReady(setup, run, id, r));
    }
  }

  /** `id` is the last of the `total` atoms queued for `r`, and may be handed out. */
  ghost predicate Taking(setup: CompiledSetup, ready: Queues, run: seq<Event>, r: AtomReq, id: nat, total: nat)
    requires WellPacked(setup)
  {
    && 0 < total == |Queue(ready, r)| && id == Queue(ready, r)[total - 1]
    && id < |setup.atoms| && Serves(setup.atoms[id].data, r)
    && Enabled(setup, run, Took(id))
  }

  lemma Take(setup: CompiledSetup, waitCounts: seq<nat>, ready: Queues, run: seq<Event>, r: AtomReq, id: nat, total: nat)
    requires Consistent(setup) && IsRun(setup, run) && Tracks(setup, waitCounts, ready, run)
    requires 0 < total == |Queue(ready, r)| && id == Queue(ready, r)[total - 1]
    ensures Taking(setup, ready, run, r, id, total) && IsRun(setup, run + [Took(id)])
    ensures Tracks(setup, waitCounts, ready[r := Queue(ready, r)[..total - 1]], run + [Took(id)])
  {
    assert id in Queue(ready, r);
    QueuePopped(Requests(setup), ready, Ready(setup, run), r);
    RequestServes(setup.atoms[id].data, r);
    Extend(setup, run, Took(id));
    assert Ready(setup, run + [Took(id)]) == Ready(setup, run) - {id};
    forall v: nat | v < |setup.atoms| ensures Counted(setup, waitCounts, run + [Took(id)], v) {
      assert Counted(setup, waitCounts, run, v);
    }
  }

  lemma NoneQueued(setup: CompiledSetup, ready: Queues, run: seq<Event>, r: AtomReq)
    requires WellPacked(setup) && QueuesHold(Requests(setup), ready, Ready(setup, run)) && Queue(ready, r) == []
    ensures forall id: nat :: id < |setup.atoms| && Serves(setup.atoms[id].data, r) ==>
      !Enabled(setup, run, Took(id))
  {
    forall id: nat | id < |setup.atoms| && Serves(setup.atoms[id].data, r)
      ensures !Enabled(setup, run, Took(id))
    {
      RequestServes(setup.atoms[id].data, r);
      assert id !in Queue(ready, r) && Requests(setup)[id] == Some(r);
    }
  }

  /** Counts and queues after the first `n` atoms have been entered. */
  ghost predicate Entered(setup: CompiledSetup, counts: seq<nat>, queues: Queues, n: nat)
    requires WellPacked(setup)
  {
    && |counts| == n <= |setup.atoms|
    && (forall v: nat :: v < n ==> counts[v] == |Waits(setup, v, {})|)
    && QueuesHold(Requests(setup), queues, Free(setup, n))
    && AllSorted(queues)
  }

  /** Every queue is in increasing order. */
  ghost predicate AllSorted(queues: Queues) {
    forall r {:trigger Queue(queues, r)} :: StrictlySorted(Queue(queues, r))
  }

  /** A higher atom goes to the end. */
  lemma EnterSorted(requests: seq<Option<AtomReq>>, queues: Queues, ids: set<nat>, id: nat, request: AtomReq)
    requires AllSorted(queues) && QueuesHold(requests, queues, ids) && forall v: nat :: v in ids ==> v < id
    ensures AllSorted(queues[request := Queue(queues, request) + [id]])
  {
    var entered := queues[request := Queue(queues, request) + [id]];
    forall r ensures StrictlySorted(Queue(entered, r)) {
      assert StrictlySorted(Queue(queues, r)) && QueueHolds(requests, Queue(queues, r), ids, r);
      forall i | 0 <= i < |Queue(queues, r)| ensures Queue(queues, r)[i] < id {
        assert Queue(queues, r)[i] in Queue(queues, r);
      }
    }
  }

  /** Enters one atom (`src/runner/supervisor.rs:45-55`). */
  function Enter(setup: CompiledSetup, counts: seq<nat>, queues: Queues, id: nat): (seq<nat>, Queues)
    requires WellPacked(setup) && id < |setup.atoms|
  {
    var edges := FullEdges(setup.beforeGraph, id);
    var request := Request(setup.atoms[id].data);
    if |edges| == 0 && request.Some? then
      (counts + [|edges|], queues[request.value := Queue(queues, request.value) + [id]])
    else
      (counts + [|edges|], queues)
  }

  lemma EnterKeeps(setup: CompiledSetup, counts: seq<nat>, queues: Queues, id: nat)
    requires Consistent(setup) && id < |setup.atoms| && !setup.atoms[id].data.DebugName?
    requires Entered(setup, counts, queues, id)
    ensures var next := Enter(setup, counts, queues, id); Entered(setup, next.0, next.1, id + 1)
  {
    InitialCount(setup, id);
    var edges := FullEdges(setup.beforeGraph, id);
    assert Waits(setup, id, {}) == {} <==> |edges| == 0;
    if |edges| == 0 {
      assert Free(setup, id + 1) == Free(setup, id) + {id};
      QueuePushed(Requests(setup), queues, Free(setup, id), id, Request(setup.atoms[id].data).value);
      EnterSorted(Requests(setup), queues, Free(setup, id), id, Request(setup.atoms[id].data).value);
    } else {
      assert Free(setup, id + 1) == Free(setup, id);
    }
  }

  /** Counts and queues before anything has run (`src/runner/supervisor.rs:41-56`). */
  method Initial(setup: CompiledSetup) returns (counts: seq<nat>, queues: Queues)
    requires Runnable(setup)
    ensures Tracks(setup, counts, queues, []) && AllSorted(queues)
  {
    counts, queues := [], map[];
    for id := 0 to |setup.atoms|
      invariant Entered(setup, counts, queues, id)
    {
      EnterKeeps(setup, counts, queues, id);
      var next := Enter(setup, counts, queues, id);
      counts, queues := next.0, next.1;
    }
    AllEntered(setup, counts, queues);
  }

  lemma AllEntered(setup: CompiledSetup, counts: seq<nat>, queues: Queues)
    requires WellPacked(setup) && Entered(setup, counts, queues, |setup.atoms|)
    ensures Tracks(setup, counts, queues, [])
  {
    assert Taken([]) == {} && Done([]) == {};
    assert Ready(setup, []) == Free(setup, |setup.atoms|);
    forall v: nat | v < |setup.atoms| ensures Counted(setup, counts, [], v) {}
  }

  /** The first `n` atoms that wait for nothing from the start. */
  ghost function Free(setup: CompiledSetup, n: nat): (ids: set<nat>)
    requires WellPacked(setup) && n <= |setup.atoms|
    ensures forall v: nat :: v in ids <==> v < n && Waits(setup, v, {}) == {}
  {
    set v: nat | v < n && Waits(setup, v, {}) == {}
  }

  /** The part of the source's `Supervisor` that schedules atoms. */
  class Supervisor {
    const info: CompiledSetup
    var waitCounts: seq<nat>
    var readyAtoms: Queues

    /** The calls so far. */
    ghost var run: seq<Event>

    /** The counts and queues are determined by the run: a count is the number of undone
        neighbours, and an atom is queued exactly when it may be handed out. */
    ghost predicate Valid()
      reads this
    {
      && Runnable(info) && IsRun(info, run)
      && Tracks(info, waitCounts, readyAtoms, run)
    }

    /** `src/runner/supervisor.rs:40-65`. */
    constructor (setup: CompiledSetup)
      requires Runnable(setup)
      ensures Valid() && run == [] && info == setup && AllSorted(readyAtoms)
    {
      var counts, queues := Initial(setup);
      info, waitCounts, readyAtoms, run := setup, counts, queues, [];
    }

    /** Marks a handed-out atom done and queues the atoms that waited for it alone
        (`src/runner/supervisor.rs:67-81`). */
    method MarkDone(id: nat)
      requires Valid() && id in Taken(run) && id !in Done(run)
      modifies this
      ensures Valid() && run == old(run) + [Finished(id)]
      ensures QueuedBehind(info, old(readyAtoms), readyAtoms, old(run), id)
    {
      MarkNeighbours(info, run, id);
      MarkBegins(info, waitCounts, readyAtoms, run, id);
      var neighbours := FullEdges(info.afterGraph, id);
      FreedIsNew(info, run, id);
      waitCounts, readyAtoms := Release(info, waitCounts, readyAtoms, neighbours, Taken(run), Done(run), id);
      MarkEnds(info, waitCounts, readyAtoms, run, id);
      waitCounts := waitCounts[id := U32_MAX];
      run := run + [Finished(id)];
    }

    /** Hands out an atom that answers `r`, with the length its queue had
        (`src/runner/supervisor.rs:193-198`). */
    method GetTask(r: AtomReq) returns (task: Option<(nat, nat)>)
      requires Valid()
      modifies this
      ensures Valid() && waitCounts == old(waitCounts)
      ensures task.None? ==> run == old(run) && readyAtoms == old(readyAtoms)
      ensures task.None? ==> forall id: nat :: id < |info.atoms| && Serves(info.atoms[id].data, r) ==>
        !Enabled(info, run, Took(id))
      ensures task.Some? ==>
        && Taking(info, old(readyAtoms), old(run), r, task.value.0, task.value.1)
        && readyAtoms == old(readyAtoms)[r := Queue(old(readyAtoms), r)[..task.value.1 - 1]]
        && run == old(run) + [Took(task.value.0)]
    {
      if r !in readyAtoms || readyAtoms[r] == [] {
        NoneQueued(info, readyAtoms, run, r);
        return None;
      }
      var queue := readyAtoms[r];
      var total := |queue|;
      var id := queue[total - 1];
      Take(info, waitCounts, readyAtoms, run, r, id, total);
      readyAtoms := readyAtoms[r := queue[..total - 1]];
      run := run + [Took(id)];
      task := Some((id, total));
    }

    /** An atom is queued exactly while it may be handed out, and under the request it answers. */
    lemma Queued(r: AtomReq, id: nat)
      requires Valid()
      ensures id in Queue(readyAtoms, r) <==>
        id < |info.atoms| && Enabled(info, run, Took(id)) && Serves(info.atoms[id].data, r)
    {
      assert QueueHolds(Requests(info), Queue(readyAtoms, r), Ready(info, run), r);
      if id < |info.atoms| { RequestServes(info.atoms[id].data, r); }
    }

    /** The atoms not yet marked done, in order (`src/runner/supervisor.rs:83-88`). */
    method IterUndone() returns (ids: seq<nat>)
      requires Valid()
      ensures StrictlySorted(ids)
      ensures forall id: nat :: id in ids <==> id < |info.atoms| && id !in Done(run)
    {
      ids := [];
      for id := 0 to |waitCounts|
        invariant StrictlySorted(ids)
        invariant forall v: nat :: v in ids <==> v < id && v !in Done(run)
      {
        assert Counted(info, waitCounts, run, id);
        CountBelowMax(info, id, Done(run));
        assert forall i :: 0 <= i < |ids| ==> ids[i] in ids;
        if waitCounts[id] != U32_MAX {
          ids := ids + [id];
        }
      }
    }
  }
}
