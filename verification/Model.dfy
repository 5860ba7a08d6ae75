/** Tasks, atoms and compiled setups (`src/model.rs:6-81`). */
module Model {
  import opened Sequences
  import opened VecGraphs

  type Text = string

  datatype MockFd = MockFd(id: nat)
  datatype IpFamily = V4 | V6
  datatype ShutdownHow = ShutRead | ShutWrite | ShutBoth
  datatype SocketAddr = SocketAddr(family: IpFamily, host: nat, port: nat)

  datatype AtomData =
    | Open(file: MockFd, path: Text)
    | TcpSocket(family: IpFamily)
    | Bind(file: MockFd, address: SocketAddr)
    | Listen(file: MockFd, backlog: int)
    | Connect(file: MockFd, address: SocketAddr)
    | Accept(file: MockFd)
    | Shutdown(file: MockFd, how: ShutdownHow)
    | Read(file: MockFd, expected: Text, size: nat)
    | Write(file: MockFd, text: Text, size: nat)
    | Close(file: MockFd)
    | DebugName(name: Text)

  datatype Atom = Atom(data: AtomData, error: Option<nat>)

  datatype Task =
    | AtomTask(atom: Atom)
    | Ordered(children: seq<nat>)
    | Unordered(children: seq<nat>)

  datatype TaskInfo = TaskInfo(tasks: seq<Task>, happensBefore: map<nat, seq<nat>>, fileCount: nat)

  /** Atoms in a topological order, and the edges between their positions. */
  datatype CompiledSetup = CompiledSetup(
    atoms: seq<Atom>, fileCount: nat, afterGraph: VecGraph, beforeGraph: VecGraph)

  const U32_MAX: nat := 0xFFFF_FFFF

  function Children(task: Task): seq<nat> {
    if task.AtomTask? then [] else task.children
  }

  /** Task ids are 32-bit, and every id that is mentioned names a task: the source indexes its
      tables with them. */
  ghost predicate WellFormed(info: TaskInfo) {
    && |info.tasks| <= U32_MAX
    && (forall t, k :: 0 <= t < |info.tasks| && 0 <= k < |Children(info.tasks[t])| ==>
          Children(info.tasks[t])[k] < |info.tasks|)
    && (forall u: nat :: u in info.happensBefore ==> u < |info.tasks|)
    && (forall u: nat, k :: u in info.happensBefore && 0 <= k < |info.happensBefore[u]| ==>
          info.happensBefore[u][k] < |info.tasks|)
  }
}
