/** Per-process file tables that are shared after a fork and copied on the first write
    (`src/runner/fd.rs:10-14`, `src/runner/fd.rs:141-195`), inside the process table of
    `src/runner/supervisor.rs:90-191`.
 */
module FileTables {
  import opened Sequences
  import opened Model

  type Pid = int
  type Fd = int

  datatype ChildFile = Real | Mock(fd: MockFd)

  type Files = map<Fd, ChildFile>

  /** What the tables mean: every process has a table of its own. */
  type Tables = map<Pid, Files>

  datatype Fault = ProcessAlreadyTracked(pid: Pid) | ProcessNotTracked(pid: Pid)

  /** What becomes of an intercepted process creation; all but the first leave no child
      (`src/runner/supervisor.rs:151-172`). */
  datatype Creation = Created(child: Pid) | Failed(errno: int) | Rejected(errno: int)

  datatype Op =
    | Register(pid: Pid)
    | Insert(pid: Pid, fd: Fd, file: ChildFile)
    | Remove(pid: Pid, fd: Fd)
    | Fork(parent: Pid, creation: Creation)
    | Reap(pid: Pid)

  /** The effect of an operation on private tables. */
  function Apply(t: Tables, op: Op): Tables {
    match op
    case Register(pid) => if pid in t then t else t[pid := map[]]
    case Insert(pid, fd, file) => if pid in t then t[pid := t[pid][fd := file]] else t
    case Remove(pid, fd) => if pid in t then t[pid := t[pid] - {fd}] else t
    case Fork(parent, creation) =>
      if parent in t && creation.Created? && creation.child !in t then t[creation.child := t[parent]] else t
    case Reap(pid) => t - {pid}
  }

  function ApplyAll(t: Tables, ops: seq<Op>): Tables {
    if ops == [] then t else Apply(ApplyAll(t, ops[..|ops| - 1]), ops[|ops| - 1])
  }

  /** What a process finds under a descriptor. */
  function Find(t: Tables, pid: Pid, fd: Fd): Option<ChildFile> {
    if pid in t && fd in t[pid] then Some(t[pid][fd]) else None
  }

  // ----- what runs of operations leave behind

  predicate Disturbs(op: Op, pid: Pid, fd: Fd) {
    match op
    case Insert(p, f, _) => p == pid && f == fd
    case Remove(p, f) => p == pid && f == fd
    case Reap(p) => p == pid
    case _ => false
  }

  /** From operation `j` on, nothing is inserted or removed there, and the process is not reaped. */
  ghost predicate Undisturbed(ops: seq<Op>, j: nat, pid: Pid, fd: Fd) {
    forall k :: j <= k < |ops| ==> !Disturbs(ops[k], pid, fd)
  }

  /** The process was forked off with this file under the descriptor. */
  ghost predicate Inherits(before: Tables, op: Op, pid: Pid, fd: Fd, file: ChildFile) {
    && op.Fork? && op.creation == Created(pid) && op.parent in before && pid !in before
    && Find(before, op.parent, fd) == Some(file)
  }

  /** Operation `j` put the file there, for good. */
  ghost predicate Gave(t: Tables, ops: seq<Op>, j: nat, pid: Pid, fd: Fd, file: ChildFile) {
    && j < |ops| && Undisturbed(ops, j + 1, pid, fd)
    && var before := ApplyAll(t, ops[..j]);
       (ops[j] == Insert(pid, fd, file) && pid in before) || Inherits(before, ops[j], pid, fd, file)
  }

  ghost predicate GaveSome(t: Tables, ops: seq<Op>, pid: Pid, fd: Fd, file: ChildFile) {
    exists j: nat :: Gave(t, ops, j, pid, fd, file)
  }

  /** A process finds a file exactly if the last insertion there put it, or the fork that made the
      process handed it over, and nothing has disturbed it since. */
  lemma {:induction false} LookupIff(t: Tables, ops: seq<Op>, pid: Pid, fd: Fd, file: ChildFile)
    ensures Find(ApplyAll(t, ops), pid, fd) == Some(file) <==>
      (Find(t, pid, fd) == Some(file) && Undisturbed(ops, 0, pid, fd)) || GaveSome(t, ops, pid, fd, file)
    decreases |ops|
  {
    if ops != [] {
      var front, last := ops[..|ops| - 1], ops[|ops| - 1];
      LookupIff(t, front, pid, fd, file);
      LookupStep(ApplyAll(t, front), last, pid, fd, file);
      assert Undisturbed(ops, 0, pid, fd) <==> Undisturbed(front, 0, pid, fd) && !Disturbs(last, pid, fd) by {
        assert ops == front + [last];
      }
      GaveStep(t, ops, pid, fd, file);
    }
  }

  /** One operation: it gives the file, or leaves it alone. */
  lemma LookupStep(before: Tables, op: Op, pid: Pid, fd: Fd, file: ChildFile)
    ensures Find(Apply(before, op), pid, fd) == Some(file) <==>
      || (op == Insert(pid, fd, file) && pid in before) || Inherits(before, op, pid, fd, file)
      || (Find(before, pid, fd) == Some(file) && !Disturbs(op, pid, fd))
  {
  }

  lemma GaveStep(t: Tables, ops: seq<Op>, pid: Pid, fd: Fd, file: ChildFile)
    requires ops != []
    ensures var front, last := ops[..|ops| - 1], ops[|ops| - 1];
      var before := ApplyAll(t, front);
      GaveSome(t, ops, pid, fd, file) <==>
        || (GaveSome(t, front, pid, fd, file) && !Disturbs(last, pid, fd))
        || (last == Insert(pid, fd, file) && pid in before) || Inherits(before, last, pid, fd, file)
  {
    var front, last := ops[..|ops| - 1], ops[|ops| - 1];
    assert ops == front + [last];
    forall j: nat | j < |front|
      ensures Gave(t, ops, j, pid, fd, file) <==> Gave(t, front, j, pid, fd, file) && !Disturbs(last, pid, fd)
    {
      assert ops[..j] == front[..j];
      assert Undisturbed(ops, j + 1, pid, fd) <==> Undisturbed(front, j + 1, pid, fd) && !Disturbs(last, pid, fd);
    }
    assert Gave(t, ops, |front|, pid, fd, file) <==>
      (last == Insert(pid, fd, file) && pid in ApplyAll(t, front)) || Inherits(ApplyAll(t, front), last, pid, fd, file);
    if GaveSome(t, ops, pid, fd, file) {
      var j: nat :| Gave(t, ops, j, pid, fd, file);
      assert j < |front| || j == |front|;
    }
    if GaveSome(t, front, pid, fd, file) && !Disturbs(last, pid, fd) {
      var j: nat :| Gave(t, front, j, pid, fd, file);
      assert Gave(t, ops, j, pid, fd, file);
    }
  }

  ghost predicate Unreaped(ops: seq<Op>, j: nat, pid: Pid) {
    forall k :: j <= k < |ops| ==> ops[k] != Reap(pid)
  }

  /** The operation starts tracking the process. */
  ghost predicate Enters(before: Tables, op: Op, pid: Pid) {
    op == Register(pid) || (op.Fork? && op.creation == Created(pid) && op.parent in before)
  }

  ghost predicate EnteredAt(t: Tables, ops: seq<Op>, j: nat, pid: Pid) {
    j < |ops| && Unreaped(ops, j + 1, pid) && Enters(ApplyAll(t, ops[..j]), ops[j], pid)
  }

  ghost predicate EnteredSome(t: Tables, ops: seq<Op>, pid: Pid) {
    exists j: nat :: EnteredAt(t, ops, j, pid)
  }

  /** A process is tracked exactly if it was registered or forked off a tracked one, and has not been
      reaped since. */
  lemma {:induction false} TrackedIff(t: Tables, ops: seq<Op>, pid: Pid)
    ensures pid in ApplyAll(t, ops) <==> (pid in t && Unreaped(ops, 0, pid)) || EnteredSome(t, ops, pid)
    decreases |ops|
  {
    if ops != [] {
      var front, last := ops[..|ops| - 1], ops[|ops| - 1];
      assert ops == front + [last];
      TrackedIff(t, front, pid);
      assert Unreaped(ops, 0, pid) <==> Unreaped(front, 0, pid) && last != Reap(pid);
      EnteredStep(t, ops, pid);
    }
  }

  lemma EnteredStep(t: Tables, ops: seq<Op>, pid: Pid)
    requires ops != []
    ensures var front, last := ops[..|ops| - 1], ops[|ops| - 1];
      EnteredSome(t, ops, pid) <==>
        (EnteredSome(t, front, pid) && last != Reap(pid)) || Enters(ApplyAll(t, front), last, pid)
  {
    var front, last := ops[..|ops| - 1], ops[|ops| - 1];
    assert ops == front + [last];
    forall j: nat | j < |front| ensures EnteredAt(t, ops, j, pid) <==> EnteredAt(t, front, j, pid) && last != Reap(pid) {
      assert ops[..j] == front[..j];
      assert Unreaped(ops, j + 1, pid) <==> Unreaped(front, j + 1, pid) && last != Reap(pid);
    }
    assert EnteredAt(t, ops, |front|, pid) <==> Enters(ApplyAll(t, front), last, pid);
    if EnteredSome(t, ops, pid) {
      var j: nat :| EnteredAt(t, ops, j, pid);
      assert j < |front| || j == |front|;
    }
    if EnteredSome(t, front, pid) && last != Reap(pid) {
      var j: nat :| EnteredAt(t, front, j, pid);
      assert EnteredAt(t, ops, j, pid);
    }
  }

  /** The operation can change what `pid` sees. */
  predicate Touches(op: Op, pid: Pid) {
    (op.Insert? || op.Remove? || op.Reap?) && op.pid == pid
  }

  /** A process keeps its table while others change theirs. */
  lemma {:induction false} Isolated(t: Tables, ops: seq<Op>, pid: Pid)
    requires pid in t && forall k :: 0 <= k < |ops| ==> !Touches(ops[k], pid)
    ensures pid in ApplyAll(t, ops) && ApplyAll(t, ops)[pid] == t[pid]
    decreases |ops|
  {
    if ops != [] {
      Isolated(t, ops[..|ops| - 1], pid);
      assert !Touches(ops[|ops| - 1], pid);
    }
  }

  /** A child's table is the parent's at the fork, whatever the parent does afterwards. */
  lemma SnapshotAtFork(t: Tables, parent: Pid, child: Pid, ops: seq<Op>)
    requires parent in t && child !in t && forall k :: 0 <= k < |ops| ==> !Touches(ops[k], child)
    ensures child in ApplyAll(Apply(t, Fork(parent, Created(child))), ops)
    ensures ApplyAll(Apply(t, Fork(parent, Created(child))), ops)[child] == t[parent]
  {
    Isolated(Apply(t, Fork(parent, Created(child))), ops, child);
  }

  /** A shared, counted cell: the source's `Arc<HashMap<RawFd, ChildFile>>`. */
  class Cell {
    var files: Files
    var strong: nat

    constructor (files: Files)
      ensures this.files == files && strong == 1
    {
      this.files, strong := files, 1;
    }
  }

  ghost function Holders(procs: map<Pid, Cell>, c: Cell): set<Pid> {
    set pid | pid in procs && procs[pid] == c
  }

  class ProcessTable {
    var procs: map<Pid, Cell>

    /** Every cell in the table counts its holders, and one more for `handle`. */
    ghost predicate Counts(handle: Cell?)
      reads this, procs.Values
    {
      forall pid :: pid in procs ==>
        procs[pid].strong == |Holders(procs, procs[pid])| + (if procs[pid] == handle then 1 else 0)
    }

    ghost predicate Valid()
      reads this, procs.Values
    {
      Counts(null)
    }

    /** The table each process sees. */
    ghost function View(): Tables
      reads this, procs.Values
    {
      map pid | pid in procs :: procs[pid].files
    }

    constructor ()
      ensures Valid() && View() == map[]
    {
      procs := map[];
    }

    /** `src/runner/supervisor.rs:90-92`. */
    method Lookup(pid: Pid, fd: Fd) returns (file: Option<ChildFile>)
      requires Valid()
      ensures file == Find(View(), pid, fd)
    {
      if pid !in procs { return None; }
      var files := procs[pid].files;
      file := if fd in files then Some(files[fd]) else None;
    }

    /** A holder of a cell counted once is its only holder. */
    lemma OnlyHolder(pid: Pid, other: Pid)
      requires Valid() && pid in procs && other in procs && procs[pid].strong == 1 && procs[other] == procs[pid]
      ensures other == pid
    {
      assert {pid, other} <= Holders(procs, procs[pid]);
      SubsetCount({pid, other}, Holders(procs, procs[pid]));
    }

    /** `Arc::make_mut`: the process gets a cell of its own, copying a shared one. */
    method MakeMut(pid: Pid)
      requires Valid() && pid in procs
      modifies this, procs.Values
      ensures Valid() && View() == old(View()) && procs.Keys == old(procs.Keys)
      ensures procs[pid].strong == 1 && (procs[pid] in old(procs.Values) || fresh(procs[pid]))
      ensures procs.Values <= old(procs.Values) + {procs[pid]}
    {
      var shared := procs[pid];
      if shared.strong == 1 {
        return;
      }
      assert pid in Holders(procs, shared);
      var own := new Cell(shared.files);
      shared.strong := shared.strong - 1;
      procs := procs[pid := own];
      assert Holders(procs, own) == {pid};
      assert Holders(procs, shared) == old(Holders(procs, procs[pid])) - {pid};
      forall p | p in procs ensures procs[p].strong == |Holders(procs, procs[p])| {
        if procs[p] != own && procs[p] != shared {
          assert Holders(procs, procs[p]) == old(Holders(procs, procs[p]));
        }
      }
    }

    /** Records a file (`src/runner/fd.rs:167`, `src/runner/fd.rs:185`). */
    method InsertFile(pid: Pid, fd: Fd, file: ChildFile)
      requires Valid() && pid in procs
      modifies this, procs.Values
      ensures Valid() && View() == Apply(old(View()), Insert(pid, fd, file))
      ensures View().Keys == old(View()).Keys && fd in View()[pid] && View()[pid][fd] == file
      ensures forall p, f :: Find(View(), p, f) == if p == pid && f == fd then Some(file) else Find(old(View()), p, f)
      ensures forall c :: c in procs.Values ==> c in old(procs.Values) || fresh(c)
    {
      MakeMut(pid);
      Overwrite(pid, procs[pid].files[fd := file]);
    }

    /** Forgets a file (`src/runner/fd.rs:192-194`). */
    method RemoveFile(pid: Pid, fd: Fd) returns (file: Option<ChildFile>)
      requires Valid() && pid in procs
      modifies this, procs.Values
      ensures Valid() && View() == Apply(old(View()), Remove(pid, fd))
      ensures View().Keys == old(View()).Keys && fd !in View()[pid]
      ensures forall p, f :: Find(View(), p, f) == if p == pid && f == fd then None else Find(old(View()), p, f)
      ensures file == Find(old(View()), pid, fd)
      ensures forall c :: c in procs.Values ==> c in old(procs.Values) || fresh(c)
    {
      MakeMut(pid);
      var files := procs[pid].files;
      file := if fd in files then Some(files[fd]) else None;
      Overwrite(pid, files - {fd});
    }

    /** Writing through an unshared cell changes one process only. */
    method Overwrite(pid: Pid, files: Files)
      requires Valid() && pid in procs && procs[pid].strong == 1
      modifies procs[pid]
      ensures Valid() && View() == old(View())[pid := files]
    {
      forall p | p in procs && p != pid ensures procs[p] != procs[pid] {
        if procs[p] == procs[pid] { OnlyHolder(pid, p); }
      }
      procs[pid].files := files;
    }

    /** Gives up one handle on a cell. */
    method Drop(handle: Cell)
      requires Counts(handle) && handle.strong == |Holders(procs, handle)| + 1
      modifies handle`strong
      ensures Valid() && View() == old(View())
    {
      handle.strong := handle.strong - 1;
    }

    /** Enters a process, or gives the handle up if its pid is taken
        (`src/runner/supervisor.rs:94-102`). */
    method RegisterProcess(pid: Pid, handle: Cell) returns (r: Result<(), Fault>)
      requires Counts(handle) && handle.strong == |Holders(procs, handle)| + 1
      modifies this, handle`strong
      ensures Valid()
      ensures r == if pid in old(View()) then Err(ProcessAlreadyTracked(pid)) else Ok(())
      ensures View() == if pid in old(View()) then old(View()) else old(View())[pid := old(handle.files)]
      ensures procs.Values <= old(procs.Values) + {handle}
    {
      if pid in procs {
        Drop(handle);
        return Err(ProcessAlreadyTracked(pid));
      }
      procs := procs[pid := handle];
      assert Holders(procs, handle) == old(Holders(procs, handle)) + {pid};
      forall p | p in procs ensures procs[p].strong == |Holders(procs, procs[p])| {
        if procs[p] != handle {
          assert Holders(procs, procs[p]) == old(Holders(procs, procs[p]));
        }
      }
      r := Ok(());
    }

    /** Enters a process with an empty table. */
    method RegisterNew(pid: Pid) returns (r: Result<(), Fault>)
      requires Valid()
      modifies this
      ensures Valid() && View() == Apply(old(View()), Register(pid))
      ensures View() == if pid in old(View()) then old(View()) else old(View())[pid := map[]]
      ensures r.Ok? <==> pid !in old(View())
      ensures forall c :: c in procs.Values ==> c in old(procs.Values) || fresh(c)
    {
      var cell := new Cell(map[]);
      assert Holders(procs, cell) == {};
      r := RegisterProcess(pid, cell);
    }

    /** A process creation: the child shares the parent's cell
        (`src/runner/supervisor.rs:141-180`). */
    method HandleCreation(parent: Pid, creation: Creation) returns (r: Result<Creation, Fault>)
      requires Valid()
      modifies this, procs.Values
      ensures Valid() && View() == Apply(old(View()), Fork(parent, creation))
      ensures r == if parent !in old(View()) then Err(ProcessNotTracked(parent))
                   else if creation.Created? && creation.child in old(View()) then Err(ProcessAlreadyTracked(creation.child))
                   else Ok(creation)
      ensures View() == if r.Ok? && creation.Created? then old(View())[creation.child := old(View())[parent]] else old(View())
      ensures forall c :: c in procs.Values ==> c in old(procs.Values) || fresh(c)
    {
      if parent !in procs {
        return Err(ProcessNotTracked(parent));
      }
      var handle := procs[parent];
      handle.strong := handle.strong + 1;
      match creation {
        case Created(child) =>
          var registered := RegisterProcess(child, handle);
          r := if registered.Ok? then Ok(creation) else Err(registered.error);
        case _ =>
          Drop(handle);
          r := Ok(creation);
      }
    }

    /** An exited process leaves the table (`src/runner/supervisor.rs:184-191`). */
    method ReapExited(pid: Pid)
      requires Valid()
      modifies this, procs.Values
      ensures Valid() && View() == Apply(old(View()), Reap(pid))
      ensures View().Keys == old(View()).Keys - {pid} && forall p :: p in View() ==> View()[p] == old(View())[p]
      ensures procs.Values <= old(procs.Values)
    {
      if pid !in procs {
        assert View() - {pid} == View();
        return;
      }
      var cell := procs[pid];
      assert pid in Holders(procs, cell);
      cell.strong := cell.strong - 1;
      procs := procs - {pid};
      assert Holders(procs, cell) == old(Holders(procs, procs[pid])) - {pid};
      forall p | p in procs ensures procs[p].strong == |Holders(procs, procs[p])| {
        if procs[p] != cell {
          assert Holders(procs, procs[p]) == old(Holders(procs, procs[p]));
        }
      }
    }

    /** One operation; those on a process that is not tracked do nothing. */
    method Perform(op: Op)
      requires Valid()
      modifies this, procs.Values
      ensures Valid() && View() == Apply(old(View()), op)
      ensures forall c :: c in procs.Values ==> c in old(procs.Values) || fresh(c)
    {
      match op {
        case Register(pid) => var _ := RegisterNew(pid);
        case Insert(pid, fd, file) => if pid in procs { InsertFile(pid, fd, file); }
        case Remove(pid, fd) => if pid in procs { var _ := RemoveFile(pid, fd); }
        case Fork(parent, creation) => var _ := HandleCreation(parent, creation);
        case Reap(pid) => ReapExited(pid);
      }
    }

    /** Whatever cells are shared along the way, every run of operations has the effect it would
        have on private tables. */
    method PerformAll(ops: seq<Op>)
      requires Valid()
      modifies this, procs.Values
      ensures Valid() && View() == ApplyAll(old(View()), ops)
    {
      for k := 0 to |ops|
        invariant Valid() && View() == ApplyAll(old(View()), ops[..k])
        invariant forall c :: c in procs.Values ==> c in old(procs.Values) || fresh(c)
      {
        Perform(ops[k]);
        assert ops[..k + 1][..k] == ops[..k];
      }
      assert ops[..|ops|] == ops;
    }
  }
}
