/** The page buffer and the readers of another process's memory (`src/buffer.rs:7-344`). */
module PageBuffers {
  import opened Sequences

  const MAX_PATH: nat := 4096
  const ADDRESSES: nat := 0x1_0000_0000_0000_0000

  newtype byte = x: int | 0 <= x < 256

  /** The mapped bytes of the other process. */
  type Memory = map<nat, byte>

  datatype Errno = EFAULT | ENAMETOOLONG

  /** `ProcessCopyError`: an error of the caller's arguments, or another failure. */
  datatype CopyError = Errno(errno: Errno) | Io

  // ----- what the readers are for

  predicate Mapped(mem: Memory, address: nat, len: nat) {
    forall i :: address <= i < address + len ==> i in mem
  }

  function Bytes(mem: Memory, address: nat, len: nat): (b: seq<byte>)
    requires Mapped(mem, address, len)
    ensures |b| == len && forall i :: 0 <= i < len ==> b[i] == mem[address + i]
  {
    seq(len, i requires 0 <= i < len => mem[address + i])
  }

  /** `n` mapped bytes, none of them NUL. */
  ghost predicate Text(mem: Memory, address: nat, n: nat) {
    forall i :: address <= i < address + n ==> i in mem && mem[i] != 0
  }

  /** `n` bytes of text, then a NUL. */
  ghost predicate PathAt(mem: Memory, address: nat, n: nat) {
    Text(mem, address, n) && address + n in mem && mem[address + n] == 0
  }

  /** Some byte within reach is missing, and no NUL comes before it. */
  ghost predicate HoleAt(mem: Memory, address: nat, n: nat) {
    n < MAX_PATH && Text(mem, address, n) && address + n !in mem
  }

  /** The simple reader: byte after byte. */
  ghost function Scan(mem: Memory, address: nat, k: nat): (r: Result<nat, Errno>)
    requires k <= MAX_PATH
    decreases MAX_PATH - k
  {
    if k == MAX_PATH then Err(ENAMETOOLONG)
    else if address + k !in mem then Err(EFAULT)
    else if mem[address + k] == 0 then Ok(k)
    else Scan(mem, address, k + 1)
  }

  lemma {:induction false} ScanMeans(mem: Memory, address: nat, k: nat)
    requires k <= MAX_PATH && Text(mem, address, k)
    ensures match Scan(mem, address, k)
      case Ok(n) => n < MAX_PATH && PathAt(mem, address, n)
      case Err(ENAMETOOLONG) => Text(mem, address, MAX_PATH)
      case Err(EFAULT) => exists n: nat :: HoleAt(mem, address, n)
    decreases MAX_PATH - k
  {
    if k < MAX_PATH {
      if address + k !in mem {
        assert HoleAt(mem, address, k);
      } else if mem[address + k] != 0 {
        ScanMeans(mem, address, k + 1);
      }
    }
  }

  /** What the byte-wise scan finds, both ways: a path, a range full of text, or a hole. */
  lemma ScanExactly(mem: Memory, address: nat)
    ensures forall n: nat :: Scan(mem, address, 0) == Ok(n) <==> n < MAX_PATH && PathAt(mem, address, n)
    ensures Scan(mem, address, 0) == Err(ENAMETOOLONG) <==> Text(mem, address, MAX_PATH)
    ensures Scan(mem, address, 0) == Err(EFAULT) <==> exists n: nat :: HoleAt(mem, address, n)
  {
    ScanMeans(mem, address, 0);
    forall n: nat | n < MAX_PATH && PathAt(mem, address, n) ensures Scan(mem, address, 0) == Ok(n) {
      ScanFrom(mem, address, 0, n);
    }
    if Text(mem, address, MAX_PATH) {
      ScanFrom(mem, address, 0, MAX_PATH);
    }
    if n: nat :| HoleAt(mem, address, n) {
      ScanFrom(mem, address, 0, n);
    }
  }

  /** What a path copy returns: nothing in the last page can be read, because the end of that page
      is not an address. */
  ghost function PathResult(mem: Memory, address: nat): Result<nat, Errno> {
    if address + MAX_PATH >= ADDRESSES then Err(EFAULT) else Scan(mem, address, 0)
  }

  /** So the reader gives the scan's answer exactly outside the last page, or where the scan faults too. */
  lemma AgreesIff(mem: Memory, address: nat)
    ensures PathResult(mem, address) == Scan(mem, address, 0) <==>
      address + MAX_PATH < ADDRESSES || Scan(mem, address, 0) == Err(EFAULT)
    ensures address + MAX_PATH >= ADDRESSES ==> PathResult(mem, address) == Err(EFAULT)
  {
  }

  /** An empty path at the very last address: the scan finds it, the reader faults. */
  lemma LastPageDiffers()
    ensures var address := ADDRESSES - 1;
      var mem: Memory := map[address := 0];
      Scan(mem, address, 0) == Ok(0) && PathResult(mem, address) == Err(EFAULT)
  {
  }

  const LAST_PAGE: nat := ADDRESSES - MAX_PATH

  /** Over one memory the two agree at every address exactly when the last page holds no NUL and is
      not mapped as a whole; a page that is not mapped at all is the usual case. */
  lemma AgreesEverywhereIff(mem: Memory)
    requires forall a :: a in mem ==> a < ADDRESSES
    ensures (forall address: nat :: address < ADDRESSES ==> PathResult(mem, address) == Scan(mem, address, 0)) <==>
      !Mapped(mem, LAST_PAGE, MAX_PATH) && forall a :: LAST_PAGE <= a < ADDRESSES && a in mem ==> mem[a] != 0
  {
    if !Mapped(mem, LAST_PAGE, MAX_PATH) && forall a :: LAST_PAGE <= a < ADDRESSES && a in mem ==> mem[a] != 0 {
      forall address: nat | LAST_PAGE <= address < ADDRESSES ensures Scan(mem, address, 0) == Err(EFAULT) {
        FaultsInLastPage(mem, address);
      }
    } else if Mapped(mem, LAST_PAGE, MAX_PATH) && forall a :: LAST_PAGE <= a < ADDRESSES && a in mem ==> mem[a] != 0 {
      ScanFrom(mem, LAST_PAGE, 0, MAX_PATH);
      assert PathResult(mem, LAST_PAGE) != Scan(mem, LAST_PAGE, 0);
    } else {
      var a: nat :| LAST_PAGE <= a < ADDRESSES && a in mem && mem[a] == 0;
      assert PathResult(mem, a) != Scan(mem, a, 0);
    }
  }

  lemma FaultsInLastPage(mem: Memory, address: nat)
    requires forall a :: a in mem ==> a < ADDRESSES
    requires !Mapped(mem, LAST_PAGE, MAX_PATH) && forall a :: LAST_PAGE <= a < ADDRESSES && a in mem ==> mem[a] != 0
    requires LAST_PAGE <= address < ADDRESSES
    ensures Scan(mem, address, 0) == Err(EFAULT)
  {
    ScanMeans(mem, address, 0);
    assert Text(mem, address, MAX_PATH) ==> address + MAX_PATH - 1 in mem && Mapped(mem, address, MAX_PATH);
  }

  // ----- the system call

  datatype ReadResult = Count(bytes: seq<byte>) | Faulted | Denied

  /** `process_vm_readv` for one range: some bytes from the front of the range, possibly fewer than
      asked for; a fault if the first byte is missing.  A process that is gone or may not be read
      gives another failure. */
  method ProcessVmReadv(mem: Memory, alive: bool, address: nat, len: nat) returns (r: ReadResult)
    ensures r.Count? ==> |r.bytes| <= len && Mapped(mem, address, |r.bytes|) && r.bytes == Bytes(mem, address, |r.bytes|)
    ensures r.Count? && alive && len > 0 ==> r.bytes != []
    ensures r.Faulted? ==> len > 0 && address !in mem
    ensures r.Denied? ==> !alive
  {
    if !alive {
      return Denied;
    }
    if len == 0 {
      return Count([]);
    }
    if address !in mem {
      return Faulted;
    }
    var k: nat :| 1 <= k <= len && Mapped(mem, address, k);
    r := Count(Bytes(mem, address, k));
  }

  /** One read at `address + offset` (`src/buffer.rs:307-344`). */
  method ReadOnce(mem: Memory, alive: bool, address: nat, offset: nat, len: nat) returns (r: Result<seq<byte>, CopyError>)
    requires address < ADDRESSES
    ensures r.Ok? ==> |r.value| <= len && Mapped(mem, address + offset, |r.value|)
    ensures r.Ok? ==> r.value == Bytes(mem, address + offset, |r.value|)
    ensures r.Ok? ==> address + offset + len < ADDRESSES && (len > 0 ==> r.value != [])
    ensures r.Err? && r.error.Errno? ==> r.error.errno == EFAULT
    ensures r.Err? && r.error.Errno? ==> address + offset + len >= ADDRESSES || (len > 0 && address + offset !in mem)
    ensures r == Err(Io) ==> !alive
  {
    if address + offset >= ADDRESSES || address + offset + len >= ADDRESSES {
      return Err(Errno(EFAULT));
    }
    var read := ProcessVmReadv(mem, alive, address + offset, len);
    match read {
      case Faulted => r := Err(Errno(EFAULT));
      case Denied => r := Err(Io);
      case Count(bytes) => r := if bytes == [] && len != 0 then Err(Io) else Ok(bytes);
    }
  }

  /** The bytes of a buffer; those never written are `None`, as in `MaybeUninit`. */
  type Storage = seq<Option<byte>>

  /** What `bytes` looks like once written at `at`. */
  function Written(data: Storage, at: nat, bytes: seq<byte>): (r: Storage)
    requires at + |bytes| <= |data|
    ensures |r| == |data|
    ensures forall i :: 0 <= i < |bytes| ==> r[at + i] == Some(bytes[i])
    ensures forall i :: 0 <= i < |data| && !(at <= i < at + |bytes|) ==> r[i] == data[i]
  {
    seq(|data|, i requires 0 <= i < |data| => if at <= i < at + |bytes| then Some(bytes[i - at]) else data[i])
  }

  /** The first `n` bytes of the storage are the `n` bytes at `address`. */
  ghost predicate Holds(data: Storage, mem: Memory, address: nat, n: nat) {
    && n <= |data| && Mapped(mem, address, n)
    && forall i :: 0 <= i < n ==> data[i] == Some(mem[address + i])
  }

  /** Where the first NUL is (`iter().position`). */
  method FirstNul(bytes: seq<byte>) returns (at: Option<nat>)
    ensures at.None? ==> forall i :: 0 <= i < |bytes| ==> bytes[i] != 0
    ensures at.Some? ==> at.value < |bytes| && bytes[at.value] == 0 && forall i :: 0 <= i < at.value ==> bytes[i] != 0
  {
    for i := 0 to |bytes|
      invariant forall j :: 0 <= j < i ==> bytes[j] != 0
    {
      if bytes[i] == 0 { return Some(i); }
    }
    at := None;
  }

  lemma {:induction false} ScanFrom(mem: Memory, address: nat, j: nat, k: nat)
    requires j <= k <= MAX_PATH && Text(mem, address, k)
    ensures Scan(mem, address, j) == Scan(mem, address, k)
    decreases k - j
  {
    if j < k { ScanFrom(mem, address, j + 1, k); }
  }

  /** Writing the next chunk extends what the storage holds. */
  lemma ChunkHeld(data: Storage, mem: Memory, address: nat, copied: nat, bytes: seq<byte>)
    requires Holds(data, mem, address, copied) && copied + |bytes| <= |data|
    requires Mapped(mem, address + copied, |bytes|) && bytes == Bytes(mem, address + copied, |bytes|)
    ensures Holds(Written(data, copied, bytes), mem, address, copied + |bytes|)
  {
    var data' := Written(data, copied, bytes);
    forall i | 0 <= i < copied + |bytes| ensures address + i in mem && data'[i] == Some(mem[address + i]) {
      if i >= copied {
        assert data'[copied + (i - copied)] == Some(bytes[i - copied]);
      }
    }
  }

  /** A chunk without NUL in its first `n` bytes extends the text. */
  lemma ChunkText(mem: Memory, address: nat, copied: nat, bytes: seq<byte>, n: nat)
    requires Text(mem, address, copied) && n <= |bytes| && forall i :: 0 <= i < n ==> bytes[i] != 0
    requires Mapped(mem, address + copied, |bytes|) && bytes == Bytes(mem, address + copied, |bytes|)
    ensures Text(mem, address, copied + n)
    ensures n < |bytes| ==> address + copied + n in mem && mem[address + copied + n] == bytes[n]
  {
    forall i | address <= i < address + copied + n ensures i in mem && mem[i] != 0 {
      if i >= address + copied {
        assert bytes[i - address - copied] == mem[address + copied + (i - address - copied)];
      }
    }
  }

  /** Up to the end of the page, or of the path range (`src/buffer.rs:291-292`).  A path range leaves
      the address space exactly when it starts in the last page, and then its first chunk does. */
  function ChunkLength(address: nat, copied: nat): (len: nat)
    requires address < ADDRESSES && copied < MAX_PATH
    ensures 0 < len <= MAX_PATH - copied
    ensures (address + copied) % MAX_PATH + len <= MAX_PATH
    ensures len == MAX_PATH - copied || (address + copied + len) % MAX_PATH == 0
    ensures copied == 0 && address + MAX_PATH >= ADDRESSES ==> address + len == ADDRESSES
  {
    var pageRemaining := MAX_PATH - (address + copied) % MAX_PATH;
    if pageRemaining < MAX_PATH - copied then pageRemaining else MAX_PATH - copied
  }

  /** Page-wise reading of a NUL-terminated path (`src/buffer.rs:279-305`): however the reads are
      cut short, it finds what the byte-wise scan finds. */
  method ReadCPath(mem: Memory, alive: bool, address: nat, data: Storage) returns (r: Result<nat, CopyError>, data': Storage)
    requires address < ADDRESSES && |data| >= MAX_PATH
    ensures |data'| == |data|
    ensures r.Ok? ==> PathResult(mem, address) == Ok(r.value) && Holds(data', mem, address, r.value)
    ensures r.Err? && r.error.Errno? ==> PathResult(mem, address) == Err(r.error.errno)
    ensures r.Ok? ==> Scan(mem, address, 0) == Ok(r.value)
    ensures r.Err? && r.error.Errno? ==> (Scan(mem, address, 0) == Err(r.error.errno) <==>
      address + MAX_PATH < ADDRESSES || Scan(mem, address, 0) == Err(EFAULT))
    ensures r == Err(Io) ==> !alive
  {
    AgreesIff(mem, address);
    data' := data;
    var copied := 0;
    while copied < MAX_PATH
      invariant copied <= MAX_PATH && |data'| == |data|
      invariant Holds(data', mem, address, copied)
      invariant Text(mem, address, copied)
      invariant copied > 0 ==> address + MAX_PATH < ADDRESSES
    {
      ScanFrom(mem, address, 0, copied);
      if address + copied >= ADDRESSES {
        return Err(Errno(EFAULT)), data';
      }
      var len := ChunkLength(address, copied);
      var read := ReadOnce(mem, alive, address, copied, len);
      if read.Err? {
        return Err(read.error), data';
      }
      ChunkHeld(data', mem, address, copied, read.value);
      data' := Written(data', copied, read.value);
      var nul := FirstNul(read.value);
      ChunkText(mem, address, copied, read.value, if nul.Some? then nul.value else |read.value|);
      if nul.Some? {
        ScanFrom(mem, address, 0, copied + nul.value);
        return Ok(copied + nul.value), data';
      }
      copied := copied + |read.value|;
    }
    ScanFrom(mem, address, 0, MAX_PATH);
    r := Err(Errno(ENAMETOOLONG));
  }

  /** Reads exactly `len` bytes (`src/buffer.rs:261-277`). */
  method ReadMemory(mem: Memory, alive: bool, address: nat, data: Storage, len: nat)
    returns (r: Result<nat, CopyError>, data': Storage)
    requires address < ADDRESSES && len <= |data|
    ensures |data'| == |data|
    ensures r.Ok? ==> r.value == len && Holds(data', mem, address, len) && (len > 0 ==> address + len < ADDRESSES)
    ensures r.Err? && r.error.Errno? ==> r.error.errno == EFAULT
    ensures r.Err? && r.error.Errno? ==> len > 0 && (address + len >= ADDRESSES || !Mapped(mem, address, len))
    ensures r == Err(Io) ==> !alive
  {
    data' := data;
    var copied := 0;
    while copied < len
      invariant copied <= len && |data'| == |data|
      invariant Holds(data', mem, address, copied)
      invariant copied > 0 ==> address + len < ADDRESSES
    {
      var read := ReadOnce(mem, alive, address, copied, len - copied);
      if read.Err? {
        return Err(read.error), data';
      }
      ChunkHeld(data', mem, address, copied, read.value);
      data' := Written(data', copied, read.value);
      copied := copied + |read.value|;
    }
    r := Ok(copied);
  }

  /** `PageBuffer`: whole pages of storage of which the first `len` bytes are initialised. */
  class PageBuffer {
    var data: Storage
    var len: nat

    ghost predicate Valid()
      reads this
    {
      && |data| >= MAX_PATH && |data| % MAX_PATH == 0
      && len <= |data|
      && forall i :: 0 <= i < len ==> data[i].Some?
    }

    ghost function Contents(): (b: seq<byte>)
      requires Valid()
      reads this
      ensures |b| == len && forall i :: 0 <= i < len ==> data[i] == Some(b[i])
    {
      seq(len, i requires 0 <= i < len && Valid() reads this => data[i].value)
    }

    constructor ()
      ensures Valid() && Contents() == [] && |data| == MAX_PATH
    {
      data, len := seq(MAX_PATH, _ => None), 0;
    }

    /** `src/buffer.rs:104-116`. */
    method Truncate(n: nat)
      requires Valid()
      modifies this
      ensures Valid() && |data| == old(|data|)
      ensures Contents() == if n >= old(len) then old(Contents()) else old(Contents())[..n]
      ensures n < old(len) ==> forall i :: n <= i < |data| ==> data[i] == None
    {
      if n >= len {
        return;
      }
      data := seq(|data|, i requires 0 <= i < |data| reads this => if i < n then data[i] else None);
      len := n;
    }

    /** Grows by whole pages and keeps the contents (`src/buffer.rs:231-242`). */
    method EnsureCapacity(capacity: nat)
      requires Valid()
      modifies this`data
      ensures Valid() && Contents() == old(Contents())
      ensures |data| >= capacity && |data| >= old(|data|)
      ensures capacity <= old(|data|) ==> data == old(data)
      ensures capacity > old(|data|) ==> |data| < capacity + MAX_PATH
    {
      if capacity <= |data| {
        return;
      }
      var pageCount := (capacity + MAX_PATH - 1) / MAX_PATH;
      var size := pageCount * MAX_PATH;
      data := seq(size, i requires 0 <= i < size reads this => if i < len && i < |data| then data[i] else None);
    }

    /** A path from another process, without its NUL; empty on error (`src/buffer.rs:165-177`). */
    method CopyFromProcessCPath(mem: Memory, alive: bool, address: nat) returns (r: Result<(), CopyError>)
      requires Valid() && address < ADDRESSES
      modifies this
      ensures Valid() && |data| == old(|data|)
      ensures r.Ok? ==> PathResult(mem, address) == Ok(len)
      ensures r.Ok? ==> Mapped(mem, address, len) && Contents() == Bytes(mem, address, len)
      ensures r.Err? ==> Contents() == []
      ensures r.Err? && r.error.Errno? ==> PathResult(mem, address) == Err(r.error.errno)
      ensures r.Ok? ==> Scan(mem, address, 0) == Ok(len)
      ensures r.Err? && r.error.Errno? ==> (Scan(mem, address, 0) == Err(r.error.errno) <==>
        address + MAX_PATH < ADDRESSES || Scan(mem, address, 0) == Err(EFAULT))
      ensures r == Err(Io) ==> !alive
    {
      Truncate(0);
      var read, data' := ReadCPath(mem, alive, address, data);
      data := data';
      if read.Err? {
        return Err(read.error);
      }
      ScanBound(mem, address, 0);
      len := read.value;
      r := Ok(());
    }

    /** `len` bytes from another process; empty on error (`src/buffer.rs:179-194`). */
    method CopyFromProcessBytes(mem: Memory, alive: bool, address: nat, n: nat) returns (r: Result<(), CopyError>)
      requires Valid() && address < ADDRESSES
      modifies this
      ensures Valid()
      ensures r.Ok? ==> len == n && Mapped(mem, address, n) && Contents() == Bytes(mem, address, n)
      ensures r.Err? ==> Contents() == []
      ensures r.Err? && r.error.Errno? ==>
        r.error.errno == EFAULT && n > 0 && (address + n >= ADDRESSES || !Mapped(mem, address, n))
      ensures r == Err(Io) ==> !alive
    {
      Truncate(0);
      EnsureCapacity(n);
      var read, data' := ReadMemory(mem, alive, address, data, n);
      data := data';
      if read.Err? {
        return Err(read.error);
      }
      len := read.value;
      r := Ok(());
    }
  }

  lemma {:induction false} ScanBound(mem: Memory, address: nat, k: nat)
    requires k <= MAX_PATH
    ensures Scan(mem, address, k).Ok? ==> Scan(mem, address, k).value < MAX_PATH
    decreases MAX_PATH - k
  {
    if k < MAX_PATH { ScanBound(mem, address, k + 1); }
  }
}
