// Growable input and output buffers over blocks of the pool. The base class and its two
// subclasses of the source are one class here.

module ReactorBufs {
  import opened Framing
  import opened IOBufs
  import opened BufPools

  // What the kernel answers to FIONREAD and to the read that follows: the bytes that were
  // announced, none when the peer has closed; or bytes that came after none had been
  // announced, of which the read takes up to 4096.
  datatype Wire =
    | IoctlFailed
    | ReadFailed(announced: nat)
    | Available(bytes: seq<byte>)
    | Late(bytes: seq<byte>)

  // What the kernel answers to write.
  datatype Written = Error | Again | Accepted(count: nat)

  const LARGEST_KB := 8192

  class ReactorBuf {
    const pool: BufPool
    var buf: IOBuf?

    ghost function Footprint(): set<object>
      reads this, pool
    {
      {this, pool} + pool.Reserve() + if buf == null then {} else {buf, buf.data}
    }

    ghost predicate Valid()
      reads this, pool, pool.Free(), buf
    {
      pool.Intact() && (buf != null ==> buf in pool.lent && buf.Valid())
    }

    ghost function Content(): seq<byte>
      requires Valid()
      reads this, pool, pool.Free(), buf, if buf == null then {} else {buf.data}
    {
      if buf == null then [] else buf.Content()
    }

    // The unprocessed bytes start the block, as two assertions of the source demand.
    ghost predicate AtFront()
      reads this, buf
    {
      buf != null ==> buf.head == 0
    }

    // The block in use is the only one that may have been borrowed or given back.
    twostate predicate Swapped()
      reads this, pool
    {
      && (forall o :: o in Footprint() ==> o in old(Footprint()) || fresh(o))
      && pool.lent == old(pool.lent) - (if old(buf) == null then {} else {old(buf)})
                      + (if buf == null then {} else {buf})
      && (buf != null && buf != old(buf) ==> buf !in old(pool.lent))
    }

    // A buffer is not a block, so the pool does not depend on it.
    lemma Apart()
      ensures forall b: IOBuf :: b in pool.Free() ==> b as object != this
    {
    }

    // Another buffer on the same pool does not notice an operation on this one.
    twostate lemma Bystander(other: ReactorBuf)
      requires other.pool == pool && other != this
      requires old(other.Valid()) && Valid() && Swapped()
      requires old(other.buf) != null ==> old(other.buf) != old(buf)
      requires unchanged(other)
      requires other.buf != null ==> unchanged(other.buf) && unchanged(other.buf.data)
      ensures other.Valid() && other.Content() == old(other.Content()) && other.AtFront() == old(other.AtFront())
      ensures other.buf != null ==> other.buf != buf
      ensures forall o :: o in other.Footprint() ==> o in old(other.Footprint()) || o in old(Footprint()) || fresh(o)
    {
      hide BufPool.Intact;
      assert forall o :: o in other.Footprint() ==> o in Footprint() || o in old(other.Footprint());
    }

    // There was not even room for one more block of the largest class.
    twostate predicate Starved()
      reads pool
    {
      old(pool.totalMem) + LARGEST_KB >= EXTRA_MEM_LIMIT
    }

    constructor (pool: BufPool)
      requires pool.Intact()
      ensures this.pool == pool && Valid() && buf == null
    {
      this.pool := pool;
      buf := null;
    }

    function Length(): (n: nat)
      requires Valid()
      reads this, pool, pool.Free(), buf, if buf == null then {} else {buf.data}
      ensures n == |Content()|
    {
      if buf != null then buf.length else 0
    }

    // The first n unprocessed bytes behind the pointer that data() returns.
    function Data(n: nat): (bytes: seq<byte>)
      requires Valid() && n <= |Content()|
      reads this, pool, pool.Free(), buf, if buf == null then {} else {buf.data}
      ensures bytes == Content()[..n]
    {
      if buf == null then [] else buf.data[buf.head..buf.head + n]
    }

    method Pop(len: nat)
      requires Valid() && buf != null && len <= buf.length
      modifies Footprint()
      ensures Valid() && Swapped() && Content() == old(Content())[len..]
      ensures pool.totalMem == old(pool.totalMem)
      ensures buf == null <==> len == old(buf.length)
      ensures buf != null ==> buf == old(buf) && buf.head == old(buf.head) + len
    {
      hide BufPool.Intact;
      pool.InUse(buf);
      buf.Pop(len);
      if buf.length == 0 {
        pool.Revert(buf);
        Apart();
        buf := null;
      }
    }

    method Clear()
      requires Valid()
      modifies Footprint()
      ensures Valid() && Swapped() && buf == null
    {
      hide BufPool.Intact;
      if buf != null {
        pool.Revert(buf);
        Apart();
        buf := null;
      }
    }

    // Room for n more bytes behind the ones held, the same way for input and output: a
    // first block, or a larger one that takes the old bytes over. Fails when no class is
    // large enough.
    method MakeRoom(n: nat) returns (ok: bool, exited: bool)
      requires Valid() && AtFront()
      modifies Footprint()
      ensures Valid() && AtFront() && Swapped() && Content() == old(Content())
      ensures !exited ==> (ok <==> |Content()| + n <= MAX_BUFFER)
      ensures ok ==> buf != null && buf.length + n <= buf.capacity <= MAX_BUFFER
      ensures exited ==> !ok && Starved()
      ensures pool.totalMem <= old(pool.totalMem) + LARGEST_KB
      ensures ok && old(buf) == null ==> M4K <= buf.capacity
      ensures n == 0 && old(buf) != null ==> ok && buf == old(buf)
    {
      hide BufPool.Intact;
      if buf == null {
        ok, exited := First(n);
      } else {
        pool.InUse(buf);
        if buf.capacity - buf.length < n {
          ok, exited := Enlarge(n);
        } else {
          ok, exited := true, false;
        }
      }
    }

    method First(n: nat) returns (ok: bool, exited: bool)
      requires Valid() && buf == null
      modifies Footprint()
      ensures Valid() && AtFront() && Swapped() && Content() == []
      ensures !exited ==> (ok <==> n <= MAX_BUFFER)
      ensures ok ==> buf != null && n <= buf.capacity <= MAX_BUFFER && M4K <= buf.capacity
      ensures exited ==> !ok && Starved()
      ensures pool.totalMem <= old(pool.totalMem) + LARGEST_KB
    {
      hide BufPool.Intact;
      var first, stop := pool.AllocBuf(n);
      Apart();
      buf := first;
      return buf != null, stop;
    }

    method Enlarge(n: nat) returns (ok: bool, exited: bool)
      requires Valid() && buf != null && AtFront()
      modifies Footprint()
      ensures Valid() && AtFront() && Swapped() && Content() == old(Content())
      ensures !exited ==> (ok <==> |Content()| + n <= MAX_BUFFER)
      ensures ok ==> buf != null && buf.length + n <= buf.capacity <= MAX_BUFFER
      ensures exited ==> !ok && Starved()
      ensures pool.totalMem <= old(pool.totalMem) + LARGEST_KB
    {
      hide BufPool.Intact;
      pool.InUse(buf);
      var larger, stop := pool.AllocBuf(n + buf.length);
      if larger == null {
        return false, stop;
      }
      Replace(larger);
      return true, false;
    }

    // Moves the bytes to a larger block and gives the old one back.
    method Replace(larger: IOBuf)
      requires Valid() && buf != null && larger != buf && larger in pool.lent
      requires buf.length <= larger.capacity
      modifies this, pool, buf, larger, larger.data
      ensures Valid() && buf == larger && AtFront() && Content() == old(Content())
      ensures pool.totalMem == old(pool.totalMem)
      ensures pool.lent == old(pool.lent) - {old(buf)} && pool.blocks == old(pool.blocks)
    {
      hide BufPool.Intact;
      pool.InUse(buf);
      pool.InUse(larger);
      larger.Copy(buf);
      pool.Revert(buf);
      Apart();
      buf := larger;
    }

    // Stores bytes behind the ones held.
    method Store(bytes: seq<byte>)
      requires Valid() && buf != null && buf.length + buf.head + |bytes| <= buf.capacity
      modifies buf`length, buf.data
      ensures Valid() && Content() == old(Content()) + bytes
    {
      hide BufPool.Intact;
      pool.InUse(buf);
      var from := buf.head + buf.length;
      forall i | 0 <= i < |bytes| {
        buf.data[from + i] := bytes[i];
      }
      buf.length := buf.length + |bytes|;
    }

    // A late read goes past the block, which is not defined, exactly when an old block has
    // no room for what it takes.
    ghost predicate Overrun(wire: Wire)
      requires Valid()
      reads this, pool, pool.Free(), buf, if buf == null then {} else {buf.data}
    {
      wire.Late? && buf != null && |Content()| + |wire.bytes| > buf.capacity
    }

    method ReadData(wire: Wire) returns (ret: int, exited: bool, overrun: bool)
      requires Valid() && AtFront() && (wire.Late? ==> |wire.bytes| <= M4K)
      modifies Footprint()
      ensures Valid() && AtFront() && Swapped()
      ensures overrun == old(Overrun(wire))
      ensures -1 <= ret
      ensures ret > 0 ==> (wire.Available? || wire.Late?) && ret == |wire.bytes|
                          && Content() == old(Content()) + wire.bytes
      ensures ret <= 0 ==> Content() == old(Content())
      ensures exited ==> ret == -1 && Starved() && !overrun
      ensures pool.totalMem <= old(pool.totalMem) + LARGEST_KB
      ensures !exited && !overrun && (wire.Available? || wire.Late?) ==>
                ret == if |old(Content())| + |wire.bytes| <= MAX_BUFFER then |wire.bytes| else -1
      ensures wire.IoctlFailed? || wire.ReadFailed? ==> ret == -1
    {
      hide BufPool.Intact;
      if wire.IoctlFailed? {
        return -1, false, false;
      }
      var needRead := match wire case ReadFailed(n) => n case Available(bytes) => |bytes| case _ => 0;
      var ok, stop := MakeRoom(needRead);
      if !ok || wire.ReadFailed? {
        return -1, stop, false;
      }
      if buf.length + |wire.bytes| > buf.capacity {
        return -1, false, true;
      }
      Store(wire.bytes);
      return |wire.bytes|, false, false;
    }

    method Adjust()
      requires Valid()
      modifies if buf == null then {} else {buf, buf.data}
      ensures Valid() && AtFront() && buf == old(buf) && Content() == old(Content())
    {
      hide BufPool.Intact;
      if buf != null {
        pool.InUse(buf);
        buf.Adjust();
      }
    }

    // Appends data; on failure, which needs more than the largest class, nothing changes.
    method SendData(data: seq<byte>) returns (ret: int, exited: bool)
      requires Valid() && AtFront()
      modifies Footprint()
      ensures Valid() && AtFront() && Swapped()
      ensures ret == 0 || ret == -1
      ensures Content() == if ret == 0 then old(Content()) + data else old(Content())
      ensures ret == 0 ==> buf != null
      ensures exited ==> ret == -1 && Starved()
      ensures pool.totalMem <= old(pool.totalMem) + LARGEST_KB
      ensures !exited ==> (ret == 0 <==> |old(Content())| + |data| <= MAX_BUFFER)
    {
      hide BufPool.Intact;
      var ok, stop := MakeRoom(|data|);
      if !ok {
        return -1, stop;
      }
      Store(data);
      return 0, false;
    }

    // Writes from the front; what the kernel took is dropped and the rest moved up.
    method Write2fd(kernel: Written) returns (ret: int)
      requires Valid() && AtFront() && buf != null
      requires kernel.Accepted? ==> kernel.count <= buf.length
      modifies buf, buf.data
      ensures Valid() && AtFront() && buf == old(buf)
      ensures ret == match kernel case Error => -1 case Again => 0 case Accepted(n) => n
      ensures Content() == old(Content())[if ret > 0 then ret else 0..]
    {
      hide BufPool.Intact;
      match kernel
      case Error =>
        ret := -1;
      case Again =>
        ret := 0;
      case Accepted(n) =>
        if n > 0 {
          pool.InUse(buf);
          buf.Pop(n);
          buf.Adjust();
        }
        ret := n;
    }
  }
}
