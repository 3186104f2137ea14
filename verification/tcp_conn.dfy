// One TCP connection: the read loop that takes frames apart, the printing of frames, and
// the write loop that drains them to the kernel.

module TcpConns {
  import opened Words
  import opened Framing
  import opened IOBufs
  import opened BufPools
  import opened ReactorBufs
  import opened EventLoops

  datatype Verdict = KeepsOpen | IsClosed | AssertionFails | Exits | Overruns

  // How many bytes a write loop gets rid of, and whether it ends in an error. The kernel
  // takes at most what it is offered; when nothing is said any more it takes nothing.
  datatype Drained = Drained(count: nat, failed: bool)

  function Accept(count: nat, length: nat): nat { if count <= length then count else length }

  function DrainTo(kernel: seq<Written>, length: nat): (d: Drained)
    ensures d.count <= length
  {
    if length == 0 || kernel == [] then Drained(0, false)
    else match kernel[0]
      case Error => Drained(0, true)
      case Again => Drained(0, false)
      case Accepted(n) =>
        var taken := Accept(n, length);
        if taken == 0 then Drained(0, false)
        else
          var rest := DrainTo(kernel[1..], length - taken);
          Drained(taken + rest.count, rest.failed)
  }

  // The writes that the kernel takes something of, before it first takes nothing or fails.
  function Leading(kernel: seq<Written>): (n: nat)
    ensures n <= |kernel|
    ensures forall i :: 0 <= i < n ==> kernel[i].Accepted? && kernel[i].count > 0
    ensures n < |kernel| ==> !(kernel[n].Accepted? && kernel[n].count > 0)
  {
    if kernel != [] && kernel[0].Accepted? && kernel[0].count > 0 then 1 + Leading(kernel[1..]) else 0
  }

  // What they take in all, when offered enough.
  function Total(kernel: seq<Written>, n: nat): nat
    requires n <= |kernel| && forall i :: 0 <= i < n ==> kernel[i].Accepted?
  {
    if n == 0 then 0 else Total(kernel, n - 1) + kernel[n - 1].count
  }

  lemma {:induction false} TotalFirst(kernel: seq<Written>, n: nat)
    requires 0 < n <= |kernel| && forall i :: 0 <= i < n ==> kernel[i].Accepted?
    ensures Total(kernel, n) == kernel[0].count + Total(kernel[1..], n - 1)
  {
    if n > 1 {
      TotalFirst(kernel, n - 1);
    }
  }

  // A write loop gets rid of what the leading writes take, as far as there is that much;
  // it fails exactly when these do not take all and the next one is an error.
  lemma {:induction false} DrainedExactly(kernel: seq<Written>, length: nat)
    ensures var d, n := DrainTo(kernel, length), Leading(kernel);
            && d.count == (if Total(kernel, n) < length then Total(kernel, n) else length)
            && (d.failed <==> Total(kernel, n) < length && n < |kernel| && kernel[n].Error?)
    decreases |kernel|
  {
    if kernel != [] && kernel[0].Accepted? && kernel[0].count > 0 {
      TotalFirst(kernel, Leading(kernel));
      if length > 0 {
        DrainedExactly(kernel[1..], length - Accept(kernel[0].count, length));
      }
    }
  }

  // What send_message does to the bytes held: the return code, the bytes afterwards, and
  // whether they still start their block. The rollback of a header whose body does not
  // fit takes a header's length off the front.
  datatype Sent = Sent(ret: int, held: seq<byte>, intact: bool)

  function SendTo(held: seq<byte>, m: Msg): Sent {
    if |held| + HEAD_LEN > MAX_BUFFER then Sent(-1, held, true)
    else if |held| + HEAD_LEN + |m.body| > MAX_BUFFER then Sent(-1, (held + Header(m))[HEAD_LEN..], held == [])
    else Sent(0, held + Frame(m), true)
  }

  // A message is taken on whole or not at all, and the bytes held stay fit for the next
  // call, exactly unless it is the body alone that does not fit behind bytes still held.
  // Then the header stays behind them, and as much is lost at the front.
  lemma SendIsAtomic(held: seq<byte>, m: Msg)
    ensures var s := SendTo(held, m);
            && (s.ret == 0 <==> |held| + HEAD_LEN + |m.body| <= MAX_BUFFER)
            && (s.intact <==> (|held| + HEAD_LEN <= MAX_BUFFER < |held| + HEAD_LEN + |m.body| ==> held == []))
            && (s.intact ==> s.held == held + if s.ret == 0 then Frame(m) else [])
            && (s.ret == 0 ==> s.held != []) && (s.ret == 0 || s.ret == -1)
            && (s.ret != 0 ==> (s.held == [] <==> held == []))
            && (!s.intact ==> s.ret == -1 && exists lost :: |lost| == HEAD_LEN && lost + s.held == held + Header(m))
  {
    if !SendTo(held, m).intact {
      assert (held + Header(m))[..HEAD_LEN] + SendTo(held, m).held == held + Header(m);
    }
    if held == [] {
      assert (held + Header(m))[HEAD_LEN..] == [];
    }
    assert held + [] == held;
  }

  // ---------- What callbacks send ----------

  // The messages a callback sends on the connection whose message it is called for.
  type Respond = Msg -> seq<Msg>

  // The output side: the bytes held and whether they start their block. When they do not,
  // the next append fails an assertion, which stops the process.
  datatype Output = Output(held: seq<byte>, fit: bool) | Dead

  function Send(o: Output, m: Msg): Output {
    if o.Dead? || !o.fit then Dead else var s := SendTo(o.held, m); Output(s.held, s.intact)
  }

  function SendAll(o: Output, ms: seq<Msg>): Output {
    if ms == [] then o else Send(SendAll(o, ms[..|ms| - 1]), ms[|ms| - 1])
  }

  function Responses(o: Output, respond: Respond, calls: seq<Msg>): Output {
    if calls == [] then o
    else SendAll(Responses(o, respond, calls[..|calls| - 1]), respond(calls[|calls| - 1]))
  }

  lemma {:induction false} DeadStays(ms: seq<Msg>)
    ensures SendAll(Dead, ms) == Dead
  {
    if ms != [] {
      DeadStays(ms[..|ms| - 1]);
    }
  }

  lemma {:induction false} SendAllDies(o: Output, ms: seq<Msg>, n: nat)
    requires n <= |ms| && SendAll(o, ms[..n]).Dead?
    ensures SendAll(o, ms).Dead?
    decreases |ms|
  {
    if n == |ms| {
      assert ms[..n] == ms;
    } else {
      assert ms[..|ms| - 1][..n] == ms[..n];
      SendAllDies(o, ms[..|ms| - 1], n);
    }
  }

  lemma NoCalls(o: Output, respond: Respond)
    ensures Responses(o, respond, []) == o
  {
  }

  lemma {:induction false} MoreCalls(o: Output, respond: Respond, calls: seq<Msg>, more: seq<Msg>)
    ensures Responses(o, respond, calls + more) == Responses(Responses(o, respond, calls), respond, more)
  {
    if more == [] {
      assert calls + more == calls;
    } else {
      var all := calls + more;
      assert all[..|all| - 1] == calls + more[..|more| - 1];
      MoreCalls(o, respond, calls, more[..|more| - 1]);
    }
  }

  lemma {:induction false} ResponsesDie(o: Output, respond: Respond, calls: seq<Msg>, more: seq<Msg>)
    requires Responses(o, respond, calls).Dead?
    ensures Responses(o, respond, calls + more).Dead?
  {
    if more == [] {
      assert calls + more == calls;
    } else {
      var all := calls + more;
      assert all[..|all| - 1] == calls + more[..|more| - 1];
      ResponsesDie(o, respond, calls, more[..|more| - 1]);
      DeadStays(respond(all[|all| - 1]));
    }
  }

  lemma OneMoreCall(o: Output, respond: Respond, calls: seq<Msg>, m: Msg)
    ensures Responses(o, respond, calls + [m]) == SendAll(Responses(o, respond, calls), respond(m))
  {
    assert (calls + [m])[..|calls|] == calls;
  }

  // All that the callbacks send, in the order of the messages they are called for.
  function Answers(respond: Respond, calls: seq<Msg>): seq<Msg> {
    if calls == [] then [] else Answers(respond, calls[..|calls| - 1]) + respond(calls[|calls| - 1])
  }

  lemma {:induction false} SendAllAppend(o: Output, ms: seq<Msg>, more: seq<Msg>)
    ensures SendAll(o, ms + more) == SendAll(SendAll(o, ms), more)
  {
    if more == [] {
      assert ms + more == ms;
    } else {
      assert (ms + more)[..|ms + more| - 1] == ms + more[..|more| - 1];
      SendAllAppend(o, ms, more[..|more| - 1]);
    }
  }

  lemma {:induction false} ResponsesAreAnswers(o: Output, respond: Respond, calls: seq<Msg>)
    ensures Responses(o, respond, calls) == SendAll(o, Answers(respond, calls))
  {
    if calls != [] {
      ResponsesAreAnswers(o, respond, calls[..|calls| - 1]);
      SendAllAppend(o, Answers(respond, calls[..|calls| - 1]), respond(calls[|calls| - 1]));
    }
  }

  lemma {:induction false} HeldFits(held: seq<byte>, ms: seq<Msg>)
    requires |held| <= MAX_BUFFER
    ensures var o := SendAll(Output(held, true), ms);
            o.Dead? || |o.held| <= MAX_BUFFER
  {
    if ms != [] {
      HeldFits(held, ms[..|ms| - 1]);
      StillFits(SendAll(Output(held, true), ms[..|ms| - 1]), ms[|ms| - 1]);
      hide Send;
    }
  }

  lemma StillFits(o: Output, m: Msg)
    requires o.Dead? || |o.held| <= MAX_BUFFER
    ensures Send(o, m).Dead? || |Send(o, m).held| <= MAX_BUFFER
  {
    hide Header;
  }

  lemma SendFits(held: seq<byte>, m: Msg)
    requires |held| + |Frame(m)| <= MAX_BUFFER
    ensures Send(Output(held, true), m) == Output(held + Frame(m), true)
  {
    hide Header;
  }

  lemma {:induction false} SendsInOrder(held: seq<byte>, ms: seq<Msg>)
    requires |held| + |Frames(ms)| <= MAX_BUFFER
    ensures SendAll(Output(held, true), ms) == Output(held + Frames(ms), true)
  {
    hide Frame, Send;
    if ms == [] {
      assert held + Frames(ms) == held;
    } else {
      var init, last := ms[..|ms| - 1], ms[|ms| - 1];
      assert init + [last] == ms;
      FramesAppend(init, last);
      hide Frames;
      SendsInOrder(held, init);
      SendFits(held + Frames(init), last);
      assert held + Frames(init) + Frame(last) == held + (Frames(init) + Frame(last));
    }
  }

  // The process is stopped exactly when a send follows one whose header could not be
  // taken back.
  lemma {:induction false} DiesBehindRollback(held: seq<byte>, ms: seq<Msg>)
    ensures SendAll(Output(held, true), ms).Dead? <==>
            exists i :: 0 <= i < |ms| && SendAll(Output(held, true), ms[..i]).Output?
                        && !SendAll(Output(held, true), ms[..i]).fit
  {
    hide Header;
    if ms != [] {
      var init := ms[..|ms| - 1];
      DiesBehindRollback(held, init);
      assert forall i :: 0 <= i < |init| ==> ms[..i] == init[..i];
    }
  }

  // MAIN: what the callbacks of one read send is held afterwards behind what was held,
  // printed in the order of the messages they answer, exactly when there is room for all
  // of it.
  lemma AnswersInOrder(held: seq<byte>, respond: Respond, calls: seq<Msg>)
    requires |held| <= MAX_BUFFER
    ensures var all := Frames(Answers(respond, calls));
            Responses(Output(held, true), respond, calls) == Output(held + all, true) <==>
            |held| + |all| <= MAX_BUFFER
  {
    hide SendAll, Responses, Answers, Frames;
    ResponsesAreAnswers(Output(held, true), respond, calls);
    HeldFits(held, Answers(respond, calls));
    if |held| + |Frames(Answers(respond, calls))| <= MAX_BUFFER {
      SendsInOrder(held, Answers(respond, calls));
    }
  }

  class TcpConn {
    const loop: EventLoop
    const ibuf: ReactorBuf
    const obuf: ReactorBuf
    var connfd: int

    ghost function Footprint(): set<object>
      reads this, ibuf, obuf, ibuf.pool, obuf.pool
    {
      {this, loop} + ibuf.Footprint() + obuf.Footprint()
    }

    // The two buffers share the pool but no block.
    ghost predicate Buffered()
      reads this, ibuf, obuf, ibuf.pool, ibuf.pool.Free(), ibuf.buf, obuf.buf, obuf.pool, obuf.pool.Free()
      ensures Buffered() ==> ibuf.Valid() && obuf.Valid()
    {
      && ibuf != obuf && ibuf.pool == obuf.pool
      && ibuf.Valid() && obuf.Valid()
      && (ibuf.buf != null ==> ibuf.buf != obuf.buf)
    }

    lemma Apart()
      requires Buffered()
      ensures obuf !in ibuf.Footprint() && ibuf !in obuf.Footprint()
      ensures obuf.buf != null ==> obuf.buf !in ibuf.Footprint() && obuf.buf.data !in ibuf.Footprint()
      ensures ibuf.buf != null ==> ibuf.buf !in obuf.Footprint() && ibuf.buf.data !in obuf.Footprint()
    {
      hide BufPool.Intact;
      if ibuf.buf != null {
        ibuf.pool.InUse(ibuf.buf);
      }
      if obuf.buf != null {
        obuf.pool.InUse(obuf.buf);
      }
    }

    // The buffers depend on neither the connection object nor its loop.
    lemma Outside()
      ensures this !in ibuf.Footprint() && loop !in ibuf.Footprint()
      ensures this !in obuf.Footprint() && loop !in obuf.Footprint()
      ensures forall b: IOBuf :: b in ibuf.pool.Free() ==> b as object != this && b as object != loop
    {
    }

    constructor (connfd: int, loop: EventLoop, pool: BufPool)
      requires pool.Intact() && connfd >= 0
      modifies loop
      ensures this.loop == loop && this.connfd == connfd && Buffered()
      ensures ibuf.buf == null && obuf.buf == null
      ensures Ready() <==> Out !in old(loop.Tab().MaskOf(connfd))
      ensures loop.Tab() == old(loop.Tab().Add(connfd, {In}, true))
    {
      this.connfd := connfd;
      this.loop := loop;
      ibuf := new ReactorBuf(pool);
      obuf := new ReactorBuf(pool);
      new;
      hide BufPool.Intact, ReactorBuf.Valid, Ready;
      WatchInput();
    }

    // A new connection is watched for reading. It is ready unless its descriptor was
    // watched for writing before.
    method WatchInput()
      requires Buffered() && connfd >= 0 && ibuf.buf == null && obuf.buf == null
      modifies loop
      ensures BuffersKept() && loop.Tab() == old(loop.Tab().Add(connfd, {In}, true))
      ensures Ready() <==> Out !in old(loop.Tab().MaskOf(connfd))
    {
      hide BufPool.Intact, Table.Add, Table.MaskOf;
      Outside();
      loop.Tab().AddMask(connfd, {In}, true);
      loop.AddIoEvent(connfd, {In}, true);
    }

    // An operation on one buffer leaves the rest of the connection as it was.
    twostate predicate InputOnly()
      requires old(Buffered())
      reads *
    {
      && Buffered()
      && obuf.buf == old(obuf.buf) && obuf.Content() == old(obuf.Content())
      && obuf.AtFront() == old(obuf.AtFront())
      && connfd == old(connfd) && loop.Tab() == old(loop.Tab())
      && (forall o :: o in Footprint() ==> o in old(Footprint()) || fresh(o))
    }

    twostate predicate OutputOnly()
      requires old(Buffered())
      reads *
    {
      && Buffered()
      && ibuf.buf == old(ibuf.buf) && ibuf.Content() == old(ibuf.Content())
      && ibuf.AtFront() == old(ibuf.AtFront())
      && connfd == old(connfd) && loop.Tab() == old(loop.Tab())
      && (forall o :: o in Footprint() ==> o in old(Footprint()) || fresh(o))
    }

    method PopInput(len: nat)
      requires Buffered() && ibuf.buf != null && len <= |ibuf.Content()|
      modifies Footprint()
      ensures InputOnly() && ibuf.Content() == old(ibuf.Content())[len..]
      ensures ibuf.buf == null <==> len == |old(ibuf.Content())|
    {
      hide BufPool.Intact;
      Apart();
      Outside();
      hide ReactorBuf.Valid, ReactorBuf.Swapped, ReactorBuf.Footprint;
      ibuf.Pop(len);
      ibuf.Bystander(obuf);
    }

    method ReadInput(wire: Wire) returns (ret: int, exited: bool, overrun: bool)
      requires Buffered() && ibuf.AtFront() && (wire.Late? ==> |wire.bytes| <= M4K)
      modifies Footprint()
      ensures InputOnly() && ibuf.AtFront() && overrun == old(ibuf.Overrun(wire))
      ensures -1 <= ret && (exited ==> ret == -1 && ibuf.Starved() && !overrun)
      ensures ibuf.pool.totalMem <= old(ibuf.pool.totalMem) + LARGEST_KB
      ensures !exited && !overrun ==>
                ret == if (wire.Available? || wire.Late?) && |old(ibuf.Content())| + |wire.bytes| <= MAX_BUFFER
                       then |wire.bytes| else -1
      ensures ret > 0 ==> (wire.Available? || wire.Late?) && ibuf.Content() == old(ibuf.Content()) + wire.bytes
    {
      hide BufPool.Intact;
      Apart();
      Outside();
      hide ReactorBuf.Valid, ReactorBuf.Swapped, ReactorBuf.Footprint;
      ret, exited, overrun := ibuf.ReadData(wire);
      ibuf.Bystander(obuf);
    }

    method AdjustInput()
      requires Buffered()
      modifies Footprint()
      ensures InputOnly() && ibuf.AtFront() && ibuf.Content() == old(ibuf.Content())
    {
      hide BufPool.Intact;
      Apart();
      Outside();
      hide ReactorBuf.Valid, ReactorBuf.Swapped, ReactorBuf.Footprint;
      ibuf.Adjust();
    }

    method ClearInput()
      requires Buffered()
      modifies Footprint()
      ensures InputOnly() && ibuf.buf == null
    {
      hide BufPool.Intact;
      Apart();
      Outside();
      hide ReactorBuf.Valid, ReactorBuf.Swapped, ReactorBuf.Footprint;
      ibuf.Clear();
      ibuf.Bystander(obuf);
    }

    method ClearOutput()
      requires Buffered()
      modifies Footprint()
      ensures OutputOnly() && obuf.buf == null
    {
      hide BufPool.Intact;
      Apart();
      Outside();
      hide ReactorBuf.Valid, ReactorBuf.Swapped, ReactorBuf.Footprint;
      obuf.Clear();
      obuf.Bystander(ibuf);
    }

    method PopOutput(len: nat)
      requires Buffered() && obuf.buf != null && len <= |obuf.Content()|
      modifies Footprint()
      ensures OutputOnly() && obuf.Content() == old(obuf.Content())[len..]
      ensures obuf.buf == null <==> len == |old(obuf.Content())|
      ensures obuf.buf != null ==> obuf.buf.head == old(obuf.buf.head) + len
    {
      hide BufPool.Intact;
      Apart();
      Outside();
      hide ReactorBuf.Valid, ReactorBuf.Swapped, ReactorBuf.Footprint;
      obuf.Pop(len);
      obuf.Bystander(ibuf);
    }

    method SendOutput(data: seq<byte>) returns (ret: int, exited: bool)
      requires Buffered() && obuf.AtFront()
      modifies Footprint()
      ensures OutputOnly() && obuf.AtFront()
      ensures ret == 0 || ret == -1
      ensures obuf.Content() == if ret == 0 then old(obuf.Content()) + data else old(obuf.Content())
      ensures ret == 0 ==> obuf.buf != null
      ensures exited ==> ret == -1 && obuf.Starved()
      ensures obuf.pool.totalMem <= old(obuf.pool.totalMem) + LARGEST_KB
      ensures !exited ==> (ret == 0 <==> |old(obuf.Content())| + |data| <= MAX_BUFFER)
    {
      hide BufPool.Intact;
      Apart();
      Outside();
      hide ReactorBuf.Valid, ReactorBuf.Swapped, ReactorBuf.Footprint;
      ret, exited := obuf.SendData(data);
      obuf.Bystander(ibuf);
    }

    method WriteOutput(kernel: Written) returns (ret: int)
      requires Buffered() && obuf.AtFront() && obuf.buf != null
      requires kernel.Accepted? ==> kernel.count <= |obuf.Content()|
      modifies Footprint()
      ensures OutputOnly() && obuf.AtFront() && obuf.buf != null
      ensures ret == match kernel case Error => -1 case Again => 0 case Accepted(n) => n
      ensures obuf.Content() == old(obuf.Content())[if ret > 0 then ret else 0..]
    {
      hide BufPool.Intact;
      Apart();
      Outside();
      hide ReactorBuf.Valid, ReactorBuf.Swapped, ReactorBuf.Footprint;
      ret := obuf.Write2fd(kernel);
    }

    method CleanConn()
      requires Buffered()
      modifies Footprint()
      ensures Cleaned()
    {
      hide BufPool.Intact, ReactorBuf.Valid;
      assert this in Footprint() && loop in Footprint();
      hide Footprint;
      Unwatch();
      ClearInput();
      ClearOutput();
    }

    method Unwatch()
      requires Buffered()
      modifies this`connfd, loop
      ensures Buffered() && connfd == -1 && ibuf.buf == old(ibuf.buf) && obuf.buf == old(obuf.buf)
      ensures Footprint() == old(Footprint())
      ensures loop.Tab() == old(loop.Tab().Delete(connfd))
    {
      hide BufPool.Intact;
      Outside();
      loop.DelIoEvent(connfd);
      connfd := -1;
    }

    // The output side of an open connection between two sends: the bytes start their
    // block, and writing is watched for exactly when some are waiting.
    ghost predicate OutReady()
      reads this, loop, ibuf, obuf, ibuf.pool, obuf.pool, ibuf.pool.Free(), obuf.pool.Free(), ibuf.buf, obuf.buf,
            if obuf.buf == null then {} else {obuf.buf.data}
    {
      && Buffered() && obuf.AtFront() && connfd >= 0
      && (Out in loop.Tab().MaskOf(connfd) <==> obuf.Content() != [])
    }

    // An open connection between two calls.
    ghost predicate Ready()
      reads this, loop, ibuf, obuf, ibuf.pool, obuf.pool, ibuf.pool.Free(), obuf.pool.Free(), ibuf.buf, obuf.buf,
            if obuf.buf == null then {} else {obuf.buf.data}
    {
      OutReady() && ibuf.AtFront()
    }

    // Nothing but a failed rollback makes the output side unfit.
    ghost predicate OutKnown()
      reads this, loop, ibuf, obuf, ibuf.pool, obuf.pool, ibuf.pool.Free(), obuf.pool.Free(), ibuf.buf, obuf.buf,
            if obuf.buf == null then {} else {obuf.buf.data}
    {
      OutReady() <==> obuf.AtFront()
    }

    ghost function Outgoing(): Output
      requires Buffered()
      reads this, loop, ibuf, obuf, ibuf.pool, obuf.pool, ibuf.pool.Free(), obuf.pool.Free(), ibuf.buf, obuf.buf,
            if obuf.buf == null then {} else {obuf.buf.data}
    {
      Output(obuf.Content(), OutReady())
    }

    // Changes of the watched events leave the buffers alone.
    twostate predicate BuffersKept()
      requires old(Buffered())
      reads *
    {
      && Buffered() && connfd == old(connfd)
      && ibuf.buf == old(ibuf.buf) && ibuf.Content() == old(ibuf.Content()) && ibuf.AtFront() == old(ibuf.AtFront())
      && obuf.buf == old(obuf.buf) && obuf.Content() == old(obuf.Content()) && obuf.AtFront() == old(obuf.AtFront())
      && Footprint() == old(Footprint())
    }

    method WatchOutput()
      requires Buffered()
      modifies loop
      ensures BuffersKept() && loop.Tab() == old(loop.Tab().Add(connfd, {Out}, true))
      ensures Out in loop.Tab().MaskOf(connfd) && loop.Tab().Delete(connfd) == old(loop.Tab().Delete(connfd))
    {
      hide BufPool.Intact;
      Outside();
      loop.Tab().DeleteUndoesAdd(connfd, {Out}, true);
      loop.AddIoEvent(connfd, {Out}, true);
    }

    method UnwatchOutput()
      requires Buffered()
      modifies loop
      ensures BuffersKept() && loop.Tab() == old(loop.Tab().Remove(connfd, {Out}))
      ensures Out !in loop.Tab().MaskOf(connfd) && loop.Tab().Delete(connfd) == old(loop.Tab().Delete(connfd))
    {
      hide BufPool.Intact;
      Outside();
      loop.Tab().DeleteUndoesRemove(connfd, {Out});
      loop.DelIoEventMask(connfd, {Out});
    }

    // The two appends of send_message and its rollback, which pops a header's length off
    // the front.
    method AppendFrame(m: Msg) returns (ret: int, exited: bool)
      requires Buffered() && obuf.AtFront()
      modifies Footprint()
      ensures OutputOnly()
      ensures exited ==> old(obuf.pool.totalMem) + 2 * LARGEST_KB >= EXTRA_MEM_LIMIT
      ensures !exited ==> Sent(ret, obuf.Content(), obuf.AtFront()) == SendTo(old(obuf.Content()), m)
    {
      hide BufPool.Intact, BufPool.Free, BufPool.Reserve, ReactorBuf.Valid, ReactorBuf.Footprint, Footprint,
        Buffered, Header;
      ghost var held := obuf.Content();
      ret, exited := SendOutput(Header(m));
      if ret != 0 {
        return -1, exited;
      }
      ret, exited := SendOutput(m.body);
      if ret != 0 {
        PopOutput(HEAD_LEN);
        return -1, exited;
      }
      assert held + Header(m) + m.body == held + Frame(m);
    }

    // What a send leaves alone: the input side, and of the loop's table all other
    // descriptors.
    twostate predicate BuffersKeptButOutput()
      requires old(Buffered())
      reads *
    {
      && Buffered() && connfd == old(connfd)
      && ibuf.buf == old(ibuf.buf) && ibuf.Content() == old(ibuf.Content()) && ibuf.AtFront() == old(ibuf.AtFront())
      && loop.Tab().Delete(connfd) == old(loop.Tab().Delete(connfd))
      && (forall o :: o in Footprint() ==> o in old(Footprint()) || fresh(o))
    }

    method SendMessage(m: Msg) returns (ret: int, exited: bool)
      requires OutReady()
      modifies Footprint()
      ensures exited ==> old(obuf.pool.totalMem) + 2 * LARGEST_KB >= EXTRA_MEM_LIMIT
      ensures !exited ==> BuffersKeptButOutput()
      ensures !exited ==> Sent(ret, obuf.Content(), OutReady()) == SendTo(old(obuf.Content()), m)
      ensures !exited ==> OutKnown()
    {
      assert loop in Footprint();
      hide BufPool.Intact, BufPool.Free, BufPool.Reserve, ReactorBuf.Valid, ReactorBuf.Content, ReactorBuf.AtFront,
        ReactorBuf.Footprint, Footprint, Buffered, Table.Add, Table.Remove,
        Table.Delete, Table.MaskOf, Header, Frame, SendTo;
      SendIsAtomic(obuf.Content(), m);
      var activeEpollout := obuf.Length() == 0;
      ret, exited := AppendFrame(m);
      if ret == 0 && activeEpollout {
        WatchOutput();
      }
    }

    // ---------- Reading ----------

    // The callback for a message sends on the connection. An append to bytes that do not
    // start their block fails an assertion.
    method CallBack(m: Msg, respond: Respond) returns (verdict: Verdict)
      requires Buffered() && OutKnown()
      modifies Footprint()
      ensures verdict == KeepsOpen || verdict == AssertionFails || verdict == Exits
      ensures verdict == KeepsOpen ==>
                BuffersKeptButOutput() && OutKnown() && Outgoing() == SendAll(old(Outgoing()), respond(m))
      ensures verdict == AssertionFails ==> SendAll(old(Outgoing()), respond(m)).Dead?
      ensures verdict == Exits ==> respond(m) != []
    {
      hide BufPool.Intact, BufPool.Free, BufPool.Reserve, ReactorBuf.Valid, ReactorBuf.Content, ReactorBuf.AtFront,
        ReactorBuf.Footprint, Footprint, Buffered, SendTo, Table.Delete;
      var ms := respond(m);
      var i := 0;
      ghost var start := Outgoing();
      while i < |ms|
        invariant 0 <= i <= |ms| && BuffersKeptButOutput() && OutKnown()
        invariant Outgoing() == SendAll(start, ms[..i])
      {
        assert ms[..i + 1][..i] == ms[..i];
        if !OutputFits() {
          SendAllDies(start, ms, i + 1);
          return AssertionFails;
        }
        var ret, exited := SendMessage(ms[i]);
        if exited {
          return Exits;
        }
        i := i + 1;
      }
      assert ms[..|ms|] == ms;
      return KeepsOpen;
    }

    // What the assertion in send_data looks at.
    predicate OutputFits()
      reads this, obuf, obuf.buf
      ensures OutputFits() == obuf.AtFront()
    {
      obuf.buf == null || obuf.buf.head == 0
    }

    // The messages of some calls have been answered; of the connection only the input
    // has changed besides.
    twostate predicate Served(respond: Respond, calls: seq<Msg>)
      requires old(Buffered())
      reads *
    {
      && Buffered() && OutKnown() && connfd == old(connfd)
      && loop.Tab().Delete(connfd) == old(loop.Tab().Delete(connfd))
      && Outgoing() == Responses(old(Outgoing()), respond, calls)
      && (forall o :: o in Footprint() ==> o in old(Footprint()) || fresh(o))
    }

    // Takes the header of a complete frame off the input and looks at the message.
    method TakeHeader(msgid: int32, msglen: nat) returns (m: Msg)
      requires Buffered() && HasFrame(ibuf.Content())
      requires FrontMsg(ibuf.Content()).id == msgid && FrontLength(ibuf.Content()) == HEAD_LEN + msglen
      modifies Footprint()
      ensures InputOnly() && m == FrontMsg(old(ibuf.Content()))
      ensures ibuf.Content() == old(ibuf.Content())[HEAD_LEN..]
      ensures ibuf.buf == null <==> |old(ibuf.Content())| == HEAD_LEN
    {
      hide BufPool.Intact, BufPool.Free, BufPool.Reserve, ReactorBuf.Valid, ReactorBuf.Footprint, Footprint, Buffered,
        HasFrame, DecodeInt;
      ghost var s := ibuf.Content();
      assert ibuf.buf != null && HEAD_LEN + msglen <= |s|;
      PopInput(HEAD_LEN);
      var body := ibuf.Data(msglen);
      assert body == s[HEAD_LEN..HEAD_LEN + msglen];
      m := Msg(msgid, body);
    }

    // Takes a whole frame off the input around the callback. The assertion of the second
    // pop fails when the header used the buffer up.
    method TakeFrame(msgid: int32, msglen: nat, respond: Respond) returns (m: Msg, verdict: Verdict)
      requires Buffered() && OutKnown() && HasFrame(ibuf.Content())
      requires FrontMsg(ibuf.Content()).id == msgid && FrontLength(ibuf.Content()) == HEAD_LEN + msglen
      modifies Footprint()
      ensures verdict == KeepsOpen || verdict == AssertionFails || verdict == Exits
      ensures m == FrontMsg(old(ibuf.Content()))
      ensures verdict == KeepsOpen ==>
                Served(respond, [m]) && |old(ibuf.Content())| != HEAD_LEN
                && ibuf.Content() == old(ibuf.Content())[HEAD_LEN + msglen..]
      ensures verdict == AssertionFails ==>
                Responses(old(Outgoing()), respond, [m]).Dead? || |old(ibuf.Content())| == HEAD_LEN
      ensures verdict == Exits ==> respond(m) != []
    {
      hide BufPool.Intact, BufPool.Free, BufPool.Reserve, ReactorBuf.Valid, ReactorBuf.Content, ReactorBuf.AtFront,
        ReactorBuf.Footprint, Footprint, Buffered, HasFrame, FrontMsg, FrontLength, SendAll, Table.Delete;
      assert HEAD_LEN + msglen <= |ibuf.Content()|;
      m := TakeHeader(msgid, msglen);
      OneMoreCall(Outgoing(), respond, [], m);
      verdict := CallBack(m, respond);
      if verdict != KeepsOpen {
        return;
      }
      if ibuf.buf == null {
        return m, AssertionFails;
      }
      PopInput(msglen);
    }

    // The state clean_conn leaves behind.
    twostate predicate Cleaned()
      reads *
    {
      && Buffered() && ibuf.buf == null && obuf.buf == null && connfd == -1
      && loop.Tab() == old(loop.Tab().Delete(connfd))
    }

    // One round of the parsing loop: the frame at the front is taken, incomplete,
    // malformed, or stops the process.
    method TakeOne(respond: Respond) returns (verdict: Verdict, calls: seq<Msg>)
      requires Buffered() && OutKnown() && |ibuf.Content()| >= HEAD_LEN
      modifies Footprint()
      ensures verdict != Overruns && calls <= Drain(old(ibuf.Content())).msgs
      ensures verdict == KeepsOpen ==> Served(respond, calls)
      ensures verdict == KeepsOpen && calls != [] ==>
                && |ibuf.Content()| < |old(ibuf.Content())|
                && Drain(old(ibuf.Content())) == Prepend(calls, Drain(ibuf.Content()))
      ensures verdict == KeepsOpen && calls == [] ==>
                ibuf.Content() == old(ibuf.Content()) && Drain(ibuf.Content()) == Outcome([], Open(ibuf.Content()))
      ensures verdict == IsClosed ==> Cleaned() && calls == [] && Drain(old(ibuf.Content())) == Outcome([], Closed)
      ensures verdict == AssertionFails ==>
                Responses(old(Outgoing()), respond, calls).Dead?
                || Drain(old(ibuf.Content())) == Outcome(calls, Aborted)
      ensures verdict == Exits ==> exists m :: m in calls && respond(m) != []
    {
      hide BufPool.Intact, BufPool.Free, BufPool.Reserve, ReactorBuf.Valid, ReactorBuf.Content, ReactorBuf.AtFront,
        ReactorBuf.Footprint, Footprint, Buffered, Drain, DecodeInt, Responses, Table.Delete;
      ghost var s := ibuf.Content();
      DrainStep(s);
      NoCalls(Outgoing(), respond);
      var head := ibuf.Data(HEAD_LEN);
      HeadOf(s);
      var msgid, msglen := DecodeInt(head), DecodeInt(head[4..]);
      if BadLength(msglen) {
        CleanConn();
        return IsClosed, [];
      }
      if ibuf.Length() < HEAD_LEN + msglen {
        return KeepsOpen, [];
      }
      var m, step := TakeFrame(msgid, msglen, respond);
      return step, [m];
    }

    // The parsing loop of do_read; calls are those made to the message router.
    method TakeFrames(respond: Respond) returns (verdict: Verdict, calls: seq<Msg>)
      requires Buffered() && OutKnown()
      modifies Footprint()
      ensures verdict != Overruns && calls <= Drain(old(ibuf.Content())).msgs
      ensures verdict == Exits ==> exists m :: m in calls && respond(m) != []
      ensures verdict != Exits ==>
                var o := Drain(old(ibuf.Content()));
                if Responses(old(Outgoing()), respond, o.msgs).Dead? then verdict == AssertionFails
                else
                  && calls == o.msgs
                  && match o.end
                     case Open(residue) =>
                       verdict == KeepsOpen && Served(respond, calls) && ibuf.Content() == residue
                     case Closed => verdict == IsClosed && Cleaned()
                     case Aborted => verdict == AssertionFails
    {
      hide BufPool.Intact, BufPool.Free, BufPool.Reserve, ReactorBuf.Valid, ReactorBuf.Content, ReactorBuf.AtFront,
        ReactorBuf.Footprint, Footprint, Buffered, Drain, HasFrame, FrontMsg, Responses, Table.Delete;
      ghost var start, out := ibuf.Content(), Outgoing();
      calls := [];
      NoCalls(out, respond);
      while ibuf.Length() >= HEAD_LEN
        invariant Served(respond, calls)
        invariant Drain(start) == Prepend(calls, Drain(ibuf.Content()))
        decreases |ibuf.Content()|
      {
        ghost var before := calls;
        ghost var rest := Drain(ibuf.Content());
        var step, more := TakeOne(respond);
        MoreCalls(out, respond, before, more);
        calls := calls + more;
        if step == AssertionFails && Responses(out, respond, calls).Dead? {
          ResponsesDie(out, respond, calls, rest.msgs[|more|..]);
          assert calls + rest.msgs[|more|..] == Drain(start).msgs;
        }
        assert before + [] == before;
        if step != KeepsOpen || more == [] {
          return step, calls;
        }
      }
      DrainStep(ibuf.Content());
      assert calls + [] == calls;
      return KeepsOpen, calls;
    }

    // One event of the read kind. The callbacks may send on the connection.
    method DoRead(wire: Wire, respond: Respond) returns (verdict: Verdict, calls: seq<Msg>)
      requires Ready() && (wire.Late? ==> |wire.bytes| <= M4K)
      modifies Footprint()
      ensures verdict == Overruns <==> old(ibuf.Overrun(wire))
      ensures verdict == Exits ==> ibuf.Starved() || exists m :: m in calls && respond(m) != []
      ensures verdict != Exits && verdict != Overruns ==>
                var chunk := if wire.Available? || wire.Late? then wire.bytes else [];
                var o := Feed(old(ibuf.Content()), chunk);
                var out := Responses(Output(old(obuf.Content()), true), respond, o.msgs);
                && calls <= o.msgs
                && if out.Dead? then verdict == AssertionFails
                   else
                     && calls == o.msgs
                     && match o.end
                        case Open(residue) =>
                          && verdict == KeepsOpen && Buffered() && ibuf.AtFront() && ibuf.Content() == residue
                          && connfd == old(connfd) && Output(obuf.Content(), Ready()) == out
                        case Closed => verdict == IsClosed && Cleaned()
                        case Aborted => verdict == AssertionFails
    {
      hide BufPool.Intact, BufPool.Free, BufPool.Reserve, ReactorBuf.Valid, ReactorBuf.Content, ReactorBuf.AtFront,
        ReactorBuf.Footprint, Footprint, Buffered, Drain, Responses, Table.Delete;
      NoCalls(Outgoing(), respond);
      var ret, exited, overrun := ReadInput(wire);
      if overrun {
        return Overruns, [];
      }
      if exited {
        return Exits, [];
      }
      if ret <= 0 {
        CleanConn();
        return IsClosed, [];
      }
      verdict, calls := TakeFrames(respond);
      if verdict == KeepsOpen {
        AdjustInput();
      }
    }

    // One write; the kernel takes no more than it is offered.
    method WriteOne(kernel: Written) returns (ret: int, taken: seq<byte>)
      requires Buffered() && obuf.AtFront() && obuf.Content() != []
      modifies Footprint()
      ensures OutputOnly() && obuf.AtFront()
      ensures ret == match kernel case Error => -1 case Again => 0
                                  case Accepted(n) => Accept(n, |old(obuf.Content())|)
      ensures taken + obuf.Content() == old(obuf.Content()) && |taken| == if ret > 0 then ret else 0
    {
      hide BufPool.Intact, BufPool.Free, BufPool.Reserve, ReactorBuf.Valid, ReactorBuf.Content, ReactorBuf.AtFront,
        ReactorBuf.Footprint, Footprint, Buffered;
      ghost var held := obuf.Content();
      var answer := if kernel.Accepted? then Accepted(Accept(kernel.count, obuf.Length())) else kernel;
      var offered := obuf.Data(obuf.Length());
      ret := WriteOutput(answer);
      taken := if ret > 0 then offered[..ret] else [];
      assert held[..|taken|] + held[|taken|..] == held;
    }

    // The loop of do_write.
    method WriteAll(kernel: seq<Written>) returns (failed: bool, sent: seq<byte>)
      requires Buffered() && obuf.AtFront()
      modifies Footprint()
      ensures OutputOnly() && obuf.AtFront()
      ensures sent + obuf.Content() == old(obuf.Content())
      ensures Drained(|sent|, failed) == DrainTo(kernel, |old(obuf.Content())|)
    {
      hide BufPool.Intact, BufPool.Free, BufPool.Reserve, ReactorBuf.Valid, ReactorBuf.Content, ReactorBuf.AtFront,
        ReactorBuf.Footprint, Footprint, Buffered;
      ghost var held := obuf.Content();
      sent := [];
      var i := 0;
      while obuf.Length() > 0 && i < |kernel|
        invariant OutputOnly() && obuf.AtFront()
        invariant i <= |kernel| && sent + obuf.Content() == held
        invariant var rest := DrainTo(kernel[i..], |obuf.Content()|);
                  DrainTo(kernel, |held|) == Drained(|sent| + rest.count, rest.failed)
        decreases |obuf.Content()|
      {
        var ret, taken := WriteOne(kernel[i]);
        if ret <= 0 {
          return ret == -1, sent;
        }
        sent := sent + taken;
        i := i + 1;
      }
      return false, sent;
    }

    // Writes until the output is empty or the kernel takes no more.
    method DoWrite(kernel: seq<Written>) returns (closed: bool, sent: seq<byte>)
      requires Ready()
      modifies Footprint()
      ensures var n, held := Leading(kernel), old(obuf.Content());
              && (closed <==> Total(kernel, n) < |held| && n < |kernel| && kernel[n].Error?)
              && sent == if Total(kernel, n) < |held| then held[..Total(kernel, n)] else held
      ensures closed ==> Cleaned()
      ensures !closed ==> Ready() && BuffersKeptButOutput() && sent + obuf.Content() == old(obuf.Content())
    {
      assert loop in Footprint();
      hide BufPool.Intact, BufPool.Free, BufPool.Reserve, ReactorBuf.Valid, ReactorBuf.Content, ReactorBuf.AtFront,
        ReactorBuf.Footprint, Footprint, Buffered, Table.Add, Table.Remove, Table.MaskOf, DrainTo;
      DrainedExactly(kernel, |obuf.Content()|);
      closed, sent := WriteAll(kernel);
      if closed {
        CleanConn();
        return;
      }
      if obuf.Length() == 0 {
        UnwatchOutput();
      }
    }
  }
}
