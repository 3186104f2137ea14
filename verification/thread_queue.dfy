// The queue between threads: a list under a mutex and an eventfd that wakes the receiver.

module ThreadQueues {
  // The pending items and the eventfd's counter.
  datatype Mailbox<T> = Mailbox(queue: seq<T>, count: nat)

  // The sections under the mutex. A send may fail to write the eventfd; a receiver brings
  // a list that it swaps for the pending one.
  datatype Op<T> = Send(task: T, wrote: bool) | Recv(batch: seq<T>)

  function Next<T>(m: Mailbox<T>, op: Op<T>): Mailbox<T> {
    match op
    case Send(task, wrote) => Mailbox(m.queue + [task], if wrote then m.count + 1 else m.count)
    case Recv(batch) => Mailbox(batch, 0)
  }

  function After<T>(m: Mailbox<T>, ops: seq<Op<T>>): Mailbox<T> {
    if ops == [] then m else Next(After(m, ops[..|ops| - 1]), ops[|ops| - 1])
  }

  // What has been sent, in the order of the lock, and what the receiver has got.
  function Sent<T>(ops: seq<Op<T>>): seq<T> {
    if ops == [] then []
    else
      var op := ops[|ops| - 1];
      Sent(ops[..|ops| - 1]) + if op.Send? then [op.task] else []
  }

  function Received<T>(m: Mailbox<T>, ops: seq<Op<T>>): seq<T> {
    if ops == [] then []
    else
      Received(m, ops[..|ops| - 1]) +
      if ops[|ops| - 1].Recv? then After(m, ops[..|ops| - 1]).queue else []
  }

  predicate EmptyBatches<T>(ops: seq<Op<T>>) {
    forall i :: 0 <= i < |ops| && ops[i].Recv? ==> ops[i].batch == []
  }

  // MAIN: whoever sends, what was received followed by what is pending is what was
  // pending at first followed by what was sent, in the order of the lock.
  lemma {:induction false} NothingIsLost<T>(m: Mailbox<T>, ops: seq<Op<T>>)
    requires EmptyBatches(ops)
    ensures Received(m, ops) + After(m, ops).queue == m.queue + Sent(ops)
  {
    if ops != [] {
      var init, op := ops[..|ops| - 1], ops[|ops| - 1];
      NothingIsLost(m, init);
      if op.Recv? {
        assert op == ops[|ops| - 1] && op.batch == [];
      } else {
        assert Received(m, ops) == Received(m, init);
        assert Received(m, init) + (After(m, init).queue + [op.task]) == m.queue + Sent(init) + [op.task];
      }
    }
  }

  // The counter says how many items are pending.
  predicate Counted<T>(m: Mailbox<T>) { m.count == |m.queue| }

  // Pending items have the receiver woken.
  predicate Woken<T>(m: Mailbox<T>) { m.queue != [] ==> m.count > 0 }

  // The counter stays right exactly when the write succeeds and the batch is empty, and
  // the receiver is woken exactly when, besides, it was not already.
  lemma NextCounts<T>(m: Mailbox<T>, op: Op<T>)
    requires Counted(m)
    ensures Counted(Next(m, op)) <==> if op.Send? then op.wrote else op.batch == []
    ensures Woken(Next(m, op)) <==> if op.Send? then op.wrote || m.queue != [] else op.batch == []
  {
  }

  // MAIN: so in every run the counter is the number of pending items, and no wake-up is
  // lost.
  lemma {:induction false} WakeUpsAreKept<T>(m: Mailbox<T>, ops: seq<Op<T>>)
    requires Counted(m) && EmptyBatches(ops) && forall i :: 0 <= i < |ops| && ops[i].Send? ==> ops[i].wrote
    ensures Counted(After(m, ops)) && Woken(After(m, ops))
  {
    if ops != [] {
      WakeUpsAreKept(m, ops[..|ops| - 1]);
      NextCounts(After(m, ops[..|ops| - 1]), ops[|ops| - 1]);
    }
  }

  class ThreadQueue<T> {
    var queue: seq<T>
    var evfd: nat

    function View(): Mailbox<T>
      reads this
    {
      Mailbox(queue, evfd)
    }

    constructor ()
      ensures View() == Mailbox([], 0)
    {
      queue, evfd := [], 0;
    }

    // A failed write is reported and otherwise ignored.
    method Send(task: T, wrote: bool)
      modifies this
      ensures View() == Next(old(View()), Op.Send(task, wrote))
    {
      queue := queue + [task];
      if wrote {
        evfd := evfd + 1;
      }
    }

    // Reading the eventfd takes all of its count.
    method Recv(newQueue: seq<T>) returns (batch: seq<T>)
      modifies this
      ensures batch == old(queue) && View() == Next(old(View()), Op.Recv(newQueue))
    {
      evfd := 0;
      batch := queue;
      queue := newQueue;
    }
  }
}
