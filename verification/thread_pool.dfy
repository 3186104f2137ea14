// The pool of event-loop threads: round robin for connections, broadcast for tasks.

module ThreadPools {
  import opened ThreadQueues

  // A callback and its argument, as pointers.
  datatype Task = Task(callback: nat, args: nat)

  datatype TaskMsg = NewConn(connfd: int) | NewTask(task: Task) | Unknown

  // The connections and the tasks among messages, in order.
  function ConnsIn(ms: seq<TaskMsg>): seq<int> {
    if ms == [] then []
    else ConnsIn(ms[..|ms| - 1]) + if ms[|ms| - 1].NewConn? then [ms[|ms| - 1].connfd] else []
  }

  function TasksIn(ms: seq<TaskMsg>): seq<Task> {
    if ms == [] then []
    else TasksIn(ms[..|ms| - 1]) + if ms[|ms| - 1].NewTask? then [ms[|ms| - 1].task] else []
  }

  lemma {:induction false} MessagesAppend(ms: seq<TaskMsg>, ns: seq<TaskMsg>)
    ensures ConnsIn(ms + ns) == ConnsIn(ms) + ConnsIn(ns)
    ensures TasksIn(ms + ns) == TasksIn(ms) + TasksIn(ns)
  {
    if ns == [] {
      assert ms + ns == ms;
    } else {
      assert (ms + ns)[..|ms + ns| - 1] == ms + ns[..|ns| - 1];
      MessagesAppend(ms, ns[..|ns| - 1]);
    }
  }

  // The positions at which messages of a kind stand, in order.
  ghost predicate Positions(ms: seq<TaskMsg>, at: seq<nat>, conns: bool) {
    && (forall n :: 0 <= n < |at| ==> at[n] < |ms| && IsKind(ms[at[n]], conns))
    && (forall m, n :: 0 <= m < n < |at| ==> at[m] < at[n])
    && (forall j :: 0 <= j < |ms| && IsKind(ms[j], conns) ==> j in at)
  }

  predicate IsKind(m: TaskMsg, conns: bool) { if conns then m.NewConn? else m.NewTask? }

  lemma MorePositions(ms: seq<TaskMsg>, at: seq<nat>, conns: bool, m: TaskMsg)
    requires Positions(ms, at, conns)
    ensures Positions(ms + [m], if IsKind(m, conns) then at + [|ms|] else at, conns)
  {
    var at', ms' := if IsKind(m, conns) then at + [|ms|] else at, ms + [m];
    forall j | 0 <= j < |ms'| && IsKind(ms'[j], conns) ensures j in at' {
      if j == |ms| {
        assert at'[|at|] == j;
      } else {
        assert ms'[j] == ms[j];
        var n :| 0 <= n < |at| && at[n] == j;
        assert at'[n] == j;
      }
    }
  }

  // Exactly the new connections come out, in their order.
  lemma {:induction false} ConnsInPlace(ms: seq<TaskMsg>) returns (at: seq<nat>)
    ensures Positions(ms, at, true) && AreConns(ms, at, ConnsIn(ms))
  {
    at := [];
    if ms != [] {
      var init, last := ms[..|ms| - 1], ms[|ms| - 1];
      at := ConnsInPlace(init);
      hide Positions, AreConns;
      assert init + [last] == ms;
      MorePositions(init, at, true, last);
      MoreConns(init, at, ConnsIn(init), last);
      at := if last.NewConn? then at + [|init|] else at;
      assert ConnsIn(init) + [] == ConnsIn(init);
    }
  }

  predicate AreConns(ms: seq<TaskMsg>, at: seq<nat>, fds: seq<int>) {
    |fds| == |at| && forall n :: 0 <= n < |at| ==> at[n] < |ms| && ms[at[n]] == NewConn(fds[n])
  }

  lemma MoreConns(ms: seq<TaskMsg>, at: seq<nat>, fds: seq<int>, m: TaskMsg)
    requires AreConns(ms, at, fds)
    ensures if m.NewConn? then AreConns(ms + [m], at + [|ms|], fds + [m.connfd]) else AreConns(ms + [m], at, fds)
  {
    assert (ms + [m])[|ms|] == m;
  }

  // And exactly the tasks, in theirs.
  lemma {:induction false} TasksInPlace(ms: seq<TaskMsg>) returns (at: seq<nat>)
    ensures Positions(ms, at, false) && AreTasks(ms, at, TasksIn(ms))
  {
    at := [];
    if ms != [] {
      var init, last := ms[..|ms| - 1], ms[|ms| - 1];
      at := TasksInPlace(init);
      hide Positions, AreTasks;
      assert init + [last] == ms;
      MorePositions(init, at, false, last);
      MoreTasks(init, at, TasksIn(init), last);
      at := if last.NewTask? then at + [|init|] else at;
      assert TasksIn(init) + [] == TasksIn(init);
    }
  }

  predicate AreTasks(ms: seq<TaskMsg>, at: seq<nat>, tasks: seq<Task>) {
    |tasks| == |at| && forall n :: 0 <= n < |at| ==> at[n] < |ms| && ms[at[n]] == NewTask(tasks[n])
  }

  lemma MoreTasks(ms: seq<TaskMsg>, at: seq<nat>, tasks: seq<Task>, m: TaskMsg)
    requires AreTasks(ms, at, tasks)
    ensures if m.NewTask? then AreTasks(ms + [m], at + [|ms|], tasks + [m.task]) else AreTasks(ms + [m], at, tasks)
  {
    assert (ms + [m])[|ms|] == m;
  }

  // ---------- One thread ----------

  // The tasks waiting in an event loop.
  class TaskLoop {
    var readyTasks: seq<Task>

    constructor ()
      ensures readyTasks == []
    {
      readyTasks := [];
    }

    method AddTask(task: Task)
      modifies this
      ensures readyTasks == old(readyTasks) + [task]
    {
      readyTasks := readyTasks + [task];
    }

    // Runs every ready task once, in order. The tasks add none themselves.
    method ExecuteReadyTasks() returns (ran: seq<Task>)
      modifies this
      ensures ran == old(readyTasks) && readyTasks == []
    {
      ran := [];
      var it := 0;
      while it < |readyTasks|
        invariant 0 <= it <= |readyTasks| && ran == readyTasks[..it] && readyTasks == old(readyTasks)
      {
        ran := ran + [readyTasks[it]];
        it := it + 1;
      }
      readyTasks := [];
    }
  }

  // What a thread does when its queue wakes it: new connections are served by its loop,
  // tasks are handed to it.
  method DealTaskMessage(queue: ThreadQueue<TaskMsg>, loop: TaskLoop) returns (conns: seq<int>)
    modifies queue, loop
    ensures queue.View() == Mailbox([], 0)
    ensures conns == ConnsIn(old(queue.queue))
    ensures loop.readyTasks == old(loop.readyTasks) + TasksIn(old(queue.queue))
  {
    var tasks := queue.Recv([]);
    ghost var all := tasks;
    conns := [];
    while tasks != []
      invariant queue.View() == Mailbox([], 0)
      invariant |tasks| <= |all| && tasks == all[|all| - |tasks|..]
      invariant conns == ConnsIn(all[..|all| - |tasks|])
      invariant loop.readyTasks == old(loop.readyTasks) + TasksIn(all[..|all| - |tasks|])
      decreases |tasks|
    {
      var task := tasks[0];
      ghost var i := |all| - |tasks|;
      assert all[..i + 1][..i] == all[..i] && all[..i + 1][i] == task;
      tasks := tasks[1..];
      match task
      case NewConn(connfd) => conns := conns + [connfd];
      case NewTask(t) => loop.AddTask(t);
      case Unknown =>
    }
    assert all[..|all|] == all;
  }

  // ---------- The pool ----------

  // The turn that comes k calls after turn i.
  function ThreadAfter(i: nat, k: nat, n: nat): nat
    requires i < n
    decreases k
  {
    if k == 0 then i else ThreadAfter(if i + 1 == n then 0 else i + 1, k - 1, n)
  }

  lemma {:induction false} ThreadsGoRound(i: nat, k: nat, n: nat)
    requires i < n && k <= n
    ensures ThreadAfter(i, k, n) == if i + k < n then i + k else i + k - n
    decreases k
  {
    if k > 0 {
      ThreadsGoRound(if i + 1 == n then 0 else i + 1, k - 1, n);
    }
  }

  // MAIN: among any n calls in a row each thread comes up exactly once, and the next call
  // starts over.
  lemma EachThreadOnce(i: nat, n: nat, thread: nat)
    requires i < n && thread < n
    ensures ThreadAfter(i, n, n) == i
    ensures exists k :: 0 <= k < n && ThreadAfter(i, k, n) == thread
    ensures forall j, k :: 0 <= j < n && 0 <= k < n && ThreadAfter(i, j, n) == ThreadAfter(i, k, n) ==> j == k
  {
    forall k | 0 <= k <= n { ThreadsGoRound(i, k, n); }
    var k := if thread >= i then thread - i else thread - i + n;
    assert ThreadAfter(i, k, n) == thread;
  }

  class ThreadPool {
    const queues: seq<ThreadQueue<TaskMsg>>
    var index: nat

    predicate Valid()
      reads this
    {
      index < |queues| && forall i, j :: 0 <= i < j < |queues| ==> queues[i] != queues[j]
    }

    constructor (threadCnt: nat)
      requires threadCnt > 0
      ensures Valid() && index == 0 && |queues| == threadCnt
      ensures forall i :: 0 <= i < threadCnt ==> fresh(queues[i]) && queues[i].View() == Mailbox([], 0)
    {
      var made: seq<ThreadQueue<TaskMsg>> := [];
      while |made| < threadCnt
        invariant |made| <= threadCnt
        invariant forall i :: 0 <= i < |made| ==> fresh(made[i]) && made[i].View() == Mailbox([], 0)
        invariant forall i, j :: 0 <= i < j < |made| ==> made[i] != made[j]
      {
        var queue := new ThreadQueue<TaskMsg>();
        made := made + [queue];
      }
      queues, index := made, 0;
    }

    method GetThread() returns (thread: ThreadQueue<TaskMsg>)
      requires Valid()
      modifies this`index
      ensures Valid() && thread == queues[old(index)] && index == ThreadAfter(old(index), 1, |queues|)
    {
      thread := queues[index];
      index := index + 1;
      if index == |queues| {
        index := 0;
      }
    }

    // Sends a task to every thread; the writes of the eventfds may fail.
    method SendTask(task: Task, wrote: seq<bool>)
      requires Valid() && |wrote| == |queues|
      modifies queues
      ensures forall i :: 0 <= i < |queues| ==>
                queues[i].View() == Next(old(queues[i].View()), Op.Send(NewTask(task), wrote[i]))
    {
      for i := 0 to |queues|
        invariant forall j :: 0 <= j < i ==>
                    queues[j].View() == Next(old(queues[j].View()), Op.Send(NewTask(task), wrote[j]))
        invariant forall j :: i <= j < |queues| ==> queues[j].View() == old(queues[j].View())
      {
        queues[i].Send(NewTask(task), wrote[i]);
      }
    }
  }

  // ---------- Runs ----------

  // A thread: its mailbox, its ready tasks, the tasks it has run and the connections it
  // serves.
  datatype Thread = Thread(box: Mailbox<TaskMsg>, ready: seq<Task>, ran: seq<Task>, conns: seq<int>)

  // Sections of senders and threads: a message to one thread, a thread dealing with its
  // messages, a thread running its tasks.
  datatype Event = Send(i: nat, msg: TaskMsg) | Deal(i: nat) | Execute(i: nat)

  function Step(t: Thread, i: nat, e: Event): Thread {
    if e.i != i then t
    else match e
      case Send(_, msg) => t.(box := Next(t.box, Op.Send(msg, true)))
      case Deal(_) =>
        t.(box := Next(t.box, Recv([])), ready := t.ready + TasksIn(t.box.queue),
           conns := t.conns + ConnsIn(t.box.queue))
      case Execute(_) => t.(ready := [], ran := t.ran + t.ready)
  }

  function Run(t: Thread, i: nat, es: seq<Event>): Thread {
    if es == [] then t else Step(Run(t, i, es[..|es| - 1]), i, es[|es| - 1])
  }

  const IDLE := Thread(Mailbox([], 0), [], [], [])

  // The messages sent to one thread.
  function SentTo(i: nat, es: seq<Event>): seq<TaskMsg> {
    if es == [] then []
    else
      var e := es[|es| - 1];
      SentTo(i, es[..|es| - 1]) + if e.Send? && e.i == i then [e.msg] else []
  }

  // MAIN: at any point, what a thread has run, what is ready and what is queued are
  // exactly the tasks sent to it, in order; the same holds of its connections; and its
  // eventfd counts what is queued.
  lemma {:induction false} HandOffIsExact(i: nat, es: seq<Event>)
    ensures var t := Run(IDLE, i, es);
            && t.ran + t.ready + TasksIn(t.box.queue) == TasksIn(SentTo(i, es))
            && t.conns + ConnsIn(t.box.queue) == ConnsIn(SentTo(i, es))
            && Counted(t.box)
  {
    if es != [] {
      var init, e := es[..|es| - 1], es[|es| - 1];
      HandOffIsExact(i, init);
      var t := Run(IDLE, i, init);
      if e.Send? && e.i == i {
        MessagesAppend(SentTo(i, init), [e.msg]);
        MessagesAppend(t.box.queue, [e.msg]);
      } else {
        assert SentTo(i, es) == SentTo(i, init);
      }
    }
  }

  lemma {:induction false} OthersLeave(i: nat, es: seq<Event>, between: seq<Event>)
    requires forall e :: e in between ==> e.i != i
    ensures Run(IDLE, i, es + between) == Run(IDLE, i, es)
  {
    if between == [] {
      assert es + between == es;
    } else {
      var init, last := between[..|between| - 1], between[|between| - 1];
      assert (es + between)[..|es + between| - 1] == es + init;
      assert last in between;
      OthersLeave(i, es, init);
    }
  }

  lemma RunStep(i: nat, es: seq<Event>, e: Event)
    ensures Run(IDLE, i, es + [e]) == Step(Run(IDLE, i, es), i, e)
  {
    assert (es + [e])[..|es| + 1 - 1] == es;
  }

  // MAIN: and a thread catches up whenever it deals with its messages and then runs its
  // tasks: by then it has run all tasks and serves all connections sent to it before.
  lemma CatchesUp(i: nat, es: seq<Event>, between: seq<Event>)
    requires forall e :: e in between ==> e.i != i
    ensures Run(IDLE, i, es + [Deal(i)] + between + [Execute(i)]) ==
            Thread(Mailbox([], 0), [], TasksIn(SentTo(i, es)), ConnsIn(SentTo(i, es)))
  {
    HandOffIsExact(i, es);
    RunStep(i, es, Deal(i));
    OthersLeave(i, es + [Deal(i)], between);
    RunStep(i, es + [Deal(i)] + between, Execute(i));
    hide Run, SentTo, TasksIn, ConnsIn;
    var t := Run(IDLE, i, es);
    assert t.ran + (t.ready + TasksIn(t.box.queue)) == t.ran + t.ready + TasksIn(t.box.queue);
  }

  // Once a thread has nothing queued or ready, it has run each task exactly as often as it
  // was sent to it.
  lemma RunsAsOftenAsSent(i: nat, es: seq<Event>, task: Task)
    requires Run(IDLE, i, es).box.queue == [] && Run(IDLE, i, es).ready == []
    ensures multiset(Run(IDLE, i, es).ran)[task] == multiset(TasksIn(SentTo(i, es)))[task]
  {
    HandOffIsExact(i, es);
    var t := Run(IDLE, i, es);
    assert t.ran + t.ready + TasksIn(t.box.queue) == t.ran;
  }

  // The threads to which messages carry a task, in the order of the sends.
  function Targets(es: seq<Event>, task: Task): seq<nat> {
    if es == [] then []
    else
      var e := es[|es| - 1];
      Targets(es[..|es| - 1], task) + if e.Send? && e.msg == NewTask(task) then [e.i] else []
  }

  lemma CountAppend<T>(s: seq<T>, t: seq<T>, x: T)
    ensures multiset(s + t)[x] == multiset(s)[x] + multiset(t)[x]
  {
  }

  lemma OneMessage(msg: TaskMsg, task: Task)
    ensures multiset(TasksIn([msg]))[task] == if msg == NewTask(task) then 1 else 0
  {
    assert [msg][..0] == [];
  }

  lemma {:induction false} SendsCount(i: nat, es: seq<Event>, task: Task)
    ensures multiset(TasksIn(SentTo(i, es)))[task] == multiset(Targets(es, task))[i]
  {
    if es != [] {
      var init, e := es[..|es| - 1], es[|es| - 1];
      SendsCount(i, init, task);
      hide TasksIn;
      var to := if e.Send? && e.msg == NewTask(task) then [e.i] else [];
      CountAppend(Targets(init, task), to, i);
      if e.Send? && e.i == i {
        MessagesAppend(SentTo(i, init), [e.msg]);
        CountAppend(TasksIn(SentTo(i, init)), TasksIn([e.msg]), task);
        OneMessage(e.msg, task);
      } else {
        assert SentTo(i, es) == SentTo(i, init);
      }
    }
  }

  // The sends of one send_task, whatever comes between them: to each of n threads in turn.
  predicate IsBroadcast(es: seq<Event>, task: Task, n: nat) {
    Targets(es, task) == seq(n, i => i)
  }

  lemma {:induction false} CountUpTo(n: nat, i: nat)
    ensures multiset(seq(n, j => j))[i] == if i < n then 1 else 0
  {
    if n > 0 {
      CountUpTo(n - 1, i);
      assert seq<nat>(n, j => j) == seq<nat>(n - 1, j => j) + [n - 1];
    }
  }

  // MAIN: a broadcast to n threads, in a run in which the task is sent by nobody else, has
  // run exactly once in each of them once that thread has caught up, and in no other.
  lemma BroadcastRunsOnce(es: seq<Event>, task: Task, n: nat, i: nat)
    requires IsBroadcast(es, task, n)
    requires Run(IDLE, i, es).box.queue == [] && Run(IDLE, i, es).ready == []
    ensures multiset(Run(IDLE, i, es).ran)[task] == if i < n then 1 else 0
  {
    RunsAsOftenAsSent(i, es, task);
    SendsCount(i, es, task);
    CountUpTo(n, i);
    hide Run, Targets;
  }
}
