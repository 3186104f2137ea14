# A verified model of the load-balancing agent, its reactor and the DNS service

The system sends each caller of a service, named by a pair (modid, cmdid), to one of the hosts
that serve it. A DNS service keeps the routes, reads them from a database and pushes changes to
subscribers. An agent on every machine keeps a load balancer per pair, moves hosts between an
idle and an overload queue on the results its callers report, and pulls routes again when they
have expired. Both stand on a reactor library: event loops, a block pool, growable buffers,
length-prefixed messages and queues between threads.

Code that changes objects in place is modelled by classes with the same fields, loops and
branches. Each method is proved to compute a function (or to satisfy a relation) on values, and
the properties are proved about those. Protocols between threads are step systems in which one
step is one section under a lock, one query or one row loaded, in any interleaving.

| file | what it holds |
|---|---|
| `words.dfy` | 32- and 64-bit integers of C++, the 64-bit keys |
| `options.dfy`, `sequences.dfy`, `runs.dfy` | missing values, sequences without repetition, runs of a step system |
| `framing.dfy` | messages as bytes, the incremental parser, independence of chunks |
| `io_buf.dfy`, `buf_pool.dfy`, `reactor_buf.dfy` | blocks, the size-class pool, growable buffers |
| `event_loop.dfy`, `tcp_conn.dfy`, `pipeline.dfy` | the descriptor table, one connection, whole runs of its output |
| `thread_queue.dfy`, `thread_pool.dfy` | hand-off between threads |
| `host_info.dfy`, `host_rates.dfy` | one host: counters, thresholds, how long it takes to trip |
| `balancer.dfy`, `balancer_runs.dfy`, `balancer_hosts.dfy` | one load balancer as a value, and over every run |
| `pick_schedule.dfy` | the closed form of a sequence of picks |
| `load_balance.dfy` | the load balancer as an object |
| `route_table.dfy`, `route_runs.dfy`, `route_lb.dfy`, `shards.dfy` | one shard as a value, over every run and as an object, and the three shards together |
| `dns_route.dfy`, `change_log.dfy` | the double-buffered route cache, and the change-log protocol |
| `subscribe.dfy`, `dns_service.dfy` | subscriptions, pushes, connections |

## Where the code departs from what it promises

The model keeps the code as it is; each departure has its exact condition.

- `update` unlinks and deletes a host that the answer drops, but never takes its key out of the
  map (lb_agent/src/load_balance.cpp:118-143). Such keys are the field `dangling`.
  `BalancerRuns.UpdateIsClean` says when one arises, `BalancerRuns.RequestsAfterUpdate` when
  requests stay safe afterwards, `BalancerRuns.LostHosts` gives a run of three answers that ends
  in a pick from an empty list. The reconciliation theorems are about the update as it is; the
  one that the comment describes, with the keys erased, is `Balancers.UpdateErasing`, and
  `BalancerRuns.CoveringRunIsIntended` says on exactly which runs the code does the same.
- `reset_lb_status` makes the assertion of `get_host` fail on a balancer without hosts
  (lb_agent/src/route_lb.cpp:12-24, 42): `RouteTables.ResetIsHarmless`, `RouteTables.ResetThenAbort`.
- When a body does not fit, `send_message` takes the header back off the front of the buffer
  (reactor/src/tcp_conn.cpp:180): `TcpConns.SendIsAtomic`.
- A message without a body that ends the input buffer fails an assertion
  (reactor/src/tcp_conn.cpp:103-115, reactor/src/reactor_buf.cpp:22): `Framing.ChunkIndependence`
  and `Framing.EndToEnd` say exactly when.
- The stamps of the change log count seconds, and failed queries do not stop a round:
  `ChangeLog.UntimelyIsUnsafe`, `ChangeLog.SameSecondLoses`, `ChangeLog.FailuresAreUnsafe`.
- A key is taken apart wrongly when the cmdid is negative (dns/src/subscribe.cpp:114-115):
  `Words.DecodeRecovers`, `Subscriptions.MessageIsForPair`.
- The shard index is negative for a negative sum that 3 does not divide, and the sum can
  overflow: `Shards.HousedExactly`.
- What is pending for a closed connection is pushed to the next one with its descriptor
  (dns/src/subscribe.cpp:41-61): `Subscriptions.NextOwns` and `Subscriptions.PushesReachSubscribers`
  say exactly when, `Subscriptions.StalePush` gives a run.
- With a `probe_num` of zero or less an idle host is not picked while one is overloaded:
  `PickSchedule.IdleHostsServed`.
- A read after FIONREAD has announced nothing takes up to 4096 bytes into whatever room the block
  has (reactor/src/reactor_buf.cpp:88-90): `ReactorBufs.ReactorBuf.Overrun` says when that is too
  little, and `TcpConns.TcpConn.DoRead` stops there.
- `get_host` returns success with the code "does not exist" for a balancer without hosts, and
  "does not exist" for a new one (lb_agent/src/route_lb.cpp:40-44, 73-75): `RouteTables.Reply`
  keeps the two apart.
- `access_cnt_`, `idle_ts` and `overload_ts` are not set by their constructors, and
  `init_err_cnt` is never loaded; all four are parameters.

## Model

| member | source | states |
|---|---|---|
| `Words.KeyInjective` | dns/src/dns_route.cpp:90 | two pairs of 32-bit ints have the same 64-bit key only if they are the same pair, sign extension and wrap-around included |
| `Words.DecodeRecovers` | dns/src/subscribe.cpp:114-115 | decoding a key gives cmdid back always, modid exactly when cmdid is not negative |
| `Words.EncodeRecovers` | dns/src/subscribe.cpp:114-122 | encoding the decoded pair gives the key back exactly when its low word is not negative as an int |
| `Framing.HeaderRoundTrip` | reactor/include/message.h:7-11 | the header printed for a message is read back as its id and length, whatever follows |
| `Framing.ResidueIsShort` | reactor/src/tcp_conn.cpp:86-98 | what stays unparsed is shorter than the largest frame and holds no further message |
| `Framing.ParseAppend` | reactor/src/tcp_conn.cpp:86-118 | parsing more input continues from the residue; nothing reopens a closed connection |
| `Framing.PrintParsed` | reactor/src/tcp_conn.cpp:86-116 | printing the parsed messages and the residue gives the stream back: no byte is skipped or used twice |
| `Framing.DrainIsParse` | reactor/src/tcp_conn.cpp:86-116 | the loop on one buffer agrees with the meaning of the bytes but for the abort behind an empty body |
| `Framing.ChunkIndependence` | reactor/src/tcp_conn.cpp:66-121 | for any reads at all, what is dispatched depends on the byte stream alone, not on its division; an empty read or one too large closes where the stream stands; the abort happens exactly when a read ends right behind a message without a body |
| `Framing.SmallReadsAreTaken` | reactor/src/reactor_buf.cpp:57-82 | reads that leave room for one frame in the largest block are never too large |
| `Framing.ParseFrame` | reactor/include/message.h:14-17 | one printed message is parsed back, or closes the connection when it exceeds the limit |
| `Framing.ParseFrames` | reactor/src/tcp_conn.cpp:154-191 | a printed stream parses to its messages up to the first one over the limit |
| `Framing.RoundTrip` | reactor/src/tcp_conn.cpp:154-191 | printing then parsing is the identity exactly when every body is within the limit |
| `Framing.EndToEnd` | reactor/src/tcp_conn.cpp:66-191 | messages sent and read in any chunks are dispatched in order, each once, exactly when no read is empty or too large and none ends right behind an empty body |
| `Framing.BodiesArrive` | reactor/src/tcp_conn.cpp:66-191 | messages with bodies of 1 to 65527 bytes arrive exactly when no read is empty or too large, however the stream is cut |
| `IOBufs.IOBuf.Adjust` | reactor/src/io_buf.cpp:23-30 | the bytes in use move to the front and stay the same |
| `IOBufs.IOBuf.Copy` | reactor/src/io_buf.cpp:33-37 | the block holds the bytes in use of the other one, from the front |
| `IOBufs.IOBuf.Pop` | reactor/src/io_buf.cpp:40-43 | the first bytes in use are dropped |
| `BufPools.SizeClass` | reactor/src/buf_pool.cpp:179-202 | the smallest class that holds n bytes; none exactly when n exceeds the largest |
| `BufPools.Preallocate` | reactor/src/buf_pool.cpp:37-47 | the constructor's loop makes an acyclic chain of as many empty blocks as asked, with their memory |
| `BufPools.BufPool.FreeLists` | reactor/src/buf_pool.cpp:26-253 | free lists are acyclic and disjoint, every free block is empty and of its class, no block is free and lent or neither, the total is the memory of all blocks and below the limit |
| `BufPools.BufPool.constructor` | reactor/src/buf_pool.cpp:26-167 | the invariant holds at first, with 334240 KB and nothing lent |
| `BufPools.BufPool.AllocBuf` | reactor/src/buf_pool.cpp:175-232 | lends an empty block of the smallest class that fits, the first free one or a new one; nothing when none fits; exits exactly when the class is used up at the memory limit |
| `BufPools.BufPool.Revert` | reactor/src/buf_pool.cpp:236-253 | the block is free again, emptied, at the head of its class |
| `ReactorBufs.ReactorBuf.Pop` | reactor/src/reactor_buf.cpp:20-32 | drops bytes; the block goes back to the pool exactly when it is used up |
| `ReactorBufs.ReactorBuf.ReadData` | reactor/src/reactor_buf.cpp:44-103 | what the kernel had, announced or late, is appended to what was held, across growth; it fails exactly on an error or when the largest block is too small, and then changes nothing held; exactly when a late read has no room it overruns |
| `ReactorBufs.ReactorBuf.Adjust` | reactor/src/reactor_buf.cpp:112-117 | the bytes start their block again and stay the same |
| `ReactorBufs.ReactorBuf.SendData` | reactor/src/reactor_buf.cpp:120-154 | data is appended whole, or nothing changes; it fails exactly when the largest block is too small |
| `ReactorBufs.ReactorBuf.Write2fd` | reactor/src/reactor_buf.cpp:157-181 | what the kernel took is dropped from the front, the rest starts the block again |
| `ReactorBufs.ReactorBuf.Bystander` | reactor/src/reactor_buf.cpp:20-181 | an operation on one buffer leaves another on the same pool as it was |
| `EventLoops.Table.AddAgrees` | reactor/src/eventloop.cpp:94-138 | the loop's masks, the listened set and the kernel stay in step exactly when epoll_ctl succeeds or nothing new is asked for |
| `EventLoops.Table.AddDispatches` | reactor/src/eventloop.cpp:86-123 | every event keeps its callback exactly when the two interests are not added at once, or writing had one already |
| `EventLoops.Table.RemoveKeeps` | reactor/src/eventloop.cpp:154-177 | removing interest keeps both and removes just that interest |
| `EventLoops.Table.RemoveUndoesAdd` | reactor/src/eventloop.cpp:94-177 | removing what was newly added restores every mask |
| `EventLoops.EventLoop.AddIoEvent` | reactor/src/eventloop.cpp:94-138 | the object does what the table above says |
| `EventLoops.EventLoop.DelIoEventMask` | reactor/src/eventloop.cpp:154-177 | the interest is gone, and the descriptor with the last one |
| `TcpConns.TcpConn.constructor` | reactor/src/tcp_conn.cpp:35-58 | a new connection holds nothing, is watched for reading, and is ready for every call exactly when its descriptor was not watched for writing |
| `TcpConns.TcpConn.DoRead` | reactor/src/tcp_conn.cpp:66-121 | dispatches exactly what feeding the chunk to the parser means, keeps the residue at the front, closes or aborts with it; whatever the callbacks send on the connection is appended to the output as sends one by one would, and a send behind a failed rollback aborts |
| `TcpConns.TcpConn.TakeFrames` | reactor/src/tcp_conn.cpp:86-116 | the loop dispatches what the buffered bytes hold, with the callbacks' sends in between, and keeps the rest |
| `TcpConns.AnswersInOrder` | reactor/src/tcp_conn.cpp:154-191 | what the callbacks of one read send is held behind what was held, printed in the order of the messages they answer, exactly when there is room for all of it |
| `TcpConns.DiesBehindRollback` | reactor/src/tcp_conn.cpp:176-182 | sends in a row stop the process exactly when one follows a send whose header could not be taken back |
| `TcpConns.SendIsAtomic` | reactor/src/tcp_conn.cpp:154-191 | a message is taken on whole or not at all exactly unless its body alone does not fit behind bytes still held; then its header stays behind them and eight bytes are lost at the front |
| `TcpConns.TcpConn.SendMessage` | reactor/src/tcp_conn.cpp:154-191 | the return code, the bytes held and the watch for writing are as that lemma describes; the input side is untouched |
| `TcpConns.DrainedExactly` | reactor/src/tcp_conn.cpp:132-145 | a write loop gets rid of the least of the bytes held and the sum of the leading writes that take something; it fails exactly when these take less than is held and the next answer is an error |
| `TcpConns.TcpConn.DoWrite` | reactor/src/tcp_conn.cpp:124-151 | it terminates; what is written, and when the connection is closed for an error, are as that lemma says; otherwise bytes written and bytes still held are those held before, and writing stays watched exactly while bytes are held |
| `TcpConns.TcpConn.CleanConn` | reactor/src/tcp_conn.cpp:194-214 | both buffers are given back and the descriptor is no longer watched |
| `Pipelines.Conservation` | reactor/src/tcp_conn.cpp:124-191 | in every run the bytes on the wire followed by the bytes held are the frames of the messages taken on |
| `Pipelines.Delivery` | reactor/src/tcp_conn.cpp:66-191 | at any moment the peer has parsed a prefix of the messages taken on; once nothing is held it is all of them, up to the first over the limit |
| `ThreadQueues.NothingIsLost` | reactor/include/thread_queue.h:37-70 | batches received followed by what is pending are what was sent, in the order of the lock |
| `ThreadQueues.NextCounts` | reactor/include/thread_queue.h:37-70 | the eventfd counts the pending items exactly while writes succeed and batches come empty; the condition for a kept wake-up is weaker and exact too |
| `ThreadQueues.WakeUpsAreKept` | reactor/include/thread_queue.h:37-70 | in every such run the count is right and pending items have the receiver woken |
| `ThreadQueues.ThreadQueue.Send` | reactor/include/thread_queue.h:37-53 | the item is last in the queue, counted when the write succeeded |
| `ThreadQueues.ThreadQueue.Recv` | reactor/include/thread_queue.h:57-70 | the whole queue for the batch, and the count is taken |
| `ThreadPools.DealTaskMessage` | reactor/src/thread_pool.cpp:12-50 | the queue is emptied; its connections and its tasks come out in order |
| `ThreadPools.ConnsInPlace` | reactor/src/thread_pool.cpp:20-45 | exactly the messages that bring a connection give one, each in its place |
| `ThreadPools.TasksInPlace` | reactor/src/thread_pool.cpp:20-45 | and exactly those that bring a task |
| `ThreadPools.TaskLoop.ExecuteReadyTasks` | reactor/src/eventloop.cpp:23-37 | every ready task runs once, in order, and none is left |
| `ThreadPools.EachThreadOnce` | reactor/src/thread_pool.cpp:106-115 | among any n calls in a row each of n threads comes up exactly once |
| `ThreadPools.ThreadPool.GetThread` | reactor/src/thread_pool.cpp:106-115 | the thread whose turn it is, and the next one's turn |
| `ThreadPools.ThreadPool.SendTask` | reactor/src/thread_pool.cpp:117-133 | every thread's queue has the task once more, at its end |
| `ThreadPools.HandOffIsExact` | reactor/src/thread_pool.cpp:12-50 | at any point of any interleaving, tasks run, ready and queued are those sent to a thread, in order; the same for connections |
| `ThreadPools.CatchesUp` | reactor/src/thread_pool.cpp:12-50 | once a thread has dealt with its messages and then run its tasks, it has run all tasks and serves all connections sent to it before, in order |
| `ThreadPools.RunsAsOftenAsSent` | reactor/src/thread_pool.cpp:12-50 | a thread that has caught up has run each task as often as it was sent to it |
| `ThreadPools.BroadcastRunsOnce` | reactor/src/thread_pool.cpp:117-133 | a task broadcast to n threads, with anything in between, has run exactly once in each that has caught up and in no other |
| `Hosts.HostInfo.CheckWindow` | lb_agent/src/host_info.cpp:29-39 | the share of errors in the window reaches the limit, and there were calls |
| `HostRates.RateExceeds` | lb_agent/src/load_balance.cpp:196-261 | comparing a rate is comparing the cross-multiplied counts |
| `HostRates.ReportedWithinLimits` | lb_agent/src/load_balance.cpp:156-303 | a report leaves the host below the rate and the limit in a row of the queue it is then on |
| `HostRates.RunCounts` | lb_agent/src/load_balance.cpp:156-303 | after any reports all six counters are a closed form of the results since the host was made or a report last reset it; those results follow that report, the time kept is its time, and all lie within the time limit counted from it |
| `HostRates.HostRunWithinLimits` | lb_agent/src/load_balance.cpp:156-303 | after any reports the host is within the limits of its queue |
| `HostRates.ReportDecides` | lb_agent/src/load_balance.cpp:185-303 | from the results since the last reset alone: an idle host trips exactly with a failure that makes failures too many or too many in a row, or after its window if errors have the given share of it; an overloaded one recovers exactly with a success that makes successes enough, or after its time limit |
| `HostRates.FailingHostWaits` | lb_agent/src/load_balance.cpp:288-302 | an overloaded host that goes on failing becomes idle with the first report its time limit allows, and not before |
| `HostRates.TrippedHostWaits` | lb_agent/src/host_info.cpp:17-26 | in any run, a host that trips with a report and goes on failing is idle again with the first report overload_timeout after that one, and not before |
| `HostRates.NeededIsThreshold` | lb_agent/src/load_balance.cpp:196-261 | the least count whose rate exceeds the limit |
| `HostRates.TripsAfter` | lb_agent/src/load_balance.cpp:196-228 | an idle host fed failures trips at exactly min(con_err_limit, floor(err_rate*S/(1-err_rate))+1) reports |
| `HostRates.RecoversAfter` | lb_agent/src/load_balance.cpp:229-261 | an overloaded host fed successes recovers at exactly min(con_succ_limit, floor(succ_rate*E/(1-succ_rate))+1) reports |
| `HostRates.TrippedHostRecovers` | lb_agent/src/host_info.cpp:17-26 | in any run, a host that trips with a report and then succeeds recovers at that number of reports counted from it, with init_err for E, unless overload_timeout after it comes first |
| `HostRates.RecoveredHostTrips` | lb_agent/src/host_info.cpp:5-14 | in any run, a host that becomes idle with a report and then fails trips at that number of reports counted from it, with init_succ for S, unless idle_timeout after it comes first |
| `BalancerHosts.RunWithinLimits` | lb_agent/src/load_balance.cpp:156-303 | at every point of every defined run each host is within the limits of its queue |
| `BalancerHosts.HostIsItsReports` | lb_agent/src/load_balance.cpp:28-303 | a host that no answer drops is the result of the reports on it alone |
| `BalancerHosts.EveryHostCounts` | lb_agent/src/load_balance.cpp:28-303 | at every point of every defined run of a new balancer, the six counters of every live host, whenever added, are the closed form of its last few reports; the report before these reset it, and they all lie within the time limit counted from that one |
| `BalancerHosts.IntendedWithinLimits` | lb_agent/src/load_balance.cpp:118-303 | with keys erased every run whatever keeps every host within the limits of its queue |
| `BalancerHosts.EveryIntendedHostCounts` | lb_agent/src/load_balance.cpp:118-303 | and the counters of every host are at every point the closed form of its last few reports |
| `BalancerRuns.PickKeeps` | lb_agent/src/load_balance.cpp:11-62 | a pick keeps the partition, changes no host, and returns a live one; none only when no host is idle |
| `BalancerRuns.ReportKeeps` | lb_agent/src/load_balance.cpp:156-303 | a report keeps the partition and the set of hosts on every path |
| `BalancerRuns.ReportMovesHost` | lb_agent/src/load_balance.cpp:200-302 | a report changes its host alone, and exactly when the host's state changes takes it out of its place in one queue and to the end of the other |
| `BalancerRuns.UpdateKeeps` | lb_agent/src/load_balance.cpp:82-150 | an update keeps the partition of the live hosts |
| `BalancerRuns.RunKeepsPartition` | lb_agent/src/load_balance.cpp:28-303 | over every defined run the two queues hold the live hosts once each, flags name the queue, each host is under the key of its address; a dangling key never goes away |
| `BalancerRuns.AllDefined` | lb_agent/src/load_balance.cpp:82-303 | reports and answers are all defined exactly when no key dangles |
| `BalancerRuns.UpdateIsClean` | lb_agent/src/load_balance.cpp:118-143 | an update leaves a dangling key exactly when the answer drops a host |
| `BalancerRuns.RequestsInARow` | lb_agent/src/load_balance.cpp:28-62 | n requests in a row are safe on a balancer exactly when it has a live host or they end before the next probe |
| `BalancerRuns.RequestsAfterUpdate` | lb_agent/src/load_balance.cpp:28-150 | after an update requests stay safe, however many follow, exactly when the answer has a host that does not dangle |
| `BalancerRuns.IntendedIsSafe` | lb_agent/src/load_balance.cpp:118-143 | with keys erased every run whatever keeps the partition, and a pick from a non-empty balancer never meets an empty queue |
| `BalancerRuns.CoveringRunIsIntended` | lb_agent/src/load_balance.cpp:82-150 | runs whose answers are not empty and drop no host are exactly those that are defined and end without a dangling key, and on them the code does what is intended |
| `BalancerRuns.LostHosts` | lb_agent/src/load_balance.cpp:128-143 | three well-formed answers after which a host is lost and a pick takes the front of an empty list |
| `BalancerRuns.Reconciles` | lb_agent/src/load_balance.cpp:82-150 | after the update as it is, the live hosts are those of the answer that do not dangle, each once; the map has exactly the answer's keys if and only if no known key is dropped; hosts that stay keep counters, state and place; new ones start fresh at the idle tail |
| `BalancerRuns.ErasingReconciles` | lb_agent/src/load_balance.cpp:118-143 | with keys erased, the map holds the answer's hosts and nothing else |
| `BalancerRuns.ReconcilesInOrder` | lb_agent/src/load_balance.cpp:93-143 | hosts that stay keep their order, new ones come in the order of first occurrence |
| `BalancerRuns.ReconcilesOnce` | lb_agent/src/load_balance.cpp:82-150 | the same answer again is defined exactly when the first time dropped no host, and then changes nothing but the update time |
| `BalancerRuns.ErasingReconcilesOnce` | lb_agent/src/load_balance.cpp:118-143 | with keys erased it always is |
| `Balancers.CommitReportsEachOnce` | lb_agent/src/load_balance.cpp:306-347 | every host is reported exactly once, with its address, its real counts and the flag it has |
| `PickSchedule.PicksFollowSchedule` | lb_agent/src/load_balance.cpp:28-62 | with overloaded hosts, picks in a row in closed form: probes after max(0, probe_num - access) picks and then every probe_num + 1, each queue in turn |
| `PickSchedule.PicksGoRound` | lb_agent/src/load_balance.cpp:53-60 | with no host overloaded, pick n is host n of the idle queue in turn, which is then turned n + 1 times, and the count is n + 1 higher |
| `PickSchedule.SharedEvenly` | lb_agent/src/load_balance.cpp:53-60 | then among any idle-count picks in a row each idle host comes up exactly once |
| `PickSchedule.ProbedInEveryRound` | lb_agent/src/load_balance.cpp:28-62 | every overloaded host is probed within any overload-count times (probe_num + 1) picks after the first wait |
| `PickSchedule.ProbedOncePerRound` | lb_agent/src/load_balance.cpp:28-62 | and never twice within that many |
| `PickSchedule.ServedInEveryRound` | lb_agent/src/load_balance.cpp:45-62 | with a positive probe_num every idle host is picked, by no probe, within any 2 times idle-count picks |
| `PickSchedule.IdleHostsServed` | lb_agent/src/load_balance.cpp:45-62 | an idle host is picked again and again exactly when probe_num is positive |
| `LoadBalances.LoadBalance.Pull` | lb_agent/src/load_balance.cpp:65-79 | asks for its own pair and is being pulled |
| `LoadBalances.LoadBalance.PickOneHost` | lb_agent/src/load_balance.cpp:11-62 | the object picks as the value does, whose picks the lemmas above describe with and without overloaded hosts, and the host it returns is a live object |
| `LoadBalances.LoadBalance.Update` | lb_agent/src/load_balance.cpp:82-150 | the three loops over map, queues and objects do what the update of the value does |
| `LoadBalances.LoadBalance.Report` | lb_agent/src/load_balance.cpp:156-303 | counting, judging and moving the object do what the report of the value does, on all exit paths |
| `LoadBalances.LoadBalance.Commit` | lb_agent/src/load_balance.cpp:306-347 | nothing from an empty balancer, else the results of the idle queue and then of the overload queue |
| `LoadBalances.LoadBalance.GetAllHosts` | lb_agent/src/load_balance.cpp:350-356 | every host of the map exactly once |
| `RouteTables.PullsNeverPileUp` | lb_agent/src/route_lb.cpp:27-164 | in every run the pulls sent for a key since its balancer was made, updated or reset are 1 if it is being pulled and 0 otherwise |
| `RouteTables.PulledWhenExpired` | lb_agent/src/route_lb.cpp:27-135 | after any run a request pulls exactly when its pair is new, or no pull is under way and more than update_timeout has passed since the last answer for the pair in the run; then one pull is outstanding, otherwise status and pulls stay |
| `RouteTables.ResetPullsAgain` | lb_agent/src/route_lb.cpp:12-24 | after a reset the next route request for a known pair pulls exactly when it has expired, whether or not a pull was under way |
| `RouteTables.NextKeepsHostlessPulled` | lb_agent/src/route_lb.cpp:12-164 | a balancer without hosts stays being pulled on every call but a reset that meets one |
| `RouteTables.AssertionHolds` | lb_agent/src/route_lb.cpp:42 | in runs whose resets meet no host-less balancer the assertion never fails |
| `RouteTables.ResetIsHarmless` | lb_agent/src/route_lb.cpp:12-24 | after a reset no request aborts exactly when every balancer it resets had hosts |
| `RouteTables.ResetThenAbort` | lb_agent/src/route_lb.cpp:12-44 | a request, a reset and the request again fail the assertion |
| `RouteTables.PickIsFromLastAnswer` | lb_agent/src/route_lb.cpp:27-189 | whatever came before, a host returned for a pair is live and its address stands in the last, non-empty answer for it |
| `RouteTables.RouteIsLastAnswer` | lb_agent/src/route_lb.cpp:83-164 | a balancer without dangling keys serves exactly the last answer |
| `RouteTables.ErasingPicksFromLastAnswer` | lb_agent/src/route_lb.cpp:27-189 | with keys erased, after any calls whatever, a balancer that is not empty can be picked from, serves exactly the last answer, and a host returned stands in it |
| `RouteRuns.BalancersRunApart` | lb_agent/src/route_lb.cpp:27-189 | in every run of a shard each balancer is what the requests, answers and reports for its pair since it was made, and no others, make of a new one; resets and pulls touch only whether it is being pulled |
| `RouteRuns.ShardCounts` | lb_agent/src/route_lb.cpp:167-189 | so the counters of every live host are the closed form of the last few reports on its address made through the shard |
| `RouteRuns.RequestIsTold` | lb_agent/src/route_lb.cpp:27-80 | after any run: return code and code in the answer for a pair that is new, waits for its first answer, or has hosts, and when all hosts count as overloaded |
| `RouteLBs.RouteLB.GetHost` | lb_agent/src/route_lb.cpp:27-80 | the object answers and changes as the value does, and asks for the pair exactly when a pull is sent, which `RouteTables.PulledWhenExpired` says |
| `RouteLBs.RouteLB.GetRoute` | lb_agent/src/route_lb.cpp:83-135 | the addresses of all hosts of the pair, each once; a new pair is opened; it asks for the pair exactly when a pull is sent, as `RouteTables.PulledWhenExpired` says |
| `RouteLBs.RouteLB.UpdateHost` | lb_agent/src/route_lb.cpp:138-164 | an empty answer drops the balancer, another one updates it, an unknown pair is left alone |
| `RouteLBs.RouteLB.ReportHost` | lb_agent/src/route_lb.cpp:167-189 | the report is made on the pair's balancer alone, and its results are committed afterwards |
| `RouteLBs.RouteLB.ResetLbStatus` | lb_agent/src/route_lb.cpp:12-24 | the loop resets every balancer and nothing else |
| `Shards.HousedExactly` | lb_agent/src/dns_client.cpp:50 | exactly which pairs have a usable shard index, and it is the sum modulo 3 |
| `Shards.Disjoint` | lb_agent/src/dns_client.cpp:41-54 | no key is in two shards, so looking it up in the union is looking it up in its shard |
| `Shards.ThreeActAsOne` | lb_agent/src/agent_udp_server.cpp:95-107 | in every run of calls for such pairs and resets of single shards, the three shards act as one map, with the same pulls outstanding for each key |
| `Shards.AgentPicksFromLastAnswer` | api/cpp/api/api.cpp:98 | end to end, a host the agent returns for a pair stands in the last answer for it |
| `DnsRoutes.ScanFindsRows` | dns/src/dns_route.cpp:81-94 | a table loaded row by row finds for a pair exactly the hosts of the rows with that modid and cmdid |
| `DnsRoutes.ValueDecodes` | dns/src/dns_service.cpp:54-58 | a host's port is always decoded, its ip exactly when the port is not negative |
| `DnsRoutes.ReadersSeeWholeTables` | dns/src/dns_route.cpp:103-224 | at any point of any loading a reader finds the hosts of one complete query: the last one swapped in |
| `DnsRoutes.VisibleIsQueried` | dns/src/dns_route.cpp:173-224 | that query is the initial one, one of the run that succeeded, or one whose load was under way at the start |
| `DnsRoutes.ReadersSeeQueries` | dns/src/dns_route.cpp:103-224 | so a reader finds the hosts of the rows loaded at first or of a successful query of the run, never of a partial or failed load |
| `DnsRoutes.Route.GetHosts` | dns/src/dns_route.cpp:103-119 | the visible table's hosts for the pair, none when it has none |
| `DnsRoutes.Route.LoadVersion` | dns/src/dns_route.cpp:127-169 | whether the version changed, and an error leaves it alone |
| `DnsRoutes.Route.LoadRouteData` | dns/src/dns_route.cpp:173-213 | fills the hidden table with all rows, in which pairs are found as `DnsRoutes.ScanFindsRows` says, or empties it; the visible one is untouched |
| `DnsRoutes.Route.Swap` | dns/src/dns_route.cpp:217-224 | the tables change places and stay distinct |
| `DnsRoutes.Route.LoadChanges` | dns/src/dns_route.cpp:228-263 | the keys of all change rows found, none on a failure |
| `DnsRoutes.Route.CheckRound` | dns/src/dns_route.cpp:287-338 | one round: what is reloaded, published and deleted for each outcome of its queries |
| `ChangeLog.RoundAlone` | dns/src/dns_route.cpp:300-322 | a round that nothing comes between: with another version than the one seen, the rows stamped up to it are published over the current data and deleted; with the same, nothing happens |
| `ChangeLog.ReloadShows` | dns/src/dns_route.cpp:303-334 | a reload, for a change or on the timeout, shows the table as it was when it began, whatever writers do meanwhile |
| `ChangeLog.ReadersNeverGoBack` | dns/src/dns_route.cpp:293-338 | under any interleaving, failures and stamps included, the data readers see only gets newer |
| `ChangeLog.TimelyRunsAreSafe` | dns/src/dns_route.cpp:293-322 | under any interleaving, with stamps in any order, timely rows and successful queries: no change row is lost, and each is published when readers see exactly the table as it was at some point after its data write |
| `ChangeLog.UntimelyIsUnsafe` | dns/src/dns_route.cpp:300-322 | one row that is not timely spoils the round it falls into, so the condition is exact |
| `ChangeLog.FailuresAreUnsafe` | dns/src/dns_route.cpp:303-318 | a failed load or listing spoils its round exactly when a row is due that it would have served |
| `ChangeLog.FreshRunsAreSafe` | web/controllers/default.go:151-163 | with strictly increasing stamps every run from the purge on is safe |
| `ChangeLog.NothingIsLeft` | dns/src/dns_route.cpp:293-322 | when the thread has seen the current version and no writer is between its row and its bump, every row has been published over fresh data and none is left |
| `ChangeLog.SameSecondLoses` | web/models/modelFunc.go:76-88 | with stamps in seconds a row can be deleted unpublished |
| `Subscriptions.BookAdds` | dns/src/subscribe.cpp:18-24 | exactly the one pair is added, no set is empty |
| `Subscriptions.UnbookRemoves` | dns/src/subscribe.cpp:27-38 | exactly the one pair is removed, no set is empty |
| `Subscriptions.SubscribeList.Subscribe` | dns/src/subscribe.cpp:18-24 | the object's book changes as `BookAdds` describes |
| `Subscriptions.SubscribeList.Unsubscribe` | dns/src/subscribe.cpp:27-38 | the object's book changes as `UnbookRemoves` describes |
| `Subscriptions.SubscribeList.Publish` | dns/src/subscribe.cpp:65-91 | pending afterwards is what was pending and every subscriber of a changed key |
| `Subscriptions.SubscribeList.MakePublishMap` | dns/src/subscribe.cpp:41-61 | what is pending for the loop's connections moves out, the rest stays |
| `Subscriptions.SubscribeList.PushChangeTask` | dns/src/subscribe.cpp:93-145 | one message for every pair taken whose connection is there, none else, each with what the table visible at its lookup has, however the tables are swapped meanwhile |
| `Subscriptions.MessageIsForPair` | dns/src/subscribe.cpp:112-132 | a message goes to its subscriber and names the subscribed pair exactly when its cmdid is not negative, and then carries its hosts |
| `Subscriptions.PushesAreConserved` | dns/src/subscribe.cpp:41-107 | what was put on the push list has been taken once or is still there once |
| `Subscriptions.DrainsSplitTheList` | dns/src/subscribe.cpp:41-61 | loops with disjoint connections each take exactly their own, in any order; what is left belongs to none |
| `Subscriptions.IndexAgrees` | dns/src/dns_service.cpp:28-88 | over connects, requests, closes and pushes in any order the index agrees with what each connection has noted, no set is empty, a closed descriptor is nowhere |
| `Subscriptions.IndexIsRequested` | dns/src/dns_service.cpp:28-88 | in every run from the start, a connection between requests is in the index under exactly the keys it has requested since it was made, a closed one under none |
| `Subscriptions.NextOwns` | dns/src/subscribe.cpp:41-91 | what is pending for a connection stays within what it has noted on every action but exactly a connect of a descriptor with something pending |
| `Subscriptions.PushesReachSubscribers` | dns/src/subscribe.cpp:41-107 | a drain at whatever point of a run would push connections only what they noted exactly when the run has no such connect; and then the drains it makes push only that |
| `Subscriptions.SubscribersArePushed` | dns/src/subscribe.cpp:41-91 | a change of a key that a connection has requested stays pending for it, whatever comes next, until a drain by its own loop takes it |
| `Subscriptions.StalePush` | dns/src/subscribe.cpp:41-61 | a run in which a new connection is pushed a key it never subscribed to |
| `DnsServices.Client.GetRoute` | dns/src/dns_service.cpp:14-66 | subscribes the first time and answers with the hosts of the pair |
| `DnsServices.Client.ClearSubscribe` | dns/src/dns_service.cpp:75-88 | the loop takes the connection out of every set it noted, and no other out of any |

## Left out

- Sockets, epoll_wait, accept, connect and signals: reads and writes are parameters, what the kernel answers.
- `event_process`, the dispatch of fired events: callbacks are entered from outside the model.
- The callbacks of the message router: that they may send on their connection is modelled, what else they do is not.
- `ReactorBufs.ReactorBuf`: one class for the base class and its two subclasses, whose methods do not overlap.
- `ReactorBufs.ReactorBuf.ReadData`: a read delivers all that FIONREAD announced, as an assertion demands.
- `BufPools.BufPool`: the singleton and its mutex; a call is one step.
- Exits on memory exhaustion by `new`; the exit of `alloc_buf` at its own limit is the result `exited`.
- `TCPClient`, `UDPServer`, `UDPClient` and the message router's tables: TCPClient's parser does not check that a body has arrived whole.
- Byte order: the header is modelled little-endian, as on the machines the code is built for.
- Counters of 32 bits (`vsucc` and the others, `access_cnt_`) and of `int` lengths are unbounded here; rates are real numbers without rounding.
- `Hosts.HostInfo.SetOverload` and `SetIdle` take the time of the report; the code reads the clock once more there, a moment later.
- The order in which hash maps and sets are walked is any order.
- `RouteTables.PickIsFromLastAnswer`: for runs in which no call reads a deleted host; outside of them the code has no defined behaviour to describe.
- `LoadBalances.LoadBalance.DeleteAll` and the other loops over sets pick elements in any order.
- `Subscriptions.SubscribeList.MakePublishMap`: walks the keys there at the start; the code advances an iterator it has just erased, which C++ does not define.
- `ThreadPools.TaskLoop.ExecuteReadyTasks`: tasks that add tasks while the vector is walked are not modelled, for the same reason.
- MySQL: a query is one step that fails or gives rows. Connecting, and the purge that starts the checking thread, come before the modelled runs.
- `ChangeLog.FreshRunsAreSafe`: a deletion that fails does no harm to safety and is allowed there; `ChangeLog.NothingIsLeft` excludes it.
- A route edit in the web UI that changes the pair of a row logs only the new pair; the log is modelled as the UI writes it, one pair for one write.
- The reporter and its `StoreReport`, `ConfigFile`, logging, the web UI beyond its three writes, and the C++ client beyond its shard index.
