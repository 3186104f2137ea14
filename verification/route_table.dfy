// One shard of the agent: load balancers by (modid, cmdid), and the pull protocol.

module RouteTables {
  import opened Words
  import opened Hosts
  import opened Options
  import opened Balancers
  import opened BalancerRuns
  import opened LoadBalances

  // What happened to the pulls of a key: one was sent, or those so far stopped counting
  // because the balancer was made, updated, dropped or reset.
  datatype Mark = Sent(key: uint64) | Cleared(key: uint64) | ClearedSome(keys: set<uint64>)

  // The balancers, and the marks so far.
  datatype Shard = Shard(table: map<uint64, Balancer>, marks: seq<Mark>)

  function Outstanding(marks: seq<Mark>, key: uint64): nat {
    if marks == [] then 0
    else
      var last := marks[|marks| - 1];
      if (last.Cleared? && last.key == key) || (last.ClearedSome? && key in last.keys) then 0
      else Outstanding(marks[..|marks| - 1], key) + if last == Sent(key) then 1 else 0
  }

  lemma OutstandingAppend(marks: seq<Mark>, m: Mark, key: uint64)
    ensures Outstanding(marks + [m], key) ==
            if (m.Cleared? && m.key == key) || (m.ClearedSome? && key in m.keys) then 0
            else Outstanding(marks, key) + if m == Sent(key) then 1 else 0
  {
    assert (marks + [m])[..|marks|] == marks;
  }

  // ---------- The calls ----------

  datatype Call =
    | GetHost(key: uint64, now: int, access: int)
    | GetRoute(key: uint64, now: int, access: int)
    | UpdateHost(key: uint64, answer: seq<Addr>, memory: Memory, now: int)
    | ReportHost(key: uint64, ip: int32, port: int32, ok: bool, now: int)
    | ResetStatus(keys: set<uint64>)

  // The call stays clear of deleted hosts and empty queues.
  predicate Clear(cfg: Config, s: Shard, c: Call) {
    match c
    case GetHost(k, _, _) => k in s.table && !s.table[k].Empty() ==> CanPick(cfg, s.table[k])
    case GetRoute(k, _, _) => k in s.table ==> s.table[k].dangling == {}
    case UpdateHost(k, answer, _, _) => k in s.table && answer != [] ==> CanUpdate(s.table[k], answer)
    case ReportHost(k, ip, port, _, _) => k in s.table ==> Key(ip, port) !in s.table[k].dangling
    case ResetStatus(_) => true
  }

  // The assertion in get_host: a balancer without hosts is being pulled.
  predicate Aborts(s: Shard, c: Call) {
    c.GetHost? && c.key in s.table && s.table[c.key].Empty() && s.table[c.key].status != PULLING
  }

  function WithBalancer(s: Shard, k: uint64, b: Balancer): Shard {
    s.(table := s.table[k := b])
  }

  // A first request makes a balancer and pulls for it.
  function Open(s: Shard, k: uint64, access: int): Shard {
    WithBalancer(s, k, Created(access)).(marks := s.marks + [Cleared(k)] + [Sent(k)])
  }

  // Routes that have expired are pulled again, unless a pull is under way.
  function Refresh(cfg: Config, s: Shard, k: uint64, now: int): Shard
    requires k in s.table
  {
    var b := s.table[k];
    if b.status == NEW && now - b.lastUpdate > cfg.updateTimeout then
      WithBalancer(s, k, b.(status := PULLING)).(marks := s.marks + [Sent(k)])
    else s
  }

  // What get_host returns, the code in its answer, and the host in it.
  datatype Reply = Reply(ret: RetCode, retcode: RetCode, host: Option<uint64>)

  function ReplyTo(cfg: Config, s: Shard, k: uint64): Reply
    requires k in s.table && !s.table[k].Empty() ==> CanPick(cfg, s.table[k])
  {
    if k !in s.table then Reply(RET_NOEXIST, RET_NOEXIST, None)
    else if s.table[k].Empty() then Reply(RET_SUCC, RET_NOEXIST, None)
    else match Pick(cfg, s.table[k]).1
      case Some(h) => Reply(RET_SUCC, RET_SUCC, Some(h))
      case None => Reply(RET_OVERLOAD, RET_OVERLOAD, None)
  }

  function Unpulled(b: Balancer): Balancer { b.(status := NEW) }

  function Unpull(t: map<uint64, Balancer>, keys: set<uint64>): map<uint64, Balancer> {
    map k | k in t :: if k in keys then Unpulled(t[k]) else t[k]
  }

  function Reset(s: Shard, keys: set<uint64>): Shard {
    Shard(Unpull(s.table, keys), s.marks + [ClearedSome(keys)])
  }

  // reset_lb_status resets all balancers of its shard; in a table that holds those of
  // several shards, some.
  function ResetAll(s: Shard): Shard {
    Reset(s, s.table.Keys)
  }

  function Next(cfg: Config, s: Shard, c: Call): Shard
    requires Clear(cfg, s, c)
  {
    match c
    case GetHost(k, now, access) =>
      if k !in s.table then Open(s, k, access)
      else if s.table[k].Empty() then s
      else Refresh(cfg, WithBalancer(s, k, Pick(cfg, s.table[k]).0), k, now)
    case GetRoute(k, now, access) =>
      if k !in s.table then Open(s, k, access) else Refresh(cfg, s, k, now)
    case UpdateHost(k, answer, memory, now) =>
      if k !in s.table then s
      else if answer == [] then Shard(s.table - {k}, s.marks + [Cleared(k)])
      else Shard(s.table[k := Update(cfg, s.table[k], answer, memory, now)], s.marks + [Cleared(k)])
    case ReportHost(k, ip, port, ok, now) =>
      if k !in s.table then s
      else WithBalancer(s, k, Report(cfg, s.table[k], Key(ip, port), ok, now))
    case ResetStatus(keys) => Reset(s, keys)
  }

  // A step after which the pull queue holds one request more.
  predicate Sends(s: Shard, s': Shard, k: uint64) {
    |s'.marks| > |s.marks| && s'.marks[|s'.marks| - 1] == Sent(k)
  }

  // ---------- Runs ----------

  const NOTHING := Shard(map[], [])

  predicate Legal(cfg: Config, s: Shard, cs: seq<Call>)
    decreases |cs|
  {
    cs == [] || (Clear(cfg, s, cs[0]) && Legal(cfg, Next(cfg, s, cs[0]), cs[1..]))
  }

  function After(cfg: Config, s: Shard, cs: seq<Call>): Shard
    requires Legal(cfg, s, cs)
    decreases |cs|
  {
    if cs == [] then s else After(cfg, Next(cfg, s, cs[0]), cs[1..])
  }

  // ---------- The pull protocol ----------

  // Requests do not pile up: a balancer being pulled has one pull outstanding, any other
  // none.
  ghost predicate PullsMatch(s: Shard) {
    forall k :: k in s.table ==> Outstanding(s.marks, k) == if s.table[k].status == PULLING then 1 else 0
  }

  // What a call makes of one key, all others staying as they are.
  ghost predicate OnlyAt(s: Shard, s': Shard, key: uint64) {
    && (forall k :: k != key ==> (k in s'.table <==> k in s.table))
    && (forall k :: k in s.table && k != key ==> s'.table[k] == s.table[k])
    && (forall k :: k != key ==> Outstanding(s'.marks, k) == Outstanding(s.marks, k))
  }

  lemma NextIsLocal(cfg: Config, s: Shard, c: Call)
    requires Clear(cfg, s, c) && !c.ResetStatus?
    ensures OnlyAt(s, Next(cfg, s, c), c.key)
  {
    hide Pick, Update, Report, Outstanding;
    forall k, m { OutstandingAppend(s.marks, m, k); }
    forall k { OutstandingAppend(s.marks + [Cleared(c.key)], Sent(c.key), k); }
  }

  lemma RefreshPulls(cfg: Config, s: Shard, k: uint64, now: int)
    requires k in s.table && Outstanding(s.marks, k) == if s.table[k].status == PULLING then 1 else 0
    ensures var s' := Refresh(cfg, s, k, now);
            k in s'.table && Outstanding(s'.marks, k) == if s'.table[k].status == PULLING then 1 else 0
  {
    OutstandingAppend(s.marks, Sent(k), k);
  }

  lemma OpenPulls(s: Shard, k: uint64, access: int)
    ensures Outstanding(Open(s, k, access).marks, k) == 1
    ensures k in Open(s, k, access).table && Open(s, k, access).table[k].status == PULLING
  {
    OutstandingAppend(s.marks, Cleared(k), k);
    OutstandingAppend(s.marks + [Cleared(k)], Sent(k), k);
  }

  lemma StatusAfter(cfg: Config, b: Balancer)
    ensures CanPick(cfg, b) ==> Pick(cfg, b).0.status == b.status && Pick(cfg, b).0.lastUpdate == b.lastUpdate
  {
  }

  lemma StatusUpdated(cfg: Config, b: Balancer, answer: seq<Addr>, memory: Memory, now: int)
    requires CanUpdate(b, answer)
    ensures Update(cfg, b, answer, memory, now).status == NEW
  {
    hide KeysIn, Added, Among, Novel;
  }

  lemma NextKeepsPulls(cfg: Config, s: Shard, c: Call)
    requires PullsMatch(s) && Clear(cfg, s, c)
    ensures PullsMatch(Next(cfg, s, c))
  {
    hide Outstanding, Pick, CanPick, Update, CanUpdate, Key, Open, Refresh;
    match c
    case GetHost(k, now, access) =>
      NextIsLocal(cfg, s, c);
      OpenPulls(s, k, access);
      if k in s.table && !s.table[k].Empty() {
        StatusAfter(cfg, s.table[k]);
        RefreshPulls(cfg, WithBalancer(s, k, Pick(cfg, s.table[k]).0), k, now);
      }
    case GetRoute(k, now, access) =>
      NextIsLocal(cfg, s, c);
      OpenPulls(s, k, access);
      if k in s.table {
        RefreshPulls(cfg, s, k, now);
      }
    case UpdateHost(k, answer, memory, now) =>
      NextIsLocal(cfg, s, c);
      OutstandingAppend(s.marks, Cleared(k), k);
      if k in s.table && answer != [] {
        StatusUpdated(cfg, s.table[k], answer, memory, now);
      }
    case ReportHost(k, ip, port, ok, now) =>
      NextIsLocal(cfg, s, c);
      if k in s.table {
        ReportChanges(cfg, s.table[k], Key(ip, port), ok, now);
      }
    case ResetStatus(keys) =>
      forall k { OutstandingAppend(s.marks, ClearedSome(keys), k); }
  }

  // MAIN: in every run, the pulls sent for a key since its balancer was made, updated or
  // reset are one if it is being pulled and none otherwise.
  lemma {:induction false} PullsNeverPileUp(cfg: Config, s: Shard, cs: seq<Call>)
    requires PullsMatch(s) && Legal(cfg, s, cs)
    ensures PullsMatch(After(cfg, s, cs))
    decreases |cs|
  {
    if cs != [] {
      NextKeepsPulls(cfg, s, cs[0]);
      hide PullsMatch, Clear, Next;
      PullsNeverPileUp(cfg, Next(cfg, s, cs[0]), cs[1..]);
    }
  }

  // ---------- The assertion in get_host ----------

  // A balancer without hosts is being pulled.
  ghost predicate HostlessPulled(s: Shard) {
    forall k :: k in s.table && s.table[k].Empty() ==> s.table[k].status == PULLING
  }

  // Every balancer of some keys has hosts.
  predicate Hostful(s: Shard, keys: set<uint64>) {
    forall k :: k in s.table && k in keys ==> !s.table[k].Empty()
  }

  // An update leaves keys behind and does not forget any.
  lemma UpdateKnows(cfg: Config, b: Balancer, answer: seq<Addr>, memory: Memory, now: int)
    requires CanUpdate(b, answer)
    ensures Update(cfg, b, answer, memory, now).Known() == b.Known() + KeysIn(answer)
    ensures !Update(cfg, b, answer, memory, now).Empty()
  {
    assert KeyOf(answer[0]) in KeysIn(answer);
    UpdateHosts(cfg, b, answer, memory, now);
    hide KeysIn, KeyOf, Initial;
  }

  // Only a reset that meets a balancer without hosts can set the assertion up to fail.
  lemma NextKeepsHostlessPulled(cfg: Config, s: Shard, c: Call)
    requires HostlessPulled(s) && Clear(cfg, s, c)
    ensures HostlessPulled(Next(cfg, s, c)) <==> c.ResetStatus? ==> Hostful(s, c.keys)
  {
    match c
    case UpdateHost(k, answer, memory, now) =>
      if k in s.table && answer != [] {
        UpdateKnows(cfg, s.table[k], answer, memory, now);
      }
      hide Update, KeysIn;
    case ReportHost(k, ip, port, ok, now) =>
      hide Key;
      if k in s.table {
        ReportChanges(cfg, s.table[k], Key(ip, port), ok, now);
      }
      hide Report;
    case ResetStatus(_) =>
      assert Next(cfg, s, c).table.Keys == s.table.Keys;
      assert forall k :: k in s.table ==> (Next(cfg, s, c).table[k].Empty() <==> s.table[k].Empty());
    case _ =>
  }

  // While that holds no get_host aborts; otherwise some get_host does.
  lemma AbortsExactly(s: Shard)
    ensures HostlessPulled(s) <==> forall k, now, access :: !Aborts(s, GetHost(k, now, access))
  {
    if k :| k in s.table && s.table[k].Empty() && s.table[k].status != PULLING {
      assert Aborts(s, GetHost(k, 0, 0));
    }
  }

  // Every reset of the run comes when every balancer that it resets has hosts.
  predicate GentleResets(cfg: Config, s: Shard, cs: seq<Call>)
    requires Legal(cfg, s, cs)
    decreases |cs|
  {
    cs == [] || ((cs[0].ResetStatus? ==> Hostful(s, cs[0].keys)) && GentleResets(cfg, Next(cfg, s, cs[0]), cs[1..]))
  }

  predicate NoneAborts(cfg: Config, s: Shard, cs: seq<Call>)
    requires Legal(cfg, s, cs)
    decreases |cs|
  {
    cs == [] || (!Aborts(s, cs[0]) && NoneAborts(cfg, Next(cfg, s, cs[0]), cs[1..]))
  }

  // MAIN: a run whose resets are all gentle never fails the assertion.
  lemma {:induction false} AssertionHolds(cfg: Config, s: Shard, cs: seq<Call>)
    requires HostlessPulled(s) && Legal(cfg, s, cs) && GentleResets(cfg, s, cs)
    ensures NoneAborts(cfg, s, cs) && HostlessPulled(After(cfg, s, cs))
    decreases |cs|
  {
    if cs != [] {
      NextKeepsHostlessPulled(cfg, s, cs[0]);
      assert !Aborts(s, cs[0]);
      hide HostlessPulled, Clear, Next, Aborts, Hostful;
      AssertionHolds(cfg, Next(cfg, s, cs[0]), cs[1..]);
    }
  }

  // A reset is harmless exactly when no balancer it resets lacks hosts; otherwise it puts an abort
  // one request away.
  lemma ResetIsHarmless(cfg: Config, s: Shard, keys: set<uint64>)
    requires HostlessPulled(s)
    ensures Hostful(s, keys) <==> forall k, now, access :: !Aborts(Reset(s, keys), GetHost(k, now, access))
  {
    NextKeepsHostlessPulled(cfg, s, ResetStatus(keys));
    AbortsExactly(Reset(s, keys));
    hide HostlessPulled, Reset, Aborts, Hostful;
  }

  // The failing run: a first request, a reset before its answer, the request again.
  lemma ResetThenAbort(cfg: Config, k: uint64, now: int, access: int)
    ensures var cs := [GetHost(k, now, access), ResetStatus({k}), GetHost(k, now, access)];
            Legal(cfg, NOTHING, cs) && !NoneAborts(cfg, NOTHING, cs)
  {
    var c, reset := GetHost(k, now, access), ResetStatus({k});
    var cs := [c, reset, c];
    assert cs[1..] == [reset, c] && [reset, c][1..] == [c] && [c][1..] == [];
    var s1 := Next(cfg, NOTHING, c);
    var s2 := Next(cfg, s1, reset);
    assert s1.table.Keys == {k} && s2 == ResetAll(s1);
    assert s2.table[k].Empty() && s2.table[k].status == NEW;
    assert Legal(cfg, s2, [c]) && !NoneAborts(cfg, s2, [c]);
    assert Legal(cfg, s1, [reset, c]) && !NoneAborts(cfg, s1, [reset, c]);
  }

  // ---------- What is served ----------

  // The answer that the last update of a key in a run brought, empty or not, and when.
  function LastAnswer(cs: seq<Call>, k: uint64): Option<seq<Addr>> {
    if cs == [] then None
    else
      var c := cs[|cs| - 1];
      if c.UpdateHost? && c.key == k then Some(c.answer) else LastAnswer(cs[..|cs| - 1], k)
  }

  function LastTime(cs: seq<Call>, k: uint64): int {
    if cs == [] then 0
    else
      var c := cs[|cs| - 1];
      if c.UpdateHost? && c.key == k then c.now else LastTime(cs[..|cs| - 1], k)
  }

  // A balancer is empty and was never updated, or serves the hosts of the last answer for
  // its key that do not dangle, since that answer.
  ghost predicate ServesLast(past: seq<Call>, k: uint64, b: Balancer) {
    && b.Partitioned()
    && (b.Empty() ==> b.lastUpdate == 0)
    && (!b.Empty() ==>
          var last := LastAnswer(past, k);
          && last.Some? && last.value != [] && b.hosts.Keys == KeysIn(last.value) - b.dangling
          && b.lastUpdate == LastTime(past, k))
  }

  ghost predicate AllServeLast(past: seq<Call>, s: Shard) {
    forall k :: k in s.table ==> ServesLast(past, k, s.table[k])
  }

  lemma LastAnswerAppend(past: seq<Call>, c: Call, k: uint64)
    ensures LastAnswer(past + [c], k) ==
            if c.UpdateHost? && c.key == k then Some(c.answer) else LastAnswer(past, k)
    ensures LastTime(past + [c], k) == if c.UpdateHost? && c.key == k then c.now else LastTime(past, k)
  {
    assert (past + [c])[..|past|] == past;
  }

  lemma UpdateServes(cfg: Config, past: seq<Call>, k: uint64, b: Balancer, c: Call)
    requires c.UpdateHost? && c.key == k && CanUpdate(b, c.answer) && b.Partitioned()
    ensures ServesLast(past + [c], k, Update(cfg, b, c.answer, c.memory, c.now))
  {
    LastAnswerAppend(past, c, k);
    UpdateKeeps(cfg, b, c.answer, c.memory, c.now);
    UpdateHosts(cfg, b, c.answer, c.memory, c.now);
    UpdatePartition(b, KeysIn(c.answer));
    UpdateKnows(cfg, b, c.answer, c.memory, c.now);
    hide KeysIn, LastAnswer, LastTime, Initial;
    assert Update(cfg, b, c.answer, c.memory, c.now).dangling == b.dangling + (b.hosts.Keys - KeysIn(c.answer));
    assert Update(cfg, b, c.answer, c.memory, c.now).lastUpdate == c.now;
    hide Update, Balancer.Partitioned;
  }

  lemma UpdatePartition(b: Balancer, remote: set<uint64>)
    requires b.Partitioned()
    ensures b.hosts.Keys * remote + (remote - b.Known())
            == remote - (b.dangling + (b.hosts.Keys - remote))
  {
    hide HostKey, Split;
  }

  lemma StatusAside(b: Balancer)
    ensures forall status :: b.(status := status).Partitioned() <==> b.Partitioned()
  {
    hide Split;
  }

  // The balancer of a key after a call that is not an update: new, or as partitioned as
  // before and with the same hosts.
  lemma OthersKeep(cfg: Config, s: Shard, c: Call, k: uint64)
    requires Clear(cfg, s, c) && !c.UpdateHost? && k in Next(cfg, s, c).table
    requires k in s.table ==> s.table[k].Partitioned()
    ensures var b' := Next(cfg, s, c).table[k];
            && b'.Partitioned()
            && (k !in s.table ==> b'.Empty() && b'.lastUpdate == 0)
            && (k in s.table ==> b'.hosts.Keys == s.table[k].hosts.Keys && b'.dangling == s.table[k].dangling
                                 && b'.lastUpdate == s.table[k].lastUpdate)
  {
    hide Key, HostKey, Balancer.Partitioned, Pick, CanPick, Report;
    if k !in s.table {
      assert c.GetHost? ==> c.key == k;
      CreatedPartitioned(c.access);
    } else {
      var b := s.table[k];
      StatusAside(b);
      if c.ReportHost? && c.key == k {
        ReportKeeps(cfg, b, Key(c.ip, c.port), c.ok, c.now);
        ReportChanges(cfg, b, Key(c.ip, c.port), c.ok, c.now);
      } else if c.GetHost? && c.key == k && !b.Empty() {
        PickKeeps(cfg, b);
        StatusAfter(cfg, b);
        StatusAside(Pick(cfg, b).0);
      }
    }
  }

  lemma OthersServe(cfg: Config, past: seq<Call>, s: Shard, c: Call, k: uint64)
    requires AllServeLast(past, s) && Clear(cfg, s, c) && !c.UpdateHost? && k in Next(cfg, s, c).table
    ensures ServesLast(past + [c], k, Next(cfg, s, c).table[k])
  {
    LastAnswerAppend(past, c, k);
    assert k in s.table ==> ServesLast(past, k, s.table[k]);
    hide LastAnswer, LastTime, KeysIn, Next, Clear, Balancer.Partitioned;
    OthersKeep(cfg, s, c, k);
  }

  lemma NextKeepsServing(cfg: Config, past: seq<Call>, s: Shard, c: Call)
    requires AllServeLast(past, s) && Clear(cfg, s, c)
    ensures AllServeLast(past + [c], Next(cfg, s, c))
  {
    forall k | k in Next(cfg, s, c).table ensures ServesLast(past + [c], k, Next(cfg, s, c).table[k]) {
      if !c.UpdateHost? {
        OthersServe(cfg, past, s, c, k);
      } else if c.key == k {
        UpdateServes(cfg, past, k, s.table[k], c);
      } else {
        LastAnswerAppend(past, c, k);
        hide LastAnswer, LastTime, KeysIn, Update, Balancer.Partitioned;
        assert ServesLast(past, k, s.table[k]);
      }
    }
  }

  lemma {:induction false} RunServesLast(cfg: Config, past: seq<Call>, s: Shard, cs: seq<Call>)
    requires AllServeLast(past, s) && Legal(cfg, s, cs)
    ensures AllServeLast(past + cs, After(cfg, s, cs))
    decreases |cs|
  {
    if cs == [] {
      assert past + cs == past;
    } else {
      NextKeepsServing(cfg, past, s, cs[0]);
      hide AllServeLast, Clear, Next;
      assert past + [cs[0]] + cs[1..] == past + cs;
      RunServesLast(cfg, past + [cs[0]], Next(cfg, s, cs[0]), cs[1..]);
    }
  }

  // The address a host object holds.
  function AddressOf(h: Host): Addr { Addr(AsInt32(h.ip), h.port) }

  lemma AddressInAnswer(b: Balancer, answer: seq<Addr>, h: uint64)
    requires b.Partitioned() && h in b.hosts && h in KeysIn(answer)
    ensures AddressOf(b.hosts[h]) in answer
  {
    var a :| a in answer && KeyOf(a) == h;
    KeyInjective(a.ip, a.port, AsInt32(b.hosts[h].ip), b.hosts[h].port);
    hide Key;
  }

  // MAIN: whatever mix of requests, answers and reports came before, a host that get_host
  // returns is live and its address stands in the last answer for that key, and that
  // answer was not empty.
  lemma PickIsFromLastAnswer(cfg: Config, cs: seq<Call>, k: uint64)
    requires Legal(cfg, NOTHING, cs)
    ensures var s := After(cfg, NOTHING, cs);
            k in s.table && !s.table[k].Empty() && CanPick(cfg, s.table[k]) && ReplyTo(cfg, s, k).host.Some? ==>
              var h := ReplyTo(cfg, s, k).host.value;
              && h in s.table[k].hosts && LastAnswer(cs, k).Some?
              && AddressOf(s.table[k].hosts[h]) in LastAnswer(cs, k).value
  {
    RunServesLast(cfg, [], NOTHING, cs);
    var s := After(cfg, NOTHING, cs);
    assert [] + cs == cs;
    if k in s.table && !s.table[k].Empty() && CanPick(cfg, s.table[k]) && ReplyTo(cfg, s, k).host.Some? {
      PickKeeps(cfg, s.table[k]);
      assert ServesLast(cs, k, s.table[k]);
      var last := LastAnswer(cs, k).value;
      hide KeysIn, HostKey, After;
      AddressInAnswer(s.table[k], last, ReplyTo(cfg, s, k).host.value);
    }
  }

  // MAIN: a balancer without dangling keys serves exactly the last answer.
  lemma RouteIsLastAnswer(cfg: Config, cs: seq<Call>, k: uint64)
    requires Legal(cfg, NOTHING, cs)
    ensures var s := After(cfg, NOTHING, cs);
            k in s.table && !s.table[k].Empty() && s.table[k].dangling == {} ==>
              && LastAnswer(cs, k).Some? && s.table[k].hosts.Keys == KeysIn(LastAnswer(cs, k).value)
              && forall h :: h in s.table[k].hosts ==> AddressOf(s.table[k].hosts[h]) in LastAnswer(cs, k).value
  {
    RunServesLast(cfg, [], NOTHING, cs);
    var s := After(cfg, NOTHING, cs);
    assert [] + cs == cs;
    if k in s.table && !s.table[k].Empty() && s.table[k].dangling == {} {
      assert ServesLast(cs, k, s.table[k]);
      var last := LastAnswer(cs, k).value;
      hide KeysIn, HostKey, After;
      forall h | h in s.table[k].hosts ensures AddressOf(s.table[k].hosts[h]) in last {
        AddressInAnswer(s.table[k], last, h);
      }
    }
  }

  // ---------- Expired routes ----------

  // A balancer that is not being pulled and whose last answer has expired; one never
  // answered counts from the time 0 that its constructor gives it.
  predicate Expired(cfg: Config, cs: seq<Call>, k: uint64, b: Balancer, now: int) {
    b.status == NEW && now - (if b.Empty() then 0 else LastTime(cs, k)) > cfg.updateTimeout
  }

  // A request in terms of what the balancer itself keeps.
  lemma RequestPulls(cfg: Config, s: Shard, c: Call)
    requires Clear(cfg, s, c) && PullsMatch(s) && (c.GetHost? || c.GetRoute?)
    ensures var s', k := Next(cfg, s, c), c.key;
            var asks := k !in s.table || (s.table[k].status == NEW
                                          && c.now - s.table[k].lastUpdate > cfg.updateTimeout
                                          && (c.GetHost? ==> !s.table[k].Empty()));
            && (Sends(s, s', k) <==> asks) && k in s'.table
            && (asks ==> s'.table[k].status == PULLING)
            && (!asks ==> s'.table[k].status == s.table[k].status && s'.marks == s.marks)
  {
    hide Pick, CanPick, Outstanding, Balancer.Empty;
    if k :| k == c.key && k in s.table {
      StatusAfter(cfg, s.table[k]);
    }
  }

  // MAIN: after whatever run, a request for a host or a route sends a pull exactly when
  // the pair is new, or its last answer has expired and no pull is under way. Then the
  // pair is being pulled, with that one pull outstanding; otherwise nothing changes in
  // that. Only a request for a host of a balancer without hosts leaves it as it is.
  lemma PulledWhenExpired(cfg: Config, cs: seq<Call>, c: Call)
    requires Legal(cfg, NOTHING, cs) && Clear(cfg, After(cfg, NOTHING, cs), c) && (c.GetHost? || c.GetRoute?)
    ensures var s, k := After(cfg, NOTHING, cs), c.key;
            var s' := Next(cfg, s, c);
            var asks := k !in s.table
                        || (Expired(cfg, cs, k, s.table[k], c.now) && (c.GetHost? ==> !s.table[k].Empty()));
            && (Sends(s, s', k) <==> asks) && k in s'.table
            && (asks ==> s'.table[k].status == PULLING && Outstanding(s'.marks, k) == 1)
            && (!asks ==> s'.table[k].status == s.table[k].status
                          && Outstanding(s'.marks, k) == Outstanding(s.marks, k))
            && (k in s.table && s.table[k].status == NEW ==> Outstanding(s.marks, k) == 0)
  {
    var s, k := After(cfg, NOTHING, cs), c.key;
    RunServesLast(cfg, [], NOTHING, cs);
    assert [] + cs == cs;
    PullsNeverPileUp(cfg, NOTHING, cs);
    NextKeepsPulls(cfg, s, c);
    RequestPulls(cfg, s, c);
    if k in s.table {
      assert ServesLast(cs, k, s.table[k]);
    }
    hide LastAnswer, LastTime, KeysIn, After, Legal, Balancer.Partitioned, Next, Clear, Outstanding, Sends,
      Balancer.Empty;
  }

  // So once a reset has forgotten the pulls under way, the next request for the route of
  // a known pair pulls again if and only if it has expired, whether or not a pull was.
  lemma ResetPullsAgain(cfg: Config, cs: seq<Call>, keys: set<uint64>, k: uint64, now: int, access: int)
    requires Legal(cfg, NOTHING, cs) && k in keys && k in After(cfg, NOTHING, cs).table
    requires After(cfg, NOTHING, cs).table[k].dangling == {}
    ensures var b, s := After(cfg, NOTHING, cs).table[k], Reset(After(cfg, NOTHING, cs), keys);
            && Outstanding(s.marks, k) == 0
            && (Sends(s, Next(cfg, s, GetRoute(k, now, access)), k) <==>
                  now - (if b.Empty() then 0 else LastTime(cs, k)) > cfg.updateTimeout)
  {
    var s := After(cfg, NOTHING, cs);
    RunServesLast(cfg, [], NOTHING, cs);
    assert [] + cs == cs && ServesLast(cs, k, s.table[k]);
    PullsNeverPileUp(cfg, NOTHING, cs);
    NextKeepsPulls(cfg, s, ResetStatus(keys));
    RequestPulls(cfg, Reset(s, keys), GetRoute(k, now, access));
    hide LastAnswer, LastTime, KeysIn, After, Legal, Balancer.Partitioned, Outstanding, Balancer.Empty;
  }

  // ---------- With the keys erased ----------

  function Erased(s: Shard): Shard {
    s.(table := map k | k in s.table :: s.table[k].(dangling := {}))
  }

  // A call when every update also erases the keys of the hosts it drops.
  function NextErasing(cfg: Config, s: Shard, c: Call): Shard {
    if Clear(cfg, s, c) then Erased(Next(cfg, s, c)) else s
  }

  function AfterErasing(cfg: Config, s: Shard, cs: seq<Call>): Shard
    decreases |cs|
  {
    if cs == [] then s else AfterErasing(cfg, NextErasing(cfg, s, cs[0]), cs[1..])
  }

  ghost predicate NoneDangling(s: Shard) {
    forall k :: k in s.table ==> s.table[k].dangling == {}
  }

  // Then nothing is ever in the way of a call.
  lemma AllClear(cfg: Config, past: seq<Call>, s: Shard, c: Call)
    requires AllServeLast(past, s) && NoneDangling(s)
    ensures Clear(cfg, s, c)
  {
    hide HostKey, Split, LastAnswer, LastTime;
    if !c.ResetStatus? && c.key in s.table {
      assert ServesLast(past, c.key, s.table[c.key]);
      AllDefined(cfg, s.table[c.key]);
    }
  }

  lemma ErasedServes(past: seq<Call>, k: uint64, b: Balancer)
    requires ServesLast(past, k, b)
    requires !b.Empty() ==> b.dangling !! KeysIn(LastAnswer(past, k).value)
    ensures ServesLast(past, k, b.(dangling := {}))
  {
    hide HostKey, Split, LastAnswer, LastTime;
    if !b.Empty() {
      var last := LastAnswer(past, k).value;
      assert KeyOf(last[0]) in KeysIn(last);
      hide KeysIn;
      assert b.(dangling := {}).Known() == b.Known() - b.dangling;
    }
  }

  // Right after an update from a clean state the dangling keys are none of the answer's.
  lemma NextDanglesApart(cfg: Config, past: seq<Call>, s: Shard, c: Call, k: uint64)
    requires AllServeLast(past, s) && NoneDangling(s) && Clear(cfg, s, c) && k in Next(cfg, s, c).table
    ensures var b := Next(cfg, s, c).table[k];
            b.dangling == {} || (c.UpdateHost? && c.key == k && b.dangling !! KeysIn(c.answer))
  {
    hide LastAnswer, LastTime, KeysIn, Balancer.Partitioned;
    if k in s.table {
      assert ServesLast(past, k, s.table[k]);
    }
    if !c.UpdateHost? {
      OthersKeep(cfg, s, c, k);
      if k !in s.table {
        assert Next(cfg, s, c).table[k].Known() == {};
      }
    } else if c.key == k {
      KnownAfterUpdate(cfg, s.table[k], c.answer, c.memory, c.now);
    }
  }

  lemma NextErasingServes(cfg: Config, past: seq<Call>, s: Shard, c: Call)
    requires AllServeLast(past, s) && NoneDangling(s)
    ensures AllServeLast(past + [c], NextErasing(cfg, s, c)) && NoneDangling(NextErasing(cfg, s, c))
  {
    hide Next, Clear, LastAnswer, LastTime, KeysIn, ServesLast, Balancer.Empty;
    AllClear(cfg, past, s, c);
    NextKeepsServing(cfg, past, s, c);
    forall k | k in Next(cfg, s, c).table
      ensures ServesLast(past + [c], k, Next(cfg, s, c).table[k].(dangling := {}))
    {
      NextDanglesApart(cfg, past, s, c, k);
      LastAnswerAppend(past, c, k);
      ErasedServes(past + [c], k, Next(cfg, s, c).table[k]);
    }
  }

  lemma {:induction false} RunErasingServes(cfg: Config, past: seq<Call>, s: Shard, cs: seq<Call>)
    requires AllServeLast(past, s) && NoneDangling(s)
    ensures AllServeLast(past + cs, AfterErasing(cfg, s, cs)) && NoneDangling(AfterErasing(cfg, s, cs))
    decreases |cs|
  {
    if cs == [] {
      assert past + cs == past;
    } else {
      NextErasingServes(cfg, past, s, cs[0]);
      hide AllServeLast, NoneDangling, NextErasing;
      assert past + [cs[0]] + cs[1..] == past + cs;
      RunErasingServes(cfg, past + [cs[0]], NextErasing(cfg, s, cs[0]), cs[1..]);
    }
  }

  // MAIN: with the keys erased, whatever calls come: a balancer that is not empty can be
  // picked from, serves exactly the last answer for its key, and a host that get_host
  // returns has its address in it.
  lemma ErasingPicksFromLastAnswer(cfg: Config, cs: seq<Call>, k: uint64)
    ensures var s := AfterErasing(cfg, NOTHING, cs);
            k in s.table && !s.table[k].Empty() ==>
              var b, last := s.table[k], LastAnswer(cs, k);
              && last.Some? && b.hosts.Keys == KeysIn(last.value) && CanPick(cfg, b)
              && (ReplyTo(cfg, s, k).host.Some? ==>
                    var h := ReplyTo(cfg, s, k).host.value;
                    h in b.hosts && AddressOf(b.hosts[h]) in last.value)
  {
    hide AfterErasing, KeysIn, LastAnswer, LastTime, HostKey, Split;
    RunErasingServes(cfg, [], NOTHING, cs);
    var s := AfterErasing(cfg, NOTHING, cs);
    assert [] + cs == cs;
    if k in s.table && !s.table[k].Empty() {
      var b := s.table[k];
      assert ServesLast(cs, k, b);
      AllDefined(cfg, b);
      PickKeeps(cfg, b);
      hide Balancer.Partitioned;
      if ReplyTo(cfg, s, k).host.Some? {
        AddressInAnswer(b, LastAnswer(cs, k).value, ReplyTo(cfg, s, k).host.value);
      }
    }
  }
}
