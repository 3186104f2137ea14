// The three shards of the agent: which one a (modid, cmdid) belongs to, and why together
// they are one map.

module Shards {
  import opened Words
  import opened Hosts
  import opened Options
  import opened Balancers
  import opened RouteTables

  // (modid + cmdid) % 3 in C: the sum of two ints may overflow, which is not defined, and
  // the remainder of a negative sum is negative.
  function ShardIndex(modid: int32, cmdid: int32): Option<int> {
    var sum: int := modid + cmdid;
    if -0x8000_0000 <= sum < 0x8000_0000 then Some(Remainder(sum, 3)) else None
  }

  // The index can be used on an array of three.
  predicate Housed(modid: int32, cmdid: int32) {
    var i := ShardIndex(modid, cmdid);
    i.Some? && 0 <= i.value < 3
  }

  // Exactly these pairs have a shard.
  lemma HousedExactly(modid: int32, cmdid: int32)
    ensures Housed(modid, cmdid) <==>
            var sum: int := modid + cmdid;
            sum < 0x8000_0000 && (sum >= 0 || (sum >= -0x8000_0000 && sum % 3 == 0))
    ensures Housed(modid, cmdid) ==> ShardIndex(modid, cmdid) == Some((modid + cmdid) % 3)
  {
  }

  // All that the shards share is a request's way to its shard: the port the client sends
  // it to, and the index the DNS answer is filed under.
  type Agent = s: seq<Shard> | |s| == 3 witness [NOTHING, NOTHING, NOTHING]

  ghost predicate At(i: int, k: uint64) {
    exists modid: int32, cmdid: int32 :: Key(modid, cmdid) == k && ShardIndex(modid, cmdid) == Some(i)
  }

  // Each shard holds keys of its own pairs only.
  ghost predicate Homed(a: Agent) {
    forall i, k :: 0 <= i < 3 && k in a[i].table ==> At(i, k)
  }

  function Union(a: Agent): map<uint64, Balancer> {
    a[0].table + a[1].table + a[2].table
  }

  lemma OneHome(i: int, j: int, k: uint64)
    requires At(i, k) && At(j, k)
    ensures i == j
  {
    var m, c :| Key(m, c) == k && ShardIndex(m, c) == Some(i);
    var m', c' :| Key(m', c') == k && ShardIndex(m', c') == Some(j);
    KeyInjective(m, c, m', c');
  }

  // MAIN: the key sets of the shards are disjoint, so a key is looked up in the union
  // exactly as in its shard.
  lemma Disjoint(a: Agent, i: int, k: uint64)
    requires Homed(a) && 0 <= i < 3 && At(i, k)
    ensures forall j :: 0 <= j < 3 && k in a[j].table ==> j == i
    ensures k in Union(a) <==> k in a[i].table
    ensures k in Union(a) ==> Union(a)[k] == a[i].table[k]
  {
    forall j | 0 <= j < 3 && k in a[j].table ensures j == i {
      OneHome(i, j, k);
    }
  }

  // ---------- Runs ----------

  // A call for a pair, or the reset of one shard; a new connection to the DNS service
  // resets the three of them one after the other.
  datatype Event = On(modid: int32, cmdid: int32, call: Call) | Resets(shard: int)

  predicate Proper(e: Event) {
    match e
    case On(modid, cmdid, call) => Housed(modid, cmdid) && !call.ResetStatus? && call.key == Key(modid, cmdid)
    case Resets(i) => 0 <= i < 3
  }

  predicate ClearIn(cfg: Config, a: Agent, e: Event)
    requires Proper(e)
  {
    e.On? ==> Clear(cfg, a[ShardIndex(e.modid, e.cmdid).value], e.call)
  }

  function Step(cfg: Config, a: Agent, e: Event): Agent
    requires Proper(e) && ClearIn(cfg, a, e)
  {
    match e
    case On(modid, cmdid, call) =>
      var i := ShardIndex(modid, cmdid).value;
      a[i := Next(cfg, a[i], call)]
    case Resets(i) => a[i := ResetAll(a[i])]
  }

  // The same on a single shard.
  function AsCall(a: Agent, e: Event): Call
    requires Proper(e)
  {
    match e
    case On(_, _, call) => call
    case Resets(i) => ResetStatus(a[i].table.Keys)
  }

  // A single shard in the place of three: the same balancers, and for each the same
  // pulls outstanding.
  ghost predicate Same(a: Agent, s: Shard) {
    Homed(a) && s.table == Union(a) && SamePulls(a, s)
  }

  ghost predicate SamePulls(a: Agent, s: Shard) {
    forall i, k :: 0 <= i < 3 && k in a[i].table ==> Outstanding(a[i].marks, k) == Outstanding(s.marks, k)
  }

  // Two shards that agree at the key of a call agree there afterwards.
  ghost predicate AgreeAt(s: Shard, s': Shard, k: uint64) {
    && (k in s.table <==> k in s'.table)
    && (k in s.table ==> s.table[k] == s'.table[k] && Outstanding(s.marks, k) == Outstanding(s'.marks, k))
  }

  lemma NextAtKey(cfg: Config, s: Shard, s': Shard, c: Call)
    requires !c.ResetStatus? && Clear(cfg, s, c) && AgreeAt(s, s', c.key)
    ensures Clear(cfg, s', c) && AgreeAt(Next(cfg, s, c), Next(cfg, s', c), c.key)
    ensures c.GetHost? ==> (Aborts(s, c) <==> Aborts(s', c)) && ReplyTo(cfg, s, c.key) == ReplyTo(cfg, s', c.key)
  {
    hide Outstanding, Pick, CanPick, Update, CanUpdate, Report, Key;
    PullsAt(s.marks, c.key);
    PullsAt(s'.marks, c.key);
  }

  // What the marks of a call make of the pulls of its key.
  lemma PullsAt(marks: seq<Mark>, k: uint64)
    ensures Outstanding(marks + [Cleared(k)], k) == 0
    ensures Outstanding(marks + [Sent(k)], k) == Outstanding(marks, k) + 1
    ensures Outstanding(marks + [Cleared(k)] + [Sent(k)], k) == 1
  {
    OutstandingAppend(marks, Cleared(k), k);
    OutstandingAppend(marks, Sent(k), k);
    OutstandingAppend(marks + [Cleared(k)], Sent(k), k);
  }

  lemma CallActsAsOne(cfg: Config, a: Agent, s: Shard, i: int, c: Call)
    requires Same(a, s) && 0 <= i < 3 && !c.ResetStatus? && At(i, c.key) && Clear(cfg, a[i], c)
    ensures Clear(cfg, s, c) && Same(a[i := Next(cfg, a[i], c)], Next(cfg, s, c))
    ensures c.GetHost? ==> (Aborts(a[i], c) <==> Aborts(s, c)) && ReplyTo(cfg, a[i], c.key) == ReplyTo(cfg, s, c.key)
  {
    Disjoint(a, i, c.key);
    hide At, Clear, Next, Aborts, ReplyTo, OnlyAt, Outstanding;
    NextAtKey(cfg, a[i], s, c);
    NextIsLocal(cfg, a[i], c);
    NextIsLocal(cfg, s, c);
    hide Same, AgreeAt;
    MovedAlike(a, s, i, c.key, Next(cfg, a[i], c), Next(cfg, s, c));
  }

  lemma ResetActsAsOne(a: Agent, s: Shard, i: int)
    requires Same(a, s) && 0 <= i < 3
    ensures Same(a[i := ResetAll(a[i])], Reset(s, a[i].table.Keys))
  {
    hide At, Outstanding, Unpulled, Union;
    var a', s' := a[i := ResetAll(a[i])], Reset(s, a[i].table.Keys);
    assert forall j :: 0 <= j < 3 ==> a'[j].table.Keys == a[j].table.Keys;
    assert Homed(a');
    forall j, k | 0 <= j < 3 && k in a[j].table
      ensures k in Union(a') && k in s'.table && s'.table[k] == Union(a')[k]
      ensures Outstanding(a'[j].marks, k) == Outstanding(s'.marks, k)
    {
      Disjoint(a, j, k);
      Disjoint(a', j, k);
      OutstandingAppend(a[i].marks, ClearedSome(a[i].table.Keys), k);
      OutstandingAppend(s.marks, ClearedSome(a[i].table.Keys), k);
    }
    UnionKeys(a, a');
    forall k | k in s'.table ensures s'.table[k] == Union(a')[k] {
      InSome(a, k);
    }
    assert s'.table == Union(a');
  }

  lemma UnionKeys(a: Agent, a': Agent)
    requires forall j :: 0 <= j < 3 ==> a'[j].table.Keys == a[j].table.Keys
    ensures Union(a').Keys == Union(a).Keys
  {
    assert Union(a').Keys == a'[0].table.Keys + a'[1].table.Keys + a'[2].table.Keys;
  }

  lemma InSome(a: Agent, k: uint64)
    requires k in Union(a)
    ensures exists j :: 0 <= j < 3 && k in a[j].table
  {
    assert k in a[0].table || k in a[1].table || k in a[2].table;
  }

  lemma StepActsAsOne(cfg: Config, a: Agent, s: Shard, e: Event)
    requires Same(a, s) && Proper(e) && ClearIn(cfg, a, e)
    ensures Clear(cfg, s, AsCall(a, e)) && Same(Step(cfg, a, e), Next(cfg, s, AsCall(a, e)))
  {
    hide Same, Key, ShardIndex, Reset;
    match e
    case On(modid, cmdid, call) =>
      hide Next, Clear;
      CallActsAsOne(cfg, a, s, ShardIndex(modid, cmdid).value, call);
    case Resets(i) => ResetActsAsOne(a, s, i);
  }

  // One shard and the single one change alike at one key.
  lemma MovedAlike(a: Agent, s: Shard, i: int, k: uint64, t: Shard, s': Shard)
    requires Same(a, s) && 0 <= i < 3 && At(i, k)
    requires OnlyAt(a[i], t, k) && OnlyAt(s, s', k) && AgreeAt(t, s', k)
    ensures Same(a[i := t], s')
  {
    hide At, Outstanding;
    var a' := a[i := t];
    assert Homed(a');
    Disjoint(a', i, k);
    forall j | j in Union(a') || j in s'.table
      ensures j in Union(a') && j in s'.table && Union(a')[j] == s'.table[j]
    {
      if j != k {
        UnionApart(a, a', i, j);
      }
    }
    hide Union;
    assert SamePulls(a', s');
  }

  lemma UnionApart(a: Agent, a': Agent, i: int, j: uint64)
    requires Homed(a) && Homed(a') && 0 <= i < 3
    requires forall n :: 0 <= n < 3 && n != i ==> a'[n] == a[n]
    requires j in a'[i].table <==> j in a[i].table
    requires j in a[i].table ==> a'[i].table[j] == a[i].table[j]
    ensures j in Union(a') <==> j in Union(a)
    ensures j in Union(a) ==> Union(a')[j] == Union(a)[j]
  {
    assert a'[0] == a[0] || i == 0;
    assert a'[1] == a[1] || i == 1;
    assert a'[2] == a[2] || i == 2;
  }

  predicate Legal(cfg: Config, a: Agent, es: seq<Event>)
    decreases |es|
  {
    es == [] || (Proper(es[0]) && ClearIn(cfg, a, es[0]) && Legal(cfg, Step(cfg, a, es[0]), es[1..]))
  }

  function After(cfg: Config, a: Agent, es: seq<Event>): Agent
    requires Legal(cfg, a, es)
    decreases |es|
  {
    if es == [] then a else After(cfg, Step(cfg, a, es[0]), es[1..])
  }

  function Calls(cfg: Config, a: Agent, es: seq<Event>): seq<Call>
    requires Legal(cfg, a, es)
    decreases |es|
  {
    if es == [] then [] else [AsCall(a, es[0])] + Calls(cfg, Step(cfg, a, es[0]), es[1..])
  }

  // MAIN: in every run for pairs that have a shard, the three act as one, balancers and
  // outstanding pulls alike.
  lemma {:induction false} ThreeActAsOne(cfg: Config, a: Agent, s: Shard, es: seq<Event>)
    requires Same(a, s) && Legal(cfg, a, es)
    ensures var cs := Calls(cfg, a, es);
            RouteTables.Legal(cfg, s, cs) && Same(After(cfg, a, es), RouteTables.After(cfg, s, cs))
    decreases |es|
  {
    if es != [] {
      StepActsAsOne(cfg, a, s, es[0]);
      hide Same, Clear, Next, ClearIn, Step, Proper, AsCall;
      var rest := Calls(cfg, Step(cfg, a, es[0]), es[1..]);
      assert Calls(cfg, a, es)[1..] == rest;
      ThreeActAsOne(cfg, Step(cfg, a, es[0]), Next(cfg, s, AsCall(a, es[0])), es[1..]);
    }
  }

  const FRESH: Agent := [NOTHING, NOTHING, NOTHING]

  // MAIN: a host that the agent returns for a pair has its address in the last answer for
  // that pair, whatever came before.
  lemma AgentPicksFromLastAnswer(cfg: Config, es: seq<Event>, modid: int32, cmdid: int32)
    requires Legal(cfg, FRESH, es) && Housed(modid, cmdid)
    ensures var s, k := After(cfg, FRESH, es)[ShardIndex(modid, cmdid).value], Key(modid, cmdid);
            k in s.table && !s.table[k].Empty() && CanPick(cfg, s.table[k]) && ReplyTo(cfg, s, k).host.Some? ==>
              var h := ReplyTo(cfg, s, k).host.value;
              && h in s.table[k].hosts && LastAnswer(Calls(cfg, FRESH, es), k).Some?
              && AddressOf(s.table[k].hosts[h]) in LastAnswer(Calls(cfg, FRESH, es), k).value
  {
    ThreeActAsOne(cfg, FRESH, NOTHING, es);
    var a, k, i := After(cfg, FRESH, es), Key(modid, cmdid), ShardIndex(modid, cmdid).value;
    assert At(i, k);
    Disjoint(a, i, k);
    hide After, RouteTables.After, At, Key, ShardIndex, Pick, CanPick;
    PickIsFromLastAnswer(cfg, Calls(cfg, FRESH, es), k);
  }
}
