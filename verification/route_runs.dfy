// What a run of one shard makes of each of its balancers: a run of its own, of the calls
// for its pair since it was made.

module RouteRuns {
  import opened Words
  import opened Hosts
  import opened Options
  import opened Balancers
  import opened BalancerRuns
  import opened HostRates
  import opened BalancerHosts
  import opened LoadBalances
  import opened PickSchedule
  import RouteTables

  type Call = RouteTables.Call

  // The access count memory held when the balancer was made, and what came since.
  datatype Life = Life(access: int, es: seq<Event>)

  ghost predicate Answered(es: seq<Event>) {
    exists e :: e in es && e.Answer?
  }

  function More(life: Life, e: Event): Life { life.(es := life.es + [e]) }

  // A first request makes the balancer, an empty answer drops it, and requests before its
  // first answer do not touch it.
  ghost function Lived(life: Option<Life>, c: Call): Option<Life>
    requires !c.ResetStatus?
  {
    match c
    case GetHost(_, _, access) =>
      if life.None? then Some(Life(access, []))
      else if Answered(life.value.es) then Some(More(life.value, Request))
      else life
    case GetRoute(_, _, access) => if life.None? then Some(Life(access, [])) else life
    case UpdateHost(_, answer, memory, now) =>
      if life.None? || answer == [] then None else Some(More(life.value, Answer(answer, memory, now)))
    case ReportHost(_, ip, port, ok, now) =>
      if life.None? then None else Some(More(life.value, Result(Key(ip, port), ok, now)))
  }

  ghost function LifeOf(cs: seq<Call>, k: uint64): Option<Life> {
    if cs == [] then None
    else
      var life, c := LifeOf(cs[..|cs| - 1], k), cs[|cs| - 1];
      if !c.ResetStatus? && c.key == k then Lived(life, c) else life
  }

  // The balancer is what that life makes of a new one, but for whether it is being pulled.
  ghost predicate IsLife(cfg: Config, life: Life, b: Balancer) {
    && Legal(cfg, Created(life.access), life.es)
    && RouteTables.Unpulled(b) == RouteTables.Unpulled(After(cfg, Created(life.access), life.es))
    && (b.Empty() <==> !Answered(life.es))
  }

  lemma {:induction false} RunAppend(cfg: Config, b: Balancer, es: seq<Event>, e: Event)
    requires Legal(cfg, b, es)
    ensures Legal(cfg, b, es + [e]) <==> Defined(cfg, After(cfg, b, es), e)
    ensures Defined(cfg, After(cfg, b, es), e) ==> After(cfg, b, es + [e]) == Step(cfg, After(cfg, b, es), e)
    decreases |es|
  {
    hide Step, Defined;
    if es == [] {
      assert (es + [e])[1..] == [];
    } else {
      assert (es + [e])[1..] == es[1..] + [e];
      RunAppend(cfg, Step(cfg, b, es[0]), es[1..], e);
    }
  }

  // Whether it is being pulled makes no difference to a balancer.
  lemma PullAside(cfg: Config, b: Balancer, b': Balancer, e: Event)
    requires RouteTables.Unpulled(b) == RouteTables.Unpulled(b')
    ensures Defined(cfg, b, e) <==> Defined(cfg, b', e)
    ensures Defined(cfg, b, e) ==>
              RouteTables.Unpulled(Step(cfg, b, e)) == RouteTables.Unpulled(Step(cfg, b', e))
  {
    hide KeysIn, Judge, Moved, Added, Novel, Among, Without;
    assert b' == b.(status := b'.status);
  }

  lemma StillEmpty(cfg: Config, b: Balancer, e: Event)
    requires Defined(cfg, b, e)
    ensures Step(cfg, b, e).Empty() <==> b.Empty() && !e.Answer?
  {
    match e
    case Answer(addrs, memory, now) => RouteTables.UpdateKnows(cfg, b, addrs, memory, now);
    case Result(key, ok, now) => ReportChanges(cfg, b, key, ok, now);
      hide Report, Reported;
      assert key in b.hosts ==> b.hosts[key := Reported(cfg, b.hosts[key], ok, now)].Keys == b.hosts.Keys;
    case Request =>
  }

  lemma LivesOn(cfg: Config, life: Life, b: Balancer, e: Event)
    requires IsLife(cfg, life, b) && Defined(cfg, b, e)
    ensures IsLife(cfg, More(life, e), Step(cfg, b, e))
  {
    hide Step, Defined;
    var a := After(cfg, Created(life.access), life.es);
    PullAside(cfg, b, a, e);
    RunAppend(cfg, Created(life.access), life.es, e);
    StillEmpty(cfg, b, e);
    assert Answered(life.es + [e]) <==> Answered(life.es) || e.Answer? by {
      if e.Answer? {
        assert e in life.es + [e];
      }
      if x :| x in life.es && x.Answer? {
        assert x in life.es + [e];
      }
    }
  }

  lemma PulledAlike(cfg: Config, life: Life, b: Balancer, status: Status)
    requires IsLife(cfg, life, b)
    ensures IsLife(cfg, life, b.(status := status))
  {
    hide Legal, After;
  }

  ghost predicate Alive(cfg: Config, life: Option<Life>, s: RouteTables.Shard, k: uint64) {
    (k in s.table <==> life.Some?) && (k in s.table ==> IsLife(cfg, life.value, s.table[k]))
  }

  lemma LifeStarts(cfg: Config, access: int)
    ensures IsLife(cfg, Life(access, []), Created(access))
  {
  }

  lemma CallLives(cfg: Config, life: Option<Life>, s: RouteTables.Shard, c: Call)
    requires !c.ResetStatus? && Alive(cfg, life, s, c.key) && RouteTables.Clear(cfg, s, c)
    ensures Alive(cfg, Lived(life, c), RouteTables.Next(cfg, s, c), c.key)
  {
    hide IsLife, Pick, CanPick, Update, CanUpdate, Report, Key;
    match c
    case GetHost(k, now, access) =>
      LifeStarts(cfg, access);
      PulledAlike(cfg, Life(access, []), Created(access), PULLING);
      if k in s.table {
        EmptyUnanswered(cfg, life.value, s.table[k]);
        if !s.table[k].Empty() {
          LivesOn(cfg, life.value, s.table[k], Request);
          PulledAlike(cfg, More(life.value, Request), Pick(cfg, s.table[k]).0, PULLING);
        }
      }
    case GetRoute(k, now, access) =>
      LifeStarts(cfg, access);
      if k in s.table {
        PulledAlike(cfg, life.value, s.table[k], PULLING);
      }
    case UpdateHost(k, answer, memory, now) =>
      if k in s.table && answer != [] {
        LivesOn(cfg, life.value, s.table[k], Answer(answer, memory, now));
      }
    case ReportHost(k, ip, port, ok, now) =>
      if k in s.table {
        LivesOn(cfg, life.value, s.table[k], Result(Key(ip, port), ok, now));
      }
  }

  lemma EmptyUnanswered(cfg: Config, life: Life, b: Balancer)
    requires IsLife(cfg, life, b)
    ensures b.Empty() <==> !Answered(life.es)
  {
  }

  ghost predicate AllAlive(cfg: Config, past: seq<Call>, s: RouteTables.Shard) {
    forall k :: Alive(cfg, LifeOf(past, k), s, k)
  }

  lemma LifeAppend(past: seq<Call>, c: Call, k: uint64)
    ensures LifeOf(past + [c], k) ==
            if !c.ResetStatus? && c.key == k then Lived(LifeOf(past, k), c) else LifeOf(past, k)
  {
    assert (past + [c])[..|past|] == past;
  }

  lemma NextAlive(cfg: Config, past: seq<Call>, s: RouteTables.Shard, c: Call)
    requires AllAlive(cfg, past, s) && RouteTables.Clear(cfg, s, c)
    ensures AllAlive(cfg, past + [c], RouteTables.Next(cfg, s, c))
  {
    hide RouteTables.Clear, Lived, LifeOf, IsLife;
    forall k ensures Alive(cfg, LifeOf(past + [c], k), RouteTables.Next(cfg, s, c), k) {
      LifeAppend(past, c, k);
      assert Alive(cfg, LifeOf(past, k), s, k);
      if c.ResetStatus? {
        if k in s.table {
          PulledAlike(cfg, LifeOf(past, k).value, s.table[k], NEW);
        }
      } else {
        hide RouteTables.Next;
        RouteTables.NextIsLocal(cfg, s, c);
        if c.key == k {
          CallLives(cfg, LifeOf(past, k), s, c);
        }
      }
    }
  }

  // MAIN: in every run of a shard each balancer is what the calls for its pair since it
  // was made, and no others, make of a new balancer, however they interleave with those
  // for other pairs; only whether it is being pulled depends on requests and resets.
  lemma {:induction false} BalancersRunApart(cfg: Config, past: seq<Call>, s: RouteTables.Shard, cs: seq<Call>)
    requires AllAlive(cfg, past, s) && RouteTables.Legal(cfg, s, cs)
    ensures AllAlive(cfg, past + cs, RouteTables.After(cfg, s, cs))
    decreases |cs|
  {
    if cs == [] {
      assert past + cs == past;
    } else {
      NextAlive(cfg, past, s, cs[0]);
      hide AllAlive, RouteTables.Clear, RouteTables.Next;
      assert past + [cs[0]] + cs[1..] == past + cs;
      BalancersRunApart(cfg, past + [cs[0]], RouteTables.Next(cfg, s, cs[0]), cs[1..]);
    }
  }

  lemma AliveAfter(cfg: Config, cs: seq<Call>, k: uint64)
    requires RouteTables.Legal(cfg, RouteTables.NOTHING, cs)
    ensures Alive(cfg, LifeOf(cs, k), RouteTables.After(cfg, RouteTables.NOTHING, cs), k)
  {
    BalancersRunApart(cfg, [], RouteTables.NOTHING, cs);
    assert [] + cs == cs;
    hide LifeOf, Alive;
  }

  // MAIN: so every report reaches its host: after whatever run of the shard the counters
  // of every live host are the closed form of the last few reports on its address, as
  // made through the shard.
  lemma ShardCounts(cfg: Config, cs: seq<Call>, k: uint64)
    requires RouteTables.Legal(cfg, RouteTables.NOTHING, cs) && LifeOf(cs, k).Some?
    ensures var Life(access, es) := LifeOf(cs, k).value;
            Legal(cfg, Created(access), es) && k in RouteTables.After(cfg, RouteTables.NOTHING, cs).table
            && var hosts, past := RouteTables.After(cfg, RouteTables.NOTHING, cs).table[k].hosts,
                                  HistoryOf(cfg, Created(access), map[], es);
               past.Keys == hosts.Keys
               && forall h :: h in hosts ==>
                    h == Key(AsInt32(hosts[h].ip), hosts[h].port)
                    && Counts(cfg, hosts[h], past[h].since) && InWindow(cfg, hosts[h], past[h])
                    && EndsWith(ReportsOn(es, h), past[h])
  {
    AliveAfter(cfg, cs, k);
    hide RouteTables.After, LifeOf, After, Legal;
    var life := LifeOf(cs, k).value;
    EveryHostCounts(cfg, life.access, life.es);
    CreatedPartitioned(life.access);
    RunKeepsPartition(cfg, Created(life.access), life.es);
    hide HistoryOf, Counts, InWindow, EndsWith, Split;
  }

  // MAIN: what a request is told, after whatever run: a pair that is new, or has been
  // dropped, does not exist; one that waits for its first answer is told so with success;
  // any other gets a host, unless every host is overloaded and fewer requests than
  // probe_num have come since the last probe.
  lemma RequestIsTold(cfg: Config, cs: seq<Call>, k: uint64)
    requires RouteTables.Legal(cfg, RouteTables.NOTHING, cs)
    requires var s := RouteTables.After(cfg, RouteTables.NOTHING, cs);
             k in s.table && !s.table[k].Empty() ==> CanPick(cfg, s.table[k])
    ensures var s, life := RouteTables.After(cfg, RouteTables.NOTHING, cs), LifeOf(cs, k);
            var Reply(ret, retcode, host) := RouteTables.ReplyTo(cfg, s, k);
            && (life.None? ==> ret == retcode == RET_NOEXIST && host == None)
            && (life.Some? && !Answered(life.value.es) ==> ret == RET_SUCC && retcode == RET_NOEXIST && host == None)
            && (life.Some? && Answered(life.value.es) ==>
                  k in s.table
                  && var b := s.table[k];
                     && ret == retcode == (if host.Some? then RET_SUCC else RET_OVERLOAD)
                     && (host == None <==> b.idle == [] && b.access < cfg.probeNum)
                     && (Queued(b) ==> host == Nth(cfg, b, 0)))
  {
    AliveAfter(cfg, cs, k);
    hide RouteTables.After, LifeOf, After, Legal, Rotated, Answered;
  }
}
