// One shard of the agent as an object: a map of load balancers, proved to do what module
// RouteTables specifies. Each method is one section under the mutex.

module RouteLBs {
  import opened Words
  import opened Hosts
  import opened Options
  import opened Sequences
  import opened Balancers
  import opened BalancerRuns
  import opened LoadBalances
  import opened RouteTables

  // The addresses of all hosts, each once, in any order.
  predicate IsRoute(route: seq<Addr>, hosts: map<uint64, Host>) {
    && Distinct(route)
    && (forall a :: a in route ==> KeyOf(a) in hosts)
    && (forall h :: h in hosts ==> AddressOf(hosts[h]) in route)
  }

  lemma RouteOfKeys(route: seq<Addr>, ks: seq<uint64>, hosts: map<uint64, Host>)
    requires Distinct(ks) && |route| == |ks| && forall h :: h in ks <==> h in hosts
    requires forall j :: 0 <= j < |ks| ==>
      ks[j] in hosts && KeyOf(route[j]) == ks[j] && AddressOf(hosts[ks[j]]) == route[j]
    ensures IsRoute(route, hosts)
  {
    hide KeyOf, AddressOf;
    forall h | h in hosts ensures AddressOf(hosts[h]) in route {
      var j :| 0 <= j < |ks| && ks[j] == h;
      assert route[j] in route;
    }
  }

  lemma UnpullNone(t: map<uint64, Balancer>)
    ensures Unpull(t, {}) == t
  {
  }

  // Resetting one balancer more.
  lemma UnpullOne(t: map<uint64, Balancer>, keys: set<uint64>, k: uint64)
    requires k in t && k !in keys
    ensures var u := Unpull(t, keys);
            k in u && u[k := Unpulled(u[k])] == Unpull(t, keys + {k})
  {
    hide Unpulled;
  }

  class RouteLB {
    var lbs: map<uint64, LoadBalance>
    // what happened to the pulls of each key so far
    ghost var marks: seq<Mark>

    ghost function All(): set<LoadBalance>
      reads this
    {
      set k | k in lbs :: lbs[k]
    }

    ghost function AllHosts(): set<HostInfo>
      reads this, All()
    {
      set k, h | k in lbs && h in lbs[k].Hosts() :: h
    }

    // The balancer is sound in itself and filed under its key.
    ghost predicate Filed(k: uint64, lb: LoadBalance)
      reads lb, lb.Hosts()
    {
      Key(lb.modid, lb.cmdid) == k && lb.Valid() && lb.View().Partitioned()
    }

    ghost predicate Valid()
      reads this, All(), AllHosts()
    {
      && (forall k :: k in lbs ==> Filed(k, lbs[k]))
      && (forall j, k :: j in lbs && k in lbs && j != k ==> lbs[j] != lbs[k] && lbs[j].Hosts() !! lbs[k].Hosts())
    }

    ghost function Table(): map<uint64, Balancer>
      reads this, All(), AllHosts()
    {
      map k | k in lbs :: lbs[k].View()
    }

    ghost function View(): Shard
      reads this, All(), AllHosts()
    {
      Shard(Table(), marks)
    }

    constructor ()
      ensures Valid() && View() == NOTHING
    {
      lbs, marks := map[], [];
    }

    // All balancers and hosts but those of one key.
    ghost function Others(k: uint64): set<object>
      requires k in lbs
      reads this, All(), AllHosts()
    {
      var lbsAll: set<object>, hosts: set<object> := All(), AllHosts();
      lbsAll + hosts - {lbs[k]} - lbs[k].Hosts()
    }

    // Only the balancer of one key has changed, and gained no host of another.
    twostate predicate OnlyAtKey(k: uint64)
      requires old(k in lbs)
      reads *
    {
      && lbs == old(lbs) && Filed(k, lbs[k]) && unchanged(old(Others(k)))
      && (forall h :: h in lbs[k].Hosts() ==> h in old(lbs[k].Hosts()) || fresh(h))
    }

    twostate lemma Outside(k: uint64)
      requires old(Valid() && k in lbs)
      ensures forall j :: old(j in lbs) && j != k ==> old(lbs[j] in Others(k) && lbs[j].Hosts() <= Others(k))
    {
      hide Filed, LoadBalance.Hosts;
      forall j | old(j in lbs) && j != k ensures old(lbs[j] in Others(k) && lbs[j].Hosts() <= Others(k)) {
        ghost var lb, hosts := old(lbs[j]), old(lbs[j].Hosts());
        assert lb in old(All()) && lb != old(lbs[k]);
        assert lb as object !in old(lbs[k].Hosts());
        forall h | h in hosts ensures h in old(Others(k)) {
          assert h as object != old(lbs[k]) && h in old(AllHosts());
        }
      }
    }

    // The table has changed at that key alone.
    twostate lemma Lifted(k: uint64)
      requires old(Valid()) && old(k in lbs) && OnlyAtKey(k)
      ensures Valid() && Table() == old(Table())[k := lbs[k].View()]
    {
      hide LoadBalance.Valid, LoadBalance.View, Balancer.Partitioned, Others;
      Outside(k);
      forall j | j in lbs && j != k
        ensures Filed(j, lbs[j]) && lbs[j].View() == old(lbs[j].View()) && lbs[j].Hosts() == old(lbs[j].Hosts())
      {
        assert old(Filed(j, lbs[j]));
      }
    }

    // ---------- What is done to the balancer of one key ----------

    lemma At(k: uint64)
      requires Valid() && k in lbs
      ensures lbs[k].Valid() && lbs[k].View().Partitioned() && k in Table() && Table()[k] == lbs[k].View()
      ensures Key(lbs[k].modid, lbs[k].cmdid) == k && lbs[k] in All() && lbs[k].Hosts() <= AllHosts()
      ensures lbs[k] !in Others(k) && lbs[k].Hosts() !! Others(k)
    {
      assert Filed(k, lbs[k]);
    }

    lemma Bystanders(k: uint64)
      requires k in lbs
      ensures forall o :: o in Others(k) ==> allocated(o)
    {
    }

    method PickAt(cfg: Config, k: uint64, lb: LoadBalance) returns (ret: RetCode, host: HostInfo?)
      requires Valid() && k in lbs && lb == lbs[k] && CanPick(cfg, Table()[k])
      modifies lb
      ensures Valid() && Table() == old(Table())[k := Pick(cfg, old(Table())[k]).0]
      ensures match Pick(cfg, old(Table())[k]).1
              case Some(h) => ret == RET_SUCC && host != null && HKey(host) == h
              case None => ret == RET_OVERLOAD && host == null
    {
      hide LoadBalance.Valid, LoadBalance.View, LoadBalance.Hosts, LoadBalance.Holds, Balancer.Partitioned, Valid,
        Table,
        Others, All, AllHosts, Key, HKey, Pick, CanPick;
      At(k);
      Bystanders(k);
      PickKeeps(cfg, lb.View());
      ghost var others, hosts := Others(k), lb.Hosts();
      ret, host := lb.PickOneHost(cfg);
      assert unchanged(others) && lb.Hosts() == hosts;
      Lifted(k);
    }

    method PullAt(k: uint64, lb: LoadBalance) returns (request: RouteRequest)
      requires Valid() && k in lbs && lb == lbs[k]
      modifies lb
      ensures Valid() && Table() == old(Table())[k := old(Table())[k].(status := PULLING)]
      ensures Key(request.modid, request.cmdid) == k
    {
      hide LoadBalance.Valid, LoadBalance.View, LoadBalance.Hosts, LoadBalance.Holds, Balancer.Partitioned, Valid,
        Table,
        Others, All, AllHosts, Key, HKey;
      At(k);
      Bystanders(k);
      StatusAside(lb.View());
      ghost var others, hosts := Others(k), lb.Hosts();
      request := lb.Pull();
      assert unchanged(others) && lb.Hosts() == hosts;
      Lifted(k);
    }

    method ReportAt(cfg: Config, k: uint64, lb: LoadBalance, ip: int32, port: int32, ok: bool, now: int)
      requires Valid() && k in lbs && lb == lbs[k] && Key(ip, port) !in Table()[k].dangling
      modifies lb, lb.Hosts()
      ensures Valid() && Table() == old(Table())[k := Report(cfg, old(Table())[k], Key(ip, port), ok, now)]
    {
      hide LoadBalance.Valid, LoadBalance.View, LoadBalance.Hosts, LoadBalance.Holds, Balancer.Partitioned, Valid,
        Table,
        Others, All, AllHosts, Key, HKey, Report;
      At(k);
      Bystanders(k);
      ReportKeeps(cfg, lb.View(), Key(ip, port), ok, now);
      ghost var others, hosts := Others(k), lb.Hosts();
      lb.Report(cfg, ip, port, ok, now);
      assert unchanged(others) && lb.Hosts() == hosts;
      Lifted(k);
    }

    method UpdateAt(cfg: Config, k: uint64, lb: LoadBalance, answer: seq<Addr>, memory: Memory, now: int)
      requires Valid() && k in lbs && lb == lbs[k] && CanUpdate(Table()[k], answer)
      modifies lb
      ensures Valid() && Table() == old(Table())[k := Update(cfg, old(Table())[k], answer, memory, now)]
    {
      hide LoadBalance.Valid, LoadBalance.View, LoadBalance.Hosts, LoadBalance.Holds, Balancer.Partitioned, Valid,
        Table,
        Others, All, AllHosts, Key, HKey, Update, CanUpdate, LoadBalance.OnlyNew;
      At(k);
      Bystanders(k);
      UpdateKeeps(cfg, lb.View(), answer, memory, now);
      ghost var others := Others(k);
      lb.Update(cfg, answer, memory, now);
      assert unchanged(others);
      lb.GainsOnlyNew();
      Lifted(k);
    }

    // All balancers and their hosts; the shard is none of them.
    ghost function Everything(): set<object>
      reads this, All()
    {
      var all: set<object>, hosts: set<object> := All(), AllHosts();
      all + hosts
    }

    lemma Apart()
      ensures this !in Everything()
    {
      assert forall lb :: lb in All() ==> lb as object != this;
      assert forall h :: h in AllHosts() ==> h as object != this;
    }

    lemma Present()
      ensures forall o :: o in Everything() ==> allocated(o)
    {
    }

    // The balancer of a key is as it was.
    twostate predicate AsBefore(j: uint64)
      reads *
    {
      j in lbs && j in old(lbs) && lbs[j] == old(lbs[j]) && Filed(j, lbs[j])
      && lbs[j].View() == old(lbs[j].View()) && lbs[j].Hosts() == old(lbs[j].Hosts())
    }

    twostate lemma NothingElse()
      requires old(Valid()) && unchanged(old(Everything()))
      ensures forall j :: j in lbs && j in old(lbs) && lbs[j] == old(lbs[j]) ==> AsBefore(j)
    {
      hide LoadBalance.Valid, LoadBalance.View, Balancer.Partitioned;
      assert forall j :: old(j in lbs) ==> old(Filed(j, lbs[j]) && lbs[j] in All() && lbs[j].Hosts() <= AllHosts());
    }

    method Insert(k: uint64, lb: LoadBalance)
      requires Valid() && k !in lbs && Filed(k, lb) && lb !in All() && lb.Hosts() == {}
      modifies this`lbs
      ensures Valid() && Table() == old(Table())[k := lb.View()]
      ensures lbs == old(lbs)[k := lb]
    {
      hide LoadBalance.Valid, LoadBalance.View, LoadBalance.Hosts, Balancer.Partitioned, Valid, Table, Everything,
        All, AllHosts;
      Apart();
      Present();
      assert lb as object != this;
      ghost var all := Everything();
      lbs := lbs[k := lb];
      assert unchanged(all);
      NothingElse();
      InsertedValid(k);
      InsertedTable(k);
    }

    twostate lemma InsertedValid(k: uint64)
      requires old(Valid()) && old(k !in lbs) && k in lbs && lbs == old(lbs)[k := lbs[k]]
      requires Filed(k, lbs[k]) && lbs[k].Hosts() == {} && lbs[k] !in old(All())
      requires forall j :: j in old(lbs) ==> AsBefore(j)
      ensures Valid()
    {
      hide LoadBalance.Valid, LoadBalance.View, Balancer.Partitioned, LoadBalance.Hosts, Filed;
    }

    twostate lemma InsertedTable(k: uint64)
      requires old(k !in lbs) && k in lbs && lbs == old(lbs)[k := lbs[k]]
      requires forall j :: j in old(lbs) ==> AsBefore(j)
      ensures Table() == old(Table())[k := lbs[k].View()]
    {
      hide LoadBalance.Valid, LoadBalance.View, Balancer.Partitioned, LoadBalance.Hosts, Filed;
    }

    method Erase(k: uint64)
      requires Valid() && k in lbs
      modifies this`lbs
      ensures Valid() && Table() == old(Table()) - {k}
    {
      Apart();
      Present();
      ghost var all := Everything();
      hide *;
      lbs := lbs - {k};
      assert unchanged(all);
      NothingElse();
      Erased(k);
    }

    twostate lemma Erased(k: uint64)
      requires old(Valid()) && lbs == old(lbs) - {k} && forall j :: j in lbs ==> AsBefore(j)
      ensures Valid() && Table() == old(Table()) - {k}
    {
      hide LoadBalance.Valid, LoadBalance.View, Balancer.Partitioned, LoadBalance.Hosts, Filed;
    }

    // Writes down what happened to pulls.
    ghost method Log(ms: seq<Mark>)
      requires Valid()
      modifies this`marks
      ensures Valid() && Table() == old(Table()) && marks == old(marks) + ms
    {
      Apart();
      Present();
      ghost var all := Everything();
      hide *;
      marks := marks + ms;
      assert unchanged(all);
      NothingElse();
      Logged();
    }

    twostate lemma Logged()
      requires old(Valid()) && lbs == old(lbs) && forall j :: j in lbs ==> AsBefore(j)
      ensures Valid() && Table() == old(Table())
    {
      hide LoadBalance.Valid, LoadBalance.View, Balancer.Partitioned, LoadBalance.Hosts, Filed;
    }

    method Make(modid: int32, cmdid: int32, access: int) returns (lb: LoadBalance)
      requires Valid()
      ensures Valid() && View() == old(View())
      ensures Filed(Key(modid, cmdid), lb) && lb.View() == Created(access)
      ensures fresh(lb) && lb !in All() && lb.Hosts() == {}
    {
      Present();
      CreatedPartitioned(access);
      ghost var all := Everything();
      hide LoadBalance.Valid, LoadBalance.View, LoadBalance.Hosts, Balancer.Partitioned, Valid, Table, Key,
        Everything, AllHosts;
      lb := new LoadBalance(modid, cmdid, access);
      assert unchanged(all);
      NothingElse();
      Logged();
    }

    // ---------- The calls ----------

    // A first request: a new balancer, and a pull for it.
    method Open(modid: int32, cmdid: int32, access: int) returns (request: RouteRequest)
      requires Valid() && Key(modid, cmdid) !in lbs
      modifies this
      ensures Valid() && View() == RouteTables.Open(old(View()), Key(modid, cmdid), access)
      ensures request == RouteRequest(modid, cmdid)
    {
      var k := Key(modid, cmdid);
      hide LoadBalance.Valid, LoadBalance.View, LoadBalance.Hosts, Balancer.Partitioned, Valid, Table, Key, Filed;
      var lb := Make(modid, cmdid, access);
      Insert(k, lb);
      request := PullAt(k, lb);
      KeyInjective(request.modid, request.cmdid, modid, cmdid);
      Log([Cleared(k), Sent(k)]);
      assert [Cleared(k)] + [Sent(k)] == [Cleared(k), Sent(k)];
    }

    // Expired routes are pulled again.
    method Refresh(cfg: Config, k: uint64, lb: LoadBalance, now: int) returns (request: Option<RouteRequest>)
      requires Valid() && k in lbs && lb == lbs[k]
      modifies this`marks, lb
      ensures Valid() && View() == RouteTables.Refresh(cfg, old(View()), k, now)
      ensures var sends := |marks| > |old(marks)|;
              request == if sends then Some(RouteRequest(lb.modid, lb.cmdid)) else None
      ensures marks == old(marks) || marks == old(marks) + [Sent(k)]
    {
      hide LoadBalance.Valid, LoadBalance.View, LoadBalance.Hosts, LoadBalance.Holds, Balancer.Partitioned, Valid,
        Table,
        Others, All, AllHosts, Key, HKey;
      At(k);
      LoadBalanceFields(k);
      request := None;
      if lb.status == NEW && now - lb.lastUpdateTime > cfg.updateTimeout {
        var r := PullAt(k, lb);
        KeyInjective(r.modid, r.cmdid, lb.modid, lb.cmdid);
        Log([Sent(k)]);
        request := Some(r);
      }
    }

    lemma SameKeys()
      ensures forall k :: k in lbs <==> k in View().table
    {
    }

    lemma LoadBalanceFields(k: uint64)
      requires k in lbs
      ensures var lb, b := lbs[k], lbs[k].View();
              b.status == lb.status && b.lastUpdate == lb.lastUpdateTime && (b.Empty() <==> lb.Empty())
    {
      lbs[k].KnownKeys();
    }

    method GetHost(cfg: Config, modid: int32, cmdid: int32, now: int, access: int)
      returns (ret: RetCode, retcode: RetCode, host: HostInfo?, request: Option<RouteRequest>)
      requires Valid()
      requires var c := Call.GetHost(Key(modid, cmdid), now, access); Clear(cfg, View(), c) && !Aborts(View(), c)
      modifies this, All()
      ensures Valid() && View() == Next(cfg, old(View()), Call.GetHost(Key(modid, cmdid), now, access))
      ensures ReplyTo(cfg, old(View()), Key(modid, cmdid)) ==
              Reply(ret, retcode, if host == null then None else Some(HKey(host)))
      ensures request ==
              if Sends(old(View()), View(), Key(modid, cmdid)) then Some(RouteRequest(modid, cmdid)) else None
    {
      hide LoadBalance.Valid, LoadBalance.View, LoadBalance.Hosts, LoadBalance.Holds, Balancer.Partitioned, Valid,
        Table,
        Others, AllHosts, Key, HKey, Pick, RouteTables.Refresh;
      SameKeys();
      var key := Key(modid, cmdid);
      ret, host, request := RET_SUCC, null, None;
      if key in lbs {
        var lb := lbs[key];
        At(key);
        LoadBalanceFields(key);
        if lb.Empty() {
          assert lb.status == PULLING;
          retcode := RET_NOEXIST;
        } else {
          ret, host := PickAt(cfg, key, lb);
          retcode := ret;
          request := Refresh(cfg, key, lb, now);
          KeyInjective(modid, cmdid, lb.modid, lb.cmdid);
        }
      } else {
        var r := Open(modid, cmdid, access);
        request := Some(r);
        retcode := RET_NOEXIST;
        ret := RET_NOEXIST;
      }
    }

    method RouteAt(k: uint64, lb: LoadBalance) returns (route: seq<Addr>)
      requires Valid() && k in lbs && lb == lbs[k] && Table()[k].dangling == {}
      ensures Valid() && Table() == old(Table())
      ensures IsRoute(route, Table()[k].hosts)
    {
      hide LoadBalance.Valid, LoadBalance.View, LoadBalance.Hosts, Balancer.Partitioned, Valid, Table, Everything,
        All, AllHosts,
        HKey, Key, Keys, IsRoute;
      At(k);
      Present();
      ghost var all := Everything();
      var vec := lb.GetAllHosts();
      route := [];
      var i := 0;
      while i < |vec|
        invariant 0 <= i <= |vec| && |route| == i
        invariant forall j :: 0 <= j < i ==> route[j] == Addr(AsInt32(vec[j].ip), vec[j].port)
      {
        var host := vec[i];
        route := route + [Addr(AsInt32(host.ip), host.port)];
        i := i + 1;
      }
      assert unchanged(all);
      NothingElse();
      Logged();
      Routed(lb, vec, route);
    }

    lemma Routed(lb: LoadBalance, vec: seq<HostInfo>, route: seq<Addr>)
      requires lb.Valid() && lb.View().dangling == {} && |route| == |vec|
      requires forall j :: 0 <= j < |vec| ==> route[j] == Addr(AsInt32(vec[j].ip), vec[j].port)
      requires Distinct(Keys(vec)) && forall h :: h in Keys(vec) <==> h in lb.hostMap
      requires forall p :: p in vec ==> lb.hostMap[HKey(p)] == p
      ensures IsRoute(route, lb.View().hosts)
    {
      hide Key, Keys, HKey, LoadBalance.Valid, LoadBalance.View, IsRoute, AddressOf;
      lb.KnownKeys();
      var ks, hosts := Keys(vec), lb.View().hosts;
      forall j | 0 <= j < |vec| ensures KeyOf(route[j]) == ks[j] && AddressOf(hosts[ks[j]]) == route[j] {
        RoutedAt(lb, vec[j]);
        assert vec[j] in vec && ks[j] in ks;
      }
      RouteOfKeys(route, ks, hosts);
    }

    lemma RoutedAt(lb: LoadBalance, h: HostInfo)
      ensures var a := Addr(AsInt32(h.ip), h.port);
              KeyOf(a) == HKey(h)
              && (HKey(h) in lb.View().hosts && lb.hostMap[HKey(h)] == h ==>
                    AddressOf(lb.View().hosts[HKey(h)]) == a)
    {
      hide Keys, Key;
    }

    method GetRoute(cfg: Config, modid: int32, cmdid: int32, now: int, access: int)
      returns (ret: RetCode, route: seq<Addr>, request: Option<RouteRequest>)
      requires Valid() && Clear(cfg, View(), Call.GetRoute(Key(modid, cmdid), now, access))
      modifies this, All()
      ensures Valid() && View() == Next(cfg, old(View()), Call.GetRoute(Key(modid, cmdid), now, access))
      ensures var k := Key(modid, cmdid);
              if k in old(View()).table then ret == RET_SUCC && IsRoute(route, old(View()).table[k].hosts)
              else ret == RET_NOEXIST && route == []
      ensures request ==
              if Sends(old(View()), View(), Key(modid, cmdid)) then Some(RouteRequest(modid, cmdid)) else None
    {
      hide LoadBalance.Valid, LoadBalance.View, LoadBalance.Hosts, LoadBalance.Holds, Balancer.Partitioned, Valid,
        Table,
        Others, AllHosts, Key, HKey, IsRoute, RouteTables.Refresh;
      SameKeys();
      var key := Key(modid, cmdid);
      ret, route, request := RET_SUCC, [], None;
      if key in lbs {
        var lb := lbs[key];
        At(key);
        route := RouteAt(key, lb);
        request := Refresh(cfg, key, lb, now);
        KeyInjective(modid, cmdid, lb.modid, lb.cmdid);
      } else {
        var r := Open(modid, cmdid, access);
        request := Some(r);
        ret := RET_NOEXIST;
      }
    }

    method UpdateHost(cfg: Config, modid: int32, cmdid: int32, answer: seq<Addr>, memory: Memory, now: int)
      requires Valid() && Clear(cfg, View(), Call.UpdateHost(Key(modid, cmdid), answer, memory, now))
      modifies this, All()
      ensures Valid() && View() == Next(cfg, old(View()), Call.UpdateHost(Key(modid, cmdid), answer, memory, now))
    {
      hide LoadBalance.Valid, LoadBalance.View, LoadBalance.Hosts, LoadBalance.Holds, Balancer.Partitioned, Valid,
        Table,
        Others, AllHosts, Key, HKey, Update, CanUpdate;
      SameKeys();
      var key := Key(modid, cmdid);
      if key in lbs {
        var lb := lbs[key];
        At(key);
        if answer == [] {
          Erase(key);
        } else {
          UpdateAt(cfg, key, lb, answer, memory, now);
        }
        Log([Cleared(key)]);
      }
    }

    // Counts the result of a call, and lists the results so far for the reporter.
    method ReportHost(cfg: Config, modid: int32, cmdid: int32, ip: int32, port: int32, ok: bool, now: int)
      returns (results: Option<seq<CallResult>>)
      requires Valid() && Clear(cfg, View(), Call.ReportHost(Key(modid, cmdid), ip, port, ok, now))
      modifies this, All(), AllHosts()
      ensures Valid() && View() == Next(cfg, old(View()), Call.ReportHost(Key(modid, cmdid), ip, port, ok, now))
      ensures var k, t := Key(modid, cmdid), View().table;
              results.Some? <==> k in t && !t[k].Empty()
      ensures results.Some? ==> var b := View().table[Key(modid, cmdid)];
              (forall h :: h in b.idle || h in b.over ==> h in b.hosts) && results.value == Committed(b)
    {
      hide LoadBalance.Valid, LoadBalance.View, LoadBalance.Hosts, LoadBalance.Holds, Balancer.Partitioned, Valid,
        Table,
        Others, Key, HKey, Report;
      SameKeys();
      results := None;
      var key := Key(modid, cmdid);
      if key in lbs {
        var lb := lbs[key];
        At(key);
        ReportAt(cfg, key, lb, ip, port, ok, now);
        results := CommitAt(key, lb);
      }
    }

    method CommitAt(k: uint64, lb: LoadBalance) returns (results: Option<seq<CallResult>>)
      requires Valid() && k in lbs && lb == lbs[k]
      ensures Valid() && Table() == old(Table())
      ensures Table()[k].Empty() <==> results.None?
      ensures results.Some? ==> var b := Table()[k];
              (forall h :: h in b.idle || h in b.over ==> h in b.hosts) && results.value == Committed(b)
    {
      hide LoadBalance.Valid, LoadBalance.View, LoadBalance.Hosts, LoadBalance.Holds, Valid, Table, Others,
        AllHosts, HKey, HostKey;
      At(k);
      Present();
      ghost var all := Everything();
      assert forall h :: h in lb.View().idle || h in lb.View().over ==> h in lb.View().hosts;
      hide Balancer.Partitioned;
      results := lb.Commit();
      assert unchanged(all);
      NothingElse();
      Logged();
    }

    method ResetAt(k: uint64, lb: LoadBalance)
      requires Valid() && k in lbs && lb == lbs[k]
      modifies lb
      ensures Valid() && Table() == old(Table())[k := Unpulled(old(Table())[k])]
    {
      hide LoadBalance.Valid, LoadBalance.View, LoadBalance.Hosts, LoadBalance.Holds, Balancer.Partitioned, Valid,
        Table,
        Others, All, AllHosts, Key, HKey;
      At(k);
      Bystanders(k);
      StatusAside(lb.View());
      ghost var others, hosts := Others(k), lb.Hosts();
      lb.Reset();
      assert unchanged(others) && lb.Hosts() == hosts;
      Lifted(k);
    }

    // Run when the connection to the DNS service is made: no pull is under way any more.
    method ResetLbStatus()
      requires Valid()
      modifies this, All()
      ensures Valid() && View() == ResetAll(old(View()))
    {
      hide LoadBalance.Valid, LoadBalance.View, LoadBalance.Hosts, Balancer.Partitioned, Valid, Table, AllHosts,
        Unpulled, Unpull;
      SameKeys();
      ghost var t := Table();
      UnpullNone(t);
      assert View().table == t && lbs.Keys == t.Keys;
      var rest := lbs.Keys;
      assert t.Keys - rest == {};
      while rest != {}
        invariant rest <= lbs.Keys && Valid() && lbs == old(lbs) && marks == old(marks)
        invariant Table() == Unpull(t, t.Keys - rest)
        decreases rest
      {
        var k :| k in rest;
        assert lbs[k] in All();
        UnpullOne(t, t.Keys - rest, k);
        assert t.Keys - rest + {k} == t.Keys - (rest - {k});
        ResetAt(k, lbs[k]);
        rest := rest - {k};
      }
      assert t.Keys - {} == t.Keys;
      Log([ClearedSome(t.Keys)]);
    }
  }
}
