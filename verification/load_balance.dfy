// The load balancer of one (modid, cmdid): a map of host objects and two lists of
// pointers to them, proved to compute what module Balancers specifies.

module LoadBalances {
  import opened Words
  import opened Hosts
  import opened Options
  import opened Sequences
  import opened Balancers
  import opened BalancerRuns

  datatype RetCode = RET_SUCC | RET_OVERLOAD | RET_NOEXIST

  datatype RouteRequest = RouteRequest(modid: int32, cmdid: int32)

  // The address of a host object never changes.
  function HKey(h: HostInfo): uint64 { Key(AsInt32(h.ip), h.port) }

  function Keys(list: seq<HostInfo>): (ks: seq<uint64>)
    ensures |ks| == |list| && forall i :: 0 <= i < |list| ==> ks[i] == HKey(list[i])
  {
    if list == [] then [] else [HKey(list[0])] + Keys(list[1..])
  }

  lemma {:induction false} KeysWithout(list: seq<HostInfo>, h: HostInfo)
    requires forall p :: p in list && HKey(p) == HKey(h) ==> p == h
    ensures Keys(Without(list, h)) == Without(Keys(list), HKey(h))
  {
    if list != [] {
      assert list[0] in list;
      assert forall p :: p in list[1..] ==> p in list;
      KeysWithout(list[1..], h);
      assert Keys(list)[1..] == Keys(list[1..]);
    }
  }

  lemma ListKeys(list: seq<HostInfo>, h: HostInfo)
    ensures h in list ==> HKey(h) in Keys(list)
  {
    if i :| 0 <= i < |list| && list[i] == h {
      assert Keys(list)[i] == HKey(h);
    }
  }

  lemma {:induction false} KeysAppend(s: seq<HostInfo>, t: seq<HostInfo>)
    ensures Keys(s + t) == Keys(s) + Keys(t)
  {
  }

  lemma KeysOne(h: HostInfo)
    ensures Keys([h]) == [HKey(h)]
  {
  }

  lemma KeysRotated(list: seq<HostInfo>)
    requires list != []
    ensures Keys(Rotated(list)) == Rotated(Keys(list))
    ensures list[0] in list && forall p :: p in Rotated(list) ==> p in list
  {
    KeysAppend(list[1..], [list[0]]);
    assert Keys([list[0]]) == [HKey(list[0])];
  }

  lemma UpdateTwice(m: map<uint64, Host>, k: uint64, x: Host, y: Host)
    ensures m[k := x][k := y] == m[k := y]
  {
  }

  // Adding the first host of an answer and then the rest.
  lemma AddStep(cfg: Config, b: Balancer, answer: seq<Addr>, memory: Memory)
    requires answer != []
    ensures var a, rest, known := answer[0], answer[1..], b.Known();
            var k := KeyOf(a);
            && KeysIn(answer) == {k} + KeysIn(rest)
            && (if k in known then
                  && Added(cfg, b.hosts, known, answer, memory) == Added(cfg, b.hosts, known, rest, memory)
                  && Novel(answer, known) == Novel(rest, known)
                else
                  var b' := b.(hosts := b.hosts[k := NewHost(cfg, a, memory)], idle := b.idle + [k]);
                  && Added(cfg, b.hosts, known, answer, memory) == Added(cfg, b'.hosts, b'.Known(), rest, memory)
                  && b.idle + Novel(answer, known) == b'.idle + Novel(rest, b'.Known()))
  {
    assert forall x :: x in answer <==> x == answer[0] || x in answer[1..];
    hide Key, NewHost;
    var k := KeyOf(answer[0]);
    if k !in b.Known() {
      assert b.hosts[k := NewHost(cfg, answer[0], memory)].Keys + b.dangling == b.Known() + {k};
    }
  }

  lemma AddNone(cfg: Config, memory: Memory)
    ensures KeysIn([]) == {}
    ensures forall hosts, known :: Added(cfg, hosts, known, [], memory) == hosts
    ensures forall known :: Novel([], known) == []
  {
  }

  class LoadBalance {
    const modid: int32
    const cmdid: int32
    var status: Status
    var lastUpdateTime: int
    var accessCnt: int
    var hostMap: map<uint64, HostInfo>
    var idleList: seq<HostInfo>
    var overloadList: seq<HostInfo>
    // the host objects that have been deleted
    ghost var freed: set<HostInfo>

    ghost function Hosts(): set<HostInfo>
      reads this`hostMap
    {
      set k | k in hostMap :: hostMap[k]
    }

    // A live host object of the map.
    ghost predicate Holds(h: HostInfo)
      reads this
    {
      HKey(h) in hostMap && hostMap[HKey(h)] == h && h !in freed
    }

    ghost predicate Valid()
      reads this
    {
      && (forall k :: k in hostMap ==> HKey(hostMap[k]) == k)
      && (forall p :: p in idleList ==> Holds(p))
      && (forall p :: p in overloadList ==> Holds(p))
    }

    ghost function Live(): map<uint64, Host>
      reads this`hostMap, this`freed, Hosts()
    {
      map k | k in hostMap && hostMap[k] !in freed :: hostMap[k].View()
    }

    ghost function Gone(): set<uint64>
      reads this`hostMap, this`freed
    {
      set k | k in hostMap && hostMap[k] in freed
    }

    // The balancer is not one of its hosts.
    lemma NotAHost()
      ensures forall h: HostInfo :: h in Hosts() ==> h as object != this
    {
    }

    ghost function View(): Balancer
      reads this, Hosts()
    {
      Balancer(Live(), Gone(), Keys(idleList), Keys(overloadList), accessCnt, status, lastUpdateTime)
    }

    constructor (modid: int32, cmdid: int32, access: int)
      ensures Valid() && View() == Created(access) && Hosts() == {}
      ensures this.modid == modid && this.cmdid == cmdid
    {
      this.modid, this.cmdid := modid, cmdid;
      status, lastUpdateTime, accessCnt := PULLING, 0, access;
      hostMap, idleList, overloadList, freed := map[], [], [], {};
    }

    predicate Empty()
      reads this
    {
      hostMap == map[]
    }

    // Asks the DNS service for the hosts.
    method Pull() returns (request: RouteRequest)
      requires Valid()
      modifies this
      ensures Valid() && View() == old(View()).(status := PULLING) && hostMap == old(hostMap)
      ensures request == RouteRequest(modid, cmdid)
    {
      NotAHost();
      hide Live, Gone, Keys, HKey, Hosts;
      request := RouteRequest(modid, cmdid);
      status := PULLING;
    }

    // What reset_lb_status does to each balancer.
    method Reset()
      requires Valid()
      modifies this
      ensures Valid() && View() == old(View()).(status := NEW) && hostMap == old(hostMap)
    {
      NotAHost();
      hide Live, Gone, Keys, HKey, Hosts;
      if status == PULLING {
        status := NEW;
      }
    }

    method PickOneHost(cfg: Config) returns (ret: RetCode, host: HostInfo?)
      requires Valid() && CanPick(cfg, View())
      modifies this
      ensures Valid() && View() == Pick(cfg, old(View())).0 && hostMap == old(hostMap)
      ensures match Pick(cfg, old(View())).1
              case Some(k) => ret == RET_SUCC && host != null && Holds(host) && HKey(host) == k
              case None => ret == RET_OVERLOAD && host == null
    {
      hide HKey, Rotated;
      assert idleList == [] <==> Keys(idleList) == [];
      assert overloadList == [] <==> Keys(overloadList) == [];
      hide Keys, Valid, View, Hosts;
      if idleList == [] {
        if accessCnt >= cfg.probeNum {
          SetAccess(0);
          host := FromOverloadList();
        } else {
          SetAccess(accessCnt + 1);
          return RET_OVERLOAD, null;
        }
      } else {
        if overloadList != [] {
          if accessCnt >= cfg.probeNum {
            SetAccess(0);
            host := FromOverloadList();
            return RET_SUCC, host;
          }
        }
        SetAccess(accessCnt + 1);
        host := FromIdleList();
      }
      return RET_SUCC, host;
    }

    method SetAccess(count: int)
      requires Valid()
      modifies this`accessCnt
      ensures Valid() && accessCnt == count && View() == old(View()).(access := count)
    {
      NotAHost();
      hide Live, Gone, Keys, HKey, Hosts;
      accessCnt := count;
    }

    // get_host_from_list, on either list: the front moves to the back.
    method FromOverloadList() returns (host: HostInfo)
      requires Valid() && overloadList != []
      modifies this`overloadList
      ensures Valid() && Holds(host) && HKey(host) == old(View()).over[0]
      ensures View() == old(View()).(over := Rotated(old(View()).over)) && accessCnt == old(accessCnt)
    {
      hide HKey;
      host := overloadList[0];
      KeysRotated(overloadList);
      NotAHost();
      hide Keys, Rotated, Live, Gone, Hosts;
      overloadList := overloadList[1..] + [host];
      assert overloadList == Rotated(old(overloadList));
    }

    method FromIdleList() returns (host: HostInfo)
      requires Valid() && idleList != []
      modifies this`idleList
      ensures Valid() && Holds(host) && HKey(host) == old(View()).idle[0]
      ensures View() == old(View()).(idle := Rotated(old(View()).idle))
    {
      hide HKey;
      host := idleList[0];
      KeysRotated(idleList);
      NotAHost();
      hide Keys, Rotated, Live, Gone, Hosts;
      idleList := idleList[1..] + [host];
      assert idleList == Rotated(old(idleList));
    }

    // A host object and what the balancer as a whole makes of its change.
    ghost predicate Filed(h: HostInfo, key: uint64)
      reads this
    {
      key in hostMap && hostMap[key] == h && h !in freed
    }

    method CountOn(key: uint64, h: HostInfo, ok: bool)
      requires Valid() && Filed(h, key)
      modifies h
      ensures Valid() && Filed(h, key) && h.View() == Tally(old(h.View()), ok)
      ensures View() == old(View()).(hosts := old(View()).hosts[key := h.View()])
    {
      hide HKey, Keys, Tally;
      h.Count(ok);
    }

    method IdleOn(cfg: Config, key: uint64, h: HostInfo, now: int)
      requires Valid() && Filed(h, key)
      modifies h
      ensures Valid() && h.View() == Idled(cfg, old(h.View()), now)
      ensures View() == old(View()).(hosts := old(View()).hosts[key := h.View()])
    {
      hide HKey, Keys, Idled;
      h.SetIdle(cfg, now);
    }

    method OverloadOn(cfg: Config, key: uint64, h: HostInfo, now: int)
      requires Valid() && Filed(h, key)
      modifies h
      ensures Valid() && h.View() == Overloaded(cfg, old(h.View()), now)
      ensures View() == old(View()).(hosts := old(View()).hosts[key := h.View()])
    {
      hide HKey, Keys, Overloaded;
      h.SetOverload(cfg, now);
    }

    method ToOverloadList(key: uint64, h: HostInfo)
      requires Valid() && Filed(h, key)
      modifies this`idleList, this`overloadList
      ensures Valid()
      ensures View() == old(View()).(idle := Without(old(View()).idle, key), over := old(View()).over + [key])
    {
      hide HKey, Keys, Without, Live, Gone, Hosts;
      KeysWithout(idleList, h);
      KeysAppend(overloadList, [h]);
      KeysOne(h);
      NotAHost();
      idleList := Without(idleList, h);
      overloadList := overloadList + [h];
    }

    method ToIdleList(key: uint64, h: HostInfo)
      requires Valid() && Filed(h, key)
      modifies this`idleList, this`overloadList
      ensures Valid()
      ensures View() == old(View()).(over := Without(old(View()).over, key), idle := old(View()).idle + [key])
    {
      hide HKey, Keys, Without, Live, Gone, Hosts;
      KeysWithout(overloadList, h);
      KeysAppend(idleList, [h]);
      KeysOne(h);
      NotAHost();
      overloadList := Without(overloadList, h);
      idleList := idleList + [h];
    }

    method Trip(cfg: Config, key: uint64, h: HostInfo, now: int)
      requires Valid() && Filed(h, key)
      modifies this`idleList, this`overloadList, h
      ensures Valid()
      ensures var b := old(View());
              View() == b.(hosts := b.hosts[key := Overloaded(cfg, old(h.View()), now)],
                           idle := Without(b.idle, key), over := b.over + [key])
    {
      hide HKey, Keys, Overloaded, Without;
      OverloadOn(cfg, key, h, now);
      ToOverloadList(key, h);
    }

    method Recover(cfg: Config, key: uint64, h: HostInfo, now: int)
      requires Valid() && Filed(h, key)
      modifies this`idleList, this`overloadList, h
      ensures Valid()
      ensures var b := old(View());
              View() == b.(hosts := b.hosts[key := Idled(cfg, old(h.View()), now)],
                           over := Without(b.over, key), idle := b.idle + [key])
    {
      hide HKey, Keys, Idled, Without;
      IdleOn(cfg, key, h, now);
      ToIdleList(key, h);
    }

    // Counts one call result on a host and moves it if that is due.
    method Report(cfg: Config, ip: int32, port: int32, ok: bool, now: int)
      requires Valid() && Key(ip, port) !in View().dangling
      modifies this`idleList, this`overloadList, Hosts()
      ensures Valid() && View() == Balancers.Report(cfg, old(View()), Key(ip, port), ok, now)
    {
      var key := Key(ip, port);
      hide Key, HKey, Keys;
      if key !in hostMap {
        return;
      }
      var hi := hostMap[key];
      assert Filed(hi, key) && hi in Hosts();
      ghost var b := View();
      assert key in b.hosts && b.hosts[key] == hi.View();
      hide Valid, View, Hosts, Tally, Judge, Moved, Without, Filed;
      CountOn(key, hi, ok);
      UpdateTwice(b.hosts, key, hi.View(), Moved(cfg, hi.View(), Judge(cfg, hi.View(), ok, now), now));
      Reconsider(cfg, key, hi, ok, now);
    }

    // Tests the host against its queue after a call result, then its window or time.
    method Reconsider(cfg: Config, key: uint64, hi: HostInfo, ok: bool, now: int)
      requires Valid() && Filed(hi, key) && hi.vsucc + hi.verr > 0
      modifies this`idleList, this`overloadList, hi
      ensures Valid()
      ensures var b, t := old(View()), old(hi.View());
              var move := Judge(cfg, t, ok, now);
              var b' := b.(hosts := b.hosts[key := Moved(cfg, t, move, now)]);
              View() == match move
                        case Trip => b'.(idle := Without(b.idle, key), over := b.over + [key])
                        case Recover => b'.(over := Without(b.over, key), idle := b.idle + [key])
                        case _ => b'
    {
      hide Key, HKey, Keys, Idled, Overloaded, Without;
      assert View().hosts[key := hi.View()] == View().hosts;
      hide Valid, View, Hosts;
      if !hi.overload && !ok {
        var overload := false;
        var errRate := hi.verr as real / (hi.vsucc + hi.verr) as real;
        if errRate > cfg.errRate {
          overload := true;
        }
        if !overload && hi.conErr >= AsUint32(cfg.conErrLimit) {
          overload := true;
        }
        if overload {
          Trip(cfg, key, hi, now);
          return;
        }
      } else if hi.overload && ok {
        var idle := false;
        var succRate := hi.vsucc as real / (hi.vsucc + hi.verr) as real;
        if succRate > cfg.succRate {
          idle := true;
        }
        if !idle && hi.conSucc >= AsUint32(cfg.conSuccLimit) {
          idle := true;
        }
        if idle {
          Recover(cfg, key, hi, now);
          return;
        }
      }
      if !hi.overload {
        if now - hi.idleTs >= cfg.idleTimeout {
          if hi.CheckWindow(cfg) {
            Trip(cfg, key, hi, now);
          } else {
            IdleOn(cfg, key, hi, now);
          }
        }
      } else {
        if now - hi.overloadTs >= cfg.overloadTimeout {
          Recover(cfg, key, hi, now);
        }
      }
    }

    // The map has kept its host objects, and gained only new ones.
    twostate predicate OnlyNew()
      reads this
    {
      && (forall k :: k in old(hostMap) ==> k in hostMap && hostMap[k] == old(hostMap)[k])
      && (forall k :: k in hostMap && k !in old(hostMap) ==> fresh(hostMap[k]))
    }

    twostate lemma GainsOnlyNew()
      requires OnlyNew()
      ensures forall h :: h in Hosts() ==> h in old(Hosts()) || fresh(h)
    {
    }

    // Adds one host of an answer if its key is not known.
    method AddHost(cfg: Config, a: Addr, memory: Memory)
      requires Valid()
      modifies this`hostMap, this`idleList
      ensures Valid()
      ensures OnlyNew()
      ensures hostMap.Keys == old(hostMap.Keys) + {KeyOf(a)}
      ensures var b, k := old(View()), KeyOf(a);
              View() == if k in b.Known() then b
                        else b.(hosts := b.hosts[k := NewHost(cfg, a, memory)], idle := b.idle + [k])
    {
      var key := Key(a.ip, a.port);
      hide Key, Keys, View, Hosts, Live, Gone;
      KnownKeys();
      if key !in hostMap {
        var (idleTs, overloadTs) := memory(key);
        assert AsInt32(AsUint32(a.ip)) == a.ip;
        ghost var b := View();
        var hi := NewHostInfo(cfg, a, idleTs, overloadTs);
        hide HKey;
        Insert(key, hi);
      }
    }

    method NewHostInfo(cfg: Config, a: Addr, idleTs: int, overloadTs: int) returns (hi: HostInfo)
      requires Valid()
      ensures fresh(hi) && Valid() && View() == old(View()) && hi !in freed
      ensures hi.View() == Host(AsUint32(a.ip), a.port, cfg.initSucc, 0, 0, 0, 0, 0, false, idleTs, overloadTs)
    {
      hide Keys, HKey;
      hi := new HostInfo(AsUint32(a.ip), a.port, cfg.initSucc, idleTs, overloadTs);
    }

    method Insert(key: uint64, hi: HostInfo)
      requires Valid() && key !in hostMap && HKey(hi) == key && hi !in freed
      modifies this`hostMap, this`idleList
      ensures Valid() && hostMap == old(hostMap)[key := hi]
      ensures View() == old(View()).(hosts := old(View()).hosts[key := hi.View()], idle := old(View()).idle + [key])
    {
      hide Key, HKey, Keys, Valid, View;
      File(key, hi);
      PushIdle(hi);
    }

    method PushIdle(hi: HostInfo)
      requires Valid() && Holds(hi)
      modifies this`idleList
      ensures Valid() && View() == old(View()).(idle := old(View()).idle + [HKey(hi)])
    {
      KeysAppend(idleList, [hi]);
      assert Keys([hi]) == [HKey(hi)];
      NotAHost();
      hide Key, HKey, Keys, Live, Gone, Hosts;
      idleList := idleList + [hi];
    }

    method File(key: uint64, hi: HostInfo)
      requires Valid() && key !in hostMap && HKey(hi) == key && hi !in freed
      modifies this`hostMap
      ensures Valid() && Holds(hi) && hostMap == old(hostMap)[key := hi]
      ensures View() == old(View()).(hosts := old(View()).hosts[key := hi.View()])
    {
      hide Key, HKey, Keys;
      hostMap := hostMap[key := hi];
    }

    // The first loop of update: every key of the answer becomes known.
    method AddHosts(cfg: Config, answer: seq<Addr>, memory: Memory) returns (remote: set<uint64>)
      requires Valid()
      modifies this`hostMap, this`idleList
      ensures Valid() && remote == KeysIn(answer)
      ensures OnlyNew()
      ensures hostMap.Keys == old(hostMap.Keys) + remote
      ensures var b := old(View());
              View() == b.(hosts := Added(cfg, b.hosts, b.Known(), answer, memory),
                           idle := b.idle + Novel(answer, b.Known()))
    {
      hide Key, HKey, Keys, View, Hosts, Valid, NewHost, Added, Novel, KeysIn;
      AddNone(cfg, memory);
      ghost var b := View();
      remote := {};
      var i := 0;
      while i < |answer|
        invariant 0 <= i <= |answer|
        invariant Valid() && View() == b.(hosts := View().hosts, idle := View().idle)
        invariant OnlyNew()
        invariant remote + KeysIn(answer[i..]) == KeysIn(answer)
        invariant hostMap.Keys == old(hostMap.Keys) + remote
        invariant Added(cfg, View().hosts, View().Known(), answer[i..], memory)
                  == Added(cfg, b.hosts, b.Known(), answer, memory)
        invariant View().idle + Novel(answer[i..], View().Known()) == b.idle + Novel(answer, b.Known())
      {
        ghost var v, rest := View(), answer[i..];
        assert rest[0] == answer[i] && rest[1..] == answer[i + 1..];
        AddStep(cfg, v, rest, memory);
        remote := remote + {KeyOf(answer[i])};
        AddHost(cfg, answer[i], memory);
        i := i + 1;
      }
      assert answer[|answer|..] == [];
    }

    // The second loop of update: the keys the answer does not name.
    method FindGone(remote: set<uint64>) returns (needDelete: set<uint64>)
      ensures needDelete == hostMap.Keys - remote && View() == old(View())
    {
      needDelete := {};
      var rest := hostMap.Keys;
      while rest != {}
        invariant rest <= hostMap.Keys && needDelete == hostMap.Keys - rest - remote
        decreases rest
      {
        var k :| k in rest;
        if k !in remote {
          needDelete := needDelete + {k};
        }
        rest := rest - {k};
      }
    }

    // Takes a host out of the queue its flag names and deletes the object; the key stays.
    method Delete(key: uint64)
      requires Valid() && key in hostMap && hostMap[key] !in freed
      requires if hostMap[key].overload then key !in View().idle else key !in View().over
      modifies this`idleList, this`overloadList, this`freed
      ensures Valid()
      ensures var b, overload := old(View()), old(hostMap[key].overload);
              View() == b.(hosts := b.hosts - {key}, dangling := b.dangling + {key},
                           idle := if overload then b.idle else Without(b.idle, key),
                           over := if overload then Without(b.over, key) else b.over)
    {
      hide HKey;
      var hi := hostMap[key];
      if hi.overload {
        LeaveOverload(key, hi);
      } else {
        LeaveIdle(key, hi);
      }
      Free(key, hi);
    }

    method LeaveOverload(key: uint64, hi: HostInfo)
      requires Valid() && Filed(hi, key)
      modifies this`overloadList
      ensures Valid() && View() == old(View()).(over := Without(old(View()).over, key))
    {
      hide HKey;
      KeysWithout(overloadList, hi);
      NotAHost();
      hide Keys, Without, Live, Gone, Hosts;
      overloadList := Without(overloadList, hi);
    }

    method LeaveIdle(key: uint64, hi: HostInfo)
      requires Valid() && Filed(hi, key)
      modifies this`idleList
      ensures Valid() && View() == old(View()).(idle := Without(old(View()).idle, key))
    {
      hide HKey;
      KeysWithout(idleList, hi);
      NotAHost();
      hide Keys, Without, Live, Gone, Hosts;
      idleList := Without(idleList, hi);
    }

    method Free(key: uint64, hi: HostInfo)
      requires Valid() && Filed(hi, key) && key !in View().idle && key !in View().over
      modifies this`freed
      ensures Valid()
      ensures View() == old(View()).(hosts := old(View()).hosts - {key}, dangling := old(View()).dangling + {key})
    {
      hide HKey;
      ListKeys(idleList, hi);
      ListKeys(overloadList, hi);
      hide Keys;
      ghost var b := View();
      freed := freed + {hi};
      assert Live() == b.hosts - {key};
      assert Gone() == b.dangling + {key};
    }

    // The third loop of update.
    method DeleteAll(needDelete: set<uint64>)
      requires Valid() && View().Partitioned() && needDelete <= View().hosts.Keys
      modifies this`idleList, this`overloadList, this`freed
      ensures Valid() && View() == Dropped(old(View()), old(View()).hosts.Keys - needDelete)
    {
      hide HKey, Keys, Valid, View, Hosts, Live, Gone, Balancer.Partitioned, Dropped, Filed, Holds;
      ghost var b, keep := View(), View().hosts.Keys;
      DropNone(b, keep);
      var rest := needDelete;
      while rest != {}
        invariant rest <= keep <= b.hosts.Keys && keep - rest == b.hosts.Keys - needDelete
        invariant Valid() && View() == Dropped(b, keep)
        decreases rest
      {
        var key :| key in rest;
        DeleteNext(b, keep, key);
        keep, rest := keep - {key}, rest - {key};
      }
      assert keep == keep - rest;
    }

    method DeleteNext(ghost b: Balancer, ghost keep: set<uint64>, key: uint64)
      requires Valid() && View() == Dropped(b, keep) && b.Partitioned() && key in b.hosts && key in keep
      modifies this`idleList, this`overloadList, this`freed
      ensures Valid() && View() == Dropped(b, keep - {key})
    {
      DropOne(b, keep, key);
      hide HKey, Keys, Balancer.Partitioned, Dropped, Without, Live, Gone, Valid;
      InView(key);
      Delete(key);
    }

    // Reconciles the hosts with a non-empty DNS answer. Keys that dangle must be named by
    // the answer, or their host would be deleted again.
    method Update(cfg: Config, answer: seq<Addr>, memory: Memory, now: int)
      requires Valid() && View().Partitioned() && CanUpdate(View(), answer)
      modifies this
      ensures Valid() && View() == Balancers.Update(cfg, old(View()), answer, memory, now)
      ensures OnlyNew()
    {
      hide HKey, Keys, Valid, View, Balancer.Partitioned, Dropped, Balancers.Update, Added, Novel, KeysIn;
      ghost var b := View();
      assert b.dangling <= KeysIn(answer);
      GrownKeeps(cfg, b, answer, memory);
      UpdateInHalves(cfg, b, answer, memory, now);
      var remote := AddHosts(cfg, answer, memory);
      assert View() == Grown(cfg, b, answer, memory);
      var needDelete := FindGone(remote);
      KnownKeys();
      assert needDelete <= View().hosts.Keys;
      DropSame(View(), View().hosts.Keys - needDelete, remote);
      DeleteAll(needDelete);
      Finish(now);
    }

    // The live host objects by key.
    lemma InView(key: uint64)
      requires key in View().hosts
      ensures key in hostMap && hostMap[key] !in freed && View().hosts[key] == hostMap[key].View()
    {
      hide Keys;
    }

    lemma KnownKeys()
      ensures View().Known() == hostMap.Keys
    {
      hide Keys;
    }

    method Finish(now: int)
      requires Valid()
      modifies this`lastUpdateTime, this`status
      ensures Valid() && View() == old(View()).(status := NEW, lastUpdate := now)
    {
      NotAHost();
      hide Live, Gone, Keys, HKey, Hosts;
      lastUpdateTime := now;
      status := NEW;
    }

    // The results of all hosts for the reporter; none from an empty balancer.
    method Commit() returns (results: Option<seq<CallResult>>)
      requires Valid() && View().Partitioned()
      ensures View().Empty() <==> results.None?
      ensures results.Some? ==> results.value == Committed(View())
    {
      KnownKeys();
      ghost var b := View();
      assert Keys(idleList) == b.idle && Keys(overloadList) == b.over;
      assert forall p :: p in idleList || p in overloadList ==> Holds(p);
      hide View, Valid, Keys, HKey, Holds, Live, Gone, Balancer.Partitioned;
      if Empty() {
        return None;
      }
      var idle := ListResults(idleList, false);
      var over := ListResults(overloadList, true);
      results := Some(idle + over);
    }

    // One of the two loops of commit.
    method ListResults(list: seq<HostInfo>, overload: bool) returns (results: seq<CallResult>)
      requires Valid() && forall p :: p in list ==> Holds(p)
      ensures View() == old(View()) && forall k :: k in Keys(list) ==> k in View().hosts
      ensures results == ResultsOf(View().hosts, Keys(list), overload)
    {
      hide HKey;
      forall k | k in Keys(list) ensures k in Live() {
        var i :| 0 <= i < |list| && Keys(list)[i] == k;
        assert Holds(list[i]);
      }
      results := [];
      var i := 0;
      while i < |list|
        invariant 0 <= i <= |list| && |results| == i
        invariant forall j :: 0 <= j < i ==> results[j] == ResultOf(list[j].View(), overload)
      {
        var hi := list[i];
        results := results + [CallResult(AsInt32(hi.ip), hi.port, hi.rsucc, hi.rerr, overload)];
        i := i + 1;
      }
      forall j | 0 <= j < |list| ensures Live()[Keys(list)[j]] == list[j].View() {
        assert Holds(list[j]);
      }
    }

    // Every host object of the map, in the order of the map.
    method GetAllHosts() returns (vec: seq<HostInfo>)
      requires Valid()
      ensures Distinct(Keys(vec)) && (forall k :: k in Keys(vec) <==> k in hostMap)
      ensures forall p :: p in vec ==> hostMap[HKey(p)] == p
    {
      hide HKey;
      vec := [];
      var rest := hostMap.Keys;
      while rest != {}
        invariant rest <= hostMap.Keys && Distinct(Keys(vec))
        invariant forall k :: k in Keys(vec) <==> k in hostMap.Keys - rest
        invariant forall p :: p in vec ==> HKey(p) in hostMap && hostMap[HKey(p)] == p
        decreases rest
      {
        var k :| k in rest;
        KeysAppend(vec, [hostMap[k]]);
        assert Keys([hostMap[k]]) == [k];
        AppendDistinct(Keys(vec), [k]);
        vec := vec + [hostMap[k]];
        rest := rest - {k};
      }
    }
  }
}
