// What the operations of one load balancer compute: hosts by key, and the two queues.

module Balancers {
  import opened Words
  import opened Hosts
  import opened Options
  import opened Sequences

  datatype Status = PULLING | NEW

  // One host of a DNS answer, as the message carries it.
  datatype Addr = Addr(ip: int32, port: int32)

  function KeyOf(a: Addr): uint64 { Key(a.ip, a.port) }

  function HostKey(h: Host): uint64 { Key(AsInt32(h.ip), h.port) }

  // hosts are the live entries of host_map_; dangling are its other keys, whose host
  // object has been deleted while the key stayed.
  datatype Balancer = Balancer(
    hosts: map<uint64, Host>,
    dangling: set<uint64>,
    idle: seq<uint64>,
    over: seq<uint64>,
    access: int,
    status: Status,
    lastUpdate: int)
  {
    function Known(): set<uint64> { hosts.Keys + dangling }

    predicate Empty() { Known() == {} }

    // Each host is filed under the key of its address, and its flag names its queue.
    ghost predicate Labelled() {
      && (forall k :: k in hosts ==> HostKey(hosts[k]) == k && (hosts[k].overload <==> k in over))
      && (forall k :: k in dangling ==> k !in hosts)
    }

    // The two queues hold every live host exactly once.
    ghost predicate Partitioned() {
      Split(idle, over, hosts.Keys) && Labelled()
    }
  }

  // The elements of all, each in one of the two sequences, once.
  ghost predicate Split<T>(s: seq<T>, t: seq<T>, all: set<T>) {
    && Distinct(s) && Distinct(t)
    && (forall k :: k in s ==> k in all && k !in t)
    && (forall k :: k in t ==> k in all && k !in s)
    && (forall k :: k in all ==> k in s || k in t)
  }

  // What the constructor makes; access_cnt_ is left as memory holds it.
  function Created(access: int): Balancer {
    Balancer(map[], {}, [], [], access, PULLING, 0)
  }

  // ---------- Lists ----------

  // std::list::remove
  function Without<T(==)>(s: seq<T>, x: T): (r: seq<T>)
    ensures forall y :: y in r ==> y in s && y != x
    ensures forall y :: y in s && y != x ==> y in r
  {
    if s == [] then []
    else if s[0] == x then Without(s[1..], x)
    else [s[0]] + Without(s[1..], x)
  }

  function Among<T(==)>(s: seq<T>, keep: set<T>): (r: seq<T>)
    ensures forall y :: y in r ==> y in s && y in keep
    ensures forall y :: y in s && y in keep ==> y in r
  {
    if s == [] then []
    else if s[0] in keep then [s[0]] + Among(s[1..], keep)
    else Among(s[1..], keep)
  }

  lemma {:induction false} WithoutDistinct<T>(s: seq<T>, x: T)
    requires Distinct(s)
    ensures Distinct(Without(s, x))
  {
    if s != [] {
      WithoutDistinct(s[1..], x);
      assert s[0] !in s[1..];
    }
  }

  lemma {:induction false} AmongDistinct<T>(s: seq<T>, keep: set<T>)
    requires Distinct(s)
    ensures Distinct(Among(s, keep))
  {
    if s != [] {
      AmongDistinct(s[1..], keep);
      assert s[0] !in s[1..];
    }
  }

  // Dropping one more element from a kept set.
  lemma {:induction false} AmongWithout<T>(s: seq<T>, keep: set<T>, x: T)
    ensures Among(s, keep - {x}) == Without(Among(s, keep), x)
  {
    if s != [] {
      AmongWithout(s[1..], keep, x);
      if s[0] in keep {
        assert Among(s, keep)[1..] == Among(s[1..], keep);
      }
    }
  }

  lemma {:induction false} WithoutOther<T>(s: seq<T>, x: T)
    requires x !in s
    ensures Without(s, x) == s
  {
    if s != [] {
      assert s[0] in s && (forall y :: y in s[1..] ==> y in s);
      WithoutOther(s[1..], x);
    }
  }

  // Only membership in the kept set matters.
  lemma {:induction false} AmongSame<T>(s: seq<T>, keep: set<T>, keep': set<T>)
    requires forall y :: y in s ==> (y in keep <==> y in keep')
    ensures Among(s, keep) == Among(s, keep')
  {
    if s != [] {
      assert s[0] in s && (forall y :: y in s[1..] ==> y in s);
      AmongSame(s[1..], keep, keep');
    }
  }

  lemma {:induction false} AmongAppend<T>(s: seq<T>, t: seq<T>, keep: set<T>)
    ensures Among(s + t, keep) == Among(s, keep) + Among(t, keep)
  {
    if s == [] {
      assert s + t == t;
    } else {
      assert (s + t)[1..] == s[1..] + t;
      AmongAppend(s[1..], t, keep);
    }
  }

  lemma {:induction false} AmongAll<T>(s: seq<T>, keep: set<T>)
    requires forall y :: y in s ==> y in keep
    ensures Among(s, keep) == s
  {
    if s != [] {
      assert s[0] in s;
      assert forall y :: y in s[1..] ==> y in s;
      AmongAll(s[1..], keep);
    }
  }

  // Moving an element to the end of the other sequence.
  lemma Transfer<T>(s: seq<T>, t: seq<T>, all: set<T>, x: T)
    requires Split(s, t, all) && x in s
    ensures Split(Without(s, x), t + [x], all)
  {
    WithoutDistinct(s, x);
    AppendDistinct(t, [x]);
  }

  // ---------- Picking ----------

  function Rotated<T>(s: seq<T>): seq<T>
    requires s != []
  {
    s[1..] + [s[0]]
  }

  // Picking takes the front of a queue, so that queue must not be empty.
  predicate CanPick(cfg: Config, b: Balancer) {
    b.idle == [] && b.access >= cfg.probeNum ==> b.over != []
  }

  // The balancer afterwards and the host that was picked; none means that all hosts are
  // overloaded and it is not yet time to probe one.
  function Pick(cfg: Config, b: Balancer): (Balancer, Option<uint64>)
    requires CanPick(cfg, b)
  {
    var probing := b.access >= cfg.probeNum && b.over != [];
    if probing then (b.(access := 0, over := Rotated(b.over)), Some(b.over[0]))
    else if b.idle == [] then (b.(access := b.access + 1), None)
    else (b.(access := b.access + 1, idle := Rotated(b.idle)), Some(b.idle[0]))
  }

  // ---------- Reporting ----------

  function Report(cfg: Config, b: Balancer, key: uint64, ok: bool, now: int): Balancer
    requires key !in b.dangling
  {
    if key !in b.hosts then b
    else
      var t := Tally(b.hosts[key], ok);
      var move := Judge(cfg, t, ok, now);
      var b' := b.(hosts := b.hosts[key := Moved(cfg, t, move, now)]);
      match move
      case Trip => b'.(idle := Without(b.idle, key), over := b.over + [key])
      case Recover => b'.(over := Without(b.over, key), idle := b.idle + [key])
      case _ => b'
  }

  // ---------- Reconciling with a DNS answer ----------

  function KeysIn(answer: seq<Addr>): set<uint64> {
    set a | a in answer :: KeyOf(a)
  }

  // The keys of the answer that are not known yet, in order of first occurrence.
  function Novel(answer: seq<Addr>, known: set<uint64>): (r: seq<uint64>)
    ensures forall k :: k in r <==> k in KeysIn(answer) && k !in known
    decreases |answer|
  {
    if answer == [] then []
    else
      var k := KeyOf(answer[0]);
      assert KeysIn(answer) == {k} + KeysIn(answer[1..]) by {
        assert forall a :: a in answer <==> a == answer[0] || a in answer[1..];
      }
      if k in known then Novel(answer[1..], known)
      else [k] + Novel(answer[1..], known + {k})
  }

  lemma {:induction false} NovelDistinct(answer: seq<Addr>, known: set<uint64>)
    ensures Distinct(Novel(answer, known))
    decreases |answer|
  {
    if answer != [] {
      var k := KeyOf(answer[0]);
      NovelDistinct(answer[1..], if k in known then known else known + {k});
    }
  }

  // The contents of the two time fields of a new host object, by key.
  type Memory = uint64 -> (int, int)

  function NewHost(cfg: Config, a: Addr, memory: Memory): Host {
    var (idleTs, overloadTs) := memory(KeyOf(a));
    Host(AsUint32(a.ip), a.port, cfg.initSucc, 0, 0, 0, 0, 0, false, idleTs, overloadTs)
  }

  // Adding the hosts of the answer that are not known.
  function Added(cfg: Config, hosts: map<uint64, Host>, known: set<uint64>, answer: seq<Addr>, memory: Memory):
    map<uint64, Host>
    decreases |answer|
  {
    if answer == [] then hosts
    else
      var k := KeyOf(answer[0]);
      if k in known then Added(cfg, hosts, known, answer[1..], memory)
      else Added(cfg, hosts[k := NewHost(cfg, answer[0], memory)], known + {k}, answer[1..], memory)
  }

  // Deleting a host object twice, or reading a deleted one, is not defined; the answer
  // must not be empty.
  predicate CanUpdate(b: Balancer, answer: seq<Addr>) {
    answer != [] && b.dangling <= KeysIn(answer)
  }

  // update as it is: hosts that are gone leave the queues and are deleted, their keys stay.
  function Update(cfg: Config, b: Balancer, answer: seq<Addr>, memory: Memory, now: int): Balancer
    requires CanUpdate(b, answer)
  {
    var remote := KeysIn(answer);
    var all := Added(cfg, b.hosts, b.Known(), answer, memory);
    Balancer(
      map k | k in all && k in remote :: all[k],
      b.dangling + (b.hosts.Keys - remote),
      Among(b.idle, remote) + Novel(answer, b.Known()),
      Among(b.over, remote),
      b.access, NEW, now)
  }

  // update as its comments intend it: the keys go as well.
  function UpdateErasing(cfg: Config, b: Balancer, answer: seq<Addr>, memory: Memory, now: int): Balancer
    requires b.dangling == {} && answer != []
  {
    Update(cfg, b, answer, memory, now).(dangling := {})
  }

  // ---------- What is told to the reporter ----------

  datatype CallResult = CallResult(ip: int32, port: int32, succ: nat, err: nat, overload: bool)

  function ResultOf(h: Host, overload: bool): CallResult {
    CallResult(AsInt32(h.ip), h.port, h.rsucc, h.rerr, overload)
  }

  function ResultsOf(hosts: map<uint64, Host>, keys: seq<uint64>, overload: bool): (rs: seq<CallResult>)
    requires forall k :: k in keys ==> k in hosts
    ensures |rs| == |keys| && forall i :: 0 <= i < |keys| ==> rs[i] == ResultOf(hosts[keys[i]], overload)
  {
    if keys == [] then []
    else
      assert keys[0] in keys;
      [ResultOf(hosts[keys[0]], overload)] + ResultsOf(hosts, keys[1..], overload)
  }

  // The list commit builds: the idle queue, then the overload queue.
  function Committed(b: Balancer): seq<CallResult>
    requires forall k :: k in b.idle || k in b.over ==> k in b.hosts
  {
    ResultsOf(b.hosts, b.idle, false) + ResultsOf(b.hosts, b.over, true)
  }

  // Every host is reported exactly once, with its address, its real counts and its flag.
  lemma CommitReportsEachOnce(b: Balancer)
    requires b.Partitioned()
    ensures var rs, ks := Committed(b), b.idle + b.over;
            && |rs| == |ks| && Distinct(ks) && (forall k :: k in ks <==> k in b.hosts)
            && forall i :: 0 <= i < |rs| ==>
                 var h := b.hosts[ks[i]];
                 Key(rs[i].ip, rs[i].port) == ks[i] && rs[i].overload == h.overload
                 && rs[i].succ == h.rsucc && rs[i].err == h.rerr
  {
    hide Key;
    AppendDistinct(b.idle, b.over);
    var rs, ks := Committed(b), b.idle + b.over;
    assert forall k :: k in ks <==> k in b.idle || k in b.over;
    forall i | 0 <= i < |rs|
      ensures var h := b.hosts[ks[i]];
              Key(rs[i].ip, rs[i].port) == ks[i] && rs[i].overload == h.overload
              && rs[i].succ == h.rsucc && rs[i].err == h.rerr
    {
      if i < |b.idle| {
        assert ks[i] == b.idle[i] && b.idle[i] in b.idle;
      } else {
        assert ks[i] == b.over[i - |b.idle|] && b.over[i - |b.idle|] in b.over;
      }
    }
  }
}
