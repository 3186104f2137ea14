// What every run of one load balancer keeps, and where the code leaves its intent.

module BalancerRuns {
  import opened Words
  import opened Hosts
  import opened Sequences
  import opened Balancers

  // A host as the constructor makes it for an address.
  predicate Initial(cfg: Config, h: Host, key: uint64, memory: Memory) {
    && HostKey(h) == key && !h.overload && h.vsucc == cfg.initSucc
    && h.verr == h.rsucc == h.rerr == h.conSucc == h.conErr == 0
    && (h.idleTs, h.overloadTs) == memory(key)
  }

  lemma {:induction false} AddedHosts(cfg: Config, hosts: map<uint64, Host>, known: set<uint64>, answer: seq<Addr>,
                                      memory: Memory)
    requires hosts.Keys <= known
    ensures var all := Added(cfg, hosts, known, answer, memory);
            && all.Keys == hosts.Keys + (KeysIn(answer) - known)
            && (forall k :: k in hosts ==> all[k] == hosts[k])
            && (forall k :: k in all && k !in hosts ==> Initial(cfg, all[k], k, memory))
    decreases |answer|
  {
    if answer != [] {
      hide Key;
      var a := answer[0];
      var k := KeyOf(a);
      assert KeysIn(answer) == {k} + KeysIn(answer[1..]) by {
        assert forall x :: x in answer <==> x == a || x in answer[1..];
      }
      if k in known {
        AddedHosts(cfg, hosts, known, answer[1..], memory);
      } else {
        var h := NewHost(cfg, a, memory);
        assert Initial(cfg, h, k, memory);
        AddedHosts(cfg, hosts[k := h], known + {k}, answer[1..], memory);
      }
    }
  }

  // ---------- Each operation keeps the partition ----------

  lemma RotatedSame<T>(s: seq<T>)
    requires s != [] && Distinct(s)
    ensures Distinct(Rotated(s)) && forall y :: y in Rotated(s) <==> y in s
  {
    assert s == [s[0]] + s[1..];
    AppendDistinct(s[1..], [s[0]]);
  }

  lemma PickKeeps(cfg: Config, b: Balancer)
    requires b.Partitioned() && CanPick(cfg, b)
    ensures var (b', picked) := Pick(cfg, b);
            b'.Partitioned() && b'.hosts == b.hosts && b'.dangling == b.dangling
            && (picked.Some? ==> picked.value in b.hosts)
            && (picked.None? ==> b.idle == [])
  {
    if b.idle != [] {
      RotatedSame(b.idle);
    }
    if b.over != [] {
      RotatedSame(b.over);
    }
  }

  // A report leaves the address alone, trips only idle hosts and recovers only overloaded
  // ones.
  lemma JudgeIsSound(cfg: Config, h: Host, ok: bool, now: int)
    ensures var t := Tally(h, ok);
            var move := Judge(cfg, t, ok, now);
            var h' := Moved(cfg, t, move, now);
            && h' == Reported(cfg, h, ok, now) && HostKey(h') == HostKey(h)
            && (move == Trip ==> !h.overload && h'.overload)
            && (move == Recover ==> h.overload && !h'.overload)
            && (move == Stay || move == NewWindow ==> h'.overload == h.overload)
  {
    hide TooManyErrors, EnoughSuccesses, WindowBad;
  }

  lemma ReportSplit(cfg: Config, b: Balancer, key: uint64, ok: bool, now: int)
    requires b.Partitioned() && key in b.hosts && key !in b.dangling
    ensures var b' := Report(cfg, b, key, ok, now);
            && Split(b'.idle, b'.over, b.hosts.Keys)
            && (forall k :: k in b.hosts && k != key ==> (k in b'.over <==> k in b.over))
            && (key in b'.over <==> b'.hosts[key].overload)
  {
    hide Judge, Moved, Tally, HostKey, Reported;
    JudgeIsSound(cfg, b.hosts[key], ok, now);
    match Judge(cfg, Tally(b.hosts[key], ok), ok, now)
    case Trip => Transfer(b.idle, b.over, b.hosts.Keys, key);
    case Recover => Transfer(b.over, b.idle, b.hosts.Keys, key);
    case _ =>
  }

  // A report changes one host, as Reported says, and nothing beside hosts and queues.
  lemma ReportChanges(cfg: Config, b: Balancer, key: uint64, ok: bool, now: int)
    requires key !in b.dangling
    ensures var b' := Report(cfg, b, key, ok, now);
            b' == b.(hosts := if key in b.hosts then b.hosts[key := Reported(cfg, b.hosts[key], ok, now)] else b.hosts,
                     idle := b'.idle, over := b'.over)
            && (key !in b.hosts ==> b' == b)
  {
    hide Judge, Moved;
  }

  lemma ReportKeeps(cfg: Config, b: Balancer, key: uint64, ok: bool, now: int)
    requires b.Partitioned() && key !in b.dangling
    ensures Report(cfg, b, key, ok, now).Partitioned()
    ensures Report(cfg, b, key, ok, now).hosts.Keys == b.hosts.Keys
  {
    ReportChanges(cfg, b, key, ok, now);
    if key in b.hosts {
      ReportSplit(cfg, b, key, ok, now);
      JudgeIsSound(cfg, b.hosts[key], ok, now);
      hide Report, Judge, Moved, Tally, HostKey, Reported, Split;
      assert Report(cfg, b, key, ok, now).hosts.Keys == b.hosts.Keys;
    }
  }

  // The second sequence is the first without the one place where x stands.
  ghost predicate TakenOut(s: seq<uint64>, s': seq<uint64>, x: uint64) {
    exists i :: 0 <= i < |s| && s[i] == x && s' == s[..i] + s[i + 1..]
  }

  lemma {:induction false} WithoutTakesOut(s: seq<uint64>, x: uint64)
    requires Distinct(s) && x in s
    ensures TakenOut(s, Without(s, x), x)
  {
    if s[0] == x {
      assert x !in s[1..];
      WithoutOther(s[1..], x);
      assert s[..0] + s[0 + 1..] == s[1..];
    } else {
      WithoutTakesOut(s[1..], x);
      var i :| 0 <= i < |s| - 1 && s[1..][i] == x && Without(s[1..], x) == s[1..][..i] + s[1..][i + 1..];
      assert s[i + 1] == x;
      CutLater(s, i);
    }
  }

  lemma CutLater(s: seq<uint64>, i: nat)
    requires i + 1 < |s|
    ensures [s[0]] + (s[1..][..i] + s[1..][i + 1..]) == s[..i + 1] + s[i + 1 + 1..]
  {
    assert s[1..][..i] == s[1..i + 1] && s[1..][i + 1..] == s[i + 2..];
  }

  // MAIN: a report changes the one host, and moves it exactly when its state changes: out
  // of its place in one queue and to the end of the other, which it otherwise leaves as
  // they are.
  lemma ReportMovesHost(cfg: Config, b: Balancer, key: uint64, ok: bool, now: int)
    requires b.Partitioned() && key in b.hosts && key !in b.dangling
    ensures var b', h, h' := Report(cfg, b, key, ok, now), b.hosts[key], Reported(cfg, b.hosts[key], ok, now);
            && b'.hosts == b.hosts[key := h']
            && (h'.overload == h.overload ==> b'.idle == b.idle && b'.over == b.over)
            && (h'.overload && !h.overload ==> TakenOut(b.idle, b'.idle, key) && b'.over == b.over + [key])
            && (h.overload && !h'.overload ==> TakenOut(b.over, b'.over, key) && b'.idle == b.idle + [key])
  {
    hide Judge, Moved, Tally, HostKey, Reported, TakenOut;
    JudgeIsSound(cfg, b.hosts[key], ok, now);
    if b.hosts[key].overload {
      WithoutTakesOut(b.over, key);
    } else {
      WithoutTakesOut(b.idle, key);
    }
  }

  lemma UpdateSplit(b: Balancer, answer: seq<Addr>)
    requires b.Partitioned()
    ensures var remote := KeysIn(answer);
            Split(Among(b.idle, remote) + Novel(answer, b.Known()), Among(b.over, remote),
                  b.hosts.Keys * remote + (remote - b.Known()))
  {
    var remote := KeysIn(answer);
    AmongDistinct(b.idle, remote);
    AmongDistinct(b.over, remote);
    NovelDistinct(answer, b.Known());
    hide KeysIn, HostKey;
    AppendDistinct(Among(b.idle, remote), Novel(answer, b.Known()));
  }

  lemma UpdateHosts(cfg: Config, b: Balancer, answer: seq<Addr>, memory: Memory, now: int)
    requires CanUpdate(b, answer)
    ensures var b', remote := Update(cfg, b, answer, memory, now), KeysIn(answer);
            && b'.hosts.Keys == b.hosts.Keys * remote + (remote - b.Known())
            && (forall k :: k in b.hosts && k in remote ==> b'.hosts[k] == b.hosts[k])
            && (forall k :: k in remote && k !in b.Known() ==> Initial(cfg, b'.hosts[k], k, memory))
  {
    AddedHosts(cfg, b.hosts, b.Known(), answer, memory);
    hide KeysIn, Initial;
  }

  // The first half of an update, before any host is dropped.
  function Grown(cfg: Config, b: Balancer, answer: seq<Addr>, memory: Memory): Balancer {
    b.(hosts := Added(cfg, b.hosts, b.Known(), answer, memory), idle := b.idle + Novel(answer, b.Known()))
  }

  lemma GrownKeeps(cfg: Config, b: Balancer, answer: seq<Addr>, memory: Memory)
    requires b.Partitioned()
    ensures var b' := Grown(cfg, b, answer, memory);
            b'.Partitioned() && b'.hosts.Keys == b.hosts.Keys + (KeysIn(answer) - b.Known())
  {
    AddedHosts(cfg, b.hosts, b.Known(), answer, memory);
    hide KeysIn, HostKey, Key, Added;
    var b' := Grown(cfg, b, answer, memory);
    GrownSplit(b, answer);
    hide Novel, Split;
    assert forall k :: k in b'.hosts && k !in b.hosts ==> Initial(cfg, b'.hosts[k], k, memory);
  }

  lemma GrownSplit(b: Balancer, answer: seq<Addr>)
    requires b.Partitioned()
    ensures Split(b.idle + Novel(answer, b.Known()), b.over, b.hosts.Keys + (KeysIn(answer) - b.Known()))
    ensures forall k :: k in b.over ==> k in b.hosts
  {
    NovelDistinct(answer, b.Known());
    hide HostKey, KeysIn;
    AppendDistinct(b.idle, Novel(answer, b.Known()));
  }

  // The second half: the live hosts outside keep are dropped, their keys stay.
  function Dropped(b: Balancer, keep: set<uint64>): Balancer {
    b.(hosts := map k | k in b.hosts && k in keep :: b.hosts[k],
       dangling := b.dangling + (b.hosts.Keys - keep),
       idle := Among(b.idle, keep), over := Among(b.over, keep))
  }

  // Dropping one host more; its flag tells the queue it has to leave.
  lemma DropOne(b: Balancer, keep: set<uint64>, key: uint64)
    requires b.Partitioned() && key in b.hosts && key in keep
    ensures var d, d' := Dropped(b, keep), Dropped(b, keep - {key});
            && key in d.hosts && d.hosts[key] == b.hosts[key]
            && (if b.hosts[key].overload then key !in d.idle else key !in d.over)
            && d' == d.(hosts := d.hosts - {key}, dangling := d.dangling + {key},
                        idle := if b.hosts[key].overload then d.idle else Without(d.idle, key),
                        over := if b.hosts[key].overload then Without(d.over, key) else d.over)
  {
    hide HostKey, Among, Without, Balancer.Partitioned;
    DropOneQueue(b, keep, key);
    DropOneHost(b, keep, key);
  }

  lemma DropOneHost(b: Balancer, keep: set<uint64>, key: uint64)
    requires key in b.hosts && key in keep
    ensures var d, d' := Dropped(b, keep), Dropped(b, keep - {key});
            d'.hosts == d.hosts - {key} && d'.dangling == d.dangling + {key}
  {
    hide Among;
  }

  lemma DropOneQueue(b: Balancer, keep: set<uint64>, key: uint64)
    requires b.Partitioned() && key in b.hosts && key in keep
    ensures var over, i, o := b.hosts[key].overload, Among(b.idle, keep), Among(b.over, keep);
            && (if over then key !in i else key !in o)
            && Among(b.idle, keep - {key}) == (if over then i else Without(i, key))
            && Among(b.over, keep - {key}) == (if over then Without(o, key) else o)
  {
    AmongWithout(b.idle, keep, key);
    AmongWithout(b.over, keep, key);
    hide HostKey;
    if b.hosts[key].overload {
      WithoutOther(Among(b.idle, keep), key);
    } else {
      WithoutOther(Among(b.over, keep), key);
    }
  }

  // The two halves make up an update.
  lemma UpdateInHalves(cfg: Config, b: Balancer, answer: seq<Addr>, memory: Memory, now: int)
    requires b.Partitioned() && CanUpdate(b, answer)
    ensures Dropped(Grown(cfg, b, answer, memory), KeysIn(answer)).(status := NEW, lastUpdate := now)
            == Update(cfg, b, answer, memory, now)
  {
    var remote := KeysIn(answer);
    var g := Grown(cfg, b, answer, memory);
    GrownKeeps(cfg, b, answer, memory);
    AmongAppend(b.idle, Novel(answer, b.Known()), remote);
    AmongAll(Novel(answer, b.Known()), remote);
    hide KeysIn, HostKey, Added, Novel, Among;
    assert g.hosts.Keys - remote == b.hosts.Keys - remote;
  }

  // Dropping nothing.
  lemma DropNone(b: Balancer, keep: set<uint64>)
    requires b.Partitioned() && b.hosts.Keys <= keep
    ensures Dropped(b, keep) == b
  {
    hide HostKey, Among;
    assert (map k | k in b.hosts && k in keep :: b.hosts[k]) == b.hosts;
    assert b.dangling + (b.hosts.Keys - keep) == b.dangling;
    assert forall y :: y in b.idle ==> y in keep;
    assert forall y :: y in b.over ==> y in keep;
    hide Balancer.Partitioned;
    AmongAll(b.idle, keep);
    AmongAll(b.over, keep);
  }

  // Only the live keys of keep matter.
  lemma DropSame(b: Balancer, keep: set<uint64>, keep': set<uint64>)
    requires b.Partitioned() && b.hosts.Keys * keep == b.hosts.Keys * keep'
    ensures Dropped(b, keep) == Dropped(b, keep')
  {
    hide HostKey;
    forall k | k in b.hosts ensures k in keep <==> k in keep' {
      assert k in keep <==> k in b.hosts.Keys * keep;
      assert k in keep' <==> k in b.hosts.Keys * keep';
    }
    AmongSame(b.idle, keep, keep');
    AmongSame(b.over, keep, keep');
  }

  lemma QueuedAreHosts(b: Balancer)
    requires b.Partitioned()
    ensures forall k :: k in b.idle || k in b.over ==> k in b.hosts
  {
    hide HostKey;
  }

  lemma UpdateLabels(cfg: Config, b: Balancer, answer: seq<Addr>, memory: Memory, now: int)
    requires b.Partitioned() && CanUpdate(b, answer)
    ensures Update(cfg, b, answer, memory, now).Labelled()
  {
    hide KeysIn, HostKey, Split, Novel, Added;
    QueuedAreHosts(b);
    UpdateHosts(cfg, b, answer, memory, now);
    var b' := Update(cfg, b, answer, memory, now);
    forall k | k in b'.hosts ensures HostKey(b'.hosts[k]) == k && (b'.hosts[k].overload <==> k in b'.over) {
      if k !in b.hosts {
        assert Initial(cfg, b'.hosts[k], k, memory);
      }
    }
  }

  lemma UpdateKeeps(cfg: Config, b: Balancer, answer: seq<Addr>, memory: Memory, now: int)
    requires b.Partitioned() && CanUpdate(b, answer)
    ensures Update(cfg, b, answer, memory, now).Partitioned()
  {
    hide KeysIn, HostKey, Split, Novel, Added, Balancer.Labelled;
    UpdateSplit(b, answer);
    UpdateHosts(cfg, b, answer, memory, now);
    UpdateLabels(cfg, b, answer, memory, now);
  }

  // ---------- Runs ----------

  datatype Event =
    | Answer(addrs: seq<Addr>, memory: Memory, now: int)
    | Result(key: uint64, ok: bool, now: int)
    | Request

  // The event neither reads a deleted host, nor deletes one twice, nor takes the front of
  // an empty queue. Callers send no empty answer, and request only from a balancer that
  // knows hosts.
  predicate Defined(cfg: Config, b: Balancer, e: Event) {
    match e
    case Answer(addrs, _, _) => CanUpdate(b, addrs)
    case Result(key, _, _) => key !in b.dangling
    case Request => !b.Empty() && CanPick(cfg, b)
  }

  function Step(cfg: Config, b: Balancer, e: Event): Balancer
    requires Defined(cfg, b, e)
  {
    match e
    case Answer(addrs, memory, now) => Update(cfg, b, addrs, memory, now)
    case Result(key, ok, now) => Report(cfg, b, key, ok, now)
    case Request => Pick(cfg, b).0
  }

  predicate Legal(cfg: Config, b: Balancer, es: seq<Event>)
    decreases |es|
  {
    es == [] || (Defined(cfg, b, es[0]) && Legal(cfg, Step(cfg, b, es[0]), es[1..]))
  }

  function After(cfg: Config, b: Balancer, es: seq<Event>): Balancer
    requires Legal(cfg, b, es)
    decreases |es|
  {
    if es == [] then b else After(cfg, Step(cfg, b, es[0]), es[1..])
  }

  lemma StepKeeps(cfg: Config, b: Balancer, e: Event)
    requires b.Partitioned() && Defined(cfg, b, e)
    ensures Step(cfg, b, e).Partitioned()
    ensures b.dangling <= Step(cfg, b, e).dangling
  {
    match e
    case Answer(addrs, memory, now) => UpdateKeeps(cfg, b, addrs, memory, now);
    case Result(key, ok, now) =>
      ReportKeeps(cfg, b, key, ok, now);
      ReportChanges(cfg, b, key, ok, now);
    case Request => PickKeeps(cfg, b);
  }

  lemma CreatedPartitioned(access: int)
    ensures Created(access).Partitioned()
  {
  }

  // MAIN: as long as a run stays defined, the queues hold exactly the live hosts, once
  // each, and every flag names the right queue; a deleted host's key never goes away.
  lemma {:induction false} RunKeepsPartition(cfg: Config, b: Balancer, es: seq<Event>)
    requires b.Partitioned() && Legal(cfg, b, es)
    ensures After(cfg, b, es).Partitioned()
    ensures b.dangling <= After(cfg, b, es).dangling
    decreases |es|
  {
    if es != [] {
      StepKeeps(cfg, b, es[0]);
      hide Defined, Step, Balancer.Partitioned;
      RunKeepsPartition(cfg, Step(cfg, b, es[0]), es[1..]);
    }
  }

  // Every report and every non-empty answer is defined exactly when no key is dangling.
  lemma AllDefined(cfg: Config, b: Balancer)
    ensures b.dangling == {} <==> forall key, ok, now :: Defined(cfg, b, Result(key, ok, now))
    ensures b.dangling == {} ==>
              forall addrs, memory, now :: addrs != [] ==> Defined(cfg, b, Answer(addrs, memory, now))
    ensures b.dangling == {} && b.Partitioned() && !b.Empty() ==> Defined(cfg, b, Request)
  {
    if k :| k in b.dangling {
      assert !Defined(cfg, b, Result(k, true, 0));
    }
    if b.dangling == {} && b.Partitioned() && !b.Empty() {
      var k :| k in b.hosts;
      assert k in b.idle || k in b.over;
    }
  }

  // Where update departs from its comment: it leaves a dangling key exactly when the
  // answer drops a host.
  lemma UpdateIsClean(cfg: Config, b: Balancer, answer: seq<Addr>, memory: Memory, now: int)
    requires b.dangling == {} && answer != []
    ensures Update(cfg, b, answer, memory, now).dangling == {} <==> b.hosts.Keys <= KeysIn(answer)
    ensures CanUpdate(Update(cfg, b, answer, memory, now), answer) <==> b.hosts.Keys <= KeysIn(answer)
  {
    hide KeysIn;
    if !(b.hosts.Keys <= KeysIn(answer)) {
      var k :| k in b.hosts && k !in KeysIn(answer);
      assert k in Update(cfg, b, answer, memory, now).dangling;
    }
  }

  lemma SomeElement(s: seq<uint64>)
    ensures s == [] || exists k :: k in s
  {
    if s != [] {
      assert s[0] in s;
    }
  }

  // Requests in a row, with no other call in between.
  function Requests(n: nat): seq<Event> {
    if n == 0 then [] else [Request] + Requests(n - 1)
  }

  // With live hosts any number of them is defined; without, as many as it takes to get to
  // the next probe.
  lemma {:induction false} RequestsInARow(cfg: Config, b: Balancer, n: nat)
    requires b.Partitioned() && !b.Empty()
    ensures Legal(cfg, b, Requests(n)) <==> b.hosts != map[] || n == 0 || b.access + n <= cfg.probeNum
    decreases n
  {
    hide HostKey;
    if n > 0 {
      assert Requests(n)[1..] == Requests(n - 1);
      RequestIsDefined(cfg, b);
      if CanPick(cfg, b) {
        PickKeeps(cfg, b);
        hide Balancer.Partitioned;
        RequestsInARow(cfg, Pick(cfg, b).0, n - 1);
      }
    }
  }

  lemma RequestIsDefined(cfg: Config, b: Balancer)
    requires b.Partitioned()
    ensures CanPick(cfg, b) <==> b.hosts != map[] || b.access < cfg.probeNum
    ensures b.hosts == map[] && CanPick(cfg, b) ==> Pick(cfg, b).0 == b.(access := b.access + 1)
  {
    hide HostKey;
    if b.hosts == map[] {
      SomeElement(b.idle);
      SomeElement(b.over);
    } else {
      var k :| k in b.hosts;
      assert k in b.idle || k in b.over;
    }
  }

  // MAIN: after an update requests stay safe, however many come in a row, exactly when
  // the answer has a host that is not dangling.
  lemma RequestsAfterUpdate(cfg: Config, b: Balancer, answer: seq<Addr>, memory: Memory, now: int)
    requires b.Partitioned() && CanUpdate(b, answer)
    ensures (forall n :: Legal(cfg, Update(cfg, b, answer, memory, now), Requests(n))) <==>
            exists k :: k in KeysIn(answer) && k !in b.dangling
  {
    var b' := Update(cfg, b, answer, memory, now);
    UpdateKeeps(cfg, b, answer, memory, now);
    LiveAfterUpdate(cfg, b, answer, memory, now);
    hide Update, Legal, Requests, KeysIn, Balancer.Partitioned;
    forall n {
      RequestsInARow(cfg, b', n);
    }
    if b'.hosts == map[] {
      var n := if b'.access < cfg.probeNum then cfg.probeNum - b'.access + 1 else 1;
      RequestsInARow(cfg, b', n);
      assert !Legal(cfg, b', Requests(n));
    }
  }

  lemma LiveAfterUpdate(cfg: Config, b: Balancer, answer: seq<Addr>, memory: Memory, now: int)
    requires b.Partitioned() && CanUpdate(b, answer)
    ensures var b' := Update(cfg, b, answer, memory, now);
            !b'.Empty() && (b'.hosts != map[] <==> exists k :: k in KeysIn(answer) && k !in b.dangling)
  {
    assert KeyOf(answer[0]) in KeysIn(answer);
    UpdateHosts(cfg, b, answer, memory, now);
    var b' := Update(cfg, b, answer, memory, now);
    hide KeysIn, KeyOf, HostKey, Initial, Split;
    assert KeyOf(answer[0]) in b'.Known();
    if k :| k in KeysIn(answer) && k !in b.dangling {
      assert k in b'.hosts;
    }
    if b'.hosts != map[] {
      var k :| k in b'.hosts;
      assert k in KeysIn(answer) && k !in b.dangling;
    }
  }

  // ---------- The intended balancer ----------

  // One event when update also erases the keys, guarded as the callers guard it.
  function Intended(cfg: Config, b: Balancer, e: Event): (b': Balancer)
    requires b.dangling == {}
    ensures b'.dangling == {}
  {
    match e
    case Answer(addrs, memory, now) => if addrs == [] then b else UpdateErasing(cfg, b, addrs, memory, now)
    case Result(key, ok, now) =>
      ReportChanges(cfg, b, key, ok, now);
      Report(cfg, b, key, ok, now)
    case Request => if b.Empty() || !CanPick(cfg, b) then b else Pick(cfg, b).0
  }

  function IntendedRun(cfg: Config, b: Balancer, es: seq<Event>): (b': Balancer)
    requires b.dangling == {}
    ensures b'.dangling == {}
    decreases |es|
  {
    if es == [] then b else IntendedRun(cfg, Intended(cfg, b, es[0]), es[1..])
  }

  lemma IntendedKeeps(cfg: Config, b: Balancer, e: Event)
    requires b.dangling == {} && b.Partitioned()
    ensures Intended(cfg, b, e).Partitioned()
    ensures !b.Empty() ==> CanPick(cfg, b)
  {
    AllDefined(cfg, b);
    if Defined(cfg, b, e) {
      StepKeeps(cfg, b, e);
    }
  }

  // MAIN: with the keys erased, every run whatever keeps the partition, the queues hold
  // exactly the hosts of the map, and a pick on a non-empty balancer is always safe.
  lemma {:induction false} IntendedIsSafe(cfg: Config, b: Balancer, es: seq<Event>)
    requires b.dangling == {} && b.Partitioned()
    ensures var b' := IntendedRun(cfg, b, es);
            b'.Partitioned() && b'.Known() == b'.hosts.Keys && (!b'.Empty() ==> CanPick(cfg, b'))
    decreases |es|
  {
    if es == [] {
      IntendedKeeps(cfg, b, Request);
    } else {
      IntendedKeeps(cfg, b, es[0]);
      hide Intended, Balancer.Partitioned;
      IntendedIsSafe(cfg, Intended(cfg, b, es[0]), es[1..]);
    }
  }

  // The event is no answer that is empty or drops a host, and no request that meets an
  // empty balancer.
  predicate Covers(b: Balancer, e: Event) {
    && (e.Answer? ==> e.addrs != [] && b.hosts.Keys <= KeysIn(e.addrs))
    && (e.Request? ==> !b.Empty())
  }

  // All events of the run are like that.
  predicate Covering(cfg: Config, b: Balancer, es: seq<Event>)
    requires b.dangling == {}
    decreases |es|
  {
    es == [] || (Covers(b, es[0]) && Covering(cfg, Intended(cfg, b, es[0]), es[1..]))
  }

  lemma CoveringStep(cfg: Config, b: Balancer, e: Event)
    requires b.dangling == {} && b.Partitioned()
    ensures Covers(b, e) <==> Defined(cfg, b, e) && Step(cfg, b, e).dangling == {}
    ensures Covers(b, e) ==> Step(cfg, b, e) == Intended(cfg, b, e)
  {
    hide KeysIn, HostKey, Split;
    IntendedKeeps(cfg, b, e);
    AllDefined(cfg, b);
    match e
    case Answer(addrs, memory, now) =>
      if addrs != [] {
        UpdateIsClean(cfg, b, addrs, memory, now);
      }
    case Result(key, ok, now) => ReportChanges(cfg, b, key, ok, now);
    case Request =>
  }

  // MAIN: exactly on such runs the code is defined throughout and ends without a dangling
  // key, and then it does what is intended.
  lemma {:induction false} CoveringRunIsIntended(cfg: Config, b: Balancer, es: seq<Event>)
    requires b.dangling == {} && b.Partitioned()
    ensures Covering(cfg, b, es) <==> Legal(cfg, b, es) && After(cfg, b, es).dangling == {}
    ensures Covering(cfg, b, es) ==> After(cfg, b, es) == IntendedRun(cfg, b, es)
    decreases |es|
  {
    if es != [] {
      CoveringStep(cfg, b, es[0]);
      IntendedKeeps(cfg, b, es[0]);
      if Defined(cfg, b, es[0]) {
        StepKeeps(cfg, b, es[0]);
      }
      hide Intended, Balancer.Partitioned, Defined, Step, Covers;
      if Legal(cfg, b, es) {
        RunKeepsPartition(cfg, Step(cfg, b, es[0]), es[1..]);
      }
      if Covers(b, es[0]) {
        CoveringRunIsIntended(cfg, Intended(cfg, b, es[0]), es[1..]);
      }
    }
  }

  // A host that leaves and comes back is lost, and can take the process with it: three
  // well-formed answers after which the balancer knows two hosts, serves none, and a
  // pick at probing time takes the front of an empty queue.
  lemma LostHosts(cfg: Config, memory: Memory, access: int)
    requires cfg.probeNum <= access
    ensures var x, y := Addr(1, 1), Addr(2, 2);
            var es := [Answer([x], memory, 0), Answer([y], memory, 0), Answer([x], memory, 0)];
            && Legal(cfg, Created(access), es)
            && var b := After(cfg, Created(access), es);
               b.idle == [] && b.over == [] && !b.Empty() && !CanPick(cfg, b)
  {
    var x, y := Addr(1, 1), Addr(2, 2);
    var kx, ky := KeyOf(x), KeyOf(y);
    KeyInjective(1, 1, 2, 2);
    hide Key;
    var b0 := Created(access);
    SingleHost(cfg, b0, x, memory);
    var b1 := Update(cfg, b0, [x], memory, 0);
    hide Update, Added, Novel, NewHost, Legal, After, KeysIn, Among;
    Replaced(cfg, b1, x, y, memory);
    var b2 := Update(cfg, b1, [y], memory, 0);
    Returned(cfg, b2, x, y, memory);
    ThreeAnswers(cfg, b0, [x], [y], [x], memory);
  }

  // The balancer serves one host and keeps the other keys dangling.
  predicate Serves(b: Balancer, k: uint64, dangling: set<uint64>) {
    b.hosts.Keys == {k} && b.dangling == dangling && b.idle == [k] && b.over == []
  }

  lemma Replaced(cfg: Config, b: Balancer, x: Addr, y: Addr, memory: Memory)
    requires Serves(b, KeyOf(x), {}) && KeyOf(x) != KeyOf(y)
    ensures Serves(Update(cfg, b, [y], memory, 0), KeyOf(y), {KeyOf(x)})
    ensures Update(cfg, b, [y], memory, 0).access == b.access
  {
    SingleHost(cfg, b, y, memory);
    AmongSingle(KeyOf(x), KeyOf(y));
    hide Update, Added, Novel, KeysIn, Among, Key;
  }

  lemma Returned(cfg: Config, b: Balancer, x: Addr, y: Addr, memory: Memory)
    requires Serves(b, KeyOf(y), {KeyOf(x)}) && KeyOf(x) != KeyOf(y)
    ensures CanUpdate(b, [x])
    ensures var b' := Update(cfg, b, [x], memory, 0);
            b'.idle == [] && b'.over == [] && !b'.Empty() && b'.access == b.access
  {
    SingleHost(cfg, b, x, memory);
    AmongSingle(KeyOf(y), KeyOf(x));
    hide Update, Added, Novel, KeysIn, Among, Key;
    assert KeyOf(x) in Update(cfg, b, [x], memory, 0).dangling;
  }

  lemma ThreeAnswers(cfg: Config, b: Balancer, x: seq<Addr>, y: seq<Addr>, z: seq<Addr>, memory: Memory)
    requires CanUpdate(b, x) && CanUpdate(Update(cfg, b, x, memory, 0), y)
    requires CanUpdate(Update(cfg, Update(cfg, b, x, memory, 0), y, memory, 0), z)
    ensures var es := [Answer(x, memory, 0), Answer(y, memory, 0), Answer(z, memory, 0)];
            Legal(cfg, b, es)
            && After(cfg, b, es)
               == Update(cfg, Update(cfg, Update(cfg, b, x, memory, 0), y, memory, 0), z, memory, 0)
  {
    hide Update, CanUpdate;
    var es := [Answer(x, memory, 0), Answer(y, memory, 0), Answer(z, memory, 0)];
    var b1 := Step(cfg, b, es[0]);
    var b2 := Step(cfg, b1, es[1]);
    assert es[1..][1..] == [es[2]] && es[1..][1..][1..] == [];
    assert Legal(cfg, b2, es[1..][1..]);
    assert Legal(cfg, b1, es[1..]);
    var b3 := Step(cfg, b2, es[2]);
    assert After(cfg, b3, []) == b3;
    assert After(cfg, b2, es[1..][1..]) == b3;
    assert After(cfg, b1, es[1..]) == b3;
  }

  lemma AmongSingle(u: uint64, v: uint64)
    ensures Among([u], {v}) == if u == v then [u] else []
  {
    assert [u][1..] == [];
  }

  lemma SingleHost(cfg: Config, b: Balancer, a: Addr, memory: Memory)
    requires b.dangling <= {KeyOf(a)}
    ensures KeysIn([a]) == {KeyOf(a)}
    ensures var b', k := Update(cfg, b, [a], memory, 0), KeyOf(a);
            && b'.hosts.Keys == b.hosts.Keys * {k} + ({k} - b.Known())
            && b'.dangling == b.dangling + (b.hosts.Keys - {k})
            && b'.idle == Among(b.idle, {k}) + (if k in b.Known() then [] else [k])
            && b'.over == Among(b.over, {k}) && b'.access == b.access
  {
    assert KeysIn([a]) == {KeyOf(a)};
    UpdateHosts(cfg, b, [a], memory, 0);
    hide KeysIn, Initial, Added, Among, Key;
    assert [a][1..] == [];
    assert Novel([a], b.Known()) == if KeyOf(a) in b.Known() then [] else [KeyOf(a)];
  }

  // ---------- Reconciliation ----------

  // x comes before y.
  predicate Before<T(==)>(s: seq<T>, x: T, y: T) {
    exists i, j :: 0 <= i < j < |s| && s[i] == x && s[j] == y
  }

  lemma {:induction false} AmongKeepsOrder<T>(s: seq<T>, keep: set<T>, x: T, y: T)
    requires x in keep && y in keep
    ensures Before(Among(s, keep), x, y) <==> Before(s, x, y)
  {
    if s != [] {
      AmongKeepsOrder(s[1..], keep, x, y);
      BeforeCons(s, x, y);
      if s[0] in keep {
        BeforeCons(Among(s, keep), x, y);
      }
    }
  }

  lemma BeforeCons<T>(s: seq<T>, x: T, y: T)
    requires s != []
    ensures Before(s, x, y) <==> (s[0] == x && y in s[1..]) || Before(s[1..], x, y)
  {
    if i, j :| 0 <= i < j < |s| && s[i] == x && s[j] == y {
      if i > 0 {
        assert s[1..][i - 1] == x && s[1..][j - 1] == y;
      } else {
        assert s[1..][j - 1] == y;
      }
    }
    if s[0] == x && y in s[1..] {
      var j :| 0 <= j < |s| - 1 && s[1..][j] == y;
      assert s[j + 1] == y;
    }
    if i, j :| 0 <= i < j < |s| - 1 && s[1..][i] == x && s[1..][j] == y {
      assert s[i + 1] == x && s[j + 1] == y;
    }
  }

  // Where a key first occurs in an answer.
  function First(answer: seq<Addr>, k: uint64): (i: nat)
    requires k in KeysIn(answer)
    ensures i < |answer| && KeyOf(answer[i]) == k
    ensures forall j :: 0 <= j < i ==> KeyOf(answer[j]) != k
  {
    if KeyOf(answer[0]) == k then 0
    else
      assert k in KeysIn(answer[1..]) by {
        var a :| a in answer && KeyOf(a) == k;
        assert a in answer[1..];
      }
      1 + First(answer[1..], k)
  }

  lemma {:induction false} NovelFollowsAnswer(answer: seq<Addr>, known: set<uint64>, x: uint64, y: uint64)
    requires x in Novel(answer, known) && y in Novel(answer, known)
    ensures Before(Novel(answer, known), x, y) <==> First(answer, x) < First(answer, y)
    decreases |answer|
  {
    var k := KeyOf(answer[0]);
    assert KeysIn(answer) == {k} + KeysIn(answer[1..]) by {
      assert forall a :: a in answer <==> a == answer[0] || a in answer[1..];
    }
    hide KeysIn;
    if k in known {
      NovelFollowsAnswer(answer[1..], known, x, y);
    } else {
      var rest := Novel(answer[1..], known + {k});
      BeforeCons(Novel(answer, known), x, y);
      NovelDistinct(answer, known);
      if x != k && y != k {
        NovelFollowsAnswer(answer[1..], known + {k}, x, y);
      }
    }
  }

  // MAIN: what an update is for. The live hosts become those of the answer that do not
  // dangle, each once however often it is named, and the keys of the map are those of the
  // answer exactly when it drops no known key; a host that stays keeps its counters, state
  // and place in its queue; a new one starts with the initial counters at the idle tail.
  lemma Reconciles(cfg: Config, b: Balancer, answer: seq<Addr>, memory: Memory, now: int)
    requires b.Partitioned() && CanUpdate(b, answer)
    ensures var b', remote := Update(cfg, b, answer, memory, now), KeysIn(answer);
            && b'.Partitioned() && b'.hosts.Keys == remote - b.dangling
            && (b'.Known() == remote <==> b.Known() <= remote)
            && (forall k :: k in b'.hosts && k in b.hosts ==> b'.hosts[k] == b.hosts[k])
            && (forall k :: k in b'.hosts && k !in b.hosts ==> Initial(cfg, b'.hosts[k], k, memory))
            && b'.status == NEW && b'.lastUpdate == now && b'.access == b.access
    ensures var b' := Update(cfg, b, answer, memory, now);
            var stay := Among(b.idle, KeysIn(answer));
            && stay <= b'.idle
            && (forall k :: k in b'.idle[|stay|..] <==> k in KeysIn(answer) && k !in b.Known())
  {
    hide KeysIn, Initial, HostKey, Split;
    UpdateKeeps(cfg, b, answer, memory, now);
    UpdateHosts(cfg, b, answer, memory, now);
    KnownAfterUpdate(cfg, b, answer, memory, now);
  }

  lemma KnownAfterUpdate(cfg: Config, b: Balancer, answer: seq<Addr>, memory: Memory, now: int)
    requires b.Partitioned() && CanUpdate(b, answer)
    ensures var b', remote := Update(cfg, b, answer, memory, now), KeysIn(answer);
            && b'.hosts.Keys == remote - b.dangling && b'.Known() == b.Known() + remote
            && b'.dangling == b.dangling + (b.hosts.Keys - remote)
  {
    hide KeysIn, Initial, HostKey, Split;
    UpdateHosts(cfg, b, answer, memory, now);
  }

  // With the keys erased, the map holds the hosts of the answer and nothing else.
  lemma ErasingReconciles(cfg: Config, b: Balancer, answer: seq<Addr>, memory: Memory, now: int)
    requires b.dangling == {} && b.Partitioned() && answer != []
    ensures var b' := UpdateErasing(cfg, b, answer, memory, now);
            b'.Partitioned() && b'.Known() == b'.hosts.Keys == KeysIn(answer)
  {
    hide KeysIn, Initial, HostKey, Split;
    UpdateKeeps(cfg, b, answer, memory, now);
    KnownAfterUpdate(cfg, b, answer, memory, now);
  }

  lemma ReconcilesInOrder(cfg: Config, b: Balancer, answer: seq<Addr>, memory: Memory, now: int, x: uint64, y: uint64)
    requires b.Partitioned() && CanUpdate(b, answer)
    requires x in KeysIn(answer) && y in KeysIn(answer)
    ensures var b' := Update(cfg, b, answer, memory, now);
            var tail := b'.idle[|Among(b.idle, KeysIn(answer))|..];
            && (Before(Among(b.idle, KeysIn(answer)), x, y) <==> Before(b.idle, x, y))
            && (Before(b'.over, x, y) <==> Before(b.over, x, y))
            && (x in tail && y in tail ==> (Before(tail, x, y) <==> First(answer, x) < First(answer, y)))
  {
    var remote := KeysIn(answer);
    AmongKeepsOrder(b.idle, remote, x, y);
    AmongKeepsOrder(b.over, remote, x, y);
    hide KeysIn, Before, Novel;
    var b' := Update(cfg, b, answer, memory, now);
    assert b'.idle[|Among(b.idle, remote)|..] == Novel(answer, b.Known());
    if x in Novel(answer, b.Known()) && y in Novel(answer, b.Known()) {
      NovelFollowsAnswer(answer, b.Known(), x, y);
    }
  }

  // MAIN: the same answer again is defined exactly when the first time dropped no host,
  // and then it changes nothing but the update time.
  lemma ReconcilesOnce(cfg: Config, b: Balancer, answer: seq<Addr>, memory: Memory, memory': Memory, now: int,
                       later: int)
    requires b.Partitioned() && CanUpdate(b, answer)
    ensures var b' := Update(cfg, b, answer, memory, now);
            && (CanUpdate(b', answer) <==> b.hosts.Keys <= KeysIn(answer))
            && (CanUpdate(b', answer) ==> Update(cfg, b', answer, memory', later) == b'.(lastUpdate := later))
  {
    hide KeysIn, HostKey, Split;
    UpdateKeeps(cfg, b, answer, memory, now);
    KnownAfterUpdate(cfg, b, answer, memory, now);
    var b' := Update(cfg, b, answer, memory, now);
    assert b'.status == NEW;
    hide Update;
    if k :| k in b.hosts && k !in KeysIn(answer) {
      assert k in b'.dangling;
    }
    if CanUpdate(b', answer) {
      UpdateFixpoint(cfg, b', answer, memory', later);
    }
  }

  lemma QueuesStay(b: Balancer, answer: seq<Addr>)
    requires b.Partitioned() && b.Known() == KeysIn(answer)
    ensures Novel(answer, b.Known()) == []
    ensures Among(b.idle, KeysIn(answer)) == b.idle && Among(b.over, KeysIn(answer)) == b.over
  {
    hide HostKey, KeysIn;
    SomeElement(Novel(answer, b.Known()));
    AmongAll(b.idle, KeysIn(answer));
    AmongAll(b.over, KeysIn(answer));
  }

  lemma UpdateFixpoint(cfg: Config, b: Balancer, answer: seq<Addr>, memory: Memory, now: int)
    requires b.Partitioned() && answer != []
    requires b.Known() == KeysIn(answer) && b.status == NEW
    ensures Update(cfg, b, answer, memory, now) == b.(lastUpdate := now)
  {
    hide KeysIn, HostKey, Novel, Among, Added, Initial, Balancer.Partitioned;
    QueuesStay(b, answer);
    UpdateHosts(cfg, b, answer, memory, now);
    assert b.hosts.Keys * b.Known() + (b.Known() - b.Known()) == b.hosts.Keys;
    assert b.dangling + (b.hosts.Keys - b.Known()) == b.dangling;
    assert Update(cfg, b, answer, memory, now).hosts == b.hosts;
  }

  // The update that erases keys can always take the same answer again.
  lemma ErasingReconcilesOnce(cfg: Config, b: Balancer, answer: seq<Addr>, memory: Memory, memory': Memory, now: int,
                              later: int)
    requires b.dangling == {} && b.Partitioned() && answer != []
    ensures var b' := UpdateErasing(cfg, b, answer, memory, now);
            UpdateErasing(cfg, b', answer, memory', later) == b'.(lastUpdate := later)
  {
    hide KeysIn, HostKey, Split;
    ErasingReconciles(cfg, b, answer, memory, now);
    var b' := UpdateErasing(cfg, b, answer, memory, now);
    assert b'.status == NEW;
    hide UpdateErasing;
    UpdateFixpoint(cfg, b', answer, memory', later);
    assert UpdateErasing(cfg, b', answer, memory', later) == b'.(lastUpdate := later) by {
      ErasingIsUpdate(cfg, b', answer, memory', later);
    }
  }

  lemma ErasingIsUpdate(cfg: Config, b: Balancer, answer: seq<Addr>, memory: Memory, now: int)
    requires b.dangling == {} && answer != []
    ensures UpdateErasing(cfg, b, answer, memory, now) == Update(cfg, b, answer, memory, now).(dangling := {})
  {
  }
}
