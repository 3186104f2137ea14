// The hosts of a balancer over its runs: each is the result of the reports made on it,
// and within the limits of its queue.

module BalancerHosts {
  import opened Words
  import opened Hosts
  import opened Balancers
  import opened BalancerRuns
  import opened HostRates

  ghost predicate AllWithinLimits(cfg: Config, b: Balancer) {
    forall k :: k in b.hosts ==> WithinLimits(cfg, b.hosts[k])
  }

  lemma InitialWithinLimits(cfg: Config, h: Host, key: uint64, memory: Memory)
    requires SaneLimits(cfg) && Initial(cfg, h, key, memory)
    ensures WithinLimits(cfg, h)
  {
    MulWeak(0.0, cfg.errRate, cfg.initSucc as real);
  }

  lemma StepWithinLimits(cfg: Config, b: Balancer, e: Event)
    requires SaneLimits(cfg) && b.Partitioned() && Defined(cfg, b, e) && AllWithinLimits(cfg, b)
    ensures AllWithinLimits(cfg, Step(cfg, b, e))
  {
    hide WithinLimits, SaneLimits, Balancer.Partitioned, Initial, HostKey;
    match e
    case Answer(addrs, memory, now) =>
      UpdateHosts(cfg, b, addrs, memory, now);
      var b' := Update(cfg, b, addrs, memory, now);
      hide Update, KeysIn;
      forall k | k in b'.hosts ensures WithinLimits(cfg, b'.hosts[k]) {
        if k !in b.hosts {
          InitialWithinLimits(cfg, b'.hosts[k], k, memory);
        }
      }
    case Result(key, ok, now) =>
      ReportChanges(cfg, b, key, ok, now);
      hide Report, Reported;
      if key in b.hosts {
        ReportedWithinLimits(cfg, b.hosts[key], ok, now);
      }
    case Request =>
      PickKeeps(cfg, b);
  }

  // MAIN: at every point of every defined run, each host on the idle queue is below the
  // error rate and the limit of errors in a row, and each one on the overload queue below
  // the success rate and the limit of successes in a row.
  lemma {:induction false} RunWithinLimits(cfg: Config, b: Balancer, es: seq<Event>)
    requires SaneLimits(cfg) && b.Partitioned() && Legal(cfg, b, es) && AllWithinLimits(cfg, b)
    ensures AllWithinLimits(cfg, After(cfg, b, es))
    decreases |es|
  {
    if es != [] {
      StepWithinLimits(cfg, b, es[0]);
      StepKeeps(cfg, b, es[0]);
      hide Step, Defined, AllWithinLimits, SaneLimits, Balancer.Partitioned;
      RunWithinLimits(cfg, Step(cfg, b, es[0]), es[1..]);
    }
  }

  // The reports on one host among the events.
  function ReportsOn(es: seq<Event>, key: uint64): seq<Sample> {
    if es == [] then []
    else
      var rest := ReportsOn(es[1..], key);
      match es[0]
      case Result(k, ok, now) => if k == key then [Sample(ok, now)] + rest else rest
      case _ => rest
  }

  // Every answer of the run names the host.
  ghost predicate Stays(es: seq<Event>, key: uint64) {
    forall e :: e in es ==> e.Answer? ==> key in KeysIn(e.addrs)
  }

  lemma StepOnHost(cfg: Config, b: Balancer, e: Event, key: uint64)
    requires b.Partitioned() && Defined(cfg, b, e) && key in b.hosts
    requires e.Answer? ==> key in KeysIn(e.addrs)
    ensures var b' := Step(cfg, b, e);
            key in b'.hosts
            && b'.hosts[key] == (if e.Result? && e.key == key then Reported(cfg, b.hosts[key], e.ok, e.now)
                                 else b.hosts[key])
  {
    hide HostKey, Initial;
    match e
    case Answer(addrs, memory, now) =>
      UpdateHosts(cfg, b, addrs, memory, now);
      hide KeysIn;
    case Result(k, ok, now) =>
      ReportChanges(cfg, b, k, ok, now);
      hide Report, Reported;
    case Request =>
      PickKeeps(cfg, b);
  }

  // MAIN: a host that no answer drops is the result of the reports on it alone, in their
  // order; picks, answers and reports on other hosts leave it untouched. So the counts
  // and the bounds proved for one host hold inside a balancer.
  lemma {:induction false} HostIsItsReports(cfg: Config, b: Balancer, es: seq<Event>, key: uint64)
    requires b.Partitioned() && Legal(cfg, b, es) && key in b.hosts && Stays(es, key)
    ensures key in After(cfg, b, es).hosts
    ensures After(cfg, b, es).hosts[key] == HostRun(cfg, b.hosts[key], ReportsOn(es, key))
    decreases |es|
  {
    if es != [] {
      assert es[0] in es;
      StepOnHost(cfg, b, es[0], key);
      StepKeeps(cfg, b, es[0]);
      hide Step, Defined, Balancer.Partitioned, KeysIn, Reported;
      var rest := ReportsOn(es[1..], key);
      HostIsItsReports(cfg, Step(cfg, b, es[0]), es[1..], key);
      if es[0].Result? && es[0].key == key {
        assert ReportsOn(es, key)[1..] == rest;
      }
    }
  }

  // ---------- All hosts of a run ----------

  // For every live host how its state began and the results since.
  type History = map<uint64, Past>

  function Remember(cfg: Config, b: Balancer, past: History, e: Event): History
    requires Defined(cfg, b, e)
  {
    match e
    case Answer(_, memory, _) =>
      map k | k in Step(cfg, b, e).hosts ::
        if k in b.hosts && k in past then past[k] else Past(Made(memory(k).0), [])
    case Result(key, ok, now) =>
      if key in b.hosts && key in past then past[key := Since(cfg, b.hosts[key], past[key], Sample(ok, now))] else past
    case Request => past
  }

  function HistoryOf(cfg: Config, b: Balancer, past: History, es: seq<Event>): History
    requires Legal(cfg, b, es)
    decreases |es|
  {
    if es == [] then past else HistoryOf(cfg, Step(cfg, b, es[0]), Remember(cfg, b, past, es[0]), es[1..])
  }

  // Every live host has a history that its counters are the closed form of.
  predicate AllCount(cfg: Config, b: Balancer, past: History) {
    past.Keys == b.hosts.Keys && forall k :: k in b.hosts ==> HostCounts(cfg, b.hosts[k], past[k])
  }

  lemma InitialCounts(cfg: Config, h: Host, key: uint64, memory: Memory)
    requires Initial(cfg, h, key, memory)
    ensures HostCounts(cfg, h, Past(Made(memory(key).0), []))
  {
  }

  lemma StepCounts(cfg: Config, b: Balancer, past: History, e: Event)
    requires b.Partitioned() && Defined(cfg, b, e) && AllCount(cfg, b, past)
    ensures AllCount(cfg, Step(cfg, b, e), Remember(cfg, b, past, e))
  {
    hide HostCounts, Since, Initial, HostKey, KeysIn, Split;
    match e
    case Answer(addrs, memory, now) =>
      UpdateHosts(cfg, b, addrs, memory, now);
      var b' := Update(cfg, b, addrs, memory, now);
      forall k | k in b'.hosts && k !in b.hosts { InitialCounts(cfg, b'.hosts[k], k, memory); }
    case Result(key, ok, now) =>
      ReportChanges(cfg, b, key, ok, now);
      if key in b.hosts {
        HostCountsReport(cfg, b.hosts[key], past[key], Sample(ok, now));
      }
    case Request => PickKeeps(cfg, b);
  }

  lemma HostCountsReport(cfg: Config, h: Host, p: Past, r: Sample)
    requires HostCounts(cfg, h, p)
    ensures HostCounts(cfg, Reported(cfg, h, r.ok, r.now), Since(cfg, h, p, r))
  {
    hide Counts, InWindow;
    ReportedCounts(cfg, h, p, r);
    ReportedInWindow(cfg, h, p, r);
  }

  // ---------- The history is the end of the reports ----------

  lemma {:induction false} ReportsAppend(es: seq<Event>, e: Event, key: uint64)
    ensures ReportsOn(es + [e], key) ==
            ReportsOn(es, key) + if e.Result? && e.key == key then [Sample(e.ok, e.now)] else []
  {
    if es == [] {
      assert (es + [e])[1..] == [];
    } else {
      assert (es + [e])[1..] == es[1..] + [e];
      ReportsAppend(es[1..], e, key);
    }
  }

  predicate AllRecent(before: seq<Event>, past: History) {
    forall k :: k in past ==> EndsWith(ReportsOn(before, k), past[k])
  }

  lemma StepRecent(cfg: Config, before: seq<Event>, b: Balancer, past: History, e: Event)
    requires Defined(cfg, b, e) && AllRecent(before, past) && past.Keys == b.hosts.Keys
    ensures AllRecent(before + [e], Remember(cfg, b, past, e))
  {
    hide Step, Defined, Reported, ReportsOn, Since;
    forall k | k in Remember(cfg, b, past, e)
      ensures EndsWith(ReportsOn(before + [e], k), Remember(cfg, b, past, e)[k])
    {
      ReportsAppend(before, e, k);
      if e.Result? && e.key == k {
        ReportedEnds(cfg, b.hosts[k], ReportsOn(before, k), past[k], Sample(e.ok, e.now));
      }
    }
  }

  lemma {:induction false} RunCountsAll(cfg: Config, before: seq<Event>, b: Balancer, past: History, es: seq<Event>)
    requires b.Partitioned() && Legal(cfg, b, es) && AllCount(cfg, b, past) && AllRecent(before, past)
    ensures AllCount(cfg, After(cfg, b, es), HistoryOf(cfg, b, past, es))
    ensures AllRecent(before + es, HistoryOf(cfg, b, past, es))
    decreases |es|
  {
    if es == [] {
      assert before + es == before;
    } else {
      StepCounts(cfg, b, past, es[0]);
      StepRecent(cfg, before, b, past, es[0]);
      StepKeeps(cfg, b, es[0]);
      hide Step, Defined, AllCount, AllRecent, Remember, Balancer.Partitioned;
      assert before + [es[0]] + es[1..] == before + es;
      RunCountsAll(cfg, before + [es[0]], Step(cfg, b, es[0]), Remember(cfg, b, past, es[0]), es[1..]);
    }
  }

  // MAIN: at every point of every defined run of a new balancer, the six counters of
  // every live host, whenever it was added, are the closed form of its last few reports;
  // the report before these, if any, reset it, and they all lie within the time limit of
  // its state, counted from that report.
  lemma EveryHostCounts(cfg: Config, access: int, es: seq<Event>)
    requires Legal(cfg, Created(access), es)
    ensures var b, past := After(cfg, Created(access), es), HistoryOf(cfg, Created(access), map[], es);
            past.Keys == b.hosts.Keys
            && forall k :: k in b.hosts ==>
                 Counts(cfg, b.hosts[k], past[k].since) && InWindow(cfg, b.hosts[k], past[k])
                 && EndsWith(ReportsOn(es, k), past[k])
  {
    hide Counts, InWindow, EndsWith, HistoryOf, After;
    CreatedPartitioned(access);
    RunCountsAll(cfg, [], Created(access), map[], es);
    assert [] + es == es;
  }

  // ---------- The intended balancer ----------

  // An intended event is the event as it is, with the dangling keys erased, or nothing.
  lemma IntendedIsStep(cfg: Config, b: Balancer, e: Event)
    requires b.dangling == {}
    ensures Intended(cfg, b, e) == if Defined(cfg, b, e) then Step(cfg, b, e).(dangling := {}) else b
  {
    hide Update, Report, Pick, CanPick;
    if e.Result? {
      ReportChanges(cfg, b, e.key, e.ok, e.now);
    } else if e.Request? && Defined(cfg, b, e) {
      PickIsClean(cfg, b);
    }
  }

  lemma PickIsClean(cfg: Config, b: Balancer)
    requires CanPick(cfg, b)
    ensures Pick(cfg, b).0.dangling == b.dangling
  {
  }

  // MAIN: with the keys erased every run whatever keeps every host within the limits of
  // its queue.
  lemma {:induction false} IntendedWithinLimits(cfg: Config, b: Balancer, es: seq<Event>)
    requires SaneLimits(cfg) && b.dangling == {} && b.Partitioned() && AllWithinLimits(cfg, b)
    ensures AllWithinLimits(cfg, IntendedRun(cfg, b, es))
    decreases |es|
  {
    if es != [] {
      IntendedIsStep(cfg, b, es[0]);
      IntendedKeeps(cfg, b, es[0]);
      if Defined(cfg, b, es[0]) {
        StepWithinLimits(cfg, b, es[0]);
      }
      hide Step, Defined, Intended, SaneLimits, WithinLimits, Balancer.Partitioned;
      IntendedWithinLimits(cfg, Intended(cfg, b, es[0]), es[1..]);
    }
  }

  function RememberIntended(cfg: Config, b: Balancer, past: History, e: Event): History {
    if Defined(cfg, b, e) then Remember(cfg, b, past, e) else past
  }

  function IntendedHistory(cfg: Config, b: Balancer, past: History, es: seq<Event>): History
    requires b.dangling == {}
    decreases |es|
  {
    if es == [] then past
    else IntendedHistory(cfg, Intended(cfg, b, es[0]), RememberIntended(cfg, b, past, es[0]), es[1..])
  }

  lemma IntendedStepCounts(cfg: Config, before: seq<Event>, b: Balancer, past: History, e: Event)
    requires b.dangling == {} && b.Partitioned() && AllCount(cfg, b, past) && AllRecent(before, past)
    ensures AllCount(cfg, Intended(cfg, b, e), RememberIntended(cfg, b, past, e))
    ensures AllRecent(before + [e], RememberIntended(cfg, b, past, e))
  {
    hide HostCounts, ReportsOn, Balancer.Partitioned, Remember, Step, Intended;
    IntendedIsStep(cfg, b, e);
    if Defined(cfg, b, e) {
      StepCounts(cfg, b, past, e);
      StepRecent(cfg, before, b, past, e);
    } else {
      assert !e.Result?;
      forall k | k in past ensures EndsWith(ReportsOn(before + [e], k), past[k]) {
        ReportsAppend(before, e, k);
      }
    }
  }

  lemma {:induction false} IntendedRunCounts(cfg: Config, before: seq<Event>, b: Balancer, past: History,
                                             es: seq<Event>)
    requires b.dangling == {} && b.Partitioned() && AllCount(cfg, b, past) && AllRecent(before, past)
    ensures AllCount(cfg, IntendedRun(cfg, b, es), IntendedHistory(cfg, b, past, es))
    ensures AllRecent(before + es, IntendedHistory(cfg, b, past, es))
    decreases |es|
  {
    if es == [] {
      assert before + es == before;
    } else {
      IntendedStepCounts(cfg, before, b, past, es[0]);
      IntendedKeeps(cfg, b, es[0]);
      hide Intended, AllCount, AllRecent, RememberIntended, Balancer.Partitioned;
      assert before + [es[0]] + es[1..] == before + es;
      IntendedRunCounts(cfg, before + [es[0]], Intended(cfg, b, es[0]), RememberIntended(cfg, b, past, es[0]), es[1..]);
    }
  }

  // MAIN: and the six counters of every host are at every point the closed form of its
  // last few reports.
  lemma EveryIntendedHostCounts(cfg: Config, access: int, es: seq<Event>)
    ensures var b, past := IntendedRun(cfg, Created(access), es), IntendedHistory(cfg, Created(access), map[], es);
            past.Keys == b.hosts.Keys
            && forall k :: k in b.hosts ==>
                 Counts(cfg, b.hosts[k], past[k].since) && InWindow(cfg, b.hosts[k], past[k])
                 && EndsWith(ReportsOn(es, k), past[k])
  {
    hide Counts, InWindow, EndsWith, IntendedHistory, IntendedRun;
    CreatedPartitioned(access);
    IntendedRunCounts(cfg, [], Created(access), map[], es);
    assert [] + es == es;
  }
}
