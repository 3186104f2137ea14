// When a host changes queue: the thresholds every reachable host satisfies, its counters
// as a closed form of the reports, and how many reports it takes to trip or recover.

module HostRates {
  import opened Words
  import opened Hosts

  // ---------- Arithmetic of the thresholds ----------

  lemma RateExceeds(part: nat, rest: nat, limit: real)
    requires part + rest > 0
    ensures Rate(part, rest) > limit <==> part as real > limit * (part + rest) as real
  {
    var total := (part + rest) as real;
    var q := part as real / total;
    assert q * total == part as real;
    if q > limit {
      MulStrict(limit, q, total);
    } else {
      MulWeak(q, limit, total);
    }
  }

  lemma MulStrict(x: real, y: real, z: real)
    requires x < y && z > 0.0
    ensures x * z < y * z
  {
  }

  lemma MulWeak(x: real, y: real, z: real)
    requires x <= y && z >= 0.0
    ensures x * z <= y * z
  {
  }

  // ---------- The invariant of every reachable host ----------

  predicate WithinLimits(cfg: Config, h: Host) {
    if h.overload then
      h.vsucc as real <= cfg.succRate * (h.vsucc + h.verr) as real && h.conSucc < AsUint32(cfg.conSuccLimit)
    else
      h.verr as real <= cfg.errRate * (h.vsucc + h.verr) as real && h.conErr < AsUint32(cfg.conErrLimit)
  }

  // A fresh host in either state is within its limits.
  predicate SaneLimits(cfg: Config) {
    0.0 <= cfg.errRate && 0.0 <= cfg.succRate && cfg.conErrLimit != 0 && cfg.conSuccLimit != 0
  }

  lemma ResetWithinLimits(cfg: Config, h: Host, now: int)
    requires SaneLimits(cfg)
    ensures WithinLimits(cfg, Idled(cfg, h, now)) && WithinLimits(cfg, Overloaded(cfg, h, now))
  {
    MulWeak(0.0, cfg.errRate, cfg.initSucc as real);
    MulWeak(0.0, cfg.succRate, cfg.initErr as real);
  }

  lemma TallyWithinLimits(cfg: Config, h: Host, ok: bool)
    requires SaneLimits(cfg) && WithinLimits(cfg, h) && h.overload != ok
    ensures WithinLimits(cfg, Tally(h, ok))
  {
    var n := (h.vsucc + h.verr) as real;
    var rate := if h.overload then cfg.succRate else cfg.errRate;
    assert rate * (n + 1.0) == rate * n + rate;
  }

  // MAIN: a report keeps the host within the limits of its queue.
  lemma ReportedWithinLimits(cfg: Config, h: Host, ok: bool, now: int)
    requires SaneLimits(cfg) && WithinLimits(cfg, h)
    ensures WithinLimits(cfg, Reported(cfg, h, ok, now))
  {
    var t := Tally(h, ok);
    ResetWithinLimits(cfg, t, now);
    RateExceeds(t.verr, t.vsucc, cfg.errRate);
    RateExceeds(t.vsucc, t.verr, cfg.succRate);
    if h.overload != ok {
      TallyWithinLimits(cfg, h, ok);
    }
    hide Rate, Idled, Overloaded, WindowBad, Tally;
    assert t.overload == h.overload by { TallyKeepsFlag(h, ok); }
  }

  lemma TallyKeepsFlag(h: Host, ok: bool)
    ensures Tally(h, ok).overload == h.overload
  {
  }

  // ---------- Counters in closed form ----------

  // The result of one call and when it was reported.
  datatype Sample = Sample(ok: bool, now: int)

  function Count(rs: seq<Sample>, v: bool): (n: nat)
    ensures n <= |rs|
  {
    if rs == [] then 0 else Count(rs[..|rs| - 1], v) + if rs[|rs| - 1].ok == v then 1 else 0
  }

  // How many of the last results in a row are v.
  function Streak(rs: seq<Sample>, v: bool): (n: nat)
    ensures n <= |rs|
    ensures forall i :: |rs| - n <= i < |rs| ==> rs[i].ok == v
    ensures n < |rs| ==> rs[|rs| - n - 1].ok != v
  {
    if rs == [] || rs[|rs| - 1].ok != v then 0 else 1 + Streak(rs[..|rs| - 1], v)
  }

  lemma {:induction false} CountsAll(rs: seq<Sample>)
    ensures Count(rs, true) + Count(rs, false) == |rs|
  {
    if rs != [] {
      CountsAll(rs[..|rs| - 1]);
    }
  }

  lemma OneMore(rs: seq<Sample>, r: Sample, v: bool)
    ensures Count(rs + [r], v) == Count(rs, v) + if r.ok == v then 1 else 0
    ensures Streak(rs + [r], v) == if r.ok == v then Streak(rs, v) + 1 else 0
  {
    assert (rs + [r])[..|rs|] == rs;
  }

  // How the host's state began: the object was made, or a report reset its counters.
  datatype Origin = Made(at: int) | Reset(report: Sample)

  // That, and the results since.
  datatype Past = Past(origin: Origin, since: seq<Sample>)
  {
    function Start(): int { if origin.Made? then origin.at else origin.report.now }
  }

  // The counters are those of the results since the last reset.
  predicate Counts(cfg: Config, h: Host, since: seq<Sample>) {
    && h.vsucc == Count(since, true) + (if h.overload then 0 else cfg.initSucc)
    && h.verr == Count(since, false) + (if h.overload then cfg.initErr else 0)
    && h.rsucc == Count(since, true) && h.rerr == Count(since, false)
    && h.conSucc == Streak(since, true) && h.conErr == Streak(since, false)
  }

  function Timeout(cfg: Config, overload: bool): int {
    if overload then cfg.overloadTimeout else cfg.idleTimeout
  }

  // The host keeps the time at which its state began, and all results since came before
  // the time limit of that state.
  predicate InWindow(cfg: Config, h: Host, p: Past) {
    && (if h.overload then h.overloadTs else h.idleTs) == p.Start()
    && forall r :: r in p.since ==> r.now - p.Start() < Timeout(cfg, h.overload)
  }

  predicate HostCounts(cfg: Config, h: Host, p: Past) {
    Counts(cfg, h, p.since) && InWindow(cfg, h, p)
  }

  predicate Late(cfg: Config, h: Host, p: Past, r: Sample) {
    r.now - p.Start() >= Timeout(cfg, h.overload)
  }

  // A report that changes the state or comes after its time limit begins anew.
  function Since(cfg: Config, h: Host, p: Past, r: Sample): Past {
    if Reported(cfg, h, r.ok, r.now).overload != h.overload || Late(cfg, h, p, r) then Past(Reset(r), [])
    else Past(p.origin, p.since + [r])
  }

  // The report resets the counters exactly when the past begins anew.
  lemma ReportMoves(cfg: Config, h: Host, p: Past, r: Sample)
    requires InWindow(cfg, h, p)
    ensures var t := Tally(h, r.ok);
            var move := Judge(cfg, t, r.ok, r.now);
            (move == Stay <==> Since(cfg, h, p, r) == Past(p.origin, p.since + [r]))
            && (move != Stay <==> Since(cfg, h, p, r) == Past(Reset(r), []))
  {
    hide TooManyErrors, EnoughSuccesses, WindowBad;
    assert |p.since + [r]| > 0;
  }

  lemma TalliedCounts(cfg: Config, h: Host, since: seq<Sample>, r: Sample)
    requires Counts(cfg, h, since)
    ensures Counts(cfg, Tally(h, r.ok), since + [r])
  {
    OneMore(since, r, true);
    OneMore(since, r, false);
    hide Count, Streak;
  }

  lemma ResetCounts(cfg: Config, h: Host, now: int)
    ensures Counts(cfg, Idled(cfg, h, now), []) && Counts(cfg, Overloaded(cfg, h, now), [])
  {
  }

  lemma ReportedCounts(cfg: Config, h: Host, p: Past, r: Sample)
    requires HostCounts(cfg, h, p)
    ensures Counts(cfg, Reported(cfg, h, r.ok, r.now), Since(cfg, h, p, r).since)
  {
    ReportMoves(cfg, h, p, r);
    TalliedCounts(cfg, h, p.since, r);
    ResetCounts(cfg, Tally(h, r.ok), r.now);
    hide Counts, Judge, Since, InWindow, Tally, Idled, Overloaded;
  }

  lemma ReportedInWindow(cfg: Config, h: Host, p: Past, r: Sample)
    requires InWindow(cfg, h, p)
    ensures InWindow(cfg, Reported(cfg, h, r.ok, r.now), Since(cfg, h, p, r))
  {
    hide TooManyErrors, EnoughSuccesses, WindowBad;
  }

  // What the past tells is the end of all reports: the one that reset the host, and those
  // since.
  predicate EndsWith(all: seq<Sample>, p: Past) {
    var last := (if p.origin.Reset? then [p.origin.report] else []) + p.since;
    |last| <= |all| && all[|all| - |last|..] == last
  }

  lemma ReportedEnds(cfg: Config, h: Host, all: seq<Sample>, p: Past, r: Sample)
    requires EndsWith(all, p)
    ensures EndsWith(all + [r], Since(cfg, h, p, r))
  {
    hide Reported;
    var first := if p.origin.Reset? then [p.origin.report] else [];
    assert (all + [r])[|all| - |first + p.since|..] == first + p.since + [r];
    assert first + p.since + [r] == first + (p.since + [r]);
  }

  // A host after a sequence of reports, and what then still counts.
  function HostRun(cfg: Config, h: Host, rs: seq<Sample>): Host
    decreases |rs|
  {
    if rs == [] then h else HostRun(cfg, Reported(cfg, h, rs[0].ok, rs[0].now), rs[1..])
  }

  function SinceRun(cfg: Config, h: Host, p: Past, rs: seq<Sample>): Past
    decreases |rs|
  {
    if rs == [] then p
    else SinceRun(cfg, Reported(cfg, h, rs[0].ok, rs[0].now), Since(cfg, h, p, rs[0]), rs[1..])
  }

  lemma ReportKeepsAll(cfg: Config, h: Host, all: seq<Sample>, p: Past, r: Sample)
    requires HostCounts(cfg, h, p) && EndsWith(all, p)
    ensures var h', p' := Reported(cfg, h, r.ok, r.now), Since(cfg, h, p, r);
            HostCounts(cfg, h', p') && EndsWith(all + [r], p')
  {
    hide Counts, InWindow, EndsWith, Reported, Since;
    ReportedCounts(cfg, h, p, r);
    ReportedInWindow(cfg, h, p, r);
    ReportedEnds(cfg, h, all, p, r);
  }

  // MAIN: after any reports all six counters are determined by the results since the host
  // was made or last reset; these and the report that reset it are the last ones; the
  // time kept is that report's, and none of them came after the limit that it started.
  lemma {:induction false} RunCounts(cfg: Config, h: Host, all: seq<Sample>, p: Past, rs: seq<Sample>)
    requires HostCounts(cfg, h, p) && EndsWith(all, p)
    ensures HostCounts(cfg, HostRun(cfg, h, rs), SinceRun(cfg, h, p, rs))
    ensures EndsWith(all + rs, SinceRun(cfg, h, p, rs))
    decreases |rs|
  {
    hide HostCounts, EndsWith, Reported, Since;
    if rs == [] {
      assert all + rs == all;
    } else {
      var r := rs[0];
      ReportKeepsAll(cfg, h, all, p, r);
      assert all + [r] + rs[1..] == all + rs;
      RunCounts(cfg, Reported(cfg, h, r.ok, r.now), all + [r], Since(cfg, h, p, r), rs[1..]);
    }
  }

  // MAIN: and it is within the limits of its queue.
  lemma {:induction false} HostRunWithinLimits(cfg: Config, h: Host, rs: seq<Sample>)
    requires SaneLimits(cfg) && WithinLimits(cfg, h)
    ensures WithinLimits(cfg, HostRun(cfg, h, rs))
    decreases |rs|
  {
    hide SaneLimits, WithinLimits, Reported;
    if rs != [] {
      ReportedWithinLimits(cfg, h, rs[0].ok, rs[0].now);
      HostRunWithinLimits(cfg, Reported(cfg, h, rs[0].ok, rs[0].now), rs[1..]);
    }
  }

  // ---------- Time limits ----------

  lemma RateReaches(part: nat, rest: nat, limit: real)
    requires part + rest > 0
    ensures Rate(part, rest) >= limit <==> part as real >= limit * (part + rest) as real
  {
    var total := (part + rest) as real;
    var q := part as real / total;
    assert q * total == part as real;
    if q >= limit {
      MulWeak(limit, q, total);
    } else {
      MulStrict(q, limit, total);
    }
  }

  lemma WindowTally(cfg: Config, h: Host, since: seq<Sample>, r: Sample)
    requires Counts(cfg, h, since)
    ensures var all, t := since + [r], Tally(h, r.ok);
            t.rerr == Count(all, false) && t.rsucc == Count(all, true) && t.rerr + t.rsucc == |all| > 0
  {
    TalliedCounts(cfg, h, since, r);
    CountsAll(since + [r]);
    hide Count, Streak, Tally;
  }

  // The window check in terms of the results in the window.
  lemma WindowShare(cfg: Config, h: Host, since: seq<Sample>, r: Sample)
    requires Counts(cfg, h, since)
    ensures var all := since + [r];
            WindowBad(cfg, Tally(h, r.ok)) <==> Count(all, false) as real >= cfg.windowErrRate * |all| as real
  {
    hide Rate, Count, Counts, Tally;
    WindowTally(cfg, h, since, r);
    RateReaches(Tally(h, r.ok).rerr, Tally(h, r.ok).rsucc, cfg.windowErrRate);
  }

  // There are more results v than the rate allows beside a given number of virtual ones
  // of the other kind, or the last ones in a row reach the limit.
  predicate Frequent(all: seq<Sample>, v: bool, rate: real, virtual: nat, limit: int32) {
    Count(all, v) as real > rate * (|all| + virtual) as real || Streak(all, v) >= AsUint32(limit)
  }

  lemma TallyCounts(cfg: Config, h: Host, since: seq<Sample>, r: Sample)
    requires Counts(cfg, h, since)
    ensures var all, t := since + [r], Tally(h, r.ok);
            && t.vsucc + t.verr == |all| + (if h.overload then cfg.initErr else cfg.initSucc)
            && (if h.overload then t.vsucc == Count(all, true) && t.conSucc == Streak(all, true)
                else t.verr == Count(all, false) && t.conErr == Streak(all, false))
  {
    TalliedCounts(cfg, h, since, r);
    TallyKeepsFlag(h, r.ok);
    CountsAll(since + [r]);
    hide Count, Streak, Tally;
  }

  // The thresholds in terms of the results since the last reset.
  lemma ThresholdShare(cfg: Config, h: Host, since: seq<Sample>, r: Sample)
    requires Counts(cfg, h, since)
    ensures var all, t := since + [r], Tally(h, r.ok);
            if h.overload then
              EnoughSuccesses(cfg, t) <==> Frequent(all, true, cfg.succRate, cfg.initErr, cfg.conSuccLimit)
            else TooManyErrors(cfg, t) <==> Frequent(all, false, cfg.errRate, cfg.initSucc, cfg.conErrLimit)
  {
    hide Rate, Count, Streak, Tally, Counts;
    TallyCounts(cfg, h, since, r);
    var t := Tally(h, r.ok);
    if h.overload {
      RateExceeds(t.vsucc, t.verr, cfg.succRate);
    } else {
      RateExceeds(t.verr, t.vsucc, cfg.errRate);
    }
  }

  // MAIN: what a report does, from the results since the last reset alone. An idle host
  // trips exactly with a failure that makes failures too frequent or, once its window is
  // over, when failures make up the given share of all results in it; an overloaded one
  // recovers exactly with a success that makes successes frequent enough, or once its
  // time limit is over.
  lemma ReportDecides(cfg: Config, h: Host, p: Past, r: Sample)
    requires HostCounts(cfg, h, p)
    ensures var all, h' := p.since + [r], Reported(cfg, h, r.ok, r.now);
            if h.overload then
              !h'.overload <==>
                (r.ok && Frequent(all, true, cfg.succRate, cfg.initErr, cfg.conSuccLimit))
                || r.now - p.Start() >= cfg.overloadTimeout
            else
              h'.overload <==>
                (!r.ok && Frequent(all, false, cfg.errRate, cfg.initSucc, cfg.conErrLimit))
                || (r.now - p.Start() >= cfg.idleTimeout
                    && Count(all, false) as real >= cfg.windowErrRate * |all| as real)
  {
    hide TooManyErrors, EnoughSuccesses, WindowBad, Count, Counts, Frequent;
    WindowShare(cfg, h, p.since, r);
    ThresholdShare(cfg, h, p.since, r);
  }

  // An overloaded host that goes on failing stays so for the time limit.
  lemma {:induction false} FailingHostWaits(cfg: Config, h: Host, rs: seq<Sample>, r: Sample)
    requires h.overload && !r.ok
    requires Uniform(rs, false, h.overloadTs, cfg.overloadTimeout)
    ensures HostRun(cfg, h, rs + [r]).overload <==> r.now - h.overloadTs < cfg.overloadTimeout
    decreases |rs|
  {
    hide EnoughSuccesses, TooManyErrors, WindowBad;
    if rs == [] {
      assert (rs + [r])[1..] == [];
    } else {
      assert (rs + [r])[1..] == rs[1..] + [r];
      assert rs[0] in rs;
      FailingHostWaits(cfg, Reported(cfg, h, rs[0].ok, rs[0].now), rs[1..], r);
    }
  }

  lemma {:induction false} RunAppend(cfg: Config, h: Host, rs: seq<Sample>, more: seq<Sample>)
    ensures HostRun(cfg, h, rs + more) == HostRun(cfg, HostRun(cfg, h, rs), more)
    decreases |rs|
  {
    hide Reported;
    if rs == [] {
      assert rs + more == more;
    } else {
      assert (rs + more)[1..] == rs[1..] + more;
      RunAppend(cfg, Reported(cfg, h, rs[0].ok, rs[0].now), rs[1..], more);
    }
  }

  // The report r0 moves a host to the given queue.
  predicate Moves(cfg: Config, h: Host, before: seq<Sample>, r0: Sample, overload: bool) {
    HostRun(cfg, h, before).overload != overload && HostRun(cfg, h, before + [r0]).overload == overload
  }

  lemma MovedAt(cfg: Config, h: Host, before: seq<Sample>, r0: Sample, overload: bool)
    requires Moves(cfg, h, before, r0, overload)
    ensures var h' := HostRun(cfg, h, before + [r0]);
            if overload then
              h' == h'.(vsucc := 0, verr := cfg.initErr, conSucc := 0, conErr := 0, overloadTs := r0.now)
            else h' == h'.(vsucc := cfg.initSucc, verr := 0, conSucc := 0, conErr := 0, idleTs := r0.now)
  {
    hide TooManyErrors, EnoughSuccesses, WindowBad;
    RunAppend(cfg, h, before, [r0]);
    assert HostRun(cfg, HostRun(cfg, h, before), [r0]) == Reported(cfg, HostRun(cfg, h, before), r0.ok, r0.now);
  }

  // MAIN: a host that becomes overloaded with a report r0 and goes on failing becomes idle
  // with the first report that comes overload_timeout after r0, and not before.
  lemma TrippedHostWaits(cfg: Config, h: Host, before: seq<Sample>, r0: Sample, rs: seq<Sample>, r: Sample)
    requires Moves(cfg, h, before, r0, true)
    requires Uniform(rs, false, r0.now, cfg.overloadTimeout) && !r.ok
    ensures HostRun(cfg, h, before + [r0] + (rs + [r])).overload <==> r.now - r0.now < cfg.overloadTimeout
  {
    MovedAt(cfg, h, before, r0, true);
    RunAppend(cfg, h, before + [r0], rs + [r]);
    FailingHostWaits(cfg, HostRun(cfg, h, before + [r0]), rs, r);
  }

  // ---------- How long it takes ----------

  // The least count against base that exceeds the rate.
  function Needed(rate: real, base: nat): (n: int)
    requires rate < 1.0
  {
    (rate * base as real / (1.0 - rate)).Floor + 1
  }

  function Min(x: int, y: int): int { if x <= y then x else y }

  lemma NeededIsThreshold(rate: real, base: nat, n: nat)
    requires 0.0 <= rate < 1.0 && n + base > 0
    ensures Rate(n, base) > rate <==> n >= Needed(rate, base)
  {
    RateExceeds(n, base, rate);
    hide Rate;
    var x, m, b, c := rate * base as real / (1.0 - rate), n as real, base as real, 1.0 - rate;
    assert (n + base) as real == m + b;
    assert x * c == rate * b;
    assert rate * (m + b) == rate * m + rate * b && m * c == m - rate * m;
    if m > x {
      MulStrict(x, m, c);
    } else {
      MulWeak(m, x, c);
    }
    assert m > rate * (m + b) <==> m > x;
    assert m > x <==> n > x.Floor;
  }

  // A sequence of equal results during which no time limit expires.
  predicate Uniform(rs: seq<Sample>, ok: bool, from: int, timeout: int) {
    forall r :: r in rs ==> r.ok == ok && r.now - from < timeout
  }

  // MAIN: an idle host with S virtual successes and no errors, fed failures only, trips
  // at exactly the report min(con_err_limit, floor(err_rate * S / (1 - err_rate)) + 1).
  lemma {:induction false} TripsAfter(cfg: Config, h: Host, n: nat, rs: seq<Sample>)
    requires 0.0 <= cfg.errRate < 1.0 && cfg.conErrLimit > 0
    requires !h.overload && h.verr == n && h.conErr == n
    requires n < Min(cfg.conErrLimit, Needed(cfg.errRate, h.vsucc))
    requires Uniform(rs, false, h.idleTs, cfg.idleTimeout)
    requires n + |rs| <= Min(cfg.conErrLimit, Needed(cfg.errRate, h.vsucc))
    ensures HostRun(cfg, h, rs).overload <==> n + |rs| == Min(cfg.conErrLimit, Needed(cfg.errRate, h.vsucc))
    decreases |rs|
  {
    if rs != [] {
      var r := rs[0];
      assert r in rs;
      var t := Tally(h, false);
      NeededIsThreshold(cfg.errRate, h.vsucc, n + 1);
      hide Needed, Rate;
      var h' := Reported(cfg, h, false, r.now);
      if n + 1 < Min(cfg.conErrLimit, Needed(cfg.errRate, h.vsucc)) {
        assert h' == t;
        TripsAfter(cfg, h', n + 1, rs[1..]);
      } else {
        assert rs[1..] == [];
        assert HostRun(cfg, h', []) == h';
      }
    }
  }

  // MAIN: an overloaded host with E virtual errors and no successes, fed successes only,
  // recovers at exactly the report min(con_succ_limit, floor(succ_rate * E / (1 - succ_rate)) + 1).
  lemma {:induction false} RecoversAfter(cfg: Config, h: Host, n: nat, rs: seq<Sample>)
    requires 0.0 <= cfg.succRate < 1.0 && cfg.conSuccLimit > 0
    requires h.overload && h.vsucc == n && h.conSucc == n
    requires n < Min(cfg.conSuccLimit, Needed(cfg.succRate, h.verr))
    requires Uniform(rs, true, h.overloadTs, cfg.overloadTimeout)
    requires n + |rs| <= Min(cfg.conSuccLimit, Needed(cfg.succRate, h.verr))
    ensures !HostRun(cfg, h, rs).overload <==> n + |rs| == Min(cfg.conSuccLimit, Needed(cfg.succRate, h.verr))
    decreases |rs|
  {
    if rs != [] {
      var r := rs[0];
      assert r in rs;
      var t := Tally(h, true);
      NeededIsThreshold(cfg.succRate, h.verr, n + 1);
      hide Needed, Rate;
      var h' := Reported(cfg, h, true, r.now);
      if n + 1 < Min(cfg.conSuccLimit, Needed(cfg.succRate, h.verr)) {
        assert h' == t;
        RecoversAfter(cfg, h', n + 1, rs[1..]);
      } else {
        assert rs[1..] == [];
        assert HostRun(cfg, h', []) == h';
      }
    }
  }

  lemma NoQuotient(x: real, y: real)
    requires x == 0.0 && y > 0.0
    ensures x / y == 0.0
  {
    var q := x / y;
    assert q * y == x;
    if q > 0.0 {
      MulStrict(0.0, q, y);
    } else if q < 0.0 {
      MulStrict(q, 0.0, y);
    }
  }

  lemma NeededIsPositive(rate: real, base: nat)
    requires 0.0 <= rate < 1.0
    ensures Needed(rate, base) > 0
  {
    if base > 0 {
      NeededIsThreshold(rate, base, 0);
      hide Needed;
      assert Rate(0, base) == 0.0;
    } else {
      NoQuotient(rate * base as real, 1.0 - rate);
    }
  }

  // MAIN: a host that becomes overloaded with a report r0 and then only succeeds is back
  // after min(con_succ_limit, floor(succ_rate * init_err / (1 - succ_rate)) + 1) reports,
  // unless overload_timeout after r0 comes first.
  lemma TrippedHostRecovers(cfg: Config, h: Host, before: seq<Sample>, r0: Sample, rs: seq<Sample>)
    requires 0.0 <= cfg.succRate < 1.0 && cfg.conSuccLimit > 0 && Moves(cfg, h, before, r0, true)
    requires Uniform(rs, true, r0.now, cfg.overloadTimeout)
    requires |rs| <= Min(cfg.conSuccLimit, Needed(cfg.succRate, cfg.initErr))
    ensures !HostRun(cfg, h, before + [r0] + rs).overload <==>
            |rs| == Min(cfg.conSuccLimit, Needed(cfg.succRate, cfg.initErr))
  {
    hide Needed;
    MovedAt(cfg, h, before, r0, true);
    RunAppend(cfg, h, before + [r0], rs);
    NeededIsPositive(cfg.succRate, cfg.initErr);
    RecoversAfter(cfg, HostRun(cfg, h, before + [r0]), 0, rs);
  }

  // MAIN: and a host that becomes idle with a report r0 and then only fails is overloaded
  // after min(con_err_limit, floor(err_rate * init_succ / (1 - err_rate)) + 1) reports,
  // unless idle_timeout after r0 comes first.
  lemma RecoveredHostTrips(cfg: Config, h: Host, before: seq<Sample>, r0: Sample, rs: seq<Sample>)
    requires 0.0 <= cfg.errRate < 1.0 && cfg.conErrLimit > 0 && Moves(cfg, h, before, r0, false)
    requires Uniform(rs, false, r0.now, cfg.idleTimeout)
    requires |rs| <= Min(cfg.conErrLimit, Needed(cfg.errRate, cfg.initSucc))
    ensures HostRun(cfg, h, before + [r0] + rs).overload <==>
            |rs| == Min(cfg.conErrLimit, Needed(cfg.errRate, cfg.initSucc))
  {
    hide Needed;
    MovedAt(cfg, h, before, r0, false);
    RunAppend(cfg, h, before + [r0], rs);
    NeededIsPositive(cfg.errRate, cfg.initSucc);
    TripsAfter(cfg, HostRun(cfg, h, before + [r0]), 0, rs);
  }
}
