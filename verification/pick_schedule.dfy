// The closed form of a sequence of picks with no other call in between.

module PickSchedule {
  import opened Words
  import opened Hosts
  import opened Options
  import opened Sequences
  import opened Balancers

  // ---------- Division with a variable divisor ----------

  lemma Quotient(x: int, n: nat, q: int, r: int)
    requires n > 0 && x == q * n + r && 0 <= r < n
    ensures x / n == q && x % n == r
  {
    var q', r' := x / n, x % n;
    assert x == q' * n + r';
    assert (q - q') * n == r' - r;
    if q > q' {
      assert (q - q') * n >= n by { Scale(q - q', n); }
    } else if q < q' {
      Scale(q' - q, n);
    }
  }

  lemma Scale(k: int, n: nat)
    requires k >= 1
    ensures k * n >= n
  {
  }

  lemma Successor(x: nat, n: nat)
    requires n > 0
    ensures (x + 1) % n == (if x % n == n - 1 then 0 else x % n + 1)
    ensures (x + 1) / n == x / n + (if x % n == n - 1 then 1 else 0)
  {
    var q, r := x / n, x % n;
    assert x == q * n + r;
    if r == n - 1 {
      assert x + 1 == (q + 1) * n + 0;
      Quotient(x + 1, n, q + 1, 0);
    } else {
      Quotient(x + 1, n, q, r + 1);
    }
  }

  // ---------- The schedule ----------

  // Picks before the first probe, and from one probe to the next.
  function Wait(cfg: Config, access: int): nat {
    if access >= cfg.probeNum then 0 else cfg.probeNum - access
  }

  function Period(cfg: Config): (q: nat)
    ensures q > 0
  {
    if cfg.probeNum >= 0 then cfg.probeNum + 1 else 1
  }

  // The n-th pick, counting from 0, is a probe; and how many probes come before it.
  predicate IsProbe(cfg: Config, access: int, n: nat) {
    n >= Wait(cfg, access) && (n - Wait(cfg, access)) % Period(cfg) == 0
  }

  function Probes(cfg: Config, access: int, n: nat): nat {
    if n <= Wait(cfg, access) then 0 else (n - Wait(cfg, access) - 1) / Period(cfg) + 1
  }

  function AccessAt(cfg: Config, access: int, n: nat): int {
    if n <= Wait(cfg, access) then access + n else (n - Wait(cfg, access) - 1) % Period(cfg)
  }

  lemma ProbesStep(cfg: Config, access: int, n: nat)
    ensures Probes(cfg, access, n + 1) == Probes(cfg, access, n) + (if IsProbe(cfg, access, n) then 1 else 0)
    ensures Probes(cfg, access, n) <= n
    ensures IsProbe(cfg, access, n) <==> AccessAt(cfg, access, n) >= cfg.probeNum
    ensures AccessAt(cfg, access, n + 1) == if IsProbe(cfg, access, n) then 0 else AccessAt(cfg, access, n) + 1
  {
    var w, q := Wait(cfg, access), Period(cfg);
    if n < w {
    } else if n == w {
      Quotient(0, q, 0, 0);
    } else {
      Successor(n - w - 1, q);
      QuotientAtMost(n - w - 1, q);
    }
  }

  lemma QuotientAtMost(x: nat, n: nat)
    requires n > 0
    ensures x / n <= x
  {
    assert x == (x / n) * n + x % n;
    if x / n > 0 {
      Scale(n, x / n);
    }
  }

  function RotateBy<T>(s: seq<T>, k: nat): seq<T>
    requires k <= |s|
  {
    s[k..] + s[..k]
  }

  lemma RotateOnce<T>(s: seq<T>, x: nat)
    requires s != []
    ensures x % |s| < |s|
    ensures RotateBy(s, x % |s|)[0] == s[x % |s|]
    ensures Rotated(RotateBy(s, x % |s|)) == RotateBy(s, (x + 1) % |s|)
  {
    Successor(x, |s|);
    var k := x % |s|;
    assert s[k..] == [s[k]] + s[k + 1..];
    if k == |s| - 1 {
      assert Rotated(RotateBy(s, k)) == s;
    } else {
      assert s[..k + 1] == s[..k] + [s[k]];
    }
  }

  predicate Queued(b: Balancer) { b.idle != [] || b.over != [] }

  // The balancer after n picks, and the host of the n-th.
  function Picked(cfg: Config, b: Balancer, n: nat): (b': Balancer)
    requires Queued(b)
    ensures Queued(b') && (b'.over == [] <==> b.over == [])
  {
    if n == 0 then b else Pick(cfg, Picked(cfg, b, n - 1)).0
  }

  function Nth(cfg: Config, b: Balancer, n: nat): Option<uint64>
    requires Queued(b)
  {
    Pick(cfg, Picked(cfg, b, n)).1
  }

  function Turn(s: seq<uint64>, x: nat): uint64
    requires s != []
  {
    s[x % |s|]
  }

  function TurnedTo(s: seq<uint64>, x: nat): seq<uint64> {
    if s == [] then [] else RotateBy(s, x % |s|)
  }

  // The n-th pick in closed form: a probe goes to the next overloaded host in turn, any
  // other pick to the next idle one, or to none.
  function Scheduled(cfg: Config, b: Balancer, n: nat): Option<uint64>
    requires b.over != []
  {
    var probes := Probes(cfg, b.access, n);
    ProbesStep(cfg, b.access, n);
    if IsProbe(cfg, b.access, n) then Some(Turn(b.over, probes))
    else if b.idle == [] then None
    else Some(Turn(b.idle, n - probes))
  }

  lemma TurnStep(s: seq<uint64>, x: nat)
    ensures s == [] ==> TurnedTo(s, x) == []
    ensures s != [] ==>
              TurnedTo(s, x) != [] && TurnedTo(s, x)[0] == Turn(s, x)
              && Rotated(TurnedTo(s, x)) == TurnedTo(s, x + 1)
  {
    if s != [] {
      RotateOnce(s, x);
    }
  }

  // The balancer after n picks in closed form.
  function ScheduledState(cfg: Config, b: Balancer, n: nat): Balancer {
    var probes := Probes(cfg, b.access, n);
    ProbesStep(cfg, b.access, n);
    b.(access := AccessAt(cfg, b.access, n), over := TurnedTo(b.over, probes), idle := TurnedTo(b.idle, n - probes))
  }

  lemma ScheduleStep(cfg: Config, b: Balancer, n: nat)
    requires b.over != []
    ensures ScheduledState(cfg, b, n).over != []
    ensures Pick(cfg, ScheduledState(cfg, b, n)) == (ScheduledState(cfg, b, n + 1), Scheduled(cfg, b, n))
  {
    var probes := Probes(cfg, b.access, n);
    ProbesStep(cfg, b.access, n);
    TurnStep(b.over, probes);
    TurnStep(b.idle, n - probes);
    hide Probes, IsProbe, AccessAt, Turn, TurnedTo, Rotated;
  }

  // MAIN: with overloaded hosts present, whatever the access count and probe_num, the
  // first probe comes after max(0, probe_num - access) picks and then after every
  // probe_num + 1, and probes and other picks each go round their own queue.
  lemma {:induction false} PicksFollowSchedule(cfg: Config, b: Balancer, n: nat)
    requires b.over != []
    ensures Picked(cfg, b, n) == ScheduledState(cfg, b, n)
    ensures Nth(cfg, b, n) == Scheduled(cfg, b, n)
  {
    hide ScheduledState, Scheduled, Pick;
    if n == 0 {
      FirstTurn(cfg, b);
    } else {
      PicksFollowSchedule(cfg, b, n - 1);
      ScheduleStep(cfg, b, n - 1);
    }
    ScheduleStep(cfg, b, n);
  }

  lemma FirstTurn(cfg: Config, b: Balancer)
    requires b.over != []
    ensures ScheduledState(cfg, b, 0) == b
  {
    NotYetTurned(b.over);
    NotYetTurned(b.idle);
  }

  // ---------- Without overloaded hosts ----------

  // MAIN: while no host is overloaded, picks go round the idle queue and count.
  lemma {:induction false} PicksGoRound(cfg: Config, b: Balancer, n: nat)
    requires b.over == [] && b.idle != []
    ensures Picked(cfg, b, n) == b.(access := b.access + n, idle := TurnedTo(b.idle, n))
    ensures Nth(cfg, b, n) == Some(Turn(b.idle, n))
  {
    hide TurnedTo, Turn, Pick;
    if n == 0 {
      NotYetTurned(b.idle);
    } else {
      PicksGoRound(cfg, b, n - 1);
      TurnOnce(cfg, b, n - 1);
    }
    TurnOnce(cfg, b, n);
  }

  lemma NotYetTurned(s: seq<uint64>)
    ensures TurnedTo(s, 0) == s
  {
    if s != [] {
      Quotient(0, |s|, 0, 0);
    }
  }

  lemma TurnOnce(cfg: Config, b: Balancer, n: nat)
    requires b.over == [] && b.idle != []
    ensures TurnedTo(b.idle, n) != []
    ensures Pick(cfg, b.(access := b.access + n, idle := TurnedTo(b.idle, n)))
            == (b.(access := b.access + n + 1, idle := TurnedTo(b.idle, n + 1)), Some(Turn(b.idle, n)))
  {
    TurnStep(b.idle, n);
    hide TurnedTo, Turn, Rotated;
  }

  // MAIN: then among any idle-count picks in a row each idle host comes up exactly once.
  lemma SharedEvenly(cfg: Config, b: Balancer, from: nat, j: nat) returns (n: nat)
    requires b.over == [] && Distinct(b.idle) && j < |b.idle|
    ensures from <= n < from + |b.idle| && Nth(cfg, b, n) == Some(b.idle[j])
    ensures forall m: nat :: from <= m < from + |b.idle| && Nth(cfg, b, m) == Some(b.idle[j]) ==> m == n
  {
    n := NextWithRemainder(from, |b.idle|, j);
    PicksGoRound(cfg, b, n);
    forall m: nat | from <= m < from + |b.idle| && Nth(cfg, b, m) == Some(b.idle[j]) ensures m == n {
      PicksGoRound(cfg, b, m);
      SameTurn(b.idle, m, n);
      if m < n {
        SameRemainder(m, n, |b.idle|);
      } else if n < m {
        SameRemainder(n, m, |b.idle|);
      }
    }
  }

  // ---------- Nobody starves ----------

  // The pick at which the i-th probe happens.
  function ProbeTime(cfg: Config, access: int, i: nat): nat {
    Wait(cfg, access) + i * Period(cfg)
  }

  lemma ProbeAt(cfg: Config, access: int, i: nat)
    ensures IsProbe(cfg, access, ProbeTime(cfg, access, i))
    ensures Probes(cfg, access, ProbeTime(cfg, access, i)) == i
  {
    var q := Period(cfg);
    Quotient(i * q, q, i, 0);
    if i > 0 {
      Scale(i, q);
      Quotient(i * q - 1, q, i - 1, q - 1);
    }
  }

  lemma ProbeIsAt(cfg: Config, access: int, n: nat)
    requires IsProbe(cfg, access, n)
    ensures n == ProbeTime(cfg, access, Probes(cfg, access, n))
  {
    var q := Period(cfg);
    var i := (n - Wait(cfg, access)) / q;
    assert n - Wait(cfg, access) == i * q;
    if i > 0 {
      Scale(i, q);
      Quotient(i * q - 1, q, i - 1, q - 1);
    }
  }

  // How many picks bring round every overloaded host once.
  function Round(cfg: Config, hosts: nat): nat { hosts * Period(cfg) }

  lemma Multiples(x: nat, y: nat, q: nat)
    requires x <= y
    ensures 0 <= x * q <= y * q
  {
  }

  // The first number from i on that has remainder j.
  lemma NextWithRemainder(i: nat, size: nat, j: nat) returns (t: nat)
    requires j < size
    ensures i <= t < i + size && t % size == j
  {
    var q, k := i / size, i % size;
    assert i == q * size + k;
    if k <= j {
      t := i + (j - k);
      Quotient(t, size, q, j);
    } else {
      t := i + (j - k) + size;
      assert t == (q + 1) * size + j;
      Quotient(t, size, q + 1, j);
    }
  }

  lemma SameRemainder(i: nat, i': nat, size: nat)
    requires size > 0 && i < i' && i % size == i' % size
    ensures i' - i >= size
  {
    if i' - i < size {
      var q, k := i / size, i % size;
      assert i == q * size + k;
      if k + (i' - i) < size {
        Quotient(i', size, q, k + (i' - i));
      } else {
        assert i' == (q + 1) * size + (k + (i' - i) - size);
        Quotient(i', size, q + 1, k + (i' - i) - size);
      }
    }
  }

  lemma WithinWindow(d: nat, i: nat, t: nat, size: nat, q: nat)
    requires d <= i * q < d + q && i <= t < i + size
    ensures d <= t * q < d + size * q
  {
    assert t * q == i * q + (t - i) * q;
    Multiples(t - i, size - 1, q);
    assert size * q == (size - 1) * q + q;
  }

  // The next probe is less than a period away.
  lemma NextProbe(cfg: Config, access: int, from: nat)
    requires from >= Wait(cfg, access)
    ensures from <= ProbeTime(cfg, access, Probes(cfg, access, from)) < from + Period(cfg)
  {
    var d, q := from - Wait(cfg, access), Period(cfg);
    if d > 0 {
      var m := (d - 1) / q;
      assert d - 1 == m * q + (d - 1) % q;
      assert (m + 1) * q == m * q + q;
    }
  }

  // MAIN: once the first wait is over, every overloaded host is probed within any
  // |overload| * (probe_num + 1) picks in a row.
  lemma ProbedInEveryRound(cfg: Config, b: Balancer, from: nat, j: nat) returns (n: nat)
    requires j < |b.over| && from >= Wait(cfg, b.access)
    ensures from <= n < from + Round(cfg, |b.over|)
    ensures IsProbe(cfg, b.access, n) && Nth(cfg, b, n) == Some(b.over[j])
  {
    var i := Probes(cfg, b.access, from);
    NextProbe(cfg, b.access, from);
    var t := NextWithRemainder(i, |b.over|, j);
    n := ProbeTime(cfg, b.access, t);
    ProbeAt(cfg, b.access, t);
    hide Probes, IsProbe, Period, Wait;
    WithinWindow(from - Wait(cfg, b.access), i, t, |b.over|, Period(cfg));
    PicksFollowSchedule(cfg, b, n);
  }

  // MAIN: and never twice: two probes of the same host are at least that far apart.
  lemma ProbedOncePerRound(cfg: Config, b: Balancer, n: nat, n': nat)
    requires b.over != [] && Distinct(b.over) && n < n'
    requires IsProbe(cfg, b.access, n) && IsProbe(cfg, b.access, n')
    requires Nth(cfg, b, n) == Nth(cfg, b, n')
    ensures n' - n >= Round(cfg, |b.over|)
  {
    var i, i', q := Probes(cfg, b.access, n), Probes(cfg, b.access, n'), Period(cfg);
    ProbeIsAt(cfg, b.access, n);
    ProbeIsAt(cfg, b.access, n');
    PicksFollowSchedule(cfg, b, n);
    PicksFollowSchedule(cfg, b, n');
    hide Nth;
    SameTurn(b.over, i, i');
    assert n == Wait(cfg, b.access) + i * q && n' == Wait(cfg, b.access) + i' * q;
    assert Round(cfg, |b.over|) == |b.over| * q;
    hide *;
    RoundsApart(Wait(cfg, b.access), i, i', |b.over|, q);
  }

  lemma RoundsApart(w: nat, i: nat, i': nat, size: nat, q: nat)
    requires size > 0 && w + i * q < w + i' * q && i % size == i' % size
    ensures (w + i' * q) - (w + i * q) >= size * q
  {
    if i' <= i {
      Multiples(i', i, q);
    } else {
      SameRemainder(i, i', size);
      Multiples(size, i' - i, q);
      assert i' * q == i * q + (i' - i) * q;
    }
  }

  lemma SameTurn(s: seq<uint64>, i: nat, i': nat)
    requires s != [] && Distinct(s) && Turn(s, i) == Turn(s, i')
    ensures i % |s| == i' % |s|
  {
  }

  // The t-th pick that is no probe, when probes never follow each other.
  lemma {:induction false} OrdinaryPick(cfg: Config, access: int, from: nat, t: nat) returns (n: nat)
    requires cfg.probeNum > 0
    requires from - Probes(cfg, access, from) <= t
    ensures from <= n <= from + 2 * (t - (from - Probes(cfg, access, from))) + 1
    ensures !IsProbe(cfg, access, n) && n - Probes(cfg, access, n) == t
    decreases t - (from - Probes(cfg, access, from))
  {
    ProbesStep(cfg, access, from);
    ProbesStep(cfg, access, from + 1);
    hide Probes, IsProbe, AccessAt;
    n := if IsProbe(cfg, access, from) then from + 1 else from;
    if n - Probes(cfg, access, n) < t {
      n := OrdinaryPick(cfg, access, n + 1, t);
    }
  }

  // MAIN: nor does any idle host starve: with a positive probe_num each is picked within
  // any 2 * |idle| picks in a row, first wait or not.
  lemma ServedInEveryRound(cfg: Config, b: Balancer, from: nat, j: nat) returns (n: nat)
    requires cfg.probeNum > 0 && b.over != [] && j < |b.idle|
    ensures from <= n < from + 2 * |b.idle|
    ensures !IsProbe(cfg, b.access, n) && Nth(cfg, b, n) == Some(b.idle[j])
  {
    ProbesStep(cfg, b.access, from);
    var t := NextWithRemainder(from - Probes(cfg, b.access, from), |b.idle|, j);
    n := OrdinaryPick(cfg, b.access, from, t);
    PicksFollowSchedule(cfg, b, n);
    hide Probes, IsProbe, Nth;
  }

  // The host comes up at some pick from then on.
  ghost predicate ComesUp(cfg: Config, b: Balancer, host: uint64, from: nat)
    requires b.over != []
  {
    exists n: nat :: n >= from && Nth(cfg, b, n) == Some(host)
  }

  // MAIN: and exactly then: an idle host is picked again and again if and only if
  // probe_num is positive; otherwise every pick after the first wait is a probe.
  lemma IdleHostsServed(cfg: Config, b: Balancer, j: nat)
    requires b.over != [] && j < |b.idle| && b.idle[j] !in b.over
    ensures (forall from: nat :: ComesUp(cfg, b, b.idle[j], from)) <==> cfg.probeNum > 0
  {
    hide Probes, IsProbe, Turn, Nth;
    if cfg.probeNum > 0 {
      forall from: nat ensures ComesUp(cfg, b, b.idle[j], from) {
        var n := ServedInEveryRound(cfg, b, from, j);
      }
    } else {
      IdleHostsStarve(cfg, b.access);
      forall n: nat | n >= Wait(cfg, b.access) ensures Nth(cfg, b, n) != Some(b.idle[j]) {
        PicksFollowSchedule(cfg, b, n);
        assert IsProbe(cfg, b.access, n);
        TurnIsMember(b.over, Probes(cfg, b.access, n));
      }
      assert !ComesUp(cfg, b, b.idle[j], Wait(cfg, b.access));
    }
  }

  lemma TurnIsMember(s: seq<uint64>, x: nat)
    requires s != []
    ensures Turn(s, x) in s
  {
  }

  // With overloaded hosts present every pick after the first wait is a probe exactly when
  // probe_num is not positive.
  lemma IdleHostsStarve(cfg: Config, access: int)
    ensures (forall n: nat :: n >= Wait(cfg, access) ==> IsProbe(cfg, access, n)) <==> cfg.probeNum <= 0
  {
    var w := Wait(cfg, access);
    if cfg.probeNum > 0 {
      Quotient(1, Period(cfg), 0, 1);
      assert !IsProbe(cfg, access, w + 1);
    }
  }
}
