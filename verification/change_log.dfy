// The change log: web writers write route data, insert a change row and bump the version;
// the checking thread reads the version, reloads, publishes the changes and deletes them.
// Every query, swap and publication is one step; steps of all parties interleave freely.

module ChangeLog {
  import opened Words
  import opened DnsRoutes
  import opened Runs

  // A data write for a key, with the rows of the table afterwards.
  datatype Write = Write(key: uint64, rows: seq<Row>)

  // A change row: its key, its time stamp, and which data write it belongs to.
  datatype Change = Change(key: uint64, stamp: int, write: nat)

  // What a writer has done so far; it is forgotten after the third thing.
  datatype Stage = Written(key: uint64, write: nat) | Logged

  // Where the checking thread is. A refresh is the reload on a timeout, without changes. A
  // table loaded is the one that the first upTo writes have left.
  datatype Phase =
    | Idle
    | Polled
    | Loaded(upTo: nat, table: RouteMap)
    | Shown
    | Listed(rows: set<Change>)
    | Published
    | Refreshed(upTo: nat, table: RouteMap)

  // A change row as it was published: with the table that readers saw then.
  datatype Told = Told(change: Change, upTo: nat, table: RouteMap)

  // version is the row of RouteVersion, seen the copy in the checking thread. The table
  // that readers see is the one that the first visible writes have left. clock is the
  // latest time stamp used. logged and told are history: all change rows ever inserted,
  // and those published.
  datatype State = State(
    initial: seq<Row>,
    writes: seq<Write>,
    writers: map<nat, Stage>,
    changes: set<Change>,
    version: int,
    clock: int,
    phase: Phase,
    seen: int,
    visible: nat,
    table: RouteMap,
    logged: set<Change>,
    told: set<Told>)

  datatype Step =
    | WriteData(writer: nat, key: uint64, rows: seq<Row>)
    | InsertChange(writer: nat, stamp: int)
    | BumpVersion(writer: nat, stamp: int)
    | Poll
    | Load
    | LoadFails
    | Show
    | List
    | ListFails
    | Publish
    | Delete
    | DeleteFails
    | Expire

  // The change rows up to the version that the checking thread has seen.
  function Due(s: State): set<Change> {
    set c | c in s.changes && c.stamp <= s.seen
  }

  predicate Enabled(s: State, step: Step) {
    match step
    case WriteData(w, _, _) => w !in s.writers
    case InsertChange(w, _) => w in s.writers && s.writers[w].Written?
    case BumpVersion(w, _) => w in s.writers && s.writers[w].Logged?
    case Poll => s.phase.Idle?
    case Load => s.phase.Polled?
    case LoadFails => s.phase.Polled?
    case Show => s.phase.Loaded? || s.phase.Refreshed?
    case List => s.phase.Shown?
    case ListFails => s.phase.Shown?
    case Publish => s.phase.Listed?
    case Delete => s.phase.Published?
    case DeleteFails => s.phase.Published?
    case Expire => s.phase.Idle?
  }

  // The rows of the table after some of the writes.
  function RowsAfter(s: State, n: nat): seq<Row>
    requires n <= |s.writes|
  {
    if n == 0 then s.initial else s.writes[n - 1].rows
  }

  function TableNow(s: State): RouteMap { Scan(RowsAfter(s, |s.writes|)) }

  function Later(x: int, y: int): int { if x >= y then x else y }

  function Next(s: State, step: Step): State
    requires Enabled(s, step)
  {
    match step
    case WriteData(w, key, rows) =>
      s.(writes := s.writes + [Write(key, rows)], writers := s.writers[w := Written(key, |s.writes|)])
    case InsertChange(w, stamp) =>
      var c := Change(s.writers[w].key, stamp, s.writers[w].write);
      s.(changes := s.changes + {c}, logged := s.logged + {c}, clock := Later(s.clock, stamp),
         writers := s.writers[w := Logged])
    case BumpVersion(w, stamp) => s.(version := stamp, clock := Later(s.clock, stamp), writers := s.writers - {w})
    case Poll => if s.version == s.seen then s else s.(seen := s.version, phase := Polled)
    case Load => s.(phase := Loaded(|s.writes|, TableNow(s)))
    case LoadFails => s.(phase := Shown)
    case Show =>
      s.(visible := s.phase.upTo, table := s.phase.table, phase := if s.phase.Loaded? then Shown else Idle)
    case List => s.(phase := Listed(Due(s)))
    case ListFails => s.(phase := Listed({}))
    case Publish => s.(told := s.told + (set c | c in s.phase.rows :: Told(c, s.visible, s.table)), phase := Published)
    case Delete => s.(changes := s.changes - Due(s), phase := Idle)
    case DeleteFails => s.(phase := Idle)
    case Expire => s.(phase := Refreshed(|s.writes|, TableNow(s)))
  }

  // ---------- Runs ----------

  // After the purge at startup: no change rows, writers at any stage, and the table that
  // was loaded before the version was read again.
  predicate Purged(s: State) {
    && s.changes == {} && s.logged == {} && s.told == {} && s.phase == Idle
    && IsTable(s, s.visible, s.table)
    && s.seen <= s.clock && s.version <= s.clock
    && (forall w :: w in s.writers && s.writers[w].Written? ==> s.writers[w].write < |s.writes|)
    && Alone(s)
  }

  // ---------- What the protocol promises ----------

  // Every change row ever inserted is still there or has been published, and each was
  // published when readers saw the whole table as it was at some point after its data
  // write.
  predicate Safe(s: State) {
    && (forall c :: c in s.logged ==> c in s.changes || exists p :: p in s.told && p.change == c)
    && (forall p :: p in s.told ==> Covers(s, p))
  }

  predicate Covers(s: State, p: Told) {
    p.change.write < p.upTo && IsTable(s, p.upTo, p.table)
  }

  // The queries that a round depends on succeed; a failed deletion does no harm.
  predicate Succeeds(step: Step) {
    !step.LoadFails? && !step.ListFails?
  }

  // A change row that comes between loading the data and deleting the rows has a later
  // stamp than the seen version; until the rows are listed, having written the data
  // before the load does as well.
  predicate Timely(s: State, step: Step)
    requires Enabled(s, step)
  {
    step.InsertChange? ==>
      step.stamp > s.seen ||
      match s.phase
      case Loaded(n, _) => s.writers[step.writer].write < n
      case Shown => s.writers[step.writer].write < s.visible
      case Listed(_) => false
      case Published => false
      case _ => true
  }

  ghost predicate AllTimely(s: State, steps: seq<Step>)
    requires Legal(Next, s, steps)
    decreases |steps|
  {
    steps == [] || (Succeeds(steps[0]) && Timely(s, steps[0]) && AllTimely(Next(s, steps[0]), steps[1..]))
  }

  // No stamp is used twice.
  predicate Fresh(s: State, step: Step) {
    (step.InsertChange? || step.BumpVersion?) ==> step.stamp > s.clock
  }

  ghost predicate AllFresh(s: State, steps: seq<Step>)
    requires Legal(Next, s, steps)
    decreases |steps|
  {
    steps == [] || (Succeeds(steps[0]) && Fresh(s, steps[0]) && AllFresh(Next(s, steps[0]), steps[1..]))
  }

  // ---------- The invariant behind it ----------

  predicate Placed(s: State) {
    && (forall w :: w in s.writers && s.writers[w].Written? ==> s.writers[w].write < |s.writes|)
    && (forall c :: c in s.logged ==> c.write < |s.writes|)
    && s.changes <= s.logged
    && (forall p :: p in s.told ==> p.change in s.logged)
    && (s.phase.Listed? ==> s.phase.rows <= s.logged)
    && s.seen <= s.clock && s.version <= s.clock
  }

  // The tables that readers see and that has been loaded are whole.
  predicate Tabled(s: State) {
    && IsTable(s, s.visible, s.table)
    && (s.phase.Loaded? || s.phase.Refreshed? ==> IsTable(s, s.phase.upTo, s.phase.table))
  }

  predicate IsTable(s: State, n: nat, t: RouteMap) {
    n <= |s.writes| && t == Scan(RowsAfter(s, n))
  }

  predicate Sane(s: State) {
    Placed(s) && Tabled(s)
  }

  // A writer that has not inserted its change row yet is alone with its data write.
  predicate Alone(s: State) {
    && (forall w, c :: w in s.writers && s.writers[w].Written? && c in s.logged ==> c.write != s.writers[w].write)
    && (forall w, w' :: w in s.writers && w' in s.writers && w != w' && s.writers[w].Written? && s.writers[w'].Written?
                        ==> s.writers[w].write != s.writers[w'].write)
  }

  // Between the load and the deletion the rows that are due are those the load covers,
  // and listing and publishing miss none.
  predicate Covered(s: State) {
    match s.phase
    case Loaded(n, _) => forall c :: c in Due(s) ==> c.write < n
    case Shown => forall c :: c in Due(s) ==> c.write < s.visible
    case Listed(rows) => rows == Due(s) && forall c :: c in rows ==> c.write < s.visible
    case Published => forall c :: c in Due(s) ==> exists p :: p in s.told && p.change == c
    case _ => true
  }

  predicate Invariant(s: State) {
    Sane(s) && Alone(s) && Covered(s) && Safe(s)
  }

  lemma NextKeepsSane(s: State, step: Step)
    requires Sane(s) && Alone(s) && Enabled(s, step)
    ensures Sane(Next(s, step)) && Alone(Next(s, step))
  {
    hide Placed, Tabled, Alone, Next, Enabled;
    NextKeepsPlaced(s, step);
    NextKeepsTables(s, step);
  }

  lemma NextKeepsPlaced(s: State, step: Step)
    requires Placed(s) && Alone(s) && Enabled(s, step)
    ensures Placed(Next(s, step)) && Alone(Next(s, step))
  {
    hide Scan, RowsAfter, TableNow;
  }

  // Writes are only added, so a table stays that of its writes.
  lemma TablesStay(s: State, step: Step, n: nat, t: RouteMap)
    requires Enabled(s, step)
    ensures |s.writes| <= |Next(s, step).writes|
    ensures n <= |s.writes| ==> (IsTable(Next(s, step), n, t) <==> IsTable(s, n, t))
  {
    hide Scan, Due;
  }

  lemma NextKeepsTables(s: State, step: Step)
    requires Tabled(s) && Enabled(s, step)
    ensures Tabled(Next(s, step))
  {
    TablesStay(s, step, s.visible, s.table);
    TablesStay(s, step, |s.writes|, TableNow(s));
    if s.phase.Loaded? || s.phase.Refreshed? {
      TablesStay(s, step, s.phase.upTo, s.phase.table);
    }
    assert IsTable(s, |s.writes|, TableNow(s));
    hide IsTable, Due, TableNow;
  }

  lemma NextKeepsCovered(s: State, step: Step)
    requires Sane(s) && Covered(s) && Enabled(s, step) && Succeeds(step) && Timely(s, step)
    ensures Covered(Next(s, step))
  {
    var s' := Next(s, step);
    match step
    case WriteData(_, _, _) => assert Due(s') == Due(s);
    case BumpVersion(_, _) => assert Due(s') == Due(s);
    case InsertChange(w, stamp) =>
      var c := Change(s.writers[w].key, stamp, s.writers[w].write);
      assert forall d :: d in Due(s') ==> d in Due(s) || (d == c && stamp <= s.seen);
      if stamp > s.seen {
        assert Due(s') == Due(s);
      }
    case Publish =>
      assert Due(s') == s.phase.rows;
      forall c | c in Due(s') ensures exists p :: p in s'.told && p.change == c {
        assert Told(c, s.visible, s.table) in s'.told;
      }
    case _ =>
  }

  lemma NextKeepsSafe(s: State, step: Step)
    requires Sane(s) && Covered(s) && Safe(s) && Enabled(s, step) && Succeeds(step)
    ensures Safe(Next(s, step))
  {
    NextKeepsTold(s, step);
    hide Scan, Covers, TableNow, RowsAfter, IsTable;
    var s' := Next(s, step);
    assert forall p :: p in s.told ==> p in s'.told;
    forall c | c in s'.logged ensures c in s'.changes || exists p :: p in s'.told && p.change == c {
      if c in s.logged && c !in s.changes {
        var p :| p in s.told && p.change == c;
        assert p in s'.told;
      }
    }
  }

  lemma NextKeepsTold(s: State, step: Step)
    requires Sane(s) && Covered(s) && Safe(s) && Enabled(s, step) && Succeeds(step)
    ensures forall p :: p in Next(s, step).told ==> Covers(Next(s, step), p)
  {
    hide Scan, Due;
    var s' := Next(s, step);
    forall p | p in s'.told ensures Covers(s', p) {
      TablesStay(s, step, p.upTo, p.table);
      if p !in s.told {
        assert p.upTo == s.visible && p.table == s.table;
      } else {
        assert Covers(s, p);
      }
    }
  }

  // MAIN: under any interleaving in which the queries succeed and change rows are timely,
  // no change row is lost and none is published before its data shows.
  lemma {:induction false} TimelyRunsAreSafe(s: State, steps: seq<Step>)
    requires Invariant(s) && Legal(Next, s, steps) && AllTimely(s, steps)
    ensures Invariant(After(Next, s, steps))
    decreases |steps|
  {
    if steps != [] {
      NextKeepsSane(s, steps[0]);
      NextKeepsCovered(s, steps[0]);
      NextKeepsSafe(s, steps[0]);
      assert Invariant(Next(s, steps[0]));
      hide Invariant, Enabled, Next;
      TimelyRunsAreSafe(Next(s, steps[0]), steps[1..]);
    }
  }

  // ---------- What readers see ----------

  // A table under way is at least as new as the one that readers see.
  predicate Advancing(s: State) {
    s.visible <= |s.writes|
    && (s.phase.Loaded? || s.phase.Refreshed? ==> s.visible <= s.phase.upTo <= |s.writes|)
  }

  // MAIN: whatever fails and whatever the stamps, readers never go back to older data.
  lemma {:induction false} ReadersNeverGoBack(s: State, steps: seq<Step>)
    requires Advancing(s) && Legal(Next, s, steps)
    ensures s.visible <= After(Next, s, steps).visible && Advancing(After(Next, s, steps))
    decreases |steps|
  {
    hide TableNow, Due;
    if steps != [] {
      assert s.visible <= Next(s, steps[0]).visible && Advancing(Next(s, steps[0]));
      hide Next, Enabled;
      ReadersNeverGoBack(Next(s, steps[0]), steps[1..]);
    }
  }

  lemma {:induction false} ReloadWaits(s: State, between: seq<Step>)
    requires (s.phase.Loaded? || s.phase.Refreshed?) && Legal(Next, s, between) && Show !in between
    ensures After(Next, s, between).phase == s.phase
    decreases |between|
  {
    hide TableNow, Due;
    if between != [] {
      assert between[0] in between && (forall step :: step in between[1..] ==> step in between);
      assert Next(s, between[0]).phase == s.phase;
      hide Next, Enabled;
      ReloadWaits(Next(s, between[0]), between[1..]);
    }
  }

  // MAIN: a reload, for a change or after a while without one, shows the table as it was
  // when it began, whatever writers do before it is shown.
  lemma ReloadShows(s: State, first: Step, between: seq<Step>)
    requires (first == Load || first == Expire) && Enabled(s, first) && Show !in between
    requires Legal(Next, Next(s, first), between)
    ensures var s' := After(Next, Next(s, first), between);
            && Enabled(s', Show)
            && var shown := Next(s', Show);
               shown.visible == |s.writes| && shown.table == Scan(RowsAfter(s, |s.writes|))
               && shown.phase == if first == Load then Shown else Idle
  {
    ReloadWaits(Next(s, first), between);
  }

  // A round that nothing comes between: with another version than the one seen, all rows
  // stamped up to it are published over the current data and deleted; with the same,
  // nothing happens.
  lemma RoundAlone(s: State)
    requires s.phase == Idle
    ensures Legal(Next, s, [Poll])
    ensures s.version == s.seen ==> After(Next, s, [Poll]) == s
    ensures s.version != s.seen ==>
              var steps, rows := [Poll, Load, Show, List, Publish, Delete],
                                 set c | c in s.changes && c.stamp <= s.version;
              && Legal(Next, s, steps)
              && After(Next, s, steps) ==
                 s.(seen := s.version, visible := |s.writes|, table := TableNow(s), changes := s.changes - rows,
                    told := s.told + set c | c in rows :: Told(c, |s.writes|, TableNow(s)))
  {
    hide Next, TableNow, Due, Enabled;
    ReachShown(s);
    var s1 := Next(s, Poll);
    assert Legal(Next, s1, []);
    Cons(Next, s, Poll, []);
    assert [Poll] + [] == [Poll];
    if s.version != s.seen {
      var s3 := Next(Next(s1, Load), Show);
      FromShown(s3);
      SixSteps(s, s1, Next(s1, Load), s3, Next(s3, List), Next(Next(s3, List), Publish),
               Next(Next(Next(s3, List), Publish), Delete));
    }
  }

  lemma ReachShown(s: State)
    requires s.phase == Idle
    ensures Enabled(s, Poll) && (s.version == s.seen ==> Next(s, Poll) == s)
    ensures s.version != s.seen ==>
              var s1 := Next(s, Poll);
              Enabled(s1, Load) && Enabled(Next(s1, Load), Show)
              && Next(Next(s1, Load), Show) ==
                 s.(seen := s.version, visible := |s.writes|, table := TableNow(s), phase := Shown)
  {
    hide TableNow, Due;
    if s.version != s.seen {
      var s1 := s.(seen := s.version, phase := Polled);
      assert Next(s, Poll) == s1;
      TableStays(s, s1);
    }
  }

  lemma TableStays(s: State, s': State)
    requires s'.initial == s.initial && s'.writes == s.writes
    ensures TableNow(s') == TableNow(s)
  {
    hide Scan;
  }

  lemma FromShown(s: State)
    requires s.phase == Shown
    ensures var rows := set c | c in s.changes && c.stamp <= s.seen;
            var s4 := Next(s, List);
            && Enabled(s, List) && Enabled(s4, Publish) && Enabled(Next(s4, Publish), Delete)
            && Next(Next(s4, Publish), Delete) ==
               s.(changes := s.changes - rows, told := s.told + set c | c in rows :: Told(c, s.visible, s.table),
                  phase := Idle)
  {
    hide TableNow;
    var s4 := s.(phase := Listed(Due(s)));
    assert Next(s, List) == s4;
    var s5 := s4.(told := s4.told + (set c | c in Due(s) :: Told(c, s.visible, s.table)), phase := Published);
    assert Next(s4, Publish) == s5;
    assert Due(s5) == Due(s);
  }

  lemma SixSteps(s: State, s1: State, s2: State, s3: State, s4: State, s5: State, s6: State)
    requires Enabled(s, Poll) && s1 == Next(s, Poll) && Enabled(s1, Load) && s2 == Next(s1, Load)
    requires Enabled(s2, Show) && s3 == Next(s2, Show) && Enabled(s3, List) && s4 == Next(s3, List)
    requires Enabled(s4, Publish) && s5 == Next(s4, Publish) && Enabled(s5, Delete) && s6 == Next(s5, Delete)
    ensures var steps := [Poll, Load, Show, List, Publish, Delete];
            Legal(Next, s, steps) && After(Next, s, steps) == s6
  {
    hide Next, Enabled;
    assert Legal(Next, s6, []);
    Cons(Next, s5, Delete, []);
    Cons(Next, s4, Publish, [Delete] + []);
    Cons(Next, s3, List, [Publish] + ([Delete] + []));
    Cons(Next, s2, Show, [List] + ([Publish] + ([Delete] + [])));
    Cons(Next, s1, Load, [Show] + ([List] + ([Publish] + ([Delete] + []))));
    Cons(Next, s, Poll, [Load] + ([Show] + ([List] + ([Publish] + ([Delete] + [])))));
    assert [Poll] + ([Load] + ([Show] + ([List] + ([Publish] + ([Delete] + []))))) ==
           [Poll, Load, Show, List, Publish, Delete];
  }

  // What is left of the round.
  function RestOf(p: Phase): seq<Step>
    requires p.Loaded? || p.Shown? || p.Listed? || p.Published?
  {
    match p
    case Loaded(_, _) => [Show, List, Publish]
    case Shown => [List, Publish]
    case Listed(_) => [Publish, Delete]
    case Published => [Delete]
  }

  // MAIN, the other half: one change row that is not timely spoils the round it falls
  // into, even though every query of it succeeds.
  lemma UntimelyIsUnsafe(s: State, w: nat, stamp: int)
    requires Invariant(s) && Enabled(s, InsertChange(w, stamp)) && !Timely(s, InsertChange(w, stamp))
    ensures var s' := Next(s, InsertChange(w, stamp));
            Legal(Next, s', RestOf(s.phase)) && !Safe(After(Next, s', RestOf(s.phase)))
  {
    var c := Change(s.writers[w].key, stamp, s.writers[w].write);
    var s' := Next(s, InsertChange(w, stamp));
    assert c in Due(s') && c !in s.logged;
    match s.phase
    case Loaded(_, _) =>
      var shown := Next(s', Show);
      assert Due(shown) == Due(s');
      assert [Show, List, Publish][1..] == [List, Publish];
      ToldTooEarly(shown, c);
    case Shown => ToldTooEarly(s', c);
    case Listed(_) =>
      assert [Publish, Delete][1..] == [Delete];
      DeletedUntold(Next(s', Publish), c);
    case Published => DeletedUntold(s', c);
  }

  lemma ToldTooEarly(s: State, c: Change)
    requires s.phase == Shown && c in Due(s) && c.write >= s.visible
    ensures Legal(Next, s, [List, Publish]) && !Safe(After(Next, s, [List, Publish]))
  {
    var s1 := Next(s, List);
    var s2 := Next(s1, Publish);
    assert [List, Publish][1..] == [Publish] && [Publish][1..] == [];
    assert Legal(Next, s2, []) && Legal(Next, s1, [Publish]) && After(Next, s1, [Publish]) == s2;
    var p := Told(c, s.visible, s.table);
    assert p in s2.told && !Covers(s2, p);
  }

  lemma DeletedUntold(s: State, c: Change)
    requires s.phase == Published && c in Due(s) && c in s.logged && forall p :: p in s.told ==> p.change != c
    ensures Legal(Next, s, [Delete]) && !Safe(After(Next, s, [Delete]))
  {
    assert [Delete][1..] == [];
    assert Legal(Next, Next(s, Delete), []) && After(Next, s, [Delete]) == Next(s, Delete);
  }

  // A failed load or listing spoils its round exactly when a row is due that it would
  // have served.
  lemma FailuresAreUnsafe(s: State)
    requires Invariant(s) && (s.phase == Polled || s.phase == Shown)
    ensures s.phase == Polled ==>
              (Safe(AfterFailedLoad(s)) <==> forall c :: c in Due(s) ==> c.write < s.visible)
    ensures s.phase == Shown ==>
              (Safe(AfterFailedList(s)) <==> forall c :: c in Due(s) ==> exists p :: p in s.told && p.change == c)
  {
    hide Scan, RowsAfter;
    if s.phase == Polled {
      FailedLoad(s);
    } else {
      FailedList(s);
    }
  }

  // The rest of a round whose load, or whose listing, has failed.
  function AfterFailedLoad(s: State): State
    requires s.phase == Polled
  {
    Next(Next(Next(s, LoadFails), List), Publish)
  }

  function AfterFailedList(s: State): State
    requires s.phase == Shown
  {
    Next(Next(Next(s, ListFails), Publish), Delete)
  }

  lemma FailedLoad(s: State)
    requires Invariant(s) && s.phase == Polled
    ensures Safe(AfterFailedLoad(s)) <==> forall c :: c in Due(s) ==> c.write < s.visible
  {
    hide Scan;
    var s' := AfterFailedLoad(s);
    assert Due(Next(s, LoadFails)) == Due(s);
    assert s'.told == s.told + set c | c in Due(s) :: Told(c, s.visible, s.table);
    forall c | c in Due(s) ensures Told(c, s.visible, s.table) in s'.told {
    }
    assert forall p :: p in s.told ==> p in s'.told;
    assert forall n, t :: IsTable(s', n, t) <==> IsTable(s, n, t);
    assert forall c :: Covers(s', Told(c, s.visible, s.table)) <==> c.write < s.visible;
  }

  lemma FailedList(s: State)
    requires Invariant(s) && s.phase == Shown
    ensures Safe(AfterFailedList(s)) <==> forall c :: c in Due(s) ==> exists p :: p in s.told && p.change == c
  {
    hide Scan;
    var s' := AfterFailedList(s);
    assert s'.told == s.told;
    assert Due(Next(Next(s, ListFails), Publish)) == Due(s);
    assert s'.changes == s.changes - Due(s);
    assert forall p :: p in s.told ==> (Covers(s', p) <==> Covers(s, p));
  }

  // ---------- Increasing stamps ----------

  // Nothing that has a stamp is ahead of the clock; a version bump catches up with all
  // rows inserted before it; and a round leaves only rows later than what it has seen.
  predicate InOrder(s: State) {
    && (forall c :: c in s.changes ==> c.stamp <= s.clock)
    && ((forall w :: w in s.writers ==> s.writers[w].Written?) ==> forall c :: c in s.changes ==> c.stamp <= s.version)
    && (s.phase.Idle? || s.phase.Refreshed? ==> forall c :: c in s.changes ==> c.stamp > s.seen)
  }

  lemma NextKeepsOrder(s: State, step: Step)
    requires Sane(s) && InOrder(s) && Enabled(s, step) && Fresh(s, step) && !step.DeleteFails?
    ensures InOrder(Next(s, step))
  {
    var s' := Next(s, step);
    if step.InsertChange? {
      assert step.writer in s'.writers && s'.writers[step.writer].Logged?;
    } else if step.WriteData? {
      assert forall w :: w in s.writers ==> w in s'.writers && s'.writers[w] == s.writers[w];
    }
  }

  lemma FreshIsTimely(s: State, step: Step)
    requires Sane(s) && Enabled(s, step) && Fresh(s, step)
    ensures Timely(s, step)
  {
  }

  // Strictly increasing stamps are timely throughout.
  lemma {:induction false} FreshRunsAreTimely(s: State, steps: seq<Step>)
    requires Sane(s) && Alone(s) && Legal(Next, s, steps) && AllFresh(s, steps)
    ensures AllTimely(s, steps)
    decreases |steps|
  {
    if steps != [] {
      NextKeepsSane(s, steps[0]);
      FreshIsTimely(s, steps[0]);
      hide Sane, Alone, Enabled, Next, Timely, Fresh;
      FreshRunsAreTimely(Next(s, steps[0]), steps[1..]);
    }
  }

  // MAIN: so from the purge on, with strictly increasing stamps, every run is safe.
  lemma FreshRunsAreSafe(s: State, steps: seq<Step>)
    requires Purged(s) && Legal(Next, s, steps) && AllFresh(s, steps)
    ensures Safe(After(Next, s, steps))
  {
    FreshRunsAreTimely(s, steps);
    TimelyRunsAreSafe(s, steps);
  }

  lemma {:induction false} FreshRunsStayInOrder(s: State, steps: seq<Step>)
    requires Sane(s) && Alone(s) && InOrder(s) && Legal(Next, s, steps) && AllFresh(s, steps)
    requires forall i :: 0 <= i < |steps| ==> !steps[i].DeleteFails?
    ensures InOrder(After(Next, s, steps))
    decreases |steps|
  {
    if steps != [] {
      NextKeepsSane(s, steps[0]);
      NextKeepsOrder(s, steps[0]);
      hide Sane, Alone, Enabled, Next, InOrder, Fresh;
      FreshRunsStayInOrder(Next(s, steps[0]), steps[1..]);
    }
  }

  // MAIN: once the thread has seen the current version and is idle again, and no writer
  // stands between its change row and its version bump, every change row ever inserted
  // has been published over a table that shows its data, and none is left.
  lemma NothingIsLeft(s: State, steps: seq<Step>)
    requires Purged(s) && Legal(Next, s, steps) && AllFresh(s, steps)
    requires forall i :: 0 <= i < |steps| ==> !steps[i].DeleteFails?
    ensures var s' := After(Next, s, steps);
            s'.phase.Idle? && s'.seen == s'.version && (forall w :: w in s'.writers ==> s'.writers[w].Written?) ==>
              s'.changes == {}
              && forall c :: c in s'.logged ==> exists p :: p in s'.told && p.change == c && Covers(s', p)
  {
    FreshRunsAreSafe(s, steps);
    FreshRunsStayInOrder(s, steps);
    var s' := After(Next, s, steps);
    hide After, AllFresh, Legal;
    if s'.phase.Idle? && s'.seen == s'.version && (forall w :: w in s'.writers ==> s'.writers[w].Written?) {
      assert forall c :: c in s'.changes ==> c.stamp <= s'.version && c.stamp > s'.seen;
      assert s'.changes == {};
      forall c | c in s'.logged ensures exists p :: p in s'.told && p.change == c && Covers(s', p) {
        var p :| p in s'.told && p.change == c;
        assert Covers(s', p);
      }
    }
  }

  // Stamps count seconds, and two steps can fall into one: a row inserted in the second
  // of the version just seen, after the listing, is deleted without having been told.
  lemma SameSecondLoses(s: State, key: uint64, rows: seq<Row>)
    requires Purged(s) && s.writers == map[] && s.seen < s.version == s.clock
    ensures var steps := [Poll, Load, Show, List]
                         + ([WriteData(0, key, rows), InsertChange(0, s.version)] + [Publish, Delete]);
            && Legal(Next, s, steps) && !Safe(After(Next, s, steps))
            && forall i :: 0 <= i < |steps| ==> Succeeds(steps[i])
  {
    hide Next, Enabled, Safe, Legal, After, TableNow, RowsAfter;
    var listed := s.(seen := s.version, visible := |s.writes|, table := TableNow(s), phase := Listed({}));
    var end := [WriteData(0, key, rows), InsertChange(0, s.version)] + [Publish, Delete];
    ReachListed(s, listed);
    TableIsRows(s, listed);
    hide Purged;
    SpoilRound(listed, key, rows);
    Append(Next, s, [Poll, Load, Show, List], end);
  }

  lemma TableIsRows(s: State, s': State)
    requires s'.initial == s.initial && s'.writes == s.writes
    ensures TableNow(s) == Scan(RowsAfter(s', |s.writes|))
  {
    hide Scan;
  }

  lemma SpoilRound(s: State, key: uint64, rows: seq<Row>)
    requires s.phase == Listed({}) && s.writers == map[] && s.seen == s.version == s.clock
    requires s.changes == s.logged == {} && s.told == {} && s.visible <= |s.writes|
    requires s.table == Scan(RowsAfter(s, s.visible))
    ensures var steps := [WriteData(0, key, rows), InsertChange(0, s.version)] + [Publish, Delete];
            Legal(Next, s, steps) && !Safe(After(Next, s, steps))
  {
    hide Next, Enabled, Invariant, Safe, Timely, Legal, After, Due;
    WriteBetween(s, key, rows);
    var insert := InsertChange(0, s.version);
    var s1 := Next(s, WriteData(0, key, rows));
    UntimelyIsUnsafe(s1, 0, s.version);
    Cons(Next, s1, insert, [Publish, Delete]);
    Cons(Next, s, WriteData(0, key, rows), [insert] + [Publish, Delete]);
    assert [WriteData(0, key, rows)] + ([insert] + [Publish, Delete])
        == [WriteData(0, key, rows), insert] + [Publish, Delete];
  }

  lemma WriteBetween(s: State, key: uint64, rows: seq<Row>)
    requires s.phase == Listed({}) && s.writers == map[] && s.seen == s.version == s.clock
    requires s.changes == s.logged == {} && s.told == {} && IsTable(s, s.visible, s.table)
    ensures Enabled(s, WriteData(0, key, rows))
    ensures var s1, insert := Next(s, WriteData(0, key, rows)), InsertChange(0, s.version);
            Invariant(s1) && Enabled(s1, insert) && !Timely(s1, insert) && RestOf(s1.phase) == [Publish, Delete]
  {
    hide Scan;
    TablesStay(s, WriteData(0, key, rows), s.visible, s.table);
    hide IsTable;
    assert Due(Next(s, WriteData(0, key, rows))) == {};
  }

  lemma ReachListed(s: State, listed: State)
    requires s.phase == Idle && s.changes == {} && s.seen != s.version
    requires listed == s.(seen := s.version, visible := |s.writes|, table := TableNow(s), phase := Listed({}))
    ensures Legal(Next, s, [Poll, Load, Show, List]) && After(Next, s, [Poll, Load, Show, List]) == listed
  {
    var s1 := Next(s, Poll);
    var s2 := Next(s1, Load);
    var s3 := Next(s2, Show);
    assert Due(s3) == {} && Next(s3, List) == listed;
    assert Legal(Next, listed, []);
    Cons(Next, s3, List, []);
    Cons(Next, s2, Show, [List]);
    Cons(Next, s1, Load, [Show] + [List]);
    Cons(Next, s, Poll, [Load] + ([Show] + [List]));
    assert [List] + [] == [List];
    assert [Poll] + ([Load] + ([Show] + [List])) == [Poll, Load, Show, List];
  }
}
