// The route cache of the DNS service: two tables, one visible to readers while the other
// is filled row by row.

module DnsRoutes {
  import opened Runs
  import opened Words

  // One row of RouteData, its columns read as ints.
  datatype Row = Row(modid: int32, cmdid: int32, ip: int32, port: int32)

  type RouteMap = map<uint64, set<uint64>>

  function RowKey(r: Row): uint64 { Key(r.modid, r.cmdid) }

  // The ip is unsigned, so it does not extend its sign: ((uint64_t)ip << 32) + port.
  function RowValue(r: Row): uint64 { Add(Shift(AsUint32(r.ip)), Extend(r.port)) }

  // map[key].insert(value)
  function Insert(m: RouteMap, r: Row): RouteMap {
    var k := RowKey(r);
    m[k := (if k in m then m[k] else {}) + {RowValue(r)}]
  }

  // What loading rows one by one into an empty table makes.
  function Scan(rows: seq<Row>): RouteMap {
    if rows == [] then map[] else Insert(Scan(rows[..|rows| - 1]), rows[|rows| - 1])
  }

  // What a reader finds in a table.
  function Find(m: RouteMap, key: uint64): set<uint64> {
    if key in m then m[key] else {}
  }

  // The hosts that rows give for a pair.
  function HostsOf(rows: seq<Row>, modid: int32, cmdid: int32): set<uint64> {
    set r | r in rows && r.modid == modid && r.cmdid == cmdid :: RowValue(r)
  }

  lemma {:induction false} ScanFindsRows(rows: seq<Row>, modid: int32, cmdid: int32)
    ensures Find(Scan(rows), Key(modid, cmdid)) == HostsOf(rows, modid, cmdid)
    ensures Key(modid, cmdid) in Scan(rows) <==> exists r :: r in rows && r.modid == modid && r.cmdid == cmdid
  {
    if rows != [] {
      var init, last := rows[..|rows| - 1], rows[|rows| - 1];
      ScanFindsRows(init, modid, cmdid);
      assert forall r :: r in rows <==> r in init || r == last;
      KeyInjective(last.modid, last.cmdid, modid, cmdid);
      hide Key, RowValue;
    }
  }

  // The rows in which a push takes a host apart again: its ip always comes back when the
  // port is not negative, and its port always.
  lemma ValueDecodes(r: Row)
    ensures Low(RowValue(r)) == r.port
    ensures High(RowValue(r)) == r.ip <==> r.port >= 0
  {
    assert Shift(AsUint32(r.ip)) == Shift(Extend(r.ip));
    assert RowValue(r) == Key(r.ip, r.port);
    DecodeRecovers(r.ip, r.port);
  }

  // ---------- Loading beside readers ----------

  // The visible table and the other one.
  datatype Cache = Cache(data: RouteMap, temp: RouteMap)

  // Where the loader is: the rows of its query and how many it has put in place.
  datatype Loader = Waiting | Loading(rows: seq<Row>, done: nat)

  // The steps of the loader. Readers change nothing and come between any two of them.
  datatype Step =
    | Begin(rows: seq<Row>)
    | BeginFails
    | LoadRow
    | Swap

  datatype State = State(cache: Cache, loader: Loader)

  predicate Enabled(s: State, step: Step) {
    match step
    case Begin(_) => s.loader.Waiting?
    case BeginFails => s.loader.Waiting?
    case LoadRow => s.loader.Loading? && s.loader.done < |s.loader.rows|
    case Swap => s.loader.Loading? && s.loader.done == |s.loader.rows|
  }

  function Next(s: State, step: Step): State
    requires Enabled(s, step)
  {
    match step
    case Begin(rows) => State(Cache(s.cache.data, map[]), Loading(rows, 0))
    case BeginFails => State(Cache(s.cache.data, map[]), Waiting)
    case LoadRow =>
      State(Cache(s.cache.data, Insert(s.cache.temp, s.loader.rows[s.loader.done])),
            Loading(s.loader.rows, s.loader.done + 1))
    case Swap => State(Cache(s.cache.temp, s.cache.data), Waiting)
  }

  // The simple form: the table changes all at once, at the swap, to the rows that the
  // query begun last has given. begun holds those rows.
  function Visible(rows: seq<Row>, begun: seq<Row>, steps: seq<Step>): seq<Row>
    decreases |steps|
  {
    if steps == [] then rows
    else match steps[0]
      case Begin(found) => Visible(rows, found, steps[1..])
      case Swap => Visible(begun, begun, steps[1..])
      case _ => Visible(rows, begun, steps[1..])
  }

  // The visible table is the scan of some rows, and the other one of those put in place.
  predicate Whole(s: State, rows: seq<Row>, begun: seq<Row>) {
    && s.cache.data == Scan(rows)
    && (s.loader.Loading? ==>
          s.loader.rows == begun && s.loader.done <= |begun| && s.cache.temp == Scan(begun[..s.loader.done]))
  }

  lemma RowLoaded(rows: seq<Row>, i: nat)
    requires i < |rows|
    ensures Scan(rows[..i + 1]) == Insert(Scan(rows[..i]), rows[i])
  {
    assert rows[..i + 1][..i] == rows[..i];
  }

  lemma StepKeepsWhole(s: State, rows: seq<Row>, begun: seq<Row>, step: Step)
    requires Whole(s, rows, begun) && Enabled(s, step)
    ensures Whole(Next(s, step), Visible(rows, begun, [step]), if step.Begin? then step.rows else begun)
  {
    match step
    case Begin(found) => assert found[..0] == [];
    case LoadRow => RowLoaded(begun, s.loader.done);
    case Swap => assert begun[..|begun|] == begun;
    case BeginFails =>
  }

  lemma {:induction false} RunIsVisible(s: State, rows: seq<Row>, begun: seq<Row>, steps: seq<Step>)
    requires Whole(s, rows, begun) && Legal(Next, s, steps)
    ensures After(Next, s, steps).cache.data == Scan(Visible(rows, begun, steps))
    decreases |steps|
  {
    if steps != [] {
      StepKeepsWhole(s, rows, begun, steps[0]);
      assert Visible(rows, begun, [steps[0]]) == (if steps[0].Swap? then begun else rows);
      hide Whole, Enabled, Next, Scan;
      RunIsVisible(Next(s, steps[0]), if steps[0].Swap? then begun else rows,
                   if steps[0].Begin? then steps[0].rows else begun, steps[1..]);
    }
  }

  // MAIN: at whatever point of whatever loading a reader comes, it finds exactly the
  // hosts that one complete query gives for its pair: the last one swapped in.
  lemma ReadersSeeWholeTables(rows: seq<Row>, steps: seq<Step>, modid: int32, cmdid: int32)
    requires Legal(Next, State(Cache(Scan(rows), map[]), Waiting), steps)
    ensures Find(After(Next, State(Cache(Scan(rows), map[]), Waiting), steps).cache.data, Key(modid, cmdid))
            == HostsOf(Visible(rows, [], steps), modid, cmdid)
  {
    RunIsVisible(State(Cache(Scan(rows), map[]), Waiting), rows, [], steps);
    ScanFindsRows(Visible(rows, [], steps), modid, cmdid);
  }

  // The simple form never shows anything but the rows there at the start or the rows of
  // a query that has succeeded, one of the run or the one whose load is under way at its
  // start.
  lemma {:induction false} VisibleIsQueried(s: State, rows: seq<Row>, begun: seq<Row>, steps: seq<Step>)
    requires Legal(Next, s, steps)
    ensures var v := Visible(rows, begun, steps);
            v == rows || (s.loader.Loading? && v == begun) || exists i :: 0 <= i < |steps| && steps[i] == Begin(v)
    decreases |steps|
  {
    if steps != [] {
      var rows' := if steps[0].Swap? then begun else rows;
      var begun' := if steps[0].Begin? then steps[0].rows else begun;
      VisibleIsQueried(Next(s, steps[0]), rows', begun', steps[1..]);
      var v := Visible(rows, begun, steps);
      if i :| 0 <= i < |steps| - 1 && steps[1..][i] == Begin(v) {
        assert steps[i + 1] == Begin(v);
      } else if v == begun' && steps[0].Begin? {
        assert steps[0] == Begin(v);
      }
    }
  }

  // MAIN: so, from a loaded table on, a reader finds the hosts of the rows there at the
  // start or of a query of the run that succeeded, never of a partial or failed load.
  lemma ReadersSeeQueries(rows: seq<Row>, steps: seq<Step>, modid: int32, cmdid: int32)
    requires Legal(Next, State(Cache(Scan(rows), map[]), Waiting), steps)
    ensures var table := After(Next, State(Cache(Scan(rows), map[]), Waiting), steps).cache.data;
            var found := Find(table, Key(modid, cmdid));
            found == HostsOf(rows, modid, cmdid)
            || exists i :: 0 <= i < |steps| && steps[i].Begin? && found == HostsOf(steps[i].rows, modid, cmdid)
  {
    ReadersSeeWholeTables(rows, steps, modid, cmdid);
    VisibleIsQueried(State(Cache(Scan(rows), map[]), Waiting), rows, [], steps);
    hide Visible, Scan, HostsOf, Find, After, Legal, Key;
  }

  // ---------- The object ----------

  // What a query gives: an error, or the rows it found.
  datatype Query<T> = Failed | Found(rows: seq<T>)

  class Table {
    var entries: RouteMap

    constructor ()
      ensures entries == map[]
    {
      entries := map[];
    }
  }

  datatype Changed = Error | Same | New

  class Route {
    var dataPointer: Table
    var tempPointer: Table
    var version: int

    // The two pointers never meet.
    predicate Valid()
      reads this
    {
      dataPointer != tempPointer
    }

    function View(): Cache
      reads this, dataPointer, tempPointer
    {
      Cache(dataPointer.entries, tempPointer.entries)
    }

    // The constructor when its queries succeed; on a failure the process exits.
    constructor (version: int, rows: seq<Row>)
      ensures Valid() && View() == Cache(Scan(rows), map[]) && this.version == version
      ensures fresh(dataPointer) && fresh(tempPointer)
    {
      var data := new Table();
      var temp := new Table();
      Fill(data, rows);
      dataPointer, tempPointer, this.version := data, temp, version;
    }

    // The loop that build_maps and load_route_data share.
    static method Fill(table: Table, rows: seq<Row>)
      requires table.entries == map[]
      modifies table
      ensures table.entries == Scan(rows)
    {
      var i := 0;
      while i < |rows|
        invariant 0 <= i <= |rows| && table.entries == Scan(rows[..i])
      {
        RowLoaded(rows, i);
        var row := rows[i];
        var key, value := RowKey(row), RowValue(row);
        if key !in table.entries {
          table.entries := table.entries[key := {}];
        }
        table.entries := table.entries[key := table.entries[key] + {value}];
        i := i + 1;
      }
      assert rows[..|rows|] == rows;
    }

    method GetHosts(modid: int32, cmdid: int32) returns (hosts: set<uint64>)
      ensures hosts == Find(View().data, Key(modid, cmdid))
    {
      hosts := {};
      var key := Key(modid, cmdid);
      if key in dataPointer.entries {
        hosts := dataPointer.entries[key];
      }
    }

    // Reads the version; only a different one is taken over.
    method LoadVersion(query: Query<int>) returns (changed: Changed)
      modifies this`version
      ensures changed.Error? <==> query.Failed? || query.rows == []
      ensures changed.Error? || changed.Same? ==> version == old(version)
      ensures !changed.Error? ==> version == query.rows[0] && (changed.Same? <==> version == old(version))
    {
      if query.Failed? {
        return Error;
      }
      if query.rows == [] {
        return Error;
      }
      if query.rows[0] == version {
        return Same;
      }
      version := query.rows[0];
      changed := New;
    }

    // Fills the table that is not visible; a failed query leaves it empty.
    method LoadRouteData(query: Query<Row>) returns (ok: bool)
      requires Valid()
      modifies tempPointer
      ensures Valid() && ok == query.Found?
      ensures View() == Cache(old(View()).data, if ok then Scan(query.rows) else map[])
    {
      tempPointer.entries := map[];
      if query.Failed? {
        return false;
      }
      Fill(tempPointer, query.rows);
      ok := true;
    }

    method Swap()
      requires Valid()
      modifies this`dataPointer, this`tempPointer
      ensures Valid() && View() == Cache(old(View()).temp, old(View()).data)
      ensures {dataPointer, tempPointer} == old({dataPointer, tempPointer})
    {
      var temp := dataPointer;
      dataPointer := tempPointer;
      tempPointer := temp;
    }

    // The keys of the change rows that the query found; none when it failed.
    method LoadChanges(query: Query<(int32, int32)>) returns (changes: set<uint64>)
      ensures changes == if query.Failed? then {} else set p | p in query.rows :: Key(p.0, p.1)
    {
      changes := {};
      if query.Failed? {
        return;
      }
      var i := 0;
      while i < |query.rows|
        invariant 0 <= i <= |query.rows|
        invariant changes == set p | p in query.rows[..i] :: Key(p.0, p.1)
      {
        var (modid, cmdid) := query.rows[i];
        assert forall p :: p in query.rows[..i + 1] <==> p in query.rows[..i] || p == query.rows[i];
        changes := changes + {Key(modid, cmdid)};
        i := i + 1;
      }
      assert query.rows[..|query.rows|] == query.rows;
    }

    // One round of the checking thread. The queries come in this order; those of rows are
    // made only where the code makes them. It publishes keys, then has the change rows up
    // to a version deleted.
    method CheckRound(versions: Query<int>, data: Query<Row>, rows: Query<(int32, int32)>, expired: bool)
      returns (published: set<uint64>, deletedUpTo: Query<int>, reloaded: bool)
      requires Valid()
      modifies this, dataPointer, tempPointer
      ensures Valid()
      ensures var changed := versions.Found? && versions.rows != [] && versions.rows[0] != old(version);
              && version == (if changed then versions.rows[0] else old(version))
              && reloaded == ((changed || expired) && data.Found?)
              && View().data == (if reloaded then Scan(data.rows) else old(View()).data)
              && published == (if changed && rows.Found? then set p | p in rows.rows :: Key(p.0, p.1) else {})
              && deletedUpTo == (if changed then Found([version]) else Failed)
    {
      hide Scan, Key;
      published, deletedUpTo, reloaded := {}, Failed, false;
      var changed := LoadVersion(versions);
      if changed == New {
        reloaded := LoadRouteData(data);
        if reloaded {
          Swap();
        }
        published := LoadChanges(rows);
        deletedUpTo := Found([version]);
      } else if expired {
        reloaded := LoadRouteData(data);
        if reloaded {
          Swap();
        }
      }
    }
  }
}
