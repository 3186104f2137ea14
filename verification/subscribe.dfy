// The subscription index of the DNS service and the list of changes to push.

module Subscriptions {
  import opened Words
  import opened DnsRoutes
  import opened Runs
  import opened Sequences

  // Who subscribed to a key, and what is to be pushed to a connection.
  type BookList = map<uint64, set<int32>>
  type PushList = map<int32, set<uint64>>

  datatype Lists = Lists(book: BookList, push: PushList)

  // ---------- What the lists say ----------

  predicate Booked(book: BookList, mod: uint64, fd: int32) { mod in book && fd in book[mod] }

  predicate Pending(push: PushList, fd: int32, mod: uint64) { fd in push && mod in push[fd] }

  predicate NoneEmpty(book: BookList) {
    forall mod :: mod in book ==> book[mod] != {}
  }

  // ---------- The operations ----------

  function Book(book: BookList, mod: uint64, fd: int32): BookList {
    book[mod := (if mod in book then book[mod] else {}) + {fd}]
  }

  function Unbook(book: BookList, mod: uint64, fd: int32): BookList {
    if mod !in book then book
    else if book[mod] - {fd} == {} then book - {mod}
    else book[mod := book[mod] - {fd}]
  }

  // All subscribers of changed keys, each with the keys that have changed for it.
  ghost predicate Publishes(book: BookList, push: PushList, changes: set<uint64>, push': PushList) {
    forall fd, mod :: Pending(push', fd, mod) <==> Pending(push, fd, mod) || (mod in changes && Booked(book, mod, fd))
  }

  // Taking what is pending for some connections.
  function Taken(push: PushList, online: set<int32>): PushList {
    map fd | fd in push && fd in online :: push[fd]
  }

  lemma BookAdds(book: BookList, mod: uint64, fd: int32)
    requires NoneEmpty(book)
    ensures NoneEmpty(Book(book, mod, fd))
    ensures forall m, f :: Booked(Book(book, mod, fd), m, f) <==> Booked(book, m, f) || (m == mod && f == fd)
  {
    assert fd in Book(book, mod, fd)[mod];
  }

  lemma UnbookRemoves(book: BookList, mod: uint64, fd: int32)
    requires NoneEmpty(book)
    ensures NoneEmpty(Unbook(book, mod, fd))
    ensures forall m, f :: Booked(Unbook(book, mod, fd), m, f) <==> Booked(book, m, f) && !(m == mod && f == fd)
  {
    if mod in book && book[mod] - {fd} == {} {
      assert forall f :: f in book[mod] ==> f == fd || f in book[mod] - {fd};
    }
  }

  // ---------- The object ----------

  class SubscribeList {
    var bookList: BookList
    var pushList: PushList

    function View(): Lists
      reads this
    {
      Lists(bookList, pushList)
    }

    constructor ()
      ensures View() == Lists(map[], map[])
    {
      bookList, pushList := map[], map[];
    }

    method Subscribe(mod: uint64, fd: int32)
      modifies this`bookList
      ensures bookList == Book(old(bookList), mod, fd)
    {
      if mod !in bookList {
        bookList := bookList[mod := {}];
      }
      bookList := bookList[mod := bookList[mod] + {fd}];
    }

    method Unsubscribe(mod: uint64, fd: int32)
      modifies this`bookList
      ensures bookList == Unbook(old(bookList), mod, fd)
    {
      if mod in bookList {
        bookList := bookList[mod := bookList[mod] - {fd}];
        if bookList[mod] == {} {
          bookList := bookList - {mod};
        }
      }
    }

    method Publish(changeMods: set<uint64>)
      modifies this`pushList
      ensures Publishes(bookList, old(pushList), changeMods, pushList)
    {
      var rest := changeMods;
      while rest != {}
        invariant rest <= changeMods
        invariant Publishes(bookList, old(pushList), changeMods - rest, pushList)
        decreases rest
      {
        var mod :| mod in rest;
        if mod in bookList {
          PublishTo(mod, bookList[mod]);
        }
        rest := rest - {mod};
      }
    }

    // The inner loop of publish.
    method PublishTo(mod: uint64, fds: set<int32>)
      modifies this`pushList
      ensures forall f, m :: Pending(pushList, f, m) <==> Pending(old(pushList), f, m) || (m == mod && f in fds)
    {
      var rest := fds;
      while rest != {}
        invariant rest <= fds
        invariant forall f, m :: Pending(pushList, f, m) <==>
                                 Pending(old(pushList), f, m) || (m == mod && f in fds - rest)
        decreases rest
      {
        var fd :| fd in rest;
        ghost var before := pushList;
        if fd !in pushList {
          pushList := pushList[fd := {}];
        }
        pushList := pushList[fd := pushList[fd] + {mod}];
        assert forall f, m :: Pending(pushList, f, m) <==> Pending(before, f, m) || (m == mod && f == fd);
        rest := rest - {fd};
      }
    }

    // Moves what is pending for the connections of one loop out of the push list. The
    // keys are those at the start.
    method MakePublishMap(onlineFds: set<int32>) returns (needPublish: PushList)
      modifies this`pushList
      ensures needPublish == Taken(old(pushList), onlineFds)
      ensures pushList == old(pushList) - onlineFds
    {
      needPublish := map[];
      var rest := pushList.Keys;
      while rest != {}
        invariant rest <= old(pushList).Keys
        invariant needPublish == map fd | fd in old(pushList) && fd in onlineFds && fd !in rest :: old(pushList)[fd]
        invariant pushList == map fd | fd in old(pushList) && !(fd in onlineFds && fd !in rest) :: old(pushList)[fd]
        decreases rest
      {
        var fd :| fd in rest;
        if fd in onlineFds {
          needPublish := needPublish[fd := pushList[fd]];
          pushList := pushList - {fd};
        }
        rest := rest - {fd};
      }
    }

    // The task each loop runs after a publication: one message for every pair taken whose
    // connection is still there, with the hosts found for the pair the key decodes to.
    // Another thread may swap the route tables meanwhile; tables gives the one that is
    // visible when a pair is looked up.
    method PushChangeTask(onlineFds: set<int32>, connected: set<int32>, tables: Tables)
      returns (messages: seq<Message>, ghost pairs: seq<(int32, uint64)>)
      modifies this`pushList
      ensures pushList == old(pushList) - onlineFds
      ensures Distinct(pairs)
      ensures forall p :: p in pairs <==> p.0 in onlineFds && p.0 in connected && Pending(old(pushList), p.0, p.1)
      ensures Carry(messages, pairs, tables)
    {
      var need := MakePublishMap(onlineFds);
      messages, pairs := [], [];
      var fds := need.Keys;
      while fds != {}
        invariant fds <= need.Keys && pushList == old(pushList) - onlineFds
        invariant Distinct(pairs) && Carry(messages, pairs, tables)
        invariant forall p :: p in pairs <==> p.0 !in fds && p.0 in connected && Pending(need, p.0, p.1)
        decreases fds
      {
        var fd :| fd in fds;
        var sent, more := MessagesTo(fd, need[fd], connected, tables);
        AppendDistinct(pairs, more);
        messages, pairs := messages + sent, pairs + more;
        fds := fds - {fd};
      }
    }

    // The inner loop of push_change_task.
    method MessagesTo(fd: int32, toPush: set<uint64>, connected: set<int32>, tables: Tables)
      returns (messages: seq<Message>, ghost pairs: seq<(int32, uint64)>)
      ensures Distinct(pairs) && Carry(messages, pairs, tables)
      ensures forall p :: p in pairs <==> p.0 == fd && p.1 in toPush && fd in connected
    {
      messages, pairs := [], [];
      var rest := toPush;
      while rest != {}
        invariant rest <= toPush && Distinct(pairs) && Carry(messages, pairs, tables)
        invariant forall p :: p in pairs <==> p.0 == fd && p.1 in toPush - rest && fd in connected
        decreases rest
      {
        var mod :| mod in rest;
        var modid, cmdid := High(mod), Low(mod);
        var hosts := Find(tables(fd, mod), Key(modid, cmdid));
        if fd in connected {
          ghost var pair := (fd, mod);
          assert pair !in pairs;
          AppendDistinct(pairs, [pair]);
          messages, pairs := messages + [Message(fd, modid, cmdid, hosts)], pairs + [pair];
        }
        rest := rest - {mod};
      }
    }
  }

  type Tables = (int32, uint64) -> RouteMap

  // One message for each pair, with the hosts found when it was looked up.
  predicate Carry(messages: seq<Message>, pairs: seq<(int32, uint64)>, tables: Tables) {
    && |messages| == |pairs|
    && forall i :: 0 <= i < |pairs| ==>
         messages[i] == MessageFor(tables(pairs[i].0, pairs[i].1), pairs[i].0, pairs[i].1)
  }

  // A route pushed to a connection, the hosts as ip and port in one word.
  datatype Message = Message(fd: int32, modid: int32, cmdid: int32, hosts: set<uint64>)

  function MessageFor(data: RouteMap, fd: int32, mod: uint64): Message {
    Message(fd, High(mod), Low(mod), Find(data, Key(High(mod), Low(mod))))
  }

  // The message goes to the subscriber. It names the pair and carries its hosts when the
  // cmdid is not negative; otherwise it names another modid and looks the hosts up under
  // that.
  lemma MessageIsForPair(data: RouteMap, fd: int32, modid: int32, cmdid: int32)
    ensures var m := MessageFor(data, fd, Key(modid, cmdid));
            && m.fd == fd && m.cmdid == cmdid && (m.modid == modid <==> cmdid >= 0)
            && (cmdid >= 0 ==> m.hosts == Find(data, Key(modid, cmdid)))
            && (cmdid < 0 ==> m.hosts == Find(data, Key(m.modid, cmdid)) && m.modid != modid)
  {
    DecodeRecovers(modid, cmdid);
    hide Key, High, Low;
  }

  // ---------- Pushing ----------

  // The sections under the locks, as the threads come to them.
  datatype Event =
    | Subscribes(mod: uint64, fd: int32)
    | Unsubscribes(mod: uint64, fd: int32)
    | Publish(changes: set<uint64>)
    | Drain(online: set<int32>)

  function Published(book: BookList, push: PushList, changes: set<uint64>): (push': PushList)
    ensures Publishes(book, push, changes, push')
  {
    var fds := push.Keys + set mod, fd | mod in changes && mod in book && fd in book[mod] :: fd;
    map fd | fd in fds ::
      (if fd in push then push[fd] else {}) + set mod | mod in changes && mod in book && fd in book[mod]
  }

  function Changed(l: Lists, e: Event): Lists {
    match e
    case Subscribes(mod, fd) => l.(book := Book(l.book, mod, fd))
    case Unsubscribes(mod, fd) => l.(book := Unbook(l.book, mod, fd))
    case Publish(changes) => l.(push := Published(l.book, l.push, changes))
    case Drain(online) => l.(push := l.push - online)
  }

  function ListsAfter(l: Lists, es: seq<Event>): Lists {
    if es == [] then l else Changed(ListsAfter(l, es[..|es| - 1]), es[|es| - 1])
  }

  // The publications of a run that put a key on the list for a connection, and the drains
  // that took it off.
  function Raised(l: Lists, es: seq<Event>, fd: int32, mod: uint64): nat {
    if es == [] then 0
    else
      var before, e := ListsAfter(l, es[..|es| - 1]), es[|es| - 1];
      Raised(l, es[..|es| - 1], fd, mod) +
      if e.Publish? && mod in e.changes && Booked(before.book, mod, fd) && !Pending(before.push, fd, mod) then 1 else 0
  }

  function Took(l: Lists, es: seq<Event>, fd: int32, mod: uint64): nat {
    if es == [] then 0
    else
      var before, e := ListsAfter(l, es[..|es| - 1]), es[|es| - 1];
      Took(l, es[..|es| - 1], fd, mod) + if e.Drain? && Pending(Taken(before.push, e.online), fd, mod) then 1 else 0
  }

  // MAIN: what has been put on the push list has been taken once or is still there, once.
  lemma {:induction false} PushesAreConserved(l: Lists, es: seq<Event>, fd: int32, mod: uint64)
    requires l.push == map[]
    ensures Raised(l, es, fd, mod) == Took(l, es, fd, mod) + if Pending(ListsAfter(l, es).push, fd, mod) then 1 else 0
  {
    if es != [] {
      PushesAreConserved(l, es[..|es| - 1], fd, mod);
      var before, e := ListsAfter(l, es[..|es| - 1]), es[|es| - 1];
      assert e.Publish? ==> Publishes(before.book, before.push, e.changes, Changed(before, e).push);
    }
  }

  // Drains alone, one after the other.
  function Drained(push: PushList, loops: seq<set<int32>>): PushList {
    if loops == [] then push else Drained(push - loops[0], loops[1..])
  }

  // MAIN: loops with disjoint connections, in any order, each take exactly what is
  // pending for their own; what is left belongs to none of them.
  lemma {:induction false} DrainsSplitTheList(push: PushList, loops: seq<set<int32>>, i: nat)
    requires i < |loops| && forall j, k :: 0 <= j < k < |loops| ==> loops[j] !! loops[k]
    ensures Taken(Drained(push, loops[..i]), loops[i]) == Taken(push, loops[i])
    ensures forall fd, mod :: Pending(Drained(push, loops), fd, mod) <==>
                              Pending(push, fd, mod) && forall j :: 0 <= j < |loops| ==> fd !in loops[j]
    decreases i
  {
    DrainedLeaves(push, loops);
    DrainedLeaves(push, loops[..i]);
    assert forall fd :: fd in loops[i] ==> forall j :: 0 <= j < i ==> fd !in loops[..i][j];
  }

  lemma {:induction false} DrainedLeaves(push: PushList, loops: seq<set<int32>>)
    ensures forall fd :: fd in Drained(push, loops) <==> fd in push && forall j :: 0 <= j < |loops| ==> fd !in loops[j]
    ensures forall fd :: fd in Drained(push, loops) ==> Drained(push, loops)[fd] == push[fd]
    decreases |loops|
  {
    if loops != [] {
      DrainedLeaves(push - loops[0], loops[1..]);
      assert forall j :: 0 < j < |loops| ==> loops[j] == loops[1..][j - 1];
      forall fd
        ensures fd in Drained(push, loops) <==> fd in push && forall j :: 0 <= j < |loops| ==> fd !in loops[j]
      {
        if fd in push && forall j :: 0 <= j < |loops| ==> fd !in loops[j] {
          assert fd !in loops[0];
          assert forall j :: 0 <= j < |loops| - 1 ==> loops[1..][j] == loops[j + 1];
        }
      }
    }
  }

  // ---------- Connections ----------

  // Where the thread that serves a connection is: between requests, between noting a
  // subscription with the connection and in the index, or taking the noted ones out of
  // the index before the connection goes.
  datatype Stage = Ready | Subscribing(mod: uint64) | Closing(left: set<uint64>)

  datatype Conn = Conn(own: set<uint64>, stage: Stage)

  datatype Service = Service(conns: map<int32, Conn>, lists: Lists)

  datatype Action =
    | Connect(fd: int32)
    | Request(fd: int32, mod: uint64)
    | Index(fd: int32)
    | Close(fd: int32)
    | Unindex(fd: int32, mod: uint64)
    | Forget(fd: int32)
    | Push(event: Event)

  predicate Enabled(s: Service, a: Action) {
    match a
    case Connect(fd) => fd !in s.conns
    case Request(fd, _) => fd in s.conns && s.conns[fd].stage.Ready?
    case Index(fd) => fd in s.conns && s.conns[fd].stage.Subscribing?
    case Close(fd) => fd in s.conns && s.conns[fd].stage.Ready?
    case Unindex(fd, mod) => fd in s.conns && s.conns[fd].stage.Closing? && mod in s.conns[fd].stage.left
    case Forget(fd) => fd in s.conns && s.conns[fd].stage == Closing({})
    case Push(e) => e.Publish? || e.Drain?
  }

  function Next(s: Service, a: Action): Service
    requires Enabled(s, a)
  {
    match a
    case Connect(fd) => s.(conns := s.conns[fd := Conn({}, Ready)])
    case Request(fd, mod) =>
      var own := s.conns[fd].own;
      if mod in own then s else s.(conns := s.conns[fd := Conn(own + {mod}, Subscribing(mod))])
    case Index(fd) =>
      var c := s.conns[fd];
      Service(s.conns[fd := Conn(c.own, Ready)], Changed(s.lists, Subscribes(c.stage.mod, fd)))
    case Close(fd) => s.(conns := s.conns[fd := Conn(s.conns[fd].own, Closing(s.conns[fd].own))])
    case Unindex(fd, mod) =>
      var c := s.conns[fd];
      Service(s.conns[fd := Conn(c.own, Closing(c.stage.left - {mod}))], Changed(s.lists, Unsubscribes(mod, fd)))
    case Forget(fd) => s.(conns := s.conns - {fd})
    case Push(e) => s.(lists := Changed(s.lists, e))
  }

  // The subscriptions of a connection that the index should hold.
  predicate Wants(s: Service, fd: int32, mod: uint64) {
    fd in s.conns &&
    match s.conns[fd].stage
    case Ready => mod in s.conns[fd].own
    case Subscribing(m) => mod in s.conns[fd].own && mod != m
    case Closing(left) => mod in left
  }

  ghost predicate Agrees(s: Service) {
    && NoneEmpty(s.lists.book)
    && (forall fd, mod :: Booked(s.lists.book, mod, fd) <==> Wants(s, fd, mod))
    && (forall fd :: fd in s.conns && s.conns[fd].stage.Subscribing? ==> s.conns[fd].stage.mod in s.conns[fd].own)
  }

  lemma NextAgrees(s: Service, a: Action)
    requires Agrees(s) && Enabled(s, a)
    ensures Agrees(Next(s, a))
  {
    match a
    case Index(fd) => BookAdds(s.lists.book, s.conns[fd].stage.mod, fd);
    case Unindex(fd, mod) => UnbookRemoves(s.lists.book, mod, fd);
    case _ =>
  }

  // MAIN: over connects, requests, closes and pushes of any connections in any order, the
  // index has a connection under exactly the keys the connection has noted, but for the
  // one it is about to enter or those it has already left; no set in it is empty; and a
  // descriptor without a connection appears nowhere.
  lemma {:induction false} IndexAgrees(s: Service, acts: seq<Action>)
    requires Agrees(s) && Legal(Next, s, acts)
    ensures var s' := After(Next, s, acts);
            && Agrees(s')
            && (forall fd, mod :: fd in s'.conns && s'.conns[fd].stage.Ready? ==>
                  (Booked(s'.lists.book, mod, fd) <==> mod in s'.conns[fd].own))
            && (forall fd, mod :: fd !in s'.conns ==> !Booked(s'.lists.book, mod, fd))
    decreases |acts|
  {
    if acts != [] {
      NextAgrees(s, acts[0]);
      hide Agrees, Enabled, Next;
      IndexAgrees(Next(s, acts[0]), acts[1..]);
    }
  }

  // The keys that a connection has requested since it was made.
  function Requested(acts: seq<Action>, fd: int32): set<uint64> {
    if acts == [] then {}
    else
      var before, a := Requested(acts[..|acts| - 1], fd), acts[|acts| - 1];
      if a == Connect(fd) then {}
      else if a.Request? && a.fd == fd then before + {a.mod}
      else before
  }

  ghost predicate AllNoted(past: seq<Action>, s: Service) {
    forall fd :: fd in s.conns ==> s.conns[fd].own == Requested(past, fd)
  }

  lemma NextNotes(past: seq<Action>, s: Service, a: Action)
    requires AllNoted(past, s) && Enabled(s, a)
    ensures AllNoted(past + [a], Next(s, a))
  {
    assert (past + [a])[..|past|] == past;
    hide Changed;
  }

  lemma {:induction false} RunNotes(past: seq<Action>, s: Service, acts: seq<Action>)
    requires AllNoted(past, s) && Legal(Next, s, acts)
    ensures AllNoted(past + acts, After(Next, s, acts))
    decreases |acts|
  {
    if acts == [] {
      assert past + acts == past;
    } else {
      NextNotes(past, s, acts[0]);
      hide AllNoted, Enabled, Next;
      assert past + [acts[0]] + acts[1..] == past + acts;
      RunNotes(past + [acts[0]], Next(s, acts[0]), acts[1..]);
    }
  }

  const NOBODY := Service(map[], Lists(map[], map[]))

  // MAIN: so the index has a connection that is between requests under exactly the keys
  // it has requested since it was made.
  lemma IndexIsRequested(acts: seq<Action>, fd: int32, mod: uint64)
    requires Legal(Next, NOBODY, acts)
    ensures var s := After(Next, NOBODY, acts);
            && (fd in s.conns && s.conns[fd].stage.Ready? ==>
                  (Booked(s.lists.book, mod, fd) <==> mod in Requested(acts, fd)))
            && (fd !in s.conns ==> !Booked(s.lists.book, mod, fd))
  {
    IndexAgrees(NOBODY, acts);
    RunNotes([], NOBODY, acts);
    assert [] + acts == acts;
    hide Requested;
  }

  // ---------- Pushes and the connections they reach ----------

  // What is pending for a connection is something it has noted.
  ghost predicate Owned(s: Service) {
    forall fd, mod :: fd in s.conns && Pending(s.lists.push, fd, mod) ==> mod in s.conns[fd].own
  }

  // A closing connection has left no more to take out than it has noted.
  predicate Orderly(s: Service) {
    forall fd :: fd in s.conns && s.conns[fd].stage.Closing? ==> s.conns[fd].stage.left <= s.conns[fd].own
  }

  // The action connects no descriptor for which something is pending.
  ghost predicate Clean(s: Service, a: Action) {
    a.Connect? ==> forall mod :: !Pending(s.lists.push, a.fd, mod)
  }

  // The push list knows nothing of connections: what is pending when one closes stays for
  // the next with the same descriptor. That is the only way a connection can come by
  // something it has not noted.
  lemma NextOwns(s: Service, a: Action)
    requires Agrees(s) && Orderly(s) && Owned(s) && Enabled(s, a)
    ensures Orderly(Next(s, a))
    ensures Owned(Next(s, a)) <==> Clean(s, a)
  {
    var s' := Next(s, a);
    match a
    case Connect(fd) =>
      assert s'.conns[fd].own == {};
      if !Clean(s, a) {
        var mod :| Pending(s.lists.push, fd, mod);
        assert fd in s'.conns && Pending(s'.lists.push, fd, mod) && mod !in s'.conns[fd].own;
      }
    case Push(e) =>
      if e.Publish? {
        assert Publishes(s.lists.book, s.lists.push, e.changes, s'.lists.push);
        assert forall fd, mod :: fd in s.conns && Booked(s.lists.book, mod, fd) ==> Wants(s, fd, mod);
      }
    case _ =>
  }

  ghost predicate AllClean(s: Service, acts: seq<Action>)
    requires Legal(Next, s, acts)
    decreases |acts|
  {
    acts == [] || (Clean(s, acts[0]) && AllClean(Next(s, acts[0]), acts[1..]))
  }

  // A drain, whichever connections it is for, takes for a connection only what that has
  // noted.
  ghost predicate DrainsWell(s: Service, online: set<int32>) {
    forall fd, mod :: fd in s.conns && Pending(Taken(s.lists.push, online), fd, mod) ==> mod in s.conns[fd].own
  }

  lemma DrainTakesOwned(s: Service)
    ensures Owned(s) <==> forall online :: DrainsWell(s, online)
  {
    if Owned(s) {
      forall online, fd, mod | fd in s.conns && Pending(Taken(s.lists.push, online), fd, mod)
        ensures mod in s.conns[fd].own
      {
        assert Pending(s.lists.push, fd, mod);
      }
    } else {
      var fd, mod :| fd in s.conns && Pending(s.lists.push, fd, mod) && mod !in s.conns[fd].own;
      assert Pending(Taken(s.lists.push, {fd}), fd, mod);
      assert !DrainsWell(s, {fd});
    }
  }

  // Any drain would do so, at any point of the run.
  ghost predicate AnyDrainWell(s: Service, acts: seq<Action>)
    requires Legal(Next, s, acts)
    decreases |acts|
  {
    (forall online :: DrainsWell(s, online)) && (acts == [] || AnyDrainWell(Next(s, acts[0]), acts[1..]))
  }

  // The drains that the run makes do so.
  ghost predicate ItsDrainsWell(s: Service, acts: seq<Action>)
    requires Legal(Next, s, acts)
    decreases |acts|
  {
    acts == [] ||
    (&& (acts[0].Push? && acts[0].event.Drain? ==> DrainsWell(s, acts[0].event.online))
     && ItsDrainsWell(Next(s, acts[0]), acts[1..]))
  }

  // MAIN: so a drain that comes at any point of a run takes only what the connections
  // have noted, exactly when the run connects no descriptor for which something is
  // pending; and in such a run the drains that are made push only that.
  lemma {:induction false} PushesReachSubscribers(s: Service, acts: seq<Action>)
    requires Agrees(s) && Orderly(s) && Owned(s) && Legal(Next, s, acts)
    ensures AnyDrainWell(s, acts) <==> AllClean(s, acts)
    ensures AllClean(s, acts) ==> ItsDrainsWell(s, acts)
    decreases |acts|
  {
    DrainTakesOwned(s);
    if acts != [] {
      NextAgrees(s, acts[0]);
      NextOwns(s, acts[0]);
      DrainTakesOwned(Next(s, acts[0]));
      hide Agrees, Orderly, Owned, Enabled, Next, Clean, DrainsWell;
      if Clean(s, acts[0]) {
        PushesReachSubscribers(Next(s, acts[0]), acts[1..]);
      } else {
        assert !AnyDrainWell(Next(s, acts[0]), acts[1..]);
      }
    }
  }

  lemma {:induction false} PendingStays(s: Service, acts: seq<Action>, fd: int32, mod: uint64)
    requires Legal(Next, s, acts) && Pending(s.lists.push, fd, mod)
    requires forall a :: a in acts && a.Push? && a.event.Drain? ==> fd !in a.event.online
    ensures Pending(After(Next, s, acts).lists.push, fd, mod)
    decreases |acts|
  {
    if acts != [] {
      var a := acts[0];
      assert a in acts && (forall b :: b in acts[1..] ==> b in acts);
      assert a.Push? && a.event.Publish? ==>
        Publishes(s.lists.book, s.lists.push, a.event.changes, Next(s, a).lists.push);
      assert Pending(Next(s, a).lists.push, fd, mod);
      hide Next, Enabled, Pending;
      PendingStays(Next(s, a), acts[1..], fd, mod);
    }
  }

  // MAIN: and no subscriber is passed over: a change of a key that a connection has
  // requested, published while it is between requests, stays pending for it, whatever
  // comes next, until a drain by its own loop takes it.
  lemma SubscribersArePushed(acts: seq<Action>, changes: set<uint64>, more: seq<Action>, fd: int32, mod: uint64)
    requires Legal(Next, NOBODY, acts) && Legal(Next, After(Next, NOBODY, acts), [Push(Publish(changes))] + more)
    requires fd in After(Next, NOBODY, acts).conns && After(Next, NOBODY, acts).conns[fd].stage.Ready?
    requires mod in changes && mod in Requested(acts, fd)
    requires forall a :: a in more && a.Push? && a.event.Drain? ==> fd !in a.event.online
    ensures var push := After(Next, After(Next, NOBODY, acts), [Push(Publish(changes))] + more).lists.push;
            forall online: set<int32> :: fd in online ==> Pending(Taken(push, online), fd, mod)
  {
    var s, publish := After(Next, NOBODY, acts), Push(Publish(changes));
    IndexIsRequested(acts, fd, mod);
    assert ([publish] + more)[0] == publish && ([publish] + more)[1..] == more;
    var s' := Next(s, publish);
    assert Publishes(s.lists.book, s.lists.push, changes, s'.lists.push);
    assert Pending(s'.lists.push, fd, mod);
    Cons(Next, s, publish, more);
    PendingStays(s', more, fd, mod);
    hide Next, After;
  }

  // The failing run: a connection is pushed a key that only its predecessor subscribed to.
  lemma StalePush(fd: int32, mod: uint64)
    ensures var s := Service(map[], Lists(map[], map[]));
            var acts := [Connect(fd), Request(fd, mod), Index(fd), Push(Publish({mod})), Close(fd), Unindex(fd, mod),
                         Forget(fd), Connect(fd)];
            && Legal(Next, s, acts) && fd in After(Next, s, acts).conns
            && After(Next, s, acts).conns[fd] == Conn({}, Ready)
            && Pending(Taken(After(Next, s, acts).lists.push, {fd}), fd, mod)
  {
    hide Legal, After, Next, Enabled, Pending;
    var s0 := Service(map[], Lists(map[], map[]));
    var s3 := Service(map[fd := Conn({mod}, Ready)], Lists(map[mod := {fd}], map[]));
    var s4 := Service(s3.conns, Lists(s3.lists.book, map[fd := {mod}]));
    var s6 := Service(map[fd := Conn({mod}, Closing({}))], Lists(map[], s4.lists.push));
    var s8 := Service(map[fd := Conn({}, Ready)], s6.lists);
    FirstSubscription(fd, mod);
    OnePublication(s3, fd, mod);
    OneClosing(fd, mod);
    OneReconnect(s6, fd, mod);
    EightActions(s0, s3, s4, s6, s8, fd, mod);
  }

  lemma OneReconnect(s: Service, fd: int32, mod: uint64)
    requires s == Service(map[fd := Conn({mod}, Closing({}))], Lists(map[], map[fd := {mod}]))
    ensures Enabled(s, Forget(fd)) && Enabled(Next(s, Forget(fd)), Connect(fd))
    ensures Next(Next(s, Forget(fd)), Connect(fd)) == Service(map[fd := Conn({}, Ready)], s.lists)
    ensures Pending(Taken(s.lists.push, {fd}), fd, mod)
  {
    assert s.conns - {fd} == map[];
  }

  lemma OnePublication(s: Service, fd: int32, mod: uint64)
    requires s.lists == Lists(map[mod := {fd}], map[])
    ensures Enabled(s, Push(Publish({mod})))
    ensures Next(s, Push(Publish({mod}))) == Service(s.conns, Lists(s.lists.book, map[fd := {mod}]))
  {
    var book: BookList, none: PushList := map[mod := {fd}], map[];
    var push := Published(book, none, {mod});
    assert Booked(book, mod, fd);
    assert forall f, m :: Pending(push, f, m) <==> f == fd && m == mod;
    assert Pending(push, fd, mod);
    assert forall f :: f in push ==> f == fd;
    assert push[fd] == {mod};
    assert push == map[fd := {mod}];
  }

  lemma OneClosing(fd: int32, mod: uint64)
    ensures var s := Service(map[fd := Conn({mod}, Ready)], Lists(map[mod := {fd}], map[fd := {mod}]));
            Enabled(s, Close(fd)) && Enabled(Next(s, Close(fd)), Unindex(fd, mod))
            && Next(Next(s, Close(fd)), Unindex(fd, mod))
               == Service(map[fd := Conn({mod}, Closing({}))], Lists(map[], s.lists.push))
  {
    assert {mod} - {mod} == {} && {fd} - {fd} == {};
    var book: BookList := map[mod := {fd}];
    assert Unbook(book, mod, fd) == map[];
  }

  lemma FirstSubscription(fd: int32, mod: uint64)
    ensures var s0 := Service(map[], Lists(map[], map[]));
            Enabled(s0, Connect(fd)) && Enabled(Next(s0, Connect(fd)), Request(fd, mod))
            && var s2 := Next(Next(s0, Connect(fd)), Request(fd, mod));
               Enabled(s2, Index(fd))
               && Next(s2, Index(fd)) == Service(map[fd := Conn({mod}, Ready)], Lists(map[mod := {fd}], map[]))
  {
    var mods: set<uint64>, fds: set<int32> := {}, {};
    assert mods + {mod} == {mod} && fds + {fd} == {fd};
    var s2 := Next(Next(Service(map[], Lists(map[], map[])), Connect(fd)), Request(fd, mod));
    assert s2.conns == map[fd := Conn({mod}, Subscribing(mod))];
  }

  lemma EightActions(s0: Service, s3: Service, s4: Service, s6: Service, s8: Service, fd: int32, mod: uint64)
    requires Enabled(s0, Connect(fd)) && Enabled(Next(s0, Connect(fd)), Request(fd, mod))
    requires Enabled(Next(Next(s0, Connect(fd)), Request(fd, mod)), Index(fd))
    requires Next(Next(Next(s0, Connect(fd)), Request(fd, mod)), Index(fd)) == s3
    requires Enabled(s3, Push(Publish({mod}))) && Next(s3, Push(Publish({mod}))) == s4
    requires Enabled(s4, Close(fd)) && Enabled(Next(s4, Close(fd)), Unindex(fd, mod))
    requires Next(Next(s4, Close(fd)), Unindex(fd, mod)) == s6
    requires Enabled(s6, Forget(fd)) && Enabled(Next(s6, Forget(fd)), Connect(fd))
    requires Next(Next(s6, Forget(fd)), Connect(fd)) == s8
    ensures var acts := [Connect(fd), Request(fd, mod), Index(fd), Push(Publish({mod})), Close(fd), Unindex(fd, mod),
                         Forget(fd), Connect(fd)];
            Legal(Next, s0, acts) && After(Next, s0, acts) == s8
  {
    hide Next, Enabled;
    var a8 := [Connect(fd)] + [];
    var a7 := [Forget(fd)] + a8;
    var a6 := [Unindex(fd, mod)] + a7;
    var a5 := [Close(fd)] + a6;
    var a4 := [Push(Publish({mod}))] + a5;
    var a3 := [Index(fd)] + a4;
    var a2 := [Request(fd, mod)] + a3;
    Cons(Next, Next(s6, Forget(fd)), Connect(fd), []);
    Cons(Next, s6, Forget(fd), a8);
    Cons(Next, Next(s4, Close(fd)), Unindex(fd, mod), a7);
    Cons(Next, s4, Close(fd), a6);
    Cons(Next, s3, Push(Publish({mod})), a5);
    Cons(Next, Next(Next(s0, Connect(fd)), Request(fd, mod)), Index(fd), a4);
    Cons(Next, Next(s0, Connect(fd)), Request(fd, mod), a3);
    Cons(Next, s0, Connect(fd), a2);
    assert [Connect(fd)] + a2 == [Connect(fd), Request(fd, mod), Index(fd), Push(Publish({mod})), Close(fd),
                                  Unindex(fd, mod), Forget(fd), Connect(fd)];
  }
}
