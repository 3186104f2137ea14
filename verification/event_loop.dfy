// The table of watched descriptors of one event loop, and the kernel's copy of it.

module EventLoops {
  // the two bits of a mask
  datatype Interest = In | Out
  type Mask = set<Interest>

  // the mask, and which of the two callbacks are set
  datatype IOEvent = IOEvent(mask: Mask, onRead: bool, onWrite: bool)

  // The loop's events and listened descriptors, and what epoll_ctl has been told.
  datatype Table = Table(events: map<int, IOEvent>, listened: set<int>, epoll: map<int, Mask>) {
    function MaskOf(fd: int): Mask {
      if fd in events then events[fd].mask else {}
    }

    // The three records name the same descriptors with the same non-empty masks.
    predicate Agree() {
      && listened == events.Keys && epoll.Keys == events.Keys
      && forall fd :: fd in events ==> epoll[fd] == events[fd].mask && events[fd].mask != {}
    }

    // No event can fire without its callback.
    predicate Dispatchable() {
      forall fd :: fd in events ==>
        (In in events[fd].mask ==> events[fd].onRead) && (Out in events[fd].mask ==> events[fd].onWrite)
    }

    // A mask that asks for reading registers the callback for reading only.
    function Add(fd: int, mask: Mask, epollCtl: bool): Table {
      var before := if fd in events then events[fd] else IOEvent({}, false, false);
      var event := IOEvent(before.mask + mask, before.onRead || In in mask,
                           before.onWrite || (In !in mask && Out in mask));
      if epollCtl then
        Table(events[fd := event], listened + {fd}, epoll[fd := event.mask])
      else
        this.(events := events[fd := event])
    }

    function Delete(fd: int): Table {
      Table(events - {fd}, listened - {fd}, epoll - {fd})
    }

    function Remove(fd: int, mask: Mask): Table {
      if fd !in events then this
      else
        var left := events[fd].mask - mask;
        if left == {} then Delete(fd)
        else Table(events[fd := events[fd].(mask := left)], listened, epoll[fd := left])
    }

    // Adding keeps the records in step exactly when epoll_ctl succeeds or had nothing
    // new to do.
    lemma AddAgrees(fd: int, mask: Mask, epollCtl: bool)
      requires Agree() && mask != {}
      ensures Add(fd, mask, epollCtl).Agree() <==> epollCtl || mask <= MaskOf(fd)
    {
      var t := Add(fd, mask, epollCtl);
      assert fd in t.events;
      if !epollCtl && mask <= MaskOf(fd) {
        assert fd in events;
        assert events[fd].mask + mask == events[fd].mask;
      }
    }

    // Adding keeps every event dispatchable exactly when it does not ask for both bits
    // at once, or the callback for writing was there already.
    lemma AddDispatches(fd: int, mask: Mask, epollCtl: bool)
      requires Dispatchable()
      ensures Add(fd, mask, epollCtl).Dispatchable() <==>
              (In in mask && Out in mask ==> fd in events && events[fd].onWrite)
    {
      var t := Add(fd, mask, epollCtl);
      assert fd in t.events;
      assert forall other :: other in t.events && other != fd ==> other in events && t.events[other] == events[other];
    }

    lemma AddMask(fd: int, mask: Mask, epollCtl: bool)
      ensures Add(fd, mask, epollCtl).MaskOf(fd) == MaskOf(fd) + mask
    {
    }

    // Deleting a descriptor makes up for whatever was added for it.
    lemma DeleteUndoesAdd(fd: int, mask: Mask, epollCtl: bool)
      ensures Add(fd, mask, epollCtl).Delete(fd) == Delete(fd)
    {
      var t := Add(fd, mask, epollCtl);
      assert t.Delete(fd).events == events - {fd};
      assert t.Delete(fd).epoll == epoll - {fd};
    }

    lemma DeleteUndoesRemove(fd: int, mask: Mask)
      ensures Remove(fd, mask).Delete(fd) == Delete(fd)
    {
      var t := Remove(fd, mask);
      assert t.Delete(fd).events == events - {fd};
      assert t.Delete(fd).epoll == epoll - {fd};
    }

    lemma RemoveKeeps(fd: int, mask: Mask)
      ensures Agree() ==> Remove(fd, mask).Agree()
      ensures Dispatchable() ==> Remove(fd, mask).Dispatchable()
      ensures Remove(fd, mask).MaskOf(fd) == MaskOf(fd) - mask
    {
    }

    // Adding and then removing interest in something new leaves the masks as they were.
    lemma RemoveUndoesAdd(fd: int, mask: Mask)
      requires Agree() && mask != {} && mask !! MaskOf(fd)
      ensures var t := Add(fd, mask, true).Remove(fd, mask);
              t.Agree() && t.epoll == epoll && forall other :: t.MaskOf(other) == MaskOf(other)
    {
      AddAgrees(fd, mask, true);
      var added := Add(fd, mask, true);
      added.RemoveKeeps(fd, mask);
      assert added.MaskOf(fd) - mask == MaskOf(fd);
      var t := added.Remove(fd, mask);
      forall other ensures t.MaskOf(other) == MaskOf(other) {
      }
      assert t.epoll.Keys == epoll.Keys;
    }
  }

  class EventLoop {
    var ioEvs: map<int, IOEvent>
    var listenFds: set<int>
    ghost var epoll: map<int, Mask>

    ghost function Tab(): Table
      reads this
    {
      Table(ioEvs, listenFds, epoll)
    }

    constructor ()
      ensures Tab() == Table(map[], {}, map[])
    {
      ioEvs, listenFds, epoll := map[], {}, map[];
    }

    method AddIoEvent(fd: int, mask: Mask, epollCtl: bool)
      modifies this
      ensures Tab() == old(Tab().Add(fd, mask, epollCtl))
    {
      var event := if fd in ioEvs then ioEvs[fd] else IOEvent({}, false, false);
      event := event.(mask := event.mask + mask);
      if In in mask {
        event := event.(onRead := true);
      } else if Out in mask {
        event := event.(onWrite := true);
      }
      ioEvs := ioEvs[fd := event];
      if !epollCtl {
        return;
      }
      epoll := epoll[fd := event.mask];
      listenFds := listenFds + {fd};
    }

    method DelIoEvent(fd: int)
      modifies this
      ensures Tab() == old(Tab().Delete(fd))
    {
      ioEvs := ioEvs - {fd};
      listenFds := listenFds - {fd};
      epoll := epoll - {fd};
    }

    method DelIoEventMask(fd: int, mask: Mask)
      modifies this
      ensures Tab() == old(Tab().Remove(fd, mask))
    {
      if fd !in ioEvs {
        return;
      }
      var left := ioEvs[fd].mask - mask;
      ioEvs := ioEvs[fd := ioEvs[fd].(mask := left)];
      if left == {} {
        DelIoEvent(fd);
        assert ioEvs == old(ioEvs) - {fd};
      } else {
        epoll := epoll[fd := left];
      }
    }
  }
}
