// One client connection of the DNS service and the keys it has subscribed to.

module DnsServices {
  import opened Words
  import opened DnsRoutes
  import opened Subscriptions

  datatype Param = Missing | Subscribed(mods: set<uint64>)

  class Client {
    const fd: int32
    var param: Param

    constructor (fd: int32)
      ensures this.fd == fd && param == Missing
    {
      this.fd := fd;
      param := Missing;
    }

    // The hook of a new connection.
    method CreateSubscribe()
      modifies this
      ensures param == Subscribed({})
    {
      param := Subscribed({});
    }

    // A route request: subscribes at the first one for a key, and answers with its hosts.
    // In the steps of Subscriptions this is a Request and, for a new key, an Index.
    method GetRoute(list: SubscribeList, route: Route, modid: int32, cmdid: int32)
      returns (answered: bool, hosts: set<uint64>)
      modifies this, list`bookList
      ensures answered == old(param).Subscribed?
      ensures !answered ==> param == old(param) && hosts == {} && list.bookList == old(list.bookList)
      ensures answered ==> var mod, mods := Key(modid, cmdid), old(param).mods;
              && param == Subscribed(mods + {mod})
              && list.bookList == (if mod in mods then old(list.bookList) else Book(old(list.bookList), mod, fd))
              && hosts == Find(route.View().data, mod)
    {
      hide Key;
      answered, hosts := false, {};
      var mod := Key(modid, cmdid);
      if param == Missing {
        return;
      }
      if mod !in param.mods {
        param := Subscribed(param.mods + {mod});
        list.Subscribe(mod, fd);
      } else {
        assert param.mods + {mod} == param.mods;
      }
      hosts := route.GetHosts(modid, cmdid);
      answered := true;
    }

    // The hook of a closing connection: afterwards it is under none of its keys.
    method ClearSubscribe(list: SubscribeList)
      requires param.Subscribed? && NoneEmpty(list.bookList)
      modifies this, list`bookList
      ensures param == Missing && NoneEmpty(list.bookList)
      ensures forall m, f :: Booked(list.bookList, m, f) <==>
                             Booked(old(list.bookList), m, f) && !(f == fd && m in old(param).mods)
    {
      var rest := param.mods;
      while rest != {}
        invariant rest <= old(param).mods && NoneEmpty(list.bookList) && param == old(param)
        invariant forall m, f :: Booked(list.bookList, m, f) <==>
                                 Booked(old(list.bookList), m, f) && !(f == fd && m in old(param).mods - rest)
        decreases rest
      {
        var mod :| mod in rest;
        UnbookRemoves(list.bookList, mod, fd);
        list.Unsubscribe(mod, fd);
        rest := rest - {mod};
      }
      param := Missing;
    }
  }
}
