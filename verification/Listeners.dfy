/** The listeners of adb/adb_listeners.cpp and the disconnect callbacks of adb/transport.cpp. A
    listener that belongs to a transport has a callback on that transport's list. */
module Listeners {
  import opened Lists

  class Listener {
    const localName: string
    var connectTo: string
    var transport: Transport?

    constructor (localName: string, connectTo: string, transport: Transport?)
      ensures this.localName == localName && this.connectTo == connectTo && this.transport == transport
    {
      this.localName, this.connectTo, this.transport := localName, connectTo, transport;
    }
  }

  /** adisconnect: that of a listener, or somebody else's. */
  datatype Disconnect = OfListener(listener: Listener) | OfOther(id: nat)

  class Transport {
    var disconnects: seq<Disconnect>

    constructor ()
      ensures disconnects == []
    {
      disconnects := [];
    }
  }

  datatype Status = Ok | CannotBind | CannotRebind | CannotRepurpose | NullDereference

  /** connect_to[0] == '*'. */
  predicate IsSmart(connectTo: string) {
    connectTo != [] && connectTo[0] == '*'
  }

  class Registry {
    var listeners: seq<Listener>
    ghost const transports: set<Transport>

    /** A listener with a transport is on that transport's list, once, and on no other. */
    ghost predicate Valid()
      reads this, listeners, transports
    {
      && Once(listeners)
      && (forall l :: l in listeners && l.transport != null ==>
            l.transport in transports && OfListener(l) in l.transport.disconnects)
      && (forall t :: t in transports ==> Once(t.disconnects))
      && (forall t, d :: t in transports && d in t.disconnects && d.OfListener? ==>
            d.listener in listeners && d.listener.transport == t)
    }

    constructor (ghost transports: set<Transport>)
      requires forall t :: t in transports ==> t.disconnects == []
      ensures Valid() && this.transports == transports && listeners == []
    {
      this.transports := transports;
      listeners := [];
    }

    /** The first listener of that name. */
    ghost predicate First(i: nat, name: string)
      reads this
    {
      && i < |listeners| && listeners[i].localName == name
      && forall k :: 0 <= k < i ==> listeners[k].localName != name
    }

    /** The index of the first listener of that name. */
    method Find(name: string) returns (i: nat)
      ensures i <= |listeners| && (i < |listeners| ==> First(i, name))
      ensures i == |listeners| ==> forall k :: 0 <= k < i ==> listeners[k].localName != name
    {
      i := 0;
      while i < |listeners| && listeners[i].localName != name
        invariant i <= |listeners|
        invariant forall k :: 0 <= k < i ==> listeners[k].localName != name
      {
        i := i + 1;
      }
    }

    /** Erases a listener from the list, which destroys it: ~alistener takes it off its transport. */
    method Erase(i: nat)
      requires Valid() && i < |listeners|
      modifies this, listeners[i].transport
      ensures Valid() && listeners == Without(old(listeners), old(listeners[i]))
      ensures listeners == old(listeners)[..i] + old(listeners)[i + 1..]
      ensures var t := old(listeners[i].transport);
              t != null ==> t.disconnects == Without(old(t.disconnects), OfListener(old(listeners[i])))
    {
      var l := listeners[i];
      WithoutAt(listeners, i);
      listeners := listeners[..i] + listeners[i + 1..];
      if l.transport != null {
        l.transport.disconnects := Without(l.transport.disconnects, OfListener(l));
      }
    }

    method RemoveListener(name: string) returns (found: bool)
      requires Valid()
      modifies this, transports
      ensures Valid()
      ensures found <==> exists i: nat :: old(First(i, name))
      ensures !found ==> listeners == old(listeners)
      ensures forall i: nat :: old(First(i, name)) ==> listeners == Without(old(listeners), old(listeners)[i])
    {
      var i := Find(name);
      found := i < |listeners|;
      if found {
        Erase(i);
      }
    }

    /** Everything but the smart sockets. */
    method RemoveAllListeners()
      requires Valid()
      modifies this, transports
      ensures Valid() && listeners == Minus(old(listeners), Ordinary(old(listeners)))
      ensures forall l :: l in listeners <==> l in old(listeners) && old(l.connectTo != [] && l.connectTo[0] == '*')
    {
      var i := 0;
      ghost var all, gone, ordinary := listeners, {}, Ordinary(listeners);
      MinusNone(all);
      while i < |listeners|
        invariant Valid() && 0 <= i <= |listeners|
        invariant listeners == Minus(all, gone) && gone <= ordinary
        invariant forall l :: l in listeners[..i] ==> l !in ordinary
        decreases |listeners| - i
      {
        if IsSmart(listeners[i].connectTo) {
          assert listeners[..i + 1] == listeners[..i] + [listeners[i]];
          i := i + 1;
        } else {
          ghost var before := listeners[..i];
          MinusOneMore(all, gone, listeners[i]);
          gone := gone + {listeners[i]};
          Erase(i);
          assert listeners[..i] == before;
        }
      }
      assert listeners[..i] == listeners;
      assert gone == ordinary;
    }

    ghost function Ordinary(list: seq<Listener>): set<Listener>
      reads list
    {
      set l | l in list && !IsSmart(l.connectTo)
    }

    /** The same listener, for another service and perhaps another transport. */
    method Rebind(i: nat, connectTo: string, to: Transport?)
      requires Valid() && i < |listeners| && (to != null ==> to in transports)
      requires listeners[i].transport != to ==> listeners[i].transport != null && to != null
      modifies listeners[i], listeners[i].transport, to
      ensures Valid() && listeners[i].connectTo == connectTo && listeners[i].transport == to
    {
      var l := listeners[i];
      l.connectTo := connectTo;
      if l.transport != to {
        l.transport.disconnects := Without(l.transport.disconnects, OfListener(l));
        l.transport := to;
        to.disconnects := to.disconnects + [OfListener(l)];
      }
    }

    method AddListener(name: string, connectTo: string, to: Transport?)
      requires Valid() && (to != null ==> to in transports)
      modifies this, to
      ensures Valid() && |listeners| == |old(listeners)| + 1 && listeners[..|old(listeners)|] == old(listeners)
      ensures var l := listeners[|old(listeners)|];
              fresh(l) && l.localName == name && l.connectTo == connectTo && l.transport == to
    {
      var l := new Listener(name, connectTo, to);
      if to != null {
        to.disconnects := to.disconnects + [OfListener(l)];
      }
      listeners := listeners + [l];
    }

    /** install_listener. `bound` and `resolved` are what socket_spec_listen() comes back with. A null
        pointer is followed, if and only if the listener would move from or to no transport at all. */
    method Install(name: string, connectTo: string, to: Transport?, noRebind: bool, bound: bool, resolved: string)
      returns (status: Status)
      requires Valid() && (to != null ==> to in transports)
      modifies this, listeners, transports
      ensures Valid() && |old(listeners)| <= |listeners| && listeners[..|old(listeners)|] == old(listeners)
      ensures forall i: nat :: old(First(i, name)) ==>
                && |listeners| == |old(listeners)|
                && var (service, from) := old((listeners[i].connectTo, listeners[i].transport));
                   var smart := service != [] && service[0] == '*';
                && (status.CannotRepurpose? <==> smart)
                && (status.CannotRebind? <==> !smart && noRebind)
                && (status.NullDereference? <==> !smart && !noRebind && from != to && (from == null || to == null))
                && !status.CannotBind?
                && (status.Ok? ==> listeners[i].connectTo == connectTo && listeners[i].transport == to)
      ensures (forall i: nat :: !old(First(i, name))) ==>
                && status == (if bound then Ok else CannotBind)
                && |listeners| == |old(listeners)| + (if bound then 1 else 0)
                && (bound ==> var l := listeners[|old(listeners)|];
                      && fresh(l) && l.localName == (if resolved == "" then name else resolved)
                      && l.connectTo == connectTo && l.transport == to)
      ensures forall l :: l in old(listeners) && (l.localName != name || !status.Ok?) ==>
                l.transport == old(l.transport) && l.connectTo == old(l.connectTo)
    {
      var i := Find(name);
      if i < |listeners| {
        assert First(i, name);
        if IsSmart(listeners[i].connectTo) {
          return CannotRepurpose;
        }
        if noRebind {
          return CannotRebind;
        }
        if listeners[i].transport != to && (listeners[i].transport == null || to == null) {
          return NullDereference;
        }
        Rebind(i, connectTo, to);
        return Ok;
      }
      if !bound {
        return CannotBind;
      }
      AddListener(if resolved == "" then name else resolved, connectTo, to);
      status := Ok;
    }

    /** listener_disconnect: the listener forgets its transport before it is destroyed, so that the
        list of callbacks which is being run stays as it is. */
    method ListenerDisconnect(l: Listener)
      requires Once(listeners)
      modifies this, l
      ensures listeners == Without(old(listeners), l)
      ensures l.transport == if l in old(listeners) then null else old(l.transport)
    {
      for i := 0 to |listeners|
        invariant listeners == old(listeners) && l.transport == old(l.transport)
        invariant l !in listeners[..i]
      {
        assert listeners[..i + 1] == listeners[..i] + [listeners[i]];
        if listeners[i] == l {
          WithoutAt(listeners, i);
          l.transport := null;
          listeners := listeners[..i] + listeners[i + 1..];
          return;
        }
      }
      assert listeners[..|listeners|] == listeners;
      WithoutAbsent(listeners, l);
    }

    /** Calls the callbacks one by one. The list that is iterated does not change, as t is not modified. */
    method CallDisconnects(t: Transport) returns (called: seq<nat>)
      requires Once(listeners) && forall l :: l in ListenersOf(t.disconnects) ==> l in listeners
      modifies this, listeners
      ensures listeners == Minus(old(listeners), ListenersOf(t.disconnects))
      ensures forall l :: l in listeners ==> l.transport == old(l.transport)
      ensures called == OthersOf(t.disconnects)
    {
      called := [];
      ghost var all, list := listeners, t.disconnects;
      MinusNone(all);
      assert ListenersOf(list[..0]) == {};
      for i := 0 to |t.disconnects|
        invariant listeners == Minus(all, ListenersOf(list[..i]))
        invariant forall l :: l in listeners ==> l.transport == old(l.transport)
        invariant called == OthersOf(list[..i])
      {
        assert list[..i + 1] == list[..i] + [list[i]];
        OfAppend(list[..i], list[i]);
        match t.disconnects[i]
        case OfListener(l) =>
          MinusOneMore(all, ListenersOf(list[..i]), l);
          assert l in ListenersOf(list);
          ListenerDisconnect(l);
        case OfOther(id) =>
          called := called + [id];
      }
      assert list[..|list|] == list;
    }

    /** RunDisconnects: exactly that transport's listeners go, the others stay in their order. The
        callbacks of others are called as well, each once. */
    method RunDisconnects(t: Transport) returns (called: seq<nat>)
      requires Valid() && t in transports
      modifies this, listeners, t
      ensures Valid() && t.disconnects == []
      ensures listeners == Minus(old(listeners), ListenersOf(old(t.disconnects)))
      ensures forall l :: l in listeners ==> l.transport == old(l.transport) != t
      ensures forall l :: l in old(listeners) && old(l.transport) != t ==> l in listeners
      ensures called == OthersOf(old(t.disconnects))
    {
      called := CallDisconnects(t);
      t.disconnects := [];
    }
  }

  ghost function ListenersOf(list: seq<Disconnect>): set<Listener> {
    set d | d in list && d.OfListener? :: d.listener
  }

  function OthersOf(list: seq<Disconnect>): seq<nat> {
    if list == [] then []
    else OthersOf(list[..|list| - 1]) + if list[|list| - 1].OfOther? then [list[|list| - 1].id] else []
  }

  lemma OfAppend(list: seq<Disconnect>, d: Disconnect)
    ensures ListenersOf(list + [d]) == if d.OfListener? then ListenersOf(list) + {d.listener} else ListenersOf(list)
    ensures OthersOf(list + [d]) == OthersOf(list) + if d.OfOther? then [d.id] else []
  {
    assert (list + [d])[..|list|] == list;
  }

  /** A listener without a transport is rebound to one. */
  method NullTransport() returns (status: Status)
    ensures status == NullDereference
  {
    var t := new Transport();
    var registry := new Registry({t});
    var first := registry.Install("tcp:1", "tcp:2", null, false, true, "");
    assert registry.First(0, "tcp:1");
    status := registry.Install("tcp:1", "tcp:3", t, false, true, "");
  }
}
