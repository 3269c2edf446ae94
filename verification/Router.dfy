/** The router object and its interfaces. */
module Routers {
  import opened Words
  import opened Ipv4
  import opened Arp
  import opened ArpLaws
  import opened NetworkInterfaces
  import opened Routing

  /** An interface that keeps the datagrams it receives until its owner collects them. */
  class AsyncNetworkInterface {
    const inner: NetworkInterface
    var datagramsOut: seq<Datagram>

    constructor (mac: Mac, ip: u32)
      ensures inner.Valid() && inner.State() == NewInterface(mac, ip) && datagramsOut == [] && fresh(inner)
    {
      inner := new NetworkInterface(mac, ip);
      datagramsOut := [];
    }

    method RecvFrame(frame: Frame) returns (ok: bool)
      requires inner.Valid()
      modifies this, inner
      ensures inner.Valid() && inner.State() == Receive(old(inner.State()), frame).0
      ensures ok == !Receive(old(inner.State()), frame).1.Threw?
      ensures datagramsOut == match Receive(old(inner.State()), frame).1
                              case HandedUp(d) => old(datagramsOut) + [d]
                              case _ => old(datagramsOut)
    {
      hide Learn, LearnThrows, AInv;
      var outcome := inner.RecvFrame(frame);
      if outcome.HandedUp? {
        datagramsOut := datagramsOut + [outcome.dgram];
      }
      return !outcome.Threw?;
    }
  }

  /** What routing leaves behind: the interfaces, the datagrams still queued, and whether it went
      through or threw. */
  datatype Routed = Routed(states: seq<Interface>, left: seq<Datagram>, ok: bool)

  /** One datagram. A route that names an interface there is not, or a datagram that is to be sent and
      does not print, makes the program throw with the datagram changed but not sent. */
  function Carried(states: seq<Interface>, d: Decision): (seq<Interface>, bool) {
    match d
    case Drop => (states, true)
    case Forward(iface, hop, dgram) =>
      if iface < |states| then
        (states[iface := Send(states[iface], dgram, hop)], !SendThrows(states[iface], dgram, hop))
      else (states, false)
  }

  /** A queue of datagrams, up to the one that throws, which stays at the front with its time to live
      lowered. */
  function CarriedAll(routes: seq<Route>, states: seq<Interface>, dgrams: seq<Datagram>): Routed
    decreases |dgrams|
  {
    if dgrams == [] then Routed(states, [], true)
    else
      var d := Decide(routes, dgrams[0]);
      var (states', ok) := Carried(states, d);
      if ok then CarriedAll(routes, states', dgrams[1..])
      else Routed(states', [d.dgram] + dgrams[1..], false)
  }

  /** The queues of all interfaces from number `k` on. */
  function CarriedQueues(routes: seq<Route>, states: seq<Interface>, queues: seq<seq<Datagram>>, k: nat):
    (seq<Interface>, seq<seq<Datagram>>, bool)
    requires k <= |queues|
    decreases |queues| - k
  {
    if k == |queues| then (states, queues, true)
    else
      var r := CarriedAll(routes, states, queues[k]);
      if r.ok then CarriedQueues(routes, r.states, queues[k := []], k + 1)
      else (r.states, queues[k := r.left], false)
  }

  /** All queued datagrams, interface by interface. */
  function Concat(queues: seq<seq<Datagram>>): seq<Datagram> {
    if queues == [] then [] else queues[0] + Concat(queues[1..])
  }

  lemma ConcatFrom(queues: seq<seq<Datagram>>, k: nat)
    requires k < |queues|
    ensures Concat(queues[k..]) == queues[k] + Concat(queues[k + 1..])
  {
    assert queues[k..][1..] == queues[k + 1..];
  }

  lemma {:induction false} CarriedConcat(routes: seq<Route>, states: seq<Interface>, a: seq<Datagram>, b: seq<Datagram>)
    ensures var r := CarriedAll(routes, states, a);
            CarriedAll(routes, states, a + b)
            == if r.ok then CarriedAll(routes, r.states, b) else Routed(r.states, r.left + b, false)
    ensures CarriedAll(routes, states, a).ok ==> CarriedAll(routes, states, a).left == []
    decreases |a|
  {
    hide Decide, Carried;
    if a == [] {
      assert a + b == b;
    } else {
      assert (a + b)[1..] == a[1..] + b;
      var d := Decide(routes, a[0]);
      CarriedConcat(routes, Carried(states, d).0, a[1..], b);
      assert [a[0]] + a[1..] == a;
      if !Carried(states, d).1 {
        OnlyForwardingFails(states, d);
        assert [d.dgram] + a[1..] + b == [d.dgram] + (a[1..] + b);
      }
    }
  }

  /** Working through all queues is working through their concatenation: it leaves the same interfaces,
      succeeds together with it, and what stays queued is the same, in the same order; after a success
      nothing does. */
  lemma {:induction false} QueuesConcat(routes: seq<Route>, states: seq<Interface>, queues: seq<seq<Datagram>>, k: nat)
    requires k <= |queues|
    ensures var (states', queues', ok) := CarriedQueues(routes, states, queues, k);
      && |queues'| == |queues| && queues'[..k] == queues[..k]
      && CarriedAll(routes, states, Concat(queues[k..])) == Routed(states', Concat(queues'[k..]), ok)
      && (ok ==> forall j :: k <= j < |queues| ==> queues'[j] == [])
    decreases |queues| - k
  {
    hide Decide, Carried, CarriedAll;
    if k == |queues| {
      assert queues[k..] == [];
      NothingCarried(routes, states);
    } else {
      ConcatFrom(queues, k);
      var r := CarriedAll(routes, states, queues[k]);
      CarriedConcat(routes, states, queues[k], Concat(queues[k + 1..]));
      var after := queues[k := if r.ok then [] else r.left];
      assert after[k + 1..] == queues[k + 1..] && after[..k] == queues[..k];
      if r.ok {
        QueuesConcat(routes, r.states, after, k + 1);
        var queues' := CarriedQueues(routes, r.states, after, k + 1).1;
        assert queues'[..k] == queues'[..k + 1][..k] && queues'[k] == queues'[..k + 1][k];
        ConcatFrom(queues', k);
      } else {
        ConcatFrom(after, k);
      }
    }
  }

  lemma OnlyForwardingFails(states: seq<Interface>, d: Decision)
    requires !Carried(states, d).1
    ensures d.Forward?
  {
  }

  lemma NothingCarried(routes: seq<Route>, states: seq<Interface>)
    ensures CarriedAll(routes, states, []) == Routed(states, [], true)
  {
  }

  /** Where a datagram goes: with a time to live above one, out of the interface of the first-added longest
      route that matches, with one less to live, addressed to that route's gateway if it has one and to
      the destination itself otherwise; that interface's record goes on with the submission, and no other
      changes. With no matching route or nothing left to live it goes nowhere. */
  ghost predicate RoutedRight(routes: seq<Route>, states: seq<Interface>, dgram: Datagram,
                              states': seq<Interface>, ok: bool) {
    var dest, ttl := dgram.header.dst, dgram.header.ttl;
    && (forall b: nat :: IsLongest(routes, dest, b) && ttl > 1 ==>
          var hop := if routes[b].nextHop.Some? then routes[b].nextHop.value else dest;
          ForwardedTo(states, routes[b].iface, hop, dgram.(header := dgram.header.(ttl := ttl - 1)), states', ok))
    && ((forall b: nat :: !IsLongest(routes, dest, b)) || ttl <= 1 ==> states' == states && ok)
  }

  ghost predicate ForwardedTo(states: seq<Interface>, iface: nat, hop: u32, dgram: Datagram,
                              states': seq<Interface>, ok: bool) {
    if iface < |states| then
      && |states'| == |states| && states' == states[iface := states'[iface]]
      && states'[iface] == Send(states[iface], dgram, hop) && ok == !SendThrows(states[iface], dgram, hop)
      && states[iface].log + [Submitted(hop, dgram)] <= states'[iface].log
    else states' == states && !ok
  }

  lemma CarriesRight(routes: seq<Route>, states: seq<Interface>, dgram: Datagram)
    ensures var (states', ok) := Carried(states, Decide(routes, dgram));
            |states'| == |states| && RoutedRight(routes, states, dgram, states', ok)
  {
    hide Best, IsLongest, SendThrows;
    var dest := dgram.header.dst;
    var best := Best(routes, dest, |routes|);
    forall b: nat ensures IsLongest(routes, dest, b) <==> best == Some(b) {
      BestIff(routes, dest, b);
    }
  }

  /** A queue is worked through in order until a datagram fails: those before it have gone through, it has
      been lowered and stays in front of the rest, and nothing has been sent of the rest. */
  lemma {:induction false} QueueStopsAt(routes: seq<Route>, states: seq<Interface>, dgrams: seq<Datagram>)
    returns (k: nat)
    ensures var r := CarriedAll(routes, states, dgrams);
      if r.ok then k == |dgrams| && r.left == []
      else
        && k < |dgrams| && CarriedAll(routes, states, dgrams[..k]).ok && dgrams[k].header.ttl > 1
        && r.left == [dgrams[k].(header := dgrams[k].header.(ttl := dgrams[k].header.ttl - 1))] + dgrams[k + 1..]
        && RoutedRight(routes, CarriedAll(routes, states, dgrams[..k]).states, dgrams[k], r.states, false)
    decreases |dgrams|
  {
    hide RoutedRight, Carried, Best;
    k := 0;
    if dgrams == [] {
    } else {
      var d := Decide(routes, dgrams[0]);
      CarriesRight(routes, states, dgrams[0]);
      if Carried(states, d).1 {
        var j := QueueStopsAt(routes, Carried(states, d).0, dgrams[1..]);
        k := j + 1;
        if j < |dgrams| - 1 {
          assert dgrams[..k][0] == dgrams[0] && dgrams[..k][1..] == dgrams[1..][..j];
          assert dgrams[1..][j + 1..] == dgrams[k + 1..];
        }
      } else {
        OnlyForwardingFails(states, d);
        assert dgrams[..0] == [];
      }
    }
  }

  class Router {
    var routes: seq<Route>
    var interfaces: seq<AsyncNetworkInterface>

    ghost function Inners(): set<NetworkInterface>
      reads this
    {
      set k | 0 <= k < |interfaces| :: interfaces[k].inner
    }

    ghost predicate Valid()
      reads this, Inners()
    {
      && (forall j, k :: 0 <= j < k < |interfaces| ==>
            (interfaces[j] != interfaces[k] && interfaces[j].inner != interfaces[k].inner))
      && (forall k :: 0 <= k < |interfaces| ==> interfaces[k].inner.Valid())
    }

    ghost function States(): seq<Interface>
      reads this, Inners()
    {
      seq(|interfaces|, k requires 0 <= k < |interfaces| reads this, Inners() => interfaces[k].inner.State())
    }

    ghost function Queues(): seq<seq<Datagram>>
      reads this, interfaces
    {
      seq(|interfaces|, k requires 0 <= k < |interfaces| reads this, interfaces => interfaces[k].datagramsOut)
    }

    constructor ()
      ensures Valid() && routes == [] && interfaces == []
    {
      routes, interfaces := [], [];
    }

    method AddInterface(a: AsyncNetworkInterface) returns (n: nat)
      requires Valid() && a !in interfaces && a.inner !in Inners() && a.inner.Valid()
      modifies this`interfaces
      ensures Valid() && n == |old(interfaces)| && interfaces == old(interfaces) + [a]
    {
      interfaces := interfaces + [a];
      n := |interfaces| - 1;
    }

    method AddRoute(prefix: u32, len: PrefixLength, nextHop: Option<u32>, iface: nat)
      modifies this`routes
      ensures routes == old(routes) + [Route(prefix, len, nextHop, iface)]
    {
      routes := routes + [Route(prefix, len, nextHop, iface)];
    }

    /** The search for the longest matching prefix. */
    method FindRoute(dest: u32) returns (best: Option<nat>)
      ensures best == Best(routes, dest, |routes|)
    {
      hide Matches;
      var bestLength := 0;
      best := None;
      for n := 0 to |routes|
        invariant best == Best(routes, dest, n)
        invariant best.Some? ==> bestLength == routes[best.value].len
      {
        var r := routes[n];
        var matches := MatchesPrefix(r, dest);
        if matches {
          if best == None || r.len > bestLength {
            bestLength := r.len;
            best := Some(n);
          }
        }
      }
    }

    method MatchesPrefix(r: Route, dest: u32) returns (b: bool)
      ensures b == Matches(r, dest)
    {
      var mask := Mask(r.len);
      b := And(dest, mask) == And(r.prefix, mask);
    }

    /** Send one datagram on, drop it, or fail because its route names no interface or because it does
        not print; its time to live may have been lowered by then. */
    method RouteOneDatagram(dgram: Datagram) returns (ok: bool, after: Datagram)
      requires Valid()
      modifies Inners()
      ensures var (states, went) := Carried(old(States()), Decide(routes, dgram));
        Valid() && States() == states && ok == went
      ensures Decide(routes, dgram).Forward? ==> after == Decide(routes, dgram).dgram
      ensures RoutedRight(routes, old(States()), dgram, States(), ok)
    {
      CarriesRight(routes, States(), dgram);
      hide RoutedRight, Best, AInv, NetworkInterface.Valid, NetworkInterface.State, Send, SendThrows;
      after := dgram;
      var dest := dgram.header.dst;
      var best := FindRoute(dest);
      if best == None {
        return true, after;
      }
      if dgram.header.ttl == 0 {
        return true, after;
      }
      var ttl := dgram.header.ttl - 1;
      after := dgram.(header := dgram.header.(ttl := ttl));
      if ttl == 0 {
        return true, after;
      }
      var route := routes[best.value];
      var nextHop := if route.nextHop.Some? then route.nextHop.value else dest;
      if route.iface >= |interfaces| {
        return false, after;
      }
      ok := interfaces[route.iface].inner.SendDatagram(after, nextHop);
    }

    /** Route everything that has arrived, interface by interface. */
    method RouteAll() returns (ok: bool)
      requires Valid()
      modifies Inners(), interfaces
      ensures var (states, queues, went) := CarriedQueues(routes, old(States()), old(Queues()), 0);
        Valid() && States() == states && Queues() == queues && ok == went
    {
      hide Carried, CarriedAll, Decide, States, Inners, Valid, NetworkInterface.Valid, AInv;
      var k := 0;
      while k < |interfaces|
        invariant Valid() && k <= |interfaces| == |Queues()|
        invariant CarriedQueues(routes, States(), Queues(), k) == CarriedQueues(routes, old(States()), old(Queues()), 0)
      {
        ok := RouteQueue(k);
        if !ok {
          return;
        }
        k := k + 1;
      }
      return true;
    }

    method RouteQueue(k: nat) returns (ok: bool)
      requires Valid() && k < |interfaces|
      modifies Inners(), interfaces[k]
      ensures Valid() && |Queues()| == |interfaces|
      ensures var r := CarriedAll(routes, old(States()), old(Queues())[k]);
        States() == r.states && ok == r.ok && Queues() == old(Queues())[k := if ok then [] else r.left]
    {
      hide Carried, Decide, States, Inners, AInv, NetworkInterface.Valid, NetworkInterface.State;
      var a := interfaces[k];
      ghost var goal := CarriedAll(routes, States(), a.datagramsOut);
      while a.datagramsOut != []
        invariant Valid() && a == interfaces[k]
        invariant CarriedAll(routes, States(), a.datagramsOut) == goal
        decreases |a.datagramsOut|
      {
        ghost var before, front := States(), a.datagramsOut[0];
        var after: Datagram;
        ok, after := RouteOneDatagram(a.datagramsOut[0]);
        if !ok {
          OnlyForwardingFails(before, Decide(routes, front));
          a.datagramsOut := [after] + a.datagramsOut[1..];
          return;
        }
        a.datagramsOut := a.datagramsOut[1..];
      }
      return true;
    }
  }
}
