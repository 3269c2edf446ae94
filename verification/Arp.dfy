/** The network interface: sending datagrams over Ethernet, and asking for addresses by ARP. */
module Arp {
  import opened Words
  import opened Ipv4

  type Mac = seq<u8>

  const BROADCAST: Mac := [0xff, 0xff, 0xff, 0xff, 0xff, 0xff]
  const NO_MAC: Mac := [0, 0, 0, 0, 0, 0]
  const REQUEST_INTERVAL: nat := 5000
  const ENTRY_LIFETIME: nat := 30000

  datatype Opcode = Request | Reply
  datatype ArpMessage = ArpMessage(opcode: Opcode, senderMac: Mac, senderIp: u32, targetMac: Mac, targetIp: u32)

  /** A frame's payload by its type; one that does not parse as its type says is unreadable. */
  datatype Payload = Ip(dgram: Datagram) | Arp(msg: ArpMessage) | Unreadable | OtherType
  datatype Frame = Frame(dst: Mac, src: Mac, payload: Payload)

  datatype Entry = Entry(mac: Mac, ttl: nat)

  /** What has happened at an interface, in order, with the time of each event. */
  datatype Event =
    | Submitted(hop: u32, dgram: Datagram)
    | SentIp(hop: u32, mac: Mac, dgram: Datagram, at: nat)
    | Asked(ip: u32, at: nat)
    | Answered(mac: Mac, ip: u32)
    | Learned(ip: u32, mac: Mac, at: nat)

  datatype Interface = Interface(
    mac: Mac, ip: u32, table: map<u32, Entry>, pending: map<u32, seq<Datagram>>, timers: map<u32, nat>,
    log: seq<Event>, now: nat)

  function NewInterface(mac: Mac, ip: u32): Interface {
    Interface(mac, ip, map[], map[], map[], [], 0)
  }

  /** The frame an event put on the queue, if it did. */
  function FrameOf(mac: Mac, ip: u32, e: Event): seq<Frame> {
    match e
    case SentIp(_, dst, dgram, _) => [Frame(dst, mac, Ip(dgram))]
    case Asked(target, _) => [Frame(BROADCAST, mac, Arp(ArpMessage(Request, mac, ip, NO_MAC, target)))]
    case Answered(dst, target) => [Frame(dst, mac, Arp(ArpMessage(Reply, mac, ip, dst, target)))]
    case Submitted(_, _) => []
    case Learned(_, _, _) => []
  }

  function FramesOf(mac: Mac, ip: u32, log: seq<Event>): seq<Frame> {
    if log == [] then [] else FrameOf(mac, ip, log[0]) + FramesOf(mac, ip, log[1..])
  }

  // ---- the operations ----

  function Logged(i: Interface, events: seq<Event>): Interface {
    i.(log := i.log + events)
  }

  function Waiting(i: Interface, ip: u32): seq<Datagram> {
    if ip in i.pending then i.pending[ip] else []
  }

  predicate MayAsk(i: Interface, ip: u32) {
    ip !in i.timers || i.timers[ip] == 0
  }

  /** Printing a datagram can fail; the program then throws in the middle of what it is doing. */
  predicate Prints(dgram: Datagram) {
    DatagramText(dgram).Some?
  }

  predicate Known(i: Interface, hop: u32) {
    hop in i.table && i.table[hop].ttl > 0
  }

  predicate SendThrows(i: Interface, dgram: Datagram, hop: u32) {
    Known(i, hop) && !Prints(dgram)
  }

  /** The interface after a datagram was submitted, also when printing it threw. */
  function Send(i: Interface, dgram: Datagram, hop: u32): Interface {
    if SendThrows(i, dgram, hop) then
      Logged(i, [Submitted(hop, dgram)])
    else if Known(i, hop) then
      Logged(i, [Submitted(hop, dgram), SentIp(hop, i.table[hop].mac, dgram, i.now)])
    else
      var waits := i.(pending := i.pending[hop := Waiting(i, hop) + [dgram]]);
      if MayAsk(i, hop) then
        Logged(waits.(timers := i.timers[hop := REQUEST_INTERVAL]), [Submitted(hop, dgram), Asked(hop, i.now)])
      else
        Logged(waits, [Submitted(hop, dgram)])
  }

  /** The datagrams before the first one that does not print. */
  function Printing(dgrams: seq<Datagram>): seq<Datagram> {
    if dgrams == [] || !Prints(dgrams[0]) then [] else [dgrams[0]] + Printing(dgrams[1..])
  }

  /** The events of sending what waited for an address. */
  function Flush(hop: u32, mac: Mac, dgrams: seq<Datagram>, at: nat): seq<Event> {
    if dgrams == [] then [] else [SentIp(hop, mac, dgrams[0], at)] + Flush(hop, mac, dgrams[1..], at)
  }

  /** Flushing what waited for the sender of a message stops at a datagram that does not print. */
  predicate LearnThrows(i: Interface, msg: ArpMessage) {
    Printing(Waiting(i, msg.senderIp)) != Waiting(i, msg.senderIp)
  }

  /** The interface after an ARP message, also when the flush threw: then the address is known, part of
      what waited has been sent, and all of it still waits. */
  function Learn(i: Interface, msg: ArpMessage): Interface {
    var answer := if msg.opcode == Request && msg.targetIp == i.ip then [Answered(msg.senderMac, msg.senderIp)] else [];
    var i' := Logged(i.(table := i.table[msg.senderIp := Entry(msg.senderMac, ENTRY_LIFETIME)]),
                     [Learned(msg.senderIp, msg.senderMac, i.now)] + answer);
    if msg.senderIp in i.pending then
      var flush := Flush(msg.senderIp, msg.senderMac, Printing(i.pending[msg.senderIp]), i.now);
      if LearnThrows(i, msg) then Logged(i', flush)
      else Logged(i'.(pending := i.pending - {msg.senderIp}, timers := i.timers - {msg.senderIp}), flush)
    else i'
  }

  /** What the caller of a reception sees. */
  datatype Outcome = Done | HandedUp(dgram: Datagram) | Threw

  function Receive(i: Interface, frame: Frame): (Interface, Outcome) {
    if frame.dst != i.mac && frame.dst != BROADCAST then (i, Done)
    else match frame.payload
      case Ip(dgram) => (i, HandedUp(dgram))
      case Arp(msg) => (Learn(i, msg), if LearnThrows(i, msg) then Threw else Done)
      case Unreadable => (i, Done)
      case OtherType => (i, Done)
  }

  /** Entries and timers after `ms` more milliseconds. */
  function AgedTable(i: Interface, ms: nat): map<u32, Entry> {
    map ip | ip in i.table && i.table[ip].ttl > ms :: Entry(i.table[ip].mac, i.table[ip].ttl - ms)
  }

  function AgedTimers(i: Interface, ms: nat): map<u32, nat> {
    map ip | ip in i.timers :: if i.timers[ip] <= ms then 0 else i.timers[ip] - ms
  }

  function Aged(i: Interface, ms: nat): Interface {
    i.(table := AgedTable(i, ms), timers := AgedTimers(i, ms), now := i.now + ms)
  }

  /** The addresses somebody still waits for and that may be asked for again. */
  function Due(i: Interface): set<u32> {
    set ip | ip in i.pending && i.pending[ip] != [] && MayAsk(i, ip)
  }

  /** One request for each of the given addresses, in some order. */
  ghost predicate Requests(asks: seq<Event>, due: set<u32>, at: nat) {
    && (forall k :: 0 <= k < |asks| ==> asks[k].Asked? && asks[k].ip in due && asks[k].at == at)
    && (forall ip :: ip in due ==> Asked(ip, at) in asks)
    && (forall j, k :: 0 <= j < k < |asks| ==> asks[j] != asks[k])
  }

  function Asking(i: Interface, ips: set<u32>): map<u32, nat> {
    map ip | ip in i.timers.Keys + ips :: if ip in ips then REQUEST_INTERVAL else i.timers[ip]
  }

  /** Time passes: everything ages, and what is due is asked for, in no particular order. */
  ghost predicate Ticks(i: Interface, ms: nat, asks: seq<Event>, i': Interface) {
    var a := Aged(i, ms);
    Requests(asks, Due(a), a.now) && i' == Logged(a.(timers := Asking(a, Due(a))), asks)
  }
}
