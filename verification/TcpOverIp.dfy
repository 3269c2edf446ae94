/** TCP segments inside IPv4 datagrams, as two adapters exchange them. */
module TcpOverIp {
  import opened Words
  import opened Parsing
  import opened Checksums
  import opened Segments
  import opened Ipv4
  import TcpWire

  /** An address is a 32-bit number, with a port beside it. */
  datatype Endpoint = Endpoint(ip: u32, port: u16)
  datatype Config = Config(source: Endpoint, destination: Endpoint)
  datatype Adapter = Adapter(config: Config, listening: bool)

  /** The segment with the connection's ports filled in. */
  function Addressed(config: Config, seg: Segment): Segment {
    seg.(header := seg.header.(sport := config.source.port, dport := config.destination.port))
  }

  function IpHeaderFor(config: Config, seg: Segment): Ipv4Header {
    Ipv4.DEFAULT_HEADER.(src := config.source.ip, dst := config.destination.ip,
                         len := (20 + seg.header.doff * 4 + |seg.payload|) % TWO16)
  }

  /** The datagram that carries a segment, or none if the segment cannot be printed. */
  function WrapTcp(config: Config, seg: Segment): Option<Datagram> {
    var header := IpHeaderFor(config, seg);
    match TcpWire.SegmentText(Addressed(config, seg), PseudoChecksum(header))
    case None => None
    case Some(text) => Some(Datagram(header, text))
  }

  /** The segment a datagram carries for this adapter, if any. */
  function UnwrapTcp(a: Adapter, d: Datagram): (Adapter, Option<Segment>) {
    Accepts(a, d.header, TcpWire.ParseSegment(d.payload, PseudoChecksum(d.header)))
  }

  /** What an adapter makes of a datagram with the given header and parsed payload. A listening adapter
      takes its addresses from the first SYN. */
  function Accepts(a: Adapter, h: Ipv4Header, parsed: (Segment, ParseResult)): (Adapter, Option<Segment>) {
    var (seg, result) := parsed;
    if !a.listening && h.dst != a.config.source.ip then (a, None)
    else if !a.listening && h.src != a.config.destination.ip then (a, None)
    else if h.proto != PROTO_TCP then (a, None)
    else if result != NoError then (a, None)
    else if seg.header.dport != a.config.source.port then (a, None)
    else if a.listening && !(seg.header.syn && !seg.header.rst) then (a, None)
    else
      var a' := if a.listening then
                  Adapter(Config(Endpoint(h.dst, a.config.source.port), Endpoint(h.src, seg.header.sport)), false)
                else a;
      (a', if seg.header.sport != a'.config.destination.port then None else Some(seg))
  }

  /** The adapter at the other end. */
  predicate Peer(config: Config, a: Adapter) {
    if a.listening then a.config.source.port == config.destination.port
    else a.config == Config(config.destination, config.source)
  }

  /** The largest sum a datagram can need stays within the 32-bit accumulator. */
  lemma AccumulatorFits(config: Config, seg: Segment)
    requires 5 <= seg.header.doff <= 15 && 20 + 4 * seg.header.doff + |seg.payload| < TWO16
    ensures PseudoChecksum(IpHeaderFor(config, seg)) + 65280 * (4 * seg.header.doff + |seg.payload|) < TWO32
    ensures PayloadLength(IpHeaderFor(config, seg)) == 4 * seg.header.doff + |seg.payload|
  {
  }

  /** Every segment that fits a datagram makes the trip: wrapped, printed, parsed and unwrapped at the
      matching peer, listening or connected, it arrives with the same header fields, the configured
      ports, a checksum filled in, and the same payload. */
  lemma RoundTrip(config: Config, seg: Segment, peer: Adapter)
    requires 5 <= seg.header.doff <= 15 && 20 + 4 * seg.header.doff + |seg.payload| < TWO16
    requires Peer(config, peer) && (peer.listening ==> seg.header.syn && !seg.header.rst)
    ensures WrapTcp(config, seg).Some?
    ensures DatagramText(WrapTcp(config, seg).value).Some?
    ensures var (d, result) := ParseDatagram(DatagramText(WrapTcp(config, seg).value).value);
            var (peer', arrived) := UnwrapTcp(peer, d);
      && result == NoError
      && arrived.Some? && arrived.value.payload == seg.payload
      && arrived.value.header == seg.header.(sport := config.source.port, dport := config.destination.port,
                                             cksum := arrived.value.header.cksum)
      && peer' == Adapter(Config(config.destination, config.source), false)
  {
    hide TcpWire.SegmentText, DatagramText, ParseDatagram, TcpWire.ParseSegment, WithChecksum, TcpWire.SegmentChecksum,
         PseudoChecksum, Accepts;
    var header := IpHeaderFor(config, seg);
    var sent := Addressed(config, seg);
    AccumulatorFits(config, seg);
    TcpWire.SegmentRoundTrip(sent, PseudoChecksum(header));
    TcpWire.SegmentTextLength(sent, PseudoChecksum(header));
    var d := WrapTcp(config, seg).value;
    DatagramRoundTrip(d);
    ChecksumKeepsPseudo(header);
    var parsed := ParseDatagram(DatagramText(d).value).0;
    PeerAccepts(config, peer, parsed.header, TcpWire.ParseSegment(parsed.payload, PseudoChecksum(parsed.header)).0);
  }

  /** A datagram between the two ends that parses is handed up, and a listening peer takes its
      addresses from it. */
  lemma PeerAccepts(config: Config, peer: Adapter, h: Ipv4Header, seg: Segment)
    requires h.src == config.source.ip && h.dst == config.destination.ip && h.proto == PROTO_TCP
    requires seg.header.sport == config.source.port && seg.header.dport == config.destination.port
    requires Peer(config, peer) && (peer.listening ==> seg.header.syn && !seg.header.rst)
    ensures Accepts(peer, h, (seg, NoError)) == (Adapter(Config(config.destination, config.source), false), Some(seg))
  {
  }

  /** The header checksum plays no part in the TCP checksum. */
  lemma ChecksumKeepsPseudo(h: Ipv4Header)
    requires h.ver == 4 && 4 * h.hlen >= Ipv4.LENGTH
    ensures PseudoChecksum(WithChecksum(h)) == PseudoChecksum(h)
    ensures WithChecksum(h) == h.(cksum := WithChecksum(h).cksum)
  {
    hide Add, Value, HeaderText;
  }

  class TCPOverIPv4Adapter {
    var config: Config
    var listening: bool

    ghost function State(): Adapter
      reads this
    {
      Adapter(config, listening)
    }

    constructor (config: Config, listening: bool)
      ensures State() == Adapter(config, listening)
    {
      this.config, this.listening := config, listening;
    }

    /** Fill the ports into the caller's segment and put it into a datagram, unless it does not print. */
    method WrapTcpInIp(seg: Segment) returns (addressed: Segment, d: Option<Datagram>)
      ensures addressed == Addressed(config, seg) && d == WrapTcp(config, seg)
    {
      hide TcpWire.SegmentText, PseudoChecksum;
      addressed := seg.(header := seg.header.(sport := config.source.port, dport := config.destination.port));
      var header := Ipv4.DEFAULT_HEADER;
      header := header.(src := config.source.ip);
      header := header.(dst := config.destination.ip);
      header := header.(len := (header.hlen * 4 + addressed.header.doff * 4 + |addressed.payload|) % TWO16);
      var text := TcpWire.Serialize(addressed, PseudoChecksum(header));
      if text == None {
        return addressed, None;
      }
      return addressed, Some(Datagram(header, text.value));
    }

    method UnwrapTcpInIp(d: Datagram) returns (seg: Option<Segment>)
      modifies this
      ensures UnwrapTcp(old(State()), d) == (State(), seg)
    {
      hide TcpWire.ParseSegment, PseudoChecksum;
      if !listening && d.header.dst != config.source.ip {
        return None;
      }
      if !listening && d.header.src != config.destination.ip {
        return None;
      }
      if d.header.proto != PROTO_TCP {
        return None;
      }
      var tcpSeg, result := TcpWire.Parse(d.payload, PseudoChecksum(d.header));
      if result != NoError {
        return None;
      }
      if tcpSeg.header.dport != config.source.port {
        return None;
      }
      if listening {
        if tcpSeg.header.syn && !tcpSeg.header.rst {
          config := config.(source := Endpoint(d.header.dst, config.source.port));
          config := config.(destination := Endpoint(d.header.src, tcpSeg.header.sport));
          listening := false;
        } else {
          return None;
        }
      }
      if tcpSeg.header.sport != config.destination.port {
        return None;
      }
      return Some(tcpSeg);
    }
  }
}
