/** What the TCP checksum covers, and which datagrams an adapter hands up. */
module PseudoHeaders {
  import opened Words
  import opened Parsing
  import opened Checksums
  import opened Segments
  import opened Ipv4
  import TcpWire
  import opened TcpOverIp

  /** The bytes of the pseudo-header of RFC 9293, section 3.1: both addresses, a zero, the protocol and the
      length of the TCP part. */
  function PseudoBytes(src: u32, dst: u32, proto: u8, length: u16): Bytes {
    BigEndian(src, 4) + BigEndian(dst, 4) + [0, proto] + BigEndian(length, 2)
  }

  function PseudoHeader(h: Ipv4Header): Bytes {
    PseudoBytes(h.src, h.dst, h.proto, (h.len - 4 * h.hlen) % TWO16)
  }

  lemma AddressSum(x: u32)
    ensures |BigEndian(x, 4)| == 4 && WordSum(BigEndian(x, 4), false) == x / TWO16 + x % TWO16
  {
    hide BigEndian, WordSum;
    FourDigits(x);
    WordSumWord(x / TWO16);
    WordSumWord(x % TWO16);
    WordSumConcat(BigEndian(x / TWO16, 2), BigEndian(x % TWO16, 2), false);
  }

  lemma ProtoSum(proto: u8)
    ensures WordSum([0, proto], false) == proto
  {
    assert [0, proto][1..] == [proto] && [proto][1..] == [];
    assert WordSum([proto], true) == proto + WordSum([], false);
  }

  /** The number the checksum starts from is the sum of the words of the pseudo-header. */
  lemma PseudoIsSum(h: Ipv4Header)
    ensures PseudoChecksum(h) == WordSum(PseudoHeader(h), false) && |PseudoHeader(h)| == 12
  {
    hide BigEndian, WordSum;
    var src, dst, length := BigEndian(h.src, 4), BigEndian(h.dst, 4), (h.len - 4 * h.hlen) % TWO16;
    AddressSum(h.src);
    AddressSum(h.dst);
    ProtoSum(h.proto);
    WordSumWord(length);
    WordSumConcat(src, dst, false);
    WordSumConcat(src + dst, [0, h.proto], false);
    WordSumConcat(src + dst + [0, h.proto], BigEndian(length, 2), false);
  }

  /** So checking a TCP part from that number is checking pseudo-header and TCP part from zero. */
  lemma CoversPseudoHeader(h: Ipv4Header, b: Bytes)
    requires |b| < TWO16
    ensures Add(Checksum(PseudoChecksum(h), false), b) == Add(Checksum(0, false), PseudoHeader(h) + b)
  {
    hide PseudoHeader, PseudoChecksum, Add, WordSum;
    PseudoIsSum(h);
    WordSumBound(PseudoHeader(h), false);
    WordSumBound(b, false);
    WordSumConcat(PseudoHeader(h), b, false);
    AddIsSum(Checksum(PseudoChecksum(h), false), b);
    AddIsSum(Checksum(0, false), PseudoHeader(h) + b);
  }

  /** What an adapter sends carries the right checksum: over both addresses, the TCP protocol number, the
      length and everything printed; its header is the plain one, unfragmented, with a time to live of 128. */
  lemma WrappedPasses(config: Config, seg: Segment)
    requires 5 <= seg.header.doff <= 15 && 20 + 4 * seg.header.doff + |seg.payload| < TWO16
    ensures WrapTcp(config, seg).Some?
    ensures var text := WrapTcp(config, seg).value.payload;
            var pseudo := PseudoBytes(config.source.ip, config.destination.ip, 6, |text|);
            |text| == 4 * seg.header.doff + |seg.payload| && Value(Add(Checksum(0, false), pseudo + text)) == 0
    ensures WrapTcp(config, seg).value.header
            == Ipv4Header(4, 5, 0, 20 + 4 * seg.header.doff + |seg.payload|, 0, true, false, 0, 128, 6, 0,
                          config.source.ip, config.destination.ip)
  {
    hide TcpWire.SegmentText, PseudoChecksum, Add, Value, PseudoBytes;
    var header, sent := IpHeaderFor(config, seg), TcpOverIp.Addressed(config, seg);
    AccumulatorFits(config, seg);
    TcpWire.SegmentPasses(sent, PseudoChecksum(header));
    TcpWire.SegmentTextLength(sent, PseudoChecksum(header));
    CoversPseudoHeader(header, WrapTcp(config, seg).value.payload);
  }

  /** The words of the two addresses. */
  function AddressWords(src: u32, dst: u32): nat {
    src / TWO16 + src % TWO16 + dst / TWO16 + dst % TWO16
  }

  /** A TCP part that passes between one pair of addresses passes between another exactly when the words of
      the addresses add up to the same modulo 65535, unless nothing adds up to anything: every change of a
      single address word to a different residue is caught. */
  lemma AddressErrorCaughtIff(h: Ipv4Header, src: u32, dst: u32, b: Bytes)
    requires |b| < TWO16 && Value(Add(Checksum(PseudoChecksum(h), false), b)) == 0
    ensures var h' := h.(src := src, dst := dst);
            Value(Add(Checksum(PseudoChecksum(h'), false), b)) == 0
            <==> AddressWords(src, dst) % 0xffff == AddressWords(h.src, h.dst) % 0xffff
                 && AddressWords(src, dst) + h.proto + (h.len - 4 * h.hlen) % TWO16 + WordSum(b, false) > 0
  {
    hide Add, Value, WordSum;
    var h' := h.(src := src, dst := dst);
    WordSumBound(b, false);
    AddIsSum(Checksum(PseudoChecksum(h), false), b);
    AddIsSum(Checksum(PseudoChecksum(h'), false), b);
    ValueZeroIff(Add(Checksum(PseudoChecksum(h), false), b));
    ValueZeroIff(Add(Checksum(PseudoChecksum(h'), false), b));
    var rest := h.proto + (h.len - 4 * h.hlen) % TWO16 + WordSum(b, false);
    SameRest(rest, AddressWords(h.src, h.dst), AddressWords(src, dst));
  }

  lemma SameRest(rest: nat, a: nat, a': nat)
    requires (a + rest) % 0xffff == 0
    ensures (a' + rest) % 0xffff == 0 <==> a' % 0xffff == a % 0xffff
  {
  }

  // ---- what is handed up ----

  /** The segment comes from the other end of an adapter's connection, to this one. */
  predicate Between(config: Config, h: Ipv4Header, seg: Segment) {
    && h.dst == config.source.ip && seg.header.dport == config.source.port
    && h.src == config.destination.ip && seg.header.sport == config.destination.port
  }

  /** Exactly what an adapter hands up. A connected one: a TCP part that passes its checksum over
      pseudo-header and content, whose lengths are right, from the configured peer to the configured end.
      A listening one: from anywhere to the configured port, if it is a SYN and no RST, and the adapter is
      then connected to where it came from. */
  lemma HandedUpIff(a: Adapter, d: Datagram)
    requires |d.payload| < TWO16
    ensures var (a', arrived) := UnwrapTcp(a, d);
            var (seg, _) := TcpWire.ParseSegment(d.payload, PseudoChecksum(d.header));
      && (arrived.Some? <==>
            && d.header.proto == 6 && Value(Add(Checksum(0, false), PseudoHeader(d.header) + d.payload)) == 0
            && |d.payload| >= 20 && (TcpWire.DoffOf(d.payload) < 5 || 4 * TcpWire.DoffOf(d.payload) <= |d.payload|)
            && (if a.listening then seg.header.dport == a.config.source.port && seg.header.syn && !seg.header.rst
                else Between(a.config, d.header, seg)))
      && (arrived.Some? ==> arrived.value == seg && !a'.listening && Between(a'.config, d.header, seg))
      && (arrived.None? || !a.listening ==> a' == a)
  {
    hide TcpWire.ParseSegment, PseudoChecksum, Add, Value, TcpWire.DoffOf, PseudoHeader;
    CoversPseudoHeader(d.header, d.payload);
    TcpWire.AcceptedIff(d.payload, PseudoChecksum(d.header));
  }
}
