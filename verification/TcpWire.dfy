/** TCP segments on the wire: printing them with their checksum, and parsing them. */
module TcpWire {
  import opened Words
  import opened Parsing
  import opened Checksums
  import opened Segments
  import Ipv4

  const LENGTH := 20
  const WIDTHS: seq<nat> := [2, 2, 4, 4, 1, 1, 2, 2, 2]

  /** The six flags in one byte. */
  function Flags(h: Header): u8 {
    Flag(h.urg) * 32 + Flag(h.ack) * 16 + Flag(h.psh) * 8 + Flag(h.rst) * 4 + Flag(h.syn) * 2 + Flag(h.fin)
  }

  predicate HasBit(x: nat, weight: nat)
    requires weight > 0
  {
    x / weight % 2 == 1
  }

  function Fields(h: Header): (vals: seq<nat>)
    ensures |vals| == 9
  {
    [h.sport, h.dport, h.seqno, h.ackno, h.doff * 16 % 256, Flags(h), h.win, h.cksum, h.uptr]
  }

  function FromFields(vals: seq<nat>): Header
    requires |vals| == 9 && forall i :: 0 <= i < 9 ==> vals[i] < Pow256(WIDTHS[i])
  {
    assert Pow256(1) == 0x100 && Pow256(2) == TWO16 && Pow256(4) == TWO32;
    assert vals[0] < Pow256(WIDTHS[0]) && vals[1] < Pow256(WIDTHS[1]) && vals[2] < Pow256(WIDTHS[2]);
    assert vals[3] < Pow256(WIDTHS[3]) && vals[4] < Pow256(WIDTHS[4]) && vals[5] < Pow256(WIDTHS[5]);
    assert vals[6] < Pow256(WIDTHS[6]) && vals[7] < Pow256(WIDTHS[7]) && vals[8] < Pow256(WIDTHS[8]);
    Header(vals[0], vals[1], vals[2], vals[3], vals[4] / 16,
           HasBit(vals[5], 32), HasBit(vals[5], 16), HasBit(vals[5], 8),
           HasBit(vals[5], 4), HasBit(vals[5], 2), HasBit(vals[5], 1),
           vals[6], vals[7], vals[8])
  }

  /** The printed header, padded to its advertised size; printing refuses one that is too short. */
  function HeaderText(h: Header): Option<Bytes> {
    if h.doff < 5 then None else Some(BigEndians(Fields(h), WIDTHS) + Ipv4.Zeros(4 * h.doff - LENGTH))
  }

  function ParseHeader(p: Parser): Ipv4.Parsed<Header> {
    var h := FromFields(IntsOf(p, WIDTHS));
    var p1 := AfterAll(p, WIDTHS);
    if h.doff < 5 then Ipv4.Parsed(p1, h, HeaderTooShort)
    else
      var p2 := After(p1, h.doff * 4 - LENGTH);
      Ipv4.Parsed(p2, h, p2.error)
  }

  /** The checksum of a segment whose checksum field is zero. */
  function SegmentChecksum(seg: Segment, pseudo: u32): u16
    requires seg.header.doff >= 5
  {
    Value(Add(Add(Checksum(pseudo, false), HeaderText(seg.header.(cksum := 0)).value), seg.payload))
  }

  function SegmentText(seg: Segment, pseudo: u32): Option<Bytes> {
    if seg.header.doff < 5 then None
    else Some(HeaderText(seg.header.(cksum := SegmentChecksum(seg, pseudo))).value + seg.payload)
  }

  function ParseSegment(buffer: Bytes, pseudo: u32): (Segment, ParseResult) {
    if Value(Add(Checksum(pseudo, false), buffer)) != 0 then (Segment(DEFAULT_HEADER, []), BadChecksum)
    else
      var r := ParseHeader(Parser(buffer, NoError));
      (Segment(r.header, r.parser.buffer), r.parser.error)
  }

  // ---- round trip ----

  lemma FlagsRoundTrip(urg: bool, ack: bool, psh: bool, rst: bool, syn: bool, fin: bool)
    ensures var x := Flag(urg) * 32 + Flag(ack) * 16 + Flag(psh) * 8 + Flag(rst) * 4 + Flag(syn) * 2 + Flag(fin);
      && (HasBit(x, 32) <==> urg) && (HasBit(x, 16) <==> ack) && (HasBit(x, 8) <==> psh)
      && (HasBit(x, 4) <==> rst) && (HasBit(x, 2) <==> syn) && (HasBit(x, 1) <==> fin)
  {
  }

  lemma FieldsRoundTrip(h: Header)
    requires 5 <= h.doff <= 15
    ensures forall i :: 0 <= i < 9 ==> Fields(h)[i] < Pow256(WIDTHS[i])
    ensures FromFields(Fields(h)) == h
  {
    hide HasBit;
    assert Pow256(1) == 0x100 && Pow256(2) == TWO16 && Pow256(4) == TWO32;
    FlagsRoundTrip(h.urg, h.ack, h.psh, h.rst, h.syn, h.fin);
    assert h.doff * 16 % 256 / 16 == h.doff;
  }

  lemma SumsAre()
    ensures Sum(WIDTHS) == 20 && Sum(WIDTHS[..7]) == 16 && Sum(WIDTHS[8..]) == 2
  {
    Ipv4.SumOf5(2, 2, 4, 4, 1);
    Ipv4.SumOf2(1, 2);
    Ipv4.SumOf2(2, 2);
    hide Sum;
    assert WIDTHS[..7] == [2, 2, 4, 4, 1] + [1, 2] && WIDTHS[8..] == [2];
    Ipv4.SumConcat([2, 2, 4, 4, 1], [1, 2]);
    assert WIDTHS == WIDTHS[..7] + [2, 2];
    Ipv4.SumConcat(WIDTHS[..7], [2, 2]);
  }

  /** The header text around its checksum field. */
  lemma HeaderParts(h: Header) returns (before: Bytes, after: Bytes)
    requires h.doff >= 5
    ensures |before| == 16 && |after| == 4 * h.doff - 18
    ensures forall c: u16 :: HeaderText(h.(cksum := c)) == Some(before + (BigEndian(c, 2) + after))
  {
    hide BigEndian, Sum;
    SumsAre();
    var vals := Fields(h);
    var pad := Ipv4.Zeros(4 * h.doff - LENGTH);
    before := BigEndians(vals[..7], WIDTHS[..7]);
    var tail := BigEndians(vals[8..], WIDTHS[8..]);
    after := tail + pad;
    hide BigEndians;
    forall c: u16 ensures HeaderText(h.(cksum := c)) == Some(before + (BigEndian(c, 2) + after)) {
      var vals' := Fields(h.(cksum := c));
      assert vals' == vals[..7] + ([c] + vals[8..]) && WIDTHS == WIDTHS[..7] + ([2] + WIDTHS[8..]);
      BigEndiansConcat(vals[..7], WIDTHS[..7], [c] + vals[8..], [2] + WIDTHS[8..]);
      BigEndiansConcat([c], [2], vals[8..], WIDTHS[8..]);
      OneBigEndian(c, 2);
      assert before + (BigEndian(c, 2) + tail) + pad == before + (BigEndian(c, 2) + after);
    }
  }

  /** Adding in two goes is adding at once. */
  lemma {:induction false} AddTwice(c: Checksum, a: Bytes, b: Bytes)
    ensures Add(Add(c, a), b) == Add(c, a + b)
    decreases |a|
  {
    if a == [] {
      assert a + b == b;
    } else {
      assert (a + b)[1..] == a[1..] + b;
      AddTwice(Checksum((c.sum + WordOf(a[0], c.parity)) % TWO32, !c.parity), a[1..], b);
    }
  }

  /** A printed segment passes its checksum, whatever the length of its payload. */
  lemma SegmentPasses(seg: Segment, pseudo: u32)
    requires 5 <= seg.header.doff <= 15 && pseudo + 65280 * (4 * seg.header.doff + |seg.payload|) < TWO32
    ensures SegmentText(seg, pseudo).Some?
    ensures Value(Add(Checksum(pseudo, false), SegmentText(seg, pseudo).value)) == 0
  {
    hide Add, BigEndian, HeaderText, Value;
    var before, after := HeaderParts(seg.header);
    var all := after + seg.payload;
    var c := SegmentChecksum(seg, pseudo);
    assert HeaderText(seg.header.(cksum := 0)) == Some(before + (BigEndian(0, 2) + after));
    assert HeaderText(seg.header.(cksum := c)) == Some(before + (BigEndian(c, 2) + after));
    AddTwice(Checksum(pseudo, false), before + (BigEndian(0, 2) + after), seg.payload);
    assert before + (BigEndian(0, 2) + after) + seg.payload == before + (BigEndian(0, 2) + all);
    assert before + (BigEndian(c, 2) + after) + seg.payload == before + (BigEndian(c, 2) + all);
    FilledInPasses(pseudo, before, all);
  }

  /** Parsing printed header text in front of a payload gives header and payload back. */
  lemma HeaderReadsBack(h: Header, payload: Bytes)
    requires 5 <= h.doff <= 15
    ensures ParseHeader(Parser(HeaderText(h).value + payload, NoError))
            == Ipv4.Parsed(Parser(payload, NoError), h, NoError)
  {
    hide BigEndian, BigEndians, IntsOf, AfterAll, Fields, FromFields;
    var text, pad := BigEndians(Fields(h), WIDTHS), Ipv4.Zeros(4 * h.doff - LENGTH);
    FieldsRoundTrip(h);
    AllReadBack(Fields(h), WIDTHS, pad + payload);
    assert text + pad + payload == text + (pad + payload);
    assert (pad + payload)[4 * h.doff - LENGTH..] == payload;
  }

  /** What is printed is accepted and parses back to the segment that was printed, with its checksum
      filled in. */
  lemma SegmentRoundTrip(seg: Segment, pseudo: u32)
    requires 5 <= seg.header.doff <= 15 && pseudo + 65280 * (4 * seg.header.doff + |seg.payload|) < TWO32
    ensures SegmentText(seg, pseudo).Some?
    ensures var header := seg.header.(cksum := SegmentChecksum(seg, pseudo));
            ParseSegment(SegmentText(seg, pseudo).value, pseudo) == (seg.(header := header), NoError)
  {
    hide Add, Value, HeaderText, ParseHeader;
    SegmentPasses(seg, pseudo);
    HeaderReadsBack(seg.header.(cksum := SegmentChecksum(seg, pseudo)), seg.payload);
  }

  lemma SegmentTextLength(seg: Segment, pseudo: u32)
    requires 5 <= seg.header.doff
    ensures |SegmentText(seg, pseudo).value| == 4 * seg.header.doff + |seg.payload|
  {
    hide Add, Value, BigEndians, Fields;
    SumsAre();
  }

  // ---- what is accepted ----

  function DoffOf(b: Bytes): nat
    requires |b| >= LENGTH
  {
    b[12] / 16
  }

  lemma DoffIs(b: Bytes)
    requires |b| >= LENGTH
    ensures FromFields(IntsOf(Parser(b, NoError), WIDTHS)).doff == DoffOf(b)
  {
    hide Pow256, IntsOf, After, FromBigEndian;
    var w := WIDTHS;
    Ipv4.NextInt(Parser(b, NoError), w);
    Ipv4.AfterIs(b, 2);
    Ipv4.NextInt(Parser(b[2..], NoError), w[1..]);
    Ipv4.AfterIs(b[2..], 2);
    assert b[2..][2..] == b[4..] && w[1..][1..] == w[2..];
    Ipv4.NextInt(Parser(b[4..], NoError), w[2..]);
    Ipv4.AfterIs(b[4..], 4);
    assert b[4..][4..] == b[8..] && w[2..][1..] == w[3..];
    Ipv4.NextInt(Parser(b[8..], NoError), w[3..]);
    Ipv4.AfterIs(b[8..], 4);
    assert b[8..][4..] == b[12..] && w[3..][1..] == w[4..];
    Ipv4.NextInt(Parser(b[12..], NoError), w[4..]);
    assert b[12..][..1] == [b[12]];
    Ipv4.OneByte(b[12]);
  }

  /** Exactly which buffers are accepted as segments: those that pass the checksum and are long enough
      for the header they claim, or claim a header that is too short to be one. */
  lemma AcceptedIff(b: Bytes, pseudo: u32)
    ensures ParseSegment(b, pseudo).1 == NoError
            <==> && Value(Add(Checksum(pseudo, false), b)) == 0
                 && |b| >= LENGTH && (DoffOf(b) < 5 || 4 * DoffOf(b) <= |b|)
  {
    hide Add, Value, IntsOf, AfterAll, FromFields, Sum;
    var p := Parser(b, NoError);
    SumsAre();
    if |b| < LENGTH {
      var _ := AfterAllShort(p, WIDTHS);
    } else {
      AfterAllIs(p, WIDTHS);
      DoffIs(b);
    }
  }

  /** So a segment whose header is judged too short is accepted. */
  lemma ShortHeaderAccepted()
    ensures var b := Ipv4.Zeros(20);
      && ParseSegment(b, 0xffff).1 == NoError
      && ParseHeader(Parser(b, NoError)).result == HeaderTooShort
  {
    hide IntsOf, AfterAll, FromFields;
    var b := Ipv4.Zeros(20);
    Ipv4.ZerosAddNothing(20, false);
    AddIsSum(Checksum(0xffff, false), b);
    ValueZeroIff(Add(Checksum(0xffff, false), b));
    AcceptedIff(b, 0xffff);
    DoffIs(b);
  }

  // ---- the parser and the printer as the program runs them ----

  method ParseHeaderFrom(p: NetParser) returns (h: Header, result: ParseResult)
    modifies p
    ensures ParseHeader(old(p.State())) == Ipv4.Parsed(p.State(), h, result)
  {
    hide IntOf, IntsOf, AfterAll, FromFields, Pow256;
    ghost var start := p.State();
    ghost var w: seq<nat>, v: seq<nat> := [], [];
    Ipv4.NothingRead(start);
    var sport, dport, seqno, ackno, offset, flags, win, cksum, uptr;
    sport, w, v := p.Field(2, start, w, v);
    dport, w, v := p.Field(2, start, w, v);
    seqno, w, v := p.Field(4, start, w, v);
    assert w == [2, 2, 4] && v == [sport, dport, seqno];
    ackno, w, v := p.Field(4, start, w, v);
    offset, w, v := p.Field(1, start, w, v);
    flags, w, v := p.Field(1, start, w, v);
    assert w == [2, 2, 4, 4, 1, 1] && v == [sport, dport, seqno, ackno, offset, flags];
    win, w, v := p.Field(2, start, w, v);
    cksum, w, v := p.Field(2, start, w, v);
    uptr, w, v := p.Field(2, start, w, v);
    assert w == WIDTHS && v == [sport, dport, seqno, ackno, offset, flags, win, cksum, uptr];
    h := FromFields([sport, dport, seqno, ackno, offset, flags, win, cksum, uptr]);
    if h.doff < 5 {
      return h, HeaderTooShort;
    }
    p.RemovePrefix(h.doff * 4 - LENGTH);
    if p.error != NoError {
      return h, p.error;
    }
    return h, NoError;
  }

  method SerializeHeader(h: Header) returns (text: Option<Bytes>)
    ensures text == HeaderText(h)
  {
    hide BigEndians, BigEndian, Sum, Flags;
    if h.doff < 5 {
      return None;
    }
    var ret: Bytes;
    ghost var v: seq<nat>, w: seq<nat>;
    ret, v, w := AppendNumbers(h);
    ret, v, w := AppendField(ret, h.doff * 16 % 256, 1, v, w);
    ret, v, w := AppendField(ret, Flags(h), 1, v, w);
    assert w == WIDTHS[..6] && v == Fields(h)[..6];
    ret, v, w := AppendField(ret, h.win, 2, v, w);
    ret, v, w := AppendField(ret, h.cksum, 2, v, w);
    ret, v, w := AppendField(ret, h.uptr, 2, v, w);
    assert v == Fields(h) && w == WIDTHS;
    return Some(ret + Ipv4.Zeros(4 * h.doff - LENGTH));
  }

  /** The first half of the header: ports and sequence numbers. */
  method AppendNumbers(h: Header) returns (ret: Bytes, ghost v: seq<nat>, ghost w: seq<nat>)
    ensures v == Fields(h)[..4] && w == WIDTHS[..4] && ret == BigEndians(Fields(h)[..4], WIDTHS[..4])
  {
    hide BigEndians, BigEndian, Sum, Flags;
    ret, v, w := [], [], [];
    Ipv4.NoBigEndians();
    ret, v, w := AppendField(ret, h.sport, 2, v, w);
    ret, v, w := AppendField(ret, h.dport, 2, v, w);
    ret, v, w := AppendField(ret, h.seqno, 4, v, w);
    ret, v, w := AppendField(ret, h.ackno, 4, v, w);
  }

  method Serialize(seg: Segment, pseudo: u32) returns (text: Option<Bytes>)
    ensures text == SegmentText(seg, pseudo)
  {
    hide Add, Value, BigEndians, Fields;
    var zeroed := SerializeHeader(seg.header.(cksum := 0));
    if zeroed == None {
      return None;
    }
    var check := new InternetChecksum(pseudo);
    check.AddBytes(zeroed.value);
    check.AddBytes(seg.payload);
    var cksum := check.GetValue();
    var header := SerializeHeader(seg.header.(cksum := cksum));
    return Some(header.value + seg.payload);
  }

  method Parse(buffer: Bytes, pseudo: u32) returns (seg: Segment, result: ParseResult)
    ensures (seg, result) == ParseSegment(buffer, pseudo)
  {
    hide Add, Value, ParseHeader;
    var check := new InternetChecksum(pseudo);
    check.AddBytes(buffer);
    var value := check.GetValue();
    if value != 0 {
      return Segment(DEFAULT_HEADER, []), BadChecksum;
    }
    var p := new NetParser(buffer);
    var header, _ := ParseHeaderFrom(p);
    return Segment(header, p.buffer), p.error;
  }
}
