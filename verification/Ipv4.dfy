/** IPv4 datagrams: printing them with their header checksum, and parsing them. */
module Ipv4 {
  import opened Words
  import opened Parsing
  import opened Checksums

  const LENGTH := 20
  const PROTO_TCP: u8 := 6
  const DEFAULT_TTL: u8 := 128

  datatype Ipv4Header = Ipv4Header(
    ver: u8, hlen: u8, tos: u8, len: u16, id: u16, df: bool, mf: bool, offset: u16,
    ttl: u8, proto: u8, cksum: u16, src: u32, dst: u32)

  const DEFAULT_HEADER := Ipv4Header(4, 5, 0, 0, 0, true, false, 0, DEFAULT_TTL, PROTO_TCP, 0, 0, 0)

  datatype Datagram = Datagram(header: Ipv4Header, payload: Bytes)

  function Zeros(n: nat): Bytes {
    seq(n, _ => 0)
  }

  const WIDTHS: seq<nat> := [1, 1, 2, 2, 2, 1, 1, 2, 4, 4]

  /** The integers a header is printed as. Version and length share a byte; two flags and the
      fragment offset share a word. */
  function Fields(h: Ipv4Header): (vals: seq<nat>)
    ensures |vals| == 10
  {
    [h.ver * 16 % 256 + h.hlen % 16, h.tos, h.len, h.id,
     Flag(h.df) * 0x4000 + Flag(h.mf) * 0x2000 + h.offset % 0x2000,
     h.ttl, h.proto, h.cksum, h.src, h.dst]
  }

  function FromFields(vals: seq<nat>): Ipv4Header
    requires |vals| == 10 && forall i :: 0 <= i < 10 ==> vals[i] < Pow256(WIDTHS[i])
  {
    assert Pow256(1) == 0x100 && Pow256(2) == TWO16 && Pow256(4) == TWO32;
    assert vals[0] < Pow256(WIDTHS[0]) && vals[1] < Pow256(WIDTHS[1]) && vals[2] < Pow256(WIDTHS[2]);
    assert vals[3] < Pow256(WIDTHS[3]) && vals[4] < Pow256(WIDTHS[4]) && vals[5] < Pow256(WIDTHS[5]);
    assert vals[6] < Pow256(WIDTHS[6]) && vals[7] < Pow256(WIDTHS[7]) && vals[8] < Pow256(WIDTHS[8]);
    assert vals[9] < Pow256(WIDTHS[9]);
    Ipv4Header(vals[0] / 16, vals[0] % 16, vals[1], vals[2], vals[3],
               vals[4] / 0x4000 % 2 == 1, vals[4] / 0x2000 % 2 == 1, vals[4] % 0x2000,
               vals[5], vals[6], vals[7], vals[8], vals[9])
  }

  /** The fields a header has room for. */
  predicate Fits(h: Ipv4Header) {
    h.ver == 4 && 5 <= h.hlen <= 15 && h.offset < 0x2000
  }

  /** The printed header, padded to its advertised size; printing refuses a wrong version or a header
      too short. */
  function HeaderText(h: Ipv4Header): Option<Bytes> {
    if h.ver != 4 || 4 * h.hlen < LENGTH then None
    else Some(BigEndians(Fields(h), WIDTHS) + Zeros(4 * h.hlen - LENGTH))
  }

  /** What parsing leaves: the parser, the header fields, and the verdict. */
  datatype Parsed<H> = Parsed(parser: Parser, header: H, result: ParseResult)

  /** Parsing a header into a structure that held `h0`. */
  function ParseHeader(p: Parser, h0: Ipv4Header): Parsed<Ipv4Header> {
    var size := |p.buffer|;
    if size < LENGTH then Parsed(p, h0, PacketTooShort)
    else
      var h := FromFields(IntsOf(p, WIDTHS));
      var p1 := AfterAll(p, WIDTHS);
      if size < 4 * h.hlen then Parsed(p1, h, PacketTooShort)
      else if h.ver != 4 then Parsed(p1, h, WrongIPVersion)
      else if h.hlen < 5 then Parsed(p1, h, HeaderTooShort)
      else if size != h.len then Parsed(p1, h, TruncatedPacket)
      else
        var p2 := After(p1, 4 * h.hlen - LENGTH);
        if p2.error != NoError then Parsed(p2, h, p2.error)
        else if Value(Add(Checksum(0, false), p.buffer[..4 * h.hlen])) != 0 then Parsed(p2, h, BadChecksum)
        else Parsed(p2, h, NoError)
  }

  function PayloadLength(h: Ipv4Header): u16 {
    (h.len - 4 * h.hlen) % TWO16
  }

  /** The part of the TCP checksum that comes from the IP header. */
  function PseudoChecksum(h: Ipv4Header): u32 {
    h.src / TWO16 + h.src % TWO16 + h.dst / TWO16 + h.dst % TWO16 + h.proto + PayloadLength(h)
  }

  /** The header with the checksum of the rest of it filled in. */
  function WithChecksum(h: Ipv4Header): Ipv4Header
    requires h.ver == 4 && 4 * h.hlen >= LENGTH
  {
    h.(cksum := Value(Add(Checksum(0, false), HeaderText(h.(cksum := 0)).value)))
  }

  function DatagramText(d: Datagram): Option<Bytes> {
    if |d.payload| != PayloadLength(d.header) || HeaderText(d.header) == None then None
    else Some(HeaderText(WithChecksum(d.header)).value + d.payload)
  }

  /** Parsing a datagram looks at the parser's own error, not at the header's verdict. */
  function ParseDatagram(buffer: Bytes): (Datagram, ParseResult) {
    var r := ParseHeader(Parser(buffer, NoError), DEFAULT_HEADER);
    (Datagram(r.header, r.parser.buffer),
     if |r.parser.buffer| != PayloadLength(r.header) then PacketTooShort else r.parser.error)
  }

  // ---- round trip ----

  lemma FieldsRoundTrip(h: Ipv4Header)
    requires Fits(h)
    ensures forall i :: 0 <= i < 10 ==> Fields(h)[i] < Pow256(WIDTHS[i])
    ensures FromFields(Fields(h)) == h
  {
    assert Pow256(1) == 0x100 && Pow256(2) == TWO16 && Pow256(4) == TWO32;
    var first := h.ver * 16 % 256 + h.hlen % 16;
    assert first / 16 == 4 && first % 16 == h.hlen;
    FragmentWord(h.df, h.mf, h.offset);
  }

  lemma FragmentWord(df: bool, mf: bool, offset: u16)
    requires offset < 0x2000
    ensures var w := Flag(df) * 0x4000 + Flag(mf) * 0x2000 + offset % 0x2000;
      w < TWO16 && (w / 0x4000 % 2 == 1 <==> df) && (w / 0x2000 % 2 == 1 <==> mf) && w % 0x2000 == offset
  {
  }

  /** The header text around its checksum field. */
  lemma HeaderParts(h: Ipv4Header) returns (before: Bytes, after: Bytes)
    requires h.ver == 4 && 4 * h.hlen >= LENGTH
    ensures |before| == 10 && |after| == 4 * h.hlen - 12
    ensures forall c: u16 :: HeaderText(h.(cksum := c)) == Some(before + (BigEndian(c, 2) + after))
  {
    hide BigEndian, BigEndians, HeaderText, Sum;
    var vals := Fields(h);
    SumsAre();
    before := BigEndians(vals[..7], WIDTHS[..7]);
    after := BigEndians(vals[8..], WIDTHS[8..]) + Zeros(4 * h.hlen - LENGTH);
    forall c: u16 ensures HeaderText(h.(cksum := c)) == Some(before + (BigEndian(c, 2) + after)) {
      AroundChecksum(h, c);
    }
  }

  lemma AroundChecksum(h: Ipv4Header, c: u16)
    requires h.ver == 4 && 4 * h.hlen >= LENGTH
    ensures var before, tail := BigEndians(Fields(h)[..7], WIDTHS[..7]), BigEndians(Fields(h)[8..], WIDTHS[8..]);
            HeaderText(h.(cksum := c)) == Some(before + (BigEndian(c, 2) + (tail + Zeros(4 * h.hlen - LENGTH))))
  {
    hide BigEndian, BigEndians, Sum;
    var vals := Fields(h);
    assert Fields(h.(cksum := c)) == vals[..7] + ([c] + vals[8..]) && WIDTHS == WIDTHS[..7] + ([2] + WIDTHS[8..]);
    BigEndiansConcat(vals[..7], WIDTHS[..7], [c] + vals[8..], [2] + WIDTHS[8..]);
    BigEndiansConcat([c], [2], vals[8..], WIDTHS[8..]);
    OneBigEndian(c, 2);
    var before, tail := BigEndians(vals[..7], WIDTHS[..7]), BigEndians(vals[8..], WIDTHS[8..]);
    var pad := Zeros(4 * h.hlen - LENGTH);
    assert before + (BigEndian(c, 2) + tail) + pad == before + (BigEndian(c, 2) + (tail + pad));
  }

  lemma SumsAre()
    ensures Sum(WIDTHS) == 20 && Sum(WIDTHS[..7]) == 10 && Sum(WIDTHS[8..]) == 8
  {
    SumOf5(1, 1, 2, 2, 2);
    SumOf2(1, 1);
    SumOf2(4, 4);
    SumOf2(2, 0);
    hide Sum;
    assert WIDTHS[..7] == [1, 1, 2, 2, 2] + [1, 1] && WIDTHS[8..] == [4, 4];
    SumConcat([1, 1, 2, 2, 2], [1, 1]);
    assert WIDTHS == WIDTHS[..7] + ([2] + WIDTHS[8..]);
    SumConcat(WIDTHS[..7], [2] + WIDTHS[8..]);
    SumConcat([2], WIDTHS[8..]);
  }

  lemma SumOf2(a: nat, b: nat)
    ensures Sum([a, b]) == a + b && Sum([a]) == a
  {
    assert [a, b][1..] == [b] && [b][1..] == [] && [a][1..] == [];
    assert Sum([b]) == b + Sum([]);
  }

  lemma SumOf5(a: nat, b: nat, c: nat, d: nat, e: nat)
    ensures Sum([a, b, c, d, e]) == a + b + c + d + e
  {
    assert [a, b, c, d, e][1..] == [b, c, d, e] && [b, c, d, e][1..] == [c, d, e];
    assert [c, d, e][1..] == [d, e] && [d, e][1..] == [e] && [e][1..] == [];
    assert Sum([d, e]) == d + Sum([e]) && Sum([c, d, e]) == c + Sum([d, e]);
  }

  lemma {:induction false} SumConcat(a: seq<nat>, b: seq<nat>)
    ensures Sum(a + b) == Sum(a) + Sum(b)
  {
    if a == [] {
      assert a + b == b;
    } else {
      SumConcat(a[1..], b);
      assert (a + b)[1..] == a[1..] + b;
    }
  }

  /** A printed header passes its own checksum. */
  lemma HeaderPasses(h: Ipv4Header)
    requires Fits(h)
    ensures Value(Add(Checksum(0, false), HeaderText(WithChecksum(h)).value)) == 0
  {
    hide Add, BigEndian, HeaderText, Value;
    var before, after := HeaderParts(h);
    assert HeaderText(h.(cksum := 0)) == Some(before + (BigEndian(0, 2) + after));
    FilledInPasses(0, before, after);
    var c := Value(Add(Checksum(0, false), before + (BigEndian(0, 2) + after)));
    assert HeaderText(h.(cksum := c)) == Some(before + (BigEndian(c, 2) + after));
  }

  /** Parsing printed header text in front of the payload gives the header back. */
  lemma HeaderReadsBack(h: Ipv4Header, payload: Bytes, h0: Ipv4Header)
    requires Fits(h) && h.len == 4 * h.hlen + |payload|
    requires Value(Add(Checksum(0, false), HeaderText(h).value)) == 0
    ensures ParseHeader(Parser(HeaderText(h).value + payload, NoError), h0)
            == Parsed(Parser(payload, NoError), h, NoError)
  {
    hide Add, BigEndian, BigEndians, IntsOf, AfterAll, Value, FromFields, Sum, Fields;
    var text, pad := HeaderText(h).value, Zeros(4 * h.hlen - LENGTH);
    var buffer := text + payload;
    FieldsReadBack(h, payload);
    assert |text| == 4 * h.hlen by { TextLength(h); }
    assert (pad + payload)[4 * h.hlen - LENGTH..] == payload;
    assert buffer[..4 * h.hlen] == text;
  }

  lemma FieldsReadBack(h: Ipv4Header, payload: Bytes)
    requires Fits(h)
    ensures var p := Parser(HeaderText(h).value + payload, NoError);
      && |p.buffer| == 4 * h.hlen + |payload| && FromFields(IntsOf(p, WIDTHS)) == h
      && AfterAll(p, WIDTHS) == Parser(Zeros(4 * h.hlen - LENGTH) + payload, NoError)
  {
    hide BigEndian, BigEndians, IntsOf, AfterAll, FromFields, Sum;
    var text, pad := BigEndians(Fields(h), WIDTHS), Zeros(4 * h.hlen - LENGTH);
    SumsAre();
    FieldsRoundTrip(h);
    AllReadBack(Fields(h), WIDTHS, pad + payload);
    assert text + pad + payload == text + (pad + payload);
  }

  lemma TextLength(h: Ipv4Header)
    requires Fits(h)
    ensures |HeaderText(h).value| == 4 * h.hlen
  {
    hide BigEndians, Sum;
    SumsAre();
  }

  /** What is printed parses back, field by field, to the datagram that was printed, with its header
      checksum filled in, and the header itself is judged sound. */
  lemma DatagramRoundTrip(d: Datagram)
    requires Fits(d.header) && d.header.len == 4 * d.header.hlen + |d.payload|
    ensures DatagramText(d).Some?
    ensures ParseDatagram(DatagramText(d).value) == (d.(header := WithChecksum(d.header)), NoError)
    ensures ParseHeader(Parser(DatagramText(d).value, NoError), DEFAULT_HEADER).result == NoError
  {
    hide Add, BigEndians, HeaderText, Value, ParseHeader;
    HeaderPasses(d.header);
    assert HeaderText(d.header).Some? by { HeaderPrints(d.header); }
    HeaderReadsBack(WithChecksum(d.header), d.payload, DEFAULT_HEADER);
  }

  lemma HeaderPrints(h: Ipv4Header)
    requires Fits(h)
    ensures HeaderText(h).Some?
  {
  }

  /** Exactly which datagrams can be printed. */
  lemma PrintsIff(d: Datagram)
    ensures DatagramText(d).Some?
            <==> d.header.ver == 4 && d.header.hlen >= 5 && |d.payload| == (d.header.len - 4 * d.header.hlen) % TWO16
  {
    hide Add, Value, BigEndians;
  }

  // ---- what is accepted ----

  /** The parts of the header the acceptance of a datagram depends on. */
  function HlenOf(b: Bytes): nat
    requires |b| >= LENGTH
  {
    b[0] % 16
  }

  function LenOf(b: Bytes): nat
    requires |b| >= LENGTH
  {
    (b[2] as int) * 256 + b[3]
  }

  predicate WellFormed(b: Bytes)
    requires |b| >= LENGTH
  {
    b[0] / 16 == 4 && 5 <= HlenOf(b) && 4 * HlenOf(b) <= |b| == LenOf(b)
  }

  lemma FieldsOf(b: Bytes)
    requires |b| >= LENGTH
    ensures var h := FromFields(IntsOf(Parser(b, NoError), WIDTHS));
      && h.ver == b[0] / 16 && h.hlen == HlenOf(b) && h.len == LenOf(b)
      && AfterAll(Parser(b, NoError), WIDTHS) == Parser(b[LENGTH..], NoError)
  {
    SumsAre();
    hide Pow256, IntsOf, AfterAll, Sum;
    AfterAllIs(Parser(b, NoError), WIDTHS);
    FirstInts(b);
  }

  lemma FirstInts(b: Bytes)
    requires |b| >= LENGTH
    ensures var vals := IntsOf(Parser(b, NoError), WIDTHS);
            vals[0] == b[0] && vals[2] == (b[2] as int) * 256 + b[3]
  {
    hide Pow256, IntsOf, After, FromBigEndian;
    var p := Parser(b, NoError);
    var p1, p2 := Parser(b[1..], NoError), Parser(b[2..], NoError);
    NextInt(p, WIDTHS);
    AfterIs(b, 1);
    NextInt(p1, WIDTHS[1..]);
    AfterIs(b[1..], 1);
    assert b[1..][1..] == b[2..] && WIDTHS[1..][1..] == WIDTHS[2..];
    NextInt(p2, WIDTHS[2..]);
    OneByte(b[0]);
    assert b[..1] == [b[0]] && b[2..][..2] == [b[2], b[3]];
    TwoBytes(b[2], b[3]);
  }

  lemma AfterIs(b: Bytes, w: nat)
    requires w <= |b|
    ensures After(Parser(b, NoError), w) == Parser(b[w..], NoError)
  {
  }

  lemma NextInt(p: Parser, widths: seq<nat>)
    requires widths != []
    ensures IntsOf(p, widths) == [IntOf(p, widths[0])] + IntsOf(After(p, widths[0]), widths[1..])
  {
  }

  lemma OneByte(x: u8)
    ensures FromBigEndian([x]) == x
  {
    assert [x][..0] == [];
  }

  lemma TwoBytes(x: u8, y: u8)
    ensures FromBigEndian([x, y]) == (x as int) * 256 + y
  {
    OneByte(x);
    assert [x, y][..1] == [x];
  }

  /** Where parsing a header leaves the parser: past the options if the header is well-formed, with a
      right checksum or a wrong one, and otherwise past its fixed part. */
  lemma HeaderLeaves(b: Bytes)
    requires |b| >= LENGTH
    ensures var r := ParseHeader(Parser(b, NoError), DEFAULT_HEADER);
      && r.parser == Parser(if WellFormed(b) then b[4 * HlenOf(b)..] else b[LENGTH..], NoError)
      && r.header.ver == b[0] / 16 && r.header.hlen == HlenOf(b) && r.header.len == LenOf(b)
  {
    FieldsOf(b);
    hide Add, Value, IntsOf, AfterAll, FromFields, HlenOf, LenOf;
    if WellFormed(b) {
      assert b[LENGTH..][4 * HlenOf(b) - LENGTH..] == b[4 * HlenOf(b)..];
    }
  }

  /** Exactly which buffers are accepted as datagrams. A well-formed header is, with a right checksum
      or a wrong one; a malformed one is, if the lengths in it happen to match the buffer. */
  lemma AcceptedIff(b: Bytes)
    ensures ParseDatagram(b).1 == NoError
            <==> |b| >= LENGTH && (WellFormed(b) || |b| - LENGTH == (LenOf(b) - 4 * HlenOf(b)) % TWO16)
  {
    hide ParseHeader, PayloadLength, HlenOf, LenOf;
    if |b| >= LENGTH {
      HeaderLeaves(b);
      LengthsMatch(b);
      assert PayloadLength(ParseHeader(Parser(b, NoError), DEFAULT_HEADER).header)
          == (LenOf(b) - 4 * HlenOf(b)) % TWO16 by { PayloadLengthIs(b); }
    } else {
      TooShortIsRefused(b);
    }
  }

  lemma PayloadLengthIs(b: Bytes)
    requires |b| >= LENGTH
    ensures PayloadLength(ParseHeader(Parser(b, NoError), DEFAULT_HEADER).header) == (LenOf(b) - 4 * HlenOf(b)) % TWO16
  {
    hide ParseHeader, HlenOf, LenOf;
    HeaderLeaves(b);
  }

  lemma LengthsMatch(b: Bytes)
    requires |b| >= LENGTH
    ensures WellFormed(b) ==> |b| - 4 * HlenOf(b) == (LenOf(b) - 4 * HlenOf(b)) % TWO16
  {
  }

  lemma TooShortIsRefused(b: Bytes)
    requires |b| < LENGTH
    ensures ParseDatagram(b).1 == PacketTooShort
  {
  }

  /** The verdict on a well-formed header is its checksum's. */
  lemma VerdictOf(b: Bytes)
    requires |b| >= LENGTH && WellFormed(b)
    ensures ParseHeader(Parser(b, NoError), DEFAULT_HEADER).result
            == if Value(Add(Checksum(0, false), b[..4 * HlenOf(b)])) != 0 then BadChecksum else NoError
  {
    FieldsOf(b);
    hide Add, Value, IntsOf, AfterAll, FromFields, HlenOf, LenOf;
    assert b[LENGTH..][4 * HlenOf(b) - LENGTH..] == b[4 * HlenOf(b)..];
  }

  /** A header is judged sound exactly when its version, its lengths and its checksum are right. */
  lemma SoundIff(b: Bytes, h0: Ipv4Header)
    ensures ParseHeader(Parser(b, NoError), h0).result == NoError
            <==> |b| >= LENGTH && WellFormed(b) && Value(Add(Checksum(0, false), b[..4 * HlenOf(b)])) == 0
  {
    hide Add, Value, IntsOf, AfterAll, FromFields, HlenOf, LenOf;
    if |b| >= LENGTH {
      FieldsOf(b);
      if WellFormed(b) {
        assert b[LENGTH..][4 * HlenOf(b) - LENGTH..] == b[4 * HlenOf(b)..];
      }
    }
  }

  /** So a datagram whose header fails its checksum is accepted. */
  lemma BadChecksumAccepted()
    ensures var b := [0x45, 0, 0, 20] + Zeros(16);
      && ParseDatagram(b).1 == NoError
      && ParseHeader(Parser(b, NoError), DEFAULT_HEADER).result == BadChecksum
  {
    hide ParseHeader, ParseDatagram, Add, Value;
    var b := [0x45, 0, 0, 20] + Zeros(16);
    AcceptedIff(b);
    VerdictOf(b);
    SumOfBad();
    assert b[..20] == b;
  }

  lemma {:induction false} ZerosAddNothing(n: nat, parity: bool)
    ensures WordSum(Zeros(n), parity) == 0
  {
    if n == 0 {
    } else {
      ZerosAddNothing(n - 1, !parity);
      assert Zeros(n)[1..] == Zeros(n - 1);
    }
  }

  lemma SumOfBad()
    ensures Value(Add(Checksum(0, false), [0x45, 0, 0, 20] + Zeros(16))) != 0
  {
    var head := [0x45, 0, 0, 20];
    SumOfHead();
    hide WordSum, Value, Add;
    ZerosAddNothing(16, false);
    WordSumConcat(head, Zeros(16), false);
    AddIsSum(Checksum(0, false), head + Zeros(16));
    ValueZeroIff(Add(Checksum(0, false), head + Zeros(16)));
  }

  lemma SumOfHead()
    ensures WordSum([0x45, 0, 0, 20], false) == 0x4500 + 20
  {
    assert [0x45, 0, 0, 20][1..] == [0, 0, 20] && [0, 0, 20][1..] == [0, 20] && [0, 20][1..] == [20] && [20][1..] == [];
    assert WordSum([20], true) == 20;
    assert WordSum([0, 20], false) == 20;
    assert WordSum([0, 0, 20], true) == 20;
  }

  /** Accepting a datagram does not make it printable: here the version is wrong, which parsing ignores
      and printing refuses. */
  lemma AcceptedUnprintable()
    ensures var b := [0x55, 0, 0, 20] + Zeros(16);
            ParseDatagram(b).1 == NoError && DatagramText(ParseDatagram(b).0) == None
  {
    hide ParseHeader, Add, Value;
    var b := [0x55, 0, 0, 20] + Zeros(16);
    AcceptedIff(b);
    HeaderLeaves(b);
  }

  // ---- the parser and the printer as the program runs them ----

  method ParseHeaderFrom(p: NetParser, h0: Ipv4Header) returns (h: Ipv4Header, result: ParseResult)
    modifies p
    ensures ParseHeader(old(p.State()), h0) == Parsed(p.State(), h, result)
  {
    hide IntsOf, AfterAll, Add, Value;
    var original := p.buffer;
    ghost var start := p.State();
    var dataSize := |p.buffer|;
    if dataSize < LENGTH {
      return h0, PacketTooShort;
    }
    h := ReadFields(p);
    if dataSize < 4 * h.hlen {
      return h, PacketTooShort;
    }
    if h.ver != 4 {
      return h, WrongIPVersion;
    }
    if h.hlen < 5 {
      return h, HeaderTooShort;
    }
    if dataSize != h.len {
      return h, TruncatedPacket;
    }
    p.RemovePrefix(h.hlen * 4 - LENGTH);
    if p.error != NoError {
      return h, p.error;
    }
    var check := new InternetChecksum(0);
    check.AddBytes(original[..4 * h.hlen]);
    var value := check.GetValue();
    if value != 0 {
      return h, BadChecksum;
    }
    return h, NoError;
  }

  method ReadFields(p: NetParser) returns (h: Ipv4Header)
    modifies p
    ensures h == FromFields(IntsOf(old(p.State()), WIDTHS)) && p.State() == AfterAll(old(p.State()), WIDTHS)
  {
    hide IntOf, After, IntsOf, AfterAll, FromFields, Pow256;
    ghost var start := p.State();
    ghost var w: seq<nat>, v: seq<nat> := [], [];
    NothingRead(start);
    var firstByte, tos, len, id, fragment, ttl, proto, cksum, src, dst;
    firstByte, w, v := p.Field(1, start, w, v);
    tos, w, v := p.Field(1, start, w, v);
    len, w, v := p.Field(2, start, w, v);
    assert w == [1, 1, 2] && v == [firstByte, tos, len];
    id, w, v := p.Field(2, start, w, v);
    fragment, w, v := p.Field(2, start, w, v);
    assert w == [1, 1, 2, 2, 2] && v == [firstByte, tos, len, id, fragment];
    ttl, w, v := p.Field(1, start, w, v);
    proto, w, v := p.Field(1, start, w, v);
    assert w == [1, 1, 2, 2, 2, 1, 1] && v == [firstByte, tos, len, id, fragment, ttl, proto];
    cksum, w, v := p.Field(2, start, w, v);
    src, w, v := p.Field(4, start, w, v);
    dst, w, v := p.Field(4, start, w, v);
    assert w == WIDTHS && v == [firstByte, tos, len, id, fragment, ttl, proto, cksum, src, dst];
    h := FromFields([firstByte, tos, len, id, fragment, ttl, proto, cksum, src, dst]);
  }

  lemma NothingRead(p: Parser)
    ensures AfterAll(p, []) == p && IntsOf(p, []) == []
  {
  }

  method SerializeHeader(h: Ipv4Header) returns (text: Option<Bytes>)
    ensures text == HeaderText(h)
  {
    hide BigEndians, BigEndian, Sum;
    if h.ver != 4 {
      return None;
    }
    if 4 * h.hlen < LENGTH {
      return None;
    }
    var ret: Bytes;
    ghost var v: seq<nat>, w: seq<nat>;
    ret, v, w := AppendLengths(h);
    ret, v, w := AppendField(ret, h.ttl, 1, v, w);
    ret, v, w := AppendField(ret, h.proto, 1, v, w);
    ret, v, w := AppendField(ret, h.cksum, 2, v, w);
    assert w == WIDTHS[..8] && v == Fields(h)[..8];
    ret, v, w := AppendField(ret, h.src, 4, v, w);
    ret, v, w := AppendField(ret, h.dst, 4, v, w);
    assert v == Fields(h) && w == WIDTHS;
    return Some(ret + Zeros(4 * h.hlen - LENGTH));
  }

  /** The first half of the header, up to the flags and the fragment offset. */
  method AppendLengths(h: Ipv4Header) returns (ret: Bytes, ghost v: seq<nat>, ghost w: seq<nat>)
    ensures v == Fields(h)[..5] && w == WIDTHS[..5] && ret == BigEndians(Fields(h)[..5], WIDTHS[..5])
  {
    hide BigEndians, BigEndian, Sum;
    ret, v, w := [], [], [];
    NoBigEndians();
    ret, v, w := AppendField(ret, h.ver * 16 % 256 + h.hlen % 16, 1, v, w);
    ret, v, w := AppendField(ret, h.tos, 1, v, w);
    ret, v, w := AppendField(ret, h.len, 2, v, w);
    assert w == WIDTHS[..3] && v == Fields(h)[..3];
    var fragment := (if h.df then 0x4000 else 0) + (if h.mf then 0x2000 else 0) + h.offset % 0x2000;
    ret, v, w := AppendField(ret, h.id, 2, v, w);
    ret, v, w := AppendField(ret, fragment, 2, v, w);
  }

  lemma NoBigEndians()
    ensures BigEndians([], []) == []
  {
  }

  method Serialize(d: Datagram) returns (text: Option<Bytes>)
    ensures text == DatagramText(d)
  {
    hide BigEndians, Fields, Add, Value;
    if |d.payload| != PayloadLength(d.header) {
      return None;
    }
    var zeroed := SerializeHeader(d.header.(cksum := 0));
    if zeroed == None {
      return None;
    }
    var check := new InternetChecksum(0);
    check.AddBytes(zeroed.value);
    var cksum := check.GetValue();
    var header := SerializeHeader(d.header.(cksum := cksum));
    return Some(header.value + d.payload);
  }

  method Parse(buffer: Bytes) returns (d: Datagram, result: ParseResult)
    ensures (d, result) == ParseDatagram(buffer)
  {
    hide ParseHeader;
    var p := new NetParser(buffer);
    var header, _ := ParseHeaderFrom(p, DEFAULT_HEADER);
    d := Datagram(header, p.buffer);
    if |d.payload| != PayloadLength(header) {
      return d, PacketTooShort;
    }
    return d, p.error;
  }
}
