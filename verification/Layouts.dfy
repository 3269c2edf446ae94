/** Where every field of a header lies in the bytes that go on the wire. */
module Layouts {
  import opened Parsing
  import opened Segments
  import I = Ipv4
  import T = TcpWire

  // ---- IPv4 ----

  lemma IpOffsets()
    ensures Sum(I.WIDTHS[..0]) == 0 && Sum(I.WIDTHS[..1]) == 1 && Sum(I.WIDTHS[..2]) == 2
    ensures Sum(I.WIDTHS[..3]) == 4 && Sum(I.WIDTHS[..4]) == 6 && Sum(I.WIDTHS[..5]) == 8
    ensures Sum(I.WIDTHS[..6]) == 9 && Sum(I.WIDTHS[..7]) == 10 && Sum(I.WIDTHS[..8]) == 12
    ensures Sum(I.WIDTHS[..9]) == 16 && Sum(I.WIDTHS) == 20
  {
    hide Sum;
    NoWidths();
    assert I.WIDTHS[..0] == [] && I.WIDTHS[..10] == I.WIDTHS;
    OffsetStep(I.WIDTHS, 0);
    OffsetStep(I.WIDTHS, 1);
    OffsetStep(I.WIDTHS, 2);
    OffsetStep(I.WIDTHS, 3);
    OffsetStep(I.WIDTHS, 4);
    OffsetStep(I.WIDTHS, 5);
    OffsetStep(I.WIDTHS, 6);
    OffsetStep(I.WIDTHS, 7);
    OffsetStep(I.WIDTHS, 8);
    OffsetStep(I.WIDTHS, 9);
  }

  lemma NoWidths()
    ensures Sum([]) == 0
  {
  }

  /** The printed IPv4 header, byte by byte (section 3.1 of RFC 791). */
  lemma IpLayout(h: I.Ipv4Header)
    requires I.Fits(h)
    ensures I.HeaderText(h).Some?
    ensures var b := I.HeaderText(h).value;
      && |b| == 4 * h.hlen && b[0] == 4 * 16 + h.hlen && b[1] == h.tos && Word(b, 2) == h.len && Word(b, 4) == h.id
      && Word(b, 6) == (if h.df then 0x4000 else 0) + (if h.mf then 0x2000 else 0) + h.offset
      && b[8] == h.ttl && b[9] == h.proto && Word(b, 10) == h.cksum
      && LongWord(b, 12) == h.src && LongWord(b, 16) == h.dst
      && forall k :: 20 <= k < |b| ==> b[k] == 0
  {
    hide BigEndians, BigEndian, Sum, Word, LongWord;
    IpOffsets();
    var vals, w, b := I.Fields(h), I.WIDTHS, I.HeaderText(h).value;
    var fixed := BigEndians(vals, w);
    assert b[..20] == fixed;
    IpField(h, 0);
    ByteAt(b, 0, vals[0]);
    IpField(h, 1);
    ByteAt(b, 1, vals[1]);
    IpField(h, 2);
    WordAt(b, 2, vals[2]);
    IpField(h, 3);
    WordAt(b, 4, vals[3]);
    IpField(h, 4);
    WordAt(b, 6, vals[4]);
    IpField(h, 5);
    ByteAt(b, 8, vals[5]);
    IpField(h, 6);
    ByteAt(b, 9, vals[6]);
    IpField(h, 7);
    WordAt(b, 10, vals[7]);
    IpField(h, 8);
    LongWordAt(b, 12, vals[8]);
    IpField(h, 9);
    LongWordAt(b, 16, vals[9]);
  }

  lemma IpField(h: I.Ipv4Header, k: nat)
    requires I.Fits(h) && k < 10
    ensures I.HeaderText(h).Some?
    ensures var b, at := I.HeaderText(h).value, Sum(I.WIDTHS[..k]);
      at + I.WIDTHS[k] <= |b| && b[at..at + I.WIDTHS[k]] == BigEndian(I.Fields(h)[k], I.WIDTHS[k])
  {
    hide BigEndians, BigEndian, Sum, I.Fields;
    FieldAt(I.Fields(h), I.WIDTHS, k);
  }

  // ---- TCP ----

  lemma TcpOffsets()
    ensures Sum(T.WIDTHS[..0]) == 0 && Sum(T.WIDTHS[..1]) == 2 && Sum(T.WIDTHS[..2]) == 4
    ensures Sum(T.WIDTHS[..3]) == 8 && Sum(T.WIDTHS[..4]) == 12 && Sum(T.WIDTHS[..5]) == 13
    ensures Sum(T.WIDTHS[..6]) == 14 && Sum(T.WIDTHS[..7]) == 16 && Sum(T.WIDTHS[..8]) == 18 && Sum(T.WIDTHS) == 20
  {
    hide Sum;
    NoWidths();
    assert T.WIDTHS[..0] == [] && T.WIDTHS[..9] == T.WIDTHS;
    OffsetStep(T.WIDTHS, 0);
    OffsetStep(T.WIDTHS, 1);
    OffsetStep(T.WIDTHS, 2);
    OffsetStep(T.WIDTHS, 3);
    OffsetStep(T.WIDTHS, 4);
    OffsetStep(T.WIDTHS, 5);
    OffsetStep(T.WIDTHS, 6);
    OffsetStep(T.WIDTHS, 7);
    OffsetStep(T.WIDTHS, 8);
  }

  /** The printed TCP header, byte by byte (section 3.1 of RFC 9293). */
  lemma TcpLayout(h: Header)
    requires 5 <= h.doff <= 15
    ensures T.HeaderText(h).Some?
    ensures var b := T.HeaderText(h).value;
      && |b| == 4 * h.doff && Word(b, 0) == h.sport && Word(b, 2) == h.dport
      && LongWord(b, 4) == h.seqno && LongWord(b, 8) == h.ackno && b[12] == 16 * h.doff
      && b[13] == (if h.urg then 32 else 0) + (if h.ack then 16 else 0) + (if h.psh then 8 else 0)
                  + (if h.rst then 4 else 0) + (if h.syn then 2 else 0) + (if h.fin then 1 else 0)
      && Word(b, 14) == h.win && Word(b, 16) == h.cksum && Word(b, 18) == h.uptr
      && forall k :: 20 <= k < |b| ==> b[k] == 0
  {
    hide BigEndians, BigEndian, Sum, Word, LongWord;
    TcpOffsets();
    var vals, w, b := T.Fields(h), T.WIDTHS, T.HeaderText(h).value;
    assert b[..20] == BigEndians(vals, w);
    TcpField(h, 0);
    WordAt(b, 0, vals[0]);
    TcpField(h, 1);
    WordAt(b, 2, vals[1]);
    TcpField(h, 2);
    LongWordAt(b, 4, vals[2]);
    TcpField(h, 3);
    LongWordAt(b, 8, vals[3]);
    TcpField(h, 4);
    ByteAt(b, 12, vals[4]);
    TcpField(h, 5);
    ByteAt(b, 13, vals[5]);
    TcpField(h, 6);
    WordAt(b, 14, vals[6]);
    TcpField(h, 7);
    WordAt(b, 16, vals[7]);
    TcpField(h, 8);
    WordAt(b, 18, vals[8]);
  }

  lemma TcpField(h: Header, k: nat)
    requires 5 <= h.doff && k < 9
    ensures T.HeaderText(h).Some?
    ensures var b, at := T.HeaderText(h).value, Sum(T.WIDTHS[..k]);
      at + T.WIDTHS[k] <= |b| && b[at..at + T.WIDTHS[k]] == BigEndian(T.Fields(h)[k], T.WIDTHS[k])
  {
    hide BigEndians, BigEndian, Sum, T.Fields;
    FieldAt(T.Fields(h), T.WIDTHS, k);
  }
}
