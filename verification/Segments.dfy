/** TCP segments. */
module Segments {
  import opened Words

  datatype Header = Header(
    sport: u16, dport: u16, seqno: u32, ackno: u32, doff: u8,
    urg: bool, ack: bool, psh: bool, rst: bool, syn: bool, fin: bool,
    win: u16, cksum: u16, uptr: u16)

  const DEFAULT_HEADER := Header(0, 0, 0, 0, 5, false, false, false, false, false, false, 0, 0, 0)

  datatype Segment = Segment(header: Header, payload: Bytes)

  /** Length in sequence space: SYN and FIN count for one each. */
  function Length(seg: Segment): nat {
    |seg.payload| + Flag(seg.header.syn) + Flag(seg.header.fin)
  }
}
