/** The receiver's half of a connection, as a value. */
module Receiving {
  import opened Words
  import opened WrappingIntegers
  import opened ByteStreams
  import opened Reassembly
  import opened Segments

  datatype Receiver = Receiver(re: Reassembler, capacity: nat, syn: bool, isn: u32)

  function NewReceiver(capacity: nat): Receiver {
    Receiver(NewReassembler(capacity), capacity, false, 0)
  }

  function Written(v: Receiver): nat {
    |v.re.out.log|
  }

  /** The absolute acknowledgment number: how much of the sequence space has been assembled. */
  function AbsAck(v: Receiver): nat {
    if !v.syn then 0 else Written(v) + 1 + Flag(v.re.out.ended)
  }

  function Ackno(v: Receiver): Option<u32> {
    if v.syn then Some(Wrap(AbsAck(v), v.isn)) else None
  }

  function WindowSize(v: Receiver): int {
    v.capacity - |Buffer(v.re.out)|
  }

  /** The window as a header carries it, clamped to 16 bits. */
  function HeaderWindow(v: Receiver): u16 {
    if WindowSize(v) > 0xffff then 0xffff else Max(0, WindowSize(v))
  }

  /** The stream index of a segment's first byte, in 64-bit arithmetic. */
  function StreamIndex(seg: Segment, isn: u32, written: nat): u64 {
    U64(Unwrap(seg.header.seqno, isn, U64(written + 1)) - 1 + Flag(seg.header.syn))
  }

  function SegmentReceived(v: Receiver, seg: Segment): Receiver {
    var h := seg.header;
    var v := if h.syn then v.(syn := true, isn := h.seqno) else v;
    if !v.syn then v
    else if h.syn && seg.payload == [] then
      if h.fin then v.(re := Push(v.re, [], 0, true)) else v
    else
      v.(re := Push(v.re, seg.payload, StreamIndex(seg, v.isn, Written(v)), h.fin))
  }

  function Reading(v: Receiver, len: nat): Receiver {
    v.(re := v.re.(out := PopFrom(v.re.out, len)))
  }
}
