/** The receiver object. */
module TCPReceivers {
  import opened Words
  import opened WrappingIntegers
  import opened Reassembly
  import L = ReassemblyLaws
  import opened StreamReassemblers
  import opened Segments
  import opened Receiving

  class TCPReceiver {
    const capacity: nat
    const reassembler: StreamReassembler
    var synReceived: bool
    var isn: u32

    ghost function Repr(): set<object> {
      {this, reassembler, reassembler.output}
    }

    ghost predicate Valid()
      reads Repr()
    {
      reassembler.Valid() && reassembler.capacity == capacity
    }

    ghost function State(): Receiver
      reads Repr()
      requires Valid()
    {
      Receiver(reassembler.State(), capacity, synReceived, isn)
    }

    constructor (capacity: nat)
      ensures Valid() && fresh(Repr()) && State() == NewReceiver(capacity)
    {
      this.capacity := capacity;
      reassembler := new StreamReassembler(capacity);
      synReceived, isn := false, 0;
    }

    method SegmentReceived(seg: Segment)
      requires Valid()
      modifies Repr()
      ensures Valid() && State() == Receiving.SegmentReceived(old(State()), seg)
    {
      hide Push, L.Inv;
      if seg.header.syn {
        synReceived := true;
        isn := seg.header.seqno;
      }
      if !synReceived {
        return;
      }
      var checkpoint := U64(reassembler.output.bytesWritten + 1);
      var absSeqno: int := Unwrap(seg.header.seqno, isn, checkpoint);
      var streamIndex := U64(absSeqno - 1 + (if seg.header.syn then 1 else 0));
      if seg.header.syn && seg.payload == [] {
        if seg.header.fin {
          reassembler.PushSubstring([], 0, true);
        }
        return;
      }
      reassembler.PushSubstring(seg.payload, streamIndex, seg.header.fin);
    }

    method Ackno() returns (ackno: Option<u32>)
      requires Valid()
      ensures ackno == Receiving.Ackno(State())
    {
      if !synReceived {
        return None;
      }
      var absAck := reassembler.output.bytesWritten + 1;
      if reassembler.output.inputEnded {
        absAck := absAck + 1;
      }
      return Some(Wrap(absAck, isn));
    }

    method WindowSize() returns (n: nat)
      requires Valid()
      ensures n == Receiving.WindowSize(State())
    {
      n := capacity - |reassembler.output.buffer|;
    }
  }
}
