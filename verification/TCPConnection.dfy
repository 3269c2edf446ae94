/** The connection object. */
module TCPConnections {
  import opened Words
  import opened WrappingIntegers
  import opened ByteStreams
  import Reassembly
  import L = ReassemblyLaws
  import opened Segments
  import Sending
  import Receiving
  import opened Connections
  import opened TCPReceivers
  import opened TCPSenders

  class TCPConnection {
    const rtTimeout: u16
    const receiver: TCPReceiver
    const sender: TCPSender
    var segmentsOut: seq<Segment>
    var lingerAfterStreamsFinish: bool
    var isActive: bool
    var idle: nat

    ghost function Repr(): set<object> {
      {this} + receiver.Repr() + sender.Repr()
    }

    ghost predicate Valid()
      reads Repr()
    {
      receiver.Valid() && sender.Valid() && receiver.Repr() !! sender.Repr()
    }

    ghost function State(): Connection
      reads Repr()
      requires Valid()
    {
      Connection(rtTimeout, receiver.State(), sender.State(), segmentsOut, lingerAfterStreamsFinish, isActive, idle)
    }

    constructor (rtTimeout: u16, recvCapacity: nat, sendCapacity: nat, isn: u32)
      ensures Valid() && fresh(Repr())
      ensures State() == NewConnection(rtTimeout, recvCapacity, sendCapacity, isn)
    {
      this.rtTimeout := rtTimeout;
      receiver := new TCPReceiver(recvCapacity);
      sender := new TCPSender(sendCapacity, rtTimeout, isn);
      segmentsOut, lingerAfterStreamsFinish, isActive, idle := [], true, true, 0;
    }

    /** Write what the receiver has to say into a segment's header. */
    method Stamp(seg: Segment) returns (stamped: Segment)
      requires Valid()
      ensures stamped == Stamped(receiver.State(), seg)
    {
      hide L.Inv;
      stamped := seg;
      var ackno := receiver.Ackno();
      if ackno.Some? {
        var window := receiver.WindowSize();
        stamped := seg.(header := seg.header.(ack := true, ackno := ackno.value,
                                              win := if window > 0xffff then 0xffff else window));
      }
    }

    /** Take the sender's segments out one by one, stamp them, and queue them. */
    method SendSegments()
      requires Valid()
      modifies this`segmentsOut, sender`segmentsOut
      ensures Valid() && State() == Flushed(old(State()))
    {
      hide L.Inv, Stamped, StampedAll, TCPReceiver.Valid, TCPReceiver.State;
      ghost var c, queued := old(State()), sender.segmentsOut;
      while sender.segmentsOut != []
        invariant Valid() && receiver.State() == c.rcv
        invariant segmentsOut + StampedAll(c.rcv, sender.segmentsOut) == c.out + StampedAll(c.rcv, queued)
        decreases |sender.segmentsOut|
      {
        StampFirst(c.rcv, segmentsOut, sender.segmentsOut);
        SendFront();
      }
      StampFirst(c.rcv, segmentsOut, []);
    }

    lemma StampFirst(rcv: Receiving.Receiver, out: seq<Segment>, queue: seq<Segment>)
      ensures StampedAll(rcv, []) == []
      ensures queue != [] ==>
                out + StampedAll(rcv, queue) == out + [Stamped(rcv, queue[0])] + StampedAll(rcv, queue[1..])
    {
    }

    method SendFront()
      requires Valid() && sender.segmentsOut != []
      modifies this`segmentsOut, sender`segmentsOut
      ensures Valid() && receiver.State() == old(receiver.State())
      ensures sender.segmentsOut == old(sender.segmentsOut)[1..]
      ensures segmentsOut == old(segmentsOut) + [Stamped(receiver.State(), old(sender.segmentsOut)[0])]
    {
      hide L.Inv, Stamped, TCPReceiver.Valid, TCPReceiver.State;
      var seg := sender.segmentsOut[0];
      sender.segmentsOut := sender.segmentsOut[1..];
      seg := Stamp(seg);
      segmentsOut := segmentsOut + [seg];
    }

    method SetRstState(sendRst: bool)
      requires Valid()
      modifies Repr()
      ensures Valid() && State() == Reset(old(State()), sendRst)
    {
      hide L.Ordered, Reassembly.Total;
      if sendRst {
        segmentsOut := segmentsOut
          + [Segment(DEFAULT_HEADER.(rst := true, seqno := Wrap(sender.nextSeqno, sender.isn)), [])];
      }
      receiver.reassembler.output.SetError();
      sender.stream.SetError();
      isActive := false;
    }

    method Connect()
      requires Valid()
      modifies Repr()
      ensures Valid() && State() == Connections.Connect(old(State()))
    {
      hide Sending.FillWindow, L.Inv;
      sender.FillWindow();
      isActive := true;
      SendSegments();
    }

    method IsActive() returns (b: bool)
      requires Valid()
      ensures b == Active(State())
    {
      if !isActive {
        return false;
      }
      var eof := sender.stream.IsEof();
      var inFlight := sender.BytesInFlight();
      var streamsClosed := receiver.reassembler.output.inputEnded && eof && inFlight == 0
                           && sender.nextSeqno == sender.stream.bytesWritten + 2;
      if streamsClosed {
        if !lingerAfterStreamsFinish {
          return false;
        }
        if idle >= 10 * rtTimeout {
          return false;
        }
      }
      return true;
    }

    method SegmentReceived(seg: Segment)
      requires Valid()
      modifies Repr()
      ensures Valid() && State() == SegmentArrives(old(State()), seg)
    {
      hide L.Inv, Absorbed, Responded, Reset, TCPReceiver.Valid, TCPReceiver.State, TCPSender.Valid;
      if !isActive {
        return;
      }
      idle := 0;
      if seg.header.rst {
        SetRstState(false);
        return;
      }
      IdleAgain(old(State()), seg);
      Absorb(seg);
      Respond(seg);
    }

    lemma IdleAgain(c: Connection, seg: Segment)
      ensures Absorbed(c.(idle := 0), seg) == Absorbed(c, seg) && Absorbed(c, seg).idle == 0
    {
      hide Sending.AckReceived, Receiving.SegmentReceived;
    }

    method Respond(seg: Segment)
      requires Valid()
      modifies Repr()
      ensures Valid() && State() == Responded(old(State()), seg)
    {
      hide L.Inv, Flushed, Connections.Connect, SummaryOfReceiver, SummaryOfSender, Replied,
           TCPReceiver.Valid, TCPReceiver.State, TCPSender.Valid;
      var rs := ReceiverState();
      if rs == SynRecv && sender.nextSeqno == 0 {
        Connect();
        return;
      }
      var ss := SenderState();
      if rs == FinRecv && ss == SynAcked {
        lingerAfterStreamsFinish := false;
      }
      Reply(seg);
      SendSegments();
    }

    method Absorb(seg: Segment)
      requires Valid()
      modifies receiver.Repr(), sender.Repr()
      ensures Valid() && State() == Absorbed(old(State()), seg).(idle := idle)
    {
      hide Sending.AckReceived, Receiving.SegmentReceived, L.Inv;
      receiver.SegmentReceived(seg);
      if seg.header.ack {
        sender.AckReceived(seg.header.ackno, seg.header.win);
      }
    }

    /** Queue what the segment calls for: whatever the window allows or else a bare acknowledgment, and
        an answer to a keep-alive. */
    method Reply(seg: Segment)
      requires Valid()
      modifies Repr()
      ensures Valid() && State() == Replied(old(State()), seg)
    {
      hide Sending.FillWindow, L.Inv, Wrap;
      if Length(seg) > 0 {
        sender.FillWindow();
        if sender.segmentsOut == [] {
          sender.SendEmptySegment();
        }
      }
      var ackno := receiver.Ackno();
      if ackno.Some? && Length(seg) == 0 && seg.header.seqno == (ackno.value - 1) % TWO32 {
        sender.SendEmptySegment();
      }
    }

    method ReceiverState() returns (r: ReceiverSummary)
      requires Valid()
      ensures r == SummaryOfReceiver(receiver.State())
    {
      hide L.Inv;
      if receiver.reassembler.output.error {
        return ReceiverError;
      } else if !receiver.synReceived {
        return Listen;
      } else if receiver.reassembler.output.inputEnded {
        return FinRecv;
      } else {
        return SynRecv;
      }
    }

    method SenderState() returns (r: SenderSummary)
      requires Valid()
      ensures r == SummaryOfSender(sender.State())
    {
      var eof := sender.stream.IsEof();
      var inFlight := sender.BytesInFlight();
      if sender.stream.error {
        return SenderError;
      } else if sender.nextSeqno == 0 {
        return Closed;
      } else if sender.nextSeqno == inFlight {
        return SynSent;
      } else if !eof {
        return SynAcked;
      } else if sender.nextSeqno < sender.stream.bytesWritten + 2 {
        return SynAcked;
      } else if inFlight != 0 {
        return FinSent;
      } else {
        return FinAcked;
      }
    }

    method Tick(ms: nat)
      requires Valid()
      modifies Repr()
      ensures Valid() && State() == TimePasses(old(State()), ms)
    {
      hide L.Inv, Flushed, Reset, Sending.Tick;
      if !isActive {
        return;
      }
      idle := idle + ms;
      sender.Tick(ms);
      if sender.consecutiveRetx > MAX_RETX_ATTEMPTS {
        SetRstState(true);
        return;
      }
      SendSegments();
      var active := IsActive();
      if !active {
        isActive := false;
      }
    }

    method Write(data: Bytes) returns (written: nat)
      requires Valid()
      modifies Repr()
      ensures Valid() && State() == WriteBytes(old(State()), data)
      ensures written == Accepted(old(State()).snd.stream, data)
    {
      hide L.Inv, Sending.FillWindow, Flushed;
      written := sender.stream.Write(data);
      sender.FillWindow();
      SendSegments();
    }

    method EndInput()
      requires Valid()
      modifies Repr()
      ensures Valid() && State() == EndInputStream(old(State()))
    {
      hide L.Inv, Sending.FillWindow, Flushed;
      sender.stream.EndInput();
      sender.FillWindow();
      SendSegments();
    }

    /** What the destructor does: an active connection is reset. */
    method Destroy()
      requires Valid()
      modifies Repr()
      ensures Valid() && State() == Destroyed(old(State()))
    {
      hide L.Inv, Reset, Active;
      var active := IsActive();
      if active {
        SetRstState(true);
      }
    }
  }
}
