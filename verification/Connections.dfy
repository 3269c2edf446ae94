/** The connection that drives a sender and a receiver, as a value. */
module Connections {
  import opened Words
  import opened WrappingIntegers
  import opened ByteStreams
  import opened Segments
  import opened Sending
  import opened Receiving

  const MAX_RETX_ATTEMPTS := 8

  datatype ReceiverSummary = Listen | SynRecv | FinRecv | ReceiverError
  datatype SenderSummary = Closed | SynSent | SynAcked | FinSent | FinAcked | SenderError

  function SummaryOfReceiver(v: Receiver): ReceiverSummary {
    if v.re.out.error then ReceiverError
    else if !v.syn then Listen
    else if v.re.out.ended then FinRecv
    else SynRecv
  }

  function SummaryOfSender(s: Sender): SenderSummary {
    if s.stream.error then SenderError
    else if s.next == 0 then Closed
    else if s.next == InFlight(s) then SynSent
    else if !Eof(s.stream) then SynAcked
    else if s.next < |s.stream.log| + 2 then SynAcked
    else if InFlight(s) != 0 then FinSent
    else FinAcked
  }

  datatype Connection = Connection(
    rt: u16, rcv: Receiver, snd: Sender, out: seq<Segment>, linger: bool, alive: bool, idle: nat)

  function NewConnection(rt: u16, recvCapacity: nat, sendCapacity: nat, isn: u32): Connection {
    Connection(rt, NewReceiver(recvCapacity), NewSender(sendCapacity, rt, isn), [], true, true, 0)
  }

  /** A segment with what the receiver has to say written into its header. */
  function Stamped(v: Receiver, seg: Segment): Segment {
    match Ackno(v)
    case None => seg
    case Some(ackno) => seg.(header := seg.header.(ack := true, ackno := ackno, win := HeaderWindow(v)))
  }

  function StampedAll(v: Receiver, segs: seq<Segment>): (r: seq<Segment>)
    ensures |r| == |segs| && forall i :: 0 <= i < |r| ==> r[i] == Stamped(v, segs[i])
  {
    if segs == [] then [] else [Stamped(v, segs[0])] + StampedAll(v, segs[1..])
  }

  /** Hand over everything the sender has queued. */
  function Flushed(c: Connection): Connection {
    c.(out := c.out + StampedAll(c.rcv, c.snd.out), snd := c.snd.(out := []))
  }

  function StreamsClosed(c: Connection): bool {
    c.rcv.re.out.ended && Eof(c.snd.stream) && InFlight(c.snd) == 0 && c.snd.next == |c.snd.stream.log| + 2
  }

  predicate Active(c: Connection) {
    c.alive && !(StreamsClosed(c) && (!c.linger || c.idle >= 10 * c.rt))
  }

  function ResetSegment(s: Sender): Segment {
    Segment(DEFAULT_HEADER.(rst := true, seqno := Wrap(s.next, s.isn)), [])
  }

  function Reset(c: Connection, sendRst: bool): Connection {
    c.(out := if sendRst then c.out + [ResetSegment(c.snd)] else c.out,
       rcv := c.rcv.(re := c.rcv.re.(out := Errored(c.rcv.re.out))),
       snd := c.snd.(stream := Errored(c.snd.stream)),
       alive := false)
  }

  function Connect(c: Connection): Connection {
    Flushed(c.(snd := FillWindow(c.snd), alive := true))
  }

  /** The receiver, and then the sender, take in a segment. */
  function Absorbed(c: Connection, seg: Segment): Connection {
    var c := c.(idle := 0, rcv := SegmentReceived(c.rcv, seg));
    if seg.header.ack then c.(snd := AckReceived(c.snd, seg.header.ackno, seg.header.win)) else c
  }

  /** An old sequence number without content asks whether the connection is still there. */
  predicate IsKeepAlive(v: Receiver, seg: Segment) {
    v.syn && Length(seg) == 0 && seg.header.seqno == (Wrap(AbsAck(v), v.isn) - 1) % TWO32
  }

  function Replied(c: Connection, seg: Segment): Connection {
    var s := if Length(seg) > 0 then FillWindow(c.snd) else c.snd;
    var s := if Length(seg) > 0 && s.out == [] then SendEmpty(s) else s;
    var s := if IsKeepAlive(c.rcv, seg) then SendEmpty(s) else s;
    c.(snd := s)
  }

  /** What a segment calls for once it has been taken in: a first SYN is answered with one, and a FIN
      that comes before this side's own ends the need to linger. */
  function Responded(c: Connection, seg: Segment): Connection {
    if SummaryOfReceiver(c.rcv) == SynRecv && c.snd.next == 0 then Connect(c)
    else
      var passive := SummaryOfReceiver(c.rcv) == FinRecv && SummaryOfSender(c.snd) == SynAcked;
      Flushed(Replied(c.(linger := c.linger && !passive), seg))
  }

  function SegmentArrives(c: Connection, seg: Segment): Connection {
    if !c.alive then c
    else if seg.header.rst then Reset(c.(idle := 0), false)
    else Responded(Absorbed(c, seg), seg)
  }

  function TimePasses(c: Connection, ms: nat): Connection {
    if !c.alive then c
    else
      var c := c.(idle := c.idle + ms, snd := Tick(c.snd, ms));
      if c.snd.retx > MAX_RETX_ATTEMPTS then Reset(c, true)
      else
        var c := Flushed(c);
        c.(alive := Active(c))
  }

  function Refilled(c: Connection, stream: Stream): Connection {
    Flushed(c.(snd := FillWindow(c.snd.(stream := stream))))
  }

  function WriteBytes(c: Connection, data: Bytes): Connection {
    Refilled(c, WriteTo(c.snd.stream, data))
  }

  function EndInputStream(c: Connection): Connection {
    Refilled(c, EndedInput(c.snd.stream))
  }

  function Destroyed(c: Connection): Connection {
    if Active(c) then Reset(c, true) else c
  }
}
