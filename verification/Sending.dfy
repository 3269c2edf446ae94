/** The sender's half of a connection, as a value. */
module Sending {
  import opened Words
  import opened WrappingIntegers
  import opened ByteStreams
  import opened Segments

  const MAX_PAYLOAD: nat := 1000

  datatype Sender = Sender(
    isn: u32, initialRto: u16, stream: Stream, finSent: bool, next: nat, lastAck: nat,
    outstanding: seq<Segment>, out: seq<Segment>, window: u16,
    rto: u32, elapsed: u32, timerOn: bool, retx: u32)

  function NewSender(capacity: nat, retxTimeout: u16, isn: u32): Sender {
    Sender(isn, retxTimeout, NewStream(capacity), false, 0, 0, [], [], 1, retxTimeout, 0, false, 0)
  }

  function InFlight(s: Sender): int {
    s.next - s.lastAck
  }

  /** A zero window counts as one, so that it is probed. */
  function CurrentWindow(s: Sender): int {
    if s.window == 0 then 1 else s.window
  }

  /** How many payload bytes the next segment may take. */
  function PayloadRoom(s: Sender): nat
    requires InFlight(s) < CurrentWindow(s)
  {
    Min(CurrentWindow(s) - InFlight(s) - Flag(s.next == 0), MAX_PAYLOAD)
  }

  function NextSegment(s: Sender): Segment
    requires InFlight(s) < CurrentWindow(s)
  {
    var syn := s.next == 0;
    var payload := PeekAt(s.stream, PayloadRoom(s));
    var fin := !s.finSent && Eof(PopFrom(s.stream, PayloadRoom(s)))
               && |payload| + Flag(syn) < CurrentWindow(s) - InFlight(s);
    Segment(DEFAULT_HEADER.(seqno := Wrap(s.next, s.isn), syn := syn, fin := fin), payload)
  }

  function Emit(s: Sender): Sender
    requires InFlight(s) < CurrentWindow(s)
  {
    var seg := NextSegment(s);
    s.(stream := PopFrom(s.stream, PayloadRoom(s)),
       finSent := s.finSent || seg.header.fin,
       next := s.next + Length(seg),
       out := s.out + [seg],
       outstanding := s.outstanding + [seg],
       timerOn := true,
       elapsed := if s.timerOn then s.elapsed else 0)
  }

  /** The loop that fills the window. */
  function FillLoop(s: Sender): Sender
    decreases CurrentWindow(s) - InFlight(s)
  {
    if CurrentWindow(s) <= InFlight(s) || Length(NextSegment(s)) == 0 then s
    else if NextSegment(s).header.fin then Emit(s)
    else FillLoop(Emit(s))
  }

  function FillWindow(s: Sender): Sender {
    if s.finSent then s else FillLoop(s)
  }

  /** The absolute number an outstanding segment starts at, as read back from its header. */
  function AbsStart(seg: Segment, isn: u32, next: nat): u64 {
    Unwrap(seg.header.seqno, isn, U64(next))
  }

  /** Drop the fully acknowledged segments from the front. */
  function PopAcked(segs: seq<Segment>, isn: u32, next: nat, absAck: nat): seq<Segment> {
    if segs == [] || AbsStart(segs[0], isn, next) + Length(segs[0]) > absAck then segs
    else PopAcked(segs[1..], isn, next, absAck)
  }

  /** Everything an acceptable acknowledgment changes before the window is refilled. */
  function Acknowledge(s: Sender, absAck: nat, window: u16): Sender {
    var s' := if absAck > s.lastAck then s.(lastAck := absAck, rto := s.initialRto, retx := 0, elapsed := 0) else s;
    s'.(window := window, outstanding := PopAcked(s.outstanding, s.isn, s.next, absAck))
  }

  function AckReceived(s: Sender, ackno: u32, window: u16): Sender {
    var absAck := Unwrap(ackno, s.isn, U64(s.next));
    if absAck > s.next then s
    else
      var s' := FillWindow(Acknowledge(s, absAck, window));
      if s'.outstanding == [] then s'.(timerOn := false, elapsed := 0)
      else s'.(timerOn := s'.timerOn || absAck > s.lastAck)
  }

  function Tick(s: Sender, ms: nat): Sender {
    if !s.timerOn then s
    else
      var elapsed := (s.elapsed + ms) % TWO32;
      if elapsed >= s.rto && s.outstanding != [] then
        s.(out := s.out + [s.outstanding[0]],
           rto := if s.window > 0 then s.rto * 2 % TWO32 else s.rto,
           retx := (s.retx + 1) % TWO32,
           elapsed := 0)
      else s.(elapsed := elapsed)
  }

  function EmptySegment(s: Sender): Segment {
    Segment(DEFAULT_HEADER.(seqno := Wrap(s.next, s.isn)), [])
  }

  function SendEmpty(s: Sender): Sender {
    s.(out := s.out + [EmptySegment(s)])
  }
}
