/** Two whole connections, joined by a network that may lose, repeat and reorder every segment either
    of them ever sent. Data flows both ways, and acknowledgments travel in the headers. */
module Pairs {
  import opened Words
  import opened WrappingIntegers
  import opened ByteStreams
  import opened Segments
  import opened Sending
  import opened Receiving
  import opened Connections
  import S = SenderLaws
  import V = ReceiverLaws
  import E = EndToEnd
  import C = ConnectionLaws
  import Closing

  /** A segment in the network, with the absolute number it was sent at and the absolute acknowledgment
      number of its sender at that time. */
  datatype Packet = Packet(start: nat, abs: nat, seg: Segment)

  datatype Pair = Pair(left: Connection, right: Connection, fromLeft: set<Packet>, fromRight: set<Packet>)

  datatype Action = Call(op: C.Op) | Get(packet: Packet)
  datatype Move = Move(onLeft: bool, action: Action)

  function Flip(p: Pair): Pair {
    Pair(p.right, p.left, p.fromRight, p.fromLeft)
  }

  /** What a connection has queued, as it enters the network. */
  function Packets(c: Connection): set<Packet> {
    set seg | seg in c.out :: Packet(AbsStart(seg, c.snd.isn, c.snd.next), AbsAck(c.rcv), seg)
  }

  function HandOver(p: Pair, c: Connection): Pair {
    p.(left := c.(out := []), fromLeft := p.fromLeft + Packets(c))
  }

  function ApplyLeft(p: Pair, a: Action): Pair {
    match a
    case Call(op) => HandOver(p, C.Step(p.left, op))
    case Get(packet) => HandOver(p, SegmentArrives(p.left, packet.seg))
  }

  /** The application may call what it likes, and any segment the other side ever sent may arrive, as
      long as its numbers are near enough to be told apart. */
  predicate EnabledLeft(p: Pair, a: Action) {
    match a
    case Call(op) => !op.DoArrive? && C.Legal(p.left, op)
    case Get(packet) =>
      && packet in p.fromRight && Distance(packet.start, Written(p.left.rcv) + 1) < TWO31
      && (packet.seg.header.ack ==> Distance(packet.abs, p.left.snd.next) < TWO31)
  }

  function Apply(p: Pair, m: Move): Pair {
    if m.onLeft then ApplyLeft(p, m.action) else Flip(ApplyLeft(Flip(p), m.action))
  }

  predicate Enabled(p: Pair, m: Move) {
    EnabledLeft(if m.onLeft then p else Flip(p), m.action)
  }

  function Run(p: Pair, moves: seq<Move>): Pair
    decreases |moves|
  {
    if moves == [] then p else Run(Apply(p, moves[0]), moves[1..])
  }

  predicate Possible(p: Pair, moves: seq<Move>)
    decreases |moves|
  {
    moves == [] || (Enabled(p, moves[0]) && Possible(Apply(p, moves[0]), moves[1..]))
  }

  // ---- what a sender may send ----

  ghost predicate Placed(s: Sender, start: nat, seg: Segment) {
    E.PacketOk(s, E.Packet(start, seg)) && s.lastAck <= start + MAX_PAYLOAD + 2
  }

  /** The segment is part of what has been sent, and not from long before the acknowledged number. */
  ghost predicate Emittable(s: Sender, seg: Segment) {
    exists start: nat :: Placed(s, start, seg)
  }

  ghost predicate AllEmittable(s: Sender, segs: seq<Segment>) {
    forall seg :: seg in segs ==> Emittable(s, seg)
  }

  /** A segment apart from what its receiver half has to say. */
  function Bare(seg: Segment): Segment {
    seg.(header := seg.header.(ack := false, ackno := 0, win := 0))
  }

  /** The sender itself never acknowledges and never resets. */
  ghost predicate Plain(segs: seq<Segment>) {
    forall seg :: seg in segs ==> seg == Bare(seg) && !seg.header.rst
  }

  ghost predicate Ready(s: Sender) {
    S.Inv(s) && AllEmittable(s, s.out) && Plain(s.out) && Plain(s.outstanding)
  }

  /** The number an emitted segment was sent at can be read back from its header. */
  lemma StartReadBack(s: Sender, seg: Segment)
    requires S.Inv(s) && Emittable(s, seg)
    ensures E.PacketOk(s, E.Packet(AbsStart(seg, s.isn, s.next), seg))
  {
    hide Wrap, Unwrap, E.SentSpace, S.Span, S.Tiles;
    var start: nat :| Placed(s, start, seg);
    S.NumbersFit(s);
    S.QuietIff(s);
    UnwrapInvertsWrap(start, s.isn, s.next);
    NamesNumber(s, start, seg);
  }

  lemma NamesNumber(s: Sender, start: nat, seg: Segment)
    requires E.PacketOk(s, E.Packet(start, seg))
    ensures seg.header.seqno == Wrap(start, s.isn) && start <= s.next
  {
  }

  lemma EmittableGrows(s: Sender, s': Sender, segs: seq<Segment>)
    requires AllEmittable(s, segs) && S.Placed(s) && S.Placed(s') && S.Grows(S.SpaceOf(s), S.SpaceOf(s'))
    requires s.next <= s'.next && s'.lastAck == s.lastAck
    ensures AllEmittable(s', segs)
  {
    hide E.PacketOk, S.Placed, S.Grows;
    E.SentGrows(s, s');
    forall seg | seg in segs ensures Emittable(s', seg) {
      var start: nat :| Placed(s, start, seg);
      E.PacketGrows(s, s', E.Packet(start, seg));
      assert Placed(s', start, seg);
    }
  }

  lemma {:induction false} TilesEmittable(s: Sender, start: nat, segs: seq<Segment>, stop: nat)
    requires S.Placed(s) && S.Tiles(S.SpaceOf(s), start, segs, stop) && stop <= s.next && s.lastAck <= start
    ensures AllEmittable(s, segs)
    decreases |segs|
  {
    hide S.Names, S.Placed, E.PacketOk;
    S.TilesSpan(S.SpaceOf(s), start, segs, stop);
    if segs == [] {
    } else {
      E.NamesSent(s, start, segs[0]);
      assert Placed(s, start, segs[0]);
      TilesEmittable(s, start + Length(segs[0]), segs[1..], stop);
      assert segs == [segs[0]] + segs[1..];
    }
  }

  lemma {:induction false} FillLoopPlain(s: Sender)
    requires Plain(s.out) && Plain(s.outstanding)
    ensures Plain(FillLoop(s).out) && Plain(FillLoop(s).outstanding)
    decreases CurrentWindow(s) - InFlight(s)
  {
    if CurrentWindow(s) <= InFlight(s) || Length(NextSegment(s)) == 0 {
    } else {
      assert Plain(Emit(s).out) && Plain(Emit(s).outstanding);
      if !NextSegment(s).header.fin {
        FillLoopPlain(Emit(s));
      }
    }
  }

  lemma FillPlain(s: Sender)
    requires Plain(s.out) && Plain(s.outstanding)
    ensures Plain(FillWindow(s).out) && Plain(FillWindow(s).outstanding)
  {
    hide FillLoop;
    FillLoopPlain(s);
  }

  lemma OnlyPlaced(s: Sender)
    requires S.Inv(s)
    ensures S.Placed(s) && S.Shape(s) && 0 <= s.lastAck <= s.next
  {
  }

  lemma FillReady(s: Sender)
    requires Ready(s)
    ensures Ready(FillWindow(s)) && FillWindow(s).lastAck == s.lastAck
  {
    hide FillWindow, S.Placed, S.Shape, S.Tiles, S.Span, Emittable;
    var s' := FillWindow(s);
    OnlyPlaced(s);
    var sent := S.FillKeeps(s);
    OnlyPlaced(s');
    EmittableGrows(s, s', s.out);
    TilesEmittable(s', s.next, sent, s'.next);
    FillPlain(s);
  }

  lemma {:induction false} PopPlain(segs: seq<Segment>, isn: u32, next: nat, absAck: nat)
    requires Plain(segs)
    ensures Plain(PopAcked(segs, isn, next, absAck))
    decreases |segs|
  {
    hide AbsStart;
    if segs == [] {
    } else {
      PopPlain(segs[1..], isn, next, absAck);
    }
  }

  lemma AckPlain(s: Sender, ackno: u32, window: u16)
    requires Plain(s.out) && Plain(s.outstanding)
    ensures Plain(AckReceived(s, ackno, window).out) && Plain(AckReceived(s, ackno, window).outstanding)
  {
    hide FillWindow, Unwrap, PopAcked;
    var absAck := Unwrap(ackno, s.isn, U64(s.next));
    PopPlain(s.outstanding, s.isn, s.next, absAck);
    FillPlain(Acknowledge(s, absAck, window));
  }

  lemma AckReady(s: Sender, ackno: u32, window: u16)
    requires Ready(s) && s.out == []
    ensures Ready(AckReceived(s, ackno, window))
  {
    hide AckReceived, Unwrap, PopAcked, S.Placed, S.Shape, S.Tiles, S.Span, Emittable;
    var s' := AckReceived(s, ackno, window);
    OnlyPlaced(s);
    S.NumbersFit(s);
    var sent := S.AckKeeps(s, ackno, window);
    OnlyPlaced(s');
    assert s'.out == sent;
    TilesEmittable(s', s.next, sent, s'.next);
    AckPlain(s, ackno, window);
  }

  lemma TickReady(s: Sender, ms: nat)
    requires Ready(s)
    ensures Ready(Tick(s, ms)) && Tick(s, ms).lastAck == s.lastAck
  {
    hide S.Tiles, S.Span, S.Names, Tick, Emittable, E.PacketOk, S.Placed;
    var s' := Tick(s, ms);
    OnlyPlaced(s);
    S.TickKeeps(s, ms);
    OnlyPlaced(s');
    EmittableGrows(s, s', s.out);
    if s'.out != s.out {
      FrontReady(s, s');
    }
  }

  lemma FrontReady(s: Sender, s': Sender)
    requires S.Inv(s) && S.Inv(s') && s.outstanding != []
    requires S.SpaceOf(s') == S.SpaceOf(s) && s'.next == s.next && s'.lastAck == s.lastAck
    requires S.Names(S.SpaceOf(s), S.Base(s), s.outstanding[0])
    ensures Emittable(s', s.outstanding[0])
  {
    hide S.Placed, S.Tiles, E.PacketOk;
    E.FrontFits(s);
    E.NamesSent(s', S.Base(s), s.outstanding[0]);
    ShortPayload(S.SpaceOf(s), S.Base(s), s.outstanding[0]);
    assert Placed(s', S.Base(s), s.outstanding[0]);
  }

  lemma ShortPayload(sp: S.Space, start: nat, seg: Segment)
    requires S.Names(sp, start, seg)
    ensures Length(seg) <= MAX_PAYLOAD + 2
  {
  }

  /** A segment without content at the next number. */
  lemma BareEmittable(s: Sender, seg: Segment)
    requires S.Inv(s) && Length(seg) == 0 && seg.header.seqno == Wrap(s.next, s.isn)
    ensures Emittable(s, seg)
  {
    hide Wrap, S.Tiles, S.Span;
    OnlyPlaced(s);
    assert S.Names(E.SentSpace(s), s.next, seg);
    assert Placed(s, s.next, seg);
  }

  lemma EmptyReady(s: Sender)
    requires Ready(s)
    ensures Ready(SendEmpty(s)) && SendEmpty(s).lastAck == s.lastAck
  {
    hide Wrap, S.Placed, S.Shape, Emittable, S.Tiles, S.Span;
    OnlyPlaced(s);
    C.OutForward(s, SendEmpty(s).out);
    C.ForwardInv(s, SendEmpty(s));
    OnlyPlaced(SendEmpty(s));
    EmittableGrows(s, SendEmpty(s), s.out);
    BareEmittable(SendEmpty(s), EmptySegment(s));
  }

  /** Another stream, or another queue of segments that may be sent. */
  lemma StreamReady(s: Sender, stream: Stream)
    requires Ready(s) && S.Grows(S.SpaceOf(s), S.SpaceOf(s.(stream := stream)))
    requires stream.read == s.stream.read && |stream.log| + 2 < TWO64
    ensures Ready(s.(stream := stream))
  {
    hide S.Placed, S.Shape, Emittable, S.Tiles, S.Span, S.Grows;
    S.StreamGrows(s, stream);
    OnlyPlaced(s);
    OnlyPlaced(s.(stream := stream));
    EmittableGrows(s, s.(stream := stream), s.out);
  }

  lemma EmptiedReady(s: Sender)
    requires Ready(s)
    ensures Ready(s.(out := []))
  {
    hide S.Shape, Emittable;
    C.OutForward(s, []);
    C.ForwardInv(s, s.(out := []));
  }

  // ---- what a connection hands over ----

  /** Every acknowledgment is the receiver's present one. */
  ghost predicate Reports(v: Receiver, segs: seq<Segment>) {
    forall seg :: seg in segs && seg.header.ack ==> v.syn && seg.header.ackno == Wrap(AbsAck(v), v.isn)
  }

  ghost predicate Sends(c: Connection) {
    Ready(c.snd) && AllEmittable(c.snd, c.out) && Reports(c.rcv, c.out)
  }

  lemma StampedEmittable(s: Sender, v: Receiver, seg: Segment)
    requires Emittable(s, seg)
    ensures Emittable(s, Stamped(v, seg))
  {
    hide Wrap, Ackno, HeaderWindow;
    var start: nat :| Placed(s, start, seg);
    assert Placed(s, start, Stamped(v, seg));
  }

  lemma FlushSends(c: Connection)
    requires Ready(c.snd) && c.out == []
    ensures Sends(Flushed(c))
  {
    hide S.Inv, Emittable, Stamped, StampedAll, Wrap;
    EmptiedReady(c.snd);
    var f := Flushed(c);
    var all := StampedAll(c.rcv, c.snd.out);
    assert f.out == all;
    forall seg | seg in all
      ensures Emittable(f.snd, seg)
      ensures seg.header.ack ==> c.rcv.syn && seg.header.ackno == Wrap(AbsAck(c.rcv), c.rcv.isn)
    {
      var i :| 0 <= i < |all| && all[i] == seg;
      var plain := c.snd.out[i];
      StampedEmittable(c.snd, c.rcv, plain);
      QueueDoesNotMatter(c.snd, seg);
      StampReports(c.rcv, plain);
    }
  }

  lemma QueueDoesNotMatter(s: Sender, seg: Segment)
    requires Emittable(s, seg)
    ensures Emittable(s.(out := []), seg)
  {
    hide S.Names;
    var start: nat :| Placed(s, start, seg);
    assert Placed(s.(out := []), start, seg);
  }

  lemma StampReports(v: Receiver, seg: Segment)
    requires !seg.header.ack
    ensures Stamped(v, seg).header.ack ==> v.syn && Stamped(v, seg).header.ackno == Wrap(AbsAck(v), v.isn)
  {
    hide Wrap, AbsAck;
  }

  lemma RefillSends(c: Connection, stream: Stream)
    requires Ready(c.snd) && c.out == [] && S.Grows(S.SpaceOf(c.snd), S.SpaceOf(c.snd.(stream := stream)))
    requires stream.read == c.snd.stream.read && |stream.log| + 2 < TWO64
    ensures Sends(Refilled(c, stream)) && Refilled(c, stream).rcv == c.rcv
    ensures Refilled(c, stream).snd.lastAck == c.snd.lastAck
  {
    hide FillWindow, Ready, S.Grows, StampedAll, Sends;
    StreamReady(c.snd, stream);
    FillReady(c.snd.(stream := stream));
    FlushSends(c.(snd := FillWindow(c.snd.(stream := stream))));
  }

  lemma ResetSends(c: Connection, sendRst: bool)
    requires Ready(c.snd) && c.out == []
    ensures Sends(Reset(c, sendRst)) && Reset(c, sendRst).snd.lastAck == c.snd.lastAck
  {
    hide S.Inv, Emittable, Plain, Wrap, S.Placed;
    S.NumbersFit(c.snd);
    StreamReady(c.snd, Errored(c.snd.stream));
    BareEmittable(Reset(c, sendRst).snd, ResetSegment(c.snd));
  }

  lemma ReplyReady(c: Connection, seg: Segment)
    requires Ready(c.snd)
    ensures Ready(Replied(c, seg).snd) && Replied(c, seg).snd.lastAck == c.snd.lastAck
  {
    hide FillWindow, Ready, EmptySegment, IsKeepAlive;
    FillReady(c.snd);
    var s1 := if Length(seg) > 0 then FillWindow(c.snd) else c.snd;
    EmptyReady(s1);
    var s2 := if Length(seg) > 0 && s1.out == [] then SendEmpty(s1) else s1;
    EmptyReady(s2);
  }

  lemma ArriveSends(c: Connection, seg: Segment)
    requires Ready(c.snd) && c.snd.out == [] && c.out == [] && c.alive && !seg.header.rst
    ensures Sends(SegmentArrives(c, seg))
    ensures SegmentArrives(c, seg).snd.lastAck == Absorbed(c, seg).snd.lastAck
    ensures SegmentArrives(c, seg).rcv == SegmentReceived(c.rcv, seg)
  {
    hide FillWindow, AckReceived, SegmentReceived, Ready, StampedAll, Sends, SummaryOfReceiver, SummaryOfSender,
         Replied;
    if seg.header.ack {
      AckReady(c.snd, seg.header.ackno, seg.header.win);
    }
    var a := Absorbed(c, seg);
    FillReady(a.snd);
    FlushSends(a.(snd := FillWindow(a.snd), alive := true));
    var passive := SummaryOfReceiver(a.rcv) == FinRecv && SummaryOfSender(a.snd) == SynAcked;
    var l := a.(linger := a.linger && !passive);
    ReplyReady(l, seg);
    ReplyFrame(l, seg);
    FlushSends(Replied(l, seg));
  }

  lemma ReplyFrame(c: Connection, seg: Segment)
    ensures Replied(c, seg) == c.(snd := Replied(c, seg).snd)
  {
    hide FillWindow, IsKeepAlive;
  }

  lemma TimeSends(c: Connection, ms: nat)
    requires Ready(c.snd) && c.out == []
    ensures Sends(TimePasses(c, ms)) && TimePasses(c, ms).snd.lastAck == c.snd.lastAck
  {
    hide S.Inv, Emittable, Plain, Tick, Reset, StampedAll, Active;
    if c.alive {
      var c1 := c.(idle := c.idle + ms, snd := Tick(c.snd, ms));
      TickReady(c.snd, ms);
      ResetSends(c1, true);
      FlushSends(c1);
    }
  }

  /** Calls by the application do not change the acknowledged number, and all they send is in order. */
  lemma CallSends(c: Connection, op: C.Op)
    requires Ready(c.snd) && c.out == [] && C.Legal(c, op) && !op.DoArrive?
    ensures Sends(C.Step(c, op)) && C.Step(c, op).snd.lastAck == c.snd.lastAck
  {
    hide Ready, Sends, Refilled, Reset, TimePasses, Reading, Connect;
    ReadyFits(c.snd);
    match op
    case DoConnect =>
      C.ConnectIsRefill(c);
      RefillSends(c, c.snd.stream);
      AliveSends(Refilled(c, c.snd.stream));
    case DoWrite(data) => RefillSends(c, WriteTo(c.snd.stream, data));
    case DoEndInput => RefillSends(c, EndedInput(c.snd.stream));
    case DoRead(len) => NothingSent(c.(rcv := Reading(c.rcv, len)));
    case DoTick(ms) => TimeSends(c, ms);
    case DoDestroy =>
      ResetSends(c, true);
      NothingSent(c);
  }

  lemma AliveSends(c: Connection)
    requires Sends(c)
    ensures Sends(c.(alive := true))
  {
    hide Ready;
  }

  lemma ReadyFits(s: Sender)
    requires Ready(s)
    ensures |s.stream.log| + 2 < TWO64
  {
  }

  lemma NothingSent(c: Connection)
    requires Ready(c.snd) && c.out == []
    ensures Sends(c)
  {
    hide Ready;
  }

  // ---- the invariant ----

  /** One direction: what `s` sent, what `v` received of it, and the acknowledgments on their way back. */
  ghost predicate Flows(s: Sender, v: Receiver, sent: set<Packet>, back: set<Packet>) {
    && (forall p :: p in sent ==> E.PacketOk(s, E.Packet(p.start, p.seg)))
    && V.Fed(E.SentSpace(s), v)
    && (v.syn ==> s.next > 0)
    && (forall p :: p in back && p.seg.header.ack ==> p.abs <= AbsAck(v) && p.seg.header.ackno == Wrap(p.abs, s.isn))
    && s.lastAck <= AbsAck(v)
  }

  ghost predicate Own(c: Connection) {
    C.CInv(c) && Ready(c.snd) && c.out == []
  }

  ghost predicate PInv(p: Pair) {
    && Own(p.left) && Own(p.right)
    && Flows(p.left.snd, p.right.rcv, p.fromLeft, p.fromRight)
    && Flows(p.right.snd, p.left.rcv, p.fromRight, p.fromLeft)
  }

  /** The sending side of a step: more is sent, and nothing already under way becomes wrong. */
  lemma SentFlows(c: Connection, c': Connection, v: Receiver, sent: set<Packet>, back: set<Packet>)
    requires Flows(c.snd, v, sent, back) && C.SenderForward(c.snd, c'.snd) && S.Inv(c.snd)
    requires AllEmittable(c'.snd, c'.out) && c'.snd.lastAck <= AbsAck(v)
    ensures Flows(c'.snd, v, sent + Packets(c'), back)
  {
    hide E.PacketOk, V.Fed, Emittable, AbsStart, S.Placed, S.Shape, Wrap, S.Grows, E.SentSpace;
    OnlyPlaced(c.snd);
    OnlyPlaced(c'.snd);
    E.SentGrows(c.snd, c'.snd);
    SameIsn(c.snd, c'.snd);
    V.FedGrows(E.SentSpace(c.snd), E.SentSpace(c'.snd), v);
    forall p | p in sent + Packets(c') ensures E.PacketOk(c'.snd, E.Packet(p.start, p.seg)) {
      if p in sent {
        E.PacketGrows(c.snd, c'.snd, E.Packet(p.start, p.seg));
      } else {
        StartReadBack(c'.snd, p.seg);
      }
    }
  }

  lemma SameIsn(s: Sender, s': Sender)
    requires S.Grows(S.SpaceOf(s), S.SpaceOf(s'))
    ensures s'.isn == s.isn
  {
  }

  /** The receiving side of a step: the receiver moves forward, and what it sends reports where it is. */
  lemma ReceivedFlows(s: Sender, c: Connection, c': Connection, sent: set<Packet>, back: set<Packet>)
    requires Flows(s, c.rcv, sent, back) && C.ReceiverForward(c.rcv, c'.rcv) && Reports(c'.rcv, c'.out)
    requires V.Fed(E.SentSpace(s), c'.rcv) && (c'.rcv.syn ==> s.next > 0)
    ensures Flows(s, c'.rcv, sent, back + Packets(c'))
  {
    hide E.PacketOk, V.Fed, V.RInv, AbsStart, Wrap, E.SentSpace;
    V.FedWritten(E.SentSpace(s), c'.rcv);
    SpaceIsn(s);
  }

  lemma SpaceIsn(s: Sender)
    ensures E.SentSpace(s).isn == s.isn
  {
  }

  lemma SentTidied(c: Connection)
    requires Sends(c) && C.CInv(c)
    ensures Own(c.(out := []))
  {
    hide Ready, S.Inv, V.RInv;
  }

  /** Once the two halves of the left connection are known to have moved rightly, so has the pair. */
  lemma LeftMoves(p: Pair, c: Connection)
    requires PInv(p) && C.CInv(c) && Sends(c)
    requires C.SenderForward(p.left.snd, c.snd) && C.ReceiverForward(p.left.rcv, c.rcv)
    requires c.snd.lastAck <= AbsAck(p.right.rcv)
    requires V.Fed(E.SentSpace(p.right.snd), c.rcv) && (c.rcv.syn ==> p.right.snd.next > 0)
    ensures PInv(HandOver(p, c))
  {
    hide C.CInv, Flows, Packets, V.Fed, C.ReceiverForward, C.SenderForward, S.Inv, Emittable, Plain;
    SentFlows(p.left, c, p.right.rcv, p.fromLeft, p.fromRight);
    ReceivedFlows(p.right.snd, p.left, c, p.fromRight, p.fromLeft);
    SentTidied(c);
    SameFlows(c, p.right.rcv, p.fromLeft + Packets(c), p.fromRight);
  }

  lemma SameFlows(c: Connection, v: Receiver, sent: set<Packet>, back: set<Packet>)
    requires Flows(c.snd, v, sent, back)
    ensures Flows(c.(out := []).snd, v, sent, back)
  {
  }

  lemma CallFed(sp: S.Space, c: Connection, op: C.Op)
    requires V.Fed(sp, c.rcv) && !op.DoArrive?
    ensures V.Fed(sp, C.Step(c, op).rcv) && C.Step(c, op).rcv.syn == c.rcv.syn
  {
    hide V.Fed, FillWindow, Tick, Active;
    V.FailingFeeds(sp, c.rcv);
    if op.DoRead? {
      V.ReadingFeeds(sp, c.rcv, op.len);
    }
  }

  lemma CallKeeps(p: Pair, op: C.Op)
    requires PInv(p) && !op.DoArrive? && C.Legal(p.left, op)
    ensures PInv(ApplyLeft(p, Call(op)))
  {
    hide C.Step, Ready, Sends, C.CInv, V.Fed, C.SenderForward, C.ReceiverForward, C.Legal, HandOver, E.PacketOk;
    var c := C.Step(p.left, op);
    C.StepKeeps(p.left, op);
    CallSends(p.left, op);
    CallFed(E.SentSpace(p.right.snd), p.left, op);
    LeftMoves(p, c);
  }

  lemma AliveParts(c: Connection)
    requires Own(c) && c.alive
    ensures c.snd.out == []
  {
    hide Ready, S.Inv, V.RInv;
  }

  /** A segment that is no reset, taken in by an alive connection. */
  lemma TakenIn(p: Pair, packet: Packet)
    requires PInv(p) && EnabledLeft(p, Get(packet)) && p.left.alive && !packet.seg.header.rst
    ensures var c := SegmentArrives(p.left, packet.seg);
      && Sends(c) && c.snd.lastAck <= AbsAck(p.right.rcv)
      && V.Fed(E.SentSpace(p.right.snd), c.rcv) && (c.rcv.syn ==> p.right.snd.next > 0)
  {
    hide C.CInv, V.Fed, SegmentReceived, SegmentArrives, S.Inv, Ready, Sends, AckReceived, Emittable, Plain;
    var c, sp, seg := p.left, E.SentSpace(p.right.snd), packet.seg;
    AliveParts(c);
    ReadyInv(p.right.snd);
    ReadyInv(c.snd);
    OnlyPlaced(p.right.snd);
    E.SentSpaceSmall(p.right.snd);
    ArriveSends(c, seg);
    V.ReceiveFeeds(sp, c.rcv, packet.start, seg);
    V.ReceivePushes(c.rcv, seg);
    C.CInvParts(c);
    C.ArriveReceiver(c.rcv, seg);
    SentSyn(p.right.snd, packet.start, seg);
    if seg.header.ack {
      AckedWithin(c.snd, p.right.rcv, p.fromLeft, p.fromRight, packet);
    }
  }

  /** An acknowledgment that arrives is read as what the other end meant, which is no more than it has. */
  lemma AckedWithin(s: Sender, v: Receiver, sent: set<Packet>, back: set<Packet>, packet: Packet)
    requires Flows(s, v, sent, back) && S.Inv(s) && packet in back && packet.seg.header.ack
    requires Distance(packet.abs, s.next) < TWO31
    ensures AckReceived(s, packet.seg.header.ackno, packet.seg.header.win).lastAck <= AbsAck(v)
  {
    hide V.Fed, AckReceived, S.Shape, S.Placed, E.PacketOk, Wrap, Unwrap;
    S.NumbersFit(s);
    OnlyPlaced(s);
    E.SentSpaceSmall(s);
    V.FedWritten(E.SentSpace(s), v);
    UnwrapInvertsWrap(packet.abs, s.isn, s.next);
    var _ := S.AckKeeps(s, packet.seg.header.ackno, packet.seg.header.win);
  }

  lemma ReadyInv(s: Sender)
    requires Ready(s)
    ensures S.Inv(s)
  {
  }

  lemma SentSyn(s: Sender, start: nat, seg: Segment)
    requires E.PacketOk(s, E.Packet(start, seg))
    ensures seg.header.syn ==> s.next > 0
    ensures S.Names(E.SentSpace(s), start, seg) && start <= s.next
  {
  }

  lemma GetKeeps(p: Pair, packet: Packet)
    requires PInv(p) && EnabledLeft(p, Get(packet))
    ensures PInv(ApplyLeft(p, Get(packet)))
  {
    hide C.CInv, V.Fed, SegmentArrives, Ready, Sends, C.SenderForward, C.ReceiverForward, HandOver, E.PacketOk, Reset;
    var c := SegmentArrives(p.left, packet.seg);
    C.ArriveKeeps(p.left, packet.seg);
    if p.left.alive && !packet.seg.header.rst {
      TakenIn(p, packet);
    } else {
      Untouched(p.left, packet.seg, E.SentSpace(p.right.snd));
    }
    LeftMoves(p, c);
  }

  /** A segment that a dead connection ignores, or that resets an alive one. */
  lemma Untouched(c: Connection, seg: Segment, sp: S.Space)
    requires Own(c) && (!c.alive || seg.header.rst) && V.Fed(sp, c.rcv)
    ensures var c' := SegmentArrives(c, seg);
      && Sends(c') && c'.snd.lastAck == c.snd.lastAck
      && V.Fed(sp, c'.rcv) && c'.rcv.syn == c.rcv.syn
  {
    hide Ready, Sends, C.CInv, V.Fed;
    V.FailingFeeds(sp, c.rcv);
    if c.alive {
      ResetSends(c.(idle := 0), false);
    } else {
      NothingSent(c);
    }
  }

  // ---- whole runs ----

  lemma FlipKeeps(p: Pair)
    requires PInv(p)
    ensures PInv(Flip(p))
  {
    hide Own, Flows;
  }

  lemma MoveKeeps(p: Pair, m: Move)
    requires PInv(p) && Enabled(p, m)
    ensures PInv(Apply(p, m))
  {
    hide PInv, ApplyLeft;
    var q := if m.onLeft then p else Flip(p);
    FlipKeeps(p);
    match m.action {
      case Call(op) => CallKeeps(q, op);
      case Get(packet) => GetKeeps(q, packet);
    }
    FlipKeeps(ApplyLeft(q, m.action));
  }

  lemma {:induction false} RunKeeps(p: Pair, moves: seq<Move>)
    requires PInv(p) && Possible(p, moves)
    ensures PInv(Run(p, moves))
    decreases |moves|
  {
    hide PInv, Apply, Enabled;
    if moves == [] {
    } else {
      MoveKeeps(p, moves[0]);
      RunKeeps(Apply(p, moves[0]), moves[1..]);
    }
  }

  /** What an end is configured with. */
  datatype Setup = Setup(rt: u16, recvCapacity: nat, sendCapacity: nat, isn: u32)

  function New(e: Setup): Connection {
    NewConnection(e.rt, e.recvCapacity, e.sendCapacity, e.isn)
  }

  lemma StartOk(a: Setup, b: Setup)
    ensures PInv(Pair(New(a), New(b), {}, {}))
  {
    C.StartOk(a.rt, a.recvCapacity, a.sendCapacity, a.isn);
    C.StartOk(b.rt, b.recvCapacity, b.sendCapacity, b.isn);
  }

  lemma FlowIsSafe(s: Sender, v: Receiver, sent: set<Packet>, back: set<Packet>)
    requires Flows(s, v, sent, back) && Ready(s)
    ensures v.re.out.log <= s.stream.log
    ensures v.re.out.ended ==> s.stream.ended && v.re.out.log == s.stream.log
  {
    hide E.PacketOk, V.Fed, Emittable, Plain;
    V.FedWritten(E.SentSpace(s), v);
  }

  lemma InvParts(p: Pair)
    requires PInv(p)
    ensures Ready(p.left.snd) && Ready(p.right.snd)
    ensures Flows(p.left.snd, p.right.rcv, p.fromLeft, p.fromRight)
    ensures Flows(p.right.snd, p.left.rcv, p.fromRight, p.fromLeft)
  {
    hide Ready, Flows;
  }

  /** As long as less than half the number range has been written at either end, every segment ever sent
      may be delivered: the condition on distances excludes nothing. */
  lemma AlwaysNear(p: Pair)
    requires PInv(p) && |p.left.snd.stream.log| + 2 < TWO31 && |p.right.snd.stream.log| + 2 < TWO31
    ensures forall packet :: packet in p.fromRight ==> EnabledLeft(p, Get(packet))
    ensures forall packet :: packet in p.fromLeft ==> EnabledLeft(Flip(p), Get(packet))
  {
    hide Ready, Flows;
    InvParts(p);
    NearFrom(p.left.snd, p.right.rcv, p.fromLeft, p.fromRight);
    NearFrom(p.right.snd, p.left.rcv, p.fromRight, p.fromLeft);
  }

  lemma NearFrom(s: Sender, v: Receiver, sent: set<Packet>, back: set<Packet>)
    requires Flows(s, v, sent, back) && Ready(s) && |s.stream.log| + 2 < TWO31
    ensures Written(v) + 1 < TWO31 && s.next < TWO31
    ensures forall p :: p in sent ==> p.start < TWO31
    ensures forall p :: p in back && p.seg.header.ack ==> p.abs < TWO31
  {
    hide V.Fed, Emittable, Plain, S.Names;
    OnlyPlaced(s);
    E.SentSpaceSmall(s);
    V.FedWritten(E.SentSpace(s), v);
  }

  /** Over any run of two connections over such a network, whatever their applications do, resets and
      closes included: what either one offers its reader is a prefix of what the other one's writer
      wrote, and it is declared complete only when it is all of it and that writer has ended it. */
  lemma BothWaysSafe(a: Setup, b: Setup, moves: seq<Move>)
    requires Possible(Pair(New(a), New(b), {}, {}), moves)
    ensures var p := Run(Pair(New(a), New(b), {}, {}), moves);
      && p.right.rcv.re.out.log <= p.left.snd.stream.log
      && (p.right.rcv.re.out.ended ==> p.left.snd.stream.ended && p.right.rcv.re.out.log == p.left.snd.stream.log)
      && p.left.rcv.re.out.log <= p.right.snd.stream.log
      && (p.left.rcv.re.out.ended ==> p.right.snd.stream.ended && p.left.rcv.re.out.log == p.right.snd.stream.log)
  {
    hide Run, Possible, Own, Flows, New;
    StartOk(a, b);
    RunKeeps(Pair(New(a), New(b), {}, {}), moves);
    var p := Run(Pair(New(a), New(b), {}, {}), moves);
    InvParts(p);
    FlowIsSafe(p.left.snd, p.right.rcv, p.fromLeft, p.fromRight);
    FlowIsSafe(p.right.snd, p.left.rcv, p.fromRight, p.fromLeft);
  }

  /** On such a run a clean close is a promise about the other end: when a connection has become inactive
      without a reset, everything it wrote has arrived there, and everything written there has arrived
      here. */
  lemma CleanCloseIsComplete(a: Setup, b: Setup, moves: seq<Move>)
    requires Possible(Pair(New(a), New(b), {}, {}), moves)
    ensures var p := Run(Pair(New(a), New(b), {}, {}), moves);
      !Active(p.left) && !p.left.snd.stream.error ==>
        && p.right.rcv.re.out.ended && p.right.rcv.re.out.log == p.left.snd.stream.log
        && p.left.rcv.re.out.ended && p.left.rcv.re.out.log == p.right.snd.stream.log
  {
    hide Run, Possible, Own, Flows, New, Active;
    StartOk(a, b);
    RunKeeps(Pair(New(a), New(b), {}, {}), moves);
    var p := Run(Pair(New(a), New(b), {}, {}), moves);
    InvParts(p);
    if !Active(p.left) && !p.left.snd.stream.error {
      OwnCloses(p.left);
      FlowIsSafe(p.right.snd, p.left.rcv, p.fromRight, p.fromLeft);
      AllAcknowledged(p.left.snd, p.right.rcv, p.fromLeft, p.fromRight);
    }
  }

  lemma OwnCloses(c: Connection)
    requires Own(c) && !Active(c) && !c.snd.stream.error
    ensures c.rcv.re.out.ended && c.snd.lastAck == |c.snd.stream.log| + 2
  {
    hide Ready;
    Closing.InactiveIsClosed(c);
  }

  lemma AllAcknowledged(s: Sender, v: Receiver, sent: set<Packet>, back: set<Packet>)
    requires Flows(s, v, sent, back) && Ready(s) && s.lastAck == |s.stream.log| + 2
    ensures v.re.out.ended && v.re.out.log == s.stream.log
  {
    hide E.PacketOk, V.Fed, Emittable, Plain;
    V.FedWritten(E.SentSpace(s), v);
    FlowIsSafe(s, v, sent, back);
  }
}
