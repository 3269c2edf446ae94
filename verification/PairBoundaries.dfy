/** Two connections never send overlapping segments, what is outstanding at one is in the network, and
    what the other stores stands in the way of none of it. */
module PairBoundaries {
  import opened Words
  import opened WrappingIntegers
  import opened ByteStreams
  import opened Reassembly
  import opened Segments
  import opened Sending
  import opened Receiving
  import opened Connections
  import S = SenderLaws
  import V = ReceiverLaws
  import E = EndToEnd
  import B = Boundaries
  import C = ConnectionLaws
  import opened Pairs

  // ---- how a sender grows ----

  function Outstanding(s: Sender): set<E.Packet> {
    E.Packets(Max(0, S.Base(s)), s.outstanding)
  }

  /** From `s` to `s'` the sender sent `more`, which continue the tiling; whatever else it queued has no
      content. */
  ghost predicate Grew(s: Sender, s': Sender, more: seq<Segment>) {
    && S.Inv(s) && S.Inv(s') && S.Grows(S.SpaceOf(s), S.SpaceOf(s')) && s.next <= s'.next && s'.lastAck <= s.next
    && S.Tiles(S.SpaceOf(s'), s.next, more, s'.next)
    && Outstanding(s') <= Outstanding(s) + E.Packets(s.next, more)
    && (forall seg :: seg in s'.out ==> seg in s.out || Length(seg) == 0 || seg in more)
    && (forall seg :: seg in s.out || seg in more ==> seg in s'.out)
  }

  /** Nothing was sent. */
  lemma GrewNothing(s: Sender, s': Sender)
    requires S.Inv(s) && S.Inv(s') && S.Grows(S.SpaceOf(s), S.SpaceOf(s'))
    requires s'.next == s.next && s'.outstanding == s.outstanding && s'.lastAck == s.lastAck
    requires forall seg :: seg in s'.out ==> seg in s.out || Length(seg) == 0
    requires forall seg :: seg in s.out ==> seg in s'.out
    ensures Grew(s, s', [])
  {
    hide S.Inv, S.Tiles, S.Span, S.Grows, S.Placed, S.Shape;
    OnlyPlaced(s);
    S.TilesNil(S.SpaceOf(s'), s.next);
  }

  lemma {:induction false} TilesConcat(sp: S.Space, start: nat, a: seq<Segment>, mid: nat, b: seq<Segment>, stop: nat)
    requires S.Tiles(sp, start, a, mid) && S.Tiles(sp, mid, b, stop)
    ensures S.Tiles(sp, start, a + b, stop)
    decreases |a|
  {
    hide S.Names;
    if a == [] {
      assert a + b == b;
    } else {
      TilesConcat(sp, start + Length(a[0]), a[1..], mid, b, stop);
      assert (a + b)[1..] == a[1..] + b;
    }
  }

  lemma GrewThen(s: Sender, s': Sender, s'': Sender, a: seq<Segment>, b: seq<Segment>)
    requires Grew(s, s', a) && Grew(s', s'', b) && s''.lastAck == s'.lastAck
    ensures Grew(s, s'', a + b)
  {
    hide S.Inv, S.Tiles, Outstanding;
    S.TilesGrows(S.SpaceOf(s'), S.SpaceOf(s''), s.next, a, s'.next);
    TilesConcat(S.SpaceOf(s''), s.next, a, s'.next, b, s''.next);
    S.TilesSpan(S.SpaceOf(s'), s.next, a, s'.next);
    B.PacketsConcat(s.next, a, b);
  }

  lemma GrewFill(s: Sender) returns (more: seq<Segment>)
    requires S.Inv(s)
    ensures Grew(s, FillWindow(s), more)
  {
    hide FillWindow, S.Tiles, S.Names, S.Placed;
    OnlyPlaced(s);
    more := S.FillKeeps(s);
    Appended(s, FillWindow(s), s.outstanding, more);
  }

  /** Segments appended to what stays outstanding. */
  lemma Appended(s: Sender, s': Sender, kept: seq<Segment>, more: seq<Segment>)
    requires S.Inv(s) && S.Inv(s') && s'.outstanding == kept + more && S.Span(kept) <= s.next
    requires S.Tiles(S.SpaceOf(s'), s.next, more, s'.next)
    requires E.Packets(s.next - S.Span(kept), kept) <= Outstanding(s)
    ensures Outstanding(s') <= Outstanding(s) + E.Packets(s.next, more)
  {
    hide S.Inv, S.Tiles, S.Span;
    S.TilesSpan(S.SpaceOf(s'), s.next, more, s'.next);
    B.SpanConcat(kept, more);
    B.PacketsConcat(s.next - S.Span(kept), kept, more);
  }

  lemma GrewAck(s: Sender, ackno: u32, window: u16) returns (more: seq<Segment>)
    requires S.Inv(s)
    ensures Grew(s, AckReceived(s, ackno, window), more)
  {
    hide AckReceived, Unwrap, PopAcked, S.Inv, S.Tiles, S.Names, S.Span, S.Grows;
    var s', absAck := AckReceived(s, ackno, window), Unwrap(ackno, s.isn, U64(s.next));
    S.NumbersFit(s);
    C.AckForward(s, ackno, window);
    C.ForwardInv(s, s');
    more := S.AckKeeps(s, ackno, window);
    if s' == s {
      more := [];
      SameGrows(s);
      GrewNothing(s, s);
    } else {
      var kept := PopAcked(s.outstanding, s.isn, s.next, absAck);
      B.BaseNat(s);
      B.PopPackets(S.Base(s), s.outstanding, s.isn, s.next, absAck);
      Appended(s, s', kept, more);
      GrowsBy(s, s');
    }
  }

  lemma SameGrows(s: Sender)
    ensures S.Grows(S.SpaceOf(s), S.SpaceOf(s))
  {
  }

  lemma GrowsBy(s: Sender, s': Sender)
    requires C.SenderForward(s, s')
    ensures S.Grows(S.SpaceOf(s), S.SpaceOf(s')) && s.next <= s'.next && s.lastAck <= s'.lastAck && S.Inv(s')
  {
  }

  lemma GrewEmpty(s: Sender)
    requires S.Inv(s)
    ensures Grew(s, SendEmpty(s), [])
  {
    hide S.Shape, Wrap;
    C.OutForward(s, SendEmpty(s).out);
    C.ForwardInv(s, SendEmpty(s));
    SameGrows(s);
    GrewNothing(s, SendEmpty(s));
  }

  lemma GrewStream(s: Sender, stream: Stream)
    requires S.Inv(s) && S.Grows(S.SpaceOf(s), S.SpaceOf(s.(stream := stream)))
    requires stream.read == s.stream.read && |stream.log| + 2 < TWO64
    ensures Grew(s, s.(stream := stream), [])
  {
    hide S.Shape;
    S.StreamGrows(s, stream);
    GrewNothing(s, s.(stream := stream));
  }

  // ---- what a connection hands over ----

  /** The segments tiled from the old next number on are read back at their place. */
  lemma {:induction false} TilesPlaced(s: Sender, start: nat, segs: seq<Segment>, stop: nat)
    requires S.Placed(s) && S.Tiles(S.SpaceOf(s), start, segs, stop) && stop <= s.next && s.lastAck <= start
    ensures forall p :: p in E.Packets(start, segs) ==> Placed(s, p.start, p.seg) && p.seg in segs
    ensures forall seg :: seg in segs ==> exists p :: p in E.Packets(start, segs) && p.seg == seg
    decreases |segs|
  {
    hide S.Placed, E.PacketOk, S.Names;
    S.TilesSpan(S.SpaceOf(s), start, segs, stop);
    if segs == [] {
    } else {
      E.NamesSent(s, start, segs[0]);
      TilesPlaced(s, start + Length(segs[0]), segs[1..], stop);
      assert E.Packet(start, segs[0]) in E.Packets(start, segs);
      assert segs == [segs[0]] + segs[1..];
    }
  }

  /** Outstanding at `s`, or among what continues its space. */
  ghost predicate Sendable(s: Sender, s': Sender, more: seq<Segment>, start: nat, seg: Segment) {
    Placed(s', start, seg) && E.Packet(start, seg) in Outstanding(s) + E.Packets(s.next, more)
  }

  /** What the sender had queued when `c` became `c'`, and was handed over stamped: the new segments, and
      otherwise what was outstanding or has no content. */
  ghost predicate Handed(c: Connection, c': Connection, queue: seq<Segment>, more: seq<Segment>) {
    && c'.snd.out == [] && c'.out == StampedAll(c'.rcv, queue) && Plain(queue) && S.Inv(c'.snd)
    && S.Tiles(S.SpaceOf(c'.snd), c.snd.next, more, c'.snd.next)
    && Outstanding(c'.snd) <= Outstanding(c.snd) + E.Packets(c.snd.next, more)
    && (forall p :: p in E.Packets(c.snd.next, more) ==> Placed(c'.snd, p.start, p.seg) && p.seg in queue)
    && (forall seg :: seg in queue && Length(seg) > 0 ==>
          exists start: nat :: Sendable(c.snd, c'.snd, more, start, seg))
  }

  lemma HandedNothing(c: Connection, c': Connection)
    requires S.Inv(c.snd) && c'.snd == c.snd && c.snd.out == [] && c'.out == []
    ensures Handed(c, c', [], [])
  {
    hide S.Shape;
  }

  lemma HandedFlush(c: Connection, c1: Connection, more: seq<Segment>)
    requires c1.out == [] && c.snd.out == [] && Grew(c.snd, c1.snd, more) && Plain(c1.snd.out)
    ensures Handed(c, Flushed(c1), c1.snd.out, more)
  {
    hide StampedAll, S.Tiles, S.Inv, Outstanding, E.PacketOk, Sendable, Plain;
    EmptyQueue(c1.snd);
    GrewSendable(c.snd, c1.snd, more);
    assert [] + StampedAll(c1.rcv, c1.snd.out) == StampedAll(c1.rcv, c1.snd.out);
  }

  lemma GrewSendable(s: Sender, s': Sender, more: seq<Segment>)
    requires Grew(s, s', more) && s.out == []
    ensures var flushed := s'.(out := []);
      && (forall p :: p in E.Packets(s.next, more) ==> Placed(flushed, p.start, p.seg) && p.seg in s'.out)
      && (forall seg :: seg in s'.out && Length(seg) > 0 ==>
            exists start: nat :: Sendable(s, flushed, more, start, seg))
  {
    hide S.Tiles, S.Shape, Outstanding, Placed, E.Packets;
    OnlyPlaced(s');
    TilesPlaced(s'.(out := []), s.next, more, s'.next);
    forall seg | seg in s'.out && Length(seg) > 0
      ensures exists start: nat :: Sendable(s, s'.(out := []), more, start, seg)
    {
      var p :| p in E.Packets(s.next, more) && p.seg == seg;
      assert Sendable(s, s'.(out := []), more, p.start, seg);
    }
  }

  lemma EmptyQueue(s: Sender)
    requires S.Inv(s)
    ensures S.Inv(s.(out := [])) && Outstanding(s.(out := [])) == Outstanding(s)
  {
  }

  lemma HandedAlive(c: Connection, c': Connection, queue: seq<Segment>, more: seq<Segment>, alive: bool)
    requires Handed(c, c', queue, more)
    ensures Handed(c, c'.(alive := alive), queue, more)
  {
    hide S.Inv, StampedAll, Sendable, Outstanding, S.Tiles;
  }

  lemma RefillHands(c: Connection, stream: Stream) returns (queue: seq<Segment>, more: seq<Segment>)
    requires Ready(c.snd) && c.out == [] && c.snd.out == []
    requires S.Grows(S.SpaceOf(c.snd), S.SpaceOf(c.snd.(stream := stream)))
    requires stream.read == c.snd.stream.read && |stream.log| + 2 < TWO64
    ensures Handed(c, Refilled(c, stream), queue, more)
  {
    hide FillWindow, Ready, Grew, StampedAll, S.Grows, Handed;
    var s1 := c.snd.(stream := stream);
    ReadyPlain(c.snd);
    StreamReady(c.snd, stream);
    GrewStream(c.snd, stream);
    ReadyPlain(s1);
    more := GrewFill(s1);
    FillReady(s1);
    ReadyPlain(FillWindow(s1));
    GrewThen(c.snd, s1, FillWindow(s1), [], more);
    assert [] + more == more;
    queue := FillWindow(s1).out;
    HandedFlush(c, c.(snd := FillWindow(s1)), more);
  }

  lemma ReadyPlain(s: Sender)
    requires Ready(s)
    ensures S.Inv(s) && Plain(s.out) && Plain(s.outstanding)
  {
  }

  lemma CallHands(c: Connection, op: C.Op) returns (queue: seq<Segment>, more: seq<Segment>)
    requires Ready(c.snd) && c.out == [] && c.snd.out == [] && C.Legal(c, op) && !op.DoArrive?
    requires !C.Step(c, op).snd.stream.error
    ensures Handed(c, C.Step(c, op), queue, more)
  {
    hide Ready, Refilled, TimePasses, Reading, Connect, Handed;
    ReadyFits(c.snd);
    ReadyPlain(c.snd);
    queue, more := [], [];
    match op
    case DoConnect =>
      C.ConnectIsRefill(c);
      queue, more := RefillHands(c, c.snd.stream);
      HandedAlive(c, Refilled(c, c.snd.stream), queue, more, true);
    case DoWrite(data) => queue, more := RefillHands(c, WriteTo(c.snd.stream, data));
    case DoEndInput => queue, more := RefillHands(c, EndedInput(c.snd.stream));
    case DoRead(len) => HandedNothing(c, C.Step(c, op));
    case DoTick(ms) => queue := TimeHands(c, ms);
    case DoDestroy => HandedNothing(c, C.Step(c, op));
  }

  lemma TimeHands(c: Connection, ms: nat) returns (queue: seq<Segment>)
    requires Ready(c.snd) && c.out == [] && c.snd.out == [] && !TimePasses(c, ms).snd.stream.error
    ensures Handed(c, TimePasses(c, ms), queue, [])
  {
    hide Ready, Tick, StampedAll, Handed, Active;
    queue := [];
    ReadyPlain(c.snd);
    if c.alive {
      var c1 := c.(idle := c.idle + ms, snd := Tick(c.snd, ms));
      queue := c1.snd.out;
      TickHands(c, c1, ms);
      HandedAlive(c, Flushed(c1), queue, [], Active(Flushed(c1)));
    } else {
      HandedNothing(c, c);
    }
  }

  /** The timer resends the front of what is outstanding. */
  lemma TickHands(c: Connection, c1: Connection, ms: nat)
    requires Ready(c.snd) && c.snd.out == [] && c1.out == [] && c1.snd == Tick(c.snd, ms)
    ensures Handed(c, Flushed(c1), c1.snd.out, [])
  {
    hide StampedAll, S.Tiles, Tick, E.PacketOk, Placed, S.Inv, Emittable, Plain;
    var s, s' := c.snd, c1.snd;
    ReadyPlain(s);
    TickReady(s, ms);
    ReadyPlain(s');
    S.TickKeeps(s, ms);
    EmptyQueue(s');
    S.TilesNil(S.SpaceOf(s'), s.next);
    assert [] + StampedAll(c1.rcv, s'.out) == StampedAll(c1.rcv, s'.out);
    if s'.out != [] {
      B.BaseNat(s);
      FrontPlaced(s, Flushed(c1).snd);
      assert Sendable(s, Flushed(c1).snd, [], S.Base(s), s.outstanding[0]);
    }
  }

  lemma FrontPlaced(s: Sender, s': Sender)
    requires S.Inv(s) && S.Inv(s') && s.outstanding != []
    requires S.SpaceOf(s') == S.SpaceOf(s) && s'.next == s.next && s'.lastAck == s.lastAck
    requires S.Names(S.SpaceOf(s), S.Base(s), s.outstanding[0])
    ensures Placed(s', S.Base(s), s.outstanding[0])
    ensures E.Packet(S.Base(s), s.outstanding[0]) in Outstanding(s)
  {
    hide S.Placed, S.Tiles, E.PacketOk;
    E.FrontFits(s);
    E.NamesSent(s', S.Base(s), s.outstanding[0]);
    ShortPayload(S.SpaceOf(s), S.Base(s), s.outstanding[0]);
  }

  lemma AndEmpty(s: Sender, s': Sender, more: seq<Segment>)
    requires Grew(s, s', more) && Ready(s')
    ensures Grew(s, SendEmpty(s'), more) && Ready(SendEmpty(s')) && SendEmpty(s').lastAck == s'.lastAck
  {
    hide Ready, Grew, EmptySegment;
    ReadyPlain(s');
    GrewEmpty(s');
    EmptyReady(s');
    GrewThen(s, s', SendEmpty(s'), more, []);
    assert more + [] == more;
  }

  lemma ReplyGrew(c: Connection, seg: Segment) returns (more: seq<Segment>)
    requires Ready(c.snd)
    ensures Grew(c.snd, Replied(c, seg).snd, more) && Replied(c, seg).snd.lastAck == c.snd.lastAck
    ensures Plain(Replied(c, seg).snd.out)
  {
    hide FillWindow, Ready, Grew, SendEmpty, IsKeepAlive, Plain;
    var s := c.snd;
    ReadyPlain(s);
    SameGrows(s);
    more := [];
    if Length(seg) > 0 {
      more := GrewFill(s);
      FillReady(s);
    } else {
      GrewNothing(s, s);
    }
    var s1 := if Length(seg) > 0 then FillWindow(s) else s;
    AndEmpty(s, s1, more);
    var s2 := if Length(seg) > 0 && s1.out == [] then SendEmpty(s1) else s1;
    AndEmpty(s, s2, more);
    ReadyPlain(Replied(c, seg).snd);
  }

  lemma ArriveHands(c: Connection, seg: Segment) returns (queue: seq<Segment>, more: seq<Segment>)
    requires Ready(c.snd) && c.out == [] && c.snd.out == [] && !SegmentArrives(c, seg).snd.stream.error
    ensures Handed(c, SegmentArrives(c, seg), queue, more)
  {
    hide FillWindow, AckReceived, SegmentReceived, Ready, Grew, StampedAll, SummaryOfReceiver, SummaryOfSender,
         Replied, Handed, Plain;
    queue, more := [], [];
    ReadyPlain(c.snd);
    if !c.alive || seg.header.rst {
      HandedNothing(c, SegmentArrives(c, seg));
    } else {
      var a := Absorbed(c, seg);
      SameGrows(c.snd);
      GrewNothing(c.snd, c.snd);
      var first := [];
      if seg.header.ack {
        first := GrewAck(c.snd, seg.header.ackno, seg.header.win);
        AckReady(c.snd, seg.header.ackno, seg.header.win);
      }
      ReadyPlain(a.snd);
      if SummaryOfReceiver(a.rcv) == SynRecv && a.snd.next == 0 {
        var second := GrewFill(a.snd);
        FillReady(a.snd);
        ReadyPlain(FillWindow(a.snd));
        GrewThen(c.snd, a.snd, FillWindow(a.snd), first, second);
        HandedFlush(c, a.(snd := FillWindow(a.snd), alive := true), first + second);
        queue, more := FillWindow(a.snd).out, first + second;
      } else {
        var passive := SummaryOfReceiver(a.rcv) == FinRecv && SummaryOfSender(a.snd) == SynAcked;
        var l := a.(linger := a.linger && !passive);
        var second := ReplyGrew(l, seg);
        ReplyFrame(l, seg);
        GrewThen(c.snd, a.snd, Replied(l, seg).snd, first, second);
        HandedFlush(c, Replied(l, seg), first + second);
        queue, more := Replied(l, seg).snd.out, first + second;
      }
    }
  }

  // ---- the invariant ----

  /** Packets apart from what the receiver halves had to say. */
  function Bares(packets: set<Packet>): set<E.Packet> {
    set p | p in packets :: E.Packet(p.start, Bare(p.seg))
  }

  /** One direction, as long as the sending side has not failed. */
  ghost predicate Aligned(c: Connection, v: Receiver, sent: set<Packet>) {
    !c.snd.stream.error ==>
      && c.snd.out == [] && c.snd.retx <= MAX_RETX_ATTEMPTS
      && B.Apart(Bares(sent)) && Outstanding(c.snd) <= Bares(sent)
      && B.Clean(B.Marks(Bares(sent)), v.re)
  }

  ghost predicate AInv(p: Pair) {
    PInv(p) && Aligned(p.left, p.right.rcv, p.fromLeft) && Aligned(p.right, p.left.rcv, p.fromRight)
  }

  // ---- a step of the sending side ----

  /** The number of a plain segment is the one it is tiled at. */
  lemma StartOf(s: Sender, packet: E.Packet)
    requires S.Inv(s) && Placed(s, packet.start, packet.seg)
    ensures AbsStart(packet.seg, s.isn, s.next) == packet.start
  {
    hide Wrap, Unwrap, E.SentSpace, S.Span, S.Tiles;
    S.NumbersFit(s);
    S.QuietIff(s);
    UnwrapInvertsWrap(packet.start, s.isn, s.next);
    NamesNumber(s, packet.start, packet.seg);
  }

  /** What is handed over, apart from bare acknowledgments, is the new segments and what was outstanding. */
  lemma HandedPackets(c: Connection, c': Connection, queue: seq<Segment>, more: seq<Segment>)
    requires Handed(c, c', queue, more)
    ensures E.Packets(c.snd.next, more) <= Bares(Packets(c'))
    ensures forall p :: p in Bares(Packets(c')) && Length(p.seg) > 0 ==>
              p in Outstanding(c.snd) + E.Packets(c.snd.next, more)
  {
    hide S.Inv, Placed, S.Tiles, StampedAll, AbsStart, Outstanding, Stamped;
    forall p | p in E.Packets(c.snd.next, more) ensures p in Bares(Packets(c')) {
      var seg := StampedIn(c'.rcv, queue, p.seg);
      StartOf(c'.snd, p);
      SameStart(c'.snd, seg, p.seg);
      assert Packet(AbsStart(seg, c'.snd.isn, c'.snd.next), AbsAck(c'.rcv), seg) in Packets(c');
    }
    forall p | p in Bares(Packets(c')) && Length(p.seg) > 0
      ensures p in Outstanding(c.snd) + E.Packets(c.snd.next, more)
    {
      var q :| q in Packets(c') && p == E.Packet(q.start, Bare(q.seg));
      var seg := Unstamped(c'.rcv, queue, q.seg);
      var start: nat :| Sendable(c.snd, c'.snd, more, start, seg);
      StartOf(c'.snd, E.Packet(start, seg));
      SameStart(c'.snd, q.seg, seg);
    }
  }

  lemma SameStart(s: Sender, a: Segment, b: Segment)
    requires a.header.seqno == b.header.seqno
    ensures AbsStart(a, s.isn, s.next) == AbsStart(b, s.isn, s.next)
  {
  }

  lemma StampedIn(v: Receiver, queue: seq<Segment>, seg: Segment) returns (stamped: Segment)
    requires seg in queue && Plain(queue)
    ensures stamped in StampedAll(v, queue) && Bare(stamped) == seg && stamped.header.seqno == seg.header.seqno
  {
    hide HeaderWindow, Ackno;
    var i :| 0 <= i < |queue| && queue[i] == seg;
    stamped := StampedAll(v, queue)[i];
  }

  lemma Unstamped(v: Receiver, queue: seq<Segment>, stamped: Segment) returns (seg: Segment)
    requires stamped in StampedAll(v, queue) && Plain(queue)
    ensures seg in queue && Bare(stamped) == seg && stamped.header.seqno == seg.header.seqno
    ensures !stamped.header.rst && Length(stamped) == Length(seg)
  {
    hide HeaderWindow, Ackno;
    var i :| 0 <= i < |queue| && StampedAll(v, queue)[i] == stamped;
    seg := queue[i];
  }

  // ---- the sending side of a step ----

  lemma OccupyingApart(packets: set<E.Packet>, others: set<E.Packet>)
    requires B.Apart(packets) && forall p :: p in others && Length(p.seg) > 0 ==> p in packets
    ensures B.Apart(others) && B.Marks(others) <= B.Marks(packets)
  {
  }

  lemma FewerMarks(marks: set<int>, fewer: set<int>, r: Reassembler)
    requires B.Clean(marks, r) && fewer <= marks
    ensures B.Clean(fewer, r)
  {
  }

  lemma BaresConcat(a: set<Packet>, b: set<Packet>)
    ensures Bares(a + b) == Bares(a) + Bares(b)
  {
  }

  /** What was sent so far ends where the next segment starts, and what is stored does too. */
  lemma SentBefore(s: Sender, v: Receiver, sent: set<Packet>, back: set<Packet>)
    requires Flows(s, v, sent, back) && S.Inv(s)
    ensures forall p :: p in Bares(sent) ==> p.start + Length(p.seg) <= s.next
    ensures V.RInv(v) && forall c :: c in v.re.chunks ==> c.End() <= s.next - 1
    ensures B.AllNamed(E.SentSpace(s), Bares(sent))
  {
    hide V.Fed, S.Shape, S.Placed, E.SentSpace;
    OnlyPlaced(s);
    V.FedIsRInv(E.SentSpace(s), v);
    B.StoredBefore(s, v);
    forall p | p in Bares(sent)
      ensures p.start + Length(p.seg) <= s.next && S.Names(E.SentSpace(s), p.start, p.seg)
    {
      var q :| q in sent && p == E.Packet(q.start, Bare(q.seg));
      BareNamed(s, q.start, q.seg);
    }
  }

  lemma BareNamed(s: Sender, start: nat, seg: Segment)
    requires E.PacketOk(s, E.Packet(start, seg))
    ensures S.Names(E.SentSpace(s), start, Bare(seg)) && start + Length(Bare(seg)) <= s.next
  {
    hide Wrap, E.SentSpace;
  }

  lemma SentAligned(c: Connection, c': Connection, v: Receiver, sent: set<Packet>, back: set<Packet>,
                    queue: seq<Segment>, more: seq<Segment>)
    requires Aligned(c, v, sent) && !c.snd.stream.error && Flows(c.snd, v, sent, back) && S.Inv(c.snd)
    requires Handed(c, c', queue, more) && c'.snd.retx <= MAX_RETX_ATTEMPTS
    ensures Aligned(c', v, sent + Packets(c'))
  {
    hide S.Inv, Flows, Outstanding, S.Tiles, StampedAll, Sendable, Placed, Plain, Packets, Bares, B.Apart, B.Marks,
         B.Clean, E.Packets;
    var space, next, old' := S.SpaceOf(c'.snd), c.snd.next, Bares(sent);
    var tiles := E.Packets(next, more);
    SentBefore(c.snd, v, sent, back);
    HandedPackets(c, c', queue, more);
    B.PacketsWithin(space, next, more, c'.snd.next);
    B.PacketsApart(space, next, more, c'.snd.next);
    B.MoreApart(old', tiles, next);
    MarksAfter(tiles, next);
    B.UnfoldRInv(v);
    B.MoreMarks(B.Marks(old'), B.Marks(tiles), v.re);
    MarksConcat(old', tiles);
    BaresConcat(sent, Packets(c'));
    OccupyingApart(old' + tiles, old' + Bares(Packets(c')));
    FewerMarks(B.Marks(old') + B.Marks(tiles), B.Marks(old' + Bares(Packets(c'))), v.re);
  }

  lemma MarksAfter(tiles: set<E.Packet>, next: nat)
    requires forall p :: p in tiles ==> next <= p.start
    ensures forall m :: m in B.Marks(tiles) ==> next - 1 <= m
  {
  }

  lemma MarksConcat(a: set<E.Packet>, b: set<E.Packet>)
    ensures B.Marks(a + b) == B.Marks(a) + B.Marks(b)
  {
  }

  // ---- the receiving side of a step ----

  /** Only the sequence number and the content of a segment matter to the receiver. */
  lemma BareReceived(v: Receiver, seg: Segment)
    ensures SegmentReceived(v, Bare(seg)) == SegmentReceived(v, seg)
  {
    hide Push, Unwrap;
  }

  lemma GetAligned(c: Connection, v: Receiver, sent: set<Packet>, back: set<Packet>, packet: Packet)
    requires Aligned(c, v, sent) && Flows(c.snd, v, sent, back) && S.Inv(c.snd)
    requires packet in sent && Distance(packet.start, Written(v) + 1) < TWO31
    ensures Aligned(c, SegmentReceived(v, packet.seg), sent)
  {
    hide S.Inv, Outstanding, SegmentReceived, B.Apart, B.Marks, B.Clean, V.Fed;
    var p := E.Packet(packet.start, Bare(packet.seg));
    assert p in Bares(sent);
    BareReceived(v, packet.seg);
    if !c.snd.stream.error {
      SentBefore(c.snd, v, sent, back);
      FitsNumbers(c.snd);
      B.ReceivedClean(E.SentSpace(c.snd), v, Bares(sent), p);
    }
  }

  lemma FitsNumbers(s: Sender)
    requires S.Inv(s)
    ensures |E.SentSpace(s).log| + 2 < TWO64 && s.next < TWO64
  {
  }

  /** Reading, and failing, leave everything stored in place. */
  lemma SameChunks(c: Connection, v: Receiver, v': Receiver, sent: set<Packet>)
    requires Aligned(c, v, sent) && v'.re.chunks == v.re.chunks && v'.re.next == v.re.next
    ensures Aligned(c, v', sent)
  {
    hide Outstanding, B.Apart, B.Marks;
  }

  // ---- runs ----

  lemma LeftAligned(p: Pair, a: Action)
    requires AInv(p) && EnabledLeft(p, a)
    ensures Aligned(ApplyLeft(p, a).left, p.right.rcv, ApplyLeft(p, a).fromLeft)
  {
    hide C.CInv, Aligned, Handed, Flows, C.Step, SegmentArrives, Ready, Packets;
    var op := if a.Call? then a.op else C.DoArrive(a.packet.seg);
    var c, c' := p.left, C.Step(p.left, op);
    StepIsArrival(c, op);
    C.CInvParts(c);
    NotFailed(c, op);
    if !c'.snd.stream.error {
      AlignedParts(c, p.right.rcv, p.fromLeft);
      C.FewRetries(c, op);
      var queue, more := [], [];
      if a.Call? {
        queue, more := CallHands(c, op);
      } else {
        queue, more := ArriveHands(c, a.packet.seg);
      }
      SentAligned(c, c', p.right.rcv, p.fromLeft, p.fromRight, queue, more);
    }
    TakenOut(c', p.right.rcv, p.fromLeft + Packets(c'));
  }

  lemma StepIsArrival(c: Connection, op: C.Op)
    ensures op.DoArrive? ==> C.Step(c, op) == SegmentArrives(c, op.seg) && C.Legal(c, op)
  {
  }

  lemma NotFailed(c: Connection, op: C.Op)
    requires C.CInv(c) && C.Legal(c, op)
    ensures c.snd.stream.error ==> C.Step(c, op).snd.stream.error
  {
    hide C.CInv, C.Step;
    C.StepKeeps(c, op);
  }

  lemma AlignedParts(c: Connection, v: Receiver, sent: set<Packet>)
    requires Aligned(c, v, sent) && !c.snd.stream.error
    ensures c.snd.out == [] && c.snd.retx <= MAX_RETX_ATTEMPTS
  {
  }

  lemma TakenOut(c: Connection, v: Receiver, sent: set<Packet>)
    requires c.snd.stream.error || Aligned(c, v, sent)
    ensures Aligned(c.(out := []), v, sent)
  {
  }

  lemma RightAligned(p: Pair, a: Action)
    requires AInv(p) && EnabledLeft(p, a)
    ensures Aligned(p.right, ApplyLeft(p, a).left.rcv, p.fromRight)
  {
    hide C.CInv, Aligned, Flows, Ready, Packets, FillWindow, Tick, Active, StampedAll;
    match a
    case Call(op) => SameChunks(p.right, p.left.rcv, C.Step(p.left, op).rcv, p.fromRight);
    case Get(packet) =>
      hide SegmentArrives, SegmentReceived, C.SenderForward, C.ReceiverForward;
      ReadyPlain(p.right.snd);
      GetAligned(p.right, p.left.rcv, p.fromRight, p.fromLeft, packet);
      if p.left.alive && !packet.seg.header.rst {
        C.ArriveShape(p.left, packet.seg);
      } else {
        UntouchedChunks(p.left, packet.seg);
        SameChunks(p.right, p.left.rcv, SegmentArrives(p.left, packet.seg).rcv, p.fromRight);
      }
  }

  lemma UntouchedChunks(c: Connection, seg: Segment)
    requires !c.alive || seg.header.rst
    ensures var v' := SegmentArrives(c, seg).rcv; v'.re.chunks == c.rcv.re.chunks && v'.re.next == c.rcv.re.next
  {
  }

  lemma MoveAligned(p: Pair, m: Move)
    requires AInv(p) && Enabled(p, m)
    ensures AInv(Apply(p, m))
  {
    hide PInv, Aligned, ApplyLeft, EnabledLeft;
    MoveKeeps(p, m);
    var q := if m.onLeft then p else Flip(p);
    FlipKeeps(p);
    LeftAligned(q, m.action);
    RightAligned(q, m.action);
    OtherSideStays(q, m.action);
  }

  lemma OtherSideStays(p: Pair, a: Action)
    ensures ApplyLeft(p, a).right == p.right && ApplyLeft(p, a).fromRight == p.fromRight
  {
    hide C.Step, SegmentArrives, Packets;
  }

  lemma {:induction false} RunAligned(p: Pair, moves: seq<Move>)
    requires AInv(p) && Possible(p, moves)
    ensures AInv(Run(p, moves))
    decreases |moves|
  {
    hide AInv, Apply, Enabled;
    if moves == [] {
    } else {
      MoveAligned(p, moves[0]);
      RunAligned(Apply(p, moves[0]), moves[1..]);
    }
  }

  lemma StartAligned(a: Setup, b: Setup)
    ensures AInv(Pair(New(a), New(b), {}, {}))
  {
    StartOk(a, b);
  }
}
