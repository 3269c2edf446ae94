/** Two live connections whose writers have ended can always be run to a clean close on both sides. */
module PairCompletion {
  import opened Words
  import opened WrappingIntegers
  import opened ByteStreams
  import opened Segments
  import opened Sending
  import opened Receiving
  import opened Connections
  import S = SenderLaws
  import V = ReceiverLaws
  import E = EndToEnd
  import B = Boundaries
  import Progress
  import Completion
  import C = ConnectionLaws
  import Replies
  import opened Pairs
  import opened PairBoundaries

  // ---- a pair that is going on ----

  /** An end that is alive, has not failed, whose writer has ended, and that can receive. */
  predicate LiveEnd(c: Connection) {
    && c.alive && !c.snd.stream.error && c.snd.stream.ended && c.rcv.capacity > 0
    && |c.snd.stream.log| + 2 < TWO31
  }

  /** The absolute number that acknowledges everything. */
  function AllAcked(s: Sender): nat {
    |s.stream.log| + 2
  }

  /** Unless everything is acknowledged, something is outstanding. */
  predicate Busy(s: Sender) {
    s.lastAck < AllAcked(s) ==> s.outstanding != []
  }

  ghost predicate Going(p: Pair) {
    AInv(p) && LiveEnd(p.left) && LiveEnd(p.right) && Busy(p.left.snd) && Busy(p.right.snd)
  }

  ghost predicate Forward(s: Sender, s': Sender) {
    s'.stream.log == s.stream.log && s.lastAck <= s'.lastAck <= AllAcked(s')
  }

  ghost predicate Continues(p: Pair, moves: seq<Move>) {
    var q := Run(p, moves);
    Possible(p, moves) && Going(q) && Forward(p.left.snd, q.left.snd) && Forward(p.right.snd, q.right.snd)
  }

  lemma {:induction false} Then(p: Pair, a: seq<Move>, b: seq<Move>)
    ensures Run(p, a + b) == Run(Run(p, a), b)
    ensures Possible(p, a + b) <==> Possible(p, a) && Possible(Run(p, a), b)
    decreases |a|
  {
    hide Apply, Enabled;
    if a == [] {
      assert a + b == b;
    } else {
      assert (a + b)[1..] == a[1..] + b;
      Then(Apply(p, a[0]), a[1..], b);
    }
  }

  lemma ContinuesThen(p: Pair, a: seq<Move>, b: seq<Move>)
    requires Continues(p, a) && Continues(Run(p, a), b)
    ensures Continues(p, a + b) && Run(p, a + b) == Run(Run(p, a), b)
  {
    hide Run, Possible, Going;
    Then(p, a, b);
  }

  lemma OneMove(p: Pair, m: Move)
    ensures Run(p, [m]) == Apply(p, m) && (Possible(p, [m]) <==> Enabled(p, m))
  {
    hide Apply, Enabled;
    assert [m][1..] == [];
    assert Run(p, [m]) == Run(Apply(p, m), []);
    assert Possible(Apply(p, m), []);
  }

  // ---- the same moves on the other side ----

  function Mirror(moves: seq<Move>): seq<Move> {
    if moves == [] then [] else [moves[0].(onLeft := !moves[0].onLeft)] + Mirror(moves[1..])
  }

  lemma FlipTwice(p: Pair)
    ensures Flip(Flip(p)) == p
  {
  }

  lemma FlipMove(p: Pair, m: Move)
    ensures var m' := m.(onLeft := !m.onLeft);
            Apply(Flip(p), m') == Flip(Apply(p, m)) && (Enabled(Flip(p), m') <==> Enabled(p, m))
  {
    hide ApplyLeft, EnabledLeft;
    FlipTwice(p);
    FlipTwice(ApplyLeft(p, m.action));
  }

  lemma {:induction false} FlipRun(p: Pair, moves: seq<Move>)
    ensures Run(Flip(p), Mirror(moves)) == Flip(Run(p, moves))
    ensures Possible(Flip(p), Mirror(moves)) <==> Possible(p, moves)
    decreases |moves|
  {
    hide Apply, Enabled;
    if moves == [] {
    } else {
      FlipMove(p, moves[0]);
      FlipRun(Apply(p, moves[0]), moves[1..]);
      assert Mirror(moves)[1..] == Mirror(moves[1..]);
    }
  }

  lemma FlipGoing(p: Pair)
    requires Going(p)
    ensures Going(Flip(p))
  {
    hide PInv, Aligned;
    FlipKeeps(p);
  }

  lemma FlipContinues(p: Pair, moves: seq<Move>)
    requires Continues(Flip(p), moves)
    ensures Continues(p, Mirror(moves)) && Run(p, Mirror(moves)) == Flip(Run(Flip(p), moves))
  {
    hide Run, Possible, Going;
    FlipTwice(p);
    FlipRun(Flip(p), moves);
    FlipGoing(Run(Flip(p), moves));
  }

  // ---- staying busy ----

  lemma FillStaysBusy(s: Sender)
    requires S.Inv(s) && Busy(s)
    ensures Busy(FillWindow(s))
  {
    hide FillWindow, S.Tiles, S.Span, S.Shape;
    OnlyPlaced(s);
    var _ := S.FillKeeps(s);
  }

  lemma AckStaysBusy(s: Sender, ackno: u32, window: u16)
    requires S.Inv(s) && Busy(s) && s.stream.ended && !s.stream.error
    ensures Busy(AckReceived(s, ackno, window))
  {
    hide FillWindow, AckReceived, Unwrap, S.Inv, PopAcked, S.Tiles, S.Names;
    var s' := AckReceived(s, ackno, window);
    B.BaseNat(s);
    var _ := S.AckKeeps(s, ackno, window);
    if Unwrap(ackno, s.isn, s.next) <= s.next && s'.lastAck < AllAcked(s') {
      Completion.AckIsGreedy(s, ackno, window);
      Completion.SomethingOutstanding(s');
    }
  }

  lemma ReplyStaysBusy(c: Connection, seg: Segment)
    requires S.Inv(c.snd) && Busy(c.snd)
    ensures Busy(Replied(c, seg).snd)
  {
    hide FillWindow, S.Inv, EmptySegment, IsKeepAlive;
    FillStaysBusy(c.snd);
  }

  lemma ArrivalStaysBusy(c: Connection, seg: Segment)
    requires Own(c) && LiveEnd(c) && Busy(c.snd) && !seg.header.rst
    ensures Busy(SegmentArrives(c, seg).snd)
  {
    hide FillWindow, AckReceived, SegmentReceived, Ready, StampedAll, SummaryOfReceiver, SummaryOfSender,
         Replied, V.RInv, S.Inv;
    OwnParts(c);
    var a := Absorbed(c, seg);
    if seg.header.ack {
      AckStaysBusy(c.snd, seg.header.ackno, seg.header.win);
      var _ := S.AckKeeps(c.snd, seg.header.ackno, seg.header.win);
    }
    FillStaysBusy(a.snd);
    var passive := SummaryOfReceiver(a.rcv) == FinRecv && SummaryOfSender(a.snd) == SynAcked;
    ReplyStaysBusy(a.(linger := a.linger && !passive), seg);
  }

  lemma OwnParts(c: Connection)
    requires Own(c)
    ensures Ready(c.snd) && S.Inv(c.snd) && V.RInv(c.rcv) && C.CInv(c) && c.out == []
    ensures c.alive ==> c.snd.out == []
    ensures 0 <= c.snd.lastAck <= c.snd.next <= AllAcked(c.snd)
  {
    hide S.Shape, V.RInv, Emittable;
    OnlyPlaced(c.snd);
  }

  // ---- arrivals at a live end ----

  /** What an arrival that is no reset leaves of a live end. */
  lemma ArrivalStaysLive(c: Connection, seg: Segment)
    requires Own(c) && LiveEnd(c) && !seg.header.rst
    ensures var c' := SegmentArrives(c, seg);
      && LiveEnd(c') && c'.rcv == SegmentReceived(c.rcv, seg) && S.Inv(c'.snd)
      && c'.snd.stream.log == c.snd.stream.log && c.snd.lastAck <= c'.snd.lastAck
  {
    hide Ready, SegmentArrives, SegmentReceived, S.Inv;
    C.ArriveShape(c, seg);
    V.ReceivePushes(c.rcv, seg);
    C.ForwardInv(c.snd, SegmentArrives(c, seg).snd);
  }

  /** Any segment of the other side that is no reset may arrive, and the pair goes on. */
  lemma ArrivalGoesOn(p: Pair, packet: Packet)
    requires Going(p) && packet in p.fromRight && !packet.seg.header.rst
    ensures Continues(p, [Move(true, Get(packet))])
    ensures Run(p, [Move(true, Get(packet))]) == ApplyLeft(p, Get(packet))
  {
    hide PInv, Aligned, Own, SegmentArrives, EnabledLeft, Busy, LiveEnd;
    var m := Move(true, Get(packet));
    PairParts(p);
    FitsHalf(p);
    AlwaysNear(p);
    OneMove(p, m);
    MoveAligned(p, m);
    ArrivalStaysLive(p.left, packet.seg);
    ArrivalStaysBusy(p.left, packet.seg);
    EmptiedSame(SegmentArrives(p.left, packet.seg));
    PairParts(ApplyLeft(p, Get(packet)));
  }

  lemma FitsHalf(p: Pair)
    requires Going(p)
    ensures PInv(p) && |p.left.snd.stream.log| + 2 < TWO31 && |p.right.snd.stream.log| + 2 < TWO31
  {
    hide PInv, Aligned;
  }

  lemma EmptiedSame(c: Connection)
    ensures LiveEnd(c.(out := [])) == LiveEnd(c) && Busy(c.(out := []).snd) == Busy(c.snd)
  {
  }

  lemma PairParts(p: Pair)
    requires AInv(p)
    ensures PInv(p) && Own(p.left) && Own(p.right)
    ensures p.left.snd.lastAck <= AllAcked(p.left.snd) && p.right.snd.lastAck <= AllAcked(p.right.snd)
  {
    hide Own, Flows, Aligned;
    OwnParts(p.left);
    OwnParts(p.right);
  }

  // ---- one exchange ----

  /** The front of what the right end has outstanding is in the network, and the left end, with its window
      open, gets further than the right end has heard by it, and says so. */
  lemma FrontTaken(p: Pair) returns (packet: Packet, answer: Packet)
    requires Going(p) && p.right.snd.lastAck < AllAcked(p.right.snd) && WindowSize(p.left.rcv) > 0
    ensures packet in p.fromRight && !packet.seg.header.rst
    ensures answer in ApplyLeft(p, Get(packet)).fromLeft
    ensures answer.seg.header.ack && !answer.seg.header.rst && answer.abs > p.right.snd.lastAck
  {
    hide PInv, Aligned, Own, SegmentArrives, SegmentReceived, Outstanding, Ready, S.Inv, Flows, Packets;
    PairParts(p);
    OwnParts(p.left);
    OwnParts(p.right);
    packet := FrontInNetwork(p.right, p.left.rcv, p.fromRight);
    var seg := packet.seg;
    InvParts(p);
    FrontAdvances(p, packet);
    answer := Answered(p.left, seg);
  }

  lemma FrontInNetwork(c: Connection, v: Receiver, sent: set<Packet>) returns (packet: Packet)
    requires Aligned(c, v, sent) && !c.snd.stream.error && Ready(c.snd) && c.snd.outstanding != []
    ensures packet in sent && packet.start == S.Base(c.snd) && Bare(packet.seg) == c.snd.outstanding[0]
    ensures !packet.seg.header.rst && Length(packet.seg) == Length(c.snd.outstanding[0]) > 0
  {
    hide B.Apart, B.Marks, B.Clean, S.Tiles, S.Names, Emittable;
    B.BaseNat(c.snd);
    OnlyFront(c.snd);
    var front := E.Packet(S.Base(c.snd), c.snd.outstanding[0]);
    assert front in E.Packets(S.Base(c.snd), c.snd.outstanding);
    assert front in Bares(sent);
    packet :| packet in sent && front == E.Packet(packet.start, Bare(packet.seg));
    assert c.snd.outstanding[0] in c.snd.outstanding;
  }

  lemma OnlyFront(s: Sender)
    requires S.Inv(s) && s.outstanding != []
    ensures Length(s.outstanding[0]) > 0 && S.Base(s) <= s.lastAck < S.Base(s) + Length(s.outstanding[0])
    ensures S.Names(S.SpaceOf(s), S.Base(s), s.outstanding[0])
  {
  }

  /** Whether or not the front tells the receiver anything new. */
  lemma FrontAdvances(p: Pair, packet: Packet)
    requires Going(p) && WindowSize(p.left.rcv) > 0 && packet in p.fromRight && p.right.snd.outstanding != []
    requires packet.start == S.Base(p.right.snd) && Bare(packet.seg) == p.right.snd.outstanding[0]
    ensures AbsAck(SegmentReceived(p.left.rcv, packet.seg)) > p.right.snd.lastAck
    ensures p.left.rcv.syn || packet.seg.header.syn
  {
    hide PInv, Aligned, Own, SegmentReceived, Outstanding, Ready, S.Inv, S.Names, V.RInv, V.Fed;
    var s, v, seg := p.right.snd, p.left.rcv, packet.seg;
    PairParts(p);
    OwnParts(p.left);
    OwnParts(p.right);
    InvParts(p);
    OnlyFront(s);
    V.WindowNeverShrinks(v, seg);
    if !v.syn {
      Progress.FirstIsSyn(S.SpaceOf(s), Bare(seg));
      V.ReceivePushes(v, seg);
    } else if s.lastAck == AbsAck(v) {
      FrontIsNew(p, packet);
    }
  }

  lemma FrontIsNew(p: Pair, packet: Packet)
    requires Going(p) && WindowSize(p.left.rcv) > 0 && packet in p.fromRight && p.right.snd.outstanding != []
    requires packet.start == S.Base(p.right.snd) && Bare(packet.seg) == p.right.snd.outstanding[0]
    requires p.left.rcv.syn && p.right.snd.lastAck == AbsAck(p.left.rcv)
    ensures AbsAck(SegmentReceived(p.left.rcv, packet.seg)) > p.right.snd.lastAck
  {
    hide PInv, Own, SegmentReceived, Outstanding, Ready, S.Inv, S.Names, V.RInv, V.Fed, B.Clean, B.Marks, B.Apart,
         E.SentSpace;
    var s, v := p.right.snd, p.left.rcv;
    var front := E.Packet(packet.start, Bare(packet.seg));
    PairParts(p);
    OwnParts(p.left);
    OwnParts(p.right);
    InvParts(p);
    OnlyFront(s);
    FitsHalf(p);
    AlwaysNear(p);
    SpaceIsn(s);
    V.FedWritten(E.SentSpace(s), v);
    B.NotEndedYet(s, v);
    assert front in Bares(p.fromRight);
    B.NothingInTheWay(S.SpaceOf(s), v, Bares(p.fromRight), front);
    NotErrored(p.left);
    BareReceived(v, packet.seg);
    Progress.FrontReceived(S.SpaceOf(s), v, front.start, front.seg);
  }

  lemma NotErrored(c: Connection)
    requires C.CInv(c) && !c.snd.stream.error
    ensures !c.rcv.re.out.error
  {
    hide S.Inv, V.RInv;
  }

  /** An arriving segment with content is answered with the acknowledgment number it leads to. */
  lemma Answered(c: Connection, seg: Segment) returns (answer: Packet)
    requires Own(c) && LiveEnd(c) && !seg.header.rst && Length(seg) > 0 && (c.rcv.syn || seg.header.syn)
    ensures answer in Packets(SegmentArrives(c, seg))
    ensures answer.abs == AbsAck(SegmentReceived(c.rcv, seg))
    ensures answer.seg.header.ack && !answer.seg.header.rst
  {
    hide Ready, S.Inv, V.RInv, SegmentArrives, SegmentReceived, Handed, StampedAll, Plain, AbsStart;
    OwnParts(c);
    ArrivalStaysLive(c, seg);
    var answers := Replies.OccupyingIsAnswered(c, seg);
    var c' := SegmentArrives(c, seg);
    assert c'.out == answers && answers[0] in answers;
    var queue, more := ArriveHands(c, seg);
    HandedQueue(c, c', queue, more);
    var _ := Unstamped(c'.rcv, queue, answers[0]);
    answer := Packet(AbsStart(answers[0], c'.snd.isn, c'.snd.next), AbsAck(c'.rcv), answers[0]);
  }

  lemma HandedQueue(c: Connection, c': Connection, queue: seq<Segment>, more: seq<Segment>)
    requires Handed(c, c', queue, more)
    ensures c'.out == StampedAll(c'.rcv, queue) && Plain(queue)
  {
  }

  /** An acknowledgment that arrives is heard. */
  lemma AnswerHeard(p: Pair, answer: Packet)
    requires Going(p) && answer in p.fromRight && answer.seg.header.ack && !answer.seg.header.rst
    ensures ApplyLeft(p, Get(answer)).left.snd.lastAck >= answer.abs
  {
    hide PInv, Aligned, Own, SegmentArrives, SegmentReceived, Ready, S.Inv, V.Fed, AckReceived, Wrap, Unwrap,
         E.PacketOk, Sends, E.SentSpace;
    var s, h := p.left.snd, answer.seg.header;
    PairParts(p);
    OwnParts(p.left);
    OwnParts(p.right);
    InvParts(p);
    FitsHalf(p);
    AlwaysNear(p);
    B.BaseNat(s);
    SentFits(s);
    V.FedWritten(E.SentSpace(s), p.right.rcv);
    UnwrapInvertsWrap(answer.abs, s.isn, s.next);
    var _ := S.AckKeeps(s, h.ackno, h.win);
    ArriveSends(p.left, answer.seg);
  }

  lemma SentFits(s: Sender)
    requires S.Inv(s)
    ensures s.next > 0 ==> s.next == |E.SentSpace(s).log| + 1 + Flag(E.SentSpace(s).ended)
  {
    hide S.Tiles, S.Span;
  }

  /** Reading hands nothing over and leaves the sender alone. */
  lemma ReadingGoesOn(p: Pair, len: nat)
    requires Going(p)
    ensures Continues(p, [Move(true, Call(C.DoRead(len)))])
    ensures Run(p, [Move(true, Call(C.DoRead(len)))]) == p.(left := C.Step(p.left, C.DoRead(len)))
  {
    hide PInv, Aligned, Own, Busy;
    var m := Move(true, Call(C.DoRead(len)));
    PairParts(p);
    OwnParts(p.left);
    OneMove(p, m);
    MoveAligned(p, m);
    assert Packets(C.Step(p.left, C.DoRead(len))) == {} && p.fromLeft + {} == p.fromLeft;
  }

  /** When the right end has not heard everything: the left end's reader empties its buffer, the front of
      what the right end has outstanding arrives, and so does the answer to it. */
  lemma Exchange(p: Pair) returns (moves: seq<Move>)
    requires Going(p) && p.right.snd.lastAck < AllAcked(p.right.snd)
    ensures Continues(p, moves) && Run(p, moves).right.snd.lastAck > p.right.snd.lastAck
  {
    hide PInv, Aligned, Own, SegmentArrives, Going, Continues, Run, ApplyLeft, Reading;
    var read := Move(true, Call(C.DoRead(|Buffer(p.left.rcv.re.out)|)));
    ReadingGoesOn(p, read.action.op.len);
    var p1 := p.(left := C.Step(p.left, read.action.op));
    GoingOn(p, [read]);
    MakesRoom(p);
    var packet, answer := FrontTaken(p1);
    var get := Move(true, Get(packet));
    ArrivalGoesOn(p1, packet);
    var p2 := ApplyLeft(p1, Get(packet));
    GoingOn(p1, [get]);
    FlipGoing(p2);
    FlipIs(p2);
    ArrivalGoesOn(Flip(p2), answer);
    AnswerHeard(Flip(p2), answer);
    var hear := [Move(true, Get(answer))];
    FlipContinues(p2, hear);
    RightStays(p1, Get(packet));
    ContinuesThen(p, [read], [get]);
    ContinuesThen(p, [read] + [get], Mirror(hear));
    moves := [read] + [get] + Mirror(hear);
  }

  lemma GoingOn(p: Pair, moves: seq<Move>)
    requires Continues(p, moves)
    ensures Going(Run(p, moves))
  {
    hide Going, Run;
  }

  lemma FlipIs(p: Pair)
    ensures Flip(p).fromRight == p.fromLeft && Flip(p).left == p.right && Flip(p).right == p.left
  {
  }

  lemma RightStays(p: Pair, a: Action)
    ensures ApplyLeft(p, a).right == p.right
  {
    hide C.Step, SegmentArrives, Packets;
  }

  lemma MakesRoom(p: Pair)
    requires Going(p)
    ensures WindowSize(Reading(p.left.rcv, |Buffer(p.left.rcv.re.out)|)) > 0
  {
    hide PInv, Aligned, Own, V.RInv, Reading, WindowSize;
    PairParts(p);
    OwnParts(p.left);
    NotErrored(p.left);
    Completion.WideOpen(p.left.rcv);
  }

  // ---- until everything is acknowledged ----

  /** How much is still to be acknowledged. */
  function Remaining(p: Pair): int {
    AllAcked(p.left.snd) - p.left.snd.lastAck + AllAcked(p.right.snd) - p.right.snd.lastAck
  }

  lemma NoMoves(p: Pair)
    requires Going(p)
    ensures Continues(p, []) && Run(p, []) == p && Remaining(p) >= 0
  {
    hide AInv;
    PairParts(p);
  }

  lemma {:induction false} Finish(p: Pair) returns (moves: seq<Move>)
    requires Going(p)
    ensures Continues(p, moves) && Remaining(Run(p, moves)) == 0
    decreases Remaining(p)
  {
    hide Going, Run, Possible;
    NoMoves(p);
    if Remaining(p) == 0 {
      moves := [];
    } else {
      var first;
      if p.right.snd.lastAck < AllAcked(p.right.snd) {
        first := Exchange(p);
      } else {
        FlipGoing(p);
        var other := Exchange(Flip(p));
        FlipContinues(p, other);
        first := Mirror(other);
      }
      NoMoves(Run(p, first));
      var rest := Finish(Run(p, first));
      ContinuesThen(p, first, rest);
      moves := first + rest;
    }
  }

  // ---- the clean close ----

  /** Both streams have arrived in full on both sides. */
  lemma AllArrived(p: Pair)
    requires Going(p) && Remaining(p) == 0
    ensures p.right.rcv.re.out.ended && p.right.rcv.re.out.log == p.left.snd.stream.log
    ensures p.left.rcv.re.out.ended && p.left.rcv.re.out.log == p.right.snd.stream.log
  {
    hide PInv, Aligned, Own, Ready, Flows;
    PairParts(p);
    OwnParts(p.left);
    OwnParts(p.right);
    InvParts(p);
    AllAcknowledged(p.left.snd, p.right.rcv, p.fromLeft, p.fromRight);
    AllAcknowledged(p.right.snd, p.left.rcv, p.fromRight, p.fromLeft);
  }

  /** An end that is done closes cleanly when it has lingered. */
  lemma LingersOut(c: Connection)
    requires Own(c) && LiveEnd(c) && c.snd.retx <= MAX_RETX_ATTEMPTS
    requires c.snd.lastAck == AllAcked(c.snd) && c.rcv.re.out.ended
    ensures var c' := TimePasses(c, 10 * c.rt);
      && !c'.alive && !c'.snd.stream.error && c'.rcv.re.out == c.rcv.re.out && c'.snd.stream == c.snd.stream
  {
    hide Ready, V.RInv, S.Inv;
    OwnParts(c);
    C.FinSentIff(c.snd);
    S.QuietIff(c.snd);
    assert Tick(c.snd, 10 * c.rt) == c.snd;
  }

  lemma LeftLingersOut(p: Pair)
    requires AInv(p) && LiveEnd(p.left) && p.left.snd.lastAck == AllAcked(p.left.snd) && p.left.rcv.re.out.ended
    ensures var tick := Call(C.DoTick(10 * p.left.rt)); var q := ApplyLeft(p, tick);
      && EnabledLeft(p, tick) && AInv(q) && q.right == p.right
      && !Active(q.left) && !q.left.snd.stream.error && q.left.rcv.re.out == p.left.rcv.re.out
      && q.left.snd.stream == p.left.snd.stream
  {
    hide PInv, Own, TimePasses, Outstanding, B.Apart, B.Clean;
    var tick := Call(C.DoTick(10 * p.left.rt));
    PairParts(p);
    RightStays(p, tick);
    MoveAligned(p, Move(true, tick));
    LingersOut(p.left);
  }

  /** Ten timeouts on either side end both connections, without a reset. */
  lemma BothLingerOut(p: Pair) returns (moves: seq<Move>)
    requires Going(p) && Remaining(p) == 0
    ensures Possible(p, moves) && Closed(Run(p, moves), p)
  {
    hide PInv, Aligned, Own, ApplyLeft, EnabledLeft, Active, Run, Possible;
    PairParts(p);
    AllArrived(p);
    LeftLingersOut(p);
    var first := Move(true, Call(C.DoTick(10 * p.left.rt)));
    var p1 := Apply(p, first);
    FlipAligned(p1);
    LeftLingersOut(Flip(p1));
    var second := Move(false, Call(C.DoTick(10 * p.right.rt)));
    OneMove(p, first);
    OneMove(p1, second);
    Then(p, [first], [second]);
    moves := [first] + [second];
  }

  lemma FlipAligned(p: Pair)
    requires AInv(p)
    ensures AInv(Flip(p))
  {
    hide PInv, Aligned;
    FlipKeeps(p);
  }

  /** Both ends of `q` are inactive without a reset, and both streams of `p` have arrived in full. */
  ghost predicate Closed(q: Pair, p: Pair) {
    && !Active(q.left) && !q.left.snd.stream.error && !Active(q.right) && !q.right.snd.stream.error
    && q.right.rcv.re.out.ended && q.right.rcv.re.out.log == p.left.snd.stream.log
    && q.left.rcv.re.out.ended && q.left.rcv.re.out.log == p.right.snd.stream.log
  }

  // ---- from any run ----

  /** Writing nothing fills the window. */
  lemma Wakes(p: Pair)
    requires AInv(p) && LiveEnd(p.left)
    ensures var write := Call(C.DoWrite([])); var q := ApplyLeft(p, write);
      && EnabledLeft(p, write) && AInv(q) && q.right == p.right
      && LiveEnd(q.left) && Busy(q.left.snd) && q.left.snd.stream.log == p.left.snd.stream.log
  {
    hide PInv, Aligned, Own, FillWindow, S.Shape, S.Tiles, S.Span, S.Names, V.RInv, StampedAll, Ready;
    var write, s := Call(C.DoWrite([])), p.left.snd;
    PairParts(p);
    OwnParts(p.left);
    ReadyFits(s);
    RightStays(p, write);
    MoveAligned(p, Move(true, write));
    assert s.(stream := WriteTo(s.stream, [])) == s;
    FillsBusy(s);
  }

  lemma FillsBusy(s: Sender)
    requires S.Inv(s) && s.stream.ended && !s.stream.error
    ensures var s' := FillWindow(s);
      Busy(s') && s'.stream.log == s.stream.log && s'.stream.ended && !s'.stream.error && s'.lastAck == s.lastAck
  {
    hide FillWindow, S.Tiles, S.Span, S.Names;
    S.FillIsGreedy(s);
    var _ := S.FillKeeps(s);
    if s.lastAck < AllAcked(s) {
      Completion.SomethingOutstanding(FillWindow(s));
    }
  }

  lemma CapacityStays(c: Connection, op: C.Op)
    ensures C.Step(c, op).rcv.capacity == c.rcv.capacity
  {
    hide FillWindow, SegmentArrives, Tick, Active, StampedAll;
    if op.DoArrive? {
      ArrivalCapacity(c, op.seg);
    }
  }

  lemma ArrivalCapacity(c: Connection, seg: Segment)
    ensures SegmentArrives(c, seg).rcv.capacity == c.rcv.capacity
  {
    hide FillWindow, SegmentReceived, AckReceived, StampedAll, SummaryOfReceiver, SummaryOfSender, IsKeepAlive,
         EmptySegment;
    V.ReceivePushes(c.rcv, seg);
  }

  lemma {:induction false} RunCapacity(p: Pair, moves: seq<Move>)
    ensures var q := Run(p, moves);
            q.left.rcv.capacity == p.left.rcv.capacity && q.right.rcv.capacity == p.right.rcv.capacity
    decreases |moves|
  {
    hide C.Step, SegmentArrives, Packets;
    if moves == [] {
    } else {
      var m := moves[0];
      CapacityStays(if m.onLeft then p.left else p.right,
                    match m.action case Call(op) => op case Get(packet) => C.DoArrive(packet.seg));
      ArriveIsStep(if m.onLeft then p.left else p.right, m.action);
      RunCapacity(Apply(p, m), moves[1..]);
    }
  }

  lemma ArriveIsStep(c: Connection, a: Action)
    ensures a.Get? ==> SegmentArrives(c, a.packet.seg) == C.Step(c, C.DoArrive(a.packet.seg))
  {
    hide SegmentArrives;
  }

  /** From every state that two connections can reach over such a network, whatever was lost, repeated or
      reordered and whatever their applications did on the way: once both writers have ended, as long as
      both connections are alive and have not failed, the run can be continued to the clean close of both,
      with both streams delivered in full. */
  lemma CanAlwaysClose(a: Setup, b: Setup, moves: seq<Move>) returns (more: seq<Move>)
    requires Possible(Pair(New(a), New(b), {}, {}), moves) && a.recvCapacity > 0 && b.recvCapacity > 0
    requires var p := Run(Pair(New(a), New(b), {}, {}), moves);
      && p.left.alive && !p.left.snd.stream.error && p.left.snd.stream.ended
      && p.right.alive && !p.right.snd.stream.error && p.right.snd.stream.ended
      && |p.left.snd.stream.log| + 2 < TWO31 && |p.right.snd.stream.log| + 2 < TWO31
    ensures var p0 := Pair(New(a), New(b), {}, {});
            Possible(p0, moves + more) && Closed(Run(p0, moves + more), Run(p0, moves))
  {
    hide Run, Possible, AInv, Active, Busy, ApplyLeft, EnabledLeft, New;
    var p0 := Pair(New(a), New(b), {}, {});
    var p := Run(p0, moves);
    StartAligned(a, b);
    RunAligned(p0, moves);
    NewCapacity(a);
    NewCapacity(b);
    RunCapacity(p0, moves);
    var wakeLeft, wakeRight := Move(true, Call(C.DoWrite([]))), Move(false, Call(C.DoWrite([])));
    Wakes(p);
    var p1 := Apply(p, wakeLeft);
    FlipAligned(p1);
    Wakes(Flip(p1));
    var p2 := Apply(p1, wakeRight);
    FlipAligned(Flip(p2));
    FlipTwice(p2);
    OneMove(p, wakeLeft);
    OneMove(p1, wakeRight);
    var rest := Finish(p2);
    var last := BothLingerOut(Run(p2, rest));
    Then(p, [wakeLeft], [wakeRight]);
    Then(p, [wakeLeft] + [wakeRight], rest);
    Then(p, [wakeLeft] + [wakeRight] + rest, last);
    more := [wakeLeft] + [wakeRight] + rest + last;
    Then(p0, moves, more);
  }

  lemma NewCapacity(e: Setup)
    ensures New(e).rcv.capacity == e.recvCapacity
  {
  }
}
