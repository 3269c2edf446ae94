/** Closing is final: over whole runs, a connection that has become inactive stays so, unless the
    application connects it again. */
module Finality {
  import opened Words
  import opened WrappingIntegers
  import opened ByteStreams
  import opened Reassembly
  import opened ReassemblyTheorems
  import opened Segments
  import opened Sending
  import opened Receiving
  import opened Connections
  import S = SenderLaws
  import V = ReceiverLaws
  import opened ConnectionLaws
  import opened Closing
  import Completion

  // ---- one connection ----

  /** An inactive connection that no segment can wake: it is dead, or it has no time to linger for. */
  predicate Asleep(c: Connection) {
    !Active(c) && (c.alive ==> !c.linger || c.rt == 0)
  }

  /** An inactive connection that is not: its lingering is over by the clock, but no tick has ended it. */
  predicate Wakeable(c: Connection) {
    !Active(c) && !Asleep(c)
  }

  predicate NoConnect(ops: seq<Op>) {
    forall op :: op in ops ==> !op.DoConnect?
  }

  /** Such a connection stays so whatever happens, unless it is connected again. */
  lemma InactiveStays(c: Connection, op: Op)
    requires CInv(c) && Legal(c, op) && Asleep(c) && !op.DoConnect?
    ensures Asleep(Step(c, op))
  {
    hide CInv, SenderForward, ReceiverForward, SegmentArrives, TimePasses, Refilled, Reset;
    StepKeeps(c, op);
    CInvParts(c);
    if !c.alive {
      DeadStaysDead(c, op);
    } else {
      ClosedStays(c, Step(c, op));
      LingerSteps(c, op);
      IdleSteps(c, op);
    }
  }

  lemma {:induction false} InactiveForGood(c: Connection, ops: seq<Op>)
    requires CInv(c) && AllLegal(c, ops) && Asleep(c) && NoConnect(ops)
    ensures !Active(Run(c, ops))
    decreases |ops|
  {
    hide CInv, Step, Legal, SenderForward, ReceiverForward, Active;
    if ops == [] {
    } else {
      StepKeeps(c, ops[0]);
      InactiveStays(c, ops[0]);
      InactiveForGood(Step(c, ops[0]), ops[1..]);
    }
  }

  /** Any other inactive connection is woken by the next segment that is no reset. */
  lemma SegmentWakes(c: Connection, seg: Segment)
    requires CInv(c) && Wakeable(c) && !seg.header.rst
    ensures Active(SegmentArrives(c, seg))
  {
    hide CInv, SegmentArrives, Absorbed, SenderForward, ReceiverForward;
    CInvParts(c);
    FinSentIff(c.snd);
    ArriveShape(c, seg);
    AbsorbedForward(c, seg);
    FinStays(c.snd, Absorbed(c, seg).snd);
    if SummaryOfSender(Absorbed(c, seg).snd) == SynAcked {
      SynAckedHasNoFin(Absorbed(c, seg).snd);
    }
  }

  /** An inactive connection stays inactive under every sequence of calls without connect if and only if
      it is asleep. */
  lemma InactiveForGoodIff(c: Connection)
    requires CInv(c) && !Active(c)
    ensures (forall ops: seq<Op> :: AllLegal(c, ops) && NoConnect(ops) ==> !Active(Run(c, ops)))
            <==> Asleep(c)
  {
    hide CInv, Active, AllLegal, Run, Legal, Step;
    if Asleep(c) {
      forall ops: seq<Op> | AllLegal(c, ops) && NoConnect(ops) ensures !Active(Run(c, ops)) {
        InactiveForGood(c, ops);
      }
    } else {
      var bare := Segment(DEFAULT_HEADER, []);
      SegmentWakes(c, bare);
      ArrivalOnly(c, bare);
      assert Active(Run(c, [DoArrive(bare)]));
    }
  }

  lemma ArrivalOnly(c: Connection, seg: Segment)
    ensures Run(c, [DoArrive(seg)]) == SegmentArrives(c, seg) && AllLegal(c, [DoArrive(seg)])
    ensures NoConnect([DoArrive(seg)])
  {
    hide SegmentArrives;
    OneOp(c, DoArrive(seg));
  }

  /** Connect puts a connection that closed cleanly after lingering into that state: it does not become
      active at once, but the next segment makes it. */
  lemma ConnectLetsWake(c: Connection, seg: Segment)
    requires CInv(c) && !c.alive && !c.snd.stream.error && c.linger && c.rt > 0 && !seg.header.rst
    ensures !Active(Connect(c)) && Active(SegmentArrives(Connect(c), seg))
  {
    hide CInv, SegmentArrives, Connect;
    DeadIsClosed(c);
    ConnectRevivesIff(c);
    ConnectKeeps(c);
    ConnectFrame(c);
    SegmentWakes(Connect(c), seg);
  }

  lemma ConnectFrame(c: Connection)
    ensures Connect(c).alive && Connect(c).linger == c.linger && Connect(c).rt == c.rt
  {
    hide FillWindow, StampedAll;
  }

  // ---- whole runs ----

  /** The call leaves a connection that a segment can wake: it connects a dead one that had lingered, or
      finds one in that state and neither time passes nor a segment arrives. */
  predicate Dozes(c: Connection, op: Op, dozing: bool) {
    match op
    case DoConnect => dozing || (!c.alive && StreamsClosed(c) && c.linger && c.rt > 0 && c.idle >= 10 * c.rt)
    case DoTick(_) => false
    case DoArrive(_) => false
    case _ => dozing
  }

  predicate RunDozes(c: Connection, ops: seq<Op>, dozing: bool)
    decreases |ops|
  {
    if ops == [] then dozing else RunDozes(Step(c, ops[0]), ops[1..], Dozes(c, ops[0], dozing))
  }

  lemma StepDozes(c: Connection, op: Op)
    requires CInv(c) && Legal(c, op)
    ensures Wakeable(Step(c, op)) <==> Dozes(c, op, Wakeable(c))
  {
    hide CInv, SenderForward, ReceiverForward, SegmentArrives, TimePasses, Refilled, Reset, Connect, Reading;
    StepKeeps(c, op);
    CInvParts(c);
    match op {
      case DoConnect => ConnectDozes(c);
      case DoTick(ms) => TimeEnds(c, ms);
      case DoArrive(seg) => ArrivalEnds(c, seg);
      case DoDestroy => DestroyDozes(c);
      case _ =>
        SameOutside(c, op);
        ClosedStays(c, Step(c, op));
    }
  }

  lemma ConnectDozes(c: Connection)
    requires CInv(c)
    ensures Wakeable(Connect(c)) <==> Dozes(c, DoConnect, Wakeable(c))
  {
    hide SenderForward, ReceiverForward, FillWindow, StampedAll, S.Inv, V.RInv;
    S.NumbersFit(c.snd);
    ConnectIsRefill(c);
    ConnectKeeps(c);
    SameStream(c.snd);
    RefilledForward(c, c.snd.stream);
    ClosedStays(c, Connect(c));
  }

  lemma SameStream(s: Sender)
    ensures S.Grows(S.SpaceOf(s), S.SpaceOf(s.(stream := s.stream)))
  {
  }

  /** A tick that ends the lingering also ends the connection. */
  lemma TimeEnds(c: Connection, ms: nat)
    ensures !Wakeable(TimePasses(c, ms))
  {
    hide Tick, StampedAll;
  }

  lemma ArrivalEnds(c: Connection, seg: Segment)
    requires CInv(c)
    ensures !Wakeable(SegmentArrives(c, seg))
  {
    if c.alive && !seg.header.rst {
      hide SegmentArrives, SenderForward, ReceiverForward;
      ArriveShape(c, seg);
    }
  }

  lemma DestroyDozes(c: Connection)
    ensures Wakeable(Destroyed(c)) <==> Wakeable(c)
  {
  }

  /** Reading, writing and ending the input change neither half's state of closing. */
  lemma SameOutside(c: Connection, op: Op)
    requires CInv(c) && Legal(c, op) && (op.DoWrite? || op.DoEndInput? || op.DoRead?)
    ensures var c' := Step(c, op);
      && c'.alive == c.alive && c'.linger == c.linger && c'.rt == c.rt && c'.idle == c.idle
      && c'.snd.lastAck == c.snd.lastAck && c'.rcv.re.out.ended == c.rcv.re.out.ended
  {
    hide SenderForward, Refilled, S.Inv, V.RInv;
    S.NumbersFit(c.snd);
    LingerSteps(c, op);
    if op.DoWrite? {
      RefilledForward(c, WriteTo(c.snd.stream, op.data));
    } else if op.DoEndInput? {
      RefilledForward(c, EndedInput(c.snd.stream));
    }
  }

  /** Over every run, a segment can wake the inactive connection it leads to if and only if a dead
      connection that had lingered was connected again, and since then there were no ticks and no
      arrivals. */
  lemma {:induction false} WakeableIff(c: Connection, ops: seq<Op>)
    requires CInv(c) && AllLegal(c, ops)
    ensures Wakeable(Run(c, ops)) <==> RunDozes(c, ops, Wakeable(c))
    decreases |ops|
  {
    hide CInv, Step, Legal, SenderForward, ReceiverForward, Wakeable, Dozes;
    if ops == [] {
    } else {
      StepKeeps(c, ops[0]);
      StepDozes(c, ops[0]);
      WakeableIff(Step(c, ops[0]), ops[1..]);
    }
  }

  /** Only connecting a dead connection leads there. */
  lemma {:induction false} NeverRevivedNeverDozes(c: Connection, ops: seq<Op>)
    requires NeverRevived(c, ops)
    ensures !RunDozes(c, ops, false)
    decreases |ops|
  {
    hide Step, StreamsClosed;
    if ops == [] {
    } else {
      NeverRevivedNeverDozes(Step(c, ops[0]), ops[1..]);
    }
  }

  lemma NewIsActive(rt: u16, recvCapacity: nat, sendCapacity: nat, isn: u32)
    ensures Active(NewConnection(rt, recvCapacity, sendCapacity, isn))
  {
  }

  /** On every run in which no dead connection was connected again, a connection that has become inactive
      stays inactive whatever follows, as long as that does not connect it. */
  lemma ClosedForGood(rt: u16, recvCapacity: nat, sendCapacity: nat, isn: u32, ops: seq<Op>, more: seq<Op>)
    requires var c0 := NewConnection(rt, recvCapacity, sendCapacity, isn);
      && AllLegal(c0, ops) && NeverRevived(c0, ops) && !Active(Run(c0, ops))
      && AllLegal(Run(c0, ops), more) && NoConnect(more)
    ensures !Active(Run(Run(NewConnection(rt, recvCapacity, sendCapacity, isn), ops), more))
  {
    hide Run, AllLegal, CInv, Active, NewConnection;
    var c0 := NewConnection(rt, recvCapacity, sendCapacity, isn);
    StartOk(rt, recvCapacity, sendCapacity, isn);
    NewIsActive(rt, recvCapacity, sendCapacity, isn);
    RunKeeps(c0, ops);
    WakeableIff(c0, ops);
    NeverRevivedNeverDozes(c0, ops);
    InactiveForGood(Run(c0, ops), more);
  }

  /** And over every run at all, it stays inactive under everything but connect if and only if the run did
      not leave a dozing connection. */
  lemma ClosedForGoodIff(rt: u16, recvCapacity: nat, sendCapacity: nat, isn: u32, ops: seq<Op>)
    requires AllLegal(NewConnection(rt, recvCapacity, sendCapacity, isn), ops)
    requires !Active(Run(NewConnection(rt, recvCapacity, sendCapacity, isn), ops))
    ensures var c0 := NewConnection(rt, recvCapacity, sendCapacity, isn);
            var c := Run(c0, ops);
      (forall more: seq<Op> :: AllLegal(c, more) && NoConnect(more) ==> !Active(Run(c, more)))
      <==> !RunDozes(c0, ops, false)
  {
    hide Run, AllLegal, CInv, Active, NewConnection;
    var c0 := NewConnection(rt, recvCapacity, sendCapacity, isn);
    StartOk(rt, recvCapacity, sendCapacity, isn);
    NewIsActive(rt, recvCapacity, sendCapacity, isn);
    RunKeeps(c0, ops);
    WakeableIff(c0, ops);
    InactiveForGoodIff(Run(c0, ops));
  }

  // ---- the side that closes last ----

  lemma AcknowledgedThen(c: Connection, seg: Segment)
    requires CInv(c) && c.alive && !seg.header.rst
    ensures SegmentArrives(c, seg).snd.lastAck == Absorbed(c, seg).snd.lastAck
  {
    hide FillWindow, S.Inv, V.RInv, Absorbed, StampedAll, SenderForward, ReceiverForward, SummaryOfSender,
         SummaryOfReceiver, IsKeepAlive, EmptySegment;
    AbsorbedForward(c, seg);
    ForwardInv(c.snd, Absorbed(c, seg).snd);
    FillForward(Absorbed(c, seg).snd);
  }

  /** When a segment leaves the inbound stream ended, with the SYN acknowledged and the FIN not sent, the
      need to linger is over. */
  lemma NeedsNoLinger(c: Connection, seg: Segment)
    requires CInv(c) && c.alive && !seg.header.rst
    ensures var c' := SegmentArrives(c, seg);
      c'.rcv.syn && c'.rcv.re.out.ended && !c'.rcv.re.out.error && c'.snd.lastAck > 0 && !c'.snd.finSent ==> !c'.linger
  {
    hide FillWindow, S.Inv, V.RInv, Absorbed, Replied, StampedAll, SenderForward, ReceiverForward;
    var a := Absorbed(c, seg);
    AbsorbedForward(c, seg);
    ForwardInv(c.snd, a.snd);
    AcknowledgedThen(c, seg);
    ArriveFurther(c, seg);
    Further(a.snd, SegmentArrives(c, seg).snd);
    FinSentIff(a.snd);
    NextWithin(a.snd);
    BothForwardErrors(c, seg);
    ReplyFrameOf(a, seg);
  }

  lemma BothForwardErrors(c: Connection, seg: Segment)
    requires CInv(c) && c.alive && !seg.header.rst
    ensures SegmentArrives(c, seg).rcv == SegmentReceived(c.rcv, seg)
    ensures SegmentArrives(c, seg).snd.stream.error == SegmentArrives(c, seg).rcv.re.out.error
    ensures Absorbed(c, seg).snd.stream.error == SegmentArrives(c, seg).snd.stream.error
  {
    hide SegmentArrives, Absorbed, SenderForward, ReceiverForward, S.Inv, V.RInv;
    ArriveShape(c, seg);
    AbsorbedForward(c, seg);
  }

  lemma ReplyFrameOf(c: Connection, seg: Segment)
    ensures forall linger :: Replied(c.(linger := linger), seg).linger == linger
  {
    hide FillWindow, IsKeepAlive, EmptySegment;
  }

  lemma {:induction false} NoLingerStays(c: Connection, ops: seq<Op>)
    requires CInv(c) && AllLegal(c, ops) && !c.linger && c.rcv.re.out.ended
    ensures CInv(Run(c, ops)) && !Run(c, ops).linger && Run(c, ops).rcv.re.out.ended
    decreases |ops|
  {
    hide CInv, Step, Legal, SenderForward;
    if ops == [] {
    } else {
      StepKeeps(c, ops[0]);
      LingerSteps(c, ops[0]);
      NoLingerStays(Step(c, ops[0]), ops[1..]);
    }
  }

  /** On every run: a side that sees its inbound stream end before it has sent its own FIN does not wait. As
      soon as all it sends, the FIN included, is acknowledged, it is inactive. */
  lemma LastToCloseDoesNotWait(rt: u16, recvCapacity: nat, sendCapacity: nat, isn: u32,
                               ops: seq<Op>, seg: Segment, more: seq<Op>)
    requires AllLegal(NewConnection(rt, recvCapacity, sendCapacity, isn), ops)
    requires var c := Run(NewConnection(rt, recvCapacity, sendCapacity, isn), ops);
             var c' := SegmentArrives(c, seg);
      && c.alive && !seg.header.rst && AllLegal(c', more)
      && c'.rcv.syn && c'.rcv.re.out.ended && !c'.rcv.re.out.error && c'.snd.lastAck > 0 && !c'.snd.finSent
    ensures var c := Run(NewConnection(rt, recvCapacity, sendCapacity, isn), ops);
            var last := Run(SegmentArrives(c, seg), more);
      last.snd.lastAck == |last.snd.stream.log| + 2 ==> !Active(last)
  {
    hide Run, AllLegal, CInv, NewConnection, SegmentArrives, Active;
    var c0 := NewConnection(rt, recvCapacity, sendCapacity, isn);
    StartOk(rt, recvCapacity, sendCapacity, isn);
    RunKeeps(c0, ops);
    var c := Run(c0, ops);
    ArriveKeeps(c, seg);
    NeedsNoLinger(c, seg);
    NoLingerStays(SegmentArrives(c, seg), more);
    var last := Run(SegmentArrives(c, seg), more);
    if last.snd.lastAck == |last.snd.stream.log| + 2 {
      AllAcknowledgedIsClosed(last);
    }
  }

  lemma AllAcknowledgedIsClosed(c: Connection)
    requires CInv(c) && !c.linger && c.rcv.re.out.ended && c.snd.lastAck == |c.snd.stream.log| + 2
    ensures !Active(c)
  {
    hide S.Inv, V.RInv;
    FinSentIff(c.snd);
    NextWithin(c.snd);
  }

  // ---- a connection that comes back ----

  /** An active connection that has ended its own stream without writing anything. */
  ghost predicate Ending(c: Connection) {
    && CInv(c) && c.alive && c.linger && !c.snd.stream.error && c.snd.retx <= MAX_RETX_ATTEMPTS
    && c.snd.stream.ended && c.snd.stream.log == []
  }

  lemma EndingParts(c: Connection)
    requires Ending(c)
    ensures S.Inv(c.snd) && V.RInv(c.rcv) && 0 <= c.snd.lastAck <= c.snd.next <= 2
    ensures c.snd.finSent <==> c.snd.next == 2
    ensures !c.rcv.re.out.error
  {
    hide S.Inv, V.RInv;
    FinSentIff(c.snd);
    NextWithin(c.snd);
  }

  lemma EndsInput(rt: u16, recvCapacity: nat, sendCapacity: nat, isn: u32)
    ensures var c0 := NewConnection(rt, recvCapacity, sendCapacity, isn);
            var c := EndInputStream(c0);
      Ending(c) && c.rcv == c0.rcv && c.rt == rt && c.snd.lastAck == 0 < c.snd.next
  {
    hide FillWindow, StampedAll, S.Shape, SenderForward, ReceiverForward, V.RInv;
    var c0 := NewConnection(rt, recvCapacity, sendCapacity, isn);
    StartOk(rt, recvCapacity, sendCapacity, isn);
    StepKeeps(c0, DoEndInput);
    RefilledForward(c0, EndedInput(c0.snd.stream));
    FewRetries(c0, DoEndInput);
    LingerSteps(c0, DoEndInput);
    var s := c0.snd.(stream := EndedInput(c0.snd.stream));
    S.StreamGrows(c0.snd, s.stream);
    OnlyShape(s);
    S.FillIsGreedy(s);
    var _ := S.FillKeeps(s);
  }

  lemma OnlyShape(s: Sender)
    requires S.Inv(s)
    ensures S.Shape(s)
  {
  }

  /** What a peer sends to acknowledge the first `acked` numbers, with a SYN and a FIN if it has not yet. */
  function Answer(c: Connection, acked: nat, first: bool): Segment {
    Segment(DEFAULT_HEADER.(syn := first, fin := first, ack := true, ackno := Wrap(acked, c.snd.isn), win := 1000), [])
  }

  /** The acknowledgment is heard, and with the window it opens the FIN is out. */
  lemma AnswerHeard(c: Connection, acked: nat, first: bool)
    requires Ending(c) && c.snd.lastAck <= acked <= c.snd.next && acked > 0
    ensures var a, c' := Absorbed(c, Answer(c, acked, first)), SegmentArrives(c, Answer(c, acked, first));
      && a.snd.finSent && c'.snd.finSent && c'.snd.lastAck >= acked && S.Inv(a.snd)
      && c'.snd.isn == c.snd.isn && c'.snd.stream.log == [] && c'.snd.stream.ended
  {
    hide AckReceived, SegmentReceived, Wrap, Unwrap, SegmentArrives, V.RInv, S.Tiles, S.Span, S.Names, S.Shape,
         SenderForward;
    var seg := Answer(c, acked, first);
    var a := Absorbed(c, seg);
    EndingParts(c);
    S.NumbersFit(c.snd);
    UnwrapInvertsWrap(acked, c.snd.isn, c.snd.next);
    Completion.AckIsGreedy(c.snd, seg.header.ackno, seg.header.win);
    var _ := S.AckKeeps(c.snd, seg.header.ackno, seg.header.win);
    FinSentIff(a.snd);
    NextWithin(a.snd);
    ArriveFurther(c, seg);
    Further(a.snd, SegmentArrives(c, seg).snd);
  }

  lemma Further(s: Sender, s': Sender)
    requires SenderForward(s, s')
    ensures s'.isn == s.isn && s.lastAck <= s'.lastAck && (s.finSent ==> s'.finSent)
    ensures s.stream.ended ==> s'.stream.ended && s'.stream.log == s.stream.log
  {
  }

  /** After a segment has been taken in, the sender goes on from there. */
  lemma ArriveFurther(c: Connection, seg: Segment)
    requires CInv(c) && c.alive && !seg.header.rst
    ensures SenderForward(Absorbed(c, seg).snd, SegmentArrives(c, seg).snd)
  {
    hide FillWindow, S.Inv, V.RInv, Absorbed, Replied, StampedAll, SenderForward, ReceiverForward, SummaryOfSender,
         SummaryOfReceiver;
    var a := Absorbed(c, seg);
    AbsorbedForward(c, seg);
    ForwardInv(c.snd, a.snd);
    FillForward(a.snd);
    var f := FillWindow(a.snd);
    ForwardInv(a.snd, f);
    OutForward(f, []);
    ForwardTwice(a.snd, f, f.(out := []));
    var passive := SummaryOfReceiver(a.rcv) == FinRecv && SummaryOfSender(a.snd) == SynAcked;
    var l := a.(linger := a.linger && !passive);
    RepliedForward(l, seg);
    var r := Replied(l, seg);
    ForwardInv(a.snd, r.snd);
    OutForward(r.snd, []);
    ForwardTwice(a.snd, r.snd, r.snd.(out := []));
  }

  lemma AnswerArrives(c: Connection, acked: nat, first: bool)
    requires Ending(c) && c.snd.lastAck <= acked <= c.snd.next && acked > 0
    ensures var c' := SegmentArrives(c, Answer(c, acked, first));
      && Ending(c') && c'.snd.next == 2 && c'.snd.lastAck >= acked && c'.snd.isn == c.snd.isn && c'.rt == c.rt
      && c'.rcv == SegmentReceived(c.rcv, Answer(c, acked, first))
  {
    hide CInv, SegmentReceived, SegmentArrives, Absorbed, Answer, SenderForward, ReceiverForward;
    var seg := Answer(c, acked, first);
    NoReset(c, acked, first);
    EndingParts(c);
    AnswerHeard(c, acked, first);
    ArriveKeeps(c, seg);
    ArriveShape(c, seg);
    ArriveRetries(c, seg);
    if SummaryOfSender(Absorbed(c, seg).snd) == SynAcked {
      SynAckedHasNoFin(Absorbed(c, seg).snd);
    }
    EndingParts(SegmentArrives(c, seg));
  }

  lemma NoReset(c: Connection, acked: nat, first: bool)
    ensures !Answer(c, acked, first).header.rst
  {
  }

  /** A SYN with a FIN ends the inbound stream of a receiver that can hold anything. */
  lemma FinEnds(c: Connection, acked: nat, capacity: nat)
    requires c.rcv == NewReceiver(capacity) && capacity > 0
    ensures SegmentReceived(c.rcv, Answer(c, acked, true)).re.out.ended
  {
    hide Push, Wrap;
    var r := NewReassembler(capacity);
    CutOfNothingStored(r, [], 0);
    PushEof(r, [], 0, true);
  }

  /** An end that has ended and heard everything, and whose inbound stream has ended, dies by lingering. */
  lemma LingersOut(c: Connection)
    requires Ending(c) && c.snd.lastAck == 2 && c.rcv.re.out.ended
    ensures var c' := TimePasses(c, 10 * c.rt);
            CInv(c') && !c'.alive && !c'.snd.stream.error && c'.linger && c'.rt == c.rt
  {
    hide S.Inv, V.RInv, StampedAll, SenderForward, ReceiverForward;
    EndingParts(c);
    FinSentIff(c.snd);
    S.QuietIff(c.snd);
    assert Tick(c.snd, 10 * c.rt) == c.snd;
    TimeKeeps(c, 10 * c.rt);
  }

  /** One more call. */
  lemma AndThen(c: Connection, ops: seq<Op>, op: Op)
    requires AllLegal(c, ops)
    ensures Run(c, ops + [op]) == Step(Run(c, ops), op)
    ensures Legal(Run(c, ops), op) ==> AllLegal(c, ops + [op])
  {
    hide Run, AllLegal, Step, Legal;
    RunThen(c, ops, [op]);
    OneOp(Run(c, ops), op);
  }

  lemma {:induction false} NoConnectNeverRevives(c: Connection, ops: seq<Op>)
    requires NoConnect(ops)
    ensures NeverRevived(c, ops)
    decreases |ops|
  {
    hide Step;
    if ops == [] {
    } else {
      NoConnectNeverRevives(Step(c, ops[0]), ops[1..]);
    }
  }

  /** A clean close after lingering: the input is ended, a peer's SYN and FIN arrive, then its last
      acknowledgment, and then time passes. */
  lemma ClosesCleanly(rt: u16, recvCapacity: nat, sendCapacity: nat, isn: u32) returns (ops: seq<Op>)
    requires recvCapacity > 0
    ensures var c0 := NewConnection(rt, recvCapacity, sendCapacity, isn);
            var c := Run(c0, ops);
      && AllLegal(c0, ops) && NoConnect(ops) && CInv(c)
      && !c.alive && !c.snd.stream.error && c.linger && c.rt == rt
  {
    hide Run, AllLegal, NewConnection, SegmentArrives, SegmentReceived, TimePasses, EndInputStream, Ending, CInv,
         Answer;
    var c0 := NewConnection(rt, recvCapacity, sendCapacity, isn);
    EndsInput(rt, recvCapacity, sendCapacity, isn);
    var c1 := EndInputStream(c0);
    var syn := Answer(c1, 1, true);
    FreshEnding(c1);
    AnswerArrives(c1, 1, true);
    FreshReceiver(rt, recvCapacity, sendCapacity, isn);
    FinEnds(c1, 1, recvCapacity);
    var c2 := SegmentArrives(c1, syn);
    var ack := Answer(c2, 2, false);
    FreshEnding(c2);
    AnswerArrives(c2, 2, false);
    var c3 := SegmentArrives(c2, ack);
    FreshEnding(c3);
    StaysEnded(c2, ack);
    LingersOut(c3);
    ops := [DoEndInput];
    OneOp(c0, DoEndInput);
    AndThen(c0, [DoEndInput], DoArrive(syn));
    AndThen(c0, [DoEndInput] + [DoArrive(syn)], DoArrive(ack));
    AndThen(c0, [DoEndInput] + [DoArrive(syn)] + [DoArrive(ack)], DoTick(10 * rt));
    ops := [DoEndInput] + [DoArrive(syn)] + [DoArrive(ack)] + [DoTick(10 * rt)];
  }

  lemma FreshEnding(c: Connection)
    requires Ending(c)
    ensures c.alive && CInv(c) && 0 <= c.snd.lastAck <= c.snd.next <= 2
  {
    hide CInv;
    EndingParts(c);
  }

  lemma FreshReceiver(rt: u16, recvCapacity: nat, sendCapacity: nat, isn: u32)
    ensures NewConnection(rt, recvCapacity, sendCapacity, isn).rcv == NewReceiver(recvCapacity)
  {
  }

  lemma StaysEnded(c: Connection, seg: Segment)
    requires CInv(c)
    ensures c.rcv.re.out.ended ==> SegmentArrives(c, seg).rcv.re.out.ended
  {
    hide CInv, SegmentArrives;
    ArriveKeeps(c, seg);
  }

  /** There are runs that doze. With any positive timeout and room to receive anything, one closes cleanly
      and is inactive; connected again, it is still inactive; and the next segment makes it active. */
  lemma CanWake(rt: u16, recvCapacity: nat, sendCapacity: nat, isn: u32) returns (ops: seq<Op>, last: Op)
    requires rt > 0 && recvCapacity > 0
    ensures var c0 := NewConnection(rt, recvCapacity, sendCapacity, isn);
            var again := ops + [DoConnect];
      && AllLegal(c0, again + [last]) && last.DoArrive? && NeverRevived(c0, ops)
      && !Active(Run(c0, ops)) && !Run(c0, ops).snd.stream.error
      && !Active(Run(c0, again)) && RunDozes(c0, again, false) && Active(Run(c0, again + [last]))
  {
    hide Run, AllLegal, NewConnection, SegmentArrives, Connect, CInv, RunDozes, NeverRevived, Active;
    var c0 := NewConnection(rt, recvCapacity, sendCapacity, isn);
    ops := ClosesCleanly(rt, recvCapacity, sendCapacity, isn);
    var bare := Segment(DEFAULT_HEADER, []);
    last := DoArrive(bare);
    NoConnectNeverRevives(c0, ops);
    var c := Run(c0, ops);
    DeadIsClosed(c);
    ConnectLetsWake(c, bare);
    ConnectFrame(c);
    AndThen(c0, ops, DoConnect);
    AndThen(c0, ops + [DoConnect], last);
    StartOk(rt, recvCapacity, sendCapacity, isn);
    NewIsActive(rt, recvCapacity, sendCapacity, isn);
    WakeableIff(c0, ops + [DoConnect]);
  }
}
