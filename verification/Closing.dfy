/** How a connection ends. */
module Closing {
  import opened Words
  import opened ByteStreams
  import opened Segments
  import opened Sending
  import opened Receiving
  import opened Connections
  import S = SenderLaws
  import V = ReceiverLaws
  import opened ConnectionLaws

  // ---- closing cleanly ----

  /** A connection that went inactive without a reset: the inbound stream ended, the outbound one did
      too, and everything written and the FIN were sent and acknowledged; if it lingers, it has. */
  lemma {:induction false} CloseIsClean(rt: u16, recvCapacity: nat, sendCapacity: nat, isn: u32, ops: seq<Op>)
    requires AllLegal(NewConnection(rt, recvCapacity, sendCapacity, isn), ops)
    ensures var c := Run(NewConnection(rt, recvCapacity, sendCapacity, isn), ops);
      !Active(c) && !c.snd.stream.error ==>
        && c.rcv.re.out.ended && c.snd.stream.ended && c.snd.finSent && Buffer(c.snd.stream) == []
        && c.snd.outstanding == [] && c.snd.lastAck == c.snd.next == |c.snd.stream.log| + 2
        && (c.linger ==> c.idle >= 10 * c.rt)
  {
    hide Run, AllLegal, NewConnection;
    StartOk(rt, recvCapacity, sendCapacity, isn);
    RunKeeps(NewConnection(rt, recvCapacity, sendCapacity, isn), ops);
    var c := Run(NewConnection(rt, recvCapacity, sendCapacity, isn), ops);
    if !Active(c) && !c.snd.stream.error {
      InactiveIsClosed(c);
      FinSentIff(c.snd);
      S.QuietIff(c.snd);
    }
  }

  lemma InactiveIsClosed(c: Connection)
    requires CInv(c) && !Active(c) && !c.snd.stream.error
    ensures StreamsClosed(c) && (!c.linger || c.idle >= 10 * c.rt) && S.Inv(c.snd)
  {
  }

  lemma LingerSteps(c: Connection, op: Op)
    requires CInv(c) && Legal(c, op)
    ensures var c' := Step(c, op);
      && (c'.linger ==> c.linger) && c'.rt == c.rt
      && (c.linger && !c'.linger ==> c'.rcv.re.out.ended && !c.snd.finSent)
  {
    hide CInv, SegmentArrives, TimePasses, Reading, Refilled, Connect, Reset, Legal;
    match op
    case DoArrive(seg) => LingerArrive(c, seg);
    case DoTick(ms) => LingerTick(c, ms);
    case DoWrite(data) => LingerRefill(c, WriteTo(c.snd.stream, data));
    case DoEndInput => LingerRefill(c, EndedInput(c.snd.stream));
    case DoConnect => LingerConnect(c);
    case DoRead(len) =>
    case DoDestroy => LingerReset(c, true);
  }

  lemma LingerRefill(c: Connection, stream: Stream)
    ensures Refilled(c, stream).linger == c.linger && Refilled(c, stream).rt == c.rt
  {
    hide FillWindow;
  }

  lemma LingerConnect(c: Connection)
    ensures Connect(c).linger == c.linger && Connect(c).rt == c.rt
  {
    hide FillWindow;
  }

  lemma LingerReset(c: Connection, sendRst: bool)
    ensures Reset(c, sendRst).linger == c.linger && Reset(c, sendRst).rt == c.rt
  {
  }

  lemma LingerTick(c: Connection, ms: nat)
    ensures TimePasses(c, ms).linger == c.linger && TimePasses(c, ms).rt == c.rt
  {
    hide Tick;
  }

  lemma LingerArrive(c: Connection, seg: Segment)
    requires CInv(c)
    ensures var c' := SegmentArrives(c, seg);
      && (c'.linger ==> c.linger) && c'.rt == c.rt
      && (c.linger && !c'.linger ==> c'.rcv.re.out.ended && !c.snd.finSent)
  {
    if c.alive && !seg.header.rst {
      hide SegmentArrives, Absorbed, SenderForward, ReceiverForward;
      ArriveShape(c, seg);
      AbsorbedForward(c, seg);
      FinStays(c.snd, Absorbed(c, seg).snd);
      if SummaryOfSender(Absorbed(c, seg).snd) == SynAcked {
        SynAckedHasNoFin(Absorbed(c, seg).snd);
      }
    }
  }

  lemma FinStays(s: Sender, s': Sender)
    requires SenderForward(s, s')
    ensures S.Inv(s') && (s.finSent ==> s'.finSent)
  {
  }

  lemma SynAckedHasNoFin(s: Sender)
    requires S.Inv(s) && SummaryOfSender(s) == SynAcked
    ensures !s.finSent
  {
    FinSentIff(s);
  }

  /** Only a side that has not sent its FIN yet, and whose inbound stream has ended, stops lingering. */
  lemma {:induction false} LingerRun(c: Connection, ops: seq<Op>)
    requires CInv(c) && AllLegal(c, ops) && (!c.linger ==> c.rcv.re.out.ended)
    ensures var c' := Run(c, ops);
      && CInv(c') && c'.rt == c.rt && (!c'.linger ==> c'.rcv.re.out.ended)
      && (c.linger && c.snd.finSent ==> c'.linger)
    decreases |ops|
  {
    hide CInv, Step, Legal;
    if ops == [] {
    } else {
      var c1 := Step(c, ops[0]);
      StepKeeps(c, ops[0]);
      LingerSteps(c, ops[0]);
      LingerRun(c1, ops[1..]);
    }
  }

  /** A side that sent its FIN before its inbound stream ended, and then closed without a reset, has
      waited ten timeouts since the last segment. */
  lemma FirstToCloseWaits(rt: u16, recvCapacity: nat, sendCapacity: nat, isn: u32, ops: seq<Op>, more: seq<Op>)
    requires AllLegal(NewConnection(rt, recvCapacity, sendCapacity, isn), ops)
    requires var c := Run(NewConnection(rt, recvCapacity, sendCapacity, isn), ops);
      AllLegal(c, more) && c.snd.finSent && !c.rcv.re.out.ended
    ensures var c := Run(Run(NewConnection(rt, recvCapacity, sendCapacity, isn), ops), more);
      !Active(c) && !c.snd.stream.error ==> c.idle >= 10 * rt
  {
    hide Run, AllLegal, CInv, Active, StreamsClosed;
    var c0 := NewConnection(rt, recvCapacity, sendCapacity, isn);
    StartOk(rt, recvCapacity, sendCapacity, isn);
    LingerRun(c0, ops);
    LingerRun(Run(c0, ops), more);
    var c := Run(Run(c0, ops), more);
    if !Active(c) && !c.snd.stream.error {
      InactiveIsClosed(c);
    }
  }

  /** Milliseconds ticked since the last arrival. */
  function QuietTime(quiet: nat, ops: seq<Op>): nat
    decreases |ops|
  {
    if ops == [] then quiet else QuietTime(QuietStep(quiet, ops[0]), ops[1..])
  }

  function QuietStep(quiet: nat, op: Op): nat {
    match op case DoArrive(_) => 0 case DoTick(ms) => quiet + ms case _ => quiet
  }

  lemma DeadStaysDead(c: Connection, op: Op)
    requires !c.alive && !op.DoConnect?
    ensures !Step(c, op).alive
  {
    hide FillWindow, FillLoop;
  }

  lemma IdleSteps(c: Connection, op: Op)
    requires CInv(c) && Legal(c, op) && c.alive
    ensures Step(c, op).idle == QuietStep(c.idle, op)
  {
    hide FillWindow, FillLoop, Tick, SenderForward, ReceiverForward, V.RInv, S.Inv;
    if op.DoArrive? {
      IdleArrive(c, op.seg);
    }
  }

  lemma IdleArrive(c: Connection, seg: Segment)
    requires CInv(c) && c.alive
    ensures SegmentArrives(c, seg).idle == 0
  {
    if !seg.header.rst {
      hide SegmentArrives;
      ArriveShape(c, seg);
    }
  }

  /** No call of connect meets a dead connection. */
  predicate NeverRevived(c: Connection, ops: seq<Op>)
    decreases |ops|
  {
    ops == [] || ((ops[0].DoConnect? ==> c.alive) && NeverRevived(Step(c, ops[0]), ops[1..]))
  }

  /** While a connection that is not revived is alive, its clock shows the time since the last segment
      arrived. */
  lemma {:induction false} IdleIsQuietTime(c: Connection, ops: seq<Op>)
    requires CInv(c) && AllLegal(c, ops) && NeverRevived(c, ops)
    ensures Run(c, ops).alive ==> c.alive && Run(c, ops).idle == QuietTime(c.idle, ops)
    decreases |ops|
  {
    hide CInv, Step, Legal, SenderForward, ReceiverForward;
    if ops == [] {
    } else {
      StepKeeps(c, ops[0]);
      IdleIsQuietTime(Step(c, ops[0]), ops[1..]);
      if c.alive {
        IdleSteps(c, ops[0]);
      } else {
        DeadStaysDead(c, ops[0]);
      }
    }
  }

  /** A connection that has not failed becomes active only when a segment wakes it, whatever is called. */
  lemma ActiveBefore(c: Connection, op: Op)
    requires CInv(c) && Legal(c, op) && Active(Step(c, op)) && !Step(c, op).snd.stream.error
    ensures c.alive && (op.DoArrive? || (Active(c) && !c.snd.stream.error))
  {
    hide CInv, SegmentArrives, TimePasses, Refilled, Reset, Connect, Reading;
    StepKeeps(c, op);
    CInvParts(c);
    NotFailedBefore(c.snd, Step(c, op).snd);
    if !c.alive {
      DeadIsClosed(c);
      if op.DoConnect? {
        ConnectRevivesIff(c);
      } else {
        DeadStaysDead(c, op);
      }
    } else if !Active(c) && !op.DoArrive? {
      ClosedStays(c, Step(c, op));
      LingerSteps(c, op);
      IdleSteps(c, op);
    }
  }

  lemma NotFailedBefore(s: Sender, s': Sender)
    requires SenderForward(s, s')
    ensures s.stream.error ==> s'.stream.error
  {
  }

  lemma DeadIsClosed(c: Connection)
    requires CInv(c) && !c.alive
    ensures !Active(c) && (!c.snd.stream.error ==> StreamsClosed(c) && (!c.linger || c.idle >= 10 * c.rt))
  {
  }

  /** While a connection that has not failed is active, its clock shows the time since the last segment
      arrived, whatever was called, connect on a closed connection included. */
  lemma {:induction false} ActiveIsQuietTime(c: Connection, ops: seq<Op>, quiet: nat)
    requires CInv(c) && AllLegal(c, ops) && (Active(c) && !c.snd.stream.error ==> c.idle == quiet)
    ensures Active(Run(c, ops)) && !Run(c, ops).snd.stream.error ==> Run(c, ops).idle == QuietTime(quiet, ops)
    decreases |ops|
  {
    hide CInv, Step, Legal, SenderForward, ReceiverForward, Active;
    if ops == [] {
    } else {
      var c1 := Step(c, ops[0]);
      StepKeeps(c, ops[0]);
      if Active(c1) && !c1.snd.stream.error {
        ActiveBefore(c, ops[0]);
        IdleSteps(c, ops[0]);
      }
      ActiveIsQuietTime(c1, ops[1..], QuietStep(quiet, ops[0]));
    }
  }

  lemma {:induction false} RunThen(c: Connection, a: seq<Op>, b: seq<Op>)
    ensures Run(c, a + b) == Run(Run(c, a), b)
    ensures AllLegal(c, a + b) <==> AllLegal(c, a) && AllLegal(Run(c, a), b)
    decreases |a|
  {
    hide Step, Legal;
    if a == [] {
      assert a + b == b;
    } else {
      assert (a + b)[1..] == a[1..] + b;
      RunThen(Step(c, a[0]), a[1..], b);
    }
  }

  lemma {:induction false} QuietTimeThen(quiet: nat, a: seq<Op>, b: seq<Op>)
    ensures QuietTime(quiet, a + b) == QuietTime(QuietTime(quiet, a), b)
    decreases |a|
  {
    if a == [] {
      assert a + b == b;
    } else {
      assert (a + b)[1..] == a[1..] + b;
      QuietTimeThen(QuietStep(quiet, a[0]), a[1..], b);
    }
  }

  /** At the very call that ends the connection of a side that sent its FIN first, at least ten timeouts
      have been ticked since the last segment arrived. */
  lemma QuietAtTheEnd(rt: u16, recvCapacity: nat, sendCapacity: nat, isn: u32, ops: seq<Op>, more: seq<Op>, last: Op)
    requires AllLegal(NewConnection(rt, recvCapacity, sendCapacity, isn), ops)
    requires AllLegal(Run(NewConnection(rt, recvCapacity, sendCapacity, isn), ops), more + [last])
    ensures var c := Run(NewConnection(rt, recvCapacity, sendCapacity, isn), ops);
            var before, after := Run(c, more), Run(c, more + [last]);
      c.snd.finSent && !c.rcv.re.out.ended && Active(before) && !Active(after) && !after.snd.stream.error ==>
        QuietTime(0, ops + more + [last]) >= 10 * rt
  {
    hide Run, AllLegal, CInv, QuietTime, Step, Legal;
    var c0 := NewConnection(rt, recvCapacity, sendCapacity, isn);
    var c := Run(c0, ops);
    var before, after := Run(c, more), Run(c, more + [last]);
    if c.snd.finSent && !c.rcv.re.out.ended && Active(before) && !Active(after) && !after.snd.stream.error {
      StartOk(rt, recvCapacity, sendCapacity, isn);
      RunKeeps(c0, ops);
      RunThen(c, more, [last]);
      OneOp(before, last);
      RunThen(c0, ops, more);
      RunKeeps(c, more);
      StepKeeps(before, last);
      NotFailedBefore(before.snd, after.snd);
      ActiveIsQuietTime(c0, ops + more, 0);
      AliveIfActive(before);
      IdleSteps(before, last);
      QuietTimeThen(0, ops + more, [last]);
      OneQuiet(QuietTime(0, ops + more), last);
      FirstToCloseWaits(rt, recvCapacity, sendCapacity, isn, ops, more + [last]);
    }
  }

  lemma AliveIfActive(c: Connection)
    ensures Active(c) ==> c.alive
  {
  }

  lemma OneOp(c: Connection, op: Op)
    ensures Run(c, [op]) == Step(c, op) && (AllLegal(c, [op]) <==> Legal(c, op))
  {
    hide Step, Legal;
    assert [op][1..] == [];
    assert Run(c, [op]) == Run(Step(c, op), []);
    assert AllLegal(Step(c, op), []);
  }

  lemma OneQuiet(quiet: nat, op: Op)
    ensures QuietTime(quiet, [op]) == QuietStep(quiet, op)
  {
    assert [op][1..] == [];
  }

  // ---- connecting again ----

  /** Calling connect brings an inactive connection back at once if and only if it had been reset and its
      streams had not closed first. */
  lemma ConnectRevivesIff(c: Connection)
    requires CInv(c) && !Active(c)
    ensures Active(Connect(c)) <==>
            c.snd.stream.error && !(StreamsClosed(c) && (!c.linger || c.idle >= 10 * c.rt))
  {
    hide FillWindow, S.Inv, V.RInv, SenderForward, ReceiverForward, StampedAll;
    var s := FillWindow(c.snd);
    FillForward(c.snd);
    ForwardInv(c.snd, s);
    OutForward(s, []);
    ForwardTwice(c.snd, s, s.(out := []));
    FlushedIs(c.(snd := s, alive := true));
    SameReceiver(c.rcv);
    ClosedStays(c, Connect(c));
  }

  /** Connecting again does bring a connection back, here one that was reset at once. */
  lemma ConnectRevives()
    ensures var c := Reset(NewConnection(1000, 8, 8, 0), false);
            !Active(c) && Active(Connect(c))
  {
    hide FillWindow, FillLoop;
    var c := Reset(NewConnection(1000, 8, 8, 0), false);
    assert !c.rcv.re.out.ended;
  }

  // ---- the states move forward ----

  function RankOfReceiver(r: ReceiverSummary): nat {
    match r case Listen => 0 case SynRecv => 1 case FinRecv => 2 case ReceiverError => 3
  }

  function RankOfSender(r: SenderSummary): nat {
    match r
    case Closed => 0 case SynSent => 1 case SynAcked => 2 case FinSent => 3 case FinAcked => 4 case SenderError => 5
  }

  lemma SenderRank(s: Sender, s': Sender)
    requires S.Inv(s) && SenderForward(s, s')
    ensures RankOfSender(SummaryOfSender(s)) <= RankOfSender(SummaryOfSender(s'))
  {
    hide S.Tiles, S.Span, S.Names;
    FinSentIff(s);
    FinSentIff(s');
  }

  lemma ReceiverRank(v: Receiver, v': Receiver)
    requires ReceiverForward(v, v')
    ensures RankOfReceiver(SummaryOfReceiver(v)) <= RankOfReceiver(SummaryOfReceiver(v'))
  {
  }

  /** What the summaries mean, in numbers: a failure, and otherwise whether the SYN is out, whether it is
      acknowledged, whether the FIN is out, and whether everything is acknowledged. */
  lemma SummariesMean(c: Connection)
    requires CInv(c)
    ensures var s, all := c.snd, |c.snd.stream.log| + 2;
      if s.stream.error then SummaryOfSender(s) == SenderError
      else
        && (SummaryOfSender(s) == Closed <==> s.next == 0)
        && (SummaryOfSender(s) == SynSent <==> s.lastAck == 0 < s.next)
        && (SummaryOfSender(s) == SynAcked <==> 0 < s.lastAck && s.next < all)
        && (SummaryOfSender(s) == FinSent <==> 0 < s.lastAck < all == s.next)
        && (SummaryOfSender(s) == FinAcked <==> s.lastAck == all)
    ensures SummaryOfReceiver(c.rcv) ==
            if c.snd.stream.error then ReceiverError
            else if !c.rcv.syn then Listen else if c.rcv.re.out.ended then FinRecv else SynRecv
  {
    hide S.Inv, V.RInv;
    FinSentIff(c.snd);
    NextWithin(c.snd);
  }

  lemma NextWithin(s: Sender)
    requires S.Inv(s)
    ensures s.next <= |s.stream.log| + 2
  {
  }

  /** The state summaries never move backwards, and the window offered to the peer is never taken back. */
  lemma {:induction false} RunMovesForward(c: Connection, ops: seq<Op>)
    requires CInv(c) && AllLegal(c, ops)
    ensures var c' := Run(c, ops);
      && RankOfSender(SummaryOfSender(c.snd)) <= RankOfSender(SummaryOfSender(c'.snd))
      && RankOfReceiver(SummaryOfReceiver(c.rcv)) <= RankOfReceiver(SummaryOfReceiver(c'.rcv))
      && AbsAck(c.rcv) <= AbsAck(c'.rcv)
      && AbsAck(c.rcv) + HeaderWindow(c.rcv) <= AbsAck(c'.rcv) + HeaderWindow(c'.rcv)
      && c.rcv.re.out.log <= c'.rcv.re.out.log && c.snd.stream.log <= c'.snd.stream.log
    decreases |ops|
  {
    hide CInv, Step, Legal, SummaryOfSender, SummaryOfReceiver;
    if ops == [] {
    } else {
      var c1 := Step(c, ops[0]);
      StepKeeps(c, ops[0]);
      CInvParts(c);
      SenderRank(c.snd, c1.snd);
      ReceiverRank(c.rcv, c1.rcv);
      RunMovesForward(c1, ops[1..]);
    }
  }
}
