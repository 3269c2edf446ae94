/** How a connection answers segments. */
module Replies {
  import opened Words
  import opened WrappingIntegers
  import opened Segments
  import opened Sending
  import opened Receiving
  import opened Connections
  import S = SenderLaws
  import V = ReceiverLaws
  import opened ConnectionLaws

  /** Every segment occupies sequence space. */
  ghost predicate AllOccupy(segs: seq<Segment>) {
    forall seg :: seg in segs ==> Length(seg) > 0
  }

  /** Every segment carries the receiver's acknowledgment number and window. */
  ghost predicate AllReport(v: Receiver, segs: seq<Segment>) {
    forall seg :: seg in segs ==>
      seg.header.ack && Some(seg.header.ackno) == Ackno(v) && seg.header.win == HeaderWindow(v)
  }

  lemma {:induction false} TilesOccupy(sp: S.Space, start: nat, segs: seq<Segment>, stop: nat)
    requires S.Tiles(sp, start, segs, stop)
    ensures AllOccupy(segs)
    decreases |segs|
  {
    hide S.Names;
    if segs == [] {
    } else {
      TilesOccupy(sp, start + Length(segs[0]), segs[1..], stop);
      assert segs == [segs[0]] + segs[1..];
    }
  }

  lemma FillOccupies(s: Sender) returns (sent: seq<Segment>)
    requires S.Inv(s)
    ensures FillWindow(s).out == s.out + sent && AllOccupy(sent) && S.Inv(FillWindow(s))
    ensures s.next == 0 ==> sent != []
  {
    hide FillWindow, S.Placed, S.Tiles, S.Span;
    sent := S.FillKeeps(s);
    TilesOccupy(S.SpaceOf(s), s.next, sent, FillWindow(s).next);
    if s.next == 0 {
      FirstFillSends(s);
      if sent == [] {
        S.NoTiles(S.SpaceOf(s), s.next, sent, FillWindow(s).next);
        assert false;
      }
    }
  }

  lemma FirstFillSends(s: Sender)
    requires S.Inv(s) && s.next == 0
    ensures FillWindow(s).next > 0
  {
    hide FillLoop;
    FirstSegmentIsSyn(s);
    FillLoopSends(s);
  }

  lemma FirstSegmentIsSyn(s: Sender)
    requires S.Inv(s) && s.next == 0
    ensures !s.finSent && InFlight(s) < CurrentWindow(s) && NextSegment(s).header.syn
  {
  }

  lemma FillLoopSends(s: Sender)
    requires S.Inv(s) && !s.finSent && InFlight(s) < CurrentWindow(s) && Length(NextSegment(s)) > 0
    ensures FillLoop(s).next > s.next
  {
    hide S.Names, S.Tiles, S.Span;
    S.EmitKeeps(s);
    if !NextSegment(s).header.fin {
      hide Emit, NextSegment;
      var _ := S.FillLoopKeeps(Emit(s));
    }
  }

  lemma AckOccupies(s: Sender, ackno: u32, window: u16) returns (sent: seq<Segment>)
    requires S.Inv(s)
    ensures AckReceived(s, ackno, window).out == s.out + sent && AllOccupy(sent)
    ensures S.Inv(AckReceived(s, ackno, window))
    ensures s.next == 0 && sent == [] ==> AckReceived(s, ackno, window).next == 0
  {
    hide AckReceived, S.Placed, S.Names, Unwrap;
    sent := S.AckKeeps(s, ackno, window);
    TilesOccupy(S.SpaceOf(s), s.next, sent, AckReceived(s, ackno, window).next);
    S.NoTiles(S.SpaceOf(s), s.next, sent, AckReceived(s, ackno, window).next);
  }

  /** What the sender has queued when an arriving segment has been dealt with. */
  function Queued(a: Connection, seg: Segment): seq<Segment> {
    if SummaryOfReceiver(a.rcv) == SynRecv && a.snd.next == 0 then FillWindow(a.snd).out
    else Replied(a, seg).snd.out
  }

  lemma ArriveHandsOver(c: Connection, seg: Segment)
    requires CInv(c) && c.alive && !seg.header.rst
    ensures var a := Absorbed(c, seg);
      && a.rcv == SegmentReceived(c.rcv, seg) == SegmentArrives(c, seg).rcv
      && SegmentArrives(c, seg).out == c.out + StampedAll(a.rcv, Queued(a, seg))
  {
    hide FillWindow, AckReceived, SegmentReceived, StampedAll, SummaryOfReceiver, SummaryOfSender, IsKeepAlive, CInv;
  }

  /** What a segment provokes, before it is handed over. */
  lemma Provoked(c: Connection, seg: Segment) returns (sent: seq<Segment>)
    requires CInv(c) && c.alive && !seg.header.rst
    ensures var v' := SegmentReceived(c.rcv, seg);
      && SegmentArrives(c, seg).rcv == v'
      && SegmentArrives(c, seg).out == c.out + StampedAll(v', sent)
      && (Length(seg) > 0 ==> sent != [] && (AllOccupy(sent) || (|sent| == 1 && Length(sent[0]) == 0)))
      && (Length(seg) == 0 && !IsKeepAlive(v', seg) ==> AllOccupy(sent))
  {
    hide FillWindow, AckReceived, S.Inv, V.RInv, SegmentReceived, StampedAll, SummaryOfReceiver, IsKeepAlive,
         SegmentArrives;
    ArriveHandsOver(c, seg);
    var a := Absorbed(c, seg);
    sent := Queued(a, seg);
    var first: seq<Segment> := [];
    if seg.header.ack {
      first := AckOccupies(c.snd, seg.header.ackno, seg.header.win);
    }
    assert a.snd.out == first && AllOccupy(first) && S.Inv(a.snd);
    var more := FillOccupies(a.snd);
    if Length(seg) > 0 {
      ReplyToContent(a, seg);
      assert AllOccupy(first + more);
    }
  }

  lemma ReplyToContent(c: Connection, seg: Segment)
    requires Length(seg) > 0
    ensures var out := FillWindow(c.snd).out;
            Replied(c, seg).snd.out == if out == [] then [EmptySegment(FillWindow(c.snd))] else out
  {
    hide FillWindow;
  }

  /** A segment that occupies sequence space, taken in by an alive connection that has seen a SYN, is
      answered: something is sent, and all of it reports the updated acknowledgment number and window. A
      segment without content is sent only if there is nothing else to send. */
  lemma OccupyingIsAnswered(c: Connection, seg: Segment) returns (answers: seq<Segment>)
    requires CInv(c) && c.alive && !seg.header.rst && Length(seg) > 0
    requires c.rcv.syn || seg.header.syn
    ensures var c' := SegmentArrives(c, seg);
      && c'.out == c.out + answers && answers != []
      && c'.rcv == SegmentReceived(c.rcv, seg) && AllReport(c'.rcv, answers)
      && (AllOccupy(answers) || (|answers| == 1 && Length(answers[0]) == 0))
  {
    hide SegmentArrives, SegmentReceived, StampedAll, CInv;
    var v := SegmentReceived(c.rcv, seg);
    var sent := Provoked(c, seg);
    answers := StampedAll(v, sent);
    V.ReceivePushes(c.rcv, seg);
    StampedReports(v, sent);
    if AllOccupy(sent) {
      StampedOccupy(v, sent);
    }
  }

  lemma StampedReports(v: Receiver, sent: seq<Segment>)
    requires v.syn
    ensures AllReport(v, StampedAll(v, sent))
    ensures forall i :: 0 <= i < |sent| ==> Length(StampedAll(v, sent)[i]) == Length(sent[i])
  {
    hide Wrap, HeaderWindow;
  }

  lemma StampedOccupy(v: Receiver, sent: seq<Segment>)
    requires AllOccupy(sent)
    ensures AllOccupy(StampedAll(v, sent))
  {
    hide Wrap, HeaderWindow, AbsAck;
    var all := StampedAll(v, sent);
    forall a | a in all ensures Length(a) > 0 {
      var i :| 0 <= i < |all| && all[i] == a;
      assert sent[i] in sent;
    }
  }

  /** Even before any SYN has come in: content without a SYN is not taken in, but it is answered. */
  lemma ContentBeforeSynIsAnswered(c: Connection, seg: Segment) returns (answers: seq<Segment>)
    requires CInv(c) && c.alive && !seg.header.rst && Length(seg) > 0
    requires !c.rcv.syn && !seg.header.syn
    ensures var c' := SegmentArrives(c, seg);
      && c'.out == c.out + answers && answers != [] && c'.rcv == c.rcv
  {
    hide SegmentArrives, SegmentReceived;
    var sent := Provoked(c, seg);
    answers := StampedAll(SegmentReceived(c.rcv, seg), sent);
    V.ReceivePushes(c.rcv, seg);
  }

  lemma NoKeepAlive(v: Receiver, seg: Segment)
    requires v.syn ==> seg.header.seqno != Wrap(AbsAck(v) - 1, v.isn)
    ensures !IsKeepAlive(v, seg)
  {
    hide Wrap;
    if v.syn {
      WrapBefore(AbsAck(v), v.isn);
    }
  }

  /** A segment without content provokes only segments that occupy sequence space, unless its number is the
      one before the acknowledgment number: acknowledgments do not answer acknowledgments. */
  lemma AckIsNotAnswered(c: Connection, seg: Segment) returns (answers: seq<Segment>)
    requires CInv(c) && c.alive && !seg.header.rst && Length(seg) == 0
    requires var v := SegmentReceived(c.rcv, seg); v.syn ==> seg.header.seqno != Wrap(AbsAck(v) - 1, v.isn)
    ensures SegmentArrives(c, seg).out == c.out + answers && AllOccupy(answers)
  {
    hide SegmentArrives, SegmentReceived, Wrap, IsKeepAlive, StampedAll, CInv;
    var v := SegmentReceived(c.rcv, seg);
    var sent := Provoked(c, seg);
    answers := StampedAll(v, sent);
    NoKeepAlive(v, seg);
    StampedOccupy(v, sent);
  }

  /** Once a SYN has come in, one has gone out. */
  ghost predicate Started(c: Connection) {
    c.rcv.syn ==> c.snd.next > 0
  }

  lemma StepStarts(c: Connection, op: Op)
    requires CInv(c) && Legal(c, op) && Started(c)
    ensures Started(Step(c, op))
  {
    hide CInv, SegmentArrives, TimePasses, Reading, Refilled, Connect, Reset;
    StepKeeps(c, op);
    SentStaysSent(c.snd, Step(c, op).snd);
    match op {
      case DoArrive(seg) =>
        if c.alive && !seg.header.rst {
          ArrivalStarts(c, seg);
        } else {
          OffStays(c, seg);
        }
      case _ => OnlySegmentsBringSyns(c, op);
    }
  }

  lemma SentStaysSent(s: Sender, s': Sender)
    requires SenderForward(s, s')
    ensures s.next <= s'.next
  {
  }

  lemma OffStays(c: Connection, seg: Segment)
    requires !c.alive || seg.header.rst
    ensures SegmentArrives(c, seg).rcv.syn == c.rcv.syn
  {
  }

  lemma OnlySegmentsBringSyns(c: Connection, op: Op)
    requires !op.DoArrive?
    ensures Step(c, op).rcv.syn == c.rcv.syn
  {
    hide FillWindow, Tick, Active, StampedAll;
  }

  lemma ArrivalStarts(c: Connection, seg: Segment)
    requires CInv(c) && c.alive && !seg.header.rst && Started(c)
    ensures Started(SegmentArrives(c, seg))
  {
    hide FillWindow, AckReceived, SegmentReceived, S.Inv, V.RInv, StampedAll, SummaryOfReceiver, SummaryOfSender,
         IsKeepAlive, EmptySegment;
    V.ReceivePushes(c.rcv, seg);
    var a := Absorbed(c, seg);
    if seg.header.ack {
      AckForward(c.snd, seg.header.ackno, seg.header.win);
      ForwardInv(c.snd, a.snd);
      SentStaysSent(c.snd, a.snd);
    }
    FillForward(a.snd);
    SentStaysSent(a.snd, FillWindow(a.snd));
    if a.snd.next == 0 {
      FirstFillSends(a.snd);
    }
  }

  lemma {:induction false} RunStarts(c: Connection, ops: seq<Op>)
    requires CInv(c) && AllLegal(c, ops) && Started(c)
    ensures Started(Run(c, ops))
    decreases |ops|
  {
    hide CInv, Step, Legal, SenderForward, ReceiverForward, Started;
    if ops == [] {
    } else {
      StepKeeps(c, ops[0]);
      StepStarts(c, ops[0]);
      RunStarts(Step(c, ops[0]), ops[1..]);
    }
  }

  /** A segment without content whose number is the one before the acknowledgment number asks whether the
      connection is still there, and is answered: with a segment without content at the end, and everything
      sent reports the acknowledgment number and window. */
  lemma KeepAliveIsAnswered(c: Connection, seg: Segment) returns (answers: seq<Segment>)
    requires CInv(c) && c.alive && !seg.header.rst && Length(seg) == 0 && Started(c)
    requires var v := SegmentReceived(c.rcv, seg); v.syn && seg.header.seqno == Wrap(AbsAck(v) - 1, v.isn)
    ensures var c' := SegmentArrives(c, seg);
      && c'.out == c.out + answers && AllReport(c'.rcv, answers)
      && answers != [] && Length(answers[|answers| - 1]) == 0
  {
    hide FillWindow, AckReceived, S.Inv, V.RInv, SegmentReceived, StampedAll, SummaryOfReceiver, SegmentArrives, Wrap;
    ArriveHandsOver(c, seg);
    V.ReceivePushes(c.rcv, seg);
    var a := Absorbed(c, seg);
    WrapBefore(AbsAck(a.rcv), a.rcv.isn);
    if seg.header.ack {
      AckForward(c.snd, seg.header.ackno, seg.header.win);
      SentStaysSent(c.snd, a.snd);
    }
    var sent := Queued(a, seg);
    assert sent == a.snd.out + [EmptySegment(a.snd)];
    answers := StampedAll(a.rcv, sent);
  }

  /** So on every run: a segment without content is answered with one if and only if its number is the one
      before the acknowledgment number. */
  lemma BareAnswerIff(rt: u16, recvCapacity: nat, sendCapacity: nat, isn: u32, ops: seq<Op>, seg: Segment)
    returns (answers: seq<Segment>)
    requires AllLegal(NewConnection(rt, recvCapacity, sendCapacity, isn), ops)
    requires Run(NewConnection(rt, recvCapacity, sendCapacity, isn), ops).alive && !seg.header.rst && Length(seg) == 0
    ensures var c := Run(NewConnection(rt, recvCapacity, sendCapacity, isn), ops);
            var c' := SegmentArrives(c, seg);
      && c'.out == c.out + answers
      && ((exists a :: a in answers && Length(a) == 0)
          <==> c'.rcv.syn && seg.header.seqno == Wrap(AbsAck(c'.rcv) - 1, c'.rcv.isn))
  {
    hide Run, AllLegal, CInv, NewConnection, SegmentArrives, SegmentReceived, Wrap;
    var c0 := NewConnection(rt, recvCapacity, sendCapacity, isn);
    StartOk(rt, recvCapacity, sendCapacity, isn);
    NoSynYet(rt, recvCapacity, sendCapacity, isn);
    RunKeeps(c0, ops);
    RunStarts(c0, ops);
    var c := Run(c0, ops);
    var v := SegmentReceived(c.rcv, seg);
    ArriveTakesIn(c, seg);
    if v.syn && seg.header.seqno == Wrap(AbsAck(v) - 1, v.isn) {
      answers := KeepAliveIsAnswered(c, seg);
      assert answers[|answers| - 1] in answers;
    } else {
      answers := AckIsNotAnswered(c, seg);
    }
  }

  lemma NoSynYet(rt: u16, recvCapacity: nat, sendCapacity: nat, isn: u32)
    ensures Started(NewConnection(rt, recvCapacity, sendCapacity, isn))
  {
  }

  lemma ArriveTakesIn(c: Connection, seg: Segment)
    requires CInv(c) && c.alive && !seg.header.rst
    ensures SegmentArrives(c, seg).rcv == SegmentReceived(c.rcv, seg)
  {
    hide CInv, SegmentArrives, SegmentReceived;
    ArriveHandsOver(c, seg);
  }
}
