/** Two connections do not keep acknowledging each other's acknowledgments. */
module PairReplies {
  import opened Words
  import opened WrappingIntegers
  import opened Segments
  import opened Sending
  import opened Receiving
  import opened Connections
  import S = SenderLaws
  import V = ReceiverLaws
  import E = EndToEnd
  import C = ConnectionLaws
  import opened Replies
  import opened Pairs
  import opened PairBoundaries

  ghost predicate BothStarted(p: Pair) {
    Started(p.left) && Started(p.right)
  }

  lemma MoveStarts(p: Pair, m: Move)
    requires PInv(p) && Enabled(p, m) && BothStarted(p)
    ensures BothStarted(Apply(p, m))
  {
    hide C.Step, SegmentArrives, Packets, Own, Flows;
    var q := if m.onLeft then p else Flip(p);
    var op := if m.action.Call? then m.action.op else C.DoArrive(m.action.packet.seg);
    InvariantOf(q);
    StepIsArrival(q.left, op);
    StepStarts(q.left, op);
  }

  lemma InvariantOf(p: Pair)
    requires PInv(p) || PInv(Flip(p))
    ensures C.CInv(p.left) && C.CInv(p.right)
  {
    hide C.CInv, Ready, Flows;
  }

  lemma {:induction false} RunStartsBoth(p: Pair, moves: seq<Move>)
    requires PInv(p) && Possible(p, moves) && BothStarted(p)
    ensures BothStarted(Run(p, moves))
    decreases |moves|
  {
    hide PInv, Apply, Enabled, BothStarted;
    if moves == [] {
    } else {
      MoveKeeps(p, moves[0]);
      MoveStarts(p, moves[0]);
      RunStartsBoth(Apply(p, moves[0]), moves[1..]);
    }
  }

  /** Where a segment without content finds the receiver, in numbers. */
  lemma BareFacts(p: Pair, packet: Packet)
    requires PInv(p) && |p.right.snd.stream.log| + 2 < TWO31 && packet in p.fromRight && Length(packet.seg) == 0
    ensures var v := SegmentReceived(p.left.rcv, packet.seg);
      && packet.start < TWO31 && packet.seg.header.seqno == Wrap(packet.start, p.right.snd.isn)
      && AbsAck(p.left.rcv) <= AbsAck(v) <= p.right.snd.next < TWO31
      && (v.syn ==> v.isn == p.right.snd.isn && AbsAck(v) > 0)
  {
    hide SegmentReceived, Own, V.Fed, Ready, Wrap, S.Placed, E.SentSpace, V.RInv, S.Names;
    var v, s, seg := p.left.rcv, p.right.snd, packet.seg;
    InvParts(p);
    NearFrom(s, v, p.fromRight, p.fromLeft);
    ReadyInv(s);
    OnlyPlaced(s);
    E.SentSpaceSmall(s);
    NamesNumber(s, packet.start, seg);
    SentSyn(s, packet.start, seg);
    V.FedWritten(E.SentSpace(s), v);
    V.ReceiveFeeds(E.SentSpace(s), v, packet.start, seg);
    V.FedIsRInv(E.SentSpace(s), v);
    V.WindowNeverShrinks(v, seg);
    V.ReceivePushes(v, seg);
    AcknowledgesSent(s, SegmentReceived(v, seg));
  }

  lemma AcknowledgesSent(s: Sender, v: Receiver)
    requires S.Placed(s) && V.Fed(E.SentSpace(s), v) && (v.syn ==> s.next > 0)
    ensures AbsAck(v) <= s.next && (v.syn ==> v.isn == s.isn && AbsAck(v) > 0)
  {
    hide V.RInv;
    E.SentSpaceSmall(s);
    V.FedWritten(E.SentSpace(s), v);
    SpaceIsn(s);
  }

  /** A segment without content that the other end sent is answered with one if and only if it was sent at
      the number before the one acknowledged now. */
  lemma OldBareAnswerIff(p: Pair, packet: Packet) returns (answers: seq<Segment>)
    requires PInv(p) && BothStarted(p) && p.left.alive && |p.right.snd.stream.log| + 2 < TWO31
    requires packet in p.fromRight && Length(packet.seg) == 0 && !packet.seg.header.rst
    ensures var c' := SegmentArrives(p.left, packet.seg);
      && c'.out == answers
      && ((exists a :: a in answers && Length(a) == 0) <==> packet.start + 1 == AbsAck(c'.rcv))
      && AbsAck(p.left.rcv) <= AbsAck(c'.rcv) <= p.right.snd.next
  {
    hide SegmentArrives, SegmentReceived, PInv, Wrap, C.CInv;
    var c, seg := p.left, packet.seg;
    InvariantOf(p);
    OutEmpty(p);
    BareFacts(p, packet);
    ArriveTakesIn(c, seg);
    var v := SegmentReceived(c.rcv, seg);
    if v.syn {
      WrapInjective(packet.start, AbsAck(v) - 1, v.isn);
    }
    if v.syn && seg.header.seqno == Wrap(AbsAck(v) - 1, v.isn) {
      answers := KeepAliveIsAnswered(c, seg);
      assert answers[|answers| - 1] in answers;
    } else {
      answers := AckIsNotAnswered(c, seg);
    }
  }

  lemma OutEmpty(p: Pair)
    requires PInv(p)
    ensures p.left.out == []
  {
    hide C.CInv, Ready, Flows;
  }

  /** On every run: when one end has taken in everything the other has sent, no acknowledgment that the other
      sends from there provokes another. */
  lemma AcknowledgmentsEnd(a: Setup, b: Setup, moves: seq<Move>, packet: Packet) returns (answers: seq<Segment>)
    requires Possible(Pair(New(a), New(b), {}, {}), moves)
    requires var p := Run(Pair(New(a), New(b), {}, {}), moves);
      && p.left.alive && |p.right.snd.stream.log| + 2 < TWO31
      && packet in p.fromRight && Length(packet.seg) == 0 && !packet.seg.header.rst
      && AbsAck(p.left.rcv) == p.right.snd.next == packet.start
    ensures var p := Run(Pair(New(a), New(b), {}, {}), moves);
            SegmentArrives(p.left, packet.seg).out == answers && forall s :: s in answers ==> Length(s) > 0
  {
    hide Run, Possible, PInv, SegmentArrives, New;
    var p0 := Pair(New(a), New(b), {}, {});
    StartOk(a, b);
    NewStarts(a);
    NewStarts(b);
    RunKeeps(p0, moves);
    RunStartsBoth(p0, moves);
    answers := OldBareAnswerIff(Run(p0, moves), packet);
  }

  lemma NewStarts(e: Setup)
    ensures Started(New(e))
  {
  }
}
