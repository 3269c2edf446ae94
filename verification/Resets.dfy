/** When a connection resets its peer, and what a reset does. */
module Resets {
  import opened Words
  import opened WrappingIntegers
  import opened ByteStreams
  import opened Segments
  import opened Sending
  import opened Receiving
  import opened Connections
  import S = SenderLaws
  import opened ConnectionLaws
  import opened Timing
  import P = Pairs

  // ---- what is sent ----

  ghost predicate NoRst(segs: seq<Segment>) {
    forall seg :: seg in segs ==> !seg.header.rst
  }

  /** The call takes an alive connection past eight timeouts in a row, or destroys an active one. */
  predicate GivesUp(c: Connection, op: Op) {
    match op
    case DoTick(ms) => c.alive && (c.snd.retx + Flag(Expires(c.snd, ms))) % TWO32 > 8
    case DoDestroy => Active(c)
    case _ => false
  }

  /** Nothing the sender keeps or queues is a reset. */
  ghost predicate Mild(c: Connection) {
    P.Plain(c.snd.out) && P.Plain(c.snd.outstanding)
  }

  lemma StampedMild(v: Receiver, queue: seq<Segment>)
    requires P.Plain(queue)
    ensures NoRst(StampedAll(v, queue))
  {
    hide HeaderWindow, Ackno;
    var all := StampedAll(v, queue);
    forall seg | seg in all ensures !seg.header.rst {
      var i :| 0 <= i < |all| && all[i] == seg;
      assert queue[i] in queue;
    }
  }

  /** Handing over what is queued. */
  lemma FlushMild(c: Connection)
    requires Mild(c)
    ensures Mild(Flushed(c)) && Flushed(c).out == c.out + StampedAll(c.rcv, c.snd.out)
    ensures NoRst(StampedAll(c.rcv, c.snd.out))
  {
    StampedMild(c.rcv, c.snd.out);
  }

  lemma RefillSends(c: Connection, stream: Stream) returns (sent: seq<Segment>)
    requires Mild(c)
    ensures Mild(Refilled(c, stream)) && Refilled(c, stream).out == c.out + sent && NoRst(sent)
  {
    hide FillWindow, P.Plain, StampedAll;
    P.FillPlain(c.snd.(stream := stream));
    var filled := c.(snd := FillWindow(c.snd.(stream := stream)));
    FlushMild(filled);
    sent := StampedAll(filled.rcv, filled.snd.out);
  }

  lemma ReplyMild(c: Connection, seg: Segment)
    requires Mild(c)
    ensures Mild(Replied(c, seg))
  {
    hide FillWindow, IsKeepAlive, Wrap;
    P.FillPlain(c.snd);
  }

  lemma ArriveSendsMild(c: Connection, seg: Segment) returns (sent: seq<Segment>)
    requires Mild(c)
    ensures Mild(SegmentArrives(c, seg)) && SegmentArrives(c, seg).out == c.out + sent && NoRst(sent)
  {
    hide FillWindow, AckReceived, SegmentReceived, StampedAll, P.Plain, Replied, SummaryOfReceiver, SummaryOfSender;
    sent := [];
    if !c.alive || seg.header.rst {
      NoRstNone();
    } else {
      if seg.header.ack {
        P.AckPlain(c.snd, seg.header.ackno, seg.header.win);
      }
      var a := Absorbed(c, seg);
      P.FillPlain(a.snd);
      var passive := SummaryOfReceiver(a.rcv) == FinRecv && SummaryOfSender(a.snd) == SynAcked;
      var l := a.(linger := a.linger && !passive);
      ReplyMild(l, seg);
      P.ReplyFrame(l, seg);
      var last := if SummaryOfReceiver(a.rcv) == SynRecv && a.snd.next == 0
                  then a.(snd := FillWindow(a.snd), alive := true) else Replied(l, seg);
      FlushMild(last);
      sent := StampedAll(last.rcv, last.snd.out);
    }
  }

  lemma NoRstNone()
    ensures NoRst([])
  {
  }

  /** A reset as it is sent: the RST flag, the next number, and nothing else. */
  predicate IsReset(c: Connection, seg: Segment) {
    seg.header.rst && seg.header.seqno == Wrap(c.snd.next, c.snd.isn) && Length(seg) == 0
  }

  lemma TimeSends(c: Connection, ms: nat) returns (sent: seq<Segment>)
    requires Mild(c)
    ensures Mild(TimePasses(c, ms)) && TimePasses(c, ms).out == c.out + sent
    ensures if GivesUp(c, DoTick(ms)) then |sent| == 1 && IsReset(c, sent[0]) else NoRst(sent)
  {
    hide StampedAll, Active, Wrap;
    sent := [];
    NoRstNone();
    if c.alive {
      var c1 := c.(idle := c.idle + ms, snd := Tick(c.snd, ms));
      TickMild(c, ms);
      if GivesUp(c, DoTick(ms)) {
        sent := [Segment(DEFAULT_HEADER.(rst := true, seqno := Wrap(c.snd.next, c.snd.isn)), [])];
      } else {
        FlushMild(c1);
        sent := StampedAll(c1.rcv, c1.snd.out);
      }
    }
  }

  lemma TickMild(c: Connection, ms: nat)
    requires Mild(c)
    ensures Mild(c.(idle := c.idle + ms, snd := Tick(c.snd, ms)))
    ensures Tick(c.snd, ms).next == c.snd.next && Tick(c.snd, ms).isn == c.snd.isn
  {
  }

  /** What one call hands over: exactly one reset if it gives the connection up, and otherwise none. */
  lemma StepSends(c: Connection, op: Op) returns (sent: seq<Segment>)
    requires Mild(c)
    ensures Mild(Step(c, op)) && Step(c, op).out == c.out + sent
    ensures if GivesUp(c, op) then |sent| == 1 && IsReset(c, sent[0]) else NoRst(sent)
  {
    hide Mild, Refilled, SegmentArrives, TimePasses, Connect, Active, Wrap;
    sent := [];
    NoRstNone();
    match op
    case DoConnect =>
      ConnectIsRefill(c);
      sent := RefillSends(c, c.snd.stream);
      AliveMild(Refilled(c, c.snd.stream));
    case DoWrite(data) => sent := RefillSends(c, WriteTo(c.snd.stream, data));
    case DoEndInput => sent := RefillSends(c, EndedInput(c.snd.stream));
    case DoRead(_) => SameMild(c, Step(c, op));
    case DoArrive(seg) => sent := ArriveSendsMild(c, seg);
    case DoTick(ms) => sent := TimeSends(c, ms);
    case DoDestroy =>
      SameMild(c, Step(c, op));
      if Active(c) {
        sent := [Segment(DEFAULT_HEADER.(rst := true, seqno := Wrap(c.snd.next, c.snd.isn)), [])];
      }
  }

  lemma AliveMild(c: Connection)
    requires Mild(c)
    ensures Mild(c.(alive := true))
  {
  }

  lemma SameMild(c: Connection, c': Connection)
    requires Mild(c) && c'.snd.out == c.snd.out && c'.snd.outstanding == c.snd.outstanding
    ensures Mild(c')
  {
  }

  // ---- whole runs ----

  /** How many of the segments are resets. */
  function Resets(segs: seq<Segment>): nat {
    if segs == [] then 0 else Flag(segs[0].header.rst) + Resets(segs[1..])
  }

  /** How many calls of a run give the connection up. */
  function TimesGivenUp(c: Connection, ops: seq<Op>): nat
    decreases |ops|
  {
    if ops == [] then 0 else Flag(GivesUp(c, ops[0])) + TimesGivenUp(Step(c, ops[0]), ops[1..])
  }

  lemma {:induction false} ResetsConcat(a: seq<Segment>, b: seq<Segment>)
    ensures Resets(a + b) == Resets(a) + Resets(b)
    decreases |a|
  {
    if a == [] {
      assert a + b == b;
    } else {
      ResetsConcat(a[1..], b);
      assert (a + b)[1..] == a[1..] + b;
    }
  }

  lemma {:induction false} NoneAreResets(segs: seq<Segment>)
    requires NoRst(segs)
    ensures Resets(segs) == 0
    decreases |segs|
  {
    if segs == [] {
    } else {
      assert segs[0] in segs;
      assert forall seg :: seg in segs[1..] ==> seg in segs;
      NoneAreResets(segs[1..]);
    }
  }

  lemma OneReset(seg: Segment)
    requires seg.header.rst
    ensures Resets([seg]) == 1
  {
    assert [seg][1..] == [];
  }

  lemma {:induction false} RunResets(c: Connection, ops: seq<Op>)
    requires Mild(c)
    ensures Mild(Run(c, ops)) && Resets(Run(c, ops).out) == Resets(c.out) + TimesGivenUp(c, ops)
    decreases |ops|
  {
    hide Mild, Step, GivesUp, Resets, NoRst;
    if ops == [] {
    } else {
      var sent := StepSends(c, ops[0]);
      ResetsConcat(c.out, sent);
      if GivesUp(c, ops[0]) {
        assert sent == [sent[0]];
        OneReset(sent[0]);
      } else {
        NoneAreResets(sent);
      }
      RunResets(Step(c, ops[0]), ops[1..]);
    }
  }

  /** Over every run, as many resets are sent as there are calls that take an alive connection past eight
      timeouts in a row or destroy an active one. Such a call sends nothing else and kills the connection;
      and the reset, arriving at any alive connection, kills that one and makes it send nothing. */
  lemma ResetsAreSent(rt: u16, recvCapacity: nat, sendCapacity: nat, isn: u32, ops: seq<Op>, op: Op, peer: Connection)
    returns (reset: Segment)
    ensures var c := Run(NewConnection(rt, recvCapacity, sendCapacity, isn), ops);
            var c', peer' := Step(c, op), SegmentArrives(peer, reset);
      && Resets(c.out) == TimesGivenUp(NewConnection(rt, recvCapacity, sendCapacity, isn), ops)
      && (GivesUp(c, op) ==>
            && c'.out == c.out + [reset] && reset.header.rst && reset.header.seqno == Wrap(c.snd.next, c.snd.isn)
            && Length(reset) == 0 && !c'.alive && c'.snd.stream.error && c'.rcv.re.out.error
            && (peer.alive ==>
                  && !peer'.alive && peer'.snd.stream.error && peer'.rcv.re.out.error
                  && peer'.out == peer.out && peer'.snd.out == peer.snd.out))
  {
    hide Run, TimesGivenUp, Step, GivesUp, Mild, Resets, NewConnection, Wrap;
    var c0 := NewConnection(rt, recvCapacity, sendCapacity, isn);
    NewIsMild(rt, recvCapacity, sendCapacity, isn);
    RunResets(c0, ops);
    var c := Run(c0, ops);
    var sent := StepSends(c, op);
    if GivesUp(c, op) {
      reset := sent[0];
      assert sent == [reset];
      GivingUpKills(c, op);
      ResetKills(peer, reset);
    } else {
      reset := Segment(DEFAULT_HEADER, []);
    }
  }

  lemma NewIsMild(rt: u16, recvCapacity: nat, sendCapacity: nat, isn: u32)
    ensures Mild(NewConnection(rt, recvCapacity, sendCapacity, isn))
    ensures Resets(NewConnection(rt, recvCapacity, sendCapacity, isn).out) == 0
  {
  }

  lemma GivingUpKills(c: Connection, op: Op)
    requires GivesUp(c, op)
    ensures !Step(c, op).alive && Step(c, op).snd.stream.error && Step(c, op).rcv.re.out.error
  {
    hide Active, StampedAll;
  }

  /** A reset kills whatever alive connection it arrives at, silently. */
  lemma ResetKills(c: Connection, seg: Segment)
    requires seg.header.rst
    ensures var c' := SegmentArrives(c, seg);
      && !c'.alive && (c.alive ==> c'.snd.stream.error && c'.rcv.re.out.error)
      && c'.out == c.out && c'.snd.out == c.snd.out
  {
  }

  /** Between two connections: the reset of the one that gives up can be delivered to the other, and then
      both are dead. */
  lemma PeerIsTold(p: P.Pair, op: Op) returns (packet: P.Packet)
    requires P.PInv(p) && GivesUp(p.left, op)
    requires |p.left.snd.stream.log| + 2 < TWO31 && |p.right.snd.stream.log| + 2 < TWO31
    ensures var told := P.Move(false, P.Get(packet));
            var p' := P.Apply(p, P.Move(true, P.Call(op)));
      && P.Possible(p, [P.Move(true, P.Call(op)), told]) && !p'.left.alive
      && var q := P.Apply(p', told).right; !q.alive && (p.right.alive ==> q.snd.stream.error && q.rcv.re.out.error)
  {
    hide P.PInv, Step, SegmentArrives, GivesUp, Mild, AbsStart;
    CallOnly(p, op);
    var c', p' := Step(p.left, op), P.Apply(p, P.Move(true, P.Call(op)));
    P.CallKeeps(p, op);
    PairMild(p);
    var sent := StepSends(p.left, op);
    GivingUpKills(p.left, op);
    assert sent[0] in c'.out;
    packet := P.Packet(AbsStart(sent[0], c'.snd.isn, c'.snd.next), AbsAck(c'.rcv), sent[0]);
    P.AlwaysNear(p');
    ResetKills(p.right, sent[0]);
    var told := P.Move(false, P.Get(packet));
    TwoMoves(p, P.Move(true, P.Call(op)), told);
  }

  lemma TwoMoves(p: P.Pair, a: P.Move, b: P.Move)
    ensures P.Possible(p, [a, b]) <==> P.Enabled(p, a) && P.Enabled(P.Apply(p, a), b)
  {
    hide P.Enabled, P.Apply;
    assert [a, b][1..] == [b] && [b][1..] == [];
    assert P.Possible(P.Apply(P.Apply(p, a), b), []);
    assert P.Possible(P.Apply(p, a), [b]) <==> P.Enabled(P.Apply(p, a), b);
  }

  lemma CallOnly(p: P.Pair, op: Op)
    requires GivesUp(p.left, op)
    ensures !op.DoArrive? && Legal(p.left, op) && |Step(p.left, op).snd.stream.log| == |p.left.snd.stream.log|
  {
    hide StampedAll, Active;
  }

  lemma PairMild(p: P.Pair)
    requires P.PInv(p)
    ensures Mild(p.left) && p.left.out == []
  {
    hide CInv, P.Flows, P.Emittable, S.Inv;
  }
}
