/** What a connection promises over whole runs: how it closes, how it times out, how it answers. */
module ConnectionLaws {
  import opened Words
  import opened WrappingIntegers
  import opened ByteStreams
  import opened Segments
  import opened Sending
  import opened Receiving
  import opened Connections
  import S = SenderLaws
  import V = ReceiverLaws

  datatype Op =
    | DoConnect
    | DoWrite(data: Bytes)
    | DoEndInput
    | DoRead(len: nat)
    | DoArrive(seg: Segment)
    | DoTick(ms: nat)
    | DoDestroy

  function Step(c: Connection, op: Op): Connection {
    match op
    case DoConnect => Connect(c)
    case DoWrite(data) => WriteBytes(c, data)
    case DoEndInput => EndInputStream(c)
    case DoRead(len) => c.(rcv := Reading(c.rcv, len))
    case DoArrive(seg) => SegmentArrives(c, seg)
    case DoTick(ms) => TimePasses(c, ms)
    case DoDestroy => Destroyed(c)
  }

  /** A stream stays short enough for its sequence space to fit 64 bits; anything else may be called at
      any time. */
  predicate Legal(c: Connection, op: Op) {
    op.DoWrite? ==> |c.snd.stream.log| + |op.data| + 2 < TWO64
  }

  function Run(c: Connection, ops: seq<Op>): Connection
    decreases |ops|
  {
    if ops == [] then c else Run(Step(c, ops[0]), ops[1..])
  }

  predicate AllLegal(c: Connection, ops: seq<Op>)
    decreases |ops|
  {
    ops == [] || (Legal(c, ops[0]) && AllLegal(Step(c, ops[0]), ops[1..]))
  }

  // ---- forward only ----

  /** The sender never goes back: what is sent, acknowledged or ended stays so. */
  ghost predicate SenderForward(s: Sender, s': Sender) {
    && S.Inv(s') && s'.initialRto == s.initialRto
    && S.Grows(S.SpaceOf(s), S.SpaceOf(s'))
    && s.next <= s'.next && s.lastAck <= s'.lastAck
    && (s.finSent ==> s'.finSent && s'.next == s.next && s'.stream.log == s.stream.log)
    && (!s.finSent && s'.finSent ==> s'.next > s.next)
    && (s.stream.error ==> s'.stream.error)
  }

  /** The receiver never goes back, and never withdraws window it has offered. */
  ghost predicate ReceiverForward(v: Receiver, v': Receiver) {
    && V.RInv(v') && (v.syn ==> v'.syn) && (v.re.out.ended ==> v'.re.out.ended) && (v.re.out.error ==> v'.re.out.error)
    && AbsAck(v) <= AbsAck(v') && AbsAck(v) + HeaderWindow(v) <= AbsAck(v') + HeaderWindow(v')
    && v.re.out.log <= v'.re.out.log
  }

  /** A sender's place in its space says whether its FIN is out. */
  lemma FinSentIff(s: Sender)
    requires S.Inv(s)
    ensures s.finSent <==> s.next == |s.stream.log| + 2
    ensures s.finSent ==> Eof(s.stream) && s.stream.ended
    ensures 0 <= InFlight(s) && 0 <= s.lastAck <= s.next
  {
  }

  lemma FillForward(s: Sender)
    requires S.Inv(s)
    ensures SenderForward(s, FillWindow(s)) && FillWindow(s).lastAck == s.lastAck
    ensures FillWindow(s).stream.error == s.stream.error
    ensures FillWindow(s).rto == s.rto && FillWindow(s).retx == s.retx
    ensures FillWindow(s).elapsed == s.elapsed || FillWindow(s).elapsed == 0
  {
    hide FillLoop, S.Tiles, S.Span, S.Names;
    var sent := S.FillKeeps(s);
    FinSentIff(s);
    FinSentIff(FillWindow(s));
  }

  lemma AckForward(s: Sender, ackno: u32, window: u16)
    requires S.Inv(s)
    ensures SenderForward(s, AckReceived(s, ackno, window))
    ensures AckReceived(s, ackno, window).stream.error == s.stream.error
  {
    hide FillWindow, Unwrap, S.Tiles, S.Span, S.Names, PopAcked;
    var s' := AckReceived(s, ackno, window);
    FinSentIff(s);
    var sent := S.AckKeeps(s, ackno, window);
    FinSentIff(s');
    S.AckFrame(s, ackno, window);
  }

  lemma StreamForward(s: Sender, stream: Stream)
    requires S.Inv(s) && S.Grows(S.SpaceOf(s), S.SpaceOf(s.(stream := stream))) && stream.read == s.stream.read
    requires |stream.log| + 2 < TWO64 && (s.stream.error ==> stream.error)
    ensures SenderForward(s, s.(stream := stream))
  {
    hide S.Tiles, S.Span, S.Names;
    S.StreamGrows(s, stream);
    FinSentIff(s);
  }

  lemma ForwardTwice(s: Sender, s': Sender, s'': Sender)
    requires SenderForward(s, s') && SenderForward(s', s'')
    ensures SenderForward(s, s'')
  {
    hide S.Inv;
  }

  /** Queues do not matter to a sender's structure. */
  lemma OutForward(s: Sender, out: seq<Segment>)
    requires S.Inv(s)
    ensures SenderForward(s, s.(out := out))
  {
  }

  lemma TickForward(s: Sender, ms: nat)
    requires S.Inv(s)
    ensures SenderForward(s, Tick(s, ms))
  {
    S.TickKeeps(s, ms);
  }

  // ---- the invariant ----

  /** The structure of a connection between operations. While it is alive nothing is queued at the
      sender; both halves fail together; and it stopped being alive only by a failure or by a clean
      close. */
  ghost predicate CInv(c: Connection) {
    && S.Inv(c.snd) && V.RInv(c.rcv) && c.snd.initialRto == c.rt
    && (c.alive ==> c.snd.out == [])
    && (c.snd.stream.error <==> c.rcv.re.out.error)
    && (!c.alive && !c.snd.stream.error ==> StreamsClosed(c) && (!c.linger || c.idle >= 10 * c.rt))
  }

  /** A step that only moved the two halves forward, without closing a stream, keeps the invariant. */
  lemma ClosedStays(c: Connection, c': Connection)
    requires S.Inv(c.snd) && SenderForward(c.snd, c'.snd) && ReceiverForward(c.rcv, c'.rcv)
    ensures StreamsClosed(c) ==> StreamsClosed(c')
    ensures c.snd.lastAck == c'.snd.lastAck && c.rcv.re.out.ended == c'.rcv.re.out.ended && StreamsClosed(c')
            ==> StreamsClosed(c)
  {
    hide S.Shape;
    FinSentIff(c.snd);
    FinSentIff(c'.snd);
  }

  lemma SameReceiver(v: Receiver)
    requires V.RInv(v)
    ensures ReceiverForward(v, v)
  {
  }

  lemma FlushedIs(c: Connection)
    ensures var f := Flushed(c);
      && f == c.(out := f.out, snd := c.snd.(out := [])) && c.out <= f.out
  {
  }

  lemma RefilledForward(c: Connection, stream: Stream)
    requires CInv(c) && S.Grows(S.SpaceOf(c.snd), S.SpaceOf(c.snd.(stream := stream)))
    requires stream.read == c.snd.stream.read && stream.error == c.snd.stream.error && |stream.log| + 2 < TWO64
    ensures CInv(Refilled(c, stream)) && SenderForward(c.snd, Refilled(c, stream).snd)
    ensures Refilled(c, stream).rcv == c.rcv && Refilled(c, stream).linger == c.linger
    ensures Refilled(c, stream).alive == c.alive && Refilled(c, stream).idle == c.idle
    ensures Refilled(c, stream).snd.lastAck == c.snd.lastAck
  {
    hide FillWindow, S.Inv, Flushed, V.RInv, S.Grows;
    var s1 := c.snd.(stream := stream);
    StreamForward(c.snd, stream);
    FillForward(s1);
    var s2 := FillWindow(s1);
    ForwardTwice(c.snd, s1, s2);
    OutForward(s2, []);
    ForwardTwice(c.snd, s2, s2.(out := []));
    FlushedIs(c.(snd := s2));
    SameReceiver(c.rcv);
    ClosedStays(c, Refilled(c, stream));
  }

  lemma ArriveReceiver(v: Receiver, seg: Segment)
    requires V.RInv(v)
    ensures ReceiverForward(v, SegmentReceived(v, seg)) && SegmentReceived(v, seg).re.out.error == v.re.out.error
  {
    hide SegmentReceived, V.RInv;
    V.WindowNeverShrinks(v, seg);
    V.ReceivePushes(v, seg);
  }

  lemma AbsorbedForward(c: Connection, seg: Segment)
    requires CInv(c)
    ensures var a := Absorbed(c, seg);
      && SenderForward(c.snd, a.snd) && ReceiverForward(c.rcv, a.rcv)
      && a == c.(idle := 0, rcv := a.rcv, snd := a.snd) && a.rcv == SegmentReceived(c.rcv, seg)
      && a.snd.stream.error == c.snd.stream.error && a.rcv.re.out.error == c.rcv.re.out.error
  {
    hide SegmentReceived, AckReceived, V.RInv, S.Inv;
    ArriveReceiver(c.rcv, seg);
    OutForward(c.snd, c.snd.out);
    if seg.header.ack {
      AckForward(c.snd, seg.header.ackno, seg.header.win);
    }
  }

  lemma RepliedForward(c: Connection, seg: Segment)
    requires S.Inv(c.snd)
    ensures var r := Replied(c, seg);
      && SenderForward(c.snd, r.snd) && r == c.(snd := r.snd) && r.snd.stream.error == c.snd.stream.error
  {
    hide FillWindow, S.Inv, EmptySegment, IsKeepAlive;
    FillForward(c.snd);
    OutForward(c.snd, c.snd.out);
    var s1 := if Length(seg) > 0 then FillWindow(c.snd) else c.snd;
    var s2 := if Length(seg) > 0 && s1.out == [] then SendEmpty(s1) else s1;
    OutForward(s1, s2.out);
    ForwardTwice(c.snd, s1, s2);
    OutForward(s2, SendEmpty(s2).out);
    ForwardTwice(c.snd, s2, SendEmpty(s2));
  }

  /** Where a segment leaves an alive connection that it does not reset. */
  lemma ArriveShape(c: Connection, seg: Segment)
    requires CInv(c) && c.alive && !seg.header.rst
    ensures var c' := SegmentArrives(c, seg);
      && SenderForward(c.snd, c'.snd) && ReceiverForward(c.rcv, c'.rcv)
      && c'.snd.out == [] && c'.alive && c'.idle == 0 && (c'.linger ==> c.linger) && c'.rt == c.rt
      && c'.snd.stream.error == c.snd.stream.error && c'.rcv.re.out.error == c.rcv.re.out.error
      && c'.rcv == SegmentReceived(c.rcv, seg)
      && (c.linger && !c'.linger ==>
            SummaryOfReceiver(c'.rcv) == FinRecv && SummaryOfSender(Absorbed(c, seg).snd) == SynAcked)
  {
    hide FillWindow, S.Inv, V.RInv, Absorbed, Replied, Flushed, SenderForward, ReceiverForward, SummaryOfSender,
         SegmentReceived;
    var a := Absorbed(c, seg);
    AbsorbedForward(c, seg);
    assert S.Inv(a.snd) by { ForwardInv(c.snd, a.snd); }
    if SummaryOfReceiver(a.rcv) == SynRecv && a.snd.next == 0 {
      FillForward(a.snd);
      var f := FillWindow(a.snd);
      ForwardTwice(c.snd, a.snd, f);
      ForwardInv(c.snd, f);
      OutForward(f, []);
      ForwardTwice(c.snd, f, f.(out := []));
      FlushedIs(a.(snd := f, alive := true));
    } else {
      var passive := SummaryOfReceiver(a.rcv) == FinRecv && SummaryOfSender(a.snd) == SynAcked;
      var l := a.(linger := a.linger && !passive);
      RepliedForward(l, seg);
      var r := Replied(l, seg);
      ForwardTwice(c.snd, a.snd, r.snd);
      ForwardInv(c.snd, r.snd);
      OutForward(r.snd, []);
      ForwardTwice(c.snd, r.snd, r.snd.(out := []));
      FlushedIs(r);
    }
  }

  lemma ForwardInv(s: Sender, s': Sender)
    requires SenderForward(s, s')
    ensures S.Inv(s') && s'.initialRto == s.initialRto
  {
  }

  lemma ResetForward(c: Connection, sendRst: bool)
    requires S.Inv(c.snd) && V.RInv(c.rcv)
    ensures var r := Reset(c, sendRst);
      && SenderForward(c.snd, r.snd) && ReceiverForward(c.rcv, r.rcv) && !r.alive
      && r.snd.stream.error && r.rcv.re.out.error && r.linger == c.linger && r.rt == c.rt && r.idle == c.idle
  {
    hide S.Tiles, S.Span, S.Names;
    S.NumbersFit(c.snd);
    StreamForward(c.snd, Errored(c.snd.stream));
  }

  lemma ArriveKeeps(c: Connection, seg: Segment)
    requires CInv(c)
    ensures var c' := SegmentArrives(c, seg);
            CInv(c') && SenderForward(c.snd, c'.snd) && ReceiverForward(c.rcv, c'.rcv)
  {
    hide S.Inv, V.RInv, SenderForward, ReceiverForward;
    if !c.alive {
      OutForward(c.snd, c.snd.out);
      SameReceiver(c.rcv);
    } else if seg.header.rst {
      ResetForward(c.(idle := 0), false);
      ForwardInv(c.snd, SegmentArrives(c, seg).snd);
      ForwardInv'(c.rcv, SegmentArrives(c, seg).rcv);
    } else {
      hide SegmentArrives;
      ArriveShape(c, seg);
      ForwardInv(c.snd, SegmentArrives(c, seg).snd);
      ForwardInv'(c.rcv, SegmentArrives(c, seg).rcv);
    }
  }

  lemma ForwardInv'(v: Receiver, v': Receiver)
    requires ReceiverForward(v, v')
    ensures V.RInv(v')
  {
  }

  lemma TimeKeeps(c: Connection, ms: nat)
    requires CInv(c)
    ensures var c' := TimePasses(c, ms);
      && CInv(c') && SenderForward(c.snd, c'.snd) && ReceiverForward(c.rcv, c'.rcv) && c'.linger == c.linger
  {
    hide S.Inv, V.RInv, SenderForward, ReceiverForward, Flushed, Tick;
    SameReceiver(c.rcv);
    if !c.alive {
      OutForward(c.snd, c.snd.out);
    } else {
      var c1 := c.(idle := c.idle + ms, snd := Tick(c.snd, ms));
      TickForward(c.snd, ms);
      ForwardInv(c.snd, c1.snd);
      if c1.snd.retx > MAX_RETX_ATTEMPTS {
        ResetForward(c1, true);
        ForwardTwice(c.snd, c1.snd, Reset(c1, true).snd);
        ForwardInv(c.snd, Reset(c1, true).snd);
        ForwardInv'(c.rcv, Reset(c1, true).rcv);
      } else {
        TickError(c.snd, ms);
        OutForward(c1.snd, []);
        ForwardTwice(c.snd, c1.snd, c1.snd.(out := []));
        ForwardInv(c.snd, c1.snd.(out := []));
        FlushedIs(c1);
        TickCloses(c, ms);
      }
    }
  }

  lemma TickError(s: Sender, ms: nat)
    ensures Tick(s, ms).stream == s.stream && Tick(s, ms).next == s.next && Tick(s, ms).lastAck == s.lastAck
  {
  }

  lemma TickCloses(c: Connection, ms: nat)
    ensures StreamsClosed(c.(snd := Tick(c.snd, ms))) == StreamsClosed(c)
  {
  }

  lemma StepKeeps(c: Connection, op: Op)
    requires CInv(c) && Legal(c, op)
    ensures var c' := Step(c, op);
            CInv(c') && SenderForward(c.snd, c'.snd) && ReceiverForward(c.rcv, c'.rcv)
  {
    hide CInv, SegmentArrives, TimePasses, Reading, Refilled, Connect, Reset, SenderForward, ReceiverForward;
    match op
    case DoConnect => ConnectKeeps(c);
    case DoWrite(data) => WriteKeeps(c, WriteTo(c.snd.stream, data));
    case DoEndInput =>
      CInvParts(c);
      S.NumbersFit(c.snd);
      WriteKeeps(c, EndedInput(c.snd.stream));
    case DoRead(len) => ReadKeeps(c, len);
    case DoArrive(seg) => ArriveKeeps(c, seg);
    case DoTick(ms) => TimeKeeps(c, ms);
    case DoDestroy => DestroyKeeps(c);
  }

  lemma CInvParts(c: Connection)
    requires CInv(c)
    ensures S.Inv(c.snd) && V.RInv(c.rcv)
  {
  }

  lemma WriteKeeps(c: Connection, stream: Stream)
    requires CInv(c) && S.Grows(S.SpaceOf(c.snd), S.SpaceOf(c.snd.(stream := stream)))
    requires stream.read == c.snd.stream.read && stream.error == c.snd.stream.error && |stream.log| + 2 < TWO64
    ensures var c' := Refilled(c, stream);
            CInv(c') && SenderForward(c.snd, c'.snd) && ReceiverForward(c.rcv, c'.rcv)
  {
    hide SenderForward, Refilled;
    RefilledForward(c, stream);
    SameReceiver(c.rcv);
  }

  lemma ConnectKeeps(c: Connection)
    requires CInv(c)
    ensures CInv(Connect(c)) && SenderForward(c.snd, Connect(c).snd) && ReceiverForward(c.rcv, Connect(c).rcv)
  {
    hide SenderForward, FillWindow, StampedAll, S.Inv, V.RInv;
    S.NumbersFit(c.snd);
    RefilledForward(c, c.snd.stream);
    ConnectIsRefill(c);
    SameReceiver(c.rcv);
  }

  lemma ConnectIsRefill(c: Connection)
    ensures Connect(c) == Refilled(c, c.snd.stream).(alive := true)
  {
    hide FillWindow, StampedAll;
    assert c.snd.(stream := c.snd.stream) == c.snd;
  }

  lemma ReadKeeps(c: Connection, len: nat)
    requires CInv(c)
    ensures var c' := c.(rcv := Reading(c.rcv, len));
            CInv(c') && SenderForward(c.snd, c'.snd) && ReceiverForward(c.rcv, c'.rcv)
  {
    hide S.Inv, V.RInv;
    V.ReadingOpensWindow(c.rcv, len);
    OutForward(c.snd, c.snd.out);
  }

  lemma DestroyKeeps(c: Connection)
    requires CInv(c)
    ensures var c' := Destroyed(c);
            CInv(c') && SenderForward(c.snd, c'.snd) && ReceiverForward(c.rcv, c'.rcv)
  {
    hide S.Inv, V.RInv, SenderForward, ReceiverForward, Reset;
    OutForward(c.snd, c.snd.out);
    SameReceiver(c.rcv);
    ResetForward(c, true);
    ForwardInv(c.snd, Reset(c, true).snd);
    ForwardInv'(c.rcv, Reset(c, true).rcv);
  }

  lemma StartOk(rt: u16, recvCapacity: nat, sendCapacity: nat, isn: u32)
    ensures CInv(NewConnection(rt, recvCapacity, sendCapacity, isn))
  {
  }

  lemma {:induction false} RunKeeps(c: Connection, ops: seq<Op>)
    requires CInv(c) && AllLegal(c, ops)
    ensures CInv(Run(c, ops))
    decreases |ops|
  {
    hide CInv, Step, Legal, SenderForward, ReceiverForward;
    if ops == [] {
    } else {
      StepKeeps(c, ops[0]);
      RunKeeps(Step(c, ops[0]), ops[1..]);
    }
  }

  // ---- the timer has not given up ----

  lemma FewRetries(c: Connection, op: Op)
    requires CInv(c) && Legal(c, op) && c.snd.retx <= MAX_RETX_ATTEMPTS && !Step(c, op).snd.stream.error
    ensures Step(c, op).snd.retx <= MAX_RETX_ATTEMPTS
  {
    hide FillWindow, S.Inv, V.RInv, SegmentArrives, Tick, Reading, Reset, StampedAll, Active;
    match op
    case DoConnect => FillForward(c.snd);
    case DoWrite(data) => RefillRetries(c, WriteTo(c.snd.stream, data));
    case DoEndInput =>
      S.NumbersFit(c.snd);
      RefillRetries(c, EndedInput(c.snd.stream));
    case DoArrive(seg) => ArriveRetries(c, seg);
    case DoTick(ms) => ResetFails(c.(idle := c.idle + ms, snd := Tick(c.snd, ms)));
    case DoDestroy => ResetFails(c);
    case DoRead(_) =>
  }

  lemma ResetFails(c: Connection)
    ensures Reset(c, true).snd.stream.error
  {
  }

  lemma RefillRetries(c: Connection, stream: Stream)
    requires CInv(c) && S.Grows(S.SpaceOf(c.snd), S.SpaceOf(c.snd.(stream := stream)))
    requires stream.read == c.snd.stream.read && |stream.log| + 2 < TWO64
    ensures Refilled(c, stream).snd.retx == c.snd.retx
  {
    hide FillWindow, S.Inv, V.RInv, StampedAll, S.Grows;
    S.StreamGrows(c.snd, stream);
    FillForward(c.snd.(stream := stream));
  }

  lemma ArriveRetries(c: Connection, seg: Segment)
    requires CInv(c) && !SegmentArrives(c, seg).snd.stream.error
    ensures SegmentArrives(c, seg).snd.retx <= c.snd.retx
  {
    hide FillWindow, Absorbed, Replied, S.Inv, V.RInv, StampedAll, SummaryOfReceiver, SummaryOfSender;
    if c.alive && !seg.header.rst {
      var a := Absorbed(c, seg);
      AbsorbedRetries(c, seg);
      FillForward(a.snd);
      var passive := SummaryOfReceiver(a.rcv) == FinRecv && SummaryOfSender(a.snd) == SynAcked;
      RepliedRetries(a.(linger := a.linger && !passive), seg);
    }
  }

  lemma AbsorbedRetries(c: Connection, seg: Segment)
    requires CInv(c)
    ensures S.Inv(Absorbed(c, seg).snd) && Absorbed(c, seg).snd.retx <= c.snd.retx
  {
    hide AckReceived, S.Inv, V.RInv, SegmentReceived, SenderForward;
    if seg.header.ack {
      S.AckFrame(c.snd, seg.header.ackno, seg.header.win);
      AckForward(c.snd, seg.header.ackno, seg.header.win);
      ForwardInv(c.snd, Absorbed(c, seg).snd);
    }
  }

  lemma RepliedRetries(c: Connection, seg: Segment)
    requires S.Inv(c.snd)
    ensures Replied(c, seg).snd.retx == c.snd.retx
  {
    hide FillWindow, S.Inv, EmptySegment, IsKeepAlive, SenderForward;
    FillForward(c.snd);
  }
}
