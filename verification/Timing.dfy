/** The retransmission timer over whole runs of a connection (section 5 of RFC 6298). */
module Timing {
  import opened Words
  import opened WrappingIntegers
  import opened ByteStreams
  import opened Segments
  import opened Sending
  import opened Receiving
  import opened Connections
  import S = SenderLaws
  import V = ReceiverLaws
  import opened ConnectionLaws

  /** The timer of `s` has run out after `ms` more milliseconds. */
  predicate Expires(s: Sender, ms: nat) {
    s.timerOn && (s.elapsed + ms) % TWO32 >= s.rto && s.outstanding != []
  }

  /** What has happened since the last new acknowledgment: timeouts, those of them with an open window,
      and calls of connect that met a dead connection. */
  datatype Tally = Tally(timeouts: nat, backoffs: nat, revivals: nat)

  const NONE := Tally(0, 0, 0)

  function AfterTick(s: Sender, ms: nat, t: Tally): Tally {
    if Expires(s, ms) then t.(timeouts := t.timeouts + 1, backoffs := t.backoffs + Flag(s.window > 0)) else t
  }

  function Counted(c: Connection, op: Op, t: Tally): Tally {
    if Step(c, op).snd.lastAck > c.snd.lastAck then NONE
    else match op
      case DoTick(ms) => if c.alive then AfterTick(c.snd, ms, t) else t
      case DoConnect => if c.alive then t else t.(revivals := t.revivals + 1)
      case _ => t
  }

  function RunCounted(c: Connection, ops: seq<Op>, t: Tally): Tally
    decreases |ops|
  {
    if ops == [] then t else RunCounted(Step(c, ops[0]), ops[1..], Counted(c, ops[0], t))
  }

  /** The timeout is the initial one doubled at every backoff, in a 32-bit register; there have been at
      most nine timeouts in a row and one more for every revival, one fewer while the connection is
      alive; and the elapsed time has not run out. */
  ghost predicate Timed(s: Sender, alive: bool, t: Tally) {
    && t.backoffs <= t.timeouts
    && s.rto == s.initialRto * Pow2(t.backoffs) % TWO32
    && (t.revivals < TWO32 - 10 ==> s.retx == t.timeouts <= MAX_RETX_ATTEMPTS + t.revivals + Flag(!alive))
    && (s.elapsed < s.rto || s.elapsed == 0)
  }

  /** Nine doublings of a 16-bit timeout fit 32 bits. */
  lemma NoOverflow(rt: u16, k: nat)
    requires k <= MAX_RETX_ATTEMPTS + 1
    ensures rt * Pow2(k) < TWO32
    ensures rt > 0 ==> rt * Pow2(k) >= rt
  {
    Pow2Grows(k, 9);
    assert Pow2(9) == 512 by {
      assert Pow2(3) == 8 && Pow2(6) == 64;
    }
    Pow2Grows(0, k);
    ProductMonotone(rt, Pow2(k), 512);
    ProductMonotone(rt, 1, Pow2(k));
  }

  lemma ProductMonotone(a: nat, x: nat, y: nat)
    requires x <= y
    ensures a * x <= a * y
  {
  }

  lemma TickTimed(s: Sender, ms: nat, t: Tally)
    requires S.Inv(s) && Timed(s, true, t)
    ensures Timed(Tick(s, ms), false, AfterTick(s, ms, t))
    ensures Tick(s, ms).retx <= MAX_RETX_ATTEMPTS ==> Timed(Tick(s, ms), true, AfterTick(s, ms, t))
  {
    hide S.Inv, Tick, Timed;
    if Expires(s, ms) {
      ExpiryTimed(s, ms, t);
    } else {
      QuietHasNone(s);
      QuietTimed(s, ms, t);
    }
  }

  lemma ExpiryTimed(s: Sender, ms: nat, t: Tally)
    requires Expires(s, ms) && Timed(s, true, t)
    ensures Timed(Tick(s, ms), false, AfterTick(s, ms, t))
    ensures Tick(s, ms).retx <= MAX_RETX_ATTEMPTS ==> Timed(Tick(s, ms), true, AfterTick(s, ms, t))
  {
    hide Pow2;
    Doubled(s.initialRto, t.backoffs, s.rto);
  }

  lemma QuietTimed(s: Sender, ms: nat, t: Tally)
    requires !Expires(s, ms) && (s.timerOn ==> s.outstanding != []) && Timed(s, true, t)
    ensures Timed(Tick(s, ms), true, t) && Timed(Tick(s, ms), false, t)
  {
    hide Pow2;
  }

  lemma QuietHasNone(s: Sender)
    requires S.Inv(s)
    ensures s.timerOn ==> s.outstanding != []
  {
  }

  /** Doubling in a 32-bit register. */
  lemma Doubled(rt: nat, k: nat, rto: nat)
    requires rto == rt * Pow2(k) % TWO32
    ensures rto * 2 % TWO32 == rt * Pow2(k + 1) % TWO32
  {
    assert rt * Pow2(k + 1) == rt * Pow2(k) * 2 by {
      assert rt * (2 * Pow2(k)) == rt * Pow2(k) * 2;
    }
    var whole := rt * Pow2(k);
    hide Pow2;
    DoubledRemainder(whole);
  }

  lemma DoubledRemainder(x: nat)
    ensures x % TWO32 * 2 % TWO32 == x * 2 % TWO32
  {
    var q, r := x / TWO32, x % TWO32;
    assert x * 2 == TWO32 * (2 * q) + r * 2;
    SameRemainder(r * 2, 2 * q);
  }

  /** Nothing but the timer and new acknowledgments touches the timeout. */
  lemma SameTiming(s: Sender, s': Sender, alive: bool, alive': bool, t: Tally)
    requires Timed(s, alive, t) && (alive' ==> alive)
    requires s'.initialRto == s.initialRto && s'.rto == s.rto && s'.retx == s.retx
    requires s'.elapsed == s.elapsed || s'.elapsed == 0
    ensures Timed(s', alive', t)
  {
  }

  lemma FillTimed(s: Sender, alive: bool, t: Tally)
    requires S.Inv(s) && Timed(s, alive, t)
    ensures Timed(FillWindow(s), alive, t)
  {
    hide FillWindow, S.Inv, Timed;
    FillForward(s);
    SameTiming(s, FillWindow(s), alive, alive, t);
  }

  lemma AckTimed(s: Sender, ackno: u32, window: u16, t: Tally)
    requires S.Inv(s) && Timed(s, true, t)
    ensures var s' := AckReceived(s, ackno, window);
            Timed(s', true, if s'.lastAck > s.lastAck then NONE else t)
  {
    hide AckReceived, S.Inv;
    S.AckFrame(s, ackno, window);
    assert s.initialRto * 1 == s.initialRto;
  }

  lemma AbsorbedTimed(c: Connection, seg: Segment, t: Tally)
    requires CInv(c) && Timed(c.snd, true, t)
    ensures var a := Absorbed(c, seg);
            S.Inv(a.snd) && Timed(a.snd, true, if a.snd.lastAck > c.snd.lastAck then NONE else t)
  {
    hide AckReceived, S.Inv, V.RInv, Timed, SegmentReceived, SenderForward, ReceiverForward;
    AbsorbedForward(c, seg);
    ForwardInv(c.snd, Absorbed(c, seg).snd);
    if seg.header.ack {
      AckTimed(c.snd, seg.header.ackno, seg.header.win, t);
    }
  }

  lemma RepliedTimed(c: Connection, seg: Segment, t: Tally)
    requires S.Inv(c.snd) && Timed(c.snd, true, t)
    ensures Timed(Replied(c, seg).snd, true, t) && Replied(c, seg).snd.lastAck == c.snd.lastAck
  {
    hide FillWindow, S.Inv, Timed, EmptySegment, IsKeepAlive, SenderForward;
    FillTimed(c.snd, true, t);
    FillForward(c.snd);
    var s := if Length(seg) > 0 then FillWindow(c.snd) else c.snd;
    SameTiming(s, Replied(c, seg).snd, true, true, t);
  }

  lemma ArriveTimed(c: Connection, seg: Segment, t: Tally)
    requires CInv(c) && c.alive && !seg.header.rst && Timed(c.snd, true, t)
    ensures var c' := SegmentArrives(c, seg);
            Timed(c'.snd, true, if c'.snd.lastAck > c.snd.lastAck then NONE else t)
  {
    hide FillWindow, S.Inv, V.RInv, Timed, Absorbed, Replied, StampedAll, SummaryOfSender, SummaryOfReceiver,
         SenderForward;
    var a := Absorbed(c, seg);
    AbsorbedTimed(c, seg, t);
    var t' := if a.snd.lastAck > c.snd.lastAck then NONE else t;
    FillTimed(a.snd, true, t');
    FillForward(a.snd);
    SameTiming(FillWindow(a.snd), FillWindow(a.snd).(out := []), true, true, t');
    var passive := SummaryOfReceiver(a.rcv) == FinRecv && SummaryOfSender(a.snd) == SynAcked;
    var l := a.(linger := a.linger && !passive);
    RepliedTimed(l, seg, t');
    SameTiming(Replied(l, seg).snd, Replied(l, seg).snd.(out := []), true, true, t');
  }

  lemma RefillTimed(c: Connection, stream: Stream, t: Tally)
    requires CInv(c) && S.Grows(S.SpaceOf(c.snd), S.SpaceOf(c.snd.(stream := stream))) && Timed(c.snd, c.alive, t)
    requires stream.read == c.snd.stream.read && stream.error == c.snd.stream.error && |stream.log| + 2 < TWO64
    ensures Timed(Refilled(c, stream).snd, c.alive, t) && Refilled(c, stream).snd.lastAck == c.snd.lastAck
    ensures Refilled(c, stream).alive == c.alive
  {
    hide FillWindow, S.Inv, V.RInv, Timed, StampedAll, S.Grows;
    var s1 := c.snd.(stream := stream);
    StreamForward(c.snd, stream);
    ForwardInv(c.snd, s1);
    SameTiming(c.snd, s1, c.alive, c.alive, t);
    FillTimed(s1, c.alive, t);
    FillForward(s1);
    SameTiming(FillWindow(s1), FillWindow(s1).(out := []), c.alive, c.alive, t);
  }

  lemma ResetTimed(c: Connection, sendRst: bool, t: Tally)
    requires Timed(c.snd, c.alive, t) || Timed(c.snd, false, t)
    ensures Timed(Reset(c, sendRst).snd, false, t) && Reset(c, sendRst).snd.lastAck == c.snd.lastAck
  {
  }

  lemma OffTimed(c: Connection, seg: Segment, t: Tally)
    requires Timed(c.snd, c.alive, t) && (!c.alive || seg.header.rst)
    ensures var c' := SegmentArrives(c, seg);
            Timed(c'.snd, c'.alive, t) && c'.snd.lastAck == c.snd.lastAck
  {
    hide Timed, Reset;
    if c.alive {
      ResetTimed(c.(idle := 0), false, t);
      ResetDies(c.(idle := 0));
    }
  }

  lemma ResetDies(c: Connection)
    ensures !Reset(c, false).alive && !Reset(c, true).alive
  {
  }

  lemma TimeTimed(c: Connection, ms: nat, t: Tally)
    requires CInv(c) && Timed(c.snd, c.alive, t)
    ensures var c', t' := TimePasses(c, ms), if c.alive then AfterTick(c.snd, ms, t) else t;
            Timed(c'.snd, c'.alive, t') && c'.snd.lastAck == c.snd.lastAck
  {
    hide S.Inv, V.RInv, Timed, Tick, Reset, StampedAll;
    if c.alive {
      var t' := AfterTick(c.snd, ms, t);
      var c1 := c.(idle := c.idle + ms, snd := Tick(c.snd, ms));
      TickTimed(c.snd, ms, t);
      TickError(c.snd, ms);
      if c1.snd.retx > MAX_RETX_ATTEMPTS {
        ResetTimed(c1, true, t');
        ResetDies(c1);
      } else {
        SameTiming(c1.snd, c1.snd.(out := []), true, TimePasses(c, ms).alive, t');
      }
    }
  }

  /** Reviving a dead connection allows it one more timeout. */
  lemma ConnectTimed(c: Connection, t: Tally)
    requires CInv(c) && Timed(c.snd, c.alive, t)
    ensures var t' := if c.alive then t else t.(revivals := t.revivals + 1);
            Timed(Connect(c).snd, true, t') && Connect(c).snd.lastAck == c.snd.lastAck
  {
    hide S.Inv, V.RInv, Refilled, S.Grows;
    ConnectIsRefill(c);
    S.NumbersFit(c.snd);
    SameStreamGrows(c.snd);
    RefillTimed(c, c.snd.stream, t);
  }

  lemma SameStreamGrows(s: Sender)
    ensures S.Grows(S.SpaceOf(s), S.SpaceOf(s.(stream := s.stream)))
  {
  }

  lemma StepTimed(c: Connection, op: Op, t: Tally)
    requires CInv(c) && Legal(c, op) && Timed(c.snd, c.alive, t)
    ensures Timed(Step(c, op).snd, Step(c, op).alive, Counted(c, op, t))
  {
    hide FillWindow, S.Inv, V.RInv, Timed, SegmentArrives, Reset, SenderForward, ReceiverForward;
    match op
    case DoConnect => ConnectTimed(c, t);
    case DoWrite(data) => RefillTimed(c, WriteTo(c.snd.stream, data), t);
    case DoEndInput =>
      S.NumbersFit(c.snd);
      RefillTimed(c, EndedInput(c.snd.stream), t);
    case DoRead(len) =>
    case DoArrive(seg) =>
      if c.alive && !seg.header.rst {
        ArriveTimed(c, seg, t);
        ArriveShape(c, seg);
      } else {
        OffTimed(c, seg, t);
      }
    case DoTick(ms) => TimeTimed(c, ms, t);
    case DoDestroy =>
      ResetTimed(c, true, t);
      ResetDies(c);
  }

  lemma {:induction false} RunTimedFrom(c: Connection, ops: seq<Op>, t: Tally)
    requires CInv(c) && AllLegal(c, ops) && Timed(c.snd, c.alive, t)
    ensures Timed(Run(c, ops).snd, Run(c, ops).alive, RunCounted(c, ops, t))
    ensures CInv(Run(c, ops)) && Run(c, ops).snd.initialRto == c.snd.initialRto
    decreases |ops|
  {
    hide CInv, Step, Legal, Timed, Counted;
    if ops == [] {
    } else {
      StepKeeps(c, ops[0]);
      StepTimed(c, ops[0], t);
      ForwardInv(c.snd, Step(c, ops[0]).snd);
      RunTimedFrom(Step(c, ops[0]), ops[1..], Counted(c, ops[0], t));
    }
  }

  /** Over every run, whatever is called: the timeout is the initial one times two to the number of
      open-window timeouts since the last new acknowledgment, cut to 32 bits; all timeouts in a row are
      counted, and are at most eight while the connection is alive and nine at its reset, and one more for
      every revival. Without a revival nothing is cut and the timer has not run out between calls. It runs
      exactly while something is outstanding. */
  lemma RunTimed(rt: u16, recvCapacity: nat, sendCapacity: nat, isn: u32, ops: seq<Op>)
    requires AllLegal(NewConnection(rt, recvCapacity, sendCapacity, isn), ops)
    ensures var c0 := NewConnection(rt, recvCapacity, sendCapacity, isn);
            var c, t := Run(c0, ops), RunCounted(c0, ops, NONE);
      && c.snd.rto == rt * Pow2(t.backoffs) % TWO32 && t.backoffs <= t.timeouts
      && (t.revivals < TWO32 - 10 ==> c.snd.retx == t.timeouts <= MAX_RETX_ATTEMPTS + t.revivals + Flag(!c.alive))
      && (t.revivals == 0 ==> c.snd.rto == rt * Pow2(t.backoffs) && (rt > 0 ==> c.snd.elapsed < c.snd.rto))
      && (c.snd.timerOn <==> c.snd.outstanding != [])
  {
    hide Run, AllLegal, RunCounted, CInv;
    var c0 := NewConnection(rt, recvCapacity, sendCapacity, isn);
    StartOk(rt, recvCapacity, sendCapacity, isn);
    StartTimed(rt, recvCapacity, sendCapacity, isn);
    RunTimedFrom(c0, ops, NONE);
    CInvParts(Run(c0, ops));
    S.QuietIff(Run(c0, ops).snd);
    Uncut(rt, RunCounted(c0, ops, NONE));
  }

  lemma StartTimed(rt: u16, recvCapacity: nat, sendCapacity: nat, isn: u32)
    ensures Timed(NewConnection(rt, recvCapacity, sendCapacity, isn).snd, true, NONE)
  {
    assert rt * Pow2(0) == rt;
  }

  lemma Uncut(rt: u16, t: Tally)
    ensures t.backoffs <= MAX_RETX_ATTEMPTS + 1 ==>
              rt * Pow2(t.backoffs) % TWO32 == rt * Pow2(t.backoffs) && (rt > 0 ==> rt * Pow2(t.backoffs) > 0)
  {
    hide Pow2;
    if t.backoffs <= MAX_RETX_ATTEMPTS + 1 {
      NoOverflow(rt, t.backoffs);
    }
  }

  // ---- what revivals allow ----

  /** A first segment that is never answered, just sent again for the `n`th time; the ninth time ended the
      connection. */
  ghost predicate Unanswered(c: Connection, n: nat) {
    && CInv(c) && c.snd.outstanding != [] && c.snd.window > 0 && InFlight(c.snd) >= CurrentWindow(c.snd)
    && c.snd.elapsed == 0 && c.snd.retx == n && c.snd.rto == c.rt * Pow2(n) % TWO32
    && (c.alive <==> n <= MAX_RETX_ATTEMPTS)
  }

  /** What has then happened: every timeout beyond the ninth took a revival. */
  function Retried(n: nat): Tally {
    Tally(n, n, Max(0, n - MAX_RETX_ATTEMPTS - 1))
  }

  lemma FirstSegment(rt: u16, recvCapacity: nat, sendCapacity: nat, isn: u32)
    ensures var c0 := NewConnection(rt, recvCapacity, sendCapacity, isn);
            Unanswered(Connect(c0), 0) && Connect(c0).rt == rt && Counted(c0, DoConnect, NONE) == Retried(0)
  {
    hide Wrap, StampedAll;
    var c := NewConnection(rt, recvCapacity, sendCapacity, isn);
    StartOk(rt, recvCapacity, sendCapacity, isn);
    ConnectKeeps(c);
    var s := c.snd;
    assert NextSegment(s).payload == [] && Length(NextSegment(s)) == 1 && !NextSegment(s).header.fin;
    assert FillLoop(Emit(s)) == Emit(s);
    assert FillWindow(s) == Emit(s);
    assert rt * Pow2(0) == rt;
  }

  /** Connecting and then ticking past any timeout: one more retransmission, dead or alive before. */
  lemma AnotherTimeout(c: Connection, n: nat)
    requires Unanswered(c, n) && n + 1 < TWO32
    ensures Unanswered(TimePasses(Connect(c), TWO32 - 1), n + 1) && TimePasses(Connect(c), TWO32 - 1).rt == c.rt
  {
    hide StampedAll, S.Inv, V.RInv, Pow2, SenderForward, ReceiverForward, Tick, FillWindow;
    var c1 := Connect(c);
    ConnectKeeps(c);
    FillsNothing(c.snd);
    S.QuietIff(c.snd);
    TimeKeeps(c1, TWO32 - 1);
    LongTick(c1.snd);
    Doubled(c.rt, n, c.snd.rto);
  }

  lemma AnotherCounted(c: Connection, n: nat)
    requires Unanswered(c, n)
    ensures Counted(Connect(c), DoTick(TWO32 - 1), Counted(c, DoConnect, Retried(n))) == Retried(n + 1)
  {
    hide StampedAll, CInv, Pow2, Tick, FillWindow;
    CInvParts(c);
    FillsNothing(c.snd);
    S.QuietIff(c.snd);
    LongTick(c.snd.(out := []));
    LastAckSame(Connect(c), TWO32 - 1);
  }

  lemma LastAckSame(c: Connection, ms: nat)
    ensures TimePasses(c, ms).snd.lastAck == c.snd.lastAck
  {
  }

  lemma LongTick(s: Sender)
    requires s.timerOn && s.outstanding != [] && s.elapsed == 0 && s.window > 0
    ensures var s' := Tick(s, TWO32 - 1);
            s' == s.(out := s'.out, rto := s.rto * 2 % TWO32, retx := (s.retx + 1) % TWO32, elapsed := 0)
    ensures Expires(s, TWO32 - 1)
  {
  }

  lemma FillsNothing(s: Sender)
    requires InFlight(s) >= CurrentWindow(s)
    ensures FillWindow(s) == s
  {
  }

  /** So there is no bound on the timeouts in a row: whatever the number, there is a run of calls that
      reaches it, by connecting again after every reset, and with as few revivals as `RunTimed` allows. */
  lemma {:induction false} TimeoutsWithoutEnd(rt: u16, recvCapacity: nat, sendCapacity: nat, isn: u32, n: nat)
    returns (ops: seq<Op>)
    requires n < TWO32
    ensures var c0 := NewConnection(rt, recvCapacity, sendCapacity, isn);
      && AllLegal(c0, ops) && Unanswered(Run(c0, ops), n) && Run(c0, ops).rt == rt
      && Run(c0, ops).snd.retx == n && Run(c0, ops).snd.rto == rt * Pow2(n) % TWO32
      && RunCounted(c0, ops, NONE) == Retried(n)
      && n == Min(n, MAX_RETX_ATTEMPTS) + Retried(n).revivals + Flag(!Run(c0, ops).alive)
  {
    hide Step, Connect, TimePasses, NewConnection, Pow2, AllLegal, Run, RunCounted, Counted;
    var c0 := NewConnection(rt, recvCapacity, sendCapacity, isn);
    if n == 0 {
      ops := [DoConnect];
      FirstSegment(rt, recvCapacity, sendCapacity, isn);
      NoOps(c0);
      OneMoreOp(c0, [], DoConnect);
      CountedThen(c0, [], DoConnect, NONE);
    } else {
      var before := TimeoutsWithoutEnd(rt, recvCapacity, sendCapacity, isn, n - 1);
      ops := before + [DoConnect] + [DoTick(TWO32 - 1)];
      OneMoreOp(c0, before, DoConnect);
      OneMoreOp(c0, before + [DoConnect], DoTick(TWO32 - 1));
      CountedThen(c0, before, DoConnect, NONE);
      CountedThen(c0, before + [DoConnect], DoTick(TWO32 - 1), NONE);
      AnotherTimeout(Run(c0, before), n - 1);
      AnotherCounted(Run(c0, before), n - 1);
    }
  }

  lemma {:induction false} CountedThen(c: Connection, ops: seq<Op>, op: Op, t: Tally)
    ensures RunCounted(c, ops + [op], t) == Counted(Run(c, ops), op, RunCounted(c, ops, t))
    decreases |ops|
  {
    hide Step, Counted;
    if ops == [] {
      assert [op][1..] == [] && ops + [op] == [op];
      assert RunCounted(Step(c, op), [], Counted(c, op, t)) == Counted(c, op, t);
    } else {
      assert (ops + [op])[1..] == ops[1..] + [op];
      CountedThen(Step(c, ops[0]), ops[1..], op, Counted(c, ops[0], t));
    }
  }

  lemma NoOps(c: Connection)
    ensures AllLegal(c, []) && Run(c, []) == c && RunCounted(c, [], NONE) == NONE
  {
  }

  lemma {:induction false} OneMoreOp(c: Connection, ops: seq<Op>, op: Op)
    requires AllLegal(c, ops) && !op.DoWrite?
    ensures AllLegal(c, ops + [op]) && Run(c, ops + [op]) == match op
              case DoConnect => Connect(Run(c, ops))
              case DoTick(ms) => TimePasses(Run(c, ops), ms)
              case _ => Step(Run(c, ops), op)
    ensures ops == [] ==> ops + [op] == [op] && Run(c, []) == c
    decreases |ops|
  {
    hide Connect, TimePasses;
    if ops == [] {
      assert [op][1..] == [] && [] + [op] == [op];
      assert Run(c, [op]) == Run(Step(c, op), []) == Step(c, op);
    } else {
      assert (ops + [op])[1..] == ops[1..] + [op];
      OneMoreOp(Step(c, ops[0]), ops[1..], op);
    }
  }

  /** And no bound on the overflow: with a timeout of 2^15 milliseconds, seventeen of them make it zero. */
  lemma TimeoutVanishes(recvCapacity: nat, sendCapacity: nat, isn: u32) returns (ops: seq<Op>)
    ensures var c0 := NewConnection(0x8000, recvCapacity, sendCapacity, isn);
            AllLegal(c0, ops) && Run(c0, ops).snd.rto == 0
  {
    hide Run, AllLegal, NewConnection, Unanswered, RunCounted, Retried;
    ops := TimeoutsWithoutEnd(0x8000, recvCapacity, sendCapacity, isn, 17);
    assert Pow2(17) == 0x2_0000 by {
      assert Pow2(8) == 256 && Pow2(16) == TWO16;
    }
  }
}
