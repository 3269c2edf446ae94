/** The protocol can always finish: from wherever losses, repetitions and reorderings have left it,
    the network only has to start delivering. */
module Completion {
  import opened Words
  import opened WrappingIntegers
  import opened ByteStreams
  import opened Sending
  import opened Receiving
  import S = SenderLaws
  import V = ReceiverLaws
  import opened EndToEnd
  import opened Progress
  import opened Boundaries
  import opened InOrder

  // ---- what no step changes ----

  lemma StepFrame(net: Net, a: Action)
    requires Inv(net) && Enabled(net, a)
    ensures var net' := Apply(net, a);
      && net'.snd.stream.error == net.snd.stream.error && net'.rcv.capacity == net.rcv.capacity
      && net.snd.lastAck <= net'.snd.lastAck && |net.acks| <= |net'.acks|
      && (net.snd.stream.ended ==> net'.snd.stream.ended && net'.snd.stream.log == net.snd.stream.log)
  {
    hide Inv, FillWindow, AckReceived, SegmentReceived, S.Inv, S.Shape, S.Tiles, S.Names, Wrap, Unwrap, AbsAck;
    InvParts(net);
    match a
    case Fill =>
      OnlyShape(net.snd);
      var _ := S.FillKeeps(net.snd);
    case DeliverAck(i) =>
      S.AckFrame(net.snd, net.acks[i].ackno, net.acks[i].win);
      var _ := S.AckKeeps(net.snd, net.acks[i].ackno, net.acks[i].win);
    case Deliver(p) => V.ReceivePushes(net.rcv, p.seg);
    case _ =>
  }

  lemma {:induction false} RunFrame(net: Net, actions: seq<Action>)
    requires Inv(net) && Possible(net, actions)
    ensures var net' := Run(net, actions);
      && Inv(net') && net'.snd.stream.error == net.snd.stream.error && net'.rcv.capacity == net.rcv.capacity
      && net.snd.lastAck <= net'.snd.lastAck && |net.acks| <= |net'.acks|
      && (net.snd.stream.ended ==> net'.snd.stream.ended && net'.snd.stream.log == net.snd.stream.log)
    decreases |actions|
  {
    hide Inv, Apply, Enabled;
    if actions == [] {
    } else {
      StepKeeps(net, actions[0]);
      StepFrame(net, actions[0]);
      RunFrame(Apply(net, actions[0]), actions[1..]);
    }
  }

  /** What was heard last had been emitted. */
  lemma {:induction false} HeardWithin(net: Net, heard: nat, actions: seq<Action>)
    requires Inv(net) && Possible(net, actions) && heard <= |net.acks|
    ensures HeardAfter(heard, actions) <= |Run(net, actions).acks|
    decreases |actions|
  {
    hide Inv, Apply;
    if actions == [] {
    } else {
      StepKeeps(net, actions[0]);
      StepFrame(net, actions[0]);
      HeardWithin(Apply(net, actions[0]), Heard(heard, actions[0]), actions[1..]);
    }
  }

  lemma {:induction false} Then(net: Net, heard: nat, a: seq<Action>, b: seq<Action>)
    ensures Run(net, a + b) == Run(Run(net, a), b)
    ensures Possible(net, a + b) <==> Possible(net, a) && Possible(Run(net, a), b)
    ensures AcksInOrder(a + b, heard) <==> AcksInOrder(a, heard) && AcksInOrder(b, HeardAfter(heard, a))
    ensures HeardAfter(heard, a + b) == HeardAfter(HeardAfter(heard, a), b)
    decreases |a|
  {
    hide Apply, Enabled;
    if a == [] {
      assert a + b == b;
    } else {
      assert (a + b)[1..] == a[1..] + b;
      Then(Apply(net, a[0]), Heard(heard, a[0]), a[1..], b);
    }
  }

  // ---- rounds ----

  /** A run in progress whose writer has ended and whose receiver has room at all. */
  ghost predicate Live(net: Net, heard: nat) {
    && BInv(net) && heard <= |net.acks|
    && !net.snd.stream.error && net.snd.stream.ended && net.rcv.capacity > 0
  }

  /** The absolute number that acknowledges everything. */
  function AllAcked(net: Net): nat {
    |net.snd.stream.log| + 2
  }

  /** Going on from `net` is possible, hears acknowledgments in order, and ends where this says. */
  ghost predicate Continues(net: Net, heard: nat, more: seq<Action>) {
    && Possible(net, more) && AcksInOrder(more, heard)
    && Live(Run(net, more), HeardAfter(heard, more))
    && Run(net, more).snd.stream.log == net.snd.stream.log && net.snd.lastAck <= Run(net, more).snd.lastAck
  }

  lemma GoesOn(net: Net, heard: nat, more: seq<Action>)
    requires Live(net, heard) && Possible(net, more) && AcksInOrder(more, heard)
    ensures Continues(net, heard, more)
  {
    hide Run, Possible, AcksInOrder, BInv;
    IsInv(net);
    RunClean(net, more);
    RunFrame(net, more);
    HeardWithin(net, heard, more);
  }

  lemma IsInv(net: Net)
    requires BInv(net)
    ensures Inv(net) && !net.rcv.re.out.error
    ensures V.RInv(net.rcv) && net.snd.lastAck <= AbsAck(net.rcv) <= net.snd.next
  {
    AckWithinSent(net);
    V.FedIsRInv(SentSpace(net.snd), net.rcv);
  }

  lemma ContinuesThen(net: Net, heard: nat, a: seq<Action>, b: seq<Action>)
    requires Continues(net, heard, a) && Continues(Run(net, a), HeardAfter(heard, a), b)
    ensures Continues(net, heard, a + b) && Run(net, a + b) == Run(Run(net, a), b)
  {
    hide Run, Possible, AcksInOrder, Live;
    Then(net, heard, a, b);
  }

  /** What an acknowledgment leaves: a full window, or everything sent. */
  lemma AckIsGreedy(s: Sender, ackno: u32, window: u16)
    requires S.Inv(s) && !s.stream.error && Unwrap(ackno, s.isn, s.next) <= s.next
    ensures var s' := AckReceived(s, ackno, window);
      || CurrentWindow(s') <= InFlight(s')
      || (s'.next > 0 && Buffer(s'.stream) == [] && (s'.stream.ended ==> s'.finSent))
  {
    hide FillWindow, Unwrap, PopAcked, S.Tiles, S.Span, S.Names, S.Placed;
    S.NumbersFit(s);
    var absAck := Unwrap(ackno, s.isn, s.next);
    S.AcknowledgeKeeps(s, absAck, window);
    S.FillIsGreedy(Sending.Acknowledge(s, absAck, window));
  }

  /** A sender that is not acknowledged in full and has filled its window has something outstanding. */
  lemma SomethingOutstanding(s: Sender)
    requires S.Inv(s) && s.stream.ended && s.lastAck < |s.stream.log| + 2
    requires CurrentWindow(s) <= InFlight(s) || (s.next > 0 && Buffer(s.stream) == [] && s.finSent)
    ensures s.outstanding != []
  {
    S.QuietIff(s);
  }

  /** Before the receiver has seen a SYN, filling the window puts one in flight. */
  lemma OpenWithSyn(net: Net, heard: nat)
    requires Live(net, heard) && !net.rcv.syn
    ensures Continues(net, heard, [Fill])
    ensures var net1 := Run(net, [Fill]);
            net1.snd.outstanding != [] && net1.snd.lastAck == AbsAck(net1.rcv) && WindowSize(net1.rcv) > 0
  {
    hide BInv, FillWindow, S.Shape, V.RInv, Continues;
    IsInv(net);
    assert net.snd.lastAck == 0;
    InvParts(net);
    OnlyShape(net.snd);
    SinglyPossible(net, heard, Fill);
    GoesOn(net, heard, [Fill]);
    var _ := S.FillKeeps(net.snd);
    S.FillIsGreedy(net.snd);
    var net1 := Apply(net, Fill);
    StepKeeps(net, Fill);
    InvParts(net1);
    S.QuietIff(net1.snd);
    FreshWindow(net);
  }

  lemma SinglyPossible(net: Net, heard: nat, a: Action)
    requires Enabled(net, a) && (a.DeliverAck? ==> heard <= a.i + 1)
    ensures Possible(net, [a]) && AcksInOrder([a], heard) && Run(net, [a]) == Apply(net, a)
  {
    hide Apply, Enabled;
    assert [a][1..] == [];
  }

  lemma FreshWindow(net: Net)
    requires Inv(net) && !net.rcv.syn
    ensures WindowSize(net.rcv) == net.rcv.capacity
  {
    hide S.Inv;
  }

  /** Otherwise the reader empties its buffer and the receiver says so; the sender is then in step,
      with the window open. */
  lemma CatchUp(net: Net, heard: nat) returns (more: seq<Action>)
    requires Live(net, heard) && net.rcv.syn
    ensures Continues(net, heard, more)
    ensures var net1 := Run(net, more);
      && net1.snd.lastAck == AbsAck(net1.rcv) && WindowSize(net1.rcv) > 0
      && (net1.snd.lastAck < AllAcked(net1) ==> net1.snd.outstanding != [])
  {
    hide BInv, Inv, AckReceived, S.Inv, Continues, Wrap, Unwrap;
    var read := Read(|Buffer(net.rcv.re.out)|);
    var last := DeliverAck(|net.acks|);
    more := [read, Acknowledge, last];
    IsInv(net);
    var net1 := Apply(net, read);
    SinglyPossible(net, heard, read);
    GoesOn(net, heard, [read]);
    LiveIs(net, heard, read);
    WideOpen(net.rcv);
    IsInv(net1);
    InvParts(net1);
    Near(net1);
    AckCatchesUp(net1);
    var net2 := Apply(net1, Acknowledge);
    SinglyPossible(net1, heard, Acknowledge);
    GoesOn(net1, heard, [Acknowledge]);
    LiveIs(net1, heard, Acknowledge);
    IsInv(net2);
    SinglyPossible(net2, heard, last);
    GoesOn(net2, heard, [last]);
    var net3 := Apply(net2, last);
    LiveIs(net2, heard, last);
    IsInv(net3);
    ContinuesThen(net, heard, [read], [Acknowledge]);
    ContinuesThen(net, heard, [read] + [Acknowledge], [last]);
    assert more == [read] + [Acknowledge] + [last];
    FilledUp(net2, heard);
  }

  lemma LiveIs(net: Net, heard: nat, a: Action)
    requires Continues(net, heard, [a])
    ensures Live(Apply(net, a), Heard(heard, a))
  {
    hide Live, Apply, Enabled;
    assert [a][1..] == [];
    assert Run(net, [a]) == Run(Apply(net, a), []) == Apply(net, a);
    assert HeardAfter(heard, [a]) == HeardAfter(Heard(heard, a), []) == Heard(heard, a);
  }

  lemma WideOpen(v: Receiver)
    requires V.RInv(v) && !v.re.out.error
    ensures WindowSize(Reading(v, |Buffer(v.re.out)|)) == v.capacity
  {
    V.RightEdgeIs(v);
    V.ReadingOpensWindow(v, |Buffer(v.re.out)|);
  }

  /** Hearing the receiver's latest word with an open window leaves something outstanding, unless
      everything is acknowledged. */
  lemma FilledUp(net: Net, heard: nat)
    requires Live(net, heard) && net.acks != [] && net.acks[|net.acks| - 1].win > 0
    requires Enabled(net, DeliverAck(|net.acks| - 1))
    ensures var s' := Apply(net, DeliverAck(|net.acks| - 1)).snd;
            s'.lastAck < |s'.stream.log| + 2 ==> s'.outstanding != []
  {
    hide Wrap, Unwrap, AckReceived, S.Shape, V.Fed, PacketOk, Apart, Clean, Marks;
    var i := |net.acks| - 1;
    var s, a := net.snd, net.acks[i];
    IsInv(net);
    InvParts(net);
    assert a in net.acks;
    BaseNat(s);
    UnwrapInvertsWrap(a.abs, s.isn, s.next);
    AckIsGreedy(s, a.ackno, a.win);
    StepKeeps(net, DeliverAck(i));
    StepFrame(net, DeliverAck(i));
    var s' := AckReceived(s, a.ackno, a.win);
    if s'.lastAck < |s'.stream.log| + 2 {
      SomethingOutstanding(s'.(out := []));
    }
  }

  /** One timeout, its segment and its acknowledgment delivered. */
  lemma OneRound(net: Net, heard: nat) returns (more: seq<Action>)
    requires Live(net, heard) && net.snd.outstanding != []
    requires net.snd.lastAck == AbsAck(net.rcv) && WindowSize(net.rcv) > 0
    ensures Continues(net, heard, more) && Run(net, more).snd.lastAck > net.snd.lastAck
  {
    hide BInv, Inv, Apply, Enabled, Run, Possible;
    IsInv(net);
    InvParts(net);
    BaseNat(net.snd);
    var ms := Max(0, net.snd.rto - net.snd.elapsed);
    FrontUnblocked(net);
    RoundAdvances(net, ms);
    more := [Timer(ms), Deliver(Packet(S.Base(net.snd), net.snd.outstanding[0])), Acknowledge, DeliverAck(|net.acks|)];
    InStep(more[0], more[1], more[2], |net.acks|, heard);
    GoesOn(net, heard, more);
  }

  lemma InStep(a: Action, b: Action, c: Action, i: nat, heard: nat)
    requires !a.DeliverAck? && !b.DeliverAck? && !c.DeliverAck? && heard <= i + 1
    ensures AcksInOrder([a, b, c, DeliverAck(i)], heard)
  {
    var all := [a, b, c, DeliverAck(i)];
    assert all[1..] == [b, c, DeliverAck(i)] && all[1..][1..] == [c, DeliverAck(i)];
    assert all[1..][1..][1..] == [DeliverAck(i)];
    assert AcksInOrder([DeliverAck(i)], heard) by {
      assert [DeliverAck(i)][1..] == [];
      assert AcksInOrder([], i + 1);
    }
    assert AcksInOrder(all[1..][1..], heard);
    assert AcksInOrder(all[1..], heard);
  }

  /** One more acknowledgment than before, or the ends in step again with everything acknowledged. */
  lemma Advance(net: Net, heard: nat) returns (more: seq<Action>)
    requires Live(net, heard) && net.snd.lastAck < AllAcked(net)
    ensures Continues(net, heard, more) && Run(net, more).snd.lastAck > net.snd.lastAck
  {
    hide BInv, Run, Possible, AcksInOrder;
    var first := [Fill];
    if net.rcv.syn {
      first := CatchUp(net, heard);
    } else {
      OpenWithSyn(net, heard);
    }
    var net1 := Run(net, first);
    if net1.snd.lastAck > net.snd.lastAck {
      more := first;
    } else {
      var round := OneRound(net1, HeardAfter(heard, first));
      ContinuesThen(net, heard, first, round);
      more := first + round;
    }
  }

  lemma Nothing(net: Net, heard: nat)
    requires Live(net, heard)
    ensures Continues(net, heard, []) && Run(net, []) == net
  {
  }

  lemma {:induction false} Finish(net: Net, heard: nat) returns (more: seq<Action>)
    requires Live(net, heard) && net.snd.lastAck <= AllAcked(net)
    ensures Continues(net, heard, more) && Run(net, more).snd.lastAck == AllAcked(net)
    decreases AllAcked(net) - net.snd.lastAck
  {
    hide Live, Run, Possible, AcksInOrder;
    if net.snd.lastAck == AllAcked(net) {
      more := [];
      Nothing(net, heard);
    } else {
      var first := Advance(net, heard);
      AckedWithin(Run(net, first), HeardAfter(heard, first));
      var rest := Finish(Run(net, first), HeardAfter(heard, first));
      ContinuesThen(net, heard, first, rest);
      more := first + rest;
    }
  }

  lemma AckedWithin(net: Net, heard: nat)
    requires Live(net, heard)
    ensures net.snd.lastAck <= AllAcked(net)
  {
    hide V.Fed, PacketOk, Apart, Clean, Marks;
    IsInv(net);
  }

  /** When everything is acknowledged, everything has arrived. */
  lemma AllArrived(net: Net, heard: nat)
    requires Live(net, heard) && net.snd.lastAck == AllAcked(net)
    ensures net.rcv.re.out.ended && net.rcv.re.out.log == net.snd.stream.log && net.snd.outstanding == []
  {
    hide V.Fed, PacketOk, Apart, Clean, Marks, S.Tiles, S.Span, S.Names;
    IsInv(net);
    V.FedWritten(SentSpace(net.snd), net.rcv);
    S.QuietIff(net.snd);
  }

  /** From every state a run can reach, whatever was lost, repeated or reordered on the way: once the
      writer has ended, the run can be continued so that the receiver ends with exactly what was written
      and the sender has nothing left to do. If acknowledgments were heard in order so far, they still
      are. */
  lemma CanAlwaysFinish(sendCapacity: nat, timeout: u16, isn: u32, recvCapacity: nat, actions: seq<Action>)
    returns (more: seq<Action>)
    requires Possible(Start(sendCapacity, timeout, isn, recvCapacity), actions)
    requires Run(Start(sendCapacity, timeout, isn, recvCapacity), actions).snd.stream.ended && recvCapacity > 0
    ensures var net0 := Start(sendCapacity, timeout, isn, recvCapacity);
            var net := Run(net0, actions + more);
      && Possible(net0, actions + more) && (AcksInOrder(actions, 0) ==> AcksInOrder(actions + more, 0))
      && net.rcv.re.out.ended && net.rcv.re.out.log == net.snd.stream.log == Run(net0, actions).snd.stream.log
      && net.snd.outstanding == []
  {
    hide Run, Possible, AcksInOrder, BInv, Inv;
    var net0 := Start(sendCapacity, timeout, isn, recvCapacity);
    StartClean(sendCapacity, timeout, isn, recvCapacity);
    IsInv(net0);
    RunClean(net0, actions);
    RunFrame(net0, actions);
    HeardWithin(net0, 0, actions);
    var net, heard := Run(net0, actions), HeardAfter(0, actions);
    AckedWithin(net, heard);
    more := Finish(net, heard);
    AllArrived(Run(net, more), HeardAfter(heard, more));
    Then(net0, 0, actions, more);
  }
}
