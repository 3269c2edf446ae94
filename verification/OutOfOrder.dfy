/** Why the order of acknowledgments matters: a stale one overwrites the window, and the sender then runs
    past what the receiver offers. */
module OutOfOrder {
  import opened Words
  import opened WrappingIntegers
  import opened ByteStreams
  import opened Reassembly
  import L = ReassemblyLaws
  import opened ReassemblyTheorems
  import ReassemblyRuns
  import opened Sending
  import opened Receiving
  import S = SenderLaws
  import V = ReceiverLaws
  import opened EndToEnd
  import opened InOrder
  import Boundaries
  import Completion

  /** Running `actions` from `net0` is possible and leads to `net`. */
  ghost predicate Leads(net0: Net, actions: seq<Action>, net: Net) {
    Possible(net0, actions) && Run(net0, actions) == net
  }

  lemma AndThen(net0: Net, actions: seq<Action>, net: Net, a: Action)
    requires Leads(net0, actions, net) && Enabled(net, a)
    ensures Leads(net0, actions + [a], Apply(net, a))
  {
    hide Apply, Enabled;
    Completion.Then(net0, 0, actions, [a]);
    assert [a][1..] == [];
    assert Run(net, [a]) == Run(Apply(net, a), []);
  }

  // ---- what the sender sends ----

  /** A window with room for a SYN only. */
  lemma FillsSyn(s: Sender)
    requires s.next == s.lastAck == 0 && !s.finSent && s.window == 1 && s.stream.read == 0
    ensures FillWindow(s) == Emit(s) && NextSegment(s).payload == []
    ensures NextSegment(s).header.syn && !NextSegment(s).header.fin
  {
    assert FillLoop(Emit(s)) == Emit(s);
  }

  /** A window with room for as many bytes as there are, or fewer, all in one segment. */
  lemma FillsData(s: Sender)
    requires 0 < s.next == s.lastAck && !s.finSent && 0 < s.window <= MAX_PAYLOAD
    requires !s.stream.ended && !s.stream.error && |Buffer(s.stream)| >= s.window
    ensures FillWindow(s) == Emit(s) && NextSegment(s).payload == Buffer(s.stream)[..s.window]
    ensures !NextSegment(s).header.syn && !NextSegment(s).header.fin
  {
    assert FillLoop(Emit(s)) == Emit(s);
  }

  // ---- the run ----

  const DATA: Bytes := [1, 2, 3, 4]

  /** Four bytes written, the SYN sent, received and acknowledged, with a window of two bytes. */
  ghost predicate Opened(net: Net) {
    && Inv(net) && net.snd.stream.log == DATA && net.snd.stream.read == 0
    && !net.snd.stream.ended && !net.snd.stream.error && !net.snd.finSent
    && net.snd.next == 1 && net.snd.lastAck == 0
    && net.rcv == NewReceiver(2).(syn := true, isn := net.snd.isn)
    && net.acks == [Ack(1, Wrap(1, net.snd.isn), 2)]
  }

  lemma Opens(timeout: u16, isn: u32) returns (actions: seq<Action>, net: Net)
    ensures Leads(Start(4, timeout, isn, 2), actions, net) && Opened(net)
  {
    hide Wrap, Inv;
    var net0 := Start(4, timeout, isn, 2);
    EndToEnd.StartOk(4, timeout, isn, 2);
    var net1 := Apply(net0, Write(DATA));
    StepKeeps(net0, Write(DATA));
    FillsSyn(net1.snd);
    var syn := Packet(0, NextSegment(net1.snd));
    OnePacket(0, syn.seg);
    WrapZero(isn);
    var net2 := Apply(net1, Fill);
    StepKeeps(net1, Fill);
    var net3 := Apply(net2, Deliver(syn));
    StepKeeps(net2, Deliver(syn));
    net := Apply(net3, Acknowledge);
    StepKeeps(net3, Acknowledge);
    assert Leads(net0, [], net0);
    AndThen(net0, [], net0, Write(DATA));
    AndThen(net0, [] + [Write(DATA)], net1, Fill);
    AndThen(net0, [] + [Write(DATA)] + [Fill], net2, Deliver(syn));
    AndThen(net0, [] + [Write(DATA)] + [Fill] + [Deliver(syn)], net3, Acknowledge);
    actions := [] + [Write(DATA)] + [Fill] + [Deliver(syn)] + [Acknowledge];
  }

  lemma WrapZero(isn: u32)
    ensures Wrap(0, isn) == isn
  {
  }

  /** Two bytes sent and received, which fill the receiver's buffer; the first acknowledgment may still
      be repeated. */
  ghost predicate Filled(net: Net) {
    && Inv(net) && net.snd.stream.log == DATA && !net.snd.stream.ended && !net.snd.stream.error
    && net.snd.next == 3 && net.snd.lastAck == 1
    && net.rcv.syn && AbsAck(net.rcv) == 3 && WindowSize(net.rcv) == 0
    && net.acks == [Ack(1, Wrap(1, net.snd.isn), 2), Ack(3, Wrap(3, net.snd.isn), 0)]
  }

  /** What the first acknowledgment lets out. */
  lemma TwoBytesOut(net: Net) returns (p: Packet)
    requires Opened(net)
    ensures var net' := Apply(net, DeliverAck(0));
      && Enabled(net, DeliverAck(0)) && Inv(net') && net'.rcv == net.rcv && net'.acks == net.acks
      && p in net'.packets && p.start == 1 && p.seg.payload == [1, 2] && !p.seg.header.syn && !p.seg.header.fin
      && net'.snd.next == 3 && net'.snd.lastAck == 1 && net'.snd.isn == net.snd.isn
      && net'.snd.stream.log == DATA && !net'.snd.stream.ended && !net'.snd.stream.error
  {
    hide Wrap, Unwrap, S.Tiles, S.Names, S.Span, S.Placed, PopAcked, FillWindow, V.Fed, PacketOk;
    var s, a := net.snd, net.acks[0];
    StepKeeps(net, DeliverAck(0));
    UnwrapInvertsWrap(1, s.isn, s.next);
    var s1 := Sending.Acknowledge(s, 1, 2);
    FillsData(s1);
    var _ := S.AckKeeps(s, a.ackno, a.win);
    var seg := NextSegment(s1);
    OnePacket(1, seg);
    assert DATA[..2] == [1, 2];
    p := Packet(1, seg);
  }

  lemma TwoBytesIn(sp: S.Space, v: Receiver, p: Packet)
    requires v == NewReceiver(2).(syn := true, isn := sp.isn) && S.Names(sp, p.start, p.seg)
    requires p.start == 1 && |p.seg.payload| == 2 && !p.seg.header.syn && !p.seg.header.fin
    ensures var v' := SegmentReceived(v, p.seg);
            v'.syn && v'.isn == v.isn && AbsAck(v') == 3 && WindowSize(v') == 0
  {
    hide Push, Wrap, Unwrap, StreamIndex, Total;
    V.IndexIs(sp, 1, p.seg, 0);
    ReassemblyRuns.FreshIsTidy(2);
    var r := Push(v.re, p.seg.payload, 0, false);
    PushRefines(v.re, p.seg.payload, 0, false);
    NextIsLeastMissing(r, 2);
    V.PushFrame(v.re, p.seg.payload, 0, false);
    PushEof(v.re, p.seg.payload, 0, false);
    V.OutputCapacity(r);
    assert L.Have(r, 0) && L.Have(r, 1) && !L.Have(r, 2);
    V.RightEdgeIs(v.(re := r));
  }

  lemma Fills(net: Net) returns (p: Packet, net': Net)
    requires Opened(net)
    ensures Enabled(net, DeliverAck(0)) && Enabled(Apply(net, DeliverAck(0)), Deliver(p))
    ensures net' == Apply(Apply(Apply(net, DeliverAck(0)), Deliver(p)), Acknowledge) && net'.rcv.syn
    ensures Enabled(Apply(Apply(net, DeliverAck(0)), Deliver(p)), Acknowledge) && Filled(net')
  {
    hide Inv, AckReceived, SegmentReceived, Wrap, Unwrap;
    p := TwoBytesOut(net);
    var net1 := Apply(net, DeliverAck(0));
    PacketNamed(net1, p);
    TwoBytesIn(SentSpace(net1.snd), net1.rcv, p);
    var net2 := Apply(net1, Deliver(p));
    StepKeeps(net1, Deliver(p));
    net' := Apply(net2, Acknowledge);
    StepKeeps(net2, Acknowledge);
  }

  lemma PacketNamed(net: Net, p: Packet)
    requires Inv(net) && p in net.packets
    ensures S.Names(SentSpace(net.snd), p.start, p.seg)
  {
    assert PacketOk(net.snd, p);
  }

  /** An acknowledgment of what is acknowledged already still opens its window from there. */
  lemma WindowTaken(net: Net, i: nat)
    requires Inv(net) && i < |net.acks| && Distance(net.acks[i].abs, net.snd.next) < TWO31
    requires net.snd.stream.log == DATA && !net.snd.stream.ended && !net.snd.stream.error
    ensures var net', a := Apply(net, DeliverAck(i)), net.acks[i];
      && Enabled(net, DeliverAck(i)) && Inv(net') && net'.rcv == net.rcv && net'.acks == net.acks
      && net'.snd.lastAck == Max(net.snd.lastAck, a.abs) && net.snd.next <= net'.snd.next <= |DATA| + 1
      && net'.snd.next >= Min(net'.snd.lastAck + Max(1, a.win), |DATA| + 1)
      && net'.snd.isn == net.snd.isn && net'.snd.stream.log == DATA
      && !net'.snd.stream.ended && !net'.snd.stream.error
  {
    hide Inv, Wrap, Unwrap, S.Inv, AckReceived, PopAcked, S.Tiles, S.Names;
    var s, a := net.snd, net.acks[i];
    DeliverAckKeeps(net, i);
    AckIs(net, i);
    Boundaries.InvParts(net);
    S.NumbersFit(s);
    UnwrapInvertsWrap(a.abs, s.isn, s.next);
    Completion.AckIsGreedy(s, a.ackno, a.win);
    var _ := S.AckKeeps(s, a.ackno, a.win);
    S.AckFrame(s, a.ackno, a.win);
    AllSent(AckReceived(s, a.ackno, a.win));
  }

  lemma AckIs(net: Net, i: nat)
    requires Inv(net) && i < |net.acks|
    ensures net.acks[i].ackno == Wrap(net.acks[i].abs, net.snd.isn) && net.acks[i].abs <= net.snd.next
  {
    AckWithinSent(net);
    assert AckOk(net, net.acks[i]);
  }

  lemma AllSent(s: Sender)
    requires S.Inv(s) && !s.stream.ended
    ensures s.next <= |s.stream.log| + 1
    ensures s.next > 0 && Buffer(s.stream) == [] ==> s.next == |s.stream.log| + 1
  {
    hide S.Tiles, S.Span;
  }

  /** The second acknowledgment closes the window, and then the first one arrives once more. */
  lemma Overruns(net: Net)
    requires Filled(net)
    ensures var net1 := Apply(net, DeliverAck(1));
            var net2 := Apply(net1, DeliverAck(0));
      && Enabled(net, DeliverAck(1)) && Enabled(net1, DeliverAck(0))
      && AbsAck(net2.rcv) + 1 < net2.snd.next && RightEdge(net2.rcv) + 1 < net2.snd.next
  {
    hide Inv, Apply;
    WindowTaken(net, 1);
    WindowTaken(Apply(net, DeliverAck(1)), 0);
  }

  /** A run that hears acknowledgments out of order and overruns: `NoOverrun` needs the order. */
  lemma StaleAckOverruns(timeout: u16, isn: u32) returns (actions: seq<Action>)
    ensures var net := Run(Start(4, timeout, isn, 2), actions);
      && Possible(Start(4, timeout, isn, 2), actions) && !AcksInOrder(actions, 0)
      && net.snd.next > Max(RightEdge(net.rcv), AbsAck(net.rcv) + 1)
  {
    hide Run, Possible, Apply, Enabled, Inv, Start, RightEdge, AcksInOrder, HeardAfter;
    var net0 := Start(4, timeout, isn, 2);
    var before, net := Opens(timeout, isn);
    var p, net3 := Fills(net);
    Overruns(net3);
    var net1 := Apply(net, DeliverAck(0));
    var net2 := Apply(net1, Deliver(p));
    var net4 := Apply(net3, DeliverAck(1));
    var four := before + [DeliverAck(0)] + [Deliver(p)] + [Acknowledge];
    AndThen(net0, before, net, DeliverAck(0));
    AndThen(net0, before + [DeliverAck(0)], net1, Deliver(p));
    AndThen(net0, before + [DeliverAck(0)] + [Deliver(p)], net2, Acknowledge);
    AndThen(net0, four, net3, DeliverAck(1));
    AndThen(net0, four + [DeliverAck(1)], net4, DeliverAck(0));
    actions := four + [DeliverAck(1)] + [DeliverAck(0)];
    NotInOrder(net0, four);
  }

  lemma NotInOrder(net: Net, actions: seq<Action>)
    ensures !AcksInOrder(actions + [DeliverAck(1)] + [DeliverAck(0)], 0)
  {
    hide Run, Possible;
    Completion.Then(net, 0, actions + [DeliverAck(1)], [DeliverAck(0)]);
    Completion.Then(net, 0, actions, [DeliverAck(1)]);
    var heard := HeardAfter(0, actions);
    assert [DeliverAck(1)][1..] == [];
    assert HeardAfter(heard, [DeliverAck(1)]) == HeardAfter(Heard(heard, DeliverAck(1)), []) == 2;
    assert !AcksInOrder([DeliverAck(0)], 2);
  }
}
