/** Runs in which acknowledgments reach the sender in the order they were emitted; segments may
    still be lost, repeated and reordered. */
module InOrder {
  import opened Words
  import opened WrappingIntegers
  import opened Reassembly
  import L = ReassemblyLaws
  import opened ReassemblyTheorems
  import opened Segments
  import opened Sending
  import opened Receiving
  import S = SenderLaws
  import V = ReceiverLaws
  import opened EndToEnd
  import opened Progress
  import opened Boundaries

  /** How many acknowledgments lie at or before the last one delivered. */
  function Heard(heard: nat, a: Action): nat {
    if a.DeliverAck? then a.i + 1 else heard
  }

  function HeardAfter(heard: nat, actions: seq<Action>): nat
    decreases |actions|
  {
    if actions == [] then heard else HeardAfter(Heard(heard, actions[0]), actions[1..])
  }

  predicate AcksInOrder(actions: seq<Action>, heard: nat) {
    actions == [] ||
    ((actions[0].DeliverAck? ==> heard <= actions[0].i + 1) && AcksInOrder(actions[1..], Heard(heard, actions[0])))
  }

  /** The first number past the window the receiver offers. */
  function RightEdge(v: Receiver): int {
    AbsAck(v) + HeaderWindow(v)
  }

  function Edge(a: Ack): int {
    a.abs + a.win
  }

  /** A packet of at most one number, or one that ends inside the window on offer. */
  predicate Inside(edge: int, p: Packet) {
    Length(p.seg) <= 1 || p.start + Length(p.seg) <= edge
  }

  /** Acknowledgments carry ever later numbers and edges, none past what is on offer now. */
  ghost predicate AcksAdvance(net: Net) {
    && (forall i, j :: 0 <= i <= j < |net.acks| ==>
          net.acks[i].abs <= net.acks[j].abs && Edge(net.acks[i]) <= Edge(net.acks[j]))
    && (forall a :: a in net.acks ==> a.abs <= AbsAck(net.rcv) && Edge(a) <= RightEdge(net.rcv))
  }

  /** The sender works with exactly the last acknowledgment it heard. */
  ghost predicate Knows(net: Net, heard: nat) {
    heard <= |net.acks| &&
    if heard == 0 then net.snd.lastAck == 0 && net.snd.window == 1
    else net.snd.lastAck == net.acks[heard - 1].abs && net.snd.window == net.acks[heard - 1].win
  }

  /** The sender keeps to the window it knows, and what it sent lies inside the window on offer. */
  ghost predicate WithinWindow(net: Net) {
    && InFlight(net.snd) <= CurrentWindow(net.snd)
    && (forall p :: p in net.packets ==> Inside(RightEdge(net.rcv), p))
    && Packets(Max(0, S.Base(net.snd)), net.snd.outstanding) <= net.packets
  }

  ghost predicate OInv(net: Net, heard: nat) {
    && Inv(net) && AcksAdvance(net) && Knows(net, heard) && WithinWindow(net)
    && Tidy(net.rcv.re) && !net.rcv.re.out.error
  }

  // ---- the steps ----

  /** The sender filled its window, which the acknowledgment it knows allows. */
  lemma SenderFills(net: Net, s: Sender, s': Sender, sent: seq<Segment>)
    requires WithinWindow(net) && S.Inv(s') && s'.out == sent
    requires S.Tiles(S.SpaceOf(s'), net.snd.next, sent, s'.next) && net.snd.next <= s'.next
    requires s'.outstanding == s.outstanding + sent
    requires S.Span(s.outstanding) <= net.snd.next
    requires Packets(net.snd.next - S.Span(s.outstanding), s.outstanding) <= net.packets
    requires InFlight(s') <= CurrentWindow(s') && s'.lastAck <= net.snd.next
    requires s'.window > 0 && s'.lastAck + s'.window > 1 ==> s'.lastAck + s'.window <= RightEdge(net.rcv)
    ensures WithinWindow(Sent(net, s', net.snd.next))
  {
    hide S.Inv, S.Names, RightEdge, Packets, S.Tiles, S.Span;
    var net' := Sent(net, s', net.snd.next);
    var more := Packets(net.snd.next, sent);
    PacketsWithin(S.SpaceOf(s'), net.snd.next, sent, s'.next);
    PacketsConcat(net.snd.next - S.Span(s.outstanding), s.outstanding, sent);
    S.TilesSpan(S.SpaceOf(s'), net.snd.next, sent, s'.next);
    SpanConcat(s.outstanding, sent);
    assert S.Base(s') == net.snd.next - S.Span(s.outstanding);
  }

  /** What the sender knows of the window is on offer. */
  lemma KnownEdge(net: Net, heard: nat)
    requires OInv(net, heard)
    ensures heard > 0 ==> net.snd.lastAck + net.snd.window <= RightEdge(net.rcv)
    ensures heard == 0 ==> net.snd.lastAck + net.snd.window == 1
  {
    hide Inv, Tidy, WithinWindow;
    if heard > 0 {
      assert net.acks[heard - 1] in net.acks;
    }
  }

  /** A step of the sender alone. */
  lemma SenderOrdered(net: Net, net': Net, heard: nat)
    requires AcksAdvance(net) && Tidy(net.rcv.re) && !net.rcv.re.out.error
    requires net'.acks == net.acks && net'.rcv == net.rcv
    requires Inv(net') && Knows(net', heard) && WithinWindow(net')
    ensures OInv(net', heard)
  {
    hide Inv, Knows, WithinWindow, Tidy, RightEdge, Edge;
  }

  lemma FillOrdered(net: Net, heard: nat)
    requires OInv(net, heard)
    ensures OInv(Apply(net, Fill), heard)
  {
    hide Inv, S.Inv, S.Tiles, S.Names, Tidy, RightEdge, Edge, FillWindow, AcksAdvance;
    var s := net.snd;
    EndToEnd.FillKeeps(net);
    KnownEdge(net, heard);
    InvParts(net);
    OnlyShape(s);
    var sent := S.FillKeeps(s);
    BaseNat(s);
    SenderFills(net, s, FillWindow(s), sent);
    SenderOrdered(net, Apply(net, Fill), heard);
  }

  lemma TimerOrdered(net: Net, heard: nat, ms: nat)
    requires OInv(net, heard)
    ensures OInv(Apply(net, Timer(ms)), heard)
  {
    hide S.Shape, S.Names, Tidy, RightEdge, Edge, PacketOk, V.Fed;
    var s := net.snd;
    TimerKeeps(net, ms);
    S.TickKeeps(s, ms);
    BaseNat(s);
    TickWindow(s, ms);
    if Tick(s, ms).out != [] {
      assert Tick(s, ms).out == [s.outstanding[0]];
      OnePacket(S.Base(s), s.outstanding[0]);
      assert Packet(S.Base(s), s.outstanding[0]) in Packets(S.Base(s), s.outstanding);
      assert Apply(net, Timer(ms)).packets == net.packets;
    }
  }

  lemma TickWindow(s: Sender, ms: nat)
    ensures Tick(s, ms).window == s.window
  {
  }

  lemma EmptyOrdered(net: Net, heard: nat)
    requires OInv(net, heard)
    ensures OInv(Apply(net, Empty), heard)
  {
    hide S.Shape, S.Names, Tidy, RightEdge, Edge, PacketOk, V.Fed;
    var s := net.snd;
    EmptyKeeps(net);
    assert SendEmpty(s).out == [EmptySegment(s)];
    OnePacket(s.next, EmptySegment(s));
  }

  /** A segment that starts past the window changes nothing. */
  lemma PushPastWindow(r: Reassembler, data: Bytes, index: nat, eof: bool)
    requires Tidy(r) && Limit(r) <= index
    ensures Push(r, data, index, eof) == r
  {
    hide Cut, L.Ordered, Total;
    var head, gone, tail := L.CutSplits(r, data, index);
    CutAt(r, data, index);
    L.SomeChunk(gone);
    assert r.chunks == head + tail;
  }

  /** A packet that respects the window meets a tidy reassembler and leaves it tidy. */
  lemma PushTidy(v: Receiver, data: Bytes, index: nat, eof: bool)
    requires V.RInv(v) && Tidy(v.re) && !v.re.out.error
    requires v.re.out.ended ==> index + |data| <= v.re.next || data == []
    requires |data| <= 1 || index + |data| <= Limit(v.re)
    ensures Tidy(Push(v.re, data, index, eof))
  {
    hide Push, L.Ordered, Total;
    if Limit(v.re) <= index {
      PushPastWindow(v.re, data, index, eof);
    } else {
      PushRefines(v.re, data, index, eof);
    }
  }

  /** The stream bytes of a packet that respects the window do too. */
  lemma IndexFits(sp: S.Space, v: Receiver, p: Packet)
    requires V.RInv(v) && S.Names(sp, p.start, p.seg) && Inside(RightEdge(v), p) && p.start < TWO64
    requires v.syn || p.seg.header.syn
    requires Written(v) <= |sp.log| && (v.re.out.ended ==> Written(v) == |sp.log|)
    ensures var index := U64(p.start - 1 + Flag(p.seg.header.syn));
      && (|p.seg.payload| <= 1 || index + |p.seg.payload| <= Limit(v.re))
      && (v.re.out.ended ==> index + |p.seg.payload| <= v.re.next || p.seg.payload == [])
  {
    hide Wrap, L.Ordered, Total;
    V.RightEdgeIs(v);
    V.OutputCapacity(v.re);
  }

  lemma DeliverTidy(sp: S.Space, v: Receiver, p: Packet)
    requires V.Fed(sp, v) && Tidy(v.re) && !v.re.out.error && |sp.log| + 2 < TWO64
    requires S.Names(sp, p.start, p.seg) && Inside(RightEdge(v), p)
    requires p.start < TWO64 && Distance(p.start, Written(v) + 1) < TWO31
    ensures Tidy(SegmentReceived(v, p.seg).re)
  {
    hide Push, StreamIndex, Wrap, Unwrap, Tidy, Slices, V.Fed, V.RInv, S.Names, RightEdge, U64;
    V.FedWritten(sp, v);
    V.FedIsRInv(sp, v);
    var seg := p.seg;
    if seg.header.syn {
      V.SynNamesIsn(sp, p.start, seg);
    }
    if v.syn || seg.header.syn {
      V.IndexIs(sp, p.start, seg, Written(v));
      IndexFits(sp, v, p);
      if seg.header.syn && seg.payload == [] {
        PushTidy(v, [], 0, true);
      } else {
        PushTidy(v, seg.payload, U64(p.start - 1 + Flag(seg.header.syn)), seg.header.fin);
      }
    }
  }

  lemma DeliverOrdered(net: Net, heard: nat, p: Packet)
    requires OInv(net, heard) && Enabled(net, Deliver(p))
    ensures OInv(Apply(net, Deliver(p)), heard)
  {
    hide S.Tiles, S.Span, S.Names, Tidy, PacketOk, V.Fed, SegmentReceived, Edge;
    var v' := SegmentReceived(net.rcv, p.seg);
    DeliverKeeps(net, p);
    SentSpaceSmall(net.snd);
    V.FedIsRInv(SentSpace(net.snd), net.rcv);
    V.WindowNeverShrinks(net.rcv, p.seg);
    PacketNames(net.snd, p);
    DeliverTidy(SentSpace(net.snd), net.rcv, p);
    EdgesRise(net, v');
  }

  lemma PacketNames(s: Sender, p: Packet)
    requires PacketOk(s, p)
    ensures S.Names(SentSpace(s), p.start, p.seg) && p.start <= s.next
  {
  }

  /** As the window on offer only grows, what was inside it stays inside. */
  lemma EdgesRise(net: Net, v': Receiver)
    requires AcksAdvance(net) && WithinWindow(net)
    requires AbsAck(net.rcv) <= AbsAck(v') && RightEdge(net.rcv) <= RightEdge(v')
    ensures AcksAdvance(net.(rcv := v')) && WithinWindow(net.(rcv := v'))
  {
  }

  lemma ReadOrdered(net: Net, heard: nat, len: nat)
    requires OInv(net, heard)
    ensures OInv(Apply(net, Read(len)), heard)
  {
    hide S.Shape, S.Names, PacketOk, V.Fed, Edge, L.Ordered, Total;
    ReadKeeps(net, len);
    V.FedIsRInv(SentSpace(net.snd), net.rcv);
    V.ReadingOpensWindow(net.rcv, len);
    V.RightEdgeIs(net.rcv);
    EdgesRise(net, Reading(net.rcv, len));
  }

  lemma AcknowledgeOrdered(net: Net, heard: nat)
    requires OInv(net, heard) && net.rcv.syn
    ensures OInv(Apply(net, Acknowledge), heard)
  {
    hide S.Shape, S.Names, PacketOk, V.Fed, Tidy;
    AcknowledgeKeeps(net);
  }

  /** The next acknowledgment in order allows what the previous one allowed. */
  lemma NextAckAllows(net: Net, heard: nat, i: nat)
    requires OInv(net, heard) && i < |net.acks| && heard <= i + 1
    ensures var a := net.acks[i];
      && net.snd.lastAck <= a.abs <= AbsAck(net.rcv) && Edge(a) <= RightEdge(net.rcv)
      && net.snd.next <= a.abs + Max(1, a.win)
  {
    hide Inv, Tidy, RightEdge;
    assert net.acks[i] in net.acks;
    if heard > 0 {
      assert net.acks[heard - 1].abs <= net.acks[i].abs;
    }
  }

  lemma DeliverAckOrdered(net: Net, heard: nat, i: nat)
    requires OInv(net, heard) && Enabled(net, DeliverAck(i)) && heard <= i + 1
    ensures OInv(Apply(net, DeliverAck(i)), i + 1)
  {
    hide Inv, WithinWindow, Tidy, AckReceived, RightEdge, Edge, AcksAdvance, Knows;
    DeliverAckKeeps(net, i);
    DeliverAckWithin(net, heard, i);
    SenderOrdered(net, Apply(net, DeliverAck(i)), i + 1);
  }

  lemma DeliverAckWithin(net: Net, heard: nat, i: nat)
    requires OInv(net, heard) && Enabled(net, DeliverAck(i)) && heard <= i + 1
    ensures WithinWindow(Apply(net, DeliverAck(i))) && Knows(Apply(net, DeliverAck(i)), i + 1)
  {
    hide Inv, S.Inv, S.Names, S.Tiles, Tidy, AckReceived, Wrap, Unwrap, PopAcked, RightEdge, AcksAdvance;
    var s, a := net.snd, net.acks[i];
    InvParts(net);
    BaseNat(s);
    AckWithinSent(net);
    UnwrapInvertsWrap(a.abs, s.isn, s.next);
    NextAckAllows(net, heard, i);
    var sent := S.AckKeeps(s, a.ackno, a.win);
    var s' := AckReceived(s, a.ackno, a.win);
    var popped := s.(outstanding := PopAcked(s.outstanding, s.isn, s.next, a.abs));
    PopPackets(S.Base(s), s.outstanding, s.isn, s.next, a.abs);
    SenderFills(net, popped, s', sent);
  }

  lemma StepOrdered(net: Net, heard: nat, a: Action)
    requires OInv(net, heard) && Enabled(net, a) && (a.DeliverAck? ==> heard <= a.i + 1)
    ensures OInv(Apply(net, a), Heard(heard, a))
  {
    hide Inv, Tidy, SegmentReceived, AckReceived, FillWindow;
    match a
    case Write(_) => WriterOrdered(net, heard, a);
    case End => WriterOrdered(net, heard, a);
    case Fill => FillOrdered(net, heard);
    case Timer(ms) => TimerOrdered(net, heard, ms);
    case Empty => EmptyOrdered(net, heard);
    case Deliver(p) => DeliverOrdered(net, heard, p);
    case Acknowledge => AcknowledgeOrdered(net, heard);
    case DeliverAck(i) => DeliverAckOrdered(net, heard, i);
    case Read(len) => ReadOrdered(net, heard, len);
  }

  lemma WriterOrdered(net: Net, heard: nat, a: Action)
    requires OInv(net, heard) && Enabled(net, a) && (a.Write? || a.End?)
    ensures OInv(Apply(net, a), heard)
  {
    hide Inv, Tidy;
    StepKeeps(net, a);
  }

  lemma {:induction false} RunOrdered(net: Net, heard: nat, actions: seq<Action>)
    requires OInv(net, heard) && Possible(net, actions) && AcksInOrder(actions, heard)
    ensures OInv(Run(net, actions), HeardAfter(heard, actions))
    decreases |actions|
  {
    hide OInv, Apply, Enabled;
    if actions == [] {
    } else {
      StepOrdered(net, heard, actions[0]);
      RunOrdered(Apply(net, actions[0]), Heard(heard, actions[0]), actions[1..]);
    }
  }

  lemma StartOrdered(sendCapacity: nat, timeout: u16, isn: u32, recvCapacity: nat)
    ensures OInv(Start(sendCapacity, timeout, isn, recvCapacity), 0)
  {
  }

  /** With acknowledgments in order, over any run: the sender never runs past the window on offer by
      more than the one number that probes a closed one, nothing the receiver stores starts at the
      next byte or reaches past the window, and the count of stored bytes is exact. */
  lemma NoOverrun(sendCapacity: nat, timeout: u16, isn: u32, recvCapacity: nat, actions: seq<Action>)
    requires Possible(Start(sendCapacity, timeout, isn, recvCapacity), actions) && AcksInOrder(actions, 0)
    ensures var net := Run(Start(sendCapacity, timeout, isn, recvCapacity), actions);
      && net.snd.next <= Max(RightEdge(net.rcv), AbsAck(net.rcv) + 1)
      && Tidy(net.rcv.re) && net.rcv.re.count == Total(net.rcv.re.chunks) && NoneAtNext(net.rcv.re)
  {
    hide Run, Possible, Start, Apply, Enabled, Inv, Total, L.Ordered, RightEdge;
    var net0 := Start(sendCapacity, timeout, isn, recvCapacity);
    StartOrdered(sendCapacity, timeout, isn, recvCapacity);
    RunOrdered(net0, 0, actions);
    KnownEdge(Run(net0, actions), HeardAfter(0, actions));
    LastAckWithin(Run(net0, actions));
  }
}
