/** One sender and one receiver, joined by a network that may lose, repeat and reorder every segment
    and every acknowledgment ever emitted. */
module EndToEnd {
  import opened Words
  import opened WrappingIntegers
  import opened ByteStreams
  import opened Segments
  import opened Sending
  import opened Receiving
  import S = SenderLaws
  import V = ReceiverLaws

  /** A segment in the network, with the absolute number it was sent at. */
  datatype Packet = Packet(start: nat, seg: Segment)

  /** An acknowledgment in the network, with the absolute number it stands for. */
  datatype Ack = Ack(abs: nat, ackno: u32, win: u16)

  datatype Net = Net(snd: Sender, rcv: Receiver, packets: set<Packet>, acks: seq<Ack>)

  datatype Action =
    | Write(data: Bytes)
    | End
    | Fill
    | Timer(ms: nat)
    | Empty
    | Deliver(packet: Packet)
    | Acknowledge
    | DeliverAck(i: nat)
    | Read(len: nat)

  function Start(sendCapacity: nat, timeout: u16, isn: u32, recvCapacity: nat): Net {
    Net(NewSender(sendCapacity, timeout, isn), NewReceiver(recvCapacity), {}, [])
  }

  /** Segments sent one after the other, from an absolute number on. */
  function Packets(start: nat, segs: seq<Segment>): set<Packet>
    decreases |segs|
  {
    if segs == [] then {} else {Packet(start, segs[0])} + Packets(start + Length(segs[0]), segs[1..])
  }

  lemma OnePacket(start: nat, seg: Segment)
    ensures Packets(start, [seg]) == {Packet(start, seg)}
  {
    assert [seg][1..] == [];
  }

  /** The sender's new state, with what it queued handed to the network. */
  function Sent(net: Net, s: Sender, start: nat): Net {
    net.(snd := s.(out := []), packets := net.packets + Packets(start, s.out))
  }

  function CurrentAck(v: Receiver): Ack {
    Ack(AbsAck(v), Wrap(AbsAck(v), v.isn), HeaderWindow(v))
  }

  /** Sequence numbers are told apart only within half their range, and absolute ones fit 64 bits;
      otherwise anything may happen at any time. */
  predicate Enabled(net: Net, a: Action) {
    match a
    case Write(data) => |net.snd.stream.log| + |data| + 2 < TWO64
    case Deliver(p) => p in net.packets && Distance(p.start, Written(net.rcv) + 1) < TWO31
    case DeliverAck(i) => i < |net.acks| && Distance(net.acks[i].abs, net.snd.next) < TWO31
    case Acknowledge => net.rcv.syn
    case _ => true
  }

  function Apply(net: Net, a: Action): Net {
    var s := net.snd;
    match a
    case Write(data) => net.(snd := s.(stream := WriteTo(s.stream, data)))
    case End => net.(snd := s.(stream := EndedInput(s.stream)))
    case Fill => Sent(net, FillWindow(s), s.next)
    case Timer(ms) => Sent(net, Tick(s, ms), Max(0, S.Base(s)))
    case Empty => Sent(net, SendEmpty(s), s.next)
    case Deliver(p) => net.(rcv := SegmentReceived(net.rcv, p.seg))
    case Acknowledge => net.(acks := net.acks + [CurrentAck(net.rcv)])
    case DeliverAck(i) =>
      if i < |net.acks| then Sent(net, AckReceived(s, net.acks[i].ackno, net.acks[i].win), s.next) else net
    case Read(len) => net.(rcv := Reading(net.rcv, len))
  }

  function Run(net: Net, actions: seq<Action>): Net
    decreases |actions|
  {
    if actions == [] then net else Run(Apply(net, actions[0]), actions[1..])
  }

  predicate Possible(net: Net, actions: seq<Action>)
    decreases |actions|
  {
    actions == [] || (Enabled(net, actions[0]) && Possible(Apply(net, actions[0]), actions[1..]))
  }

  // ---- the invariant ----

  /** The part of the sender's sequence space that has been sent. */
  function SentSpace(s: Sender): S.Space {
    S.Space(s.isn, s.stream.log[..s.stream.read], s.finSent)
  }

  ghost predicate PacketOk(s: Sender, p: Packet) {
    S.Names(SentSpace(s), p.start, p.seg) && p.start + Length(p.seg) <= s.next
  }

  ghost predicate AckOk(net: Net, a: Ack) {
    a.abs <= AbsAck(net.rcv) && a.ackno == Wrap(a.abs, net.snd.isn)
  }

  ghost predicate Inv(net: Net) {
    && S.Inv(net.snd) && net.snd.out == []
    && (forall p :: p in net.packets ==> PacketOk(net.snd, p))
    && V.Fed(SentSpace(net.snd), net.rcv)
    && (net.rcv.syn ==> net.snd.next > 0)
    && (forall a :: a in net.acks ==> AckOk(net, a))
    && net.snd.lastAck <= AbsAck(net.rcv)
  }

  /** What has been sent only grows. */
  lemma SentGrows(s: Sender, s': Sender)
    requires S.Placed(s) && S.Placed(s') && S.Grows(S.SpaceOf(s), S.SpaceOf(s')) && s.next <= s'.next
    ensures S.Grows(SentSpace(s), SentSpace(s'))
  {
    assert s'.stream.log[..s.stream.read] == s.stream.log[..s.stream.read];
  }

  lemma NamesSent(s: Sender, start: nat, seg: Segment)
    requires S.Placed(s) && S.Names(S.SpaceOf(s), start, seg) && start + Length(seg) <= s.next
    ensures PacketOk(s, Packet(start, seg))
  {
    hide Wrap;
    var pos := start - 1 + Flag(seg.header.syn);
    if Length(seg) > 0 {
      var sent := s.stream.log[..s.stream.read];
      assert pos + |seg.payload| <= |sent|;
      assert sent[pos..pos + |seg.payload|] == s.stream.log[pos..pos + |seg.payload|];
    }
  }

  lemma {:induction false} TilesSent(s: Sender, start: nat, segs: seq<Segment>, stop: nat)
    requires S.Placed(s) && S.Tiles(S.SpaceOf(s), start, segs, stop) && stop <= s.next
    ensures forall p :: p in Packets(start, segs) ==> PacketOk(s, p)
    decreases |segs|
  {
    hide S.Names, S.Placed, PacketOk;
    S.TilesSpan(S.SpaceOf(s), start, segs, stop);
    if segs == [] {
    } else {
      NamesSent(s, start, segs[0]);
      TilesSent(s, start + Length(segs[0]), segs[1..], stop);
    }
  }

  lemma PacketGrows(s: Sender, s': Sender, p: Packet)
    requires PacketOk(s, p) && S.Grows(SentSpace(s), SentSpace(s')) && s.next <= s'.next
    ensures PacketOk(s', p)
  {
    S.NamesGrows(SentSpace(s), SentSpace(s'), p.start, p.seg);
  }

  /** The sender moved, and handed segments of its own space to the network. */
  lemma SenderMoves(net: Net, s': Sender, more: set<Packet>)
    requires Inv(net) && S.Inv(s') && S.Grows(S.SpaceOf(net.snd), S.SpaceOf(s')) && net.snd.next <= s'.next
    requires forall p :: p in more ==> PacketOk(s', p)
    requires s'.lastAck <= AbsAck(net.rcv)
    ensures Inv(net.(snd := s'.(out := []), packets := net.packets + more))
  {
    hide PacketOk, V.Fed, S.Tiles, S.Span, SentSpace;
    SentGrows(net.snd, s');
    V.FedGrows(SentSpace(net.snd), SentSpace(s'), net.rcv);
    OutIrrelevant(s');
    forall p | p in net.packets ensures PacketOk(s', p) {
      PacketGrows(net.snd, s', p);
    }
    forall p | p in net.packets + more ensures PacketOk(s'.(out := []), p) {
      OutIrrelevantTo(s', p);
    }
  }

  lemma OutIrrelevant(s: Sender)
    ensures SentSpace(s.(out := [])) == SentSpace(s)
  {
  }

  lemma OutIrrelevantTo(s: Sender, p: Packet)
    requires PacketOk(s, p)
    ensures PacketOk(s.(out := []), p)
  {
  }

  // ---- the steps ----

  lemma WriteKeeps(net: Net, stream: Stream)
    requires Inv(net) && stream.read == net.snd.stream.read && |stream.log| + 2 < TWO64
    requires S.Grows(S.SpaceOf(net.snd), S.SpaceOf(net.snd.(stream := stream)))
    ensures Inv(net.(snd := net.snd.(stream := stream)))
  {
    hide PacketOk, V.Fed, S.Shape;
    var s' := net.snd.(stream := stream);
    S.StreamGrows(net.snd, stream);
    SenderMoves(net, s', {});
    assert s'.(out := []) == s' && net.packets + {} == net.packets;
  }

  lemma FillKeeps(net: Net)
    requires Inv(net)
    ensures Inv(Apply(net, Fill))
  {
    hide PacketOk, V.Fed, S.Tiles, S.Span, FillWindow, S.Placed;
    var s' := FillWindow(net.snd);
    var sent := S.FillKeeps(net.snd);
    assert s'.out == sent;
    TilesSent(s', net.snd.next, sent, s'.next);
    SenderMoves(net, s', Packets(net.snd.next, s'.out));
  }

  lemma TimerKeeps(net: Net, ms: nat)
    requires Inv(net)
    ensures Inv(Apply(net, Timer(ms)))
    ensures var s' := Tick(net.snd, ms);
            s'.out != [] ==> Packet(S.Base(net.snd), net.snd.outstanding[0]) in Apply(net, Timer(ms)).packets
  {
    hide PacketOk, V.Fed, S.Tiles, Tick, S.Placed;
    var s := net.snd;
    var s' := Tick(s, ms);
    S.TickKeeps(s, ms);
    if s'.out == [] {
      assert Packets(S.Base(s), []) == {};
      SenderMoves(net, s', {});
    } else {
      var front := s.outstanding[0];
      assert s'.out == [front];
      OnePacket(S.Base(s), front);
      FrontFits(s);
      NamesSent(s', S.Base(s), front);
      SenderMoves(net, s', Packets(S.Base(s), s'.out));
    }
  }

  lemma FrontFits(s: Sender)
    requires S.Inv(s) && s.outstanding != []
    ensures S.Base(s) + Length(s.outstanding[0]) <= s.next
  {
  }

  lemma EmptyKeeps(net: Net)
    requires Inv(net)
    ensures Inv(Apply(net, Empty))
  {
    hide PacketOk, V.Fed, S.Tiles, S.Span, Wrap, Packets;
    var s := net.snd;
    var seg := EmptySegment(s);
    assert s.out + [seg] == [seg];
    OnePacket(s.next, seg);
    var s' := SendEmpty(s);
    assert S.Inv(s');
    assert S.Names(S.SpaceOf(s'), s.next, seg);
    NamesSent(s', s.next, seg);
    SenderMoves(net, s', Packets(s.next, [seg]));
  }

  lemma DeliverKeeps(net: Net, p: Packet)
    requires Inv(net) && Enabled(net, Deliver(p))
    ensures Inv(Apply(net, Deliver(p)))
  {
    hide V.Fed, V.RInv, SegmentReceived, S.Tiles, S.Span, S.Names;
    SentSpaceSmall(net.snd);
    V.FedIsRInv(SentSpace(net.snd), net.rcv);
    V.ReceiveFeeds(SentSpace(net.snd), net.rcv, p.start, p.seg);
    V.WindowNeverShrinks(net.rcv, p.seg);
    V.ReceivePushes(net.rcv, p.seg);
  }

  lemma SentSpaceSmall(s: Sender)
    requires S.Placed(s)
    ensures |SentSpace(s).log| + 2 < TWO64 && s.next < TWO64
    ensures s.next > 0 ==> s.next == |SentSpace(s).log| + 1 + Flag(SentSpace(s).ended)
  {
  }

  /** The receiver has assembled no more than was sent. */
  lemma AckWithinSent(net: Net)
    requires Inv(net)
    ensures AbsAck(net.rcv) <= net.snd.next
  {
    hide V.RInv;
    SentSpaceSmall(net.snd);
    V.FedWritten(SentSpace(net.snd), net.rcv);
  }

  lemma DeliverAckKeeps(net: Net, i: nat)
    requires Inv(net) && Enabled(net, DeliverAck(i))
    ensures Inv(Apply(net, DeliverAck(i)))
    ensures Apply(net, DeliverAck(i)).snd.lastAck == Max(net.snd.lastAck, net.acks[i].abs)
  {
    hide PacketOk, V.Fed, S.Tiles, S.Span, S.Placed, AckReceived, Wrap, Unwrap;
    var s, a := net.snd, net.acks[i];
    assert AckOk(net, a);
    AckWithinSent(net);
    SentSpaceSmall(s);
    UnwrapInvertsWrap(a.abs, s.isn, s.next);
    var sent := S.AckKeeps(s, a.ackno, a.win);
    var s' := AckReceived(s, a.ackno, a.win);
    assert s'.out == sent;
    TilesSent(s', s.next, sent, s'.next);
    SenderMoves(net, s', Packets(s.next, s'.out));
  }

  lemma ReadKeeps(net: Net, len: nat)
    requires Inv(net)
    ensures Inv(Apply(net, Read(len)))
  {
    hide S.Inv, S.Names;
    V.ReadingFeeds(SentSpace(net.snd), net.rcv, len);
  }

  lemma StepKeeps(net: Net, a: Action)
    requires Inv(net) && Enabled(net, a)
    ensures Inv(Apply(net, a))
  {
    hide Inv, S.Placed;
    match a
    case Write(data) =>
      LogFits(net);
      WriteKeeps(net, WriteTo(net.snd.stream, data));
    case End =>
      LogFits(net);
      WriteKeeps(net, EndedInput(net.snd.stream));
    case Fill => FillKeeps(net);
    case Timer(ms) => TimerKeeps(net, ms);
    case Empty => EmptyKeeps(net);
    case Deliver(p) => DeliverKeeps(net, p);
    case Acknowledge => AcknowledgeKeeps(net);
    case DeliverAck(i) => DeliverAckKeeps(net, i);
    case Read(len) => ReadKeeps(net, len);
  }

  lemma LogFits(net: Net)
    requires Inv(net)
    ensures |net.snd.stream.log| + 2 < TWO64
  {
  }

  lemma AcknowledgeKeeps(net: Net)
    requires Inv(net) && net.rcv.syn
    ensures Inv(Apply(net, Acknowledge))
  {
    hide V.RInv, S.Inv;
  }

  lemma StartOk(sendCapacity: nat, timeout: u16, isn: u32, recvCapacity: nat)
    ensures Inv(Start(sendCapacity, timeout, isn, recvCapacity))
  {
  }

  lemma {:induction false} RunKeeps(net: Net, actions: seq<Action>)
    requires Inv(net) && Possible(net, actions)
    ensures Inv(Run(net, actions))
    decreases |actions|
  {
    hide Inv, Apply, Enabled;
    if actions == [] {
    } else {
      StepKeeps(net, actions[0]);
      RunKeeps(Apply(net, actions[0]), actions[1..]);
    }
  }

  // ---- what every run promises ----

  /** Over any run: what the reader is offered is a prefix of what the writer wrote, and it is
      declared complete only when it is all of it and the writer has ended it. */
  lemma RunIsSafe(sendCapacity: nat, timeout: u16, isn: u32, recvCapacity: nat, actions: seq<Action>)
    requires Possible(Start(sendCapacity, timeout, isn, recvCapacity), actions)
    ensures var net := Run(Start(sendCapacity, timeout, isn, recvCapacity), actions);
      && net.rcv.re.out.log <= net.snd.stream.log
      && (net.rcv.re.out.ended ==> net.snd.stream.ended && net.rcv.re.out.log == net.snd.stream.log)
  {
    hide Run, Possible, Start, V.RInv, S.Tiles, PacketOk;
    var net0 := Start(sendCapacity, timeout, isn, recvCapacity);
    StartOk(sendCapacity, timeout, isn, recvCapacity);
    RunKeeps(net0, actions);
    V.FedWritten(SentSpace(Run(net0, actions).snd), Run(net0, actions).rcv);
  }

  /** As long as less than half the number range has been written, nothing is too far away to be told
      apart: every segment and acknowledgment ever emitted may be delivered. */
  lemma AlwaysNear(net: Net)
    requires Inv(net) && |net.snd.stream.log| + 2 < TWO31
    ensures forall p :: p in net.packets ==> Enabled(net, Deliver(p))
    ensures forall i: nat :: i < |net.acks| ==> Enabled(net, DeliverAck(i))
  {
    hide V.Fed, S.Tiles, S.Span, S.Names, Wrap;
    V.FedWritten(SentSpace(net.snd), net.rcv);
    AckWithinSent(net);
    forall i: nat | i < |net.acks| ensures Enabled(net, DeliverAck(i)) {
      assert AckOk(net, net.acks[i]);
    }
  }

  /** The absolute number outstanding segment `k` starts at. */
  function StartOf(s: Sender, k: nat): int
    requires k <= |s.outstanding|
  {
    S.Base(s) + S.Span(s.outstanding[..k])
  }

  lemma {:induction false} TileHolding(sp: S.Space, start: nat, segs: seq<Segment>, stop: nat, q: nat) returns (k: nat)
    requires S.Tiles(sp, start, segs, stop) && start <= q < stop
    ensures k < |segs| && start + S.Span(segs[..k]) <= q < start + S.Span(segs[..k]) + Length(segs[k])
    ensures S.Names(sp, start + S.Span(segs[..k]), segs[k])
    decreases |segs|
  {
    hide S.Names;
    if q < start + Length(segs[0]) {
      k := 0;
    } else {
      var j := TileHolding(sp, start + Length(segs[0]), segs[1..], stop, q);
      k := j + 1;
      assert segs[..k][1..] == segs[1..][..j];
    }
  }

  /** Nothing is lost: every sequence number the receiver still lacks of what was sent lies in some
      outstanding segment, and that segment holds what the space holds there. */
  lemma NothingLost(net: Net, q: nat) returns (k: nat)
    requires Inv(net) && AbsAck(net.rcv) <= q < net.snd.next
    ensures k < |net.snd.outstanding|
    ensures StartOf(net.snd, k) <= q < StartOf(net.snd, k) + Length(net.snd.outstanding[k])
    ensures S.Names(S.SpaceOf(net.snd), StartOf(net.snd, k), net.snd.outstanding[k])
  {
    hide S.Names, S.Placed, S.Tiles, S.Span, V.Fed, PacketOk;
    k := TileHolding(S.SpaceOf(net.snd), S.Base(net.snd), net.snd.outstanding, net.snd.next, q);
  }
}
