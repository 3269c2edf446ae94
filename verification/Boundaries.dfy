/** Segments never overlap, so whatever a full output keeps the reassembler from writing belongs to a
    segment that starts before it. Retransmission therefore never gets stuck, in whatever order
    acknowledgments are heard. */
module Boundaries {
  import opened Words
  import opened WrappingIntegers
  import opened ByteStreams
  import opened Reassembly
  import L = ReassemblyLaws
  import opened Segments
  import opened Sending
  import opened Receiving
  import S = SenderLaws
  import V = ReceiverLaws
  import opened EndToEnd
  import opened Progress

  // ---- marks in a stream ----

  /** No chunk is cut by a mark. */
  ghost predicate Uncut(marks: set<int>, cs: Chunks) {
    forall c, m :: c in cs && m in marks ==> !(c.key < m < c.End())
  }

  /** Moreover no chunk waits at `next` when that is a mark. */
  ghost predicate Clean(marks: set<int>, r: Reassembler) {
    Uncut(marks, r.chunks) && forall c :: c in r.chunks && c.key == r.next ==> c.key !in marks
  }

  /** Draining leaves a chunk at `next` only after writing part of it. */
  lemma {:induction false} DrainClean(marks: set<int>, r: Reassembler)
    requires L.Inv(r) && Uncut(marks, r.chunks)
    ensures Clean(marks, Drain(r))
    decreases |r.chunks|
  {
    hide Insert, L.Ordered, Total;
    if r.chunks == [] || r.chunks[0].key != r.next {
      if r.chunks != [] {
        OthersLater(r);
      }
    } else {
      var c := r.chunks[0];
      assert c in r.chunks;
      L.DrainRoundIs(r);
      L.DrainRoundKeeps(r);
      OthersLater(r);
      assert forall d :: d in r.chunks[1..] ==> d in r.chunks;
      if Accepted(r.out, c.data) == |c.data| {
        DrainClean(marks, DrainRound(r));
      }
    }
  }

  lemma OthersLater(r: Reassembler)
    requires L.Inv(r) && r.chunks != []
    ensures forall c :: c in r.chunks[1..] ==> r.next < c.key
    ensures r.chunks[0].key != r.next ==> forall c :: c in r.chunks ==> r.next < c.key
  {
    assert r.chunks[0] in r.chunks;
    assert r.chunks == [r.chunks[0]] + r.chunks[1..];
  }

  /** A push of a substring that no mark cuts. */
  lemma PushClean(marks: set<int>, r: Reassembler, data: Bytes, index: nat, eof: bool)
    requires L.Inv(r) && Clean(marks, r)
    requires forall m :: m in marks ==> !(index < m < index + |data|)
    ensures Clean(marks, Push(r, data, index, eof))
  {
    hide Cut, Drain, Insert, L.Ordered, Total;
    var m := Cut(r, data, index);
    var piece := Piece(m, data, index);
    L.CutKeeps(r, data, index);
    if m.at < Limit(r) {
      L.StoredKeeps(r, data, index);
      if piece != [] {
        if m.at == r.next {
          L.StoreNext(m.state, piece);
        } else {
          L.StoreLater(m.state, m.at, piece);
        }
      }
      assert Uncut(marks, Stored(r, data, index).chunks);
      DrainClean(marks, Stored(r, data, index));
    }
  }

  /** Marks at or past the end of everything known change nothing. */
  lemma MoreMarks(marks: set<int>, more: set<int>, r: Reassembler)
    requires L.Inv(r) && Clean(marks, r)
    requires forall c, m :: c in r.chunks && m in more ==> c.End() <= m
    ensures Clean(marks + more, r)
  {
    hide L.Ordered, Total;
    forall c | c in r.chunks ensures c.data != [] {
      L.NonEmpty(r.chunks, c);
    }
  }

  // ---- sets of packets ----

  lemma {:induction false} PacketsWithin(sp: S.Space, start: nat, segs: seq<Segment>, stop: nat)
    requires S.Tiles(sp, start, segs, stop)
    ensures forall p :: p in Packets(start, segs) ==> start <= p.start && p.start + Length(p.seg) <= stop
    decreases |segs|
  {
    hide S.Names;
    S.TilesSpan(sp, start, segs, stop);
    if segs == [] {
    } else {
      PacketsWithin(sp, start + Length(segs[0]), segs[1..], stop);
    }
  }

  lemma {:induction false} PacketsConcat(start: nat, a: seq<Segment>, b: seq<Segment>)
    ensures Packets(start, a + b) == Packets(start, a) + Packets(start + S.Span(a), b)
    decreases |a|
  {
    if a == [] {
      assert a + b == b;
    } else {
      PacketsConcat(start + Length(a[0]), a[1..], b);
      assert (a + b)[1..] == a[1..] + b;
    }
  }

  lemma {:induction false} PopPackets(start: nat, segs: seq<Segment>, isn: u32, next: nat, absAck: nat)
    ensures var rest := PopAcked(segs, isn, next, absAck);
      && S.Span(rest) <= S.Span(segs)
      && Packets(start + S.Span(segs) - S.Span(rest), rest) <= Packets(start, segs)
    decreases |segs|
  {
    hide AbsStart;
    if segs == [] {
    } else {
      PopPackets(start + Length(segs[0]), segs[1..], isn, next, absAck);
    }
  }

  lemma {:induction false} SpanConcat(a: seq<Segment>, b: seq<Segment>)
    ensures S.Span(a + b) == S.Span(a) + S.Span(b)
  {
    if a == [] {
      assert a + b == b;
    } else {
      SpanConcat(a[1..], b);
      assert (a + b)[1..] == a[1..] + b;
    }
  }

  lemma BaseNat(s: Sender)
    requires S.Inv(s)
    ensures 0 <= S.Base(s) <= s.lastAck && 0 <= InFlight(s) && s.next < TWO64
  {
  }

  lemma InvParts(net: Net)
    requires Inv(net)
    ensures S.Inv(net.snd) && net.snd.out == []
    ensures forall a :: a in net.acks ==> a.abs <= AbsAck(net.rcv) && a.ackno == Wrap(a.abs, net.snd.isn)
  {
    forall a | a in net.acks ensures a.abs <= AbsAck(net.rcv) && a.ackno == Wrap(a.abs, net.snd.isn) {
      assert AckOk(net, a);
    }
  }

  // ---- segments never overlap ----

  /** Of two segments with content that start at different numbers, the earlier one ends before the later. */
  ghost predicate Apart(packets: set<Packet>) {
    forall p, q :: p in packets && q in packets && Length(p.seg) > 0 && Length(q.seg) > 0 && p.start < q.start ==>
      p.start + Length(p.seg) <= q.start
  }

  /** Where segments start in the stream. */
  ghost function Marks(packets: set<Packet>): set<int> {
    set p | p in packets && Length(p.seg) > 0 :: IndexOf(p)
  }

  ghost predicate BInv(net: Net) {
    && Inv(net) && !net.rcv.re.out.error && Apart(net.packets) && Clean(Marks(net.packets), net.rcv.re)
    && Packets(Max(0, S.Base(net.snd)), net.snd.outstanding) <= net.packets
  }

  lemma {:induction false} PacketsApart(sp: S.Space, start: nat, segs: seq<Segment>, stop: nat)
    requires S.Tiles(sp, start, segs, stop)
    ensures Apart(Packets(start, segs))
    decreases |segs|
  {
    hide S.Names;
    if segs == [] {
    } else {
      PacketsApart(sp, start + Length(segs[0]), segs[1..], stop);
      PacketsWithin(sp, start + Length(segs[0]), segs[1..], stop);
    }
  }

  /** New segments start where everything sent before ends. */
  lemma MoreApart(packets: set<Packet>, more: set<Packet>, next: nat)
    requires Apart(packets) && Apart(more)
    requires forall p :: p in packets ==> p.start + Length(p.seg) <= next
    requires forall p :: p in more ==> next <= p.start
    ensures Apart(packets + more)
  {
  }

  /** What is stored lies before everything that is still to be sent. */
  lemma StoredBefore(s: Sender, v: Receiver)
    requires S.Placed(s) && V.Fed(SentSpace(s), v) && (v.syn ==> s.next > 0)
    ensures L.Inv(v.re) && forall c :: c in v.re.chunks ==> c.End() <= s.next - 1
  {
    hide L.Ordered, Total;
    SentSpaceSmall(s);
    forall c | c in v.re.chunks ensures c.End() <= s.next - 1 {
      assert IsSlice(SentSpace(s).log, c.key, c.data);
    }
  }

  lemma NetParts(net: Net)
    requires Inv(net)
    ensures S.Placed(net.snd) && V.Fed(SentSpace(net.snd), net.rcv) && (net.rcv.syn ==> net.snd.next > 0)
  {
  }

  /** The sender handed over segments that tile what comes next. */
  lemma SendsOn(net: Net, s: Sender, s': Sender, sent: seq<Segment>)
    requires BInv(net) && Inv(Sent(net, s', net.snd.next)) && s'.out == sent
    requires S.Tiles(S.SpaceOf(s'), net.snd.next, sent, s'.next) && net.snd.next <= s'.next
    requires s'.outstanding == s.outstanding + sent && S.Span(s.outstanding) <= net.snd.next
    requires Packets(net.snd.next - S.Span(s.outstanding), s.outstanding) <= net.packets
    ensures BInv(Sent(net, s', net.snd.next))
  {
    hide Inv, S.Names, Packets, S.Tiles, S.Span, Clean, V.Fed, S.Placed;
    var more := Packets(net.snd.next, sent);
    PacketsWithin(S.SpaceOf(s'), net.snd.next, sent, s'.next);
    PacketsApart(S.SpaceOf(s'), net.snd.next, sent, s'.next);
    PacketsNamed(net);
    MoreApart(net.packets, more, net.snd.next);
    NetParts(net);
    StoredBefore(net.snd, net.rcv);
    MoreMarks(Marks(net.packets), Marks(more), net.rcv.re);
    assert Marks(net.packets + more) == Marks(net.packets) + Marks(more);
    PacketsConcat(net.snd.next - S.Span(s.outstanding), s.outstanding, sent);
    S.TilesSpan(S.SpaceOf(s'), net.snd.next, sent, s'.next);
    SpanConcat(s.outstanding, sent);
  }

  // ---- the steps ----

  lemma FillClean(net: Net)
    requires BInv(net)
    ensures BInv(Apply(net, Fill))
  {
    hide S.Shape, S.Names, FillWindow, PacketOk, V.Fed, Apart, Clean, Marks;
    var s := net.snd;
    EndToEnd.FillKeeps(net);
    OnlyShape(s);
    var sent := S.FillKeeps(s);
    BaseNat(s);
    SendsOn(net, s, FillWindow(s), sent);
  }

  lemma OnlyShape(s: Sender)
    requires S.Inv(s)
    ensures S.Shape(s)
  {
  }

  lemma TimerClean(net: Net, ms: nat)
    requires BInv(net)
    ensures BInv(Apply(net, Timer(ms)))
  {
    hide S.Shape, S.Names, PacketOk, V.Fed, Apart, Clean, Marks, Tick;
    var s := net.snd;
    TimerKeeps(net, ms);
    S.TickKeeps(s, ms);
    BaseNat(s);
    if Tick(s, ms).out != [] {
      assert Tick(s, ms).out == [s.outstanding[0]];
      OnePacket(S.Base(s), s.outstanding[0]);
      assert Packet(S.Base(s), s.outstanding[0]) in Packets(S.Base(s), s.outstanding);
    }
    assert Apply(net, Timer(ms)).packets == net.packets;
  }

  lemma EmptyClean(net: Net)
    requires BInv(net)
    ensures BInv(Apply(net, Empty))
  {
    hide S.Shape, S.Names, PacketOk, V.Fed, Clean, Wrap;
    var s := net.snd;
    EmptyKeeps(net);
    assert SendEmpty(s).out == [EmptySegment(s)];
    OnePacket(s.next, EmptySegment(s));
    assert Marks(Apply(net, Empty).packets) == Marks(net.packets);
  }

  lemma DeliverAckClean(net: Net, i: nat)
    requires BInv(net) && Enabled(net, DeliverAck(i))
    ensures BInv(Apply(net, DeliverAck(i)))
  {
    hide Inv, S.Inv, S.Names, AckReceived, Unwrap, PopAcked, Apart, Clean, Marks;
    var s, a := net.snd, net.acks[i];
    InvParts(net);
    BaseNat(s);
    DeliverAckKeeps(net, i);
    var sent := S.AckKeeps(s, a.ackno, a.win);
    var s' := AckReceived(s, a.ackno, a.win);
    if s' == s {
      SentNothing(net);
    } else {
      var popped := s.(outstanding := PopAcked(s.outstanding, s.isn, s.next, Unwrap(a.ackno, s.isn, s.next)));
      PopPackets(S.Base(s), s.outstanding, s.isn, s.next, Unwrap(a.ackno, s.isn, s.next));
      SendsOn(net, popped, s', sent);
    }
  }

  lemma SentNothing(net: Net)
    requires net.snd.out == []
    ensures Sent(net, net.snd, net.snd.next) == net
  {
    assert net.packets + {} == net.packets;
  }

  lemma DeliverClean(net: Net, p: Packet)
    requires BInv(net) && Enabled(net, Deliver(p))
    ensures BInv(Apply(net, Deliver(p)))
  {
    hide S.Tiles, S.Span, S.Names, V.Fed, SegmentReceived, Clean, Packets;
    var sp := SentSpace(net.snd);
    DeliverKeeps(net, p);
    SentSpaceSmall(net.snd);
    PacketsNamed(net);
    ReceivedClean(sp, net.rcv, net.packets, p);
    V.FedIsRInv(sp, net.rcv);
    V.WindowNeverShrinks(net.rcv, p.seg);
  }

  ghost predicate AllNamed(sp: S.Space, packets: set<Packet>) {
    forall p :: p in packets ==> S.Names(sp, p.start, p.seg)
  }

  lemma PacketsNamed(net: Net)
    requires Inv(net)
    ensures AllNamed(SentSpace(net.snd), net.packets) && V.Fed(SentSpace(net.snd), net.rcv)
    ensures forall p :: p in net.packets ==> p.start + Length(p.seg) <= net.snd.next
  {
    hide S.Names, V.Fed;
    forall p | p in net.packets ensures S.Names(SentSpace(net.snd), p.start, p.seg) {
      assert PacketOk(net.snd, p);
    }
  }

  /** A segment that arrives is cut by no mark: nothing else starts inside it. */
  lemma ReceivedClean(sp: S.Space, v: Receiver, packets: set<Packet>, p: Packet)
    requires V.Fed(sp, v) && |sp.log| + 2 < TWO64 && Clean(Marks(packets), v.re)
    requires Apart(packets) && AllNamed(sp, packets) && p in packets
    requires p.start < TWO64 && Distance(p.start, Written(v) + 1) < TWO31
    ensures Clean(Marks(packets), SegmentReceived(v, p.seg).re)
  {
    hide Push, StreamIndex, Wrap, Unwrap, Clean, S.Names, V.Fed, V.RInv, U64, Apart, Marks;
    var seg := p.seg;
    V.FedWritten(sp, v);
    V.FedIsRInv(sp, v);
    UnfoldRInv(v);
    if seg.header.syn {
      V.SynNamesIsn(sp, p.start, seg);
    }
    if v.syn || seg.header.syn {
      V.IndexIs(sp, p.start, seg, Written(v));
      var index := U64(p.start - 1 + Flag(seg.header.syn));
      if seg.header.syn && seg.payload == [] {
        PushClean(Marks(packets), v.re, [], 0, true);
      } else {
        SynsFirst(sp, packets);
        NamesSyn(sp, p);
        NoMarkInside(packets, p, index);
        PushClean(Marks(packets), v.re, seg.payload, index, seg.header.fin);
      }
    }
  }

  lemma UnfoldRInv(v: Receiver)
    requires V.RInv(v)
    ensures L.Inv(v.re)
  {
  }

  lemma NoMarkInside(packets: set<Packet>, p: Packet, index: nat)
    requires Apart(packets) && p in packets
    requires p.start > 0 || p.seg.header.syn ==> index == IndexOf(p)
    requires p.start == 0 && !p.seg.header.syn ==> p.seg.payload == []
    requires forall q :: q in packets && q.seg.header.syn ==> q.start == 0
    ensures forall m :: m in Marks(packets) ==> !(index < m < index + |p.seg.payload|)
  {
  }

  lemma ReadClean(net: Net, len: nat)
    requires BInv(net)
    ensures BInv(Apply(net, Read(len)))
  {
    hide S.Inv, S.Names, PacketOk, V.Fed;
    ReadKeeps(net, len);
  }

  lemma StepClean(net: Net, a: Action)
    requires BInv(net) && Enabled(net, a)
    ensures BInv(Apply(net, a))
  {
    hide Inv, SegmentReceived, AckReceived, FillWindow, Clean, Apart, Marks;
    match a
    case Write(_) => StepKeeps(net, a);
    case End => StepKeeps(net, a);
    case Fill => FillClean(net);
    case Timer(ms) => TimerClean(net, ms);
    case Empty => EmptyClean(net);
    case Deliver(p) => DeliverClean(net, p);
    case Acknowledge => StepKeeps(net, a);
    case DeliverAck(i) => DeliverAckClean(net, i);
    case Read(len) => ReadClean(net, len);
  }

  lemma {:induction false} RunClean(net: Net, actions: seq<Action>)
    requires BInv(net) && Possible(net, actions)
    ensures BInv(Run(net, actions))
    decreases |actions|
  {
    hide BInv, Apply, Enabled;
    if actions == [] {
    } else {
      StepClean(net, actions[0]);
      RunClean(Apply(net, actions[0]), actions[1..]);
    }
  }

  lemma StartClean(sendCapacity: nat, timeout: u16, isn: u32, recvCapacity: nat)
    ensures BInv(Start(sendCapacity, timeout, isn, recvCapacity))
  {
  }

  // ---- never stuck ----

  /** Nothing stored keeps out a segment that starts at or before the next number. */
  lemma NothingInTheWay(sp: S.Space, v: Receiver, packets: set<Packet>, p: Packet)
    requires V.RInv(v) && Clean(Marks(packets), v.re) && p in packets && Length(p.seg) > 0
    requires S.Names(sp, p.start, p.seg) && p.start <= AbsAck(v) && !v.re.out.ended
    ensures NoneAtNext(v.re) || IndexOf(p) < v.re.next
  {
    hide L.Ordered, Total;
    assert IndexOf(p) in Marks(packets);
    NamesSyn(sp, p);
  }

  /** While something the receiver has heard of is outstanding, its output has not ended. */
  lemma NotEndedYet(s: Sender, v: Receiver)
    requires S.Inv(s) && V.Fed(SentSpace(s), v) && s.outstanding != [] && s.lastAck == AbsAck(v)
    ensures !v.re.out.ended && s.lastAck < s.next && AbsAck(v) <= |s.stream.log| + 1
  {
    hide S.Names, S.Tiles;
    FrontFits(s);
    V.FedWritten(SentSpace(s), v);
    SentSpaceSmall(s);
    if v.re.out.ended {
      EndedHasSyn(SentSpace(s), v);
    }
  }

  lemma EndedHasSyn(sp: S.Space, v: Receiver)
    requires V.Fed(sp, v) && v.re.out.ended
    ensures v.syn
  {
    assert V.Unfailed(v).re.out.ended;
  }

  lemma FrontUnblocked(net: Net)
    requires BInv(net) && net.snd.outstanding != [] && net.snd.lastAck == AbsAck(net.rcv)
    ensures Unblocked(net)
  {
    hide PacketOk, S.Tiles, S.Span, S.Names, V.Fed, Clean, Marks, Apart;
    FrontFits(net.snd);
    FrontNames(net.snd);
    var front := Packet(S.Base(net.snd), net.snd.outstanding[0]);
    V.FedIsRInv(SentSpace(net.snd), net.rcv);
    NotEndedYet(net.snd, net.rcv);
    NothingInTheWay(S.SpaceOf(net.snd), net.rcv, net.packets, front);
  }

  lemma NamesSyn(sp: S.Space, p: Packet)
    requires S.Names(sp, p.start, p.seg)
    ensures Length(p.seg) > 0 ==> (p.seg.header.syn <==> p.start == 0)
  {
  }

  lemma SynsFirst(sp: S.Space, packets: set<Packet>)
    requires AllNamed(sp, packets)
    ensures forall p :: p in packets && p.seg.header.syn ==> p.start == 0
  {
    hide S.Names;
    forall p | p in packets && p.seg.header.syn ensures p.start == 0 {
      NamesSyn(sp, p);
    }
  }

  /** On every run, whenever the window is open and both ends agree on the acknowledgment number but
      something is outstanding, one timer expiry with its resend and acknowledgment delivered advances
      it: the connection cannot be stuck, whatever was lost, repeated or reordered before. */
  lemma {:induction false} NeverStuck(sendCapacity: nat, timeout: u16, isn: u32, recvCapacity: nat,
                                      actions: seq<Action>, ms: nat)
    requires Possible(Start(sendCapacity, timeout, isn, recvCapacity), actions)
    requires var net := Run(Start(sendCapacity, timeout, isn, recvCapacity), actions);
      && net.snd.outstanding != [] && net.snd.lastAck == AbsAck(net.rcv) && WindowSize(net.rcv) > 0
      && (net.snd.elapsed + ms) % TWO32 >= net.snd.rto
    ensures var net := Run(Start(sendCapacity, timeout, isn, recvCapacity), actions);
            var round := [Timer(ms), Deliver(Packet(Max(0, S.Base(net.snd)), net.snd.outstanding[0])),
                          Acknowledge, DeliverAck(|net.acks|)];
      && Possible(net, round) && Run(net, round).snd.lastAck > net.snd.lastAck
  {
    hide Run, Possible, Start, Apply, Enabled, Inv, S.Inv, Clean, Apart, Marks;
    var net0 := Start(sendCapacity, timeout, isn, recvCapacity);
    StartClean(sendCapacity, timeout, isn, recvCapacity);
    RunClean(net0, actions);
    var net := Run(net0, actions);
    FrontUnblocked(net);
    InvParts(net);
    BaseNat(net.snd);
    RoundAdvances(net, ms);
  }
}
