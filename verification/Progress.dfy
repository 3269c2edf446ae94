/** Retransmission makes progress: the segment the timer resends is the one the receiver lacks. */
module Progress {
  import opened Words
  import opened WrappingIntegers
  import opened Reassembly
  import L = ReassemblyLaws
  import opened ReassemblyTheorems
  import opened Segments
  import opened Sending
  import opened Receiving
  import S = SenderLaws
  import V = ReceiverLaws
  import opened EndToEnd

  /** Nothing waits to be written at `next`: the stored chunks all lie beyond it. */
  ghost predicate NoneAtNext(r: Reassembler) {
    forall c :: c in r.chunks ==> r.next < c.key
  }

  /** With room in an open output, a push advances if and only if it starts inside the window and bytes
      come next, be they its own or stored ones: a chunk that waits at `next` is written, unless
      everything the push brings is covered up to the end of the window. */
  lemma PushAdvancesIff(r: Reassembler, data: Bytes, index: nat, eof: bool)
    requires L.Inv(r) && Open(r.out) && r.next < Limit(r)
    ensures Push(r, data, index, eof).next > r.next <==> OffersNext(r, data, index)
  {
    hide Cut, Drain, Insert, L.Ordered, Total, OffersNext;
    var m := Cut(r, data, index);
    var piece := Piece(m, data, index);
    L.CutKeeps(r, data, index);
    OffersNextIff(r, data, index);
    WaitsAfterCut(r, data, index);
    if m.at < Limit(r) {
      L.StoredKeeps(r, data, index);
      var s := Stored(r, data, index);
      if piece != [] && m.at == r.next {
        L.StoreNext(m.state, piece);
        DrainForward(s);
      } else {
        if piece != [] {
          L.StoreLater(m.state, m.at, piece);
        }
        WaitsIff(m.state);
        WaitsIff(s);
        DrainMovesIff(s);
      }
    }
  }

  lemma DrainMovesIff(r: Reassembler)
    requires L.Inv(r) && Open(r.out) && r.next < Limit(r)
    ensures Drain(r).next > r.next <==> WaitsAtNext(r)
  {
    hide Insert;
    if WaitsAtNext(r) {
      L.NonEmpty(r.chunks, r.chunks[0]);
      DrainForward(DrainRound(r));
    }
  }

  lemma DrainForward(r: Reassembler)
    ensures r.next <= Drain(r).next
    decreases |r.chunks|
  {
  }

  /** Bytes that come next in an open window advance the output, and an end that comes next ends it, if
      nothing stored waits at `next` or the bytes start before it. */
  lemma PushAdvances(r: Reassembler, data: Bytes, index: nat, eof: bool)
    requires L.Inv(r) && Open(r.out) && r.next < Limit(r)
    requires index < r.next || (NoneAtNext(r) && index == r.next)
    ensures var p := Push(r, data, index, eof);
      && (index + |data| > r.next ==> p.next > r.next)
      && (index + |data| == r.next && eof ==> p.next > r.next || p.out.ended)
  {
    hide Push, Cut, L.Ordered, Total, NewIndex;
    NothingBefore(r, index);
    PushAdvancesIff(r, data, index, eof);
    CutAt(r, data, index);
    PushEof(r, data, index, eof);
    PushNext(r, data, index, eof);
    PrefixGrows(r, data, index, eof);
    AtWrittenEnd(r);
  }

  lemma AtWrittenEnd(r: Reassembler)
    requires L.Inv(r)
    ensures r.next == |r.out.log|
  {
  }

  /** The stream index of a packet's first byte. */
  function IndexOf(p: Packet): int {
    p.start - 1 + Flag(p.seg.header.syn)
  }

  /** Nothing stored can keep the first outstanding segment out: nothing waits at `next`, or the segment
      starts before it. */
  ghost predicate Unblocked(net: Net)
    requires net.snd.outstanding != []
  {
    NoneAtNext(net.rcv.re)
    || (S.Base(net.snd) >= 0 && IndexOf(Packet(S.Base(net.snd), net.snd.outstanding[0])) < net.rcv.re.next)
  }

  /** When both ends agree on how far they are and the window is open, delivering the first
      outstanding segment takes the receiver further. */
  lemma FrontAdvances(net: Net)
    requires Inv(net) && net.snd.outstanding != [] && net.snd.lastAck == AbsAck(net.rcv)
    requires WindowSize(net.rcv) > 0 && !net.rcv.re.out.error && Unblocked(net)
    ensures var front := net.snd.outstanding[0];
      && S.Base(net.snd) >= 0 && Distance(S.Base(net.snd), Written(net.rcv) + 1) < TWO31
      && AbsAck(SegmentReceived(net.rcv, front)) > AbsAck(net.rcv)
  {
    hide SegmentReceived, PacketOk, V.Fed, S.Names, S.Span, Wrap, Unwrap;
    var s, v, front := net.snd, net.rcv, net.snd.outstanding[0];
    V.FedIsRInv(SentSpace(s), v);
    V.FedWritten(SentSpace(s), v);
    S.BaseIsNear(s);
    SentSpaceSmall(s);
    FrontFits(s);
    if v.syn {
      FrontNames(s);
      FrontReceived(S.SpaceOf(s), v, S.Base(s), front);
    } else {
      FrontNames(s);
      FirstIsSyn(S.SpaceOf(s), front);
      V.ReceivePushes(v, front);
    }
  }

  lemma FrontNames(s: Sender)
    requires S.Inv(s) && s.outstanding != []
    ensures S.Names(S.SpaceOf(s), S.Base(s), s.outstanding[0]) && Length(s.outstanding[0]) > 0
  {
  }

  lemma FirstIsSyn(sp: S.Space, seg: Segment)
    requires S.Names(sp, 0, seg) && Length(seg) > 0
    ensures seg.header.syn
  {
  }

  lemma FrontReceived(sp: S.Space, v: Receiver, start: nat, seg: Segment)
    requires V.RInv(v) && v.syn && v.isn == sp.isn && !v.re.out.ended && !v.re.out.error
    requires WindowSize(v) > 0 && |sp.log| + 2 < TWO64
    requires NoneAtNext(v.re) || start - 1 + Flag(seg.header.syn) < v.re.next
    requires S.Names(sp, start, seg) && start <= AbsAck(v) < start + Length(seg)
    requires AbsAck(v) <= |sp.log| + 1 && Distance(start, Written(v) + 1) < TWO31
    ensures AbsAck(SegmentReceived(v, seg)) > AbsAck(v)
  {
    hide Push, SegmentReceived, Wrap, L.Inv, S.Names, NoneAtNext;
    V.OutputCapacity(v.re);
    FirstOrLater(sp, start, seg);
    ReceivedIs(sp, v, start, seg);
    var index := start - 1 + Flag(seg.header.syn);
    PushAdvances(v.re, seg.payload, index, seg.header.fin);
    V.PushFrame(v.re, seg.payload, index, seg.header.fin);
    V.OutputCapacity(Push(v.re, seg.payload, index, seg.header.fin));
  }

  lemma FirstOrLater(sp: S.Space, start: nat, seg: Segment)
    requires S.Names(sp, start, seg) && Length(seg) > 0
    ensures seg.header.syn <==> start == 0
    ensures start - 1 + Flag(seg.header.syn) + |seg.payload| <= |sp.log|
  {
    hide Wrap;
  }

  /** A segment with content is pushed at its place, unless it is a bare SYN. */
  lemma ReceivedIs(sp: S.Space, v: Receiver, start: nat, seg: Segment)
    requires v.syn && v.isn == sp.isn && S.Names(sp, start, seg) && Length(seg) > 0 && |sp.log| + 2 < TWO64
    requires start < TWO64 && Written(v) + 1 < TWO64 && Distance(start, Written(v) + 1) < TWO31
    ensures SegmentReceived(v, seg).syn && start - 1 + Flag(seg.header.syn) >= 0
    ensures (seg.header.syn && seg.payload == [] && !seg.header.fin)
            || SegmentReceived(v, seg).re == Push(v.re, seg.payload, start - 1 + Flag(seg.header.syn), seg.header.fin)
  {
    hide Push, StreamIndex, Wrap, U64, IsSlice;
    FirstOrLater(sp, start, seg);
    V.IndexIs(sp, start, seg, Written(v));
    if seg.header.syn {
      V.SynNamesIsn(sp, start, seg);
    }
  }

  /** A fresh acknowledgment brings the sender up to where the receiver is. */
  lemma AckCatchesUp(net: Net)
    requires Inv(net) && net.rcv.syn && net.snd.next - AbsAck(net.rcv) < TWO31
    ensures var net1 := Apply(net, Acknowledge);
      && Enabled(net1, DeliverAck(|net.acks|))
      && Apply(net1, DeliverAck(|net.acks|)).snd.lastAck == AbsAck(net.rcv)
      && Apply(net1, DeliverAck(|net.acks|)).rcv == net.rcv
  {
    hide PacketOk, V.Fed, S.Inv, AckReceived;
    AckWithinSent(net);
    LastAckWithin(net);
    AcknowledgeKeeps(net);
    DeliverAckKeeps(Apply(net, Acknowledge), |net.acks|);
  }

  lemma LastAckWithin(net: Net)
    requires Inv(net)
    ensures net.snd.lastAck <= AbsAck(net.rcv)
  {
  }

  /** One round: the timer expires, the resent segment arrives, and its acknowledgment comes back.
      The sender has then been acknowledged more than before. */
  lemma RoundAdvances(net: Net, ms: nat)
    requires Inv(net) && net.snd.outstanding != [] && net.snd.lastAck == AbsAck(net.rcv)
    requires WindowSize(net.rcv) > 0 && !net.rcv.re.out.error && Unblocked(net)
    requires (net.snd.elapsed + ms) % TWO32 >= net.snd.rto
    ensures var resent := Deliver(Packet(S.Base(net.snd), net.snd.outstanding[0]));
            var round := [Timer(ms), resent, Acknowledge, DeliverAck(|net.acks|)];
      && Possible(net, round)
      && Run(net, round).snd.lastAck > net.snd.lastAck
  {
    hide Inv, AckReceived, SegmentReceived, Tick, V.Fed, Packets;
    FrontAdvances(net);
    var resent := Deliver(Packet(S.Base(net.snd), net.snd.outstanding[0]));
    var net1 := Apply(net, Timer(ms));
    Expired(net, ms);
    TimerKeeps(net, ms);
    var net2 := Apply(net1, resent);
    DeliverKeeps(net1, resent.packet);
    AckWithinSent(net2);
    Near(net);
    ReceivedHasSyn(net2);
    AckCatchesUp(net2);
    var net3 := Apply(net2, Acknowledge);
    var last := DeliverAck(|net.acks|);
    FourSteps(net, Timer(ms), resent, Acknowledge, last);
  }

  lemma OneStep(net: Net, a: Action, rest: seq<Action>)
    ensures Run(net, [a] + rest) == Run(Apply(net, a), rest)
    ensures Possible(net, [a] + rest) <==> Enabled(net, a) && Possible(Apply(net, a), rest)
  {
    assert ([a] + rest)[1..] == rest;
  }

  lemma {:induction false} FourSteps(net: Net, a: Action, b: Action, c: Action, d: Action)
    ensures var net2 := Apply(Apply(net, a), b);
      && Run(net, [a, b, c, d]) == Apply(Apply(net2, c), d)
      && (Possible(net, [a, b, c, d]) <==>
            Enabled(net, a) && Enabled(Apply(net, a), b) && Enabled(net2, c) && Enabled(Apply(net2, c), d))
  {
    hide Apply, Enabled;
    assert [a, b, c, d] == [a] + [b, c, d] && [b, c, d] == [b] + [c, d] && [c, d] == [c] + [d] && [d] == [d] + [];
    OneStep(net, a, [b, c, d]);
    OneStep(Apply(net, a), b, [c, d]);
    OneStep(Apply(Apply(net, a), b), c, [d]);
    OneStep(Apply(Apply(Apply(net, a), b), c), d, []);
  }

  lemma Near(net: Net)
    requires Inv(net)
    ensures net.snd.next - net.snd.lastAck < TWO16
  {
  }

  lemma ReceivedHasSyn(net: Net)
    requires AbsAck(net.rcv) > 0
    ensures net.rcv.syn
  {
  }

  lemma Expired(net: Net, ms: nat)
    requires Inv(net) && net.snd.outstanding != [] && (net.snd.elapsed + ms) % TWO32 >= net.snd.rto
    ensures var s' := Tick(net.snd, ms);
      && s'.out == [net.snd.outstanding[0]] && s'.next == net.snd.next && s'.lastAck == net.snd.lastAck
  {
    hide PacketOk, V.Fed;
  }
}
