/** What every received segment keeps: for any segment at all, and for segments of one sequence space. */
module ReceiverLaws {
  import opened Words
  import opened WrappingIntegers
  import opened ByteStreams
  import opened Reassembly
  import R = ReassemblyLaws
  import opened ReassemblyTheorems
  import opened Segments
  import opened SenderLaws
  import opened Receiving

  ghost predicate RInv(v: Receiver) {
    R.Inv(v.re) && v.capacity == v.re.capacity
  }

  // ---- any segment ----

  lemma ReceivePushes(v: Receiver, seg: Segment)
    ensures var v' := SegmentReceived(v, seg);
      && v'.capacity == v.capacity && (v.syn ==> v'.syn)
      && v'.syn == (v.syn || seg.header.syn) && (!v'.syn ==> v' == v)
      && (v'.re == v.re
          || v'.re == Push(v.re, seg.payload, 0, true)
          || v'.re == Push(v.re, seg.payload, StreamIndex(seg, v'.isn, Written(v)), seg.header.fin))
  {
    hide Push, StreamIndex;
  }

  /** Every SYN sets the initial number anew, also one that repeats or contradicts the first: from then on
      acknowledgments are counted from its number. */
  lemma LatestSynCounts(v: Receiver, seg: Segment)
    ensures var v' := SegmentReceived(v, seg);
      && (seg.header.syn ==> Ackno(v') == Some(Wrap(AbsAck(v'), seg.header.seqno)))
      && (!seg.header.syn && v.syn ==> Ackno(v') == Some(Wrap(AbsAck(v'), v.isn)))
      && (!seg.header.syn && !v.syn ==> Ackno(v') == None)
  {
    hide Push, StreamIndex, Wrap;
  }

  /** Whatever arrives, the acknowledgment number does not go back and neither edge of the window
      does: nothing once offered is withdrawn, in full or as clamped to the header's 16 bits. */
  lemma WindowNeverShrinks(v: Receiver, seg: Segment)
    requires RInv(v)
    ensures var v' := SegmentReceived(v, seg);
      && RInv(v') && AbsAck(v) <= AbsAck(v')
      && AbsAck(v) + WindowSize(v) <= AbsAck(v') + WindowSize(v')
      && AbsAck(v) + HeaderWindow(v) <= AbsAck(v') + HeaderWindow(v')
      && v.re.out.log <= v'.re.out.log && v'.re.out.read == v.re.out.read
      && v'.re.out.error == v.re.out.error && (v.re.out.ended ==> v'.re.out.ended)
  {
    hide Push, StreamIndex, SegmentReceived, R.Inv;
    ReceivePushes(v, seg);
    var idx := StreamIndex(seg, SegmentReceived(v, seg).isn, Written(v));
    PushFrame(v.re, seg.payload, 0, true);
    PushFrame(v.re, seg.payload, idx, seg.header.fin);
    RightEdgeIs(v);
    RightEdgeIs(SegmentReceived(v, seg));
  }

  /** The right edge depends on how much has been read, not on how much has arrived. */
  lemma RightEdgeIs(v: Receiver)
    requires RInv(v)
    ensures WindowSize(v) == v.capacity + v.re.out.read - Written(v) >= 0
  {
  }

  lemma OutputCapacity(r: Reassembler)
    requires R.Inv(r)
    ensures r.out.capacity == r.capacity && r.next == |r.out.log|
  {
  }

  lemma PushFrame(r: Reassembler, data: Bytes, index: nat, eof: bool)
    requires R.Inv(r)
    ensures var p := Push(r, data, index, eof);
      && R.Inv(p) && p.capacity == r.capacity
      && r.out.log <= p.out.log && p.out.read == r.out.read && p.out.error == r.out.error
      && (r.out.ended ==> p.out.ended)
  {
    hide Push;
    R.PushKeeps(r, data, index, eof);
    PrefixGrows(r, data, index, eof);
  }

  /** Reading moves the right edge by exactly what was read. */
  lemma ReadingOpensWindow(v: Receiver, len: nat)
    requires RInv(v)
    ensures var v' := Reading(v, len);
      && RInv(v') && AbsAck(v') == AbsAck(v)
      && WindowSize(v') == WindowSize(v) + |PeekAt(v.re.out, len)|
      && AbsAck(v) + HeaderWindow(v) <= AbsAck(v') + HeaderWindow(v')
  {
    hide R.Ordered, Total;
  }

  /** Until the stream ends, the right edge is the first index the reassembler would not accept. */
  lemma RightEdgeIsLimit(v: Receiver)
    requires RInv(v) && v.syn && !v.re.out.ended
    ensures AbsAck(v) + WindowSize(v) == Limit(v.re) + 1
  {
    OutputCapacity(v.re);
  }

  /** What the peer hears is that index, unless it lies further off than sixteen bits can say. */
  lemma EdgeHeard(v: Receiver)
    requires RInv(v) && v.syn && !v.re.out.ended
    ensures AbsAck(v) + HeaderWindow(v) == Min(Limit(v.re) + 1, AbsAck(v) + 0xffff)
  {
    hide R.Ordered, Total;
    RightEdgeIs(v);
    RightEdgeIsLimit(v);
  }

  // ---- segments of one sequence space ----

  /** A receiver apart from whether its output has been failed by a reset. */
  function Unfailed(v: Receiver): Receiver {
    v.(re := v.re.(out := v.re.out.(error := false)))
  }

  /** The receiver holds nothing but parts of the space, knows its initial number if it knows one,
      and has ended its output only if the space has ended and the output is all of it. */
  ghost predicate Fed(sp: Space, v: Receiver) {
    && RInv(v)
    && (if v.syn then v.isn == sp.isn else Unfailed(v).re == NewReassembler(v.capacity))
    && Slices(sp.log, v.re) && EndOk(sp.log, v.re)
    && (v.re.eof != NO_EOF || v.re.out.ended ==> sp.ended)
  }

  lemma FedGrows(sp: Space, sp': Space, v: Receiver)
    requires Grows(sp, sp') && Fed(sp, v)
    ensures Fed(sp', v)
  {
    hide R.Inv;
    forall c | c in v.re.chunks ensures IsSlice(sp'.log, c.key, c.data) {
      SliceOfLonger(sp.log, sp'.log, c.key, c.data);
    }
  }

  /** A segment near the receiver's position is placed at its true stream index. */
  lemma IndexIs(sp: Space, start: nat, seg: Segment, written: nat)
    requires Names(sp, start, seg) && start < TWO64 && written + 1 < TWO64
    requires Distance(start, written + 1) < TWO31
    ensures StreamIndex(seg, sp.isn, written) == U64(start - 1 + Flag(seg.header.syn))
    ensures start > 0 || seg.header.syn ==> U64(start - 1 + Flag(seg.header.syn)) == start - 1 + Flag(seg.header.syn)
  {
    hide Wrap, Unwrap;
    UnwrapInvertsWrap(start, sp.isn, written + 1);
  }

  lemma SynNamesIsn(sp: Space, start: nat, seg: Segment)
    requires Names(sp, start, seg) && seg.header.syn
    ensures start == 0 && seg.header.seqno == sp.isn
  {
  }

  lemma PushFeeds(sp: Space, v: Receiver, data: Bytes, index: nat, eof: bool)
    requires Fed(sp, v) && v.syn && (data == [] || IsSlice(sp.log, index, data)) && |sp.log| < NO_EOF
    requires eof ==> sp.ended && index + |data| == |sp.log|
    ensures Fed(sp, v.(re := Push(v.re, data, index, eof)))
  {
    hide Push, R.Inv, Slices, EndOk;
    PushFrame(v.re, data, index, eof);
    PushSlices(sp.log, v.re, data, index, eof);
    PushEnds(sp.log, v.re, data, index, eof);
    PushEof(v.re, data, index, eof);
    if !sp.ended {
      EndsOnlyIfRecorded(sp, v, data, index, eof);
    }
  }

  /** The output of a receiver fed from an unended space does not end. */
  lemma EndsOnlyIfRecorded(sp: Space, v: Receiver, data: Bytes, index: nat, eof: bool)
    requires Fed(sp, v) && !sp.ended && !eof && (data == [] || IsSlice(sp.log, index, data)) && |sp.log| < NO_EOF
    ensures var p := Push(v.re, data, index, eof); p.eof == NO_EOF && !p.out.ended
  {
    hide Push, R.Inv;
    PushFrame(v.re, data, index, eof);
    PushSlices(sp.log, v.re, data, index, eof);
    PushEof(v.re, data, index, eof);
    OutputCapacity(Push(v.re, data, index, eof));
  }

  /** A segment near the receiver's position, new or old, repeated or out of order. */
  lemma ReceiveFeeds(sp: Space, v: Receiver, start: nat, seg: Segment)
    requires Fed(sp, v) && Names(sp, start, seg) && |sp.log| + 2 < TWO64
    requires start < TWO64 && Distance(start, Written(v) + 1) < TWO31
    ensures Fed(sp, SegmentReceived(v, seg))
  {
    hide Push, R.Inv, Slices, EndOk, Wrap, Unwrap, StreamIndex;
    var v1 := if seg.header.syn then v.(syn := true, isn := seg.header.seqno) else v;
    if seg.header.syn {
      SynNamesIsn(sp, start, seg);
    }
    if v1.syn {
      FedWritten(sp, v);
      IndexIs(sp, start, seg, Written(v));
      if seg.header.syn && seg.payload == [] {
        if seg.header.fin {
          PushFeeds(sp, v1, [], 0, true);
        }
      } else {
        PushFeeds(sp, v1, seg.payload, StreamIndex(seg, v1.isn, Written(v)), seg.header.fin);
      }
    }
  }

  /** Failing the output does not change what has been received. */
  lemma FailingFeeds(sp: Space, v: Receiver)
    requires Fed(sp, v)
    ensures Fed(sp, v.(re := v.re.(out := Errored(v.re.out))))
  {
    hide R.Ordered, Total;
  }

  /** No more is written or acknowledged than the space holds. */
  lemma FedWritten(sp: Space, v: Receiver)
    requires Fed(sp, v)
    ensures v.re.out.log <= sp.log && Written(v) <= |sp.log| && AbsAck(v) <= |sp.log| + 1 + Flag(sp.ended)
    ensures v.re.out.ended ==> sp.ended && v.re.out.log == sp.log
    ensures v.syn ==> v.isn == sp.isn
  {
  }

  lemma FedIsRInv(sp: Space, v: Receiver)
    requires Fed(sp, v)
    ensures RInv(v)
  {
  }

  lemma ReadingFeeds(sp: Space, v: Receiver, len: nat)
    requires Fed(sp, v)
    ensures Fed(sp, Reading(v, len)) && AbsAck(Reading(v, len)) == AbsAck(v) && Reading(v, len).syn == v.syn
    ensures Reading(v, len).isn == v.isn
  {
    hide R.Ordered, Total;
  }
}
