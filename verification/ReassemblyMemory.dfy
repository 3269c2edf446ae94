/** How much a reassembler stores: exactly when its chunks stay inside the window, and exactly when it
    stays within its capacity. */
module ReassemblyMemory {
  import opened Words
  import opened ByteStreams
  import opened Reassembly
  import opened ReassemblyLaws
  import opened ReassemblyTheorems

  /** The new bytes start past `next` and inside the window, and end past it. */
  predicate Overhangs(r: Reassembler, data: Bytes, index: nat) {
    r.next < NewIndex(r, index) < Limit(r) < index + |data|
  }

  /** With every chunk inside the window, an overhanging substring is not cut short, and neither is one
      that reaches past the window from `next` on. */
  lemma UncutPastWindow(r: Reassembler, data: Bytes, index: nat)
    requires Windowed(r) && NewIndex(r, index) < Limit(r) < index + |data|
    ensures var m := Cut(r, data, index); m.at + m.size == index + |data| && m.size > 0
    ensures forall c :: c in Cut(r, data, index).state.chunks ==> c.End() <= NewIndex(r, index)
    ensures Total(Cut(r, data, index).state.chunks) == Total(r.chunks[..LowerBound(r.chunks, NewIndex(r, index))])
  {
    hide Cut, Ordered, Total, NewIndex;
    var m := Cut(r, data, index);
    var head, gone, tail := CutSplits(r, data, index);
    CutAt(r, data, index);
    SomeChunk(tail);
    assert head + [] == head;
  }

  lemma DropsFirst(r: Reassembler)
    requires Inv(r) && WaitsAtNext(r) && Accepted(r.out, r.chunks[0].data) == 0
    ensures Drain(r).chunks == r.chunks[1..] && Drain(r).next == r.next && Limit(Drain(r)) == Limit(r)
  {
    NonEmpty(r.chunks, r.chunks[0]);
    DrainRoundIs(r);
    DrainRoundKeeps(r);
  }

  /** Bytes that come next leave every chunk inside the window, whether they fit or not. */
  lemma NextStaysWindowed(r: Reassembler, piece: Bytes)
    requires Windowed(r) && r.next < Limit(r) && piece != [] && Clear(r.chunks, r.next, r.next + |piece|)
    ensures Windowed(Drain(Store(r, r.next, piece)))
  {
    hide Ordered, Total, Drain, Store;
    var s, w := Store(r, r.next, piece), Accepted(r.out, piece);
    StoreKeeps(r, r.next, piece);
    StoreNext(r, piece);
    DrainKeeps(s);
    if w == |piece| {
      forall c | c in s.chunks ensures c.key < Limit(s) && c.End() <= Limit(s) {
        NonEmpty(r.chunks, c);
      }
      DrainSettles(s);
    } else {
      var left := Chunk(s.next, piece[w..]);
      assert left in s.chunks;
      FirstIsLeast(s.chunks, left);
      assert s.chunks[0] in s.chunks;
      FirstOnly(s, left);
      DropsFirst(s);
    }
  }

  lemma FirstOnly(r: Reassembler, left: Chunk)
    requires Inv(r) && left in r.chunks && left.key == r.next
    ensures r.chunks[0] == left && forall c :: c in r.chunks[1..] ==> c in r.chunks && r.next < c.key && c != left
  {
    NonEmpty(r.chunks, left);
    assert r.chunks[0] in r.chunks;
    NonEmpty(r.chunks, r.chunks[0]);
  }

  /** A push keeps every stored byte inside the window if and only if it does not overhang it. */
  lemma PushWindowedIff(r: Reassembler, data: Bytes, index: nat, eof: bool)
    requires Windowed(r)
    ensures Windowed(Push(r, data, index, eof)) <==> !Overhangs(r, data, index)
    ensures Limit(Push(r, data, index, eof)) == Limit(r)
  {
    hide Cut, Ordered, Total, Drain, Store, NewIndex;
    var m := Cut(r, data, index);
    var piece := Piece(m, data, index);
    CutKeeps(r, data, index);
    CutAt(r, data, index);
    PushKeeps(r, data, index, eof);
    if m.at < Limit(r) {
      if Limit(r) < index + |data| {
        UncutPastWindow(r, data, index);
      } else {
        var head, gone, tail := CutSplits(r, data, index);
      }
      if piece == [] {
        NothingCut(r, data, index);
        DrainsNothing(r);
      } else if m.at == r.next {
        NextStaysWindowed(m.state, piece);
      } else {
        LaterWindowedIff(m.state, m.at, piece);
      }
    }
  }

  lemma LaterWindowedIff(r: Reassembler, at: nat, piece: Bytes)
    requires Windowed(r) && r.next < at < Limit(r) && piece != [] && Clear(r.chunks, at, at + |piece|)
    ensures Windowed(Drain(Store(r, at, piece))) <==> at + |piece| <= Limit(r)
  {
    hide Ordered, Total, Drain;
    StoreLater(r, at, piece);
    DrainsNothing(Store(r, at, piece));
    assert Chunk(at, piece) in Store(r, at, piece).chunks;
  }

  /** How many bytes are missing between `next` and `x`. */
  function Missing(r: Reassembler, x: nat): int {
    x - r.next - Total(r.chunks[..LowerBound(r.chunks, x)])
  }

  lemma WindowedFits(r: Reassembler)
    requires Windowed(r)
    ensures |Buffer(r.out)| + Total(r.chunks) <= r.capacity
  {
    if r.chunks != [] {
      assert r.chunks[0] in r.chunks && r.chunks[|r.chunks| - 1] in r.chunks;
      TotalWithinSpan(r.chunks, r.next);
    }
  }

  lemma OverhangTotal(r: Reassembler, data: Bytes, index: nat, eof: bool)
    requires Windowed(r) && Overhangs(r, data, index)
    ensures var p, x := Push(r, data, index, eof), NewIndex(r, index);
      && |Buffer(p.out)| == |Buffer(r.out)| && p.capacity == r.capacity
      && Total(p.chunks) == Total(r.chunks[..LowerBound(r.chunks, x)]) + (index + |data| - x)
  {
    hide Cut, Ordered, Total, Drain, Insert, NewIndex, LowerBound;
    var m := Cut(r, data, index);
    var piece := Piece(m, data, index);
    CutKeeps(r, data, index);
    CutAt(r, data, index);
    UncutPastWindow(r, data, index);
    InsertOk(m.state.chunks, m.at, piece);
    StoreLater(m.state, m.at, piece);
    DrainsNothing(Stored(r, data, index));
  }

  /** Exactly when a push to a reassembler whose chunks lie in the window makes it hold more bytes than
      its capacity: when the new bytes reach past the window by more than is missing before them. */
  lemma OverhangWithinCapacityIff(r: Reassembler, data: Bytes, index: nat, eof: bool)
    requires Windowed(r)
    ensures var p := Push(r, data, index, eof);
            |Buffer(p.out)| + Total(p.chunks) <= r.capacity
            <==> !(Overhangs(r, data, index) && index + |data| - Limit(r) > Missing(r, NewIndex(r, index)))
  {
    hide Push, Ordered, Total, NewIndex, LowerBound;
    PushWindowedIff(r, data, index, eof);
    PrefixGrows(r, data, index, eof);
    if Overhangs(r, data, index) {
      OverhangTotal(r, data, index, eof);
    } else {
      WindowedFits(Push(r, data, index, eof));
    }
  }
}
