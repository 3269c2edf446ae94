/** What the reassembler promises over whole runs of pushes and reads. */
module ReassemblyTheorems {
  import opened Words
  import opened ByteStreams
  import opened Reassembly
  import opened ReassemblyLaws

  predicate Open(s: Stream) {
    !s.error && !s.ended
  }

  predicate Within(x: nat, lo: int, hi: int) {
    lo <= x < hi
  }

  // ---- which bytes are there ----

  /** Cutting loses nothing: the bytes known before and the bytes arriving are the bytes still
      stored and the piece that is left. */
  lemma CutHave(r: Reassembler, data: Bytes, index: nat)
    requires Inv(r)
    ensures var m := Cut(r, data, index);
      forall x: nat :: Have(r, x) || Within(x, index, index + |data|)
                       <==> Have(m.state, x) || Within(x, m.at, m.at + m.size)
  {
    hide LowerBound, Trim, NewIndex, Ordered, Total, Cut;
    var m := Cut(r, data, index);
    NewIndexOk(r, index);
    assert m.at == NewIndex(r, index) by { CutAt(r, data, index); }
    var head, gone, tail := CutSplits(r, data, index);
    forall x: nat | Have(r, x) ensures Have(m.state, x) || Within(x, m.at, m.at + m.size) {
      if x >= r.next {
        var c :| c in r.chunks && Covers(c, x);
        assert c in gone || c in m.state.chunks;
      }
    }
    forall x: nat | Within(x, index, index + |data|)
      ensures Have(m.state, x) || Within(x, m.at, m.at + m.size)
    {
      if x >= m.at && x >= m.at + m.size {
        assert tail[0] in m.state.chunks && Covers(tail[0], x);
      }
    }
    forall x: nat | Have(m.state, x) ensures Have(r, x) {
      if x >= r.next {
        var c :| c in m.state.chunks && Covers(c, x);
        assert c in r.chunks;
      }
    }
  }

  lemma CutAt(r: Reassembler, data: Bytes, index: nat)
    ensures Cut(r, data, index).at == NewIndex(r, index)
  {
  }

  lemma StoreHave(r: Reassembler, at: nat, piece: Bytes)
    requires Inv(r) && r.next <= at < Limit(r) && piece != [] && Clear(r.chunks, at, at + |piece|)
    ensures forall x: nat :: Have(Store(r, at, piece), x) <==> Have(r, x) || Within(x, at, at + |piece|)
  {
    var s := Store(r, at, piece);
    if at == r.next {
      StoreNext(r, piece);
      var w := Accepted(r.out, piece);
      var left := Chunk(r.next + w, piece[w..]);
      forall x: nat | Within(x, at, at + |piece|) ensures Have(s, x) {
        if x >= s.next {
          assert left in s.chunks && Covers(left, x);
        }
      }
    } else {
      StoreLater(r, at, piece);
      assert Chunk(at, piece) in s.chunks;
      forall x: nat | Within(x, at, at + |piece|) ensures Have(s, x) {
        assert Covers(Chunk(at, piece), x);
      }
    }
  }

  lemma StoredHave(r: Reassembler, data: Bytes, index: nat)
    requires Inv(r) && Cut(r, data, index).at < Limit(r)
    ensures forall x: nat :: Have(Stored(r, data, index), x) <==> Have(r, x) || Within(x, index, index + |data|)
  {
    var m := Cut(r, data, index);
    CutKeeps(r, data, index);
    CutHave(r, data, index);
    var piece := Piece(m, data, index);
    if piece != [] {
      StoreHave(m.state, m.at, piece);
    }
  }

  /** A round that writes something loses nothing. */
  lemma DrainRoundHave(r: Reassembler)
    requires Inv(r) && r.chunks != [] && r.chunks[0].key == r.next && Accepted(r.out, r.chunks[0].data) > 0
    ensures forall x: nat :: Have(DrainRound(r), x) <==> Have(r, x)
  {
    var s, c := DrainRound(r), r.chunks[0];
    DrainRoundIs(r);
    if Accepted(r.out, c.data) < |c.data| {
      PartIsLast(r);
    }
    assert r.chunks == [c] + r.chunks[1..];
    forall x: nat ensures Have(s, x) <==> Have(r, x) {
      if Covers(c, x) && x >= s.next {
        assert Covers(s.chunks[0], x);
      }
      if x < s.next && x >= r.next {
        assert Covers(c, x);
      }
      if d :| d in s.chunks && Covers(d, x) {
        assert d in r.chunks || Covers(c, x);
      }
    }
  }

  /** While every chunk starts inside the window, draining an open output neither loses a byte nor
      miscounts. */
  lemma {:induction false} DrainExact(r: Reassembler)
    requires Inv(r) && Open(r.out) && forall c :: c in r.chunks ==> c.key < Limit(r)
    ensures forall x: nat :: Have(Drain(r), x) <==> Have(r, x)
    ensures Drain(r).count - Total(Drain(r).chunks) == r.count - Total(r.chunks)
    ensures Open(Drain(r).out)
    decreases |r.chunks|
  {
    if r.chunks == [] || r.chunks[0].key != r.next {
    } else {
      assert r.chunks[0] in r.chunks;
      NonEmpty(r.chunks, r.chunks[0]);
      var w := Accepted(r.out, r.chunks[0].data);
      assert w > 0;
      DrainRoundKeeps(r);
      DrainRoundHave(r);
      if w == |r.chunks[0].data| {
        DrainRoundIs(r);
        assert forall c :: c in r.chunks[1..] ==> c in r.chunks;
        DrainExact(DrainRound(r));
      }
    }
  }

  // ---- in-window pushes: the reassembler as a set of bytes ----

  /** Every stored chunk lies strictly past `next` and inside the window. */
  ghost predicate Windowed(r: Reassembler) {
    Inv(r) && forall c :: c in r.chunks ==> r.next < c.key && c.End() <= Limit(r)
  }

  /** The resting state of a reassembler nobody has overrun: moreover the count is exact. */
  ghost predicate Tidy(r: Reassembler) {
    Windowed(r) && r.count == Total(r.chunks)
  }

  /** `next` is the least byte that is missing. */
  lemma NextIsLeastMissing(r: Reassembler, x: nat)
    requires Tidy(r)
    ensures !Have(r, r.next) && (!Have(r, x) ==> r.next <= x)
  {
  }

  predicate NewToOutput(r: Reassembler, data: Bytes, index: nat) {
    Open(r.out) || index + |data| <= r.next || data == []
  }

  lemma StoredFits(r: Reassembler, data: Bytes, index: nat)
    requires Tidy(r) && index + |data| <= Limit(r) && Cut(r, data, index).at < Limit(r)
    requires NewToOutput(r, data, index)
    ensures var s := Stored(r, data, index);
      && Inv(s) && Limit(s) == Limit(r) && (Open(s.out) || s == r)
      && (forall c :: c in s.chunks ==> c.key < Limit(s) && c.End() <= Limit(s))
      && s.count == Total(s.chunks)
  {
    hide Ordered, Total, Cut;
    var m := Cut(r, data, index);
    var piece := Piece(m, data, index);
    StoredKeeps(r, data, index);
    CutKeeps(r, data, index);
    if piece != [] {
      if m.at == r.next {
        StoreNext(m.state, piece);
      } else {
        StoreLater(m.state, m.at, piece);
      }
    } else if !Open(r.out) {
      NothingCut(r, data, index);
    }
    var s := Stored(r, data, index);
    forall c | c in s.chunks ensures c.key < Limit(s) && c.End() <= Limit(s) {
      NonEmpty(s.chunks, c);
    }
  }

  /** Without new bytes nothing is erased either. */
  lemma NothingCut(r: Reassembler, data: Bytes, index: nat)
    requires Inv(r) && Cut(r, data, index).size <= 0
    ensures Cut(r, data, index).state == r
  {
    hide LowerBound, Trim, NewIndex, Cut, Total, Ordered;
    var head, gone, tail := CutSplits(r, data, index);
    forall c | c in gone ensures false {
      assert c in r.chunks;
      NonEmpty(r.chunks, c);
    }
    SomeChunk(gone);
    assert gone + tail == tail;
  }

  /** Draining stops only at a chunk that does not come next, when everything fits. */
  lemma {:induction false} DrainSettles(r: Reassembler)
    requires Inv(r) && forall c :: c in r.chunks ==> c.key < Limit(r) && c.End() <= Limit(r)
    requires Open(r.out) || forall c :: c in r.chunks ==> r.next < c.key
    ensures Inv(Drain(r)) && Limit(Drain(r)) == Limit(r)
    ensures forall c :: c in Drain(r).chunks ==> c in r.chunks && Drain(r).next < c.key
    ensures r.next <= Drain(r).next
    decreases |r.chunks|
  {
    hide Total;
    DrainKeeps(r);
    if r.chunks == [] {
    } else {
      var c := r.chunks[0];
      assert c in r.chunks;
      if c.key == r.next {
        DrainRoundKeeps(r);
        DrainRoundIs(r);
        assert forall d :: d in r.chunks[1..] ==> d in r.chunks;
        DrainSettles(DrainRound(r));
      } else {
        forall d | d in r.chunks ensures r.next < d.key {
          FirstIsLeast(r.chunks, d);
        }
      }
    }
  }

  /** One push inside the window: afterwards exactly the bytes known before and the bytes pushed are
      known, whatever overlaps what, and the count is again exact. */
  lemma PushRefines(r: Reassembler, data: Bytes, index: nat, eof: bool)
    requires Tidy(r) && index + |data| <= Limit(r) && NewToOutput(r, data, index)
    ensures Tidy(Push(r, data, index, eof)) && Limit(Push(r, data, index, eof)) == Limit(r)
    ensures forall x: nat :: Have(Push(r, data, index, eof), x) <==> Have(r, x) || Within(x, index, index + |data|)
  {
    hide Cut, Ordered, Total, Drain;
    var m := Cut(r, data, index);
    CutKeeps(r, data, index);
    if Limit(r) <= m.at {
      CutAt(r, data, index);
      NewIndexOk(r, index);
      NothingCut(r, data, index);
    } else {
      var s := Stored(r, data, index);
      StoredFits(r, data, index);
      StoredHave(r, data, index);
      DrainSettles(s);
      if Open(s.out) {
        DrainExact(s);
      } else {
        DrainsNothing(r);
      }
    }
  }

  lemma DrainsNothing(r: Reassembler)
    requires forall c :: c in r.chunks ==> r.next < c.key
    ensures Drain(r) == r
  {
    if r.chunks != [] {
      assert r.chunks[0] in r.chunks;
    }
  }

  // ---- when the count is exact ----

  /** The new bytes come next, but they reach past the window and past everything stored. */
  predicate Overruns(r: Reassembler, data: Bytes, index: nat) {
    && NewIndex(r, index) == r.next < Limit(r) < index + |data|
    && forall c :: c in r.chunks ==> c.End() <= index + |data|
  }

  /** The same in terms of the piece the push is left with: the output has no room for all of it. */
  predicate PieceOverflows(r: Reassembler, data: Bytes, index: nat) {
    var m := Cut(r, data, index);
    m.at == r.next && m.at < Limit(r) && |Piece(m, data, index)| > Room(r.out)
  }

  lemma OverrunsIff(r: Reassembler, data: Bytes, index: nat)
    requires Inv(r)
    ensures Overruns(r, data, index) <==> PieceOverflows(r, data, index)
  {
    hide Cut, Ordered, Total, NewIndex;
    var m := Cut(r, data, index);
    var head, gone, tail := CutSplits(r, data, index);
    CutAt(r, data, index);
    if m.at == r.next < Limit(r) {
      forall c | c in head ensures false {
        assert c in r.chunks;
        NonEmpty(r.chunks, c);
      }
      if m.at + m.size > Limit(r) {
        forall c | c in r.chunks ensures c.End() <= index + |data| {
          assert c in tail ==> c.key < Limit(r) || c.key == r.next;
        }
      } else if Limit(r) < index + |data| {
        assert tail[0] in r.chunks;
      }
    }
  }

  lemma OnlyChunk(cs: Chunks, c: Chunk)
    requires Ordered(cs) && c in cs && forall d :: d in cs ==> d == c
    ensures cs == [c]
  {
    forall d | d in cs ensures d !in cs[1..] {
      NonEmpty(cs, c);
      assert cs[0] in cs;
    }
    assert forall d :: d in cs[1..] ==> d in cs;
    SomeChunk(cs[1..]);
  }

  /** Storing a piece that comes next, and for which the output has no room, leaves a single chunk with the
      output full: draining erases it uncounted. */
  lemma OverrunDrops(r: Reassembler, piece: Bytes)
    requires Inv(r) && Open(r.out) && r.next < Limit(r) && Clear(r.chunks, r.next, r.next + |piece|)
    requires |piece| > Room(r.out)
    ensures var d := Drain(Store(r, r.next, piece));
            d.chunks == [] && d.count == r.count - Total(r.chunks) + |piece| - Room(r.out)
  {
    hide Insert, Store;
    StoreNext(r, piece);
    var s, w := Store(r, r.next, piece), Room(r.out);
    var left := Chunk(r.next + w, piece[w..]);
    assert left in s.chunks;
    forall c | c in s.chunks ensures c == left {
      if c in r.chunks {
        NonEmpty(r.chunks, c);
      }
    }
    OnlyChunk(s.chunks, left);
    assert Total(s.chunks) == |left.data| + Total([]);
    assert Accepted(s.out, left.data) == 0;
    DrainRoundKeeps(s);
    DrainRoundIs(s);
  }

  lemma OpenCountExactIff(r: Reassembler, data: Bytes, index: nat, eof: bool)
    requires Inv(r) && Open(r.out) && r.count == Total(r.chunks)
    ensures Push(r, data, index, eof).count == Total(Push(r, data, index, eof).chunks)
            <==> !PieceOverflows(r, data, index)
  {
    hide Cut, Ordered, Drain;
    var m := Cut(r, data, index);
    CutKeeps(r, data, index);
    if m.at < Limit(r) {
      if PieceOverflows(r, data, index) {
        OverrunDrops(m.state, Piece(m, data, index));
      } else {
        StoredKeeps(r, data, index);
        StoredStartsInside(r, data, index);
        DrainExact(Stored(r, data, index));
      }
    }
  }

  /** A chunk waits to be written at `next`. */
  predicate WaitsAtNext(r: Reassembler) {
    r.chunks != [] && r.chunks[0].key == r.next
  }

  lemma WaitsIff(r: Reassembler)
    requires Inv(r)
    ensures WaitsAtNext(r) <==> exists c :: c in r.chunks && c.key == r.next
  {
    if r.chunks != [] {
      assert r.chunks[0] in r.chunks;
    }
    forall c | c in r.chunks && c.key == r.next ensures WaitsAtNext(r) {
      FirstIsLeast(r.chunks, c);
    }
  }

  /** An ended or failed output takes nothing: draining erases a chunk that comes next, uncounted. */
  lemma ClosedDrain(r: Reassembler)
    requires Inv(r) && !Open(r.out)
    ensures Drain(r).count - Total(Drain(r).chunks) > r.count - Total(r.chunks) <==> WaitsAtNext(r)
    ensures !WaitsAtNext(r) ==> Drain(r) == r
  {
    if WaitsAtNext(r) {
      DrainRoundKeeps(r);
      NonEmpty(r.chunks, r.chunks[0]);
    }
  }

  /** A chunk that comes next survives the cut, or is swallowed by new bytes that come next. */
  lemma WaitsAfterCut(r: Reassembler, data: Bytes, index: nat)
    requires Inv(r)
    ensures var m := Cut(r, data, index);
      && (WaitsAtNext(m.state) ==> WaitsAtNext(r))
      && (WaitsAtNext(r) && !WaitsAtNext(m.state) ==> m.at == r.next && m.size > 0)
  {
    hide Cut, Ordered, Total;
    var m := Cut(r, data, index);
    CutKeeps(r, data, index);
    WaitsIff(r);
    WaitsIff(m.state);
    var head, gone, tail := CutSplits(r, data, index);
    if WaitsAtNext(r) && !WaitsAtNext(m.state) {
      var c :| c in r.chunks && c.key == r.next;
      NonEmpty(r.chunks, c);
      assert c in gone;
    }
  }

  /** New bytes that come next wait there too when the output is ended or failed. */
  lemma ClosedStored(r: Reassembler, data: Bytes, index: nat)
    requires Inv(r) && !Open(r.out) && Cut(r, data, index).at < Limit(r)
    ensures var m, s := Cut(r, data, index), Stored(r, data, index);
      && s.out == r.out
      && (WaitsAtNext(s) <==> WaitsAtNext(m.state) || (m.at == r.next && m.size > 0))
  {
    hide Cut, Ordered, Total, Insert;
    var m := Cut(r, data, index);
    var piece := Piece(m, data, index);
    CutKeeps(r, data, index);
    StoredKeeps(r, data, index);
    WaitsIff(m.state);
    WaitsIff(Stored(r, data, index));
    if piece != [] {
      if m.at == r.next {
        StoreNext(m.state, piece);
        assert Chunk(r.next, piece[0..]) in Stored(r, data, index).chunks;
      } else {
        StoreLater(m.state, m.at, piece);
      }
    }
  }

  lemma ClosedCountExactIff(r: Reassembler, data: Bytes, index: nat, eof: bool)
    requires Inv(r) && !Open(r.out) && r.count == Total(r.chunks)
    ensures Push(r, data, index, eof).count == Total(Push(r, data, index, eof).chunks)
            <==> !OffersNext(r, data, index)
  {
    hide Cut, Ordered, Drain, Stored, Total, OffersNext;
    CutKeeps(r, data, index);
    OffersNextIff(r, data, index);
    if Cut(r, data, index).at < Limit(r) {
      StoredKeeps(r, data, index);
      ClosedStored(r, data, index);
      WaitsAfterCut(r, data, index);
      ClosedDrain(Stored(r, data, index));
      OffersNextIff(r, data, index);
      DrainKeeps(Stored(r, data, index));
    }
  }

  /** The push starts inside the window, and new or stored bytes come next. */
  predicate OffersNext(r: Reassembler, data: Bytes, index: nat) {
    NewIndex(r, index) < Limit(r) && (WaitsAtNext(r) || index <= r.next < index + |data|)
  }

  /** The same in terms of the piece the push is left with. */
  lemma OffersNextIff(r: Reassembler, data: Bytes, index: nat)
    requires Inv(r)
    ensures var m := Cut(r, data, index);
            OffersNext(r, data, index) <==> m.at < Limit(r) && (WaitsAtNext(r) || (m.at == r.next && m.size > 0))
  {
    hide Cut, Ordered, Total, NewIndex;
    CutAt(r, data, index);
    WaitsIff(r);
    var head, gone, tail := CutSplits(r, data, index);
    if !WaitsAtNext(r) && index <= r.next {
      forall c | c in r.chunks ensures r.next < c.key {
      }
      NothingBefore(r, index);
      if tail != [] {
        assert tail[0] in r.chunks;
      }
    }
  }

  /** What starts at or before `next`, with every chunk past its start, is new from `next` on. */
  lemma NothingBefore(r: Reassembler, index: nat)
    requires index <= r.next && forall c :: c in r.chunks ==> index < c.key
    ensures NewIndex(r, index) == r.next
  {
    assert r.chunks != [] ==> r.chunks[0] in r.chunks;
    assert UpperBound(r.chunks, index) == 0;
  }

  /** From an exact count, a push leaves the count of unassembled bytes exact if and only if it does not
      overrun an open output and offers nothing to one that was ended or failed. */
  lemma CountExactIff(r: Reassembler, data: Bytes, index: nat, eof: bool)
    requires Inv(r) && r.count == Total(r.chunks)
    ensures Push(r, data, index, eof).count == Total(Push(r, data, index, eof).chunks)
            <==> !(if Open(r.out) then Overruns(r, data, index) else OffersNext(r, data, index))
  {
    hide Push, Cut, Ordered, Total;
    if Open(r.out) {
      OverrunsIff(r, data, index);
      OpenCountExactIff(r, data, index, eof);
    } else {
      OffersNextIff(r, data, index);
      ClosedCountExactIff(r, data, index, eof);
    }
  }

  lemma StoredStartsInside(r: Reassembler, data: Bytes, index: nat)
    requires Inv(r) && Open(r.out) && Cut(r, data, index).at < Limit(r) && !PieceOverflows(r, data, index)
    ensures var s := Stored(r, data, index);
            Open(s.out) && Limit(s) == Limit(r) && forall c :: c in s.chunks ==> c.key < Limit(s)
  {
    hide Cut, Ordered, Total, Insert;
    var m := Cut(r, data, index);
    var piece := Piece(m, data, index);
    CutKeeps(r, data, index);
    StoredKeeps(r, data, index);
    if piece != [] {
      if m.at == r.next {
        StoreNext(m.state, piece);
      } else {
        StoreLater(m.state, m.at, piece);
      }
    }
  }

  lemma CutOfNothingStored(r: Reassembler, data: Bytes, index: nat)
    requires r.chunks == [] && r.next <= index
    ensures Cut(r, data, index) == Remainder(r, index, |data|)
  {
    assert r.chunks[..0] + [] == r.chunks;
  }

  /** The count can drift from what is stored: a capacity of one byte, and two bytes pushed. */
  lemma CountCanDrift()
    ensures var r := Push(NewReassembler(1), [7, 8], 0, false);
            r.count == 1 && r.chunks == []
  {
    hide Cut, Drain, Store, Insert;
    var r, data := NewReassembler(1), [7, 8];
    CutOfNothingStored(r, data, 0);
    assert data[0..2] == data;
    OverrunDrops(r, data);
  }

  // ---- substrings of one stream ----

  /** Everything stored or written is what `whole` holds at that place. */
  ghost predicate Slices(whole: Bytes, r: Reassembler) {
    (forall c :: c in r.chunks ==> IsSlice(whole, c.key, c.data)) && r.out.log <= whole
  }

  lemma WriteSlices(whole: Bytes, s: Stream, data: Bytes)
    requires s.log <= whole && IsSlice(whole, |s.log|, data)
    ensures WriteTo(s, data).log <= whole
    ensures IsSlice(whole, |s.log| + Accepted(s, data), data[Accepted(s, data)..])
  {
    var n, w := |s.log|, Accepted(s, data);
    SubSlice(whole, n, data, 0, w);
    SubSlice(whole, n, data, w, |data|);
    assert whole[..n] + whole[n..n + w] == whole[..n + w];
  }

  lemma StoreSlices(whole: Bytes, r: Reassembler, at: nat, piece: Bytes)
    requires Inv(r) && r.next <= at < Limit(r) && piece != [] && Clear(r.chunks, at, at + |piece|)
    requires Slices(whole, r) && IsSlice(whole, at, piece)
    ensures Slices(whole, Store(r, at, piece))
  {
    hide Insert;
    if at == r.next {
      StoreNext(r, piece);
      WriteSlices(whole, r.out, piece);
    } else {
      StoreLater(r, at, piece);
    }
  }

  lemma {:induction false} DrainSlices(whole: Bytes, r: Reassembler)
    requires Inv(r) && Slices(whole, r)
    ensures Slices(whole, Drain(r))
    decreases |r.chunks|
  {
    hide Insert, Ordered, Total;
    if r.chunks == [] || r.chunks[0].key != r.next {
    } else {
      assert r.chunks[0] in r.chunks;
      WriteSlices(whole, r.out, r.chunks[0].data);
      DrainRoundIs(r);
      DrainRoundKeeps(r);
      assert forall c :: c in r.chunks[1..] ==> c in r.chunks;
      if Accepted(r.out, r.chunks[0].data) == |r.chunks[0].data| {
        DrainSlices(whole, DrainRound(r));
      }
    }
  }

  /** Pushing substrings of one stream, in any order, overlapping, in or out of the window: the
      output is always a prefix of that stream and the stored chunks are parts of it. */
  lemma PushSlices(whole: Bytes, r: Reassembler, data: Bytes, index: nat, eof: bool)
    requires Inv(r) && Slices(whole, r) && (data == [] || IsSlice(whole, index, data))
    ensures Slices(whole, Push(r, data, index, eof))
  {
    hide Cut, Drain, Ordered, Total;
    var m := Cut(r, data, index);
    CutKeeps(r, data, index);
    if m.at < Limit(r) {
      var piece := Piece(m, data, index);
      if piece != [] {
        SubSlice(whole, index, data, m.at - index, m.at - index + m.size);
        StoreSlices(whole, m.state, m.at, piece);
      }
      StoredKeeps(r, data, index);
      DrainSlices(whole, Stored(r, data, index));
    }
  }

  /** A recorded end is the end of the stream, and the output ends only once it is complete. */
  ghost predicate EndOk(whole: Bytes, r: Reassembler) {
    (r.eof == NO_EOF || r.eof == |whole|) && (r.out.ended ==> r.out.log == whole)
  }

  lemma PushEnds(whole: Bytes, r: Reassembler, data: Bytes, index: nat, eof: bool)
    requires Inv(r) && Slices(whole, r) && (data == [] || IsSlice(whole, index, data))
    requires EndOk(whole, r) && |whole| < NO_EOF && (eof ==> index + |data| == |whole|)
    ensures EndOk(whole, Push(r, data, index, eof))
  {
    hide Cut, Ordered, Total, Stored, Drain, Inv;
    PushSlices(whole, r, data, index, eof);
    PushNext(r, data, index, eof);
    PrefixGrows(r, data, index, eof);
    PushEof(r, data, index, eof);
  }

  lemma PushNext(r: Reassembler, data: Bytes, index: nat, eof: bool)
    requires Inv(r)
    ensures Push(r, data, index, eof).next == |Push(r, data, index, eof).out.log|
  {
    PushKeeps(r, data, index, eof);
  }

  /** A push records its end unless it starts past the window, and ends the output once the
      recorded end is reached. */
  lemma PushEof(r: Reassembler, data: Bytes, index: nat, eof: bool)
    requires Inv(r)
    ensures var p, inside := Push(r, data, index, eof), Cut(r, data, index).at < Limit(r);
      && p.eof == (if eof && inside then index + |data| else r.eof)
      && p.out.ended == (r.out.ended || (inside && p.eof <= p.next))
  {
    hide Cut, Ordered, Total;
    CutKeeps(r, data, index);
    if Cut(r, data, index).at < Limit(r) {
      StoredFrame(r, data, index);
      DrainFrame(Stored(r, data, index));
    }
  }

  lemma StoredFrame(r: Reassembler, data: Bytes, index: nat)
    requires Inv(r)
    ensures var s := Stored(r, data, index);
      && s.eof == r.eof && s.out.ended == r.out.ended && s.out.error == r.out.error
      && s.out.read == r.out.read && r.out.log <= s.out.log && s.capacity == r.capacity
  {
    hide Cut, Ordered, Total, Insert;
    CutKeeps(r, data, index);
  }

  /** Draining leaves the recorded end alone and neither ends nor fails the output. */
  lemma DrainFrame(r: Reassembler)
    ensures Drain(r).eof == r.eof && Drain(r).out.ended == r.out.ended && Drain(r).out.error == r.out.error
    ensures Drain(r).out.read == r.out.read && r.out.log <= Drain(r).out.log && Drain(r).capacity == r.capacity
    decreases |r.chunks|
  {
  }

  /** What has been written stays written. */
  lemma PrefixGrows(r: Reassembler, data: Bytes, index: nat, eof: bool)
    requires Inv(r)
    ensures var p := Push(r, data, index, eof);
      && r.out.log <= p.out.log && p.out.read == r.out.read && p.out.error == r.out.error
      && (r.out.ended ==> p.out.ended) && p.capacity == r.capacity
  {
    hide Cut, Stored, Ordered, Total;
    CutKeeps(r, data, index);
    if Cut(r, data, index).at < Limit(r) {
      StoredFrame(r, data, index);
      DrainFrame(Stored(r, data, index));
    }
  }
}
