/** Keeping the books of a reassembler: what a push adds, what it loses, and what that does to memory. */
module ReassemblyBalance {
  import opened Words
  import opened ByteStreams
  import opened Reassembly
  import opened ReassemblyLaws
  import opened ReassemblyTheorems

  // ---- stored bytes as a set ----

  ghost function Interval(lo: nat, hi: nat): (s: set<nat>)
    ensures forall x: nat :: x in s <==> lo <= x < hi
    ensures |s| == Max(0, hi - lo)
    decreases hi - lo
  {
    if lo >= hi then {} else {lo} + Interval(lo + 1, hi)
  }

  ghost function Indices(cs: Chunks): set<nat> {
    if cs == [] then {} else Interval(cs[0].key, cs[0].End()) + Indices(cs[1..])
  }

  lemma {:induction false} IndicesHold(cs: Chunks, x: nat)
    ensures x in Indices(cs) <==> exists c :: c in cs && Covers(c, x)
  {
    if cs == [] {
    } else {
      IndicesHold(cs[1..], x);
      assert cs == [cs[0]] + cs[1..];
      assert x in Interval(cs[0].key, cs[0].End()) <==> Covers(cs[0], x);
    }
  }

  lemma {:induction false} IndicesCount(cs: Chunks)
    requires Ordered(cs)
    ensures |Indices(cs)| == Total(cs)
  {
    hide Interval;
    if cs == [] {
    } else {
      IndicesCount(cs[1..]);
      var first, rest := Interval(cs[0].key, cs[0].End()), Indices(cs[1..]);
      forall x: nat | x in first ensures x !in rest {
        IndicesHold(cs[1..], x);
      }
      assert first !! rest;
    }
  }

  lemma IndicesAre(cs: Chunks)
    requires Ordered(cs)
    ensures forall x: nat :: x in Indices(cs) <==> exists c :: c in cs && Covers(c, x)
    ensures |Indices(cs)| == Total(cs)
  {
    hide Indices, Ordered, Total;
    forall x: nat ensures x in Indices(cs) <==> exists c :: c in cs && Covers(c, x) {
      IndicesHold(cs, x);
    }
    IndicesCount(cs);
  }

  // ---- new bytes ----

  /** The bytes of a substring that are not known yet. */
  ghost function NewBytes(r: Reassembler, data: Bytes, index: nat): set<nat> {
    set x: nat | index <= x < index + |data| && !Have(r, x)
  }

  /** What the cut leaves of a substring, less what it erases, is what is new of it. */
  lemma NewBytesAre(r: Reassembler, data: Bytes, index: nat)
    requires Inv(r)
    ensures var m := Cut(r, data, index);
            |NewBytes(r, data, index)| == Max(0, m.size) - (r.count - m.state.count)
  {
    hide Cut, Indices, Ordered, Total, Interval;
    var m := Cut(r, data, index);
    CutKeeps(r, data, index);
    CutHave(r, data, index);
    IndicesAre(r.chunks);
    IndicesAre(m.state.chunks);
    var known, kept, piece, more :=
      Indices(r.chunks), Indices(m.state.chunks), Interval(m.at, m.at + m.size), NewBytes(r, data, index);
    PieceApart(m.state, m.at, m.size);
    KnownSplit(r, m.state, m.at, m.size, data, index);
    assert known !! more && kept !! piece && kept + piece == known + more;
    assert |kept + piece| == |kept| + |piece| && |known + more| == |known| + |more|;
  }

  lemma PieceApart(r: Reassembler, at: nat, size: int)
    requires Inv(r) && Clear(r.chunks, at, at + size) && at + size >= 0
    ensures Indices(r.chunks) !! Interval(at, at + size)
  {
    hide Indices, Ordered, Total, Interval;
    IndicesAre(r.chunks);
  }

  lemma KnownSplit(r: Reassembler, s: Reassembler, at: nat, size: int, data: Bytes, index: nat)
    requires Inv(r) && Inv(s) && s.next == r.next <= at && at + size >= 0
    requires forall x: nat :: Have(r, x) || Within(x, index, index + |data|) <==> Have(s, x) || Within(x, at, at + size)
    ensures Indices(r.chunks) !! NewBytes(r, data, index)
    ensures Indices(s.chunks) + Interval(at, at + size) == Indices(r.chunks) + NewBytes(r, data, index)
  {
    hide Indices, Inv, Interval, Have;
    StoredIsPast(r);
    StoredIsPast(s);
    var left, right := Indices(s.chunks) + Interval(at, at + size), Indices(r.chunks) + NewBytes(r, data, index);
    forall x: nat ensures x in left <==> x in right {
      assert Have(r, x) || Within(x, index, index + |data|) <==> Have(s, x) || Within(x, at, at + size);
    }
  }

  /** A byte is stored if and only if it is known and not written yet. */
  lemma StoredIsPast(r: Reassembler)
    requires Inv(r)
    ensures forall x: nat :: x in Indices(r.chunks) <==> Have(r, x) && r.next <= x
    ensures forall x: nat :: x < r.next ==> Have(r, x)
  {
    hide Indices, Ordered, Total;
    IndicesAre(r.chunks);
  }

  // ---- the balance ----

  lemma StoreBalance(r: Reassembler, at: nat, piece: Bytes)
    ensures var s := Store(r, at, piece); |Buffer(s.out)| + s.count == |Buffer(r.out)| + r.count + |piece|
    ensures Store(r, at, piece).out.capacity == r.out.capacity
  {
    hide Insert;
  }

  lemma {:induction false} DrainBalance(r: Reassembler)
    ensures |Buffer(Drain(r).out)| + Drain(r).count == |Buffer(r.out)| + r.count
    decreases |r.chunks|
  {
    hide Insert;
    if r.chunks == [] || r.chunks[0].key != r.next {
    } else {
      if Accepted(r.out, r.chunks[0].data) == |r.chunks[0].data| {
        DrainBalance(DrainRound(r));
      }
    }
  }

  /** Bytes a push brings in: the new ones, if it starts inside the window. Past it, a push brings nothing
      in; what it would have replaced is erased all the same. */
  ghost function Gain(r: Reassembler, data: Bytes, index: nat): int {
    if NewIndex(r, index) < Limit(r) then |NewBytes(r, data, index)|
    else Cut(r, data, index).state.count - r.count
  }

  /** A push that starts past the window erases something if and only if the output is full, a chunk waits
      at `next`, and the push covers all of it from before: that chunk is then lost, off the count too. */
  lemma PastWindowErases(r: Reassembler, data: Bytes, index: nat)
    requires Inv(r) && NewIndex(r, index) >= Limit(r)
    ensures Gain(r, data, index) ==
            if WaitsAtNext(r) && index < r.next && r.chunks[0].End() <= index + |data| then -|r.chunks[0].data| else 0
  {
    hide Cut, Inv, Total, NewIndex;
    var head, gone, tail := CutSplits(r, data, index);
    CutAt(r, data, index);
    if WaitsAtNext(r) && index < r.next && r.chunks[0].End() <= index + |data| {
      CoveredGoes(r, data, index, head, gone, tail);
    }
    if gone == [] {
      assert gone + tail == tail;
    } else {
      GoneWaited(r, data, index, gone[0]);
      AllGone(r.chunks, head, gone, tail);
    }
  }

  /** A chunk waiting at `next` that is covered from before is neither in front of the new bytes nor past them. */
  lemma CoveredGoes(r: Reassembler, data: Bytes, index: nat, head: Chunks, gone: Chunks, tail: Chunks)
    requires Inv(r) && WaitsAtNext(r) && index < r.next && r.chunks[0].End() <= index + |data|
    requires r.chunks == head + (gone + tail) && NewIndex(r, index) >= Limit(r)
    requires var m := Cut(r, data, index);
      && m.at == NewIndex(r, index) && (forall c :: c in head ==> c.End() <= m.at)
      && (forall c :: c in tail ==> m.at + m.size <= c.key)
      && (m.at <= index + |data| && m.at + m.size < index + |data| ==>
            tail != [] && tail[0].key == m.at + m.size && index + |data| < tail[0].End())
    ensures gone != []
  {
    hide Cut, Ordered, Total, NewIndex;
    NothingBefore(r, index);
    OnlyOneAtLimit(r);
    NonEmpty(r.chunks, r.chunks[0]);
    FirstIn(r.chunks, head, gone, tail);
    assert r.chunks[0] !in head && r.chunks[0] !in tail;
    InParts(r.chunks[0], head, gone, tail);
  }

  lemma FirstIn(cs: Chunks, head: Chunks, gone: Chunks, tail: Chunks)
    requires cs == head + (gone + tail)
    ensures tail != [] ==> tail[0] in cs
  {
  }

  /** A chunk that goes although the new bytes start past the window was the only one, and waited at `next`. */
  lemma GoneWaited(r: Reassembler, data: Bytes, index: nat, c: Chunk)
    requires Inv(r) && c in r.chunks && NewIndex(r, index) >= Limit(r) && NewIndex(r, index) <= c.key
    requires c.End() <= index + |data|
    ensures r.chunks == [c] && c.key == r.next && index < r.next && Total(r.chunks) == |c.data|
  {
    hide Ordered, Total, NewIndex;
    NonEmpty(r.chunks, c);
    OnlyOneAtLimit(r);
    NotFromItself(r, index);
  }

  lemma InParts(c: Chunk, head: Chunks, gone: Chunks, tail: Chunks)
    requires c in head + (gone + tail)
    ensures c in head || c in gone || c in tail
  {
  }

  lemma OnlyOneAtLimit(r: Reassembler)
    requires Inv(r) && Limit(r) == r.next && r.chunks != []
    ensures |r.chunks| == 1 && r.chunks[0].key == r.next && Total(r.chunks) == |r.chunks[0].data|
  {
    assert r.chunks[0] in r.chunks;
    NonEmpty(r.chunks, r.chunks[0]);
    SomeChunk(r.chunks[1..]);
  }

  /** What starts at a stored chunk starts past its end. */
  lemma NotFromItself(r: Reassembler, index: nat)
    requires Inv(r) && |r.chunks| == 1 && r.chunks[0].key == r.next
    ensures index == r.next ==> NewIndex(r, index) >= r.chunks[0].End()
  {
    assert UpperBound(r.chunks, r.next) == 1;
  }

  lemma AllGone(cs: Chunks, head: Chunks, gone: Chunks, tail: Chunks)
    requires cs == head + (gone + tail) && |cs| == 1 && gone != []
    ensures head == [] && tail == [] && gone == cs && Total(head + tail) == 0
  {
  }

  /** Every push is booked: buffered and counted bytes together grow by exactly what it brings in. */
  lemma PushBalance(r: Reassembler, data: Bytes, index: nat, eof: bool)
    requires Inv(r)
    ensures var p := Push(r, data, index, eof);
            |Buffer(p.out)| + p.count == |Buffer(r.out)| + r.count + Gain(r, data, index)
  {
    hide Cut, Drain, Store, Ordered, Total, NewIndex;
    var m := Cut(r, data, index);
    CutKeeps(r, data, index);
    CutAt(r, data, index);
    NewBytesAre(r, data, index);
    if m.at < Limit(r) {
      StoreBalance(m.state, m.at, Piece(m, data, index));
      DrainBalance(Stored(r, data, index));
    }
  }

  /** Bytes a push loses: what overruns an open output, or what an ended or failed one refuses. */
  function Lost(r: Reassembler, data: Bytes, index: nat): int {
    if Open(r.out) then
      if Overruns(r, data, index) then |Piece(Cut(r, data, index), data, index)| - Room(r.out) else 0
    else if OffersNext(r, data, index) && WaitsAtNext(Stored(r, data, index)) then
      |Stored(r, data, index).chunks[0].data|
    else 0
  }

  lemma OpenLoses(r: Reassembler, data: Bytes, index: nat, eof: bool)
    requires Inv(r) && Open(r.out)
    ensures var p := Push(r, data, index, eof);
            p.count - Total(p.chunks) == r.count - Total(r.chunks) + Lost(r, data, index)
  {
    hide Cut, Ordered, Drain, Overruns;
    var m := Cut(r, data, index);
    CutKeeps(r, data, index);
    OverrunsIff(r, data, index);
    if m.at < Limit(r) {
      if PieceOverflows(r, data, index) {
        OverrunDrops(m.state, Piece(m, data, index));
      } else {
        StoredKeeps(r, data, index);
        StoredStartsInside(r, data, index);
        DrainExact(Stored(r, data, index));
      }
    }
  }

  lemma ClosedLoses(r: Reassembler, data: Bytes, index: nat, eof: bool)
    requires Inv(r) && !Open(r.out)
    ensures var p := Push(r, data, index, eof);
            p.count - Total(p.chunks) == r.count - Total(r.chunks) + Lost(r, data, index)
  {
    hide Cut, Ordered, Drain, Stored, Total, OffersNext;
    CutKeeps(r, data, index);
    OffersNextIff(r, data, index);
    if Cut(r, data, index).at < Limit(r) {
      StoredKeeps(r, data, index);
      ClosedStored(r, data, index);
      WaitsAfterCut(r, data, index);
      ClosedDrainLoses(Stored(r, data, index));
    }
  }

  lemma ClosedDrainLoses(r: Reassembler)
    requires Inv(r) && !Open(r.out)
    ensures Drain(r).count - Total(Drain(r).chunks)
            == r.count - Total(r.chunks) + (if WaitsAtNext(r) then |r.chunks[0].data| else 0)
  {
    hide Insert;
    if WaitsAtNext(r) {
      DrainRoundKeeps(r);
      NonEmpty(r.chunks, r.chunks[0]);
    }
  }

  lemma PushLoses(r: Reassembler, data: Bytes, index: nat, eof: bool)
    requires Inv(r)
    ensures var p := Push(r, data, index, eof);
            p.count - Total(p.chunks) == r.count - Total(r.chunks) + Lost(r, data, index)
    ensures Lost(r, data, index) >= 0
  {
    hide Push, Lost, Total, Ordered;
    if Open(r.out) {
      OpenLoses(r, data, index, eof);
    } else {
      ClosedLoses(r, data, index, eof);
    }
    NotNegative(r, data, index);
  }

  lemma NotNegative(r: Reassembler, data: Bytes, index: nat)
    requires Inv(r)
    ensures Lost(r, data, index) >= 0
  {
    hide Cut, Overruns, OffersNext, Stored, Ordered, Total;
    OverrunsIff(r, data, index);
  }

  /** What is miscounted once stays miscounted. */
  lemma DriftNeverShrinks(r: Reassembler, data: Bytes, index: nat, eof: bool)
    requires Inv(r)
    ensures var p := Push(r, data, index, eof); p.count - Total(p.chunks) >= r.count - Total(r.chunks)
  {
    hide Push, Lost, Total, Ordered;
    PushLoses(r, data, index, eof);
  }

  /** From any state, overhanging the window or not, and whatever the output takes: what a push makes the
      reassembler hold is what it held before, plus what it brings in, less what it loses. */
  lemma PushMemory(r: Reassembler, data: Bytes, index: nat, eof: bool)
    requires Inv(r)
    ensures var p := Push(r, data, index, eof);
            |Buffer(p.out)| + Total(p.chunks)
            == |Buffer(r.out)| + Total(r.chunks) + Gain(r, data, index) - Lost(r, data, index)
  {
    hide Push, Lost, Gain, Total, Ordered;
    PushBalance(r, data, index, eof);
    PushLoses(r, data, index, eof);
  }

  /** So a push to an open output keeps the reassembler within its capacity if and only if it overruns the
      output, which leaves exactly the full output, or what is held and brought in fits. */
  lemma PushWithinCapacityIff(r: Reassembler, data: Bytes, index: nat, eof: bool)
    requires Inv(r) && Open(r.out)
    ensures var p := Push(r, data, index, eof);
            |Buffer(p.out)| + Total(p.chunks) <= r.capacity
            <==> Overruns(r, data, index)
                 || |Buffer(r.out)| + Total(r.chunks) + Gain(r, data, index) <= r.capacity
  {
    hide Push, Gain, Total, Ordered, Cut, Overruns;
    PushMemory(r, data, index, eof);
    if Overruns(r, data, index) {
      OverrunFills(r, data, index, eof);
    }
  }

  lemma OverrunFills(r: Reassembler, data: Bytes, index: nat, eof: bool)
    requires Inv(r) && Open(r.out) && Overruns(r, data, index)
    ensures var p := Push(r, data, index, eof); p.chunks == [] && |Buffer(p.out)| == r.capacity && Total(p.chunks) == 0
  {
    hide Cut, Ordered, Drain, Store, Gain, NewIndex;
    var m := Cut(r, data, index);
    OverrunsIff(r, data, index);
    CutKeeps(r, data, index);
    CutAt(r, data, index);
    OverrunDrops(m.state, Piece(m, data, index));
    StoreBalance(m.state, m.at, Piece(m, data, index));
    DrainBalance(Stored(r, data, index));
    PushKeeps(r, data, index, eof);
    PrefixGrows(r, data, index, eof);
    NoMoreThanFits(Push(r, data, index, eof).out);
    assert Total([]) == 0;
  }

  lemma NoMoreThanFits(s: Stream)
    ensures |Buffer(s)| <= s.capacity
  {
  }
}
