/** Whole runs of a reassembler: pushes in any order, with the reader taking bytes in between. */
module ReassemblyRuns {
  import opened Words
  import opened ByteStreams
  import opened Reassembly
  import opened ReassemblyLaws
  import opened ReassemblyTheorems
  import opened ReassemblyMemory
  import opened ReassemblyBalance

  datatype Op = Arrive(data: Bytes, index: nat, eof: bool) | Take(len: nat)

  function Step(r: Reassembler, op: Op): Reassembler {
    match op
    case Arrive(data, index, eof) => Push(r, data, index, eof)
    case Take(len) => r.(out := PopFrom(r.out, len))
  }

  function Run(r: Reassembler, ops: seq<Op>): Reassembler
    decreases |ops|
  {
    if ops == [] then r else Run(Step(r, ops[0]), ops[1..])
  }

  // ---- memory ----

  /** No stored chunk is longer than `most`. */
  ghost predicate Short(most: nat, cs: Chunks) {
    forall c :: c in cs ==> |c.data| <= most
  }

  lemma {:induction false} DrainShort(most: nat, r: Reassembler)
    requires Inv(r) && Short(most, r.chunks)
    ensures Short(most, Drain(r).chunks)
    decreases |r.chunks|
  {
    hide Insert, Ordered, Total;
    if r.chunks == [] || r.chunks[0].key != r.next {
    } else {
      assert r.chunks[0] in r.chunks;
      DrainRoundIs(r);
      DrainRoundKeeps(r);
      assert forall c :: c in r.chunks[1..] ==> c in r.chunks;
      if Accepted(r.out, r.chunks[0].data) == |r.chunks[0].data| {
        DrainShort(most, DrainRound(r));
      }
    }
  }

  lemma PushShort(most: nat, r: Reassembler, data: Bytes, index: nat, eof: bool)
    requires Inv(r) && Short(most, r.chunks) && |data| <= most
    ensures Short(most, Push(r, data, index, eof).chunks)
  {
    hide Cut, Drain, Ordered, Total, Insert;
    var m := Cut(r, data, index);
    CutKeeps(r, data, index);
    if m.at < Limit(r) {
      var piece := Piece(m, data, index);
      if piece != [] {
        if m.at == r.next {
          StoreNext(m.state, piece);
        } else {
          StoreLater(m.state, m.at, piece);
        }
      }
      StoredKeeps(r, data, index);
      DrainShort(most, Stored(r, data, index));
    }
  }

  /** Only the last chunk can reach past the window, so memory exceeds the capacity by less than
      one pushed substring. */
  lemma MemoryBound(most: nat, r: Reassembler)
    requires Inv(r) && Short(most, r.chunks)
    ensures |Buffer(r.out)| + Total(r.chunks) <= r.capacity + most
  {
    if r.chunks != [] {
      var last := r.chunks[|r.chunks| - 1];
      assert last in r.chunks && r.chunks[0] in r.chunks;
      TotalWithinSpan(r.chunks, r.next);
    }
  }

  lemma {:induction false} RunBounds(most: nat, r: Reassembler, ops: seq<Op>)
    requires Inv(r) && Short(most, r.chunks)
    requires forall op :: op in ops && op.Arrive? ==> |op.data| <= most
    ensures Inv(Run(r, ops)) && Run(r, ops).capacity == r.capacity && Short(most, Run(r, ops).chunks)
    decreases |ops|
  {
    hide Push, Ordered, Total;
    if ops == [] {
    } else {
      var op := ops[0];
      if op.Arrive? {
        PushKeeps(r, op.data, op.index, op.eof);
        PushShort(most, r, op.data, op.index, op.eof);
        PrefixGrows(r, op.data, op.index, op.eof);
      }
      RunBounds(most, Step(r, op), ops[1..]);
    }
  }

  /** Over any run at all, buffered and stored bytes together stay within the capacity plus the
      longest substring pushed. */
  lemma {:induction false} RunWithinMemory(capacity: nat, most: nat, ops: seq<Op>)
    requires forall op :: op in ops && op.Arrive? ==> |op.data| <= most
    ensures var r := Run(NewReassembler(capacity), ops);
      && Inv(r) && |Buffer(r.out)| + Total(r.chunks) <= capacity + most
      && r.next == |r.out.log|
  {
    var r := NewReassembler(capacity);
    RunBounds(most, r, ops);
    MemoryBound(most, Run(r, ops));
  }

  /** How many bytes a reassembler holds. */
  function Held(r: Reassembler): nat {
    |Buffer(r.out)| + Total(r.chunks)
  }

  /** What a step adds to that. */
  ghost function Added(r: Reassembler, op: Op): int {
    match op
    case Arrive(data, index, _) => Gain(r, data, index) - Lost(r, data, index)
    case Take(len) => -|PeekAt(r.out, len)|
  }

  ghost function AllAdded(r: Reassembler, ops: seq<Op>): int
    decreases |ops|
  {
    if ops == [] then 0 else Added(r, ops[0]) + AllAdded(Step(r, ops[0]), ops[1..])
  }

  lemma StepMemory(r: Reassembler, op: Op)
    requires Inv(r)
    ensures Inv(Step(r, op)) && Step(r, op).capacity == r.capacity && Held(Step(r, op)) == Held(r) + Added(r, op)
  {
    hide Push, Ordered, Total, Gain, Lost;
    if op.Arrive? {
      PushKeeps(r, op.data, op.index, op.eof);
      PrefixGrows(r, op.data, op.index, op.eof);
      PushMemory(r, op.data, op.index, op.eof);
    }
  }

  /** Over any run, whatever the output's state: the bytes held are those held before, with what the pushes
      brought in, less what they lost and what was read. */
  lemma {:induction false} RunMemory(r: Reassembler, ops: seq<Op>)
    requires Inv(r)
    ensures Held(Run(r, ops)) == Held(r) + AllAdded(r, ops)
    decreases |ops|
  {
    hide Step, Inv, Held, Added;
    if ops == [] {
    } else {
      StepMemory(r, ops[0]);
      RunMemory(Step(r, ops[0]), ops[1..]);
    }
  }

  /** Every state of the run is within the capacity. */
  predicate StaysWithin(r: Reassembler, ops: seq<Op>)
    decreases |ops|
  {
    Held(r) <= r.capacity && (ops == [] || StaysWithin(Step(r, ops[0]), ops[1..]))
  }

  /** A push fits the state it meets: it leaves an open output full and nothing stored, or what is held and
      brought in, less what is lost, is within the capacity. */
  ghost predicate Fits(r: Reassembler, op: Op) {
    op.Arrive? ==>
      || (Open(r.out) && Overruns(r, op.data, op.index))
      || Held(r) + Gain(r, op.data, op.index) - (if Open(r.out) then 0 else Lost(r, op.data, op.index)) <= r.capacity
  }

  ghost predicate AllFit(r: Reassembler, ops: seq<Op>)
    decreases |ops|
  {
    ops == [] || (Fits(r, ops[0]) && AllFit(Step(r, ops[0]), ops[1..]))
  }

  lemma StepFitsIff(r: Reassembler, op: Op)
    requires Inv(r) && Held(r) <= r.capacity
    ensures Held(Step(r, op)) <= r.capacity <==> Fits(r, op)
  {
    hide Push, Ordered, Total, Gain, Lost, Overruns;
    StepMemory(r, op);
    if op.Arrive? && Open(r.out) {
      PushWithinCapacityIff(r, op.data, op.index, op.eof);
    }
  }

  /** A run stays within the capacity, as documented, if and only if every push of it fits the state it
      meets. */
  lemma {:induction false} RunWithinCapacityIff(r: Reassembler, ops: seq<Op>)
    requires Inv(r) && Held(r) <= r.capacity
    ensures StaysWithin(r, ops) <==> AllFit(r, ops)
    decreases |ops|
  {
    hide Step, Inv, Held, Fits;
    if ops == [] {
    } else {
      StepMemory(r, ops[0]);
      StepFitsIff(r, ops[0]);
      if Fits(r, ops[0]) {
        RunWithinCapacityIff(Step(r, ops[0]), ops[1..]);
      } else {
        NotWithin(Step(r, ops[0]), ops[1..]);
      }
    }
  }

  lemma NotWithin(r: Reassembler, ops: seq<Op>)
    requires Held(r) > r.capacity
    ensures !StaysWithin(r, ops)
  {
    hide Step, Held;
  }

  // ---- the counter ----

  /** The push loses bytes without taking them off the count. */
  predicate Drifts(r: Reassembler, op: Op) {
    op.Arrive? && if Open(r.out) then Overruns(r, op.data, op.index) else OffersNext(r, op.data, op.index)
  }

  predicate SomeDrifts(r: Reassembler, ops: seq<Op>)
    decreases |ops|
  {
    ops != [] && (Drifts(r, ops[0]) || SomeDrifts(Step(r, ops[0]), ops[1..]))
  }

  lemma StepDrift(r: Reassembler, op: Op)
    requires Inv(r)
    ensures Inv(Step(r, op)) && Step(r, op).count - Total(Step(r, op).chunks) >= r.count - Total(r.chunks)
    ensures r.count == Total(r.chunks) ==> (Step(r, op).count == Total(Step(r, op).chunks) <==> !Drifts(r, op))
  {
    hide Push, Ordered, Total, Overruns, OffersNext;
    if op.Arrive? {
      PushKeeps(r, op.data, op.index, op.eof);
      DriftNeverShrinks(r, op.data, op.index, op.eof);
      if r.count == Total(r.chunks) {
        CountExactIff(r, op.data, op.index, op.eof);
      }
    }
  }

  lemma {:induction false} RunDrift(r: Reassembler, ops: seq<Op>)
    requires Inv(r)
    ensures Run(r, ops).count - Total(Run(r, ops).chunks) >= r.count - Total(r.chunks)
    decreases |ops|
  {
    hide Step, Inv, Total;
    if ops == [] {
    } else {
      StepDrift(r, ops[0]);
      RunDrift(Step(r, ops[0]), ops[1..]);
    }
  }

  /** After any run the count of unassembled bytes is exact if and only if no push of it overran an open
      output or met an ended or failed one with bytes that come next: what is miscounted once stays so. */
  lemma {:induction false} RunCountExactIff(r: Reassembler, ops: seq<Op>)
    requires Inv(r) && r.count == Total(r.chunks)
    ensures Run(r, ops).count == Total(Run(r, ops).chunks) <==> !SomeDrifts(r, ops)
    decreases |ops|
  {
    hide Step, Inv, Total, Drifts;
    if ops == [] {
    } else {
      StepDrift(r, ops[0]);
      if Drifts(r, ops[0]) {
        RunDrift(Step(r, ops[0]), ops[1..]);
        DriftIsExcess(Step(r, ops[0]));
      } else {
        RunCountExactIff(Step(r, ops[0]), ops[1..]);
      }
    }
  }

  lemma DriftIsExcess(r: Reassembler)
    requires Inv(r)
    ensures r.count >= Total(r.chunks)
  {
  }

  // ---- in-window runs ----

  ghost predicate Received(ops: seq<Op>, x: nat) {
    exists op :: op in ops && op.Arrive? && Within(x, op.index, op.index + |op.data|)
  }

  /** Every push lies inside the window it meets, and meets an open output unless it is all old. */
  predicate InWindow(r: Reassembler, ops: seq<Op>)
    decreases |ops|
  {
    ops == [] ||
    ((ops[0].Arrive? ==>
        ops[0].index + |ops[0].data| <= Limit(r) && NewToOutput(r, ops[0].data, ops[0].index))
     && InWindow(Step(r, ops[0]), ops[1..]))
  }

  lemma ReceivedSplit(op: Op, ops: seq<Op>, x: nat)
    ensures Received([op] + ops, x) <==>
            (op.Arrive? && Within(x, op.index, op.index + |op.data|)) || Received(ops, x)
  {
    assert op in [op] + ops;
  }

  lemma StepRefines(r: Reassembler, op: Op)
    requires Tidy(r)
    requires op.Arrive? ==> op.index + |op.data| <= Limit(r) && NewToOutput(r, op.data, op.index)
    ensures Tidy(Step(r, op)) && Step(r, op).capacity == r.capacity
    ensures forall x: nat :: Have(Step(r, op), x) <==>
                             Have(r, x) || (op.Arrive? && Within(x, op.index, op.index + |op.data|))
  {
    hide Push, Ordered, Total;
    if op.Arrive? {
      PushRefines(r, op.data, op.index, op.eof);
      PrefixGrows(r, op.data, op.index, op.eof);
    }
  }

  lemma {:induction false} RunRefines(r: Reassembler, ops: seq<Op>)
    requires Tidy(r) && InWindow(r, ops)
    ensures Tidy(Run(r, ops)) && Run(r, ops).capacity == r.capacity
    ensures forall x: nat :: Have(Run(r, ops), x) <==> Have(r, x) || Received(ops, x)
    decreases |ops|
  {
    hide Step, Tidy, Have, Received, Limit, NewToOutput, Within;
    if ops == [] {
      assert forall x: nat :: !Received([], x) by { NothingReceived(); }
    } else {
      StepRefines(r, ops[0]);
      RunRefines(Step(r, ops[0]), ops[1..]);
      forall x: nat ensures Have(Run(r, ops), x) <==> Have(r, x) || Received(ops, x) {
        assert ops == [ops[0]] + ops[1..];
        ReceivedSplit(ops[0], ops[1..], x);
        assert Have(Step(r, ops[0]), x) <==>
               (Have(r, x) || (ops[0].Arrive? && Within(x, ops[0].index, ops[0].index + |ops[0].data|)));
      }
    }
  }

  lemma NothingReceived()
    ensures forall x: nat :: !Received([], x)
  {
  }

  /** Every state the run goes through keeps all stored bytes inside the window. */
  ghost predicate StaysWindowed(r: Reassembler, ops: seq<Op>)
    decreases |ops|
  {
    Windowed(r) && (ops == [] || StaysWindowed(Step(r, ops[0]), ops[1..]))
  }

  /** Some push of the run overhangs the window it meets. */
  predicate SomeOverhangs(r: Reassembler, ops: seq<Op>)
    decreases |ops|
  {
    ops != [] &&
    ((ops[0].Arrive? && Overhangs(r, ops[0].data, ops[0].index)) || SomeOverhangs(Step(r, ops[0]), ops[1..]))
  }

  /** Whatever else happens, overruns and pushes to an ended or failed output included, a run keeps all
      stored bytes inside the window throughout if and only if no push overhangs it; it then stays
      within the capacity, as documented. */
  lemma {:induction false} RunWindowedIff(r: Reassembler, ops: seq<Op>)
    requires Windowed(r)
    ensures StaysWindowed(r, ops) <==> !SomeOverhangs(r, ops)
    ensures !SomeOverhangs(r, ops) ==> |Buffer(Run(r, ops).out)| + Total(Run(r, ops).chunks) <= r.capacity
    decreases |ops|
  {
    hide Push, Ordered, Total, Overhangs, NewIndex;
    if ops == [] {
      WindowedFits(r);
    } else {
      var op := ops[0];
      if op.Arrive? {
        PushWindowedIff(r, op.data, op.index, op.eof);
        PrefixGrows(r, op.data, op.index, op.eof);
      } else {
        TakeStaysWindowed(r, op.len);
      }
      if Windowed(Step(r, op)) {
        RunWindowedIff(Step(r, op), ops[1..]);
      }
    }
  }

  lemma TakeStaysWindowed(r: Reassembler, len: nat)
    requires Windowed(r)
    ensures Windowed(r.(out := PopFrom(r.out, len)))
  {
  }

  /** A run that leaves it need not: here three bytes are kept with a capacity of two. */
  lemma OverhangExceedsCapacity()
    ensures var r := Run(NewReassembler(2), [Arrive([1, 2, 3], 1, false)]); Total(r.chunks) == 3
  {
    hide Cut, Insert, Ordered, Drain, Total;
    var r, data := NewReassembler(2), [1, 2, 3];
    FreshIsTidy(2);
    assert r.count - Total(r.chunks) == 0;
    CutOfNothingStored(r, data, 1);
    assert Piece(Cut(r, data, 1), data, 1) == data;
    StoreLater(r, 1, data);
    var s := Stored(r, data, 1);
    assert s == Store(r, 1, data);
    DrainsNothing(s);
    OneArrival(r, data, 1, false);
  }

  /** A run in which a substring past the window erases received bytes: with a capacity of two, the last of
      three bytes waits when the output is full, and all three arriving again remove it. */
  lemma EarlyReturnErases()
    ensures var ops := [Arrive([2, 3], 1, false)] + [Arrive([1], 0, false)];
            var r := Run(NewReassembler(2), ops);
            var r' := Run(NewReassembler(2), ops + [Arrive([1, 2, 3], 0, false)]);
      Have(r, 2) && !Have(r', 2) && r'.next == r.next == 2
  {
    hide Push, Have;
    var r0, first := NewReassembler(2), Arrive([2, 3], 1, false);
    var second, again := Arrive([1], 0, false), Arrive([1, 2, 3], 0, false);
    var r1 := Push(r0, [2, 3], 1, false);
    var r2 := Push(r1, [1], 0, false);
    OneArrival(r0, [2, 3], 1, false);
    RunThen(r0, [first], second);
    RunThen(r0, [first] + [second], again);
    StoresBoth(r0);
    FillsAndWaits(r1);
    CoversAll(r2);
  }

  lemma RunThen(r: Reassembler, ops: seq<Op>, op: Op)
    ensures Run(r, ops + [op]) == Step(Run(r, ops), op)
    decreases |ops|
  {
    hide Step;
    if ops == [] {
      assert [] + [op] == [op] && [op][1..] == [];
      assert Run(r, [op]) == Run(Step(r, op), []);
    } else {
      assert (ops + [op])[1..] == ops[1..] + [op];
      RunThen(Step(r, ops[0]), ops[1..], op);
    }
  }

  lemma StoresBoth(r: Reassembler)
    requires r == NewReassembler(2)
    ensures Push(r, [2, 3], 1, false) == r.(chunks := [Chunk(1, [2, 3])], count := 2)
  {
    hide Cut, Drain, Insert, Piece;
    StoresFirst(r, [2, 3], 1);
    CutOfNothingStored(r, [2, 3], 1);
    DrainsNothing(Stored(r, [2, 3], 1));
  }

  /** A substring that starts further on becomes the only chunk. */
  lemma StoresFirst(r: Reassembler, data: Bytes, index: nat)
    requires r.chunks == [] && r.count == 0 && r.next < index && data != []
    ensures Stored(r, data, index) == r.(chunks := [Chunk(index, data)], count := |data|)
  {
    hide Cut, Insert;
    CutOfNothingStored(r, data, index);
    assert data[0..|data|] == data;
    FirstChunk(index, data);
  }

  lemma FirstChunk(key: nat, data: Bytes)
    ensures Insert([], key, data) == [Chunk(key, data)]
  {
    assert LowerBound([], key) == 0;
  }

  lemma FillsAndWaits(r: Reassembler)
    requires r == NewReassembler(2).(chunks := [Chunk(1, [2, 3])], count := 2)
    ensures Push(r, [1], 0, false)
            == r.(out := WriteTo(r.out, [1, 2]), next := 2, chunks := [Chunk(2, [3])], count := 1)
  {
    assert NewIndex(r, 0) == 0;
  }

  lemma CoversAll(r: Reassembler)
    requires Inv(r) && r.chunks == [Chunk(2, [3])] && r.next == Limit(r) == 2 && r.count == 1
    ensures var p := Push(r, [1, 2, 3], 0, false);
            Have(r, 2) && !Have(p, 2) && p.next == 2
  {
    hide Inv, Drain, Stored, Total;
    assert NewIndex(r, 0) == 2 && LowerBound(r.chunks, 2) == 0 && r.chunks[0..] == r.chunks;
    assert Trim(r.chunks, 2, 1).rest == Trim([], 2, 1).rest == [];
    assert Cut(r, [1, 2, 3], 0).state.chunks == [];
    assert Covers(r.chunks[0], 2);
  }

  lemma OneArrival(r: Reassembler, data: Bytes, index: nat, eof: bool)
    ensures Run(r, [Arrive(data, index, eof)]) == Push(r, data, index, eof)
  {
    hide Push;
    assert Step(r, Arrive(data, index, eof)) == Push(r, data, index, eof);
    assert [Arrive(data, index, eof)][1..] == [];
  }

  lemma SameBytesSameState(r: Reassembler, r': Reassembler)
    requires Tidy(r) && Tidy(r') && forall x: nat :: Have(r, x) <==> Have(r', x)
    ensures r.next == r'.next && r.count == r'.count
  {
    hide Ordered, Total, Indices;
    assert Have(r, r.next) <==> Have(r', r.next);
    assert Have(r, r'.next) <==> Have(r', r'.next);
    IndicesAre(r.chunks);
    IndicesAre(r'.chunks);
    forall x: nat ensures x in Indices(r.chunks) <==> x in Indices(r'.chunks) {
      assert Have(r, x) <==> Have(r', x);
    }
    assert Indices(r.chunks) == Indices(r'.chunks);
  }

  /** The order, the overlaps and the reads in between do not matter: two in-window runs that
      received the same bytes have assembled equally far, up to the first byte neither received, and
      count equally many bytes beyond it. */
  lemma {:induction false} OrderIrrelevant(capacity: nat, capacity': nat, ops: seq<Op>, ops': seq<Op>)
    requires InWindow(NewReassembler(capacity), ops) && InWindow(NewReassembler(capacity'), ops')
    requires forall x: nat :: Received(ops, x) <==> Received(ops', x)
    ensures var r, r' := Run(NewReassembler(capacity), ops), Run(NewReassembler(capacity'), ops');
      && r.next == r'.next && r.count == r'.count
      && (forall x: nat :: x < r.next ==> Received(ops, x)) && !Received(ops, r.next)
  {
    hide Run, InWindow, Received, Ordered;
    var s, s' := NewReassembler(capacity), NewReassembler(capacity');
    FreshIsTidy(capacity);
    FreshIsTidy(capacity');
    RunRefines(s, ops);
    RunRefines(s', ops');
    SameBytesSameState(Run(s, ops), Run(s', ops'));
    assert Have(Run(s, ops), Run(s, ops).next) <==> Received(ops, Run(s, ops).next);
  }

  lemma FreshIsTidy(capacity: nat)
    ensures Tidy(NewReassembler(capacity)) && forall x: nat :: !Have(NewReassembler(capacity), x)
  {
  }

  /** With all pushes taken from one stream, the output is that stream up to the first missing byte. */
  lemma {:induction false} RunWritesStream(whole: Bytes, r: Reassembler, ops: seq<Op>)
    requires Inv(r) && Slices(whole, r)
    requires forall op :: op in ops && op.Arrive? ==> IsSlice(whole, op.index, op.data)
    ensures Inv(Run(r, ops)) && Slices(whole, Run(r, ops))
    ensures Run(r, ops).next <= |whole| && Run(r, ops).out.log == whole[..Run(r, ops).next]
    decreases |ops|
  {
    hide Push, Ordered, Total;
    if ops == [] {
    } else {
      var op := ops[0];
      if op.Arrive? {
        PushKeeps(r, op.data, op.index, op.eof);
        PushSlices(whole, r, op.data, op.index, op.eof);
      }
      RunWritesStream(whole, Step(r, op), ops[1..]);
    }
  }
}
