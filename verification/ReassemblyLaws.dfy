/** What every push keeps, whatever is pushed. */
module ReassemblyLaws {
  import opened Words
  import opened ByteStreams
  import opened Reassembly

  /** Non-empty chunks, each ending before the later ones start. */
  ghost predicate Ordered(cs: Chunks) {
    cs == [] ||
    (cs[0].data != [] && (forall d :: d in cs[1..] ==> cs[0].End() <= d.key) && Ordered(cs[1..]))
  }

  /** All of `a` lies before all of `b`. */
  ghost predicate Before(a: Chunks, b: Chunks) {
    forall c, d :: c in a && d in b ==> c.End() <= d.key
  }

  lemma {:induction false} OrderedConcat(a: Chunks, b: Chunks)
    ensures Ordered(a + b) <==> Ordered(a) && Ordered(b) && Before(a, b)
  {
    if a == [] {
      assert a + b == b;
    } else {
      OrderedConcat(a[1..], b);
      assert (a + b)[1..] == a[1..] + b;
      assert a == [a[0]] + a[1..];
    }
  }

  lemma {:induction false} NonEmpty(cs: Chunks, c: Chunk)
    requires Ordered(cs) && c in cs
    ensures c.data != []
  {
    if c == cs[0] {
    } else {
      NonEmpty(cs[1..], c);
    }
  }

  lemma FirstIsLeast(cs: Chunks, c: Chunk)
    requires Ordered(cs) && c in cs
    ensures cs[0].key <= c.key
  {
    assert cs == [cs[0]] + cs[1..];
  }

  lemma LastIsGreatest(cs: Chunks, c: Chunk)
    requires Ordered(cs) && c in cs
    ensures c.End() <= cs[|cs| - 1].End()
  {
    var n := |cs| - 1;
    hide Total;
    assert cs == cs[..n] + [cs[n]];
    OrderedConcat(cs[..n], [cs[n]]);
    assert cs[n] in [cs[n]];
  }

  lemma {:induction false} TotalConcat(a: Chunks, b: Chunks)
    ensures Total(a + b) == Total(a) + Total(b)
  {
    if a == [] {
      assert a + b == b;
    } else {
      TotalConcat(a[1..], b);
      assert (a + b)[1..] == a[1..] + b;
    }
  }

  /** Stored bytes fit between the first possible index and the end of the last chunk. */
  lemma {:induction false} TotalWithinSpan(cs: Chunks, lo: nat)
    requires Ordered(cs) && cs != [] && lo <= cs[0].key
    ensures Total(cs) <= cs[|cs| - 1].End() - lo
  {
    if |cs| > 1 {
      TotalWithinSpan(cs[1..], cs[0].End());
    } else {
      assert Total(cs[1..]) == 0;
    }
  }

  lemma SomeChunk(cs: Chunks)
    ensures cs != [] ==> exists c :: c in cs
  {
    if cs != [] {
      assert cs[0] in cs;
    }
  }

  // ---- insertion ----

  lemma {:induction false} LowerBoundOk(cs: Chunks, x: nat)
    ensures var n := LowerBound(cs, x);
      && cs == cs[..n] + cs[n..]
      && (forall c :: c in cs[..n] ==> c.key < x)
      && (cs[n..] != [] ==> x <= cs[n..][0].key)
  {
    if cs == [] || cs[0].key >= x {
    } else {
      LowerBoundOk(cs[1..], x);
      var m := LowerBound(cs[1..], x);
      assert cs[..m + 1] == [cs[0]] + cs[1..][..m];
      assert cs[m + 1..] == cs[1..][m..];
    }
  }

  ghost predicate Clear(cs: Chunks, lo: int, hi: int) {
    forall c :: c in cs ==> c.End() <= lo || hi <= c.key
  }

  lemma SpliceOk(a: Chunks, n: Chunk, b: Chunks)
    requires Ordered(a) && Ordered(b) && n.data != []
    requires forall c :: c in a ==> c.End() <= n.key
    requires forall c :: c in b ==> n.End() <= c.key
    ensures Ordered(a + [n] + b)
    ensures Total(a + [n] + b) == Total(a) + |n.data| + Total(b)
  {
    OrderedConcat(a, [n]);
    OrderedConcat(a + [n], b);
    TotalConcat(a, [n]);
    TotalConcat(a + [n], b);
    assert Total([n]) == |n.data| + Total([n][1..]);
  }

  /** A key that separates the chunks separates them by position. */
  lemma SplitAtKey(a: Chunks, b: Chunks, key: nat, hi: nat)
    requires Ordered(a + b) && Clear(a + b, key, hi) && key < hi
    requires forall c :: c in a ==> c.key < key
    requires b != [] ==> key <= b[0].key
    ensures forall c :: c in a ==> c.End() <= key
    ensures forall c :: c in b ==> hi <= c.key
  {
    forall c | c in a ensures c.End() <= key {
      assert c in a + b;
    }
    OrderedConcat(a, b);
    forall c | c in b ensures hi <= c.key {
      FirstIsLeast(b, c);
      assert c in a + b;
      NonEmpty(a + b, c);
    }
  }

  lemma {:induction false} InsertAt(a: Chunks, b: Chunks, key: nat, data: Bytes)
    requires Ordered(a + b) && data != [] && Clear(a + b, key, key + |data|)
    requires forall c :: c in a ==> c.key < key
    requires b != [] ==> key <= b[0].key
    ensures b != [] ==> key < b[0].key
    ensures Ordered(a + [Chunk(key, data)] + b)
    ensures Total(a + [Chunk(key, data)] + b) == Total(a + b) + |data|
  {
    SplitAtKey(a, b, key, key + |data|);
    if b != [] {
      assert b[0] in b;
    }
    OrderedConcat(a, b);
    TotalConcat(a, b);
    SpliceOk(a, Chunk(key, data), b);
  }

  /** Insertion of bytes no chunk covers. */
  lemma InsertOk(cs: Chunks, key: nat, data: Bytes)
    requires Ordered(cs) && data != [] && Clear(cs, key, key + |data|)
    ensures var i := LowerBound(cs, key);
            Insert(cs, key, data) == cs[..i] + [Chunk(key, data)] + cs[i..]
    ensures Ordered(Insert(cs, key, data))
    ensures Total(Insert(cs, key, data)) == Total(cs) + |data|
    ensures forall c :: c in Insert(cs, key, data) <==> c in cs || c == Chunk(key, data)
  {
    var i := LowerBound(cs, key);
    LowerBoundOk(cs, key);
    InsertAt(cs[..i], cs[i..], key, data);
  }

  // ---- trimming ----

  /** Trimming erases a run of chunks from the front. */
  lemma {:induction false} TrimOk(rest: Chunks, newIdx: nat, size: int) returns (gone: Chunks)
    requires Ordered(rest) && forall c :: c in rest ==> newIdx <= c.key
    ensures var t := Trim(rest, newIdx, size);
      && rest == gone + t.rest && t.size <= size
      && (forall c :: c in t.rest ==> newIdx + t.size <= c.key)
      && (forall c :: c in gone ==> c.End() <= newIdx + t.size)
      && (t.size < size ==> 0 <= t.size && t.rest != [] && t.rest[0].key == newIdx + t.size
                            && newIdx + size < t.rest[0].End())
  {
    hide Total, Ordered;
    if rest == [] {
      gone := [];
    } else if newIdx + size <= rest[0].key || newIdx + size < rest[0].End() {
      gone := [];
      forall c | c in rest ensures rest[0].key <= c.key {
        FirstIsLeast(rest, c);
      }
    } else {
      assert rest == [rest[0]] + rest[1..];
      OrderedConcat([rest[0]], rest[1..]);
      var gone1 := TrimOk(rest[1..], newIdx, size);
      gone := [rest[0]] + gone1;
      var t := Trim(rest[1..], newIdx, size);
      if t.size < size {
        assert t.rest[0] in rest[1..];
      }
    }
  }

  // ---- the invariant ----

  predicate Covers(c: Chunk, x: nat) {
    c.key <= x < c.End()
  }

  /** Byte `x` has been received: it is written out already, or stored. */
  ghost predicate Have(r: Reassembler, x: nat) {
    x < r.next || exists c :: c in r.chunks && Covers(c, x)
  }

  /** Chunks are non-empty, disjoint and in order; they start inside the window, or right where a
      full output stopped; everything before `next` has been written; no stored byte is uncounted. */
  ghost predicate Inv(r: Reassembler) {
    && Ordered(r.chunks)
    && r.next == |r.out.log| && r.out.capacity == r.capacity
    && (forall c :: c in r.chunks ==> r.next <= c.key && (c.key < Limit(r) || c.key == r.next))
    && Total(r.chunks) <= r.count
  }

  lemma StoreNext(r: Reassembler, data: Bytes)
    requires Inv(r) && r.next < Limit(r) && data != [] && Clear(r.chunks, r.next, r.next + |data|)
    ensures var s, w := Store(r, r.next, data), Accepted(r.out, data);
      && Inv(s) && s.next == r.next + w && s.out == WriteTo(r.out, data)
      && s.count - Total(s.chunks) == r.count - Total(r.chunks)
      && (forall c :: c in s.chunks <==> c in r.chunks || (w < |data| && c == Chunk(r.next + w, data[w..])))
  {
    var w := Accepted(r.out, data);
    forall c | c in r.chunks ensures r.next + |data| <= c.key {
      NonEmpty(r.chunks, c);
    }
    if w < |data| {
      InsertOk(r.chunks, r.next + w, data[w..]);
    }
  }

  lemma StoreLater(r: Reassembler, newIdx: nat, data: Bytes)
    requires Inv(r) && r.next < newIdx < Limit(r) && data != [] && Clear(r.chunks, newIdx, newIdx + |data|)
    ensures var s := Store(r, newIdx, data);
      && Inv(s) && s.next == r.next && s.out == r.out
      && s.count - Total(s.chunks) == r.count - Total(r.chunks)
      && (forall c :: c in s.chunks <==> c in r.chunks || c == Chunk(newIdx, data))
  {
    InsertOk(r.chunks, newIdx, data);
  }

  // ---- draining ----

  /** Only the last chunk can reach past the window, so only it can be written in part. */
  lemma PartIsLast(r: Reassembler)
    requires Inv(r) && r.chunks != [] && r.chunks[0].key == r.next
    requires 0 < Accepted(r.out, r.chunks[0].data) < |r.chunks[0].data|
    ensures |r.chunks| == 1
  {
    forall d | d in r.chunks ensures d !in r.chunks[1..] {
    }
    SomeChunk(r.chunks[1..]);
  }

  /** What a round leaves: the rest of the first chunk if part of it was written, nothing of it if
      all or none of it was. */
  lemma DrainRoundIs(r: Reassembler)
    requires Inv(r) && r.chunks != [] && r.chunks[0].key == r.next
    ensures var c, s := r.chunks[0], DrainRound(r);
            var w := Accepted(r.out, c.data);
            s.chunks == if 0 < w < |c.data| then [Chunk(s.next, c.data[w..])] else r.chunks[1..]
  {
    var c := r.chunks[0];
    var w := Accepted(r.out, c.data);
    if w < |c.data| {
      if w == 0 {
        assert LowerBound(r.chunks, r.next) == 0;
      } else {
        PartIsLast(r);
        assert r.chunks == [c];
        assert LowerBound(r.chunks, r.next + w) == 1;
      }
    }
  }

  lemma DrainRoundKeeps(r: Reassembler)
    requires Inv(r) && r.chunks != [] && r.chunks[0].key == r.next
    ensures var s := DrainRound(r);
      && Inv(s) && Limit(s) == Limit(r)
      && s.count - Total(s.chunks) == r.count - Total(r.chunks)
           + (if Accepted(r.out, r.chunks[0].data) == 0 then |r.chunks[0].data| else 0)
  {
    var c, tail := r.chunks[0], r.chunks[1..];
    var w := Accepted(r.out, c.data);
    var s := DrainRound(r);
    DrainRoundIs(r);
    forall d | d in tail ensures c.End() <= d.key && d.key < Limit(r) {
      assert d in r.chunks;
    }
    if 0 < w < |c.data| {
      var left := Chunk(s.next, c.data[w..]);
      PartIsLast(r);
      SpliceOk([], left, []);
      assert s.chunks == [] + [left] + [];
    } else {
      assert s.chunks == tail;
    }
  }

  lemma {:induction false} DrainKeeps(r: Reassembler)
    requires Inv(r)
    ensures Inv(Drain(r)) && Limit(Drain(r)) == Limit(r)
    ensures Drain(r).count - Total(Drain(r).chunks) >= r.count - Total(r.chunks)
    decreases |r.chunks|
  {
    if r.chunks == [] || r.chunks[0].key != r.next {
    } else {
      DrainRoundKeeps(r);
      if Accepted(r.out, r.chunks[0].data) == |r.chunks[0].data| {
        DrainKeeps(DrainRound(r));
      }
    }
  }

  // ---- cutting the new substring ----

  /** The search for the chunk at or before `index`, on the two halves it splits the list into. */
  lemma {:induction false} NewIndexAt(head: Chunks, tail: Chunks, index: nat, n: nat)
    requires Ordered(head + tail)
    requires forall c :: c in head ==> c.key <= index
    requires tail != [] ==> index < tail[0].key
    requires n >= index && (head != [] ==> n == Max(index, head[|head| - 1].End()))
    requires head == [] && tail != [] ==> n <= Max(index, tail[0].key)
    ensures forall c :: c in head + tail && c.key < n ==> c.End() <= n
  {
    OrderedConcat(head, tail);
    forall c | c in head ensures c.End() <= n {
      LastIsGreatest(head, c);
    }
    forall c | c in tail ensures n <= c.key {
      FirstIsLeast(tail, c);
      if head != [] {
        assert head[|head| - 1] in head;
      }
    }
  }

  /** New bytes start where no stored chunk is cut in two, and everything before them is known. */
  lemma NewIndexOk(r: Reassembler, index: nat)
    requires Inv(r)
    ensures var n := NewIndex(r, index);
      && r.next <= n
      && (forall x: nat :: index <= x < n ==> Have(r, x))
      && (forall c :: c in r.chunks && c.key < n ==> c.End() <= n)
  {
    var p := UpperBound(r.chunks, index);
    hide LowerBound, Ordered, Total;
    LowerBoundOk(r.chunks, index + 1);
    var head, tail := r.chunks[..p], r.chunks[p..];
    if p > 0 {
      KnownBefore(r, head[p - 1], index);
    } else if tail != [] {
      assert tail[0] in r.chunks;
    }
    NewIndexAt(head, tail, index, NewIndex(r, index));
  }

  lemma KnownBefore(r: Reassembler, up: Chunk, index: nat)
    requires Inv(r) && up in r.chunks && up.key <= index
    ensures r.next <= index && forall x: nat :: index <= x < up.End() ==> Have(r, x)
  {
    forall x: nat | index <= x < up.End() ensures Have(r, x) {
      assert Covers(up, x);
    }
  }

  lemma SplitForCut(cs: Chunks, n: nat, size: int) returns (head: Chunks, gone: Chunks, tail: Chunks)
    requires Ordered(cs) && forall c :: c in cs && c.key < n ==> c.End() <= n
    ensures cs == head + (gone + tail) && head == cs[..LowerBound(cs, n)]
    ensures var t := Trim(cs[LowerBound(cs, n)..], n, size);
      && t.rest == tail && t.size <= size && Total(head + tail) == Total(cs) - t.erased
      && (forall c :: c in head ==> c.End() <= n)
      && (forall c :: c in tail ==> n <= c.key && n + t.size <= c.key)
      && (forall c :: c in gone ==> n <= c.key && c.End() <= n + t.size)
      && (t.size < size ==> 0 <= t.size && tail != [] && tail[0].key == n + t.size && n + size < tail[0].End())
  {
    var lo := LowerBound(cs, n);
    head := cs[..lo];
    var rest := cs[lo..];
    LowerBoundOk(cs, n);
    OrderedConcat(head, rest);
    forall c | c in rest ensures n <= c.key {
      FirstIsLeast(rest, c);
    }
    forall c | c in head ensures c.End() <= n {
      assert c in cs;
    }
    gone := TrimOk(rest, n, size);
    tail := Trim(rest, n, size).rest;
    TotalConcat(head, rest);
    TotalConcat(head, tail);
  }

  /** The three parts a cut splits the list into: chunks before the new bytes, chunks the new bytes
      swallow, and the chunks after them. Only the middle part goes. */
  lemma CutSplits(r: Reassembler, data: Bytes, index: nat) returns (head: Chunks, gone: Chunks, tail: Chunks)
    requires Inv(r)
    ensures r.chunks == head + (gone + tail) && head == r.chunks[..LowerBound(r.chunks, Cut(r, data, index).at)]
    ensures var m := Cut(r, data, index);
      && m.state == r.(chunks := head + tail, count := m.state.count)
      && m.state.count - Total(head + tail) == r.count - Total(r.chunks)
      && m.at + m.size <= index + |data|
      && (forall c :: c in head ==> c.End() <= m.at)
      && (forall c :: c in tail ==> m.at <= c.key && m.at + m.size <= c.key)
      && (forall c :: c in gone ==> m.at <= c.key && c.End() <= m.at + m.size)
      && (m.at <= index + |data| && m.at + m.size < index + |data| ==>
            tail != [] && tail[0].key == m.at + m.size && index + |data| < tail[0].End())
  {
    hide LowerBound, Trim, NewIndex, Ordered, Total;
    var n := NewIndex(r, index);
    NewIndexOk(r, index);
    head, gone, tail := SplitForCut(r.chunks, n, |data| - (n - index));
  }

  lemma CutKeeps(r: Reassembler, data: Bytes, index: nat)
    requires Inv(r)
    ensures var m := Cut(r, data, index);
      && Inv(m.state) && Clear(m.state.chunks, m.at, m.at + m.size)
      && (forall c :: c in m.state.chunks ==> c in r.chunks)
      && m.state == r.(chunks := m.state.chunks, count := m.state.count)
      && m.state.count - Total(m.state.chunks) == r.count - Total(r.chunks)
      && r.next <= m.at
  {
    NewIndexOk(r, index);
    var head, gone, tail := CutSplits(r, data, index);
    OrderedConcat(head, gone + tail);
    OrderedConcat(gone, tail);
    OrderedConcat(head, tail);
  }

  lemma StoreKeeps(r: Reassembler, at: nat, piece: Bytes)
    requires Inv(r) && r.next <= at < Limit(r) && piece != [] && Clear(r.chunks, at, at + |piece|)
    ensures Inv(Store(r, at, piece)) && Limit(Store(r, at, piece)) == Limit(r)
    ensures Store(r, at, piece).count - Total(Store(r, at, piece).chunks) == r.count - Total(r.chunks)
  {
    if at == r.next {
      StoreNext(r, piece);
    } else {
      StoreLater(r, at, piece);
    }
  }

  lemma StoredKeeps(r: Reassembler, data: Bytes, index: nat)
    requires Inv(r) && Cut(r, data, index).at < Limit(r)
    ensures var s := Stored(r, data, index);
      && Inv(s) && Limit(s) == Limit(r)
      && s.count - Total(s.chunks) == r.count - Total(r.chunks)
  {
    var m := Cut(r, data, index);
    CutKeeps(r, data, index);
    if Piece(m, data, index) != [] {
      StoreKeeps(m.state, m.at, Piece(m, data, index));
    }
  }

  /** Every push, in window or out of it, to an open, ended or failed output, keeps the invariant. */
  lemma PushKeeps(r: Reassembler, data: Bytes, index: nat, eof: bool)
    requires Inv(r)
    ensures Inv(Push(r, data, index, eof)) && Limit(Push(r, data, index, eof)) == Limit(r)
  {
    CutKeeps(r, data, index);
    if Cut(r, data, index).at < Limit(r) {
      StoredKeeps(r, data, index);
      DrainKeeps(Stored(r, data, index));
    }
  }
}
