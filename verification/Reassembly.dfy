/** Stitching possibly overlapping, out-of-order substrings into one byte stream. */
module Reassembly {
  import opened Words
  import opened ByteStreams

  /** A stored substring and the index of its first byte. The ordered map of the program is a
      sequence of these with ascending keys. */
  datatype Chunk = Chunk(key: nat, data: Bytes) {
    function End(): nat { key + |data| }
  }

  type Chunks = seq<Chunk>

  /** No end of stream seen yet. */
  const NO_EOF: nat := TWO64 - 1

  datatype Reassembler = Reassembler(chunks: Chunks, next: nat, count: int, eof: nat, out: Stream, capacity: nat)

  function NewReassembler(capacity: nat): Reassembler {
    Reassembler([], 0, 0, NO_EOF, NewStream(capacity), capacity)
  }

  /** The first index that does not fit in the window. */
  function Limit(r: Reassembler): int {
    r.next + r.capacity - |Buffer(r.out)|
  }

  // ---- the ordered map ----

  /** How many leading chunks have a key below `x`. */
  function LowerBound(cs: Chunks, x: nat): (n: nat)
    ensures n <= |cs|
  {
    if cs == [] || cs[0].key >= x then 0 else 1 + LowerBound(cs[1..], x)
  }

  /** How many leading chunks have a key of at most `x`. */
  function UpperBound(cs: Chunks, x: nat): (n: nat)
    ensures n <= |cs|
  {
    LowerBound(cs, x + 1)
  }

  /** Insertion that leaves an existing key alone. */
  function Insert(cs: Chunks, key: nat, data: Bytes): (cs': Chunks)
    ensures |cs'| >= |cs|
  {
    var i := LowerBound(cs, key);
    if i < |cs| && cs[i].key == key then cs else cs[..i] + [Chunk(key, data)] + cs[i..]
  }

  /** Bytes held by chunks. */
  function Total(cs: Chunks): nat {
    if cs == [] then 0 else |cs[0].data| + Total(cs[1..])
  }

  // ---- the steps of a push ----

  /** Where the part of a substring at `index` starts that is not known already. */
  function NewIndex(r: Reassembler, index: nat): (n: nat)
    ensures n >= index
  {
    var p := UpperBound(r.chunks, index);
    if p > 0 then Max(index, r.chunks[p - 1].End()) else Max(index, r.next)
  }

  datatype Trimmed = Trimmed(rest: Chunks, size: int, erased: nat)

  /** Cut `size` bytes at `newIdx` against the chunks that follow: swallowed chunks are erased, and
      a chunk reaching further cuts the bytes short. */
  function Trim(rest: Chunks, newIdx: nat, size: int): (t: Trimmed)
    ensures t.size <= size || t.size <= 0
    ensures newIdx + size >= 0 ==> newIdx + t.size >= 0
    ensures t.erased + Total(t.rest) == Total(rest)
  {
    if rest == [] || newIdx + size <= rest[0].key then Trimmed(rest, size, 0)
    else if newIdx + size < rest[0].End() then Trimmed(rest, rest[0].key - newIdx, 0)
    else
      var t := Trim(rest[1..], newIdx, size);
      t.(erased := t.erased + |rest[0].data|)
  }

  /** Write the bytes if they come next, keeping what does not fit; store them otherwise. */
  function Store(r: Reassembler, newIdx: nat, data: Bytes): Reassembler {
    if newIdx == r.next then
      var w := Accepted(r.out, data);
      var r' := r.(out := WriteTo(r.out, data), next := r.next + w);
      if w < |data| then
        r'.(count := r.count + (|data| - w), chunks := Insert(r.chunks, r'.next, data[w..]))
      else r'
    else
      r.(count := r.count + |data|, chunks := Insert(r.chunks, newIdx, data))
  }

  /** Write out the first chunk, which comes next. When the output is full the unwritten part is
      inserted before the old chunk is erased. */
  function DrainRound(r: Reassembler): Reassembler
    requires r.chunks != [] && r.chunks[0].key == r.next
  {
    var c := r.chunks[0];
    var w := Accepted(r.out, c.data);
    var r' := r.(out := WriteTo(r.out, c.data), next := r.next + w);
    if w < |c.data| then
      r'.(count := r.count + (|c.data| - w) - |c.data|, chunks := Insert(r.chunks, r'.next, c.data[w..])[1..])
    else
      r'.(count := r.count - |c.data|, chunks := r.chunks[1..])
  }

  /** Write out stored chunks from the front for as long as they come next and fit. */
  function Drain(r: Reassembler): Reassembler
    decreases |r.chunks|
  {
    if r.chunks == [] || r.chunks[0].key != r.next then r
    else if Accepted(r.out, r.chunks[0].data) < |r.chunks[0].data| then DrainRound(r)
    else Drain(DrainRound(r))
  }

  function Finish(r: Reassembler, eof: nat): Reassembler {
    r.(eof := eof, out := if eof <= r.next then EndedInput(r.out) else r.out)
  }

  /** The bytes of a substring nobody stores yet: `size` bytes at `at`, and the state around them. */
  datatype Remainder = Remainder(state: Reassembler, at: nat, size: int)

  function Cut(r: Reassembler, data: Bytes, index: nat): (m: Remainder)
    ensures m.at >= index && m.at + m.size <= Max(m.at, index + |data|) && m.at + m.size >= 0
  {
    var newIdx := NewIndex(r, index);
    var lo := LowerBound(r.chunks, newIdx);
    var t := Trim(r.chunks[lo..], newIdx, |data| - (newIdx - index));
    Remainder(r.(chunks := r.chunks[..lo] + t.rest, count := r.count - t.erased), newIdx, t.size)
  }

  /** The new bytes themselves. */
  function Piece(m: Remainder, data: Bytes, index: nat): (piece: Bytes)
    requires index <= m.at && m.at + m.size <= Max(m.at, index + |data|)
    ensures |piece| == Max(0, m.size)
  {
    if m.size > 0 then data[m.at - index..m.at - index + m.size] else []
  }

  /** The state just before draining. */
  function Stored(r: Reassembler, data: Bytes, index: nat): Reassembler {
    var m := Cut(r, data, index);
    var piece := Piece(m, data, index);
    if piece != [] then Store(m.state, m.at, piece) else m.state
  }

  function Push(r: Reassembler, data: Bytes, index: nat, eof: bool): Reassembler {
    var m := Cut(r, data, index);
    if Limit(r) <= m.at then m.state
    else
      var r' := Drain(Stored(r, data, index));
      Finish(r', if eof then index + |data| else r'.eof)
  }
}
