/** The reassembler object. Its invariant is the law every push keeps, so the check inside the drain
    loop can never fail. */
module StreamReassemblers {
  import opened Words
  import opened ByteStreams
  import opened Reassembly
  import opened ReassemblyLaws

  class StreamReassembler {
    const capacity: nat
    const output: ByteStream
    var chunks: Chunks
    var next: nat
    var count: int
    var eofIdx: nat

    ghost predicate Valid()
      reads this, output
    {
      output.Valid() && Inv(State())
    }

    ghost function State(): Reassembler
      reads this, output
      requires output.Valid()
    {
      Reassembler(chunks, next, count, eofIdx, output.State(), capacity)
    }

    constructor (capacity: nat)
      ensures Valid() && fresh(output) && State() == NewReassembler(capacity)
    {
      this.capacity := capacity;
      output := new ByteStream(capacity);
      chunks, next, count, eofIdx := [], 0, 0, NO_EOF;
    }

    method PushSubstring(data: Bytes, index: nat, eof: bool)
      requires Valid()
      modifies this, output
      ensures Valid() && State() == Push(old(State()), data, index, eof)
    {
      hide Ordered, Total, Cut, Store, Drain;
      ghost var r := State();
      ghost var m := Cut(r, data, index);
      CutKeeps(r, data, index);
      PushKeeps(r, data, index, eof);
      var newIdx, dataSize := CutAgainstStored(data, index);
      if next + capacity - |output.buffer| <= newIdx {
        return;
      }
      StoredKeeps(r, data, index);
      if dataSize > 0 {
        StoreNew(newIdx, data[newIdx - index..newIdx - index + dataSize]);
      }
      assert State() == Stored(r, data, index);
      DrainStored();
      if eof {
        eofIdx := index + |data|;
      }
      if eofIdx <= next {
        output.EndInput();
      }
    }

    /** Write the new bytes if they come next, keeping what does not fit; store them otherwise. */
    method StoreNew(newIdx: nat, newData: Bytes)
      requires output.Valid()
      modifies this, output
      ensures output.Valid() && State() == Store(old(State()), newIdx, newData)
    {
      if newIdx == next {
        var written := output.Write(newData);
        next := next + written;
        if written < |newData| {
          count := count + (|newData| - written);
          chunks := Insert(chunks, next, newData[written..]);
        }
      } else {
        count := count + |newData|;
        chunks := Insert(chunks, newIdx, newData);
      }
    }

    /** Find where the new bytes start, erase the chunks they swallow, and cut them where the next
        chunk starts. */
    method CutAgainstStored(data: Bytes, index: nat) returns (newIdx: nat, dataSize: int)
      requires Valid()
      modifies this
      ensures output.Valid() && State() == Cut(old(State()), data, index).state
      ensures newIdx == Cut(old(State()), data, index).at && dataSize == Cut(old(State()), data, index).size
    {
      hide LowerBound, Trim, Ordered, Total;
      newIdx := index;
      var up := UpperBound(chunks, index);
      if up > 0 {
        if index < chunks[up - 1].key + |chunks[up - 1].data| {
          newIdx := chunks[up - 1].key + |chunks[up - 1].data|;
        }
      } else if index < next {
        newIdx := next;
      }
      assert newIdx == NewIndex(old(State()), index);
      dataSize := TrimFrom(LowerBound(chunks, newIdx), newIdx, |data| - (newIdx - index));
    }

    /** Cut `size` bytes at `newIdx` against the chunks from position `pos` on. */
    method TrimFrom(pos: nat, newIdx: nat, size: int) returns (dataSize: int)
      requires pos <= |chunks|
      modifies this`chunks, this`count
      ensures var t := Trim(old(chunks)[pos..], newIdx, size);
        && chunks == old(chunks)[..pos] + t.rest && count == old(count) - t.erased && dataSize == t.size
    {
      dataSize := size;
      ghost var head, goal := chunks[..pos], Trim(chunks[pos..], newIdx, size);
      while pos < |chunks|
        invariant pos <= |chunks| && chunks[..pos] == head
        invariant var t := Trim(chunks[pos..], newIdx, dataSize);
          t.rest == goal.rest && t.size == goal.size && count - t.erased == old(count) - goal.erased
        decreases |chunks|
      {
        ghost var rest := chunks[pos..];
        assert rest[0] == chunks[pos] && chunks == head + rest;
        var dataEnd := newIdx + dataSize;
        if chunks[pos].key < dataEnd {
          if dataEnd < chunks[pos].key + |chunks[pos].data| {
            dataSize := chunks[pos].key - newIdx;
            break;
          } else {
            count := count - |chunks[pos].data|;
            chunks := chunks[..pos] + chunks[pos + 1..];
            assert chunks[pos..] == rest[1..];
          }
        } else {
          break;
        }
      }
      assert chunks == head + chunks[pos..];
    }

    /** Write out the stored chunks that come next. */
    method DrainStored()
      requires Valid()
      modifies this, output
      ensures Valid() && State() == Drain(old(State()))
    {
      hide Inv, DrainRound;
      while chunks != []
        invariant Valid() && Drain(State()) == Drain(old(State()))
        decreases |chunks|
      {
        FirstNotBefore(State());
        assert next <= chunks[0].key;
        if chunks[0].key == next {
          ghost var r := State();
          DrainRoundKeeps(r);
          RoundShrinks(r);
          var full := DrainFirst();
          if full {
            break;
          }
        } else {
          break;
        }
      }
    }

    /** Write out the first stored chunk; if the output cannot take all of it, keep the rest by inserting
        it before erasing the chunk. */
    method DrainFirst() returns (full: bool)
      requires output.Valid() && chunks != [] && chunks[0].key == next
      modifies this, output
      ensures output.Valid() && State() == DrainRound(old(State()))
      ensures full == (Accepted(old(output.State()), old(chunks)[0].data) < |old(chunks)[0].data|)
    {
      hide LowerBound;
      var c := chunks[0];
      var written := output.Write(c.data);
      next := next + written;
      if written < |c.data| {
        count := count + (|c.data| - written);
        chunks := Insert(chunks, next, c.data[written..]);
        count := count - |c.data|;
        chunks := chunks[1..];
        return true;
      }
      count := count - |c.data|;
      chunks := chunks[1..];
      return false;
    }

    lemma FirstNotBefore(r: Reassembler)
      requires Inv(r) && r.chunks != []
      ensures r.next <= r.chunks[0].key
    {
      assert r.chunks[0] in r.chunks;
    }

    lemma RoundShrinks(r: Reassembler)
      requires r.chunks != [] && r.chunks[0].key == r.next
      ensures Accepted(r.out, r.chunks[0].data) == |r.chunks[0].data| ==> |DrainRound(r).chunks| < |r.chunks|
    {
    }

    method UnassembledBytes() returns (n: nat)
      requires Valid()
      ensures n == count >= Total(chunks)
    {
      n := count;
    }

    method IsEmpty() returns (b: bool)
      requires Valid()
      ensures b ==> chunks == []
      ensures count == Total(chunks) ==> (b <==> chunks == [])
    {
      b := count == 0;
      if chunks != [] {
        assert chunks[0].data != [];
      }
    }
  }
}
