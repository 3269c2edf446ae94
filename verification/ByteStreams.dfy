/** The flow-controlled in-memory byte stream: its meaning as a value, and the object that keeps it. */
module ByteStreams {
  import opened Words

  /** What a stream is: every byte ever accepted, and how many of them have been popped. */
  datatype StreamState = StreamState(capacity: nat, log: Bytes, read: nat, error: bool, ended: bool)

  type Stream = s: StreamState | s.read <= |s.log| <= s.read + s.capacity
    witness StreamState(0, [], 0, false, false)

  function NewStream(capacity: nat): Stream {
    StreamState(capacity, [], 0, false, false)
  }

  function Buffer(s: Stream): Bytes {
    s.log[s.read..]
  }

  function Room(s: Stream): nat {
    s.capacity - (|s.log| - s.read)
  }

  predicate Eof(s: Stream) {
    s.ended && s.read == |s.log|
  }

  /** How many bytes of `data` a write takes. */
  function Accepted(s: Stream, data: Bytes): (n: nat)
    ensures n <= |data|
  {
    if s.error || s.ended then 0 else Min(Room(s), |data|)
  }

  function WriteTo(s: Stream, data: Bytes): Stream {
    s.(log := s.log + data[..Accepted(s, data)])
  }

  function PeekAt(s: Stream, len: nat): (data: Bytes)
    ensures |data| <= len && IsSlice(s.log, s.read, data)
  {
    if s.error then [] else s.log[s.read..s.read + Min(len, |s.log| - s.read)]
  }

  function PopFrom(s: Stream, len: nat): Stream {
    if s.error then s else s.(read := s.read + Min(len, |s.log| - s.read))
  }

  function EndedInput(s: Stream): Stream {
    s.(ended := true)
  }

  function Errored(s: Stream): Stream {
    s.(error := true)
  }

  /** However writes and reads are interleaved, what comes out is what went in: popping what a peek
      showed moves the read position over exactly those bytes, and the history never changes under it. */
  lemma ReadsInOrder(s: Stream, len: nat, data: Bytes)
    ensures PopFrom(s, len).read == s.read + |PeekAt(s, len)|
    ensures PopFrom(s, len).log == s.log <= WriteTo(s, data).log
    ensures s.log[..s.read] + PeekAt(s, len) == s.log[..PopFrom(s, len).read]
    ensures |WriteTo(s, data).log| - |s.log| == Accepted(s, data) <= Room(s)
    ensures !s.error ==> (PeekAt(s, len) == [] <==> len == 0 || Buffer(s) == [])
  {
  }

  class ByteStream {
    const capacity: nat
    var bytesWritten: nat
    var bytesRead: nat
    var buffer: Bytes
    var error: bool
    var inputEnded: bool
    ghost var log: Bytes

    ghost predicate Valid()
      reads this
    {
      && bytesWritten == |log|
      && bytesRead <= |log| <= bytesRead + capacity
      && buffer == log[bytesRead..]
    }

    ghost function State(): Stream
      reads this
      requires Valid()
    {
      StreamState(capacity, log, bytesRead, error, inputEnded)
    }

    constructor (capacity: nat)
      ensures Valid() && State() == NewStream(capacity)
    {
      this.capacity := capacity;
      bytesWritten, bytesRead, buffer := 0, 0, [];
      error, inputEnded := false, false;
      log := [];
    }

    method Write(data: Bytes) returns (toWrite: nat)
      requires Valid()
      modifies this
      ensures Valid() && State() == WriteTo(old(State()), data)
      ensures toWrite == Accepted(old(State()), data)
    {
      if data == [] || error || inputEnded {
        return 0;
      }
      var space := capacity - |buffer|;
      toWrite := Min(space, |data|);
      buffer := buffer + data[..toWrite];
      bytesWritten := bytesWritten + toWrite;
      log := log + data[..toWrite];
    }

    method PeekOutput(len: nat) returns (data: Bytes)
      requires Valid()
      ensures data == PeekAt(State(), len)
    {
      if len == 0 || buffer == [] || error {
        return [];
      }
      var toPeek := Min(len, |buffer|);
      return buffer[..toPeek];
    }

    method PopOutput(len: nat)
      requires Valid()
      modifies this
      ensures Valid() && State() == PopFrom(old(State()), len)
    {
      if len == 0 || (inputEnded && buffer == []) || error {
        return;
      }
      var toPop := Min(len, |buffer|);
      buffer := buffer[toPop..];
      bytesRead := bytesRead + toPop;
    }

    method Read(len: nat) returns (data: Bytes)
      requires Valid()
      modifies this
      ensures Valid() && State() == PopFrom(old(State()), len)
      ensures data == PeekAt(old(State()), len)
    {
      data := PeekOutput(len);
      PopOutput(len);
    }

    method EndInput()
      requires Valid()
      modifies this
      ensures Valid() && State() == EndedInput(old(State()))
    {
      inputEnded := true;
    }

    method SetError()
      requires Valid()
      modifies this
      ensures Valid() && State() == Errored(old(State()))
    {
      error := true;
    }

    method RemainingCapacity() returns (n: nat)
      requires Valid()
      ensures n == Room(State())
    {
      n := capacity - |buffer|;
    }

    method IsEof() returns (b: bool)
      requires Valid()
      ensures b == Eof(State())
    {
      b := inputEnded && buffer == [];
    }
  }
}
