/** The sender object. */
module TCPSenders {
  import opened Words
  import opened WrappingIntegers
  import opened ByteStreams
  import opened Segments
  import opened Sending

  class TCPSender {
    const isn: u32
    const initialRto: u16
    const stream: ByteStream
    var finSent: bool
    var nextSeqno: nat
    var lastAckSeqno: nat
    var segmentsOutstanding: seq<Segment>
    var segmentsOut: seq<Segment>
    var windowSize: u16
    var currentRto: u32
    var timeElapsed: u32
    var timerRunning: bool
    var consecutiveRetx: u32

    ghost function Repr(): set<object> {
      {this, stream}
    }

    ghost predicate Valid()
      reads Repr()
    {
      stream.Valid()
    }

    ghost function State(): Sender
      reads Repr()
      requires Valid()
    {
      Sender(isn, initialRto, stream.State(), finSent, nextSeqno, lastAckSeqno, segmentsOutstanding, segmentsOut,
             windowSize, currentRto, timeElapsed, timerRunning, consecutiveRetx)
    }

    constructor (capacity: nat, retxTimeout: u16, isn: u32)
      ensures Valid() && fresh(Repr()) && State() == NewSender(capacity, retxTimeout, isn)
    {
      this.isn := isn;
      initialRto, currentRto := retxTimeout, retxTimeout;
      stream := new ByteStream(capacity);
      finSent, nextSeqno, lastAckSeqno := false, 0, 0;
      segmentsOutstanding, segmentsOut := [], [];
      windowSize, timeElapsed, timerRunning, consecutiveRetx := 1, 0, false, 0;
    }

    method BytesInFlight() returns (n: int)
      requires Valid()
      ensures n == InFlight(State())
    {
      n := nextSeqno - lastAckSeqno;
    }

    method FillWindow()
      requires Valid()
      modifies Repr()
      ensures Valid() && State() == Sending.FillWindow(old(State()))
    {
      if finSent {
        return;
      }
      var window: int := if windowSize == 0 then 1 else windowSize;
      while window > nextSeqno - lastAckSeqno
        invariant Valid() && !finSent && window == CurrentWindow(State())
        invariant FillLoop(State()) == FillLoop(old(State()))
        decreases window - (nextSeqno - lastAckSeqno)
      {
        hide NextSegment, Emit;
        ghost var s := State();
        EmitCounts(s);
        var length, fin := SendNext(window);
        if length == 0 || fin {
          break;
        }
      }
    }

    lemma EmitCounts(s: Sender)
      requires InFlight(s) < CurrentWindow(s)
      ensures var s', seg := Emit(s), NextSegment(s);
        && s'.next == s.next + Length(seg) && s'.lastAck == s.lastAck && s'.window == s.window
        && s'.finSent == (s.finSent || seg.header.fin)
    {
    }

    /** Send the next segment, unless it would be empty. */
    method SendNext(window: int) returns (length: nat, fin: bool)
      requires Valid() && !finSent && window == CurrentWindow(State()) && InFlight(State()) < window
      modifies Repr()
      ensures Valid() && length == Length(NextSegment(old(State()))) && fin == NextSegment(old(State())).header.fin
      ensures State() == if length == 0 then old(State()) else Emit(old(State()))
    {
      ghost var s := State();
      var syn := nextSeqno == 0;
      var windowRemain := window - (nextSeqno - lastAckSeqno);
      var payloadCapacity := windowRemain - (if syn then 1 else 0);
      var payload := stream.Read(Min(payloadCapacity, MAX_PAYLOAD));
      length := |payload| + (if syn then 1 else 0);
      fin := false;
      if !finSent && stream.inputEnded && stream.buffer == [] && length < windowRemain {
        fin := true;
        finSent := true;
        length := length + 1;
      }
      var seg := Segment(DEFAULT_HEADER.(seqno := Wrap(nextSeqno, isn), syn := syn, fin := fin), payload);
      assert seg == NextSegment(s) && length == Length(seg);
      if length == 0 {
        return;
      }
      Enqueue(seg);
    }

    /** Queue a segment, keep it for retransmission, and see that the timer runs. */
    method Enqueue(seg: Segment)
      requires Valid()
      modifies this
      ensures Valid() && State() == old(State()).(next := old(nextSeqno) + Length(seg),
                                                  out := old(segmentsOut) + [seg],
                                                  outstanding := old(segmentsOutstanding) + [seg], timerOn := true,
                                                  elapsed := if old(timerRunning) then old(timeElapsed) else 0)
    {
      segmentsOut := segmentsOut + [seg];
      segmentsOutstanding := segmentsOutstanding + [seg];
      nextSeqno := nextSeqno + Length(seg);
      if !timerRunning {
        timerRunning := true;
        timeElapsed := 0;
      }
    }

    method AckReceived(ackno: u32, window: u16)
      requires Valid()
      modifies Repr()
      ensures Valid() && State() == Sending.AckReceived(old(State()), ackno, window)
    {
      hide Sending.FillWindow, PopAcked, Unwrap, ByteStream.Valid, ByteStream.State;
      var absAck := Unwrap(ackno, isn, U64(nextSeqno));
      if absAck > nextSeqno {
        return;
      }
      var isNewData := TakeAcknowledgment(absAck, window);
      FillWindow();
      SetTimer(isNewData);
    }

    /** Everything an acceptable acknowledgment changes before the window is refilled. */
    method TakeAcknowledgment(absAck: nat, window: u16) returns (isNewData: bool)
      requires Valid()
      modifies this
      ensures Valid() && State() == Acknowledge(old(State()), absAck, window)
      ensures isNewData == (absAck > old(lastAckSeqno))
    {
      hide PopAcked, ByteStream.Valid, ByteStream.State;
      windowSize := window;
      isNewData := false;
      if absAck > lastAckSeqno {
        lastAckSeqno := absAck;
        isNewData := true;
        currentRto := initialRto;
        consecutiveRetx := 0;
        timeElapsed := 0;
      }
      PopAcknowledged(absAck);
    }

    /** The timer runs while something is outstanding. */
    method SetTimer(isNewData: bool)
      requires Valid()
      modifies this`timerRunning, this`timeElapsed
      ensures Valid() && State() == if segmentsOutstanding == [] then old(State()).(timerOn := false, elapsed := 0)
                                    else old(State()).(timerOn := old(timerRunning) || isNewData)
    {
      if segmentsOutstanding == [] {
        timerRunning := false;
        timeElapsed := 0;
      } else if isNewData {
        timerRunning := true;
      }
    }

    /** Drop the outstanding segments that are acknowledged in full. */
    method PopAcknowledged(absAck: nat)
      modifies this`segmentsOutstanding
      ensures segmentsOutstanding == PopAcked(old(segmentsOutstanding), isn, nextSeqno, absAck)
    {
      hide Unwrap;
      while segmentsOutstanding != []
        invariant PopAcked(segmentsOutstanding, isn, nextSeqno, absAck)
                  == PopAcked(old(segmentsOutstanding), isn, nextSeqno, absAck)
        decreases |segmentsOutstanding|
      {
        var seg := segmentsOutstanding[0];
        var segAbsSeq := Unwrap(seg.header.seqno, isn, U64(nextSeqno));
        if segAbsSeq + Length(seg) <= absAck {
          segmentsOutstanding := segmentsOutstanding[1..];
        } else {
          break;
        }
      }
    }

    method Tick(ms: nat)
      requires Valid()
      modifies this
      ensures Valid() && State() == Sending.Tick(old(State()), ms)
    {
      if !timerRunning {
        return;
      }
      timeElapsed := (timeElapsed + ms) % TWO32;
      if timeElapsed >= currentRto && segmentsOutstanding != [] {
        segmentsOut := segmentsOut + [segmentsOutstanding[0]];
        if windowSize > 0 {
          currentRto := currentRto * 2 % TWO32;
        }
        consecutiveRetx := (consecutiveRetx + 1) % TWO32;
        timeElapsed := 0;
      }
    }

    method SendEmptySegment()
      requires Valid()
      modifies this
      ensures Valid() && State() == SendEmpty(old(State()))
    {
      segmentsOut := segmentsOut + [Segment(DEFAULT_HEADER.(seqno := Wrap(nextSeqno, isn)), [])];
    }
  }
}
