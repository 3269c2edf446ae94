/** What every operation of the sender keeps. */
module SenderLaws {
  import opened Words
  import opened WrappingIntegers
  import opened ByteStreams
  import opened Segments
  import opened Sending

  /** The sequence space of one direction: the initial number, the bytes written so far, and
      whether the writer has ended them. */
  datatype Space = Space(isn: u32, log: Bytes, ended: bool)

  function SpaceOf(s: Sender): Space {
    Space(s.isn, s.stream.log, s.stream.ended)
  }

  /** The segment is what the sequence space holds from absolute number `start` on. */
  ghost predicate Names(sp: Space, start: nat, seg: Segment) {
    && seg.header.seqno == Wrap(start, sp.isn)
    && |seg.payload| <= MAX_PAYLOAD
    && (Length(seg) > 0 ==>
          && (seg.header.syn <==> start == 0)
          && IsSlice(sp.log, start - 1 + Flag(seg.header.syn), seg.payload)
          && (seg.header.fin ==> sp.ended && start + Length(seg) == |sp.log| + 2))
  }

  /** The segments follow each other without a gap from `start` to `stop`. */
  ghost predicate Tiles(sp: Space, start: nat, segs: seq<Segment>, stop: nat)
    decreases |segs|
  {
    if segs == [] then start == stop
    else Length(segs[0]) > 0 && Names(sp, start, segs[0]) && Tiles(sp, start + Length(segs[0]), segs[1..], stop)
  }

  function Span(segs: seq<Segment>): nat {
    if segs == [] then 0 else Length(segs[0]) + Span(segs[1..])
  }

  /** The absolute number the outstanding segments start at. */
  function Base(s: Sender): int {
    s.next - Span(s.outstanding)
  }

  /** How far the sender is through its sequence space. */
  ghost predicate Placed(s: Sender) {
    && |s.stream.log| + 2 < TWO64
    && s.next == (if s.next == 0 then 0 else 1) + s.stream.read + Flag(s.finSent)
    && (s.next == 0 ==> s.stream.read == 0 && !s.finSent)
    && (s.finSent ==> Eof(s.stream))
  }

  /** The outstanding segments tile the space up to `next`, the first of them holds the number
      acknowledged last, and while there are any the timer is on. */
  ghost predicate Shape(s: Sender) {
    && Placed(s)
    && 0 <= InFlight(s) < TWO16
    && 0 <= Base(s) <= s.lastAck && Tiles(SpaceOf(s), Base(s), s.outstanding, s.next)
    && (s.outstanding == [] ==> s.lastAck == s.next)
    && (s.outstanding != [] ==> s.lastAck < Base(s) + Length(s.outstanding[0]))
    && (s.outstanding != [] ==> s.timerOn)
  }

  /** The structure of the sender between operations: moreover the timer is off when nothing is
      outstanding. */
  ghost predicate Inv(s: Sender) {
    Shape(s) && (s.outstanding == [] ==> !s.timerOn)
  }

  /** Nothing in flight, nothing outstanding and the timer off are the same thing. */
  lemma QuietIff(s: Sender)
    requires Inv(s)
    ensures InFlight(s) == 0 <==> s.outstanding == []
    ensures s.timerOn <==> InFlight(s) > 0
  {
    if s.outstanding != [] {
      TilesSpan(SpaceOf(s), Base(s) + Length(s.outstanding[0]), s.outstanding[1..], s.next);
    }
  }

  lemma {:induction false} TilesSpan(sp: Space, start: nat, segs: seq<Segment>, stop: nat)
    requires Tiles(sp, start, segs, stop)
    ensures stop == start + Span(segs)
    decreases |segs|
  {
    if segs == [] {
    } else {
      TilesSpan(sp, start + Length(segs[0]), segs[1..], stop);
    }
  }

  lemma {:induction false} TilesAppend(sp: Space, start: nat, segs: seq<Segment>, stop: nat, seg: Segment)
    requires Tiles(sp, start, segs, stop) && Length(seg) > 0 && Names(sp, stop, seg)
    ensures Tiles(sp, start, segs + [seg], stop + Length(seg))
    decreases |segs|
  {
    if segs == [] {
    } else {
      TilesAppend(sp, start + Length(segs[0]), segs[1..], stop, seg);
      assert (segs + [seg])[1..] == segs[1..] + [seg];
    }
  }

  // ---- the writer ----

  /** The space grows: more bytes while it is not ended, or an end. */
  ghost predicate Grows(sp: Space, sp': Space) {
    sp.isn == sp'.isn && sp.log <= sp'.log && (sp.ended ==> sp'.ended && sp.log == sp'.log)
  }

  lemma NamesGrows(sp: Space, sp': Space, start: nat, seg: Segment)
    requires Grows(sp, sp') && Names(sp, start, seg)
    ensures Names(sp', start, seg)
  {
    if Length(seg) > 0 {
      SliceOfLonger(sp.log, sp'.log, start - 1 + Flag(seg.header.syn), seg.payload);
    }
  }

  lemma {:induction false} TilesGrows(sp: Space, sp': Space, start: nat, segs: seq<Segment>, stop: nat)
    requires Grows(sp, sp') && Tiles(sp, start, segs, stop)
    ensures Tiles(sp', start, segs, stop)
    decreases |segs|
  {
    if segs == [] {
    } else {
      NamesGrows(sp, sp', start, segs[0]);
      TilesGrows(sp, sp', start + Length(segs[0]), segs[1..], stop);
    }
  }

  /** Writing to the stream or ending it, as the application may at any time. */
  lemma StreamGrows(s: Sender, stream: Stream)
    requires Inv(s) && Grows(SpaceOf(s), SpaceOf(s.(stream := stream))) && stream.read == s.stream.read
    requires |stream.log| + 2 < TWO64
    ensures Inv(s.(stream := stream))
  {
    TilesGrows(SpaceOf(s), SpaceOf(s.(stream := stream)), Base(s), s.outstanding, s.next);
  }

  // ---- filling the window ----

  lemma NextNames(s: Sender)
    requires Placed(s) && !s.finSent && InFlight(s) < CurrentWindow(s)
    ensures Names(SpaceOf(s), s.next, NextSegment(s))
  {
  }

  /** What the filling loop leaves alone. */
  ghost predicate SameBut(s: Sender, s': Sender) {
    && SpaceOf(s') == SpaceOf(s) && s'.lastAck == s.lastAck && s'.window == s.window
    && s'.rto == s.rto && s'.retx == s.retx && s'.initialRto == s.initialRto
    && s'.stream.error == s.stream.error && s'.stream.capacity == s.stream.capacity
    && (s.timerOn ==> s'.elapsed == s.elapsed) && (!s.timerOn ==> s'.elapsed == 0 || s'.elapsed == s.elapsed)
  }

  lemma EmitPlaced(s: Sender)
    requires Placed(s) && !s.finSent && InFlight(s) < CurrentWindow(s) && Length(NextSegment(s)) > 0
    ensures var s', seg := Emit(s), NextSegment(s);
      && Placed(s') && SameBut(s, s') && InFlight(s') <= CurrentWindow(s) && s'.next == s.next + Length(seg)
      && s'.out == s.out + [seg] && s'.outstanding == s.outstanding + [seg]
      && s'.finSent == seg.header.fin && s'.timerOn
  {
    hide Wrap;
  }

  lemma EmitKeeps(s: Sender)
    requires Shape(s) && !s.finSent && InFlight(s) < CurrentWindow(s) && Length(NextSegment(s)) > 0
    ensures var s', seg := Emit(s), NextSegment(s);
      && Inv(s') && SameBut(s, s') && InFlight(s') <= CurrentWindow(s) && s'.next == s.next + Length(seg)
      && s'.out == s.out + [seg] && s'.outstanding == s.outstanding + [seg]
      && s'.finSent == seg.header.fin && s'.timerOn && Names(SpaceOf(s), s.next, seg)
  {
    hide Emit, NextSegment, Names, Tiles;
    var seg := NextSegment(s);
    NextNames(s);
    EmitPlaced(s);
    TilesAppend(SpaceOf(s), Base(s), s.outstanding, s.next, seg);
    SpanAppend(s.outstanding, seg);
    NoTiles(SpaceOf(s), Base(s), s.outstanding, s.next);
  }

  lemma TilesNil(sp: Space, start: nat)
    ensures Tiles(sp, start, [], start)
  {
  }

  lemma TilesCons(sp: Space, start: nat, seg: Segment, segs: seq<Segment>, stop: nat)
    requires Length(seg) > 0 && Names(sp, start, seg) && Tiles(sp, start + Length(seg), segs, stop)
    ensures Tiles(sp, start, [seg] + segs, stop)
  {
    assert ([seg] + segs)[1..] == segs;
  }

  lemma NoTiles(sp: Space, start: nat, segs: seq<Segment>, stop: nat)
    requires Tiles(sp, start, segs, stop)
    ensures segs == [] ==> start == stop
  {
  }

  lemma {:induction false} SpanAppend(segs: seq<Segment>, seg: Segment)
    ensures Span(segs + [seg]) == Span(segs) + Length(seg)
  {
    if segs == [] {
    } else {
      SpanAppend(segs[1..], seg);
      assert (segs + [seg])[1..] == segs[1..] + [seg];
    }
  }

  /** Filling the window appends segments that continue the tiling, each one both to be sent and
      outstanding, and takes no more in flight than the window unless more already was. */
  lemma {:induction false} FillLoopKeeps(s: Sender) returns (sent: seq<Segment>)
    requires Shape(s) && !s.finSent
    ensures var s' := FillLoop(s);
      && Shape(s') && (Inv(s) ==> Inv(s')) && SameBut(s, s')
      && s'.out == s.out + sent && s'.outstanding == s.outstanding + sent
      && s.next <= s'.next && Tiles(SpaceOf(s), s.next, sent, s'.next)
      && InFlight(s') <= Max(InFlight(s), CurrentWindow(s))
    decreases CurrentWindow(s) - InFlight(s)
  {
    hide NextSegment, Emit, Names, Span, Placed, Shape, Tiles;
    TilesNil(SpaceOf(s), s.next);
    if CurrentWindow(s) <= InFlight(s) || Length(NextSegment(s)) == 0 {
      sent := [];
    } else {
      var seg := NextSegment(s);
      EmitKeeps(s);
      var rest := [];
      if !seg.header.fin {
        rest := FillLoopKeeps(Emit(s));
      }
      sent := [seg] + rest;
      TilesNil(SpaceOf(s), Emit(s).next);
      TilesCons(SpaceOf(s), s.next, seg, rest, FillLoop(s).next);
      assert s.out + [seg] + rest == s.out + sent;
      assert s.outstanding + [seg] + rest == s.outstanding + sent;
    }
  }

  lemma FillKeeps(s: Sender) returns (sent: seq<Segment>)
    requires Shape(s)
    ensures var s' := FillWindow(s);
      && Shape(s') && (Inv(s) ==> Inv(s')) && SameBut(s, s')
      && s'.out == s.out + sent && s'.outstanding == s.outstanding + sent
      && s.next <= s'.next && Tiles(SpaceOf(s), s.next, sent, s'.next)
      && InFlight(s') <= Max(InFlight(s), CurrentWindow(s))
  {
    if s.finSent {
      sent := [];
    } else {
      sent := FillLoopKeeps(s);
    }
  }

  /** Filling stops only when the window is full or there is nothing left to send: all bytes written
      so far are sent, and the end too if there is one. */
  lemma {:induction false} FillIsGreedy(s: Sender)
    requires Shape(s) && !s.stream.error
    ensures var s' := FillWindow(s);
      || CurrentWindow(s') <= InFlight(s')
      || (s'.next > 0 && Buffer(s'.stream) == [] && (s'.stream.ended ==> s'.finSent))
    decreases CurrentWindow(s) - InFlight(s)
  {
    hide Emit, NextSegment, Names, Tiles, Span;
    if s.finSent || CurrentWindow(s) <= InFlight(s) {
    } else {
      if Length(NextSegment(s)) == 0 {
        NothingNextMeansDone(s);
      } else {
        EmitKeeps(s);
        if !NextSegment(s).header.fin {
          FillIsGreedy(Emit(s));
        }
      }
    }
  }

  lemma NothingNextMeansDone(s: Sender)
    requires Placed(s) && !s.stream.error && !s.finSent && InFlight(s) < CurrentWindow(s)
    requires Length(NextSegment(s)) == 0
    ensures s.next > 0 && Buffer(s.stream) == [] && !s.stream.ended
  {
  }

  /** Every segment but the last carries a thousand bytes. */
  ghost predicate AllButLastFull(segs: seq<Segment>) {
    forall i :: 0 <= i < |segs| - 1 ==> |segs[i].payload| == 1000
  }

  /** A segment that leaves both window and bytes over is full. */
  lemma NextIsFull(s: Sender)
    requires Placed(s) && !s.stream.error && !s.finSent && InFlight(s) < CurrentWindow(s)
    ensures var s', seg := Emit(s), NextSegment(s);
      |seg.payload| == 1000 || InFlight(s') == CurrentWindow(s') || s'.finSent
      || (Buffer(s'.stream) == [] && !s'.stream.ended && s'.next > 0)
  {
    hide Wrap;
  }

  /** Filling the window wastes no segments: what it sends are full segments, and one for what is left over
      or fits. */
  lemma {:induction false} FillsFull(s: Sender) returns (sent: seq<Segment>)
    requires Shape(s) && !s.stream.error && !s.finSent
    ensures FillLoop(s).out == s.out + sent && AllButLastFull(sent)
    ensures CurrentWindow(s) <= InFlight(s) || Length(NextSegment(s)) == 0 <==> sent == []
    decreases CurrentWindow(s) - InFlight(s)
  {
    hide Emit, NextSegment, Names, Tiles, Span, Placed;
    if CurrentWindow(s) <= InFlight(s) || Length(NextSegment(s)) == 0 {
      sent := [];
    } else {
      var seg := NextSegment(s);
      EmitKeeps(s);
      NextIsFull(s);
      var rest := [];
      if !seg.header.fin {
        rest := FillsFull(Emit(s));
        if |seg.payload| != 1000 && InFlight(Emit(s)) < CurrentWindow(Emit(s)) {
          NothingMore(Emit(s));
        }
      }
      sent := [seg] + rest;
      assert s.out + [seg] + rest == s.out + sent;
    }
  }

  lemma NothingMore(s: Sender)
    requires InFlight(s) < CurrentWindow(s)
    ensures Buffer(s.stream) == [] && !s.stream.ended && s.next > 0 ==> Length(NextSegment(s)) == 0
  {
  }

  // ---- acknowledgments ----

  /** Absolute numbers within reach are read back exactly. */
  lemma AbsStartIs(sp: Space, start: nat, seg: Segment, next: nat)
    requires Names(sp, start, seg) && start <= next < TWO64 && next - start < TWO31
    ensures AbsStart(seg, sp.isn, next) == start
  {
    hide Wrap, Unwrap;
    UnwrapInvertsWrap(start, sp.isn, next);
  }

  /** Popping removes exactly the segments that end at or before the acknowledged number. */
  lemma {:induction false} PopTiles(sp: Space, start: nat, segs: seq<Segment>, next: nat, absAck: nat)
    returns (start': nat)
    requires Tiles(sp, start, segs, next) && next < TWO64 && next - start < TWO31
    ensures var rest := PopAcked(segs, sp.isn, next, absAck);
      && next == start' + Span(rest) && start <= start' && Tiles(sp, start', rest, next)
      && (rest != [] ==> absAck < start' + Length(rest[0]))
      && (start' > start ==> start' <= absAck && segs != [] && start + Length(segs[0]) <= absAck)
      && (rest == [] ==> segs == [] || next <= absAck)
      && (rest != segs ==> start' > start)
    decreases |segs|
  {
    hide Names, AbsStart;
    TilesSpan(sp, start, segs, next);
    start' := start;
    if segs == [] {
    } else {
      TilesSpan(sp, start + Length(segs[0]), segs[1..], next);
      AbsStartIs(sp, start, segs[0], next);
      if start + Length(segs[0]) <= absAck {
        start' := PopTiles(sp, start + Length(segs[0]), segs[1..], next, absAck);
      }
    }
  }

  /** The first outstanding segment is short, so everything outstanding is within reach. */
  lemma BaseIsNear(s: Sender)
    requires Inv(s)
    ensures s.next - Base(s) < TWO16 + MAX_PAYLOAD + 2
  {
  }

  lemma AcknowledgeKeeps(s: Sender, absAck: nat, window: u16)
    requires Inv(s) && absAck <= s.next
    ensures var s' := Acknowledge(s, absAck, window);
      && Shape(s') && InFlight(s') <= InFlight(s) && SpaceOf(s') == SpaceOf(s)
      && s'.lastAck == Max(s.lastAck, absAck) && s'.next == s.next && s'.out == s.out && s'.window == window
      && s'.outstanding == PopAcked(s.outstanding, s.isn, s.next, absAck)
  {
    hide AbsStart, PopAcked, Names;
    BaseIsNear(s);
    var start' := PopTiles(SpaceOf(s), Base(s), s.outstanding, s.next, absAck);
  }

  /** Any acknowledgment, acceptable or not, new or stale, keeps the structure; an acceptable one
      moves the acknowledged number forward to it and never back. */
  lemma AckKeeps(s: Sender, ackno: u32, window: u16) returns (sent: seq<Segment>)
    requires Inv(s)
    ensures var s', absAck := AckReceived(s, ackno, window), Unwrap(ackno, s.isn, s.next);
      && Inv(s') && SpaceOf(s') == SpaceOf(s) && s.next <= s'.next
      && s'.out == s.out + sent && Tiles(SpaceOf(s), s.next, sent, s'.next)
      && s'.lastAck == (if absAck <= s.next then Max(s.lastAck, absAck) else s.lastAck)
      && (absAck > s.next ==> s' == s)
      && (absAck <= s.next ==>
            && s'.window == window && InFlight(s') <= Max(s.next - s'.lastAck, CurrentWindow(s'))
            && s'.outstanding == PopAcked(s.outstanding, s.isn, s.next, absAck) + sent)
  {
    hide FillWindow, Acknowledge, Unwrap, Names, Span, PopAcked, Placed;
    NumbersFit(s);
    var absAck := Unwrap(ackno, s.isn, s.next);
    if absAck > s.next {
      sent := [];
    } else {
      hide Shape, Tiles;
      AcknowledgeKeeps(s, absAck, window);
      sent := FillKeeps(Acknowledge(s, absAck, window));
      TimerSettles(FillWindow(Acknowledge(s, absAck, window)), absAck > s.lastAck);
    }
  }

  /** The sequence space fits 64 bits. */
  lemma NumbersFit(s: Sender)
    requires Inv(s)
    ensures |s.stream.log| + 2 < TWO64 && s.next < TWO64 && U64(s.next) == s.next
  {
  }

  /** Setting the timer by what is outstanding, as the last step of an acknowledgment does. */
  lemma TimerSettles(s: Sender, isNewData: bool)
    requires Shape(s)
    ensures Inv(if s.outstanding == [] then s.(timerOn := false, elapsed := 0)
                else s.(timerOn := s.timerOn || isNewData))
  {
    hide Tiles, Span, Names;
  }

  /** What is sent when nothing was outstanding has the whole timeout before it is sent again, however much
      time was on the clock. */
  lemma WholeTimeout(s: Sender)
    requires Inv(s) && s.outstanding == []
    ensures var s' := FillWindow(s); s'.outstanding != [] ==> s'.timerOn && s'.elapsed == 0
    ensures FillWindow(s).outstanding == [] ==> !FillWindow(s).timerOn
  {
    hide FillWindow, Tiles, Span, Names, Placed;
    FirstStartsClock(s);
    var _ := FillKeeps(s);
  }

  lemma FirstStartsClock(s: Sender)
    requires Inv(s) && s.outstanding == []
    ensures FillWindow(s).outstanding != [] ==> FillWindow(s).elapsed == 0
  {
    hide Tiles, Span, Names, Placed;
    if !s.finSent && InFlight(s) < CurrentWindow(s) && Length(NextSegment(s)) > 0 {
      EmitKeeps(s);
      if !NextSegment(s).header.fin {
        var _ := FillLoopKeeps(Emit(s));
      }
    }
  }

  /** What an acknowledgment does to the timeout, and what it leaves alone. */
  lemma AckFrame(s: Sender, ackno: u32, window: u16)
    requires Inv(s)
    ensures var s' := AckReceived(s, ackno, window);
      && s'.initialRto == s.initialRto && s'.stream.error == s.stream.error
      && (if s'.lastAck > s.lastAck then s'.rto == s.initialRto && s'.retx == 0 && s'.elapsed == 0
          else s'.rto == s.rto && s'.retx == s.retx && (s'.elapsed == s.elapsed || s'.elapsed == 0))
  {
    hide FillWindow, Unwrap, Tiles, Span, Names, PopAcked, Placed;
    var sent := AckKeeps(s, ackno, window);
    NumbersFit(s);
    var absAck := Unwrap(ackno, s.isn, s.next);
    if absAck <= s.next {
      var a := Acknowledge(s, absAck, window);
      AcknowledgeKeeps(s, absAck, window);
      var _ := FillKeeps(a);
    }
  }

  /** The timer resends the first outstanding segment and changes nothing else in the structure. */
  lemma TickKeeps(s: Sender, ms: nat)
    requires Inv(s)
    ensures var s' := Tick(s, ms);
      && Inv(s') && SpaceOf(s') == SpaceOf(s) && s'.next == s.next && s'.outstanding == s.outstanding
      && s'.lastAck == s.lastAck
      && (s'.out == s.out
          || (s.outstanding != [] && s'.out == s.out + [s.outstanding[0]]
              && Names(SpaceOf(s), Base(s), s.outstanding[0])))
  {
    hide Names, Span;
  }
}
