/** What a network interface promises over whole runs: no datagram lost, none out of order, no
    address used that is stale, and no address asked for too often. */
module ArpLaws {
  import opened Words
  import opened Parsing
  import opened Ipv4
  import opened Arp

  // ---- reading the log ----

  function SubmittedBy(hop: u32, e: Event): seq<Datagram> {
    if e.Submitted? && e.hop == hop then [e.dgram] else []
  }

  function SentBy(hop: u32, e: Event): seq<Datagram> {
    if e.SentIp? && e.hop == hop then [e.dgram] else []
  }

  function SubmittedTo(hop: u32, log: seq<Event>): seq<Datagram> {
    if log == [] then [] else SubmittedBy(hop, log[0]) + SubmittedTo(hop, log[1..])
  }

  function SentTo(hop: u32, log: seq<Event>): seq<Datagram> {
    if log == [] then [] else SentBy(hop, log[0]) + SentTo(hop, log[1..])
  }

  function Last(log: seq<Event>): Event
    requires log != []
  {
    log[|log| - 1]
  }

  function Init(log: seq<Event>): seq<Event>
    requires log != []
  {
    log[..|log| - 1]
  }

  /** When the address was last asked for. */
  function LastAsk(ip: u32, log: seq<Event>): Option<nat> {
    if log == [] then None
    else if Last(log).Asked? && Last(log).ip == ip then Some(Last(log).at)
    else LastAsk(ip, Init(log))
  }

  /** The latest message that named an address, and when it came. */
  function Latest(ip: u32, log: seq<Event>): Option<(Mac, nat)> {
    if log == [] then None
    else if Last(log).Learned? && Last(log).ip == ip then Some((Last(log).mac, Last(log).at))
    else Latest(ip, Init(log))
  }

  /** Every request comes at least an interval after the previous one for the same address. */
  ghost predicate Spaced(log: seq<Event>) {
    log == [] ||
    (Spaced(Init(log)) &&
     (Last(log).Asked? ==>
        var asked := LastAsk(Last(log).ip, Init(log));
        asked.None? || Last(log).at >= asked.value + REQUEST_INTERVAL))
  }

  /** Every datagram goes to the address in the latest message naming its next hop, which is recent. */
  ghost predicate Addressed(log: seq<Event>) {
    log == [] ||
    (Addressed(Init(log)) &&
     (Last(log).SentIp? ==>
        var l := Latest(Last(log).hop, Init(log));
        l.Some? && l.value.0 == Last(log).mac && l.value.1 <= Last(log).at < l.value.1 + ENTRY_LIFETIME))
  }

  // ---- the invariant ----

  /** The maps agree: exactly who is waited for has a running request timer. */
  ghost predicate Consistent(i: Interface) {
    && i.pending.Keys == i.timers.Keys
    && (forall ip :: ip in i.pending ==> i.pending[ip] != [])
    && (forall ip :: ip in i.timers ==> 0 < i.timers[ip] <= REQUEST_INTERVAL)
    && (forall ip :: ip in i.table ==> 0 < i.table[ip].ttl <= ENTRY_LIFETIME)
  }

  /** The clock of one address: a running timer counts from the last request, a known entry from the
      message it came from, and without either the last request is an interval old. */
  ghost predicate Clocked(i: Interface, ip: u32) {
    var asked, latest := LastAsk(ip, i.log), Latest(ip, i.log);
    && (asked.Some? ==> asked.value <= i.now)
    && (ip in i.timers ==> asked.Some? && i.timers[ip] == REQUEST_INTERVAL - (i.now - asked.value))
    && (ip in i.table ==>
          && latest.Some? && latest.value.0 == i.table[ip].mac && latest.value.1 <= i.now
          && i.table[ip].ttl == ENTRY_LIFETIME - (i.now - latest.value.1)
          && (asked.Some? && ip !in i.timers ==> asked.value <= latest.value.1))
    && (ip !in i.timers && ip !in i.table && asked.Some? ==> i.now >= asked.value + REQUEST_INTERVAL)
  }

  /** What holds of every interface, whatever was submitted to it. */
  ghost predicate AInv(i: Interface) {
    && Consistent(i) && (forall ip :: Clocked(i, ip))
    && Spaced(i.log) && Addressed(i.log)
  }

  /** What was submitted for a hop is what was sent to it followed by what still waits, in order. */
  ghost predicate Conserved(i: Interface) {
    forall hop :: SubmittedTo(hop, i.log) == SentTo(hop, i.log) + Waiting(i, hop)
  }

  /** What moreover holds as long as everything submitted prints: nobody is both waited for and known,
      and no datagram is lost, repeated or overtaken. */
  ghost predicate Orderly(i: Interface) {
    && i.pending.Keys !! i.table.Keys
    && (forall hop, d :: d in Waiting(i, hop) ==> Prints(d))
    && Conserved(i)
  }

  // ---- appending to the log ----

  lemma {:induction false} SubmittedConcat(hop: u32, a: seq<Event>, b: seq<Event>)
    ensures SubmittedTo(hop, a + b) == SubmittedTo(hop, a) + SubmittedTo(hop, b)
  {
    hide SubmittedBy;
    if a == [] {
      assert a + b == b;
    } else {
      SubmittedConcat(hop, a[1..], b);
      assert (a + b)[0] == a[0] && (a + b)[1..] == a[1..] + b;
      Regroup(SubmittedBy(hop, a[0]), SubmittedTo(hop, a[1..]), SubmittedTo(hop, b));
    }
  }

  lemma {:induction false} SentConcat(hop: u32, a: seq<Event>, b: seq<Event>)
    ensures SentTo(hop, a + b) == SentTo(hop, a) + SentTo(hop, b)
  {
    hide SentBy;
    if a == [] {
      assert a + b == b;
    } else {
      SentConcat(hop, a[1..], b);
      assert (a + b)[0] == a[0] && (a + b)[1..] == a[1..] + b;
      Regroup(SentBy(hop, a[0]), SentTo(hop, a[1..]), SentTo(hop, b));
    }
  }

  lemma Regroup(a: seq<Datagram>, b: seq<Datagram>, c: seq<Datagram>)
    ensures a + (b + c) == (a + b) + c
  {
  }

  /** One more event. */
  lemma OneMore(hop: u32, log: seq<Event>, e: Event)
    ensures SubmittedTo(hop, log + [e]) == SubmittedTo(hop, log) + SubmittedBy(hop, e)
    ensures SentTo(hop, log + [e]) == SentTo(hop, log) + SentBy(hop, e)
  {
    hide SubmittedBy, SentBy;
    SubmittedConcat(hop, log, [e]);
    SentConcat(hop, log, [e]);
    assert [e][1..] == [];
  }

  lemma Snoc(log: seq<Event>, e: Event)
    ensures Last(log + [e]) == e && Init(log + [e]) == log
  {
  }

  predicate AsksFor(ip: u32, e: Event) {
    e.Asked? && e.ip == ip
  }

  predicate Names(ip: u32, e: Event) {
    e.Learned? && e.ip == ip
  }

  lemma {:induction false} NotAsked(ip: u32, log: seq<Event>, more: seq<Event>)
    requires forall k :: 0 <= k < |more| ==> !AsksFor(ip, more[k])
    ensures LastAsk(ip, log + more) == LastAsk(ip, log)
    decreases |more|
  {
    if more == [] {
      assert log + more == log;
    } else {
      var n := |more| - 1;
      NotAsked(ip, log, more[..n]);
      Snoc(log + more[..n], more[n]);
      assert log + more == (log + more[..n]) + [more[n]];
      assert !AsksFor(ip, more[n]);
    }
  }

  lemma {:induction false} NotNamed(ip: u32, log: seq<Event>, more: seq<Event>)
    requires forall k :: 0 <= k < |more| ==> !Names(ip, more[k])
    ensures Latest(ip, log + more) == Latest(ip, log)
    decreases |more|
  {
    if more == [] {
      assert log + more == log;
    } else {
      var n := |more| - 1;
      NotNamed(ip, log, more[..n]);
      Snoc(log + more[..n], more[n]);
      assert log + more == (log + more[..n]) + [more[n]];
      assert !Names(ip, more[n]);
    }
  }

  lemma {:induction false} StillSpaced(log: seq<Event>, more: seq<Event>)
    requires Spaced(log) && forall k :: 0 <= k < |more| ==> !more[k].Asked?
    ensures Spaced(log + more)
    decreases |more|
  {
    if more == [] {
      assert log + more == log;
    } else {
      var n := |more| - 1;
      StillSpaced(log, more[..n]);
      Snoc(log + more[..n], more[n]);
      assert log + more == (log + more[..n]) + [more[n]];
    }
  }

  lemma {:induction false} StillAddressed(log: seq<Event>, more: seq<Event>)
    requires Addressed(log) && forall k :: 0 <= k < |more| ==> !more[k].SentIp?
    ensures Addressed(log + more)
    decreases |more|
  {
    if more == [] {
      assert log + more == log;
    } else {
      var n := |more| - 1;
      StillAddressed(log, more[..n]);
      Snoc(log + more[..n], more[n]);
      assert log + more == (log + more[..n]) + [more[n]];
    }
  }

  // ---- sending ----

  /** What submitting a datagram does to the record and the queue of its next hop. */
  lemma SendEffect(i: Interface, dgram: Datagram, hop: u32, h: u32)
    ensures var i', sent := Send(i, dgram, hop), Known(i, hop) && Prints(dgram);
      && SubmittedTo(h, i'.log) == SubmittedTo(h, i.log) + (if h == hop then [dgram] else [])
      && SentTo(h, i'.log) == SentTo(h, i.log) + (if h == hop && sent then [dgram] else [])
      && Waiting(i', h) == Waiting(i, h) + (if h == hop && !Known(i, hop) then [dgram] else [])
  {
    hide SubmittedTo, SentTo, Prints;
    var i' := Send(i, dgram, hop);
    var first := i.log + [Submitted(hop, dgram)];
    OneMore(h, i.log, Submitted(hop, dgram));
    if i'.log != first {
      var e := Last(i'.log);
      assert i'.log == first + [e];
      OneMore(h, first, e);
    }
  }

  /** Submitting one more datagram keeps the order if and only if it is queued, or else it prints and
      nothing it could overtake waits. */
  lemma SendConservesIff(i: Interface, dgram: Datagram, hop: u32)
    requires Conserved(i)
    ensures Conserved(Send(i, dgram, hop)) <==>
            (Known(i, hop) ==> Prints(dgram) && Waiting(i, hop) + [dgram] == [dgram] + Waiting(i, hop))
  {
    hide SubmittedTo, SentTo, Prints, Known, Send, Waiting;
    var i' := Send(i, dgram, hop);
    SendEffect(i, dgram, hop, hop);
    var submitted, sent, waiting := SubmittedTo(hop, i.log), SentTo(hop, i.log), Waiting(i, hop);
    assert submitted == sent + waiting;
    if Known(i, hop) && Prints(dgram) {
      assert submitted + [dgram] == sent + (waiting + [dgram]);
      assert sent + [dgram] + waiting == sent + ([dgram] + waiting);
      CancelFront(sent, waiting + [dgram], [dgram] + waiting);
    } else if Known(i, hop) {
      assert |submitted + [dgram]| > |sent + waiting|;
    }
    forall h | h != hop ensures SubmittedTo(h, i'.log) == SentTo(h, i'.log) + Waiting(i', h) {
      SendEffect(i, dgram, hop, h);
      assert SubmittedTo(h, i.log) == SentTo(h, i.log) + Waiting(i, h);
    }
  }

  lemma CancelFront(a: seq<Datagram>, b: seq<Datagram>, c: seq<Datagram>)
    ensures a + b == a + c <==> b == c
  {
    assert (a + b)[|a|..] == b && (a + c)[|a|..] == c;
  }

  lemma SendClocks(i: Interface, dgram: Datagram, hop: u32, ip: u32)
    requires Consistent(i) && Clocked(i, ip)
    ensures Clocked(Send(i, dgram, hop), ip)
  {
    hide LastAsk, Latest, Prints;
    var i' := Send(i, dgram, hop);
    var first := i.log + [Submitted(hop, dgram)];
    NotAsked(ip, i.log, [Submitted(hop, dgram)]);
    NotNamed(ip, i.log, [Submitted(hop, dgram)]);
    if i'.log != first {
      var e := Last(i'.log);
      assert i'.log == first + [e];
      NotNamed(ip, first, [e]);
      if e.Asked? {
        AskedLast(ip, first, hop, i.now);
      } else {
        NotAsked(ip, first, [e]);
      }
    }
  }

  lemma AskedLast(ip: u32, log: seq<Event>, target: u32, at: nat)
    ensures LastAsk(ip, log + [Asked(target, at)]) == if ip == target then Some(at) else LastAsk(ip, log)
  {
    Snoc(log, Asked(target, at));
  }

  lemma SendSpaces(i: Interface, dgram: Datagram, hop: u32)
    requires Consistent(i) && Clocked(i, hop) && Spaced(i.log) && Addressed(i.log)
    ensures Spaced(Send(i, dgram, hop).log) && Addressed(Send(i, dgram, hop).log)
  {
    hide Prints;
    var log' := Send(i, dgram, hop).log;
    var first := i.log + [Submitted(hop, dgram)];
    StillSpaced(i.log, [Submitted(hop, dgram)]);
    StillAddressed(i.log, [Submitted(hop, dgram)]);
    NotAsked(hop, i.log, [Submitted(hop, dgram)]);
    NotNamed(hop, i.log, [Submitted(hop, dgram)]);
    if log' != first {
      var e := Last(log');
      assert log' == first + [e];
      Snoc(first, e);
    }
  }

  lemma SendKeeps(i: Interface, dgram: Datagram, hop: u32)
    requires AInv(i)
    ensures AInv(Send(i, dgram, hop))
  {
    hide Clocked, Spaced, Addressed, Prints;
    forall ip: u32 ensures Clocked(Send(i, dgram, hop), ip) {
      SendClocks(i, dgram, hop, ip);
    }
    SendSpaces(i, dgram, hop);
    assert Consistent(Send(i, dgram, hop));
  }

  lemma SendOrderly(i: Interface, dgram: Datagram, hop: u32)
    requires Consistent(i) && Orderly(i) && Prints(dgram)
    ensures Orderly(Send(i, dgram, hop))
  {
    hide Conserved, Prints;
    SendConservesIff(i, dgram, hop);
    var i' := Send(i, dgram, hop);
    assert Known(i, hop) ==> hop !in i.pending && Waiting(i, hop) == [];
    forall h, d | d in Waiting(i', h) ensures Prints(d) {
      SendEffect(i, dgram, hop, h);
      assert d in Waiting(i, h) || d == dgram;
    }
  }

  // ---- learning ----

  lemma {:induction false} FlushIs(hop: u32, mac: Mac, dgrams: seq<Datagram>, at: nat)
    ensures var f := Flush(hop, mac, dgrams, at);
      && |f| == |dgrams| && forall k :: 0 <= k < |f| ==> f[k] == SentIp(hop, mac, dgrams[k], at)
  {
    if dgrams == [] {
    } else {
      FlushIs(hop, mac, dgrams[1..], at);
    }
  }

  lemma OneLess(hop: u32, e: Event, log: seq<Event>)
    ensures SubmittedTo(hop, [e] + log) == SubmittedBy(hop, e) + SubmittedTo(hop, log)
    ensures SentTo(hop, [e] + log) == SentBy(hop, e) + SentTo(hop, log)
  {
    assert ([e] + log)[1..] == log;
  }

  lemma {:induction false} FlushSends(h: u32, hop: u32, mac: Mac, dgrams: seq<Datagram>, at: nat)
    ensures SubmittedTo(h, Flush(hop, mac, dgrams, at)) == []
    ensures SentTo(h, Flush(hop, mac, dgrams, at)) == if h == hop then dgrams else []
    decreases |dgrams|
  {
    hide SubmittedTo, SentTo;
    if dgrams == [] {
      NoRecord(h);
    } else {
      var rest := Flush(hop, mac, dgrams[1..], at);
      FlushSends(h, hop, mac, dgrams[1..], at);
      OneLess(h, SentIp(hop, mac, dgrams[0], at), rest);
      assert dgrams == [dgrams[0]] + dgrams[1..];
    }
  }

  /** The flush completes if and only if every datagram that waits prints. */
  lemma {:induction false} PrintingIff(dgrams: seq<Datagram>)
    ensures Printing(dgrams) <= dgrams
    ensures Printing(dgrams) == dgrams <==> forall d :: d in dgrams ==> Prints(d)
    ensures Printing(dgrams) == [] <==> dgrams == [] || !Prints(dgrams[0])
  {
    hide Prints;
    if dgrams == [] {
    } else {
      PrintingIff(dgrams[1..]);
      assert dgrams == [dgrams[0]] + dgrams[1..];
    }
  }

  lemma FlushNothing(hop: u32, mac: Mac, at: nat)
    ensures Printing([]) == [] && Flush(hop, mac, [], at) == []
  {
  }

  /** What learning an address adds to the log: the message, an answer if it asks for this interface, and
      what waited up to the first datagram that does not print. */
  lemma LearnLog(i: Interface, msg: ArpMessage) returns (answer: seq<Event>)
    ensures answer == if msg.opcode == Request && msg.targetIp == i.ip then [Answered(msg.senderMac, msg.senderIp)]
                      else []
    ensures Learn(i, msg).log == i.log + [Learned(msg.senderIp, msg.senderMac, i.now)] + answer
                                 + Flush(msg.senderIp, msg.senderMac, Printing(Waiting(i, msg.senderIp)), i.now)
  {
    hide LearnThrows, Printing, Prints, Flush;
    FlushNothing(msg.senderIp, msg.senderMac, i.now);
    answer := if msg.opcode == Request && msg.targetIp == i.ip then [Answered(msg.senderMac, msg.senderIp)] else [];
    var base := i.log + ([Learned(msg.senderIp, msg.senderMac, i.now)] + answer);
    assert base == i.log + [Learned(msg.senderIp, msg.senderMac, i.now)] + answer;
    assert base + [] == base;
  }

  /** A message flushes what waited for its sender, in order, and takes it out of the queue if and only
      if all of it prints; otherwise what prints before the failure has been sent and everything still
      waits. */
  lemma LearnEffect(i: Interface, msg: ArpMessage, h: u32)
    ensures var i', waiting := Learn(i, msg), Waiting(i, h);
      && SubmittedTo(h, i'.log) == SubmittedTo(h, i.log)
      && SentTo(h, i'.log) == SentTo(h, i.log) + (if h == msg.senderIp then Printing(waiting) else [])
      && Waiting(i', h) == (if h == msg.senderIp && !LearnThrows(i, msg) then [] else waiting)
    ensures LearnThrows(i, msg) <==> exists d :: d in Waiting(i, msg.senderIp) && !Prints(d)
  {
    hide SubmittedTo, SentTo, Flush, Printing, Prints;
    var answer := LearnLog(i, msg);
    var sent := Printing(Waiting(i, msg.senderIp));
    var flush := Flush(msg.senderIp, msg.senderMac, sent, i.now);
    FlushSends(h, msg.senderIp, msg.senderMac, sent, i.now);
    PrintingIff(Waiting(i, msg.senderIp));
    var base := i.log + [Learned(msg.senderIp, msg.senderMac, i.now)];
    OneMore(h, i.log, Learned(msg.senderIp, msg.senderMac, i.now));
    if answer != [] {
      OneMore(h, base, answer[0]);
      assert answer == [answer[0]];
    } else {
      assert base + answer == base;
    }
    SubmittedConcat(h, base + answer, flush);
    SentConcat(h, base + answer, flush);
  }

  /** A message keeps the order if and only if its flush completes, or fails at once. */
  lemma LearnConservesIff(i: Interface, msg: ArpMessage)
    requires Conserved(i)
    ensures Conserved(Learn(i, msg)) <==> (LearnThrows(i, msg) ==> !Prints(Waiting(i, msg.senderIp)[0]))
  {
    hide SubmittedTo, SentTo, Learn, Waiting, Prints, LearnThrows, Printing;
    var i', hop := Learn(i, msg), msg.senderIp;
    var waiting := Waiting(i, hop);
    PrintingIff(waiting);
    ThrowsIff(i, msg);
    LearnEffect(i, msg, hop);
    assert SubmittedTo(hop, i.log) == SentTo(hop, i.log) + waiting;
    if LearnThrows(i, msg) && Printing(waiting) != [] {
      assert |SentTo(hop, i'.log) + Waiting(i', hop)| > |SubmittedTo(hop, i'.log)|;
    }
    forall h | h != hop ensures SubmittedTo(h, i'.log) == SentTo(h, i'.log) + Waiting(i', h) {
      LearnEffect(i, msg, h);
      assert SubmittedTo(h, i.log) == SentTo(h, i.log) + Waiting(i, h);
    }
  }

  lemma ThrowsIff(i: Interface, msg: ArpMessage)
    ensures LearnThrows(i, msg) <==> Printing(Waiting(i, msg.senderIp)) != Waiting(i, msg.senderIp)
    ensures LearnThrows(i, msg) ==> Waiting(i, msg.senderIp) != []
  {
    hide Prints;
  }

  lemma LearnOrderly(i: Interface, msg: ArpMessage)
    requires Orderly(i)
    ensures Orderly(Learn(i, msg)) && !LearnThrows(i, msg)
  {
    hide Conserved, Prints, Printing, Flush;
    PrintingIff(Waiting(i, msg.senderIp));
    LearnConservesIff(i, msg);
    var i' := Learn(i, msg);
    forall h, d | d in Waiting(i', h) ensures Prints(d) {
      LearnEffect(i, msg, h);
      assert d in Waiting(i, h);
    }
    assert i'.pending.Keys <= i.pending.Keys - {msg.senderIp} && i'.table.Keys == i.table.Keys + {msg.senderIp};
  }

  /** A message asks nobody, and is the latest to name its sender. */
  lemma LearnReads(i: Interface, msg: ArpMessage, ip: u32)
    ensures LastAsk(ip, Learn(i, msg).log) == LastAsk(ip, i.log)
    ensures Latest(ip, Learn(i, msg).log) ==
            if ip == msg.senderIp then Some((msg.senderMac, i.now)) else Latest(ip, i.log)
  {
    hide Learn, Printing, Prints, Flush;
    var answer := LearnLog(i, msg);
    var head := Learned(msg.senderIp, msg.senderMac, i.now);
    var sent := Printing(Waiting(i, msg.senderIp));
    var flush := Flush(msg.senderIp, msg.senderMac, sent, i.now);
    FlushIs(msg.senderIp, msg.senderMac, sent, i.now);
    NotAsked(ip, i.log, [head]);
    NotAsked(ip, i.log + [head], answer);
    NotAsked(ip, i.log + [head] + answer, flush);
    Snoc(i.log, head);
    NotNamed(ip, i.log + [head], answer);
    NotNamed(ip, i.log + [head] + answer, flush);
  }

  lemma LearnClocks(i: Interface, msg: ArpMessage, ip: u32)
    requires Consistent(i) && Clocked(i, ip)
    ensures Clocked(Learn(i, msg), ip)
  {
    hide LastAsk, Latest, Printing, Prints, Flush, LearnThrows;
    LearnReads(i, msg, ip);
  }

  /** Flushing addresses every datagram by the message just learned from. */
  lemma {:induction false} FlushAddressed(log: seq<Event>, hop: u32, mac: Mac, dgrams: seq<Datagram>, at: nat)
    requires Addressed(log) && Latest(hop, log) == Some((mac, at))
    ensures Addressed(log + Flush(hop, mac, dgrams, at))
    decreases |dgrams|
  {
    if dgrams == [] {
      assert log + Flush(hop, mac, dgrams, at) == log;
    } else {
      var e := SentIp(hop, mac, dgrams[0], at);
      Snoc(log, e);
      FlushAddressed(log + [e], hop, mac, dgrams[1..], at);
      var rest := Flush(hop, mac, dgrams[1..], at);
      assert Flush(hop, mac, dgrams, at) == [e] + rest;
      assert log + ([e] + rest) == (log + [e]) + rest;
    }
  }

  lemma LearnSpaces(i: Interface, msg: ArpMessage)
    requires Spaced(i.log) && Addressed(i.log)
    ensures Spaced(Learn(i, msg).log) && Addressed(Learn(i, msg).log)
  {
    hide Learn, Printing, Prints, Flush, Spaced, Addressed, Latest, LastAsk;
    var answer := LearnLog(i, msg);
    var head := Learned(msg.senderIp, msg.senderMac, i.now);
    var sent := Printing(Waiting(i, msg.senderIp));
    FlushIs(msg.senderIp, msg.senderMac, sent, i.now);
    StillSpaced(i.log, [head]);
    StillSpaced(i.log + [head], answer);
    StillSpaced(i.log + [head] + answer, Flush(msg.senderIp, msg.senderMac, sent, i.now));
    StillAddressed(i.log, [head]);
    StillAddressed(i.log + [head], answer);
    JustLearned(i.log, msg.senderIp, msg.senderMac, i.now);
    NotNamed(msg.senderIp, i.log + [head], answer);
    FlushAddressed(i.log + [head] + answer, msg.senderIp, msg.senderMac, sent, i.now);
  }

  lemma JustLearned(log: seq<Event>, ip: u32, mac: Mac, at: nat)
    ensures Latest(ip, log + [Learned(ip, mac, at)]) == Some((mac, at))
  {
    Snoc(log, Learned(ip, mac, at));
  }

  lemma LearnKeeps(i: Interface, msg: ArpMessage)
    requires AInv(i)
    ensures AInv(Learn(i, msg))
  {
    hide Clocked, Spaced, Addressed, Prints, Printing, LearnThrows;
    forall ip: u32 ensures Clocked(Learn(i, msg), ip) {
      LearnClocks(i, msg, ip);
    }
    LearnSpaces(i, msg);
    assert Consistent(Learn(i, msg));
  }

  // ---- time ----

  /** Requests for distinct addresses, all of which may be asked for now, keep the log spaced. */
  lemma {:induction false} AsksSpaced(log: seq<Event>, asks: seq<Event>, due: set<u32>, at: nat)
    requires Spaced(log)
    requires forall k :: 0 <= k < |asks| ==> asks[k].Asked? && asks[k].ip in due && asks[k].at == at
    requires forall j, k :: 0 <= j < k < |asks| ==> asks[j] != asks[k]
    requires forall ip :: ip in due ==> LastAsk(ip, log).None? || at >= LastAsk(ip, log).value + REQUEST_INTERVAL
    ensures Spaced(log + asks)
    decreases |asks|
  {
    hide LastAsk;
    if asks == [] {
      assert log + asks == log;
    } else {
      var n := |asks| - 1;
      var e := asks[n];
      AsksSpaced(log, asks[..n], due, at);
      forall k | 0 <= k < n ensures !AsksFor(e.ip, asks[..n][k]) {
        assert asks[k] != asks[n] && asks[k].at == at;
      }
      NotAsked(e.ip, log, asks[..n]);
      Snoc(log + asks[..n], e);
      assert log + asks == (log + asks[..n]) + [e];
    }
  }

  /** Afterwards each of them was last asked for now, and nobody else was. */
  lemma {:induction false} AsksClock(ip: u32, log: seq<Event>, asks: seq<Event>, at: nat)
    requires forall k :: 0 <= k < |asks| ==> asks[k].Asked? && asks[k].at == at
    ensures LastAsk(ip, log + asks) == if Asked(ip, at) in asks then Some(at) else LastAsk(ip, log)
    decreases |asks|
  {
    if asks == [] {
      assert log + asks == log;
    } else {
      var n := |asks| - 1;
      AsksClock(ip, log, asks[..n], at);
      Snoc(log + asks[..n], asks[n]);
      assert log + asks == (log + asks[..n]) + [asks[n]];
      assert asks == asks[..n] + [asks[n]];
    }
  }

  lemma {:induction false} AsksMoveNothing(hop: u32, asks: seq<Event>)
    requires forall k :: 0 <= k < |asks| ==> asks[k].Asked?
    ensures SubmittedTo(hop, asks) == [] && SentTo(hop, asks) == []
  {
    if asks == [] {
    } else {
      AsksMoveNothing(hop, asks[1..]);
    }
  }

  /** Ageing keeps every clock right, except that timers may have run down to zero. */
  lemma AgedClock(i: Interface, ms: nat, ip: u32)
    requires Consistent(i) && Clocked(i, ip)
    ensures var a := Aged(i, ms);
            var asked, latest := LastAsk(ip, i.log), Latest(ip, i.log);
      && (asked.Some? ==> asked.value <= a.now)
      && (ip in a.timers ==>
            && asked.Some?
            && (a.timers[ip] > 0 ==> a.timers[ip] == REQUEST_INTERVAL - (a.now - asked.value))
            && (a.timers[ip] == 0 ==> a.now >= asked.value + REQUEST_INTERVAL))
      && (ip in a.table ==>
            && latest.Some? && latest.value.0 == a.table[ip].mac && latest.value.1 <= a.now
            && a.table[ip].ttl == ENTRY_LIFETIME - (a.now - latest.value.1)
            && (asked.Some? && ip !in a.timers ==> asked.value <= latest.value.1))
      && (ip !in a.timers && ip !in a.table && asked.Some? ==> a.now >= asked.value + REQUEST_INTERVAL)
  {
  }

  lemma TickClocks(i: Interface, ms: nat, asks: seq<Event>, i': Interface, ip: u32)
    requires Consistent(i) && Clocked(i, ip) && Ticks(i, ms, asks, i')
    ensures Clocked(i', ip)
  {
    var a := Aged(i, ms);
    AgedClock(i, ms, ip);
    AsksClock(ip, i.log, asks, a.now);
    NotNamed(ip, i.log, asks);
    assert Asked(ip, a.now) in asks <==> ip in Due(a);
  }

  lemma TickConserves(i: Interface, ms: nat, asks: seq<Event>, i': Interface)
    requires Conserved(i) && Ticks(i, ms, asks, i')
    ensures Conserved(i')
  {
    hide SubmittedTo, SentTo;
    forall h ensures SubmittedTo(h, i'.log) == SentTo(h, i'.log) + Waiting(i', h) {
      assert SubmittedTo(h, i.log) == SentTo(h, i.log) + Waiting(i, h);
      SubmittedConcat(h, i.log, asks);
      SentConcat(h, i.log, asks);
      AsksMoveNothing(h, asks);
    }
  }

  lemma TickSpaces(i: Interface, ms: nat, asks: seq<Event>, i': Interface)
    requires AInv(i) && Ticks(i, ms, asks, i')
    ensures Spaced(i'.log) && Addressed(i'.log)
  {
    hide Clocked, Spaced, Addressed;
    var a := Aged(i, ms);
    forall ip | ip in Due(a) ensures LastAsk(ip, i.log).None? || a.now >= LastAsk(ip, i.log).value + REQUEST_INTERVAL {
      AgedClock(i, ms, ip);
    }
    AsksSpaced(i.log, asks, Due(a), a.now);
    StillAddressed(i.log, asks);
  }

  lemma TickConsistent(i: Interface, ms: nat, asks: seq<Event>, i': Interface)
    requires Consistent(i) && Ticks(i, ms, asks, i')
    ensures Consistent(i')
  {
    var a := Aged(i, ms);
    assert a.timers.Keys == i.timers.Keys;
    assert Due(a) <= i.pending.Keys;
    assert i'.timers.Keys == i.timers.Keys;
  }

  lemma TickKeeps(i: Interface, ms: nat, asks: seq<Event>, i': Interface)
    requires AInv(i) && Ticks(i, ms, asks, i')
    ensures AInv(i')
  {
    hide Clocked, Spaced, Addressed, Consistent, Ticks;
    TickConsistent(i, ms, asks, i');
    forall ip: u32 ensures Clocked(i', ip) {
      TickClocks(i, ms, asks, i', ip);
    }
    TickSpaces(i, ms, asks, i');
  }

  lemma TickOrderly(i: Interface, ms: nat, asks: seq<Event>, i': Interface)
    requires Orderly(i) && Ticks(i, ms, asks, i')
    ensures Orderly(i')
  {
    hide Conserved, Prints;
    TickConserves(i, ms, asks, i');
    assert i'.pending == i.pending && i'.table.Keys <= i.table.Keys;
    forall h, d | d in Waiting(i', h) ensures Prints(d) {
      assert d in Waiting(i, h);
    }
  }

  // ---- whole runs ----

  /** A call on the interface; for a tick also the order in which the due requests went out. */
  datatype Op = DoSend(dgram: Datagram, hop: u32) | DoReceive(frame: Frame) | DoTick(ms: nat, asks: seq<Event>)

  ghost predicate Legal(i: Interface, op: Op) {
    op.DoTick? ==> Requests(op.asks, Due(Aged(i, op.ms)), i.now + op.ms)
  }

  function Step(i: Interface, op: Op): Interface {
    match op
    case DoSend(dgram, hop) => Send(i, dgram, hop)
    case DoReceive(frame) => Receive(i, frame).0
    case DoTick(ms, asks) =>
      var a := Aged(i, ms);
      Logged(a.(timers := Asking(a, Due(a))), asks)
  }

  function Run(i: Interface, ops: seq<Op>): Interface
    decreases |ops|
  {
    if ops == [] then i else Run(Step(i, ops[0]), ops[1..])
  }

  ghost predicate AllLegal(i: Interface, ops: seq<Op>)
    decreases |ops|
  {
    ops == [] || (Legal(i, ops[0]) && AllLegal(Step(i, ops[0]), ops[1..]))
  }

  lemma StepKeeps(i: Interface, op: Op)
    requires AInv(i) && Legal(i, op)
    ensures AInv(Step(i, op))
  {
    hide AInv, Send, Learn;
    match op
    case DoSend(dgram, hop) => SendKeeps(i, dgram, hop);
    case DoReceive(frame) =>
      if frame.payload.Arp? {
        LearnKeeps(i, frame.payload.msg);
      }
    case DoTick(ms, asks) => TickKeeps(i, ms, asks, Step(i, op));
  }

  lemma {:induction false} RunKeeps(i: Interface, ops: seq<Op>)
    requires AInv(i) && AllLegal(i, ops)
    ensures AInv(Run(i, ops))
    decreases |ops|
  {
    hide AInv, Step, Legal;
    if ops == [] {
    } else {
      StepKeeps(i, ops[0]);
      RunKeeps(Step(i, ops[0]), ops[1..]);
    }
  }

  lemma StartOk(mac: Mac, ip: u32)
    ensures AInv(NewInterface(mac, ip)) && Orderly(NewInterface(mac, ip))
  {
  }

  predicate SubmitsPrinting(op: Op) {
    op.DoSend? ==> Prints(op.dgram)
  }

  /** The call throws. */
  predicate Throws(i: Interface, op: Op) {
    match op
    case DoSend(dgram, hop) => SendThrows(i, dgram, hop)
    case DoReceive(frame) => Receive(i, frame).1.Threw?
    case DoTick(_, _) => false
  }

  lemma StepOrderly(i: Interface, op: Op)
    requires Consistent(i) && Orderly(i)
    ensures Legal(i, op) && SubmitsPrinting(op) ==> Orderly(Step(i, op)) && !Throws(i, op)
  {
    hide Orderly, Send, Learn, Prints, LearnThrows;
    if Legal(i, op) && SubmitsPrinting(op) {
      match op
      case DoSend(dgram, hop) => SendOrderly(i, dgram, hop);
      case DoReceive(frame) =>
        if frame.payload.Arp? {
          LearnOrderly(i, frame.payload.msg);
        }
      case DoTick(ms, asks) => TickOrderly(i, ms, asks, Step(i, op));
    }
  }

  lemma MapsAgree(i: Interface)
    requires AInv(i)
    ensures Consistent(i)
  {
  }

  lemma {:induction false} RunOrderly(i: Interface, ops: seq<Op>)
    requires AInv(i) && Orderly(i) && AllLegal(i, ops) && forall op :: op in ops ==> SubmitsPrinting(op)
    ensures AInv(Run(i, ops)) && Orderly(Run(i, ops))
    decreases |ops|
  {
    hide AInv, Orderly, Step, Legal, SubmitsPrinting;
    if ops == [] {
    } else {
      StepKeeps(i, ops[0]);
      MapsAgree(i);
      StepOrderly(i, ops[0]);
      RunOrderly(Step(i, ops[0]), ops[1..]);
    }
  }

  /** On every run whose submitted datagrams all print, the datagrams submitted for a next hop are
      exactly those sent to it followed by those still waiting for it, in the order of submission. */
  lemma NoneLost(mac: Mac, ip: u32, ops: seq<Op>, hop: u32)
    requires AllLegal(NewInterface(mac, ip), ops) && forall op :: op in ops ==> SubmitsPrinting(op)
    ensures var i := Run(NewInterface(mac, ip), ops);
            SubmittedTo(hop, i.log) == SentTo(hop, i.log) + Waiting(i, hop)
  {
    hide Run, AllLegal, SubmittedTo, SentTo, AInv, SubmitsPrinting, Prints;
    StartOk(mac, ip);
    RunOrderly(NewInterface(mac, ip), ops);
  }

  // ---- exactly which runs lose none ----

  /** The call keeps what was submitted equal to what was sent and what waits: it queues, or prints and
      overtakes nothing; a message completes its flush, or fails before anything is sent. */
  predicate Keeps(i: Interface, op: Op) {
    match op
    case DoSend(dgram, hop) =>
      Known(i, hop) ==> Prints(dgram) && Waiting(i, hop) + [dgram] == [dgram] + Waiting(i, hop)
    case DoReceive(frame) =>
      Receive(i, frame).1.Threw? ==> !Prints(Waiting(i, frame.payload.msg.senderIp)[0])
    case DoTick(_, _) => true
  }

  predicate AllKeep(i: Interface, ops: seq<Op>)
    decreases |ops|
  {
    ops == [] || (Keeps(i, ops[0]) && AllKeep(Step(i, ops[0]), ops[1..]))
  }

  /** In every state of the run, what was submitted for any next hop is what was sent to it followed by
      what waits for it. */
  ghost predicate AlwaysConserved(i: Interface, ops: seq<Op>)
    decreases |ops|
  {
    Conserved(i) && (ops == [] || AlwaysConserved(Step(i, ops[0]), ops[1..]))
  }

  lemma StepConservesIff(i: Interface, op: Op)
    requires Conserved(i) && Legal(i, op)
    ensures Conserved(Step(i, op)) <==> Keeps(i, op)
  {
    hide Conserved, Send, Learn, Prints, Waiting, LearnThrows, Known;
    match op
    case DoSend(dgram, hop) => SendConservesIff(i, dgram, hop);
    case DoReceive(frame) =>
      if frame.payload.Arp? {
        LearnConservesIff(i, frame.payload.msg);
      }
    case DoTick(ms, asks) => TickConserves(i, ms, asks, Step(i, op));
  }

  lemma {:induction false} ConservedIff(i: Interface, ops: seq<Op>)
    requires Conserved(i) && AllLegal(i, ops)
    ensures AlwaysConserved(i, ops) <==> AllKeep(i, ops)
    decreases |ops|
  {
    hide Conserved, Step, Legal, Keeps;
    if ops == [] {
    } else {
      StepConservesIff(i, ops[0]);
      if Keeps(i, ops[0]) {
        ConservedIff(Step(i, ops[0]), ops[1..]);
      }
    }
  }

  /** On any run, no datagram is lost, repeated or overtaken in any of its states if and only if none of
      its calls does that to the state it meets. */
  lemma NoneLostIff(mac: Mac, ip: u32, ops: seq<Op>)
    requires AllLegal(NewInterface(mac, ip), ops)
    ensures AlwaysConserved(NewInterface(mac, ip), ops) <==> AllKeep(NewInterface(mac, ip), ops)
  {
    hide AllLegal, AllKeep, AlwaysConserved, Prints, AInv;
    StartOk(mac, ip);
    ConservedIff(NewInterface(mac, ip), ops);
  }

  lemma FourSteps(i: Interface, a: Op, b: Op, c: Op, d: Op)
    ensures Run(i, [a, b, c, d]) == Step(Step(Step(Step(i, a), b), c), d)
  {
    hide Step;
    assert [a, b, c, d][1..] == [b, c, d] && [b, c, d][1..] == [c, d] && [c, d][1..] == [d] && [d][1..] == [];
    var i3 := Step(Step(Step(i, a), b), c);
    assert Run(i3, [d]) == Run(Step(i3, d), []) == Step(i3, d);
    assert Run(Step(Step(i, a), b), [c, d]) == Run(i3, [d]);
    assert Run(Step(i, a), [b, c, d]) == Run(Step(Step(i, a), b), [c, d]);
  }

  /** What goes wrong without that: a datagram that prints and then one that does not wait for an
      address. Every message from it sends the first one again, and the second one never leaves. */
  lemma UnprintableRepeats(mac: Mac, ip: u32, hop: u32, theirs: Mac, first: Datagram, second: Datagram)
    requires Prints(first) && !Prints(second)
    ensures var answer := DoReceive(Frame(mac, theirs, Arp(ArpMessage(Reply, theirs, hop, mac, ip))));
            var i := Run(NewInterface(mac, ip), [DoSend(first, hop), DoSend(second, hop), answer, answer]);
      && SubmittedTo(hop, i.log) == [first, second]
      && SentTo(hop, i.log) == [first, first] && Waiting(i, hop) == [first, second] && hop in i.table
  {
    hide Prints, SubmittedTo, SentTo, Flush, LearnThrows, Learn, Send;
    var msg := ArpMessage(Reply, theirs, hop, mac, ip);
    var answer := DoReceive(Frame(mac, theirs, Arp(msg)));
    var i0 := NewInterface(mac, ip);
    FourSteps(i0, DoSend(first, hop), DoSend(second, hop), answer, answer);
    var i1 := Send(i0, first, hop);
    var i2 := Send(i1, second, hop);
    StillUnknown(i0, first, hop);
    StillUnknown(i1, second, hop);
    NowKnown(i2, msg);
    NowKnown(Learn(i2, msg), msg);
    assert Step(i2, answer) == Learn(i2, msg) && Step(Learn(i2, msg), answer) == Learn(Learn(i2, msg), msg);
    FlushesTwice(i0, hop, msg, first, second);
  }

  lemma FlushesTwice(i: Interface, hop: u32, msg: ArpMessage, first: Datagram, second: Datagram)
    requires Prints(first) && !Prints(second) && msg.senderIp == hop
    requires hop !in i.table && hop !in i.pending && i.log == []
    ensures var i' := Learn(Learn(Send(Send(i, first, hop), second, hop), msg), msg);
      && SubmittedTo(hop, i'.log) == [first, second]
      && SentTo(hop, i'.log) == [first, first] && Waiting(i', hop) == [first, second]
  {
    hide Prints, SubmittedTo, SentTo, Flush, LearnThrows, Learn, Send;
    NoRecord(hop);
    var i1 := Send(i, first, hop);
    var i2 := Send(i1, second, hop);
    SendEffect(i, first, hop, hop);
    StillUnknown(i, first, hop);
    SendEffect(i1, second, hop, hop);
    OnlyFirstPrints(first, second);
    assert Waiting(i2, hop) == [first, second] && second in [first, second];
    LearnEffect(i2, msg, hop);
    LearnEffect(Learn(i2, msg), msg, hop);
    assert [first] + [first] == [first, first];
  }

  lemma NoRecord(hop: u32)
    ensures SubmittedTo(hop, []) == [] && SentTo(hop, []) == []
  {
  }

  lemma StillUnknown(i: Interface, dgram: Datagram, hop: u32)
    ensures Send(i, dgram, hop).table == i.table && Send(i, dgram, hop).mac == i.mac
  {
    hide Prints;
  }

  lemma NowKnown(i: Interface, msg: ArpMessage)
    ensures msg.senderIp in Learn(i, msg).table && Learn(i, msg).mac == i.mac
  {
    hide Prints, Printing, Flush;
  }

  lemma OnlyFirstPrints(first: Datagram, second: Datagram)
    requires Prints(first) && !Prints(second)
    ensures Printing([first, second]) == [first]
  {
    hide Prints;
    assert [first, second][1..] == [second];
  }

  /** Such datagrams do occur: this one is accepted from the wire and does not print. */
  lemma UnprintableArrives()
    ensures var (d, result) := ParseDatagram([0x55, 0, 0, 20] + Zeros(16)); result == NoError && !Prints(d)
  {
    hide ParseDatagram, DatagramText;
    AcceptedUnprintable();
  }

  lemma {:induction false} LastAskIsLatest(log: seq<Event>, j: nat)
    requires Spaced(log) && j < |log| && log[j].Asked?
    ensures LastAsk(log[j].ip, log).Some? && LastAsk(log[j].ip, log).value >= log[j].at
    decreases |log|
  {
    if j == |log| - 1 {
    } else {
      LastAskIsLatest(Init(log), j);
    }
  }

  lemma {:induction false} SpacedPairs(log: seq<Event>, j: nat, k: nat)
    requires Spaced(log) && j < k < |log| && log[j].Asked? && log[k].Asked? && log[j].ip == log[k].ip
    ensures log[k].at >= log[j].at + REQUEST_INTERVAL
    decreases |log|
  {
    if k < |log| - 1 {
      SpacedPairs(Init(log), j, k);
    } else {
      LastAskIsLatest(Init(log), j);
    }
  }

  /** On every run, two requests for the same address are at least five seconds apart. */
  lemma RateLimited(mac: Mac, ip: u32, ops: seq<Op>, j: nat, k: nat)
    requires AllLegal(NewInterface(mac, ip), ops)
    requires var log := Run(NewInterface(mac, ip), ops).log;
      j < k < |log| && log[j].Asked? && log[k].Asked? && log[j].ip == log[k].ip
    ensures var log := Run(NewInterface(mac, ip), ops).log;
            log[k].at >= log[j].at + 5000
  {
    hide Run, AllLegal, Orderly, Consistent, Clocked;
    StartOk(mac, ip);
    RunKeeps(NewInterface(mac, ip), ops);
    SpacedPairs(Run(NewInterface(mac, ip), ops).log, j, k);
  }

  lemma {:induction false} LatestIs(ip: u32, log: seq<Event>) returns (j: nat)
    requires Latest(ip, log).Some?
    ensures j < |log| && log[j] == Learned(ip, Latest(ip, log).value.0, Latest(ip, log).value.1)
    ensures forall m :: j < m < |log| ==> !Names(ip, log[m])
    decreases |log|
  {
    if Names(ip, Last(log)) {
      j := |log| - 1;
    } else {
      j := LatestIs(ip, Init(log));
    }
  }

  lemma {:induction false} AddressedAt(log: seq<Event>, k: nat) returns (j: nat)
    requires Addressed(log) && k < |log| && log[k].SentIp?
    ensures j < k && log[j].Learned? && log[j].ip == log[k].hop && log[j].mac == log[k].mac
    ensures log[j].at <= log[k].at < log[j].at + ENTRY_LIFETIME
    ensures forall m :: j < m < k ==> !Names(log[k].hop, log[m])
    decreases |log|
  {
    if k < |log| - 1 {
      j := AddressedAt(Init(log), k);
    } else {
      j := LatestIs(log[k].hop, Init(log));
    }
  }

  /** On every run, each datagram was sent to the address that the latest message naming its next hop
      gave, and that message came less than thirty seconds before. */
  lemma FreshlyAddressed(mac: Mac, ip: u32, ops: seq<Op>, k: nat) returns (j: nat)
    requires AllLegal(NewInterface(mac, ip), ops)
    requires var log := Run(NewInterface(mac, ip), ops).log; k < |log| && log[k].SentIp?
    ensures var log := Run(NewInterface(mac, ip), ops).log;
      && j < k && log[j].Learned? && log[j] == Learned(log[k].hop, log[k].mac, log[j].at)
      && log[j].at <= log[k].at < log[j].at + 30000
      && forall m :: j < m < k ==> !Names(log[k].hop, log[m])
  {
    hide Run, AllLegal, Orderly, Consistent, Clocked;
    StartOk(mac, ip);
    RunKeeps(NewInterface(mac, ip), ops);
    j := AddressedAt(Run(NewInterface(mac, ip), ops).log, k);
  }
}
