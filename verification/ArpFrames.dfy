/** What an interface puts on its link, frame by frame. */
module ArpFrames {
  import opened Words
  import opened Ipv4
  import opened Arp
  import opened ArpLaws

  lemma {:induction false} FramesConcat(mac: Mac, ip: u32, a: seq<Event>, b: seq<Event>)
    ensures FramesOf(mac, ip, a + b) == FramesOf(mac, ip, a) + FramesOf(mac, ip, b)
    decreases |a|
  {
    hide FrameOf;
    if a == [] {
      assert a + b == b;
      assert [] + FramesOf(mac, ip, b) == FramesOf(mac, ip, b);
    } else {
      FramesConcat(mac, ip, a[1..], b);
      assert (a + b)[0] == a[0] && (a + b)[1..] == a[1..] + b;
      Regrouped(FrameOf(mac, ip, a[0]), FramesOf(mac, ip, a[1..]), FramesOf(mac, ip, b));
    }
  }

  lemma Regrouped(a: seq<Frame>, b: seq<Frame>, c: seq<Frame>)
    ensures a + (b + c) == (a + b) + c
  {
  }

  // ---- replies ----

  predicate IsReply(f: Frame) {
    f.payload.Arp? && f.payload.msg.opcode == Reply
  }

  /** The replies among some frames, in order. */
  function Replies(frames: seq<Frame>): seq<Frame> {
    if frames == [] then [] else (if IsReply(frames[0]) then [frames[0]] else []) + Replies(frames[1..])
  }

  /** What a received frame is answered with: a request for this interface's address that reaches it, with
      its addresses, sent to whoever asked. */
  function ReplyTo(mac: Mac, ip: u32, frame: Frame): seq<Frame> {
    if (frame.dst == mac || frame.dst == [0xff, 0xff, 0xff, 0xff, 0xff, 0xff]) && frame.payload.Arp?
       && frame.payload.msg.opcode == Request && frame.payload.msg.targetIp == ip then
      var asker := frame.payload.msg;
      [Frame(asker.senderMac, mac, Payload.Arp(ArpMessage(Reply, mac, ip, asker.senderMac, asker.senderIp)))]
    else []
  }

  lemma {:induction false} RepliesConcat(a: seq<Frame>, b: seq<Frame>)
    ensures Replies(a + b) == Replies(a) + Replies(b)
    decreases |a|
  {
    if a == [] {
      assert a + b == b;
      assert [] + Replies(b) == Replies(b);
    } else {
      hide IsReply;
      RepliesConcat(a[1..], b);
      assert (a + b)[0] == a[0] && (a + b)[1..] == a[1..] + b;
      Regrouped(if IsReply(a[0]) then [a[0]] else [], Replies(a[1..]), Replies(b));
    }
  }

  /** The replies an event log stands for. */
  function Replied(mac: Mac, ip: u32, log: seq<Event>): seq<Frame> {
    Replies(FramesOf(mac, ip, log))
  }

  lemma RepliedConcat(mac: Mac, ip: u32, a: seq<Event>, b: seq<Event>)
    ensures Replied(mac, ip, a + b) == Replied(mac, ip, a) + Replied(mac, ip, b)
  {
    FramesConcat(mac, ip, a, b);
    RepliesConcat(FramesOf(mac, ip, a), FramesOf(mac, ip, b));
  }

  /** Only answers are replies. */
  lemma {:induction false} NoAnswers(mac: Mac, ip: u32, log: seq<Event>)
    requires forall k :: 0 <= k < |log| ==> !log[k].Answered?
    ensures Replied(mac, ip, log) == []
    decreases |log|
  {
    if log == [] {
    } else {
      NoAnswers(mac, ip, log[1..]);
      RepliesConcat(FrameOf(mac, ip, log[0]), FramesOf(mac, ip, log[1..]));
      OneFrame(mac, ip, log[0]);
    }
  }

  lemma OneFrame(mac: Mac, ip: u32, e: Event)
    ensures FramesOf(mac, ip, [e]) == FrameOf(mac, ip, e)
    ensures Replies(FrameOf(mac, ip, e)) == if e.Answered? then FrameOf(mac, ip, e) else []
  {
    assert [e][1..] == [];
    var f := FrameOf(mac, ip, e);
    if f != [] {
      assert f == [f[0]] && f[1..] == [];
    }
  }

  /** Receiving a frame puts exactly the reply it asks for on the queue, among whatever it sets free. */
  lemma ReceiveLog(i: Interface, frame: Frame) returns (more: seq<Event>)
    ensures Receive(i, frame).0.log == i.log + more
    ensures Replies(FramesOf(i.mac, i.ip, more)) == ReplyTo(i.mac, i.ip, frame)
  {
    hide Learn, LearnThrows, Printing, Flush, FramesOf, Replies, FrameOf;
    more := [];
    NoAnswers(i.mac, i.ip, []);
    if (frame.dst == i.mac || frame.dst == BROADCAST) && frame.payload.Arp? {
      var msg := frame.payload.msg;
      var answer := LearnLog(i, msg);
      var learned := Learned(msg.senderIp, msg.senderMac, i.now);
      var flush := Flush(msg.senderIp, msg.senderMac, Printing(Waiting(i, msg.senderIp)), i.now);
      more := [learned] + answer + flush;
      assert i.log + [learned] + answer + flush == i.log + more;
      FlushIs(msg.senderIp, msg.senderMac, Printing(Waiting(i, msg.senderIp)), i.now);
      NoAnswers(i.mac, i.ip, flush);
      NoAnswers(i.mac, i.ip, [learned]);
      RepliedConcat(i.mac, i.ip, [learned] + answer, flush);
      RepliedConcat(i.mac, i.ip, [learned], answer);
      if answer != [] {
        AnswerFrame(i.mac, i.ip, answer[0]);
      }
    }
  }

  lemma AnswerFrame(mac: Mac, ip: u32, e: Event)
    requires e.Answered?
    ensures Replied(mac, ip, [e]) == [Frame(e.mac, mac, Payload.Arp(ArpMessage(Reply, mac, ip, e.mac, e.ip)))]
  {
    OneFrame(mac, ip, e);
  }

  /** What one call is answered with. */
  function Wanted(mac: Mac, ip: u32, op: Op): seq<Frame> {
    if op.DoReceive? then ReplyTo(mac, ip, op.frame) else []
  }

  function AllWanted(mac: Mac, ip: u32, ops: seq<Op>): seq<Frame> {
    if ops == [] then [] else Wanted(mac, ip, ops[0]) + AllWanted(mac, ip, ops[1..])
  }

  lemma StepReplies(i: Interface, op: Op) returns (more: seq<Event>)
    requires Legal(i, op)
    ensures var i' := Step(i, op);
      && i'.log == i.log + more && i'.mac == i.mac && i'.ip == i.ip
      && Replied(i.mac, i.ip, more) == Wanted(i.mac, i.ip, op)
  {
    hide Learn, Replied, ReplyTo, Prints;
    match op
    case DoSend(dgram, hop) =>
      more := Step(i, op).log[|i.log|..];
      NoAnswers(i.mac, i.ip, more);
    case DoReceive(frame) =>
      more := ReceiveLog(i, frame);
      SameAddresses(i, frame);
      RepliedIs(i.mac, i.ip, more);
    case DoTick(ms, asks) =>
      more := asks;
      NoAnswers(i.mac, i.ip, more);
  }

  lemma RepliedIs(mac: Mac, ip: u32, log: seq<Event>)
    ensures Replied(mac, ip, log) == Replies(FramesOf(mac, ip, log))
  {
  }

  lemma SameAddresses(i: Interface, frame: Frame)
    ensures Receive(i, frame).0.mac == i.mac && Receive(i, frame).0.ip == i.ip
  {
  }

  lemma {:induction false} RunReplies(i: Interface, ops: seq<Op>)
    requires AllLegal(i, ops)
    ensures Replied(i.mac, i.ip, Run(i, ops).log) == Replied(i.mac, i.ip, i.log) + AllWanted(i.mac, i.ip, ops)
    decreases |ops|
  {
    hide Step, Legal, Replied, Wanted;
    if ops == [] {
    } else {
      var more := StepReplies(i, ops[0]);
      RepliedConcat(i.mac, i.ip, i.log, more);
      RunReplies(Step(i, ops[0]), ops[1..]);
    }
  }

  /** On every run, throws included, the replies that go out are exactly those that the requests for this
      interface's address ask for, one each, in order. */
  lemma RequestsAreAnswered(mac: Mac, ip: u32, ops: seq<Op>)
    requires AllLegal(NewInterface(mac, ip), ops)
    ensures Replies(FramesOf(mac, ip, Run(NewInterface(mac, ip), ops).log)) == AllWanted(mac, ip, ops)
  {
    hide Run, AllLegal, AllWanted, FramesOf, Replies;
    RunReplies(NewInterface(mac, ip), ops);
    NoAnswers(mac, ip, []);
  }

  // ---- all frames ----

  /** Every frame on the queue is that of an event. */
  lemma {:induction false} FromEvent(mac: Mac, ip: u32, log: seq<Event>, f: Frame) returns (k: nat)
    requires f in FramesOf(mac, ip, log)
    ensures k < |log| && FrameOf(mac, ip, log[k]) == [f]
    decreases |log|
  {
    if f in FrameOf(mac, ip, log[0]) {
      k := 0;
    } else {
      var j := FromEvent(mac, ip, log[1..], f);
      k := j + 1;
    }
  }

  /** On every run, whatever frame goes out comes from this interface. One that carries a datagram goes to
      the address that the latest message from its next hop gave, less than thirty seconds before. A
      request gives this interface's addresses and goes to everybody; a reply gives them to the one it
      goes to. Nothing else goes out. */
  lemma FramesAreRight(mac: Mac, ip: u32, ops: seq<Op>, f: Frame) returns (k: nat, j: nat)
    requires AllLegal(NewInterface(mac, ip), ops)
    requires f in FramesOf(mac, ip, Run(NewInterface(mac, ip), ops).log)
    ensures f.src == mac
    ensures var log := Run(NewInterface(mac, ip), ops).log;
      match f.payload
      case Ip(dgram) =>
        && j < k < |log| && log[k].SentIp? && log[k].dgram == dgram
        && log[j].Learned? && log[j].ip == log[k].hop && log[j].mac == f.dst
        && log[j].at <= log[k].at < log[j].at + 30000 && (forall m :: j < m < k ==> !Names(log[k].hop, log[m]))
      case Arp(msg) =>
        && msg.senderMac == mac && msg.senderIp == ip
        && (msg.opcode == Request ==>
              f.dst == [0xff, 0xff, 0xff, 0xff, 0xff, 0xff] && msg.targetMac == [0, 0, 0, 0, 0, 0])
        && (msg.opcode == Reply ==> f.dst == msg.targetMac)
      case Unreadable => false
      case OtherType => false
  {
    hide Run, AllLegal, FramesOf;
    k, j := 0, 0;
    k := FromEvent(mac, ip, Run(NewInterface(mac, ip), ops).log, f);
    if f.payload.Ip? {
      j := FreshlyAddressed(mac, ip, ops, k);
    }
  }

  // ---- what comes in ----

  predicate ForUs(mac: Mac, frame: Frame) {
    frame.dst == mac || frame.dst == [0xff, 0xff, 0xff, 0xff, 0xff, 0xff]
  }

  /** Datagrams are handed up exactly when a frame that carries one is for this interface, and change
      nothing; nor does any frame that is not for it or carries nothing readable. */
  lemma HandsUpIff(i: Interface, frame: Frame, dgram: Datagram)
    ensures Receive(i, frame).1 == HandedUp(dgram) <==> ForUs(i.mac, frame) && frame.payload == Ip(dgram)
    ensures !ForUs(i.mac, frame) || !frame.payload.Arp? ==> Receive(i, frame).0 == i
  {
  }

  /** The messages an interface has learned from: whose address, and which. */
  function Told(log: seq<Event>): seq<(u32, Mac)> {
    if log == [] then [] else (if log[0].Learned? then [(log[0].ip, log[0].mac)] else []) + Told(log[1..])
  }

  /** The messages in the frames that come in for it. */
  function AllTold(mac: Mac, ops: seq<Op>): seq<(u32, Mac)> {
    if ops == [] then []
    else
      (if ops[0].DoReceive? && ForUs(mac, ops[0].frame) && ops[0].frame.payload.Arp? then
         [(ops[0].frame.payload.msg.senderIp, ops[0].frame.payload.msg.senderMac)]
       else []) + AllTold(mac, ops[1..])
  }

  lemma {:induction false} ToldConcat(a: seq<Event>, b: seq<Event>)
    ensures Told(a + b) == Told(a) + Told(b)
    decreases |a|
  {
    if a == [] {
      assert a + b == b;
    } else {
      ToldConcat(a[1..], b);
      assert (a + b)[0] == a[0] && (a + b)[1..] == a[1..] + b;
    }
  }

  lemma {:induction false} ToldNothing(log: seq<Event>)
    requires forall k :: 0 <= k < |log| ==> !log[k].Learned?
    ensures Told(log) == []
    decreases |log|
  {
    if log == [] {
    } else {
      ToldNothing(log[1..]);
    }
  }

  lemma StepTold(i: Interface, op: Op)
    requires Legal(i, op)
    ensures Told(Step(i, op).log) == Told(i.log) + AllTold(i.mac, [op]) && Step(i, op).mac == i.mac
  {
    hide Told, Prints, Printing, Flush, LearnThrows;
    assert [op][1..] == [];
    match op
    case DoSend(dgram, hop) =>
      var more := Send(i, dgram, hop).log[|i.log|..];
      ToldNothing(more);
      ToldConcat(i.log, more);
      assert Send(i, dgram, hop).log == i.log + more;
    case DoReceive(frame) =>
      if ForUs(i.mac, frame) && frame.payload.Arp? {
        LearnTold(i, frame.payload.msg);
      }
    case DoTick(ms, asks) =>
      ToldNothing(asks);
      ToldConcat(i.log, asks);
  }

  lemma LearnTold(i: Interface, msg: ArpMessage)
    ensures Told(Learn(i, msg).log) == Told(i.log) + [(msg.senderIp, msg.senderMac)]
  {
    hide Prints, Printing, Flush, LearnThrows, Learn;
    var answer := LearnLog(i, msg);
    var waiting := Printing(Waiting(i, msg.senderIp));
    var flush := Flush(msg.senderIp, msg.senderMac, waiting, i.now);
    var learned := Learned(msg.senderIp, msg.senderMac, i.now);
    FlushIs(msg.senderIp, msg.senderMac, waiting, i.now);
    ToldNothing(answer + flush);
    ToldConcat(i.log + [learned], answer + flush);
    ToldConcat(i.log, [learned]);
    assert [learned][1..] == [] && Told([learned][1..]) == [];
    assert i.log + [learned] + answer + flush == i.log + [learned] + (answer + flush);
  }

  lemma {:induction false} RunTold(i: Interface, ops: seq<Op>)
    requires AllLegal(i, ops)
    ensures Told(Run(i, ops).log) == Told(i.log) + AllTold(i.mac, ops)
    decreases |ops|
  {
    hide Step, Legal, Told;
    if ops == [] {
    } else {
      StepTold(i, ops[0]);
      RunTold(Step(i, ops[0]), ops[1..]);
      assert [ops[0]][1..] == [];
    }
  }

  /** On every run the addresses learned are exactly those in the ARP messages that came in for this
      interface, in order. */
  lemma MessagesAreLearned(mac: Mac, ip: u32, ops: seq<Op>)
    requires AllLegal(NewInterface(mac, ip), ops)
    ensures Told(Run(NewInterface(mac, ip), ops).log) == AllTold(mac, ops)
  {
    hide Run, AllLegal, AllTold;
    RunTold(NewInterface(mac, ip), ops);
  }

  // ---- what an interface remembers ----

  /** A message that came less than thirty seconds ago is remembered. */
  ghost predicate Remembers(i: Interface, ip: u32) {
    var latest := Latest(ip, i.log);
    latest.Some? && i.now < latest.value.1 + 30000 ==> ip in i.table
  }

  lemma StepRemembers(i: Interface, op: Op, ip: u32)
    requires AInv(i) && Legal(i, op) && Remembers(i, ip)
    ensures Remembers(Step(i, op), ip)
  {
    hide Spaced, Addressed, Latest, LastAsk, Prints, Printing, Flush, LearnThrows, Conserved;
    match op
    case DoSend(dgram, hop) =>
      var i' := Send(i, dgram, hop);
      NotNamed(ip, i.log, i'.log[|i.log|..]);
      assert i'.log == i.log + i'.log[|i.log|..];
    case DoReceive(frame) =>
      if (frame.dst == i.mac || frame.dst == BROADCAST) && frame.payload.Arp? {
        LearnRemembers(i, frame.payload.msg, ip);
      }
    case DoTick(ms, asks) =>
      assert Clocked(i, ip);
      NotNamed(ip, i.log, asks);
  }

  lemma LearnRemembers(i: Interface, msg: ArpMessage, ip: u32)
    requires Remembers(i, ip)
    ensures Remembers(Learn(i, msg), ip)
  {
    hide Latest, LastAsk, Prints, Printing, Flush;
    if ip != msg.senderIp {
      var answer := LearnLog(i, msg);
      var waiting := Printing(Waiting(i, msg.senderIp));
      var flush := Flush(msg.senderIp, msg.senderMac, waiting, i.now);
      FlushIs(msg.senderIp, msg.senderMac, waiting, i.now);
      var more := [Learned(msg.senderIp, msg.senderMac, i.now)] + answer + flush;
      NotNamed(ip, i.log, more);
      assert Learn(i, msg).log == i.log + more;
    }
  }

  lemma {:induction false} RunRemembers(i: Interface, ops: seq<Op>, ip: u32)
    requires AInv(i) && AllLegal(i, ops) && Remembers(i, ip)
    ensures AInv(Run(i, ops)) && Remembers(Run(i, ops), ip)
    decreases |ops|
  {
    hide AInv, Step, Legal, Remembers;
    if ops == [] {
    } else {
      StepKeeps(i, ops[0]);
      StepRemembers(i, ops[0], ip);
      RunRemembers(Step(i, ops[0]), ops[1..], ip);
    }
  }

  /** On every run, an address is known exactly for thirty seconds after the latest message that gave it,
      and it is the one given; and whoever is waited for has been asked for within the last five seconds. */
  lemma KnowsExactly(mac: Mac, ip: u32, ops: seq<Op>, hop: u32)
    requires AllLegal(NewInterface(mac, ip), ops)
    ensures var i := Run(NewInterface(mac, ip), ops);
            var latest, asked := Latest(hop, i.log), LastAsk(hop, i.log);
      && (Known(i, hop) <==> latest.Some? && i.now < latest.value.1 + 30000)
      && (Known(i, hop) ==> i.table[hop].mac == latest.value.0)
      && (Waiting(i, hop) != [] ==> asked.Some? && asked.value <= i.now < asked.value + 5000)
  {
    hide Run, AllLegal, Spaced, Addressed, Latest, LastAsk;
    StartOk(mac, ip);
    NothingLearned(mac, ip, hop);
    RunRemembers(NewInterface(mac, ip), ops, hop);
    assert Clocked(Run(NewInterface(mac, ip), ops), hop);
  }

  lemma NothingLearned(mac: Mac, ip: u32, hop: u32)
    ensures Remembers(NewInterface(mac, ip), hop)
  {
  }
}
