/** The network interface object. */
module NetworkInterfaces {
  import opened Words
  import opened Ipv4
  import opened Arp
  import opened ArpLaws
  import opened ArpFrames

  class NetworkInterface {
    const mac: Mac
    const ip: u32
    var framesOut: seq<Frame>
    var arpTable: map<u32, Entry>
    var pendingDatagrams: map<u32, seq<Datagram>>
    var arpRequestTimers: map<u32, nat>
    ghost var log: seq<Event>
    ghost var now: nat
    ghost var taken: nat

    ghost function State(): Interface
      reads this
    {
      Interface(mac, ip, arpTable, pendingDatagrams, arpRequestTimers, log, now)
    }

    /** The queue holds the frames of the log that the owner has not taken yet. */
    ghost predicate Queued()
      reads this
    {
      taken <= |FramesOf(mac, ip, log)| && framesOut == FramesOf(mac, ip, log)[taken..]
    }

    ghost predicate Valid()
      reads this
    {
      AInv(State()) && Queued()
    }

    constructor (mac: Mac, ip: u32)
      ensures Valid() && State() == NewInterface(mac, ip)
    {
      this.mac, this.ip := mac, ip;
      framesOut, arpTable, pendingDatagrams, arpRequestTimers := [], map[], map[], map[];
      log, now, taken := [], 0, 0;
    }

    /** Queue the frame of one more event. */
    method Push(frame: Frame, ghost e: Event)
      requires Queued() && FrameOf(mac, ip, e) == [frame]
      modifies this`framesOut, this`log
      ensures Queued() && log == old(log) + [e]
    {
      FramesConcat(mac, ip, log, [e]);
      assert [e][1..] == [];
      framesOut := framesOut + [frame];
      log := log + [e];
    }

    /** An event without a frame. */
    ghost method Note(e: Event)
      requires Queued() && FrameOf(mac, ip, e) == []
      modifies this`log
      ensures Queued() && log == old(log) + [e]
    {
      FramesConcat(mac, ip, log, [e]);
      assert [e][1..] == [];
      log := log + [e];
    }

    /** The owner takes the first queued frame. */
    method TakeFrame() returns (frame: Frame)
      requires Valid() && framesOut != []
      modifies this`framesOut, this`taken
      ensures Valid() && State() == old(State()) && [frame] + framesOut == old(framesOut)
    {
      frame := framesOut[0];
      framesOut := framesOut[1..];
      taken := taken + 1;
    }

    method SendRequest(target: u32)
      requires Queued()
      modifies this`framesOut, this`log, this`arpRequestTimers
      ensures Queued() && log == old(log) + [Asked(target, now)]
      ensures arpRequestTimers == old(arpRequestTimers)[target := REQUEST_INTERVAL]
    {
      var request := ArpMessage(Request, mac, ip, NO_MAC, target);
      Push(Frame(BROADCAST, mac, Arp(request)), Asked(target, now));
      arpRequestTimers := arpRequestTimers[target := REQUEST_INTERVAL];
    }

    /** Send a datagram, or queue it; fail if it is to be sent and does not print. */
    method SendDatagram(dgram: Datagram, nextHop: u32) returns (ok: bool)
      requires Valid()
      modifies this
      ensures Valid() && State() == Send(old(State()), dgram, nextHop)
      ensures ok == !SendThrows(old(State()), dgram, nextHop)
    {
      hide AInv, FramesOf, Prints;
      SendKeeps(State(), dgram, nextHop);
      Note(Submitted(nextHop, dgram));
      ok := true;
      if nextHop in arpTable && arpTable[nextHop].ttl > 0 {
        var dst := arpTable[nextHop].mac;
        ok := PushDatagram(nextHop, dst, dgram);
      } else {
        var waiting := if nextHop in pendingDatagrams then pendingDatagrams[nextHop] else [];
        pendingDatagrams := pendingDatagrams[nextHop := waiting + [dgram]];
        if nextHop !in arpRequestTimers || arpRequestTimers[nextHop] == 0 {
          SendRequest(nextHop);
        }
      }
      assert log == Send(old(State()), dgram, nextHop).log;
    }

    /** Print a datagram and queue it in a frame; queue nothing if it does not print. */
    method PushDatagram(hop: u32, dst: Mac, dgram: Datagram) returns (ok: bool)
      requires Queued()
      modifies this`framesOut, this`log
      ensures Queued() && ok == Prints(dgram)
      ensures log == if ok then old(log) + [SentIp(hop, dst, dgram, now)] else old(log)
    {
      hide FramesOf, DatagramText;
      var text := Ipv4.Serialize(dgram);
      if text == None {
        return false;
      }
      Push(Frame(dst, mac, Ip(dgram)), SentIp(hop, dst, dgram, now));
      return true;
    }

    method RecvFrame(frame: Frame) returns (outcome: Outcome)
      requires Valid()
      modifies this
      ensures Valid() && (State(), outcome) == Receive(old(State()), frame)
      ensures old(framesOut) <= framesOut
      ensures Replies(framesOut[|old(framesOut)|..]) == ReplyTo(mac, ip, frame)
    {
      hide AInv, Receive, ReplyTo, Replies, FramesOf;
      ghost var i, queue := State(), framesOut;
      ghost var more := ReceiveLog(i, frame);
      outcome := Take(frame);
      QueueGrows(queue, i.log, more);
    }

    /** The queue grows by the frames of what the log grows by. */
    lemma QueueGrows(queue: seq<Frame>, before: seq<Event>, more: seq<Event>)
      requires taken <= |FramesOf(mac, ip, before)| && queue == FramesOf(mac, ip, before)[taken..]
      requires log == before + more && Queued()
      ensures queue <= framesOut && framesOut[|queue|..] == FramesOf(mac, ip, more)
    {
      hide FramesOf;
      FramesConcat(mac, ip, before, more);
    }

    method Take(frame: Frame) returns (outcome: Outcome)
      requires Valid()
      modifies this
      ensures Valid() && (State(), outcome) == Receive(old(State()), frame) && taken == old(taken)
    {
      hide AInv, Queued, Learn, LearnThrows;
      if frame.dst != mac && frame.dst != BROADCAST {
        return Done;
      }
      match frame.payload
      case Ip(d) => return HandedUp(d);
      case Arp(msg) =>
        var ok := LearnFrom(msg);
        return if ok then Done else Threw;
      case Unreadable => return Done;
      case OtherType => return Done;
    }

    /** Take in an ARP message; fail if something that waited for its sender does not print. */
    method LearnFrom(msg: ArpMessage) returns (ok: bool)
      requires Valid()
      modifies this
      ensures Valid() && State() == Learn(old(State()), msg) && ok == !LearnThrows(old(State()), msg)
      ensures taken == old(taken)
    {
      hide AInv, FramesOf, Printing, Flush, Prints;
      LearnKeeps(State(), msg);
      PrintingNone();
      var sender := msg.senderIp;
      arpTable := arpTable[sender := Entry(msg.senderMac, ENTRY_LIFETIME)];
      Note(Learned(sender, msg.senderMac, now));
      if msg.opcode == Request && msg.targetIp == ip {
        var reply := ArpMessage(Reply, mac, ip, msg.senderMac, sender);
        Push(Frame(msg.senderMac, mac, Arp(reply)), Answered(msg.senderMac, sender));
      }
      ok := true;
      if sender in pendingDatagrams {
        ok := FlushTo(sender, msg.senderMac);
        if ok {
          pendingDatagrams := pendingDatagrams - {sender};
          arpRequestTimers := arpRequestTimers - {sender};
        }
      }
      assert log == Learn(old(State()), msg).log;
    }

    lemma PrintingNone()
      ensures Printing([]) == []
    {
    }

    /** Send out what waited for an address, in the order it was submitted, up to the first datagram
        that does not print. */
    method FlushTo(hop: u32, dst: Mac) returns (ok: bool)
      requires Queued() && hop in pendingDatagrams
      modifies this`framesOut, this`log
      ensures Queued() && log == old(log) + Flush(hop, dst, Printing(pendingDatagrams[hop]), now)
      ensures ok == (Printing(pendingDatagrams[hop]) == pendingDatagrams[hop])
    {
      hide FramesOf, Prints, Flush, Printing;
      var waiting := pendingDatagrams[hop];
      ghost var all := old(log) + Flush(hop, dst, Printing(waiting), now);
      for k := 0 to |waiting|
        invariant Queued() && log + Flush(hop, dst, Printing(waiting[k..]), now) == all
        invariant Printing(waiting) == waiting <==> Printing(waiting[k..]) == waiting[k..]
      {
        FlushFront(log, hop, dst, waiting, k);
        var printed := PushDatagram(hop, dst, waiting[k]);
        if !printed {
          return false;
        }
      }
      FlushNone(log, hop, dst, waiting[|waiting|..]);
      return true;
    }

    /** What is left to flush before and after one more datagram. */
    lemma FlushFront(before: seq<Event>, hop: u32, dst: Mac, waiting: seq<Datagram>, k: nat)
      requires k < |waiting|
      ensures var rest, rest', e := waiting[k..], waiting[k + 1..], SentIp(hop, dst, waiting[k], now);
        if Prints(waiting[k]) then
          && before + Flush(hop, dst, Printing(rest), now) == before + [e] + Flush(hop, dst, Printing(rest'), now)
          && (Printing(rest) == rest <==> Printing(rest') == rest')
        else before + Flush(hop, dst, Printing(rest), now) == before && Printing(rest) != rest
    {
      hide Prints;
      var rest, rest' := waiting[k..], waiting[k + 1..];
      assert rest == [waiting[k]] + rest' && rest[1..] == rest';
      if Prints(waiting[k]) {
        assert Printing(rest) == [waiting[k]] + Printing(rest');
        FlushOneMore(before, SentIp(hop, dst, waiting[k], now), hop, dst, waiting[k], Printing(rest'));
      } else {
        assert before + [] == before;
      }
    }

    lemma FlushNone(before: seq<Event>, hop: u32, dst: Mac, none: seq<Datagram>)
      requires none == []
      ensures before + Flush(hop, dst, Printing(none), now) == before && Printing(none) == none
    {
    }

    lemma FlushOneMore(before: seq<Event>, e: Event, hop: u32, dst: Mac, dgram: Datagram, rest: seq<Datagram>)
      requires e == SentIp(hop, dst, dgram, now)
      ensures before + Flush(hop, dst, [dgram] + rest, now) == before + [e] + Flush(hop, dst, rest, now)
    {
      assert ([dgram] + rest)[1..] == rest;
    }

    /** Time passes. The due requests go out in whatever order the map yields them. */
    method Tick(ms: nat) returns (ghost asks: seq<Event>)
      requires Valid()
      modifies this
      ensures Valid() && Ticks(old(State()), ms, asks, State())
    {
      hide AInv, FramesOf;
      ghost var i := State();
      now := now + ms;
      AgeTable(ms);
      AgeTimers(ms);
      assert State() == Aged(i, ms);
      asks := AskDue();
      TickKeeps(i, ms, asks, State());
    }

    method AgeTable(ms: nat)
      modifies this`arpTable
      ensures arpTable == AgedTable(old(State()), ms)
    {
      ghost var i := State();
      var left := arpTable.Keys;
      while left != {}
        invariant left <= arpTable.Keys && left <= i.table.Keys
        invariant forall ip :: ip in left ==> arpTable[ip] == i.table[ip]
        invariant forall ip :: ip !in left ==> (ip in arpTable <==> ip in AgedTable(i, ms))
        invariant forall ip :: ip !in left && ip in arpTable ==> arpTable[ip] == AgedTable(i, ms)[ip]
        decreases left
      {
        var ip :| ip in left;
        left := left - {ip};
        if arpTable[ip].ttl <= ms {
          arpTable := arpTable - {ip};
        } else {
          arpTable := arpTable[ip := arpTable[ip].(ttl := arpTable[ip].ttl - ms)];
        }
      }
    }

    method AgeTimers(ms: nat)
      modifies this`arpRequestTimers
      ensures arpRequestTimers == AgedTimers(old(State()), ms)
    {
      ghost var i := State();
      var left := arpRequestTimers.Keys;
      while left != {}
        invariant left <= arpRequestTimers.Keys == i.timers.Keys
        invariant forall ip :: ip in left ==> arpRequestTimers[ip] == i.timers[ip]
        invariant forall ip :: ip !in left && ip in i.timers ==> arpRequestTimers[ip] == AgedTimers(i, ms)[ip]
        decreases left
      {
        var ip :| ip in left;
        left := left - {ip};
        if arpRequestTimers[ip] <= ms {
          arpRequestTimers := arpRequestTimers[ip := 0];
        } else {
          arpRequestTimers := arpRequestTimers[ip := arpRequestTimers[ip] - ms];
        }
      }
    }

    /** Ask again for every address that is waited for and whose timer has run out. */
    method AskDue() returns (ghost asks: seq<Event>)
      requires Queued()
      modifies this`framesOut, this`log, this`arpRequestTimers
      ensures Queued() && log == old(log) + asks && Requests(asks, Due(old(State())), now)
      ensures arpRequestTimers == Asking(old(State()), Due(old(State())))
    {
      hide FramesOf, Requests, Asking;
      ghost var i := State();
      asks := [];
      var left := pendingDatagrams.Keys;
      NothingAsked(i);
      while left != {}
        invariant Queued() && log == i.log + asks && left <= pendingDatagrams.Keys
        invariant Requests(asks, Due(i) - left, now)
        invariant arpRequestTimers == Asking(i, Due(i) - left)
        decreases left
      {
        var ip :| ip in left;
        ghost var due := Due(i) - left;
        left := left - {ip};
        SameTimer(i, due, ip);
        if pendingDatagrams[ip] == [] {
          assert Due(i) - left == due;
          continue;
        }
        if ip !in arpRequestTimers || arpRequestTimers[ip] == 0 {
          assert ip in Due(i) && Due(i) - left == due + {ip};
          SendRequest(ip);
          OneMoreRequest(asks, due, ip, now);
          OneMoreTimer(i, due, ip);
          asks := asks + [Asked(ip, now)];
        } else {
          assert Due(i) - left == due;
        }
      }
      assert Due(i) - left == Due(i);
    }

    lemma NothingAsked(i: Interface)
      ensures Requests([], Due(i) - i.pending.Keys, i.now) && Asking(i, Due(i) - i.pending.Keys) == i.timers
    {
    }

    /** An address not asked for yet has the timer it had. */
    lemma SameTimer(i: Interface, due: set<u32>, ip: u32)
      ensures ip !in due ==> (ip in Asking(i, due) <==> ip in i.timers)
      ensures ip !in due && ip in i.timers ==> Asking(i, due)[ip] == i.timers[ip]
    {
    }

    lemma OneMoreTimer(i: Interface, due: set<u32>, ip: u32)
      ensures Asking(i, due + {ip}) == Asking(i, due)[ip := REQUEST_INTERVAL]
    {
    }

    lemma OneMoreRequest(asks: seq<Event>, due: set<u32>, ip: u32, at: nat)
      requires Requests(asks, due, at) && ip !in due
      ensures Requests(asks + [Asked(ip, at)], due + {ip}, at)
    {
    }
  }
}
