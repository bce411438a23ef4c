// What a receiver answers and what it leaves in the file system, over every run from its opening on.
module XmodemReplies {
  import opened Basics
  import opened Crc
  import opened Xmodem
  import opened XmodemSender
  import opened XmodemSession

  // ---- Openings and packets out of turn ---------------------------------------------------------

  predicate IsData(p: Packet) {
    p.control == SOH || p.control == STX
  }

  // The new name has the bytes of the packet; what a shorter one does not reach is left as it was.
  lemma NameIsCopied(before: Name, bytes: seq<Byte>, i: nat)
    ensures var name := CopyName(before, bytes);
            && i < |bytes| ==> i < |name| && name[i] == bytes[i]
    ensures var name := CopyName(before, bytes);
            && |bytes| <= i ==> (i < |name| <==> i < |before|) && (i < |name| ==> name[i] == before[i])
  {
  }

  // An idle adapter that is asked to receive or to send a file and cannot open it refuses.
  lemma RefusedOpening(d: Device, p: Packet, opens: bool)
    requires Idle(d) && IsData(p) && p.seqno == 0
    requires !opens || (p.control == STX && CopyName(d.filename, p.buffer) !in d.fs)
    ensures var (next, out) := Handle(d, p, opens);
            Idle(next) && next.fs == d.fs && out == Some(ControlPacket(NAK))
  {
  }

  // What is out of turn: a reply for an adapter that sends nothing, and data for one that sends.
  predicate OutOfTurn(d: Device, p: Packet) {
    if d.isTransmitting then IsData(p) else p.control == ACK || p.control == NAK
  }

  // It is answered with CAN, and ends the sending of a file but not the receiving of one.
  lemma OutOfTurnIsCancelled(d: Device, p: Packet, opens: bool)
    requires OutOfTurn(d, p) && !(d.isReceiving && d.isTransmitting)
    ensures var (next, out) := Handle(d, p, opens);
            && next == d.(isTransmitting := false, store := ControlPacket(CAN)) && out == Some(ControlPacket(CAN))
  {
  }

  // No packet makes an adapter take both roles, and every answer is the packet it has stored. Only
  // data without a session and the unused control codes go unanswered.
  lemma OneRole(d: Device, p: Packet, opens: bool)
    requires !(d.isReceiving && d.isTransmitting)
    ensures var (next, out) := Handle(d, p, opens);
            && !(next.isReceiving && next.isTransmitting)
            && (out.None? <==> p.control == NUL || p.control == CTRLZ || (Idle(d) && IsData(p) && p.seqno != 0))
            && if out.None? then next == d else next.store == out.value
  {
  }

  // A sender that is told of a cancelled transfer removes the file it was sending.
  lemma CancelledSenderLosesFile(d: Device, data: seq<Byte>, q: nat, p: Packet)
    requires Serving(d, data, q) && d.file.name == d.filename && p.control == CAN
    ensures var (next, out) := Handle(d, p, true);
            d.filename in d.fs && next.fs == d.fs - {d.filename} && out == Some(ControlPacket(ACK))
  {
  }

  // ---- What the events bring --------------------------------------------------------------------

  function Concat(parts: seq<seq<Byte>>): seq<Byte> {
    if parts == [] then [] else Concat(parts[..|parts| - 1]) + parts[|parts| - 1]
  }

  // Packet p is the one that continues a file of which so many packets have been taken.
  predicate Continues(p: Packet, taken: nat) {
    IsData(p) && p.seqno == (taken + 1) % SEQUENCE_NUMBERS && Check(p.buffer, p.crc16)
  }

  // What the packets that arrive among the first n events add to the file.
  function Taken(events: seq<Event>, n: nat): seq<seq<Byte>>
    requires n <= |events|
  {
    if n == 0 then []
    else
      var before := Taken(events, n - 1);
      if events[n - 1].ToReceiver? && Continues(events[n - 1].arrived, |before|) then
        before + [events[n - 1].arrived.buffer]
      else before
  }

  function Arrivals(events: seq<Event>, n: nat): nat
    requires n <= |events|
  {
    if n == 0 then 0 else Arrivals(events, n - 1) + if events[n - 1].ToReceiver? then 1 else 0
  }

  predicate EndsWith(events: seq<Event>, n: nat, c: Control)
    requires n <= |events|
  {
    n > 0 && events[n - 1].ToReceiver? && events[n - 1].arrived.control == c
  }

  predicate Ended(events: seq<Event>, n: nat)
    requires n <= |events|
  {
    EndsWith(events, n, EOT) || EndsWith(events, n, CAN)
  }

  function Answer(s: System, e: Event): multiset<Packet> {
    if e.ToReceiver? then InFlight(Handle(s.receiver, e.arrived, true).1) else multiset{}
  }

  // All that the receiver has sent: the answer to its opening, and one to each packet since.
  function Sent(receiver: Device, soh: Packet, states: seq<System>, events: seq<Event>, n: nat): multiset<Packet>
    requires n <= |events| < |states|
  {
    if n == 0 then InFlight(Handle(receiver, soh, true).1)
    else Sent(receiver, soh, states, events, n - 1) + Answer(states[n - 1], events[n - 1])
  }

  // ---- One packet -------------------------------------------------------------------------------

  predicate FromSender(p: Packet) {
    p.control == SOH || p.control == EOT || p.control == CAN
  }

  predicate AllFromSender(toReceiver: multiset<Packet>) {
    forall p :: p in toReceiver ==> FromSender(p)
  }

  // The receiver writes to name; in a file system that was fs when it was opened, it has added these.
  predicate Adding(d: Device, name: Name, fs: Files, taken: seq<seq<Byte>>) {
    && d.isReceiving && !d.isTransmitting && d.packetno == (|taken| + 1) % SEQUENCE_NUMBERS
    && d.file == Writer(name) && d.filename == name && d.fs == fs[name := Concat(taken)]
  }

  lemma OpenedForWriting(d: Device, soh: Packet)
    requires Idle(d) && soh.control == SOH && soh.seqno == 0
    ensures var (next, out) := Handle(d, soh, true);
            Adding(next, CopyName(d.filename, soh.buffer), d.fs, []) && out == Some(ControlPacket(ACK))
  {
  }

  lemma ConcatGrows(taken: seq<seq<Byte>>, more: seq<Byte>)
    ensures Concat(taken + [more]) == Concat(taken) + more
  {
    assert (taken + [more])[..|taken|] == taken;
  }

  lemma DataDecided(d: Device, p: Packet)
    requires d.isReceiving && IsData(p)
    ensures Handle(d, p, true) ==
            if p.seqno == d.packetno && Check(p.buffer, p.crc16) then
              Reply(d.(fs := Write(d.fs, d.file, p.buffer), packetno := Successor(d.packetno)), ACK)
            else Reply(d, NAK)
  {
  }

  lemma AddedOneMore(d: Device, name: Name, fs: Files, taken: seq<seq<Byte>>, more: seq<Byte>)
    requires Adding(d, name, fs, taken)
    ensures Adding(d.(fs := Write(d.fs, d.file, more), packetno := Successor(d.packetno), store := ControlPacket(ACK)),
                   name, fs, taken + [more])
  {
    ConcatGrows(taken, more);
  }

  lemma DataHandled(d: Device, name: Name, fs: Files, taken: seq<seq<Byte>>, p: Packet)
    requires Adding(d, name, fs, taken) && IsData(p)
    ensures var (next, out) := Handle(d, p, true);
            if Continues(p, |taken|) then Adding(next, name, fs, taken + [p.buffer]) && out == Some(ControlPacket(ACK))
            else Adding(next, name, fs, taken) && out == Some(ControlPacket(NAK))
  {
    DataDecided(d, p);
    AddedOneMore(d, name, fs, taken, p.buffer);
  }

  lemma EndHandled(d: Device, name: Name, fs: Files, taken: seq<seq<Byte>>, p: Packet)
    requires Adding(d, name, fs, taken) && (p.control == EOT || p.control == CAN)
    ensures var (next, out) := Handle(d, p, true);
            && Idle(next) && out == Some(ControlPacket(ACK))
            && next.fs == if p.control == EOT then fs[name := Concat(taken)] else fs - {name}
  {
  }

  // ---- Every run --------------------------------------------------------------------------------

  // The receiver's file system after n events: other files are as they were, and the received one has
  // what was taken, or is gone after a CAN.
  predicate FilesAfter(d: Device, name: Name, fs: Files, events: seq<Event>, n: nat)
    requires n <= |events|
  {
    d.fs == if EndsWith(events, n, CAN) then fs - {name} else fs[name := Concat(Taken(events, n))]
  }

  predicate ReceiverAfter(d: Device, name: Name, fs: Files, events: seq<Event>, n: nat)
    requires n <= |events|
  {
    FilesAfter(d, name, fs, events, n) && if Ended(events, n) then Idle(d) else Adding(d, name, fs, Taken(events, n))
  }

  // One acknowledgement for the opening, for each packet taken and for the end; every other packet
  // that arrives is refused.
  predicate RepliesAfter(sent: multiset<Packet>, events: seq<Event>, n: nat)
    requires n <= |events|
  {
    && sent[ControlPacket(ACK)] == 1 + |Taken(events, n)| + (if Ended(events, n) then 1 else 0)
    && sent[ControlPacket(ACK)] + sent[ControlPacket(NAK)] == |sent| == 1 + Arrivals(events, n)
  }

  predicate ChannelsCarry(s: System, fs: Files) {
    OnlyReplies(s.toSender) && AllFromSender(s.toReceiver) && s.sender.fs == fs
  }

  lemma OneMore(sent: multiset<Packet>, c: Control)
    ensures var more := sent + multiset{ControlPacket(c)};
            && |more| == |sent| + 1
            && more[ControlPacket(ACK)] == sent[ControlPacket(ACK)] + (if c == ACK then 1 else 0)
            && more[ControlPacket(NAK)] == sent[ControlPacket(NAK)] + (if c == NAK then 1 else 0)
  {
    assert ControlPacket(c).control == c;
  }

  lemma ReceiverStep(s: System, name: Name, fs: Files, events: seq<Event>, n: nat, sent: multiset<Packet>)
    requires n < |events| && Enabled(s, events[n]) && AllFromSender(s.toReceiver)
    requires ReceiverAfter(s.receiver, name, fs, events, n) && RepliesAfter(sent, events, n)
    requires events[n].ToReceiver?
    ensures var (next, out) := Handle(s.receiver, events[n].arrived, true);
            && ReceiverAfter(next, name, fs, events, n + 1) && RepliesAfter(sent + InFlight(out), events, n + 1)
            && out.Some? && IsReply(out.value)
  {
    var p := events[n].arrived;
    assert FromSender(events[n].p);
    if IsData(p) {
      DataHandled(s.receiver, name, fs, Taken(events, n), p);
    } else {
      EndHandled(s.receiver, name, fs, Taken(events, n), p);
    }
    OneMore(sent, Handle(s.receiver, p, true).1.value.control);
  }

  lemma SenderStep(d: Device, p: Packet)
    requires IsReply(p)
    ensures var (next, out) := Handle(d, p, true); next.fs == d.fs && out.Some? && FromSender(out.value)
  {
  }

  lemma ChannelsStep(s: System, e: Event, fs: Files)
    requires ChannelsCarry(s, fs) && Enabled(s, e)
    requires e.ToReceiver? ==> var out := Handle(s.receiver, e.arrived, true).1; out.Some? && IsReply(out.value)
    ensures ChannelsCarry(Next(s, e), fs)
  {
    if e.ToSender? {
      SenderStep(s.sender, e.p);
    }
  }

  // All of the above, for a receiver whose file system was fs and a sender whose is sent from.
  predicate InOrder(s: System, sent: multiset<Packet>, name: Name, fs: Files, from: Files, events: seq<Event>, n: nat)
    requires n <= |events|
  {
    ReceiverAfter(s.receiver, name, fs, events, n) && RepliesAfter(sent, events, n) && ChannelsCarry(s, from)
  }

  lemma StepInOrder(s: System, sent: multiset<Packet>, name: Name, fs: Files, from: Files, events: seq<Event>, n: nat,
                    t: System, more: multiset<Packet>)
    requires n < |events| && InOrder(s, sent, name, fs, from, events, n) && Enabled(s, events[n])
    requires t == Next(s, events[n]) && more == sent + Answer(s, events[n])
    ensures InOrder(t, more, name, fs, from, events, n + 1)
  {
    if events[n].ToReceiver? {
      ReceiverStep(s, name, fs, events, n, sent);
    } else {
      QuietStep(s, sent, name, fs, events, n);
    }
    ChannelsStep(s, events[n], from);
  }

  lemma QuietStep(s: System, sent: multiset<Packet>, name: Name, fs: Files, events: seq<Event>, n: nat)
    requires n < |events| && Enabled(s, events[n]) && !events[n].ToReceiver?
    requires ReceiverAfter(s.receiver, name, fs, events, n) && RepliesAfter(sent, events, n)
    ensures ReceiverAfter(Next(s, events[n]).receiver, name, fs, events, n + 1)
    ensures RepliesAfter(sent + multiset{}, events, n + 1)
  {
    assert sent + multiset{} == sent;
  }

  lemma BeginsInOrder(receiver: Device, soh: Packet, s: System, from: Files, events: seq<Event>)
    requires Idle(receiver) && soh.control == SOH && soh.seqno == 0
    requires s.receiver == Handle(receiver, soh, true).0 && ChannelsCarry(s, from)
    ensures InOrder(s, InFlight(Handle(receiver, soh, true).1), CopyName(receiver.filename, soh.buffer), receiver.fs,
                    from, events, 0)
  {
    OpenedForWriting(receiver, soh);
    OneMore(multiset{}, ACK);
    assert multiset{} + multiset{ControlPacket(ACK)} == multiset{ControlPacket(ACK)};
  }

  lemma StartCarries(sender: Device, stx: Packet, receiver: Device, soh: Packet, data: seq<Byte>)
    requires CanStart(sender, stx, receiver, soh, data)
    ensures ChannelsCarry(Start(sender, stx, receiver, soh), sender.fs)
  {
    StartSend(sender, stx, data);
  }

  ghost predicate IsRun(c: Channel, sender: Device, stx: Packet, receiver: Device, soh: Packet, data: seq<Byte>,
                        states: seq<System>, events: seq<Event>) {
    && CanStart(sender, stx, receiver, soh, data)
    && Run(c, states, events) && states[0] == Start(sender, stx, receiver, soh)
  }

  // The receiver's state and replies after n events of a run.
  ghost predicate Accounted(sender: Device, receiver: Device, soh: Packet, states: seq<System>, events: seq<Event>,
                            n: nat)
    requires n <= |events| < |states|
  {
    InOrder(states[n], Sent(receiver, soh, states, events, n), CopyName(receiver.filename, soh.buffer), receiver.fs,
            sender.fs, events, n)
  }

  lemma StartsAccounted(c: Channel, sender: Device, stx: Packet, receiver: Device, soh: Packet, data: seq<Byte>,
                        states: seq<System>, events: seq<Event>)
    requires IsRun(c, sender, stx, receiver, soh, data, states, events)
    ensures Accounted(sender, receiver, soh, states, events, 0)
  {
    StartCarries(sender, stx, receiver, soh, data);
    BeginsInOrder(receiver, soh, states[0], sender.fs, events);
  }

  lemma StaysAccounted(c: Channel, sender: Device, receiver: Device, soh: Packet, states: seq<System>,
                       events: seq<Event>, n: nat)
    requires Run(c, states, events) && n < |events| && Accounted(sender, receiver, soh, states, events, n)
    ensures Accounted(sender, receiver, soh, states, events, n + 1)
  {
    assert Enabled(states[n], events[n]) && states[n + 1] == Next(states[n], events[n]);
    StepInOrder(states[n], Sent(receiver, soh, states, events, n), CopyName(receiver.filename, soh.buffer), receiver.fs,
                sender.fs, events, n, states[n + 1], Sent(receiver, soh, states, events, n + 1));
  }

  lemma {:induction false} RunAccounted(c: Channel, sender: Device, stx: Packet, receiver: Device, soh: Packet,
                                        data: seq<Byte>, states: seq<System>, events: seq<Event>, n: nat)
    requires IsRun(c, sender, stx, receiver, soh, data, states, events) && n <= |events|
    ensures Accounted(sender, receiver, soh, states, events, n)
  {
    if n == 0 {
      StartsAccounted(c, sender, stx, receiver, soh, data, states, events);
    } else {
      RunAccounted(c, sender, stx, receiver, soh, data, states, events, n - 1);
      StaysAccounted(c, sender, receiver, soh, states, events, n - 1);
    }
  }

  // For files of any size and over every channel, up to and including the step that ends the run.
  lemma ReceiverAnswersExactly(c: Channel, sender: Device, stx: Packet, receiver: Device, soh: Packet,
                               data: seq<Byte>, states: seq<System>, events: seq<Event>, n: nat)
    requires IsRun(c, sender, stx, receiver, soh, data, states, events) && n <= |events|
    ensures RepliesAfter(Sent(receiver, soh, states, events, n), events, n)
    ensures ReceiverAfter(states[n].receiver, CopyName(receiver.filename, soh.buffer), receiver.fs, events, n)
    ensures states[n].sender.fs == sender.fs
  {
    RunAccounted(c, sender, stx, receiver, soh, data, states, events, n);
  }

  // ---- Numberable files -------------------------------------------------------------------------

  lemma DataTakesChunk(s: System, e: Event, data: seq<Byte>, name: Name, fs: Files, taken: seq<seq<Byte>>, m: nat)
    requires InvAt(s, data, m) && m == |taken| + 1 && Enabled(s, e) && e.ToReceiver? && e.p.control == SOH
    requires Adding(s.receiver, name, fs, taken)
    ensures InvAt(Next(s, e), data, if Continues(e.arrived, |taken|) then m + 1 else m)
  {
    DataKeepsInv(s, e, data, m);
    DataHandled(s.receiver, name, fs, taken, e.arrived);
    assert ControlPacket(ACK).control != ControlPacket(NAK).control;
  }

  lemma LastArrival(s: System, e: Event, data: seq<Byte>, m: nat)
    requires InvAt(s, data, m) && Enabled(s, e) && e.ToReceiver? && e.p.control != SOH
    ensures e.arrived.control == CAN || (e.arrived.control == EOT && m == ChunkCount(data) + 1)
  {
    assert SoundToReceiver(e.p, data, Bound(s.sender, m), m);
  }

  lemma StepTakesChunk(s: System, e: Event, data: seq<Byte>, name: Name, fs: Files, taken: seq<seq<Byte>>, m: nat,
                       k: nat, t: System)
    requires Enabled(s, e) && Allows(SingleAcks, e) && m == |taken| + 1 && InvAt(s, data, m)
    requires Adding(s.receiver, name, fs, taken)
    requires e.ToReceiver? ==> e.arrived.control != EOT && e.arrived.control != CAN
    requires k == if e.ToReceiver? && Continues(e.arrived, |taken|) then m + 1 else m
    requires t == Next(s, e)
    ensures InvAt(t, data, k)
  {
    if e.ToReceiver? {
      if e.p.control != SOH {
        LastArrival(s, e, data, m);
      } else {
        DataTakesChunk(s, e, data, name, fs, taken, m);
      }
    } else if e.ToSender? {
      ReplyKeepsInv(s, e, data, m);
    } else {
      OtherEvents(s, e, data, m);
    }
  }

  lemma OpenBefore(c: Channel, sender: Device, stx: Packet, receiver: Device, soh: Packet, data: seq<Byte>,
                   states: seq<System>, events: seq<Event>, n: nat)
    requires IsRun(c, sender, stx, receiver, soh, data, states, events) && n < |events|
    ensures Allows(c, events[n]) && Enabled(states[n], events[n]) && states[n + 1] == Next(states[n], events[n])
    ensures !Ended(events, n)
    ensures Adding(states[n].receiver, CopyName(receiver.filename, soh.buffer), receiver.fs, Taken(events, n))
  {
    ReceiverAnswersExactly(c, sender, stx, receiver, soh, data, states, events, n);
  }

  lemma TakenBy(events: seq<Event>, n: nat, taken: seq<seq<Byte>>) returns (k: nat)
    requires n < |events| && taken == Taken(events, n) && !Ended(events, n + 1)
    ensures k == |Taken(events, n + 1)| + 1
    ensures k == if events[n].ToReceiver? && Continues(events[n].arrived, |taken|) then |taken| + 2 else |taken| + 1
    ensures events[n].ToReceiver? ==> events[n].arrived.control != EOT && events[n].arrived.control != CAN
  {
    k := |Taken(events, n + 1)| + 1;
  }

  // The chunk that the receiver waits for is the one after those it has taken.
  ghost predicate InStep(s: System, data: seq<Byte>, events: seq<Event>, n: nat)
    requires n <= |events|
  {
    InvAt(s, data, |Taken(events, n)| + 1)
  }

  lemma StartsInStep(c: Channel, sender: Device, stx: Packet, receiver: Device, soh: Packet, data: seq<Byte>,
                     states: seq<System>, events: seq<Event>)
    requires IsRun(c, sender, stx, receiver, soh, data, states, events) && Numberable(data)
    ensures InStep(states[0], data, events, 0)
  {
    StartInv(sender, stx, receiver, soh, data);
  }

  lemma StaysInStep(c: Channel, sender: Device, stx: Packet, receiver: Device, soh: Packet, data: seq<Byte>,
                    states: seq<System>, events: seq<Event>, n: nat)
    requires IsRun(c, sender, stx, receiver, soh, data, states, events) && c != Copying
    requires n < |events| && !Ended(events, n + 1) && InStep(states[n], data, events, n)
    ensures InStep(states[n + 1], data, events, n + 1)
  {
    var taken := Taken(events, n);
    OpenBefore(c, sender, stx, receiver, soh, data, states, events, n);
    var k := TakenBy(events, n, taken);
    StepTakesChunk(states[n], events[n], data, CopyName(receiver.filename, soh.buffer), receiver.fs, taken,
                   |taken| + 1, k, states[n + 1]);
  }

  lemma {:induction false} RunInStep(c: Channel, sender: Device, stx: Packet, receiver: Device, soh: Packet,
                                     data: seq<Byte>, states: seq<System>, events: seq<Event>, n: nat)
    requires IsRun(c, sender, stx, receiver, soh, data, states, events) && Numberable(data) && c != Copying
    requires n <= |events| && !Ended(events, n)
    ensures InStep(states[n], data, events, n)
  {
    if n == 0 {
      StartsInStep(c, sender, stx, receiver, soh, data, states, events);
    } else {
      OpenBefore(c, sender, stx, receiver, soh, data, states, events, n - 1);
      RunInStep(c, sender, stx, receiver, soh, data, states, events, n - 1);
      StaysInStep(c, sender, stx, receiver, soh, data, states, events, n - 1);
    }
  }

  lemma WholePrefix(data: seq<Byte>)
    ensures Prefix(data, ChunkCount(data)) == data
  {
  }

  lemma TakenIsPrefix(s: System, data: seq<Byte>, m: nat, name: Name, fs: Files, taken: seq<seq<Byte>>)
    requires InvAt(s, data, m) && Adding(s.receiver, name, fs, taken)
    ensures m >= 1 && Concat(taken) == Prefix(data, m - 1)
  {
  }

  lemma EotAfterChunks(s: System, e: Event, data: seq<Byte>, name: Name, fs: Files, taken: seq<seq<Byte>>, m: nat)
    requires m == |taken| + 1 && InvAt(s, data, m) && Adding(s.receiver, name, fs, taken)
    requires Enabled(s, e) && e.ToReceiver? && e.arrived.control == EOT
    ensures |taken| == ChunkCount(data) && Concat(taken) == data
  {
    LastArrival(s, e, data, m);
    TakenIsPrefix(s, data, m, name, fs, taken);
    WholePrefix(data);
  }

  lemma AfterEot(d: Device, sent: multiset<Packet>, name: Name, fs: Files, events: seq<Event>, n: nat,
                 taken: seq<seq<Byte>>)
    requires n <= |events| && EndsWith(events, n, EOT) && taken == Taken(events, n - 1)
    requires FilesAfter(d, name, fs, events, n) && RepliesAfter(sent, events, n)
    ensures sent[ControlPacket(ACK)] == |taken| + 2 && d.fs == fs[name := Concat(taken)]
  {
    assert !Continues(events[n - 1].arrived, |taken|);
  }

  lemma AllTakenAtEot(c: Channel, sender: Device, stx: Packet, receiver: Device, soh: Packet, data: seq<Byte>,
                      states: seq<System>, events: seq<Event>, n: nat)
    requires IsRun(c, sender, stx, receiver, soh, data, states, events) && Numberable(data) && c != Copying
    requires n < |events| && EndsWith(events, n + 1, EOT)
    ensures |Taken(events, n)| == ChunkCount(data) && Concat(Taken(events, n)) == data
  {
    var taken := Taken(events, n);
    OpenBefore(c, sender, stx, receiver, soh, data, states, events, n);
    RunInStep(c, sender, stx, receiver, soh, data, states, events, n);
    EotAfterChunks(states[n], events[n], data, CopyName(receiver.filename, soh.buffer), receiver.fs, taken,
                   |taken| + 1);
  }

  lemma EotAnswered(c: Channel, sender: Device, stx: Packet, receiver: Device, soh: Packet, data: seq<Byte>,
                    states: seq<System>, events: seq<Event>, n: nat)
    requires IsRun(c, sender, stx, receiver, soh, data, states, events)
    requires n < |events| && EndsWith(events, n + 1, EOT)
    ensures var taken := Taken(events, n);
            && Sent(receiver, soh, states, events, n + 1)[ControlPacket(ACK)] == |taken| + 2
            && states[n + 1].receiver.fs == receiver.fs[CopyName(receiver.filename, soh.buffer) := Concat(taken)]
  {
    ReceiverAnswersExactly(c, sender, stx, receiver, soh, data, states, events, n + 1);
    AfterEot(states[n + 1].receiver, Sent(receiver, soh, states, events, n + 1),
             CopyName(receiver.filename, soh.buffer), receiver.fs, events, n + 1, Taken(events, n));
  }

  // A receiver that has handled an EOT has acknowledged its opening, every chunk once, and the end.
  lemma WholeFileAcknowledged(c: Channel, sender: Device, stx: Packet, receiver: Device, soh: Packet,
                              data: seq<Byte>, states: seq<System>, events: seq<Event>, n: nat)
    requires IsRun(c, sender, stx, receiver, soh, data, states, events) && Numberable(data) && c != Copying
    requires n <= |events| && EndsWith(events, n, EOT)
    ensures Sent(receiver, soh, states, events, n)[ControlPacket(ACK)] == ChunkCount(data) + 2
    ensures states[n].receiver.fs == receiver.fs[CopyName(receiver.filename, soh.buffer) := data]
  {
    AllTakenAtEot(c, sender, stx, receiver, soh, data, states, events, n - 1);
    EotAnswered(c, sender, stx, receiver, soh, data, states, events, n - 1);
  }
}
