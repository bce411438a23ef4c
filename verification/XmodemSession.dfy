// Whole transfers: a sending and a receiving adapter joined by unreliable channels.
module XmodemSession {
  import opened Basics
  import opened Crc
  import opened Paths
  import opened Xmodem
  import opened XmodemSender

  // ---- The sender as a source of chunks --------------------------------------------------

  function Prefix(data: seq<Byte>, chunks: nat): seq<Byte> {
    if chunks * CHUNK <= |data| then data[..chunks * CHUNK] else data
  }

  function DataPacket(data: seq<Byte>, k: nat): Packet
    requires 1 <= k <= ChunkCount(data) && k < 0x1_0000
  {
    PacketAt(data, Offset(k - 1), k)
  }

  // The adapter is in the middle of sending a numberable file and has just sent chunk d.packetno.
  ghost predicate Sending(d: Device, data: seq<Byte>) {
    && Numberable(data) && 1 <= d.packetno <= ChunkCount(data)
    && Serving(d, data, Offset(d.packetno - 1)) && d.isEOT == (d.packetno == ChunkCount(data))
  }

  lemma ShortExactlyLast(data: seq<Byte>, k: nat)
    requires 1 <= k <= ChunkCount(data)
    ensures Offset(k - 1) <= |data| && (Short(data, Offset(k - 1)) <==> k == ChunkCount(data))
  {
  }

  lemma ServesChunk(d: Device, data: seq<Byte>, k: nat)
    requires Numberable(data) && 1 <= k <= ChunkCount(data) && d.packetno == k
    requires Serving(d, data, Offset(k - 1)) && d.isEOT == Short(data, Offset(k - 1))
    ensures Sending(d, data)
  {
    ShortExactlyLast(data, k);
  }

  lemma SendingStarts(d: Device, stx: Packet, data: seq<Byte>)
    requires CanServe(d, stx, data) && Numberable(data)
    ensures var (next, out) := Handle(d, stx, true);
            && Sending(next, data) && next.packetno == 1 && next.retrans == d.retrans
            && out == Some(DataPacket(data, 1))
  {
    StartSend(d, stx, data);
    ServesChunk(Handle(d, stx, true).0, data, 1);
  }

  // A reply moves the sender on, or makes it repeat itself with one try fewer, or ends its session.
  ghost predicate Answers(d: Device, data: seq<Byte>, p: Packet, next: Device, out: Packet)
    requires Numberable(data)
  {
    if Idle(d) then Idle(next) && out == ControlPacket(CAN)
    else if p.control == ACK && d.packetno < ChunkCount(data) then
      && Sending(next, data) && next.packetno == d.packetno + 1 <= ChunkCount(data) && next.retrans == MAXRETRANS
      && out == DataPacket(data, d.packetno + 1)
    else if p.control == ACK then Idle(next) && out == ControlPacket(EOT)
    else
      || (Idle(next) && out == ControlPacket(CAN))
      || (Sending(next, data) && 1 <= next.packetno == d.packetno <= ChunkCount(data) && next.retrans == d.retrans - 1
          && out == DataPacket(data, d.packetno))
  }

  lemma NextChunk(data: seq<Byte>, k: nat, q: nat, r: nat)
    requires Numberable(data) && 1 <= k < ChunkCount(data) && q == Offset(k - 1) && r == Offset(k)
    ensures r == q + CHUNK <= |data| && Successor(k) == k + 1 && PacketAt(data, r, k + 1) == DataPacket(data, k + 1)
  {
  }

  lemma LastAcknowledged(d: Device, data: seq<Byte>, p: Packet)
    requires Sending(d, data) && p.control == ACK && d.packetno == ChunkCount(data)
    ensures var (next, out) := Handle(d, p, true); out.Some? && Answers(d, data, p, next, out.value)
  {
    AckStep(d, data, Offset(d.packetno - 1), p, true);
  }

  lemma ChunkAcknowledged(d: Device, data: seq<Byte>, p: Packet, k: nat, r: nat)
    requires Sending(d, data) && p.control == ACK && d.packetno == k < ChunkCount(data) && r == Offset(k)
    ensures var (next, out) := Handle(d, p, true);
            && Sending(next, data) && next.packetno == k + 1 && next.retrans == MAXRETRANS
            && out == Some(DataPacket(data, k + 1))
  {
    var q := Offset(k - 1);
    NextChunk(data, k, q, r);
    AckStep(d, data, q, p, true);
    ServesChunk(Handle(d, p, true).0, data, k + 1);
  }

  lemma ChunkRefused(d: Device, data: seq<Byte>, p: Packet, k: nat, q: nat)
    requires Sending(d, data) && p.control == NAK && d.packetno == k && q == Offset(k - 1)
    ensures var (next, out) := Handle(d, p, true);
            if d.retrans == 1 then Idle(next) && out == Some(ControlPacket(CAN))
            else
              && Sending(next, data) && next.packetno == k && next.retrans == d.retrans - 1
              && out == Some(DataPacket(data, k))
  {
    ShortExactlyLast(data, k);
    assert Resumed(data, q, k) == q;
    NakStep(d, data, q, p, true);
    if d.retrans > 1 {
      ServesChunk(Handle(d, p, true).0, data, k);
    }
  }

  lemma SenderAnswers(d: Device, data: seq<Byte>, p: Packet)
    requires (Sending(d, data) || Idle(d)) && Numberable(data)
    requires p.control == ACK || p.control == NAK
    ensures var (next, out) := Handle(d, p, true); out.Some? && Answers(d, data, p, next, out.value)
  {
    var k := d.packetno;
    if !Idle(d) {
      if p.control == NAK {
        ChunkRefused(d, data, p, k, Offset(k - 1));
      } else if k < ChunkCount(data) {
        ChunkAcknowledged(d, data, p, k, Offset(k));
      } else {
        LastAcknowledged(d, data, p);
      }
    }
  }

  // ---- Two adapters and their channels ---------------------------------------------------

  // Messages in flight are multisets: delivery order is arbitrary.
  datatype System = System(sender: Device, receiver: Device, toReceiver: multiset<Packet>, toSender: multiset<Packet>)

  datatype Event =
    | ToReceiver(p: Packet, arrived: Packet)
    | ToSender(p: Packet)
    | LoseToReceiver(p: Packet)
    | LoseToSender(p: Packet)
    | DuplicateToReceiver(p: Packet)
    | DuplicateToSender(p: Packet)

  // What a channel may do beside losing, reordering and damaging: copy anything, copy anything
  // but acknowledgements, or copy nothing. A clean one does none of it.
  datatype Channel = Copying | SingleAcks | NoCopies | Clean

  predicate Allows(c: Channel, e: Event) {
    match c
    case Copying => true
    case SingleAcks => !(e.DuplicateToSender? && e.p.control == ACK)
    case NoCopies => !e.DuplicateToSender? && !e.DuplicateToReceiver?
    case Clean => (e.ToReceiver? && e.arrived == e.p) || e.ToSender?
  }

  // A packet arrives as sent, or, if it carries data, damaged in a way check detects:
  // sequence number, CRC and bytes may all be wrong.
  predicate Arrives(p: Packet, arrived: Packet) {
    || arrived == p
    || (p.control == SOH && (arrived.control == SOH || arrived.control == STX) && !Check(arrived.buffer, arrived.crc16))
  }

  function InFlight(out: Option<Packet>): multiset<Packet> {
    if out.Some? then multiset{out.value} else multiset{}
  }

  // The run stops once the receiver has left its receiving state.
  predicate Enabled(s: System, e: Event) {
    && s.receiver.isReceiving
    && match e
       case ToReceiver(p, arrived) => p in s.toReceiver && Arrives(p, arrived)
       case ToSender(p) => p in s.toSender
       case LoseToReceiver(p) => p in s.toReceiver
       case LoseToSender(p) => p in s.toSender
       case DuplicateToReceiver(p) => p in s.toReceiver
       case DuplicateToSender(p) => p in s.toSender
  }

  function Next(s: System, e: Event): System {
    match e
    case ToReceiver(p, arrived) =>
      var (receiver, out) := Handle(s.receiver, arrived, true);
      s.(receiver := receiver, toReceiver := s.toReceiver - multiset{p}, toSender := s.toSender + InFlight(out))
    case ToSender(p) =>
      var (sender, out) := Handle(s.sender, p, true);
      s.(sender := sender, toSender := s.toSender - multiset{p}, toReceiver := s.toReceiver + InFlight(out))
    case LoseToReceiver(p) => s.(toReceiver := s.toReceiver - multiset{p})
    case LoseToSender(p) => s.(toSender := s.toSender - multiset{p})
    case DuplicateToReceiver(p) => s.(toReceiver := s.toReceiver + multiset{p})
    case DuplicateToSender(p) => s.(toSender := s.toSender + multiset{p})
  }

  // The peer asks one idle adapter to send (STX) and has just opened the other (SOH).
  function Start(sender: Device, stx: Packet, receiver: Device, soh: Packet): System {
    var (s, first) := Handle(sender, stx, true);
    var (r, _) := Handle(receiver, soh, true);
    System(s, r, InFlight(first), multiset{})
  }

  ghost predicate CanStart(sender: Device, stx: Packet, receiver: Device, soh: Packet, data: seq<Byte>) {
    CanServe(sender, stx, data) && Idle(receiver) && soh.control == SOH && soh.seqno == 0
  }

  // The receiver has stored the first m - 1 chunks under the name it was opened with.
  ghost predicate Stored(d: Device, data: seq<Byte>, m: nat)
    requires m >= 1
  {
    && d.isReceiving && !d.isTransmitting
    && d.packetno == m % 0x1_0000
    && d.file == Writer(d.filename) && d.filename in d.fs && d.fs[d.filename] == Prefix(data, m - 1)
  }

  predicate SoundToReceiver(p: Packet, data: seq<Byte>, bound: nat, m: nat)
    requires Numberable(data)
  {
    || (1 <= p.seqno <= bound && p.seqno <= ChunkCount(data) && p == DataPacket(data, p.seqno))
    || (p.control == EOT && m == ChunkCount(data) + 1)
    || p.control == CAN
  }

  predicate IsReply(p: Packet) {
    p == ControlPacket(ACK) || p == ControlPacket(NAK)
  }

  predicate OnlyReplies(toSender: multiset<Packet>) {
    forall p :: p in toSender ==> IsReply(p)
  }

  predicate AllSound(toReceiver: multiset<Packet>, data: seq<Byte>, bound: nat, m: nat)
    requires Numberable(data)
  {
    forall p :: p in toReceiver ==> SoundToReceiver(p, data, bound, m)
  }

  function Acks(toSender: multiset<Packet>): nat {
    toSender[ControlPacket(ACK)]
  }

  // m is the chunk the receiver waits for. While the sender is sending, it is at that chunk,
  // or one behind with at most one acknowledgement on its way.
  ghost predicate SenderAt(d: Device, data: seq<Byte>, acks: nat, m: nat) {
    Idle(d) || (Sending(d, data) && d.packetno + acks <= m <= d.packetno + 1)
  }

  function Bound(d: Device, m: nat): nat {
    if d.isTransmitting then d.packetno else m
  }

  ghost predicate InvAt(s: System, data: seq<Byte>, m: nat) {
    && Numberable(data) && 1 <= m <= ChunkCount(data) + 1
    && Stored(s.receiver, data, m)
    && OnlyReplies(s.toSender)
    && SenderAt(s.sender, data, Acks(s.toSender), m)
    && AllSound(s.toReceiver, data, Bound(s.sender, m), m)
  }

  ghost predicate Inv(s: System, data: seq<Byte>) {
    exists m: nat :: InvAt(s, data, m)
  }

  lemma StartInv(sender: Device, stx: Packet, receiver: Device, soh: Packet, data: seq<Byte>)
    requires CanStart(sender, stx, receiver, soh, data) && Numberable(data)
    ensures var s := Start(sender, stx, receiver, soh);
            InvAt(s, data, 1) && s.toReceiver == multiset{DataPacket(data, 1)} && s.toSender == multiset{}
  {
    SendingStarts(sender, stx, data);
    assert Prefix(data, 0) == [];
  }

  lemma PrefixGrows(data: seq<Byte>, k: nat)
    requires 1 <= k <= ChunkCount(data)
    ensures Prefix(data, k - 1) + data[Offset(k - 1)..Upto(data, Offset(k - 1))] == Prefix(data, k)
  {
  }

  // The receiver accepts a data packet only if it is the chunk it waits for.
  lemma ReceiverTakesOnlyNext(d: Device, data: seq<Byte>, m: nat, bound: nat, p: Packet, arrived: Packet)
    requires Numberable(data) && 1 <= m <= ChunkCount(data) + 1 && Stored(d, data, m)
    requires p.control == SOH && SoundToReceiver(p, data, bound, m) && Arrives(p, arrived)
    ensures var (next, out) := Handle(d, arrived, true);
            || (Stored(next, data, m) && out == Some(ControlPacket(NAK)))
            || (p.seqno == m && m <= ChunkCount(data) && Stored(next, data, m + 1) && out == Some(ControlPacket(ACK)))
  {
    if arrived.seqno == d.packetno && Check(arrived.buffer, arrived.crc16) {
      assert arrived == p == DataPacket(data, m);
      PrefixGrows(data, m);
    }
  }

  // Raising a bound keeps packets sound, as does removing one or adding a sound one.
  lemma SoundAfter(q: multiset<Packet>, p: Packet, data: seq<Byte>, b: nat, m: nat, c: nat,
                   n: nat, out: multiset<Packet>)
    requires Numberable(data) && AllSound(q, data, b, m) && b <= c && m <= n
    requires m == n || m <= ChunkCount(data)
    requires forall o :: o in out ==> SoundToReceiver(o, data, c, n)
    ensures AllSound(q - multiset{p} + out, data, c, n)
  {
  }

  lemma ReceiverData(s: System, p: Packet, next: Device, c: Control, data: seq<Byte>, m: nat) returns (n: nat)
    requires InvAt(s, data, m) && p in s.toReceiver && p.control == SOH
    requires || (Stored(next, data, m) && c == NAK)
             || (p.seqno == m && m <= ChunkCount(data) && Stored(next, data, m + 1) && c == ACK)
    ensures n == if c == ACK then m + 1 else m
    ensures InvAt(System(s.sender, next, s.toReceiver - multiset{p}, s.toSender + multiset{ControlPacket(c)}), data, n)
  {
    n := if c == NAK then m else m + 1;
    assert SoundToReceiver(p, data, Bound(s.sender, m), m);
    assert ControlPacket(c).control == c;
    assert Acks(s.toSender + multiset{ControlPacket(c)}) == Acks(s.toSender) + if c == ACK then 1 else 0;
    SoundAfter(s.toReceiver, p, data, Bound(s.sender, m), m, Bound(s.sender, n), n, multiset{});
  }

  lemma AcknowledgedKeepsUp(d: Device, data: seq<Byte>, p: Packet, next: Device, out: Packet, acks: nat, m: nat)
    requires Numberable(data) && 1 <= m <= ChunkCount(data) + 1 && p.control == ACK && acks > 0
    requires SenderAt(d, data, acks, m) && Answers(d, data, p, next, out)
    ensures SenderAt(next, data, acks - 1, m) && Bound(d, m) <= Bound(next, m)
    ensures SoundToReceiver(out, data, Bound(next, m), m)
  {
  }

  lemma RefusedKeepsUp(d: Device, data: seq<Byte>, p: Packet, next: Device, out: Packet, acks: nat, m: nat)
    requires Numberable(data) && 1 <= m <= ChunkCount(data) + 1 && p.control == NAK
    requires SenderAt(d, data, acks, m) && Answers(d, data, p, next, out)
    ensures SenderAt(next, data, acks, m) && Bound(d, m) <= Bound(next, m)
    ensures SoundToReceiver(out, data, Bound(next, m), m)
  {
  }

  // The acknowledgement taken in is one the receiver's count of chunks accounts for.
  lemma SenderKeepsUp(d: Device, data: seq<Byte>, p: Packet, next: Device, out: Packet, acks: nat, m: nat)
    requires Numberable(data) && 1 <= m <= ChunkCount(data) + 1 && IsReply(p)
    requires SenderAt(d, data, acks, m) && Answers(d, data, p, next, out) && (p.control == ACK ==> acks > 0)
    ensures SenderAt(next, data, acks - if p.control == ACK then 1 else 0, m)
    ensures Bound(d, m) <= Bound(next, m)
    ensures SoundToReceiver(out, data, Bound(next, m), m)
  {
    if p.control == ACK {
      AcknowledgedKeepsUp(d, data, p, next, out, acks, m);
    } else {
      RefusedKeepsUp(d, data, p, next, out, acks, m);
    }
  }

  lemma SenderMoves(s: System, p: Packet, next: Device, out: Packet, data: seq<Byte>, m: nat)
    requires InvAt(s, data, m) && p in s.toSender && Answers(s.sender, data, p, next, out)
    ensures InvAt(System(next, s.receiver, s.toReceiver + multiset{out}, s.toSender - multiset{p}), data, m)
  {
    var rest := s.toSender - multiset{p};
    assert IsReply(p);
    assert Acks(rest) == Acks(s.toSender) - if p.control == ACK then 1 else 0;
    SenderKeepsUp(s.sender, data, p, next, out, Acks(s.toSender), m);
    AddedSound(s.toReceiver, out, data, Bound(s.sender, m), m, Bound(next, m));
  }

  lemma AddedSound(q: multiset<Packet>, out: Packet, data: seq<Byte>, b: nat, m: nat, c: nat)
    requires Numberable(data) && AllSound(q, data, b, m) && b <= c && SoundToReceiver(out, data, c, m)
    ensures AllSound(q + multiset{out}, data, c, m)
  {
  }

  lemma DataKeepsInv(s: System, e: Event, data: seq<Byte>, m: nat)
    requires InvAt(s, data, m) && Enabled(s, e) && e.ToReceiver? && e.p.control == SOH
    ensures var out := Handle(s.receiver, e.arrived, true).1;
            && out.Some? && (out.value.control == ACK || out.value.control == NAK)
            && InvAt(Next(s, e), data, if out.value.control == ACK then m + 1 else m)
  {
    ReceiverTakesOnlyNext(s.receiver, data, m, Bound(s.sender, m), e.p, e.arrived);
    var (next, out) := Handle(s.receiver, e.arrived, true);
    var n := ReceiverData(s, e.p, next, out.value.control, data, m);
  }

  lemma ReplyKeepsInv(s: System, e: Event, data: seq<Byte>, m: nat)
    requires InvAt(s, data, m) && Enabled(s, e) && e.ToSender?
    ensures InvAt(Next(s, e), data, m)
  {
    SenderAnswers(s.sender, data, e.p);
    var (next, out) := Handle(s.sender, e.p, true);
    SenderMoves(s, e.p, next, out.value, data, m);
  }

  lemma OtherEvents(s: System, e: Event, data: seq<Byte>, m: nat)
    requires InvAt(s, data, m) && Enabled(s, e) && Allows(SingleAcks, e) && !e.ToReceiver? && !e.ToSender?
    ensures InvAt(Next(s, e), data, m)
  {
  }

  // Every event keeps the invariant, unless it ends the receiver's session; and an EOT finds
  // the whole file stored.
  lemma StepKeepsInv(s: System, e: Event, data: seq<Byte>)
    requires Inv(s, data) && Enabled(s, e) && Allows(SingleAcks, e)
    ensures var t := Next(s, e);
            if t.receiver.isReceiving then Inv(t, data)
            else
              && e.ToReceiver? && e.arrived == e.p
              && (e.p.control == EOT ==> WholeFile(t, data))
              && (e.p.control != EOT ==> e.p.control == CAN)
  {
    var m: nat :| InvAt(s, data, m);
    if e.ToReceiver? {
      if e.p.control == SOH {
        DataKeepsInv(s, e, data, m);
      } else {
        assert Prefix(data, ChunkCount(data)) == data;
      }
    } else if e.ToSender? {
      ReplyKeepsInv(s, e, data, m);
    } else {
      OtherEvents(s, e, data, m);
    }
  }

  ghost predicate WholeFile(s: System, data: seq<Byte>) {
    s.receiver.filename in s.receiver.fs && s.receiver.fs[s.receiver.filename] == data
  }

  ghost predicate PrefixStored(s: System, data: seq<Byte>) {
    s.receiver.filename in s.receiver.fs && s.receiver.fs[s.receiver.filename] <= data
  }

  ghost predicate Run(c: Channel, states: seq<System>, events: seq<Event>) {
    && |states| == |events| + 1
    && forall i :: 0 <= i < |events| ==>
         Allows(c, events[i]) && Enabled(states[i], events[i]) && states[i + 1] == Next(states[i], events[i])
  }

  // While the receiver is open its file is a prefix of the sender's, and when it has just handled
  // an EOT its file is the sender's file.
  ghost predicate FaithfulAt(states: seq<System>, events: seq<Event>, data: seq<Byte>, i: nat)
    requires |states| == |events| + 1 && i < |states|
  {
    OpenIsPrefix(states, data, i) && EndedIsWhole(states, events, data, i)
  }

  ghost predicate OpenIsPrefix(states: seq<System>, data: seq<Byte>, i: nat)
    requires i < |states|
  {
    states[i].receiver.isReceiving ==> PrefixStored(states[i], data)
  }

  ghost predicate EndedIsWhole(states: seq<System>, events: seq<Event>, data: seq<Byte>, i: nat)
    requires |states| == |events| + 1 && i < |states|
  {
    i > 0 && events[i - 1].ToReceiver? && events[i - 1].arrived.control == EOT ==> WholeFile(states[i], data)
  }

  lemma {:induction false} RunKeepsInv(c: Channel, states: seq<System>, events: seq<Event>, data: seq<Byte>, i: nat)
    requires c != Copying && Run(c, states, events) && Inv(states[0], data) && i < |states|
    requires states[i].receiver.isReceiving
    ensures Inv(states[i], data)
  {
    if i > 0 {
      assert Enabled(states[i - 1], events[i - 1]) && Allows(c, events[i - 1]);
      RunKeepsInv(c, states, events, data, i - 1);
      StepKeepsInv(states[i - 1], events[i - 1], data);
    }
  }

  lemma InvStoresPrefix(s: System, data: seq<Byte>)
    requires Inv(s, data)
    ensures PrefixStored(s, data) && s.receiver.isReceiving
  {
    var m: nat :| InvAt(s, data, m);
    assert Prefix(data, m - 1) <= data;
  }

  lemma PrefixWhileOpen(c: Channel, states: seq<System>, events: seq<Event>, data: seq<Byte>, i: nat)
    requires c != Copying && Run(c, states, events) && Inv(states[0], data) && i < |states|
    ensures OpenIsPrefix(states, data, i)
  {
    if states[i].receiver.isReceiving {
      RunKeepsInv(c, states, events, data, i);
      InvStoresPrefix(states[i], data);
    }
  }

  lemma EotFindsWholeFile(c: Channel, states: seq<System>, events: seq<Event>, data: seq<Byte>, i: nat)
    requires c != Copying && Run(c, states, events) && Inv(states[0], data) && i < |states|
    ensures EndedIsWhole(states, events, data, i)
  {
    if i > 0 && events[i - 1].ToReceiver? && events[i - 1].arrived.control == EOT {
      assert Enabled(states[i - 1], events[i - 1]) && Allows(c, events[i - 1]);
      RunKeepsInv(c, states, events, data, i - 1);
      EotFinds(states[i - 1], events[i - 1], data);
    }
  }

  lemma EotFinds(s: System, e: Event, data: seq<Byte>)
    requires Inv(s, data) && Enabled(s, e) && Allows(SingleAcks, e)
    requires e.ToReceiver? && e.arrived.control == EOT
    ensures WholeFile(Next(s, e), data)
  {
    StepKeepsInv(s, e, data);
    assert !Next(s, e).receiver.isReceiving;
  }

  lemma RunIsFaithful(c: Channel, states: seq<System>, events: seq<Event>, data: seq<Byte>, i: nat)
    requires c != Copying && Run(c, states, events) && Inv(states[0], data) && i < |states|
    ensures FaithfulAt(states, events, data, i)
  {
    PrefixWhileOpen(c, states, events, data, i);
    EotFindsWholeFile(c, states, events, data, i);
  }

  // End to end, over every run whose channels do not copy acknowledgements.
  lemma TransferIsFaithful(c: Channel, sender: Device, stx: Packet, receiver: Device, soh: Packet, data: seq<Byte>,
                           states: seq<System>, events: seq<Event>, i: nat)
    requires CanStart(sender, stx, receiver, soh, data) && Numberable(data) && c != Copying
    requires Run(c, states, events) && states[0] == Start(sender, stx, receiver, soh) && i < |states|
    ensures FaithfulAt(states, events, data, i)
  {
    StartInv(sender, stx, receiver, soh, data);
    RunIsFaithful(c, states, events, data, i);
  }

  // A burst of up to 16 bits in a chunk is damage the channel above is allowed to do.
  lemma BurstsArriveDamaged(p: Packet, bytes: seq<Byte>, low: nat)
    requires p.control == SOH && Check(p.buffer, p.crc16)
    requires |bytes| == |p.buffer| && bytes != p.buffer
    requires forall e :: e in Flips(p.buffer, bytes) ==> low <= e < low + 16
    ensures Arrives(p, p.(buffer := bytes))
  {
    BurstDetected(p.buffer, bytes, low);
  }
}
