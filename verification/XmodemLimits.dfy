// How large a file each kind of channel carries faithfully: exact limits, with the runs that
// break the transfer past them.
module XmodemLimits {
  import opened Basics
  import opened Crc
  import opened Paths
  import opened Xmodem
  import opened XmodemSender
  import opened XmodemSession

  // The last chunk that has a sequence number of its own, as an offset.
  const WRAP := 65535 * CHUNK

  // ---- Runs that lead somewhere -----------------------------------------------------------------

  function Permitted(c: Channel): (System, Event) -> bool {
    (s, e) => Allows(c, e) && Enabled(s, e)
  }

  ghost predicate Reachable(c: Channel, s: System, t: System) {
    CanReach(Permitted(c), Next, s, t)
  }

  lemma ReachedByRun(c: Channel, s: System, t: System) returns (states: seq<System>, events: seq<Event>)
    requires Reachable(c, s, t)
    ensures Visits(Permitted(c), Next, states, events) && states[0] == s && states[|events|] == t
  {
    events :| Leads(Permitted(c), Next, s, events, t);
    states := LeadsVisiting(Permitted(c), Next, s, events, t);
  }

  lemma VisitedByRun(c: Channel, states: seq<System>, events: seq<Event>)
    requires Visits(Permitted(c), Next, states, events)
    ensures Run(c, states, events)
  {
  }

  // Over channels of this kind, every run from here is faithful at every point.
  ghost predicate AlwaysFaithful(c: Channel, start: System, data: seq<Byte>) {
    forall states, events, i: nat :: Run(c, states, events) && states[0] == start && i < |states| ==>
      FaithfulAt(states, events, data, i)
  }

  const EOT_ARRIVES := ToReceiver(ControlPacket(EOT), ControlPacket(EOT))

  // A run to a receiver that holds something else when an EOT is about to arrive.
  lemma BreaksFaith(c: Channel, start: System, t: System, stored: seq<Byte>, data: seq<Byte>)
    requires Reachable(c, start, t)
    requires Holds(t.receiver, stored) && ControlPacket(EOT) in t.toReceiver && stored != data
    ensures !AlwaysFaithful(c, start, data)
  {
    var states, events := ReachedByRun(c, start, t);
    var all, visited := events + [EOT_ARRIVES], states + [Next(t, EOT_ARRIVES)];
    assert Enabled(t, EOT_ARRIVES) && Allows(c, EOT_ARRIVES) && states[|events|] == t;
    VisitsOneMore(Permitted(c), Next, states, events, EOT_ARRIVES);
    VisitedByRun(c, visited, all);
    EotKeepsFile(t, stored);
    assert all[|all| - 1] == EOT_ARRIVES && visited[|all|] == Next(t, EOT_ARRIVES);
    assert !FaithfulAt(visited, all, data, |all|);
  }

  lemma EotKeepsFile(t: System, stored: seq<Byte>)
    requires Holds(t.receiver, stored)
    ensures var r := Next(t, EOT_ARRIVES).receiver; r.filename in r.fs && r.fs[r.filename] == stored
  {
  }

  // ---- A sender and a receiver in step, past any number of wraps --------------------------------

  // The sender has just sent the bytes from offset q on.
  ghost predicate SentFrom(d: Device, data: seq<Byte>, q: nat) {
    Serving(d, data, q) && d.isEOT == Short(data, q)
  }

  ghost predicate Holds(d: Device, stored: seq<Byte>) {
    && d.isReceiving && !d.isTransmitting
    && d.file == Writer(d.filename) && d.filename in d.fs && d.fs[d.filename] == stored
  }

  lemma SenderAcknowledged(d: Device, data: seq<Byte>, q: nat)
    requires SentFrom(d, data, q)
    ensures var (next, out) := Handle(d, ControlPacket(ACK), true);
            if d.isEOT then Idle(next) && out == Some(ControlPacket(EOT))
            else
              && SentFrom(next, data, q + CHUNK) && next.packetno == Successor(d.packetno) && next.retrans == MAXRETRANS
              && out == Some(PacketAt(data, q + CHUNK, Successor(d.packetno)))
  {
    AckStep(d, data, q, ControlPacket(ACK), true);
  }

  // A NAK for a chunk numbered 0 cannot seek back, and sends the bytes behind the refused ones.
  lemma WrappedResendIsWrong(d: Device, data: seq<Byte>, q: nat)
    requires SentFrom(d, data, q) && d.packetno == 0 && d.retrans > 1
    ensures var (next, out) := Handle(d, ControlPacket(NAK), true);
            && SentFrom(next, data, Upto(data, q)) && next.packetno == 0 && next.retrans == d.retrans - 1
            && out == Some(PacketAt(data, Upto(data, q), 0))
  {
    NakStep(d, data, q, ControlPacket(NAK), true);
  }

  lemma ReceiverAccepts(d: Device, stored: seq<Byte>, p: Packet)
    requires Holds(d, stored) && p.control == SOH && p.seqno == d.packetno && Check(p.buffer, p.crc16)
    ensures var (next, out) := Handle(d, p, true);
            && Holds(next, stored + p.buffer) && next.packetno == Successor(d.packetno)
            && out == Some(ControlPacket(ACK))
  {
  }

  lemma ReceiverRefuses(d: Device, stored: seq<Byte>, p: Packet)
    requires Holds(d, stored) && (p.control == SOH || p.control == STX)
    requires p.seqno != d.packetno || !Check(p.buffer, p.crc16)
    ensures Handle(d, p, true) == Reply(d, NAK)
  {
  }

  // One packet is on its way to the receiver that waits for it, among others that stay there.
  ghost predicate InStep(s: System, data: seq<Byte>, q: nat, stored: seq<Byte>, extra: multiset<Packet>) {
    && SentFrom(s.sender, data, q) && Holds(s.receiver, stored) && s.receiver.packetno == s.sender.packetno
    && s.toReceiver == extra + multiset{PacketAt(data, q, s.sender.packetno)} && s.toSender == multiset{}
  }

  ghost predicate EotSent(s: System, stored: seq<Byte>, extra: multiset<Packet>) {
    Holds(s.receiver, stored) && s.toReceiver == extra + multiset{ControlPacket(EOT)}
  }

  lemma Delivered(s: System, data: seq<Byte>, q: nat, stored: seq<Byte>, extra: multiset<Packet>)
    requires InStep(s, data, q, stored, extra)
    ensures var p := PacketAt(data, q, s.sender.packetno);
            var t := Next(s, ToReceiver(p, p));
            && Enabled(s, ToReceiver(p, p))
            && t.sender == s.sender && Holds(t.receiver, stored + data[q..Upto(data, q)])
            && t.receiver.packetno == Successor(s.receiver.packetno)
            && t.toReceiver == extra && t.toSender == multiset{ControlPacket(ACK)}
  {
    ReceiverAccepts(s.receiver, stored, PacketAt(data, q, s.sender.packetno));
  }

  lemma Acknowledged(s: System, data: seq<Byte>, q: nat, stored: seq<Byte>, extra: multiset<Packet>)
    requires SentFrom(s.sender, data, q) && Holds(s.receiver, stored)
    requires s.receiver.packetno == Successor(s.sender.packetno)
    requires s.toReceiver == extra && s.toSender == multiset{ControlPacket(ACK)}
    ensures var t := Next(s, ToSender(ControlPacket(ACK)));
            && Enabled(s, ToSender(ControlPacket(ACK)))
            && t.receiver == s.receiver
            && if q + CHUNK <= |data| then InStep(t, data, q + CHUNK, stored, extra) && t.sender.retrans == MAXRETRANS
               else EotSent(t, stored, extra)
  {
    SenderAcknowledged(s.sender, data, q);
  }

  lemma Exchange(c: Channel, s: System, data: seq<Byte>, q: nat, stored: seq<Byte>, more: seq<Byte>,
                 extra: multiset<Packet>)
    returns (t: System)
    requires InStep(s, data, q, stored, extra) && more == stored + data[q..Upto(data, q)]
    ensures Reachable(c, s, t) && t.receiver.packetno == Successor(s.receiver.packetno)
    ensures if q + CHUNK <= |data| then InStep(t, data, q + CHUNK, more, extra) && t.sender.retrans == MAXRETRANS
            else EotSent(t, more, extra)
  {
    var p := PacketAt(data, q, s.sender.packetno);
    var e, f := ToReceiver(p, p), ToSender(ControlPacket(ACK));
    var s1 := Next(s, e);
    Delivered(s, data, q, stored, extra);
    Acknowledged(s1, data, q, more, extra);
    t := Next(s1, f);
    TwoSteps(c, s, e, f);
  }

  lemma TwoSteps(c: Channel, s: System, e: Event, f: Event)
    requires Allows(c, e) && Enabled(s, e) && Allows(c, f) && Enabled(Next(s, e), f)
    ensures Reachable(c, s, Next(Next(s, e), f))
  {
    CanReachItself(Permitted(c), Next, s);
    CanReachNext(Permitted(c), Next, s, s, e);
    CanReachNext(Permitted(c), Next, s, Next(s, e), f);
  }

  // The k-th sequence number after n.
  function Nth(n: SeqNo, k: int): SeqNo {
    if k <= 0 then n else Successor(Nth(n, k - 1))
  }

  lemma {:induction false} NthBelowWrap(n: SeqNo, k: nat)
    requires n + k < SEQUENCE_NUMBERS
    ensures Nth(n, k) == n + k
  {
    if k > 0 {
      NthBelowWrap(n, k - 1);
    }
  }

  // Counting from 1, number 65535 is followed by 0 and then by 1 again.
  lemma NthWraps(k: nat)
    requires k == SEQUENCE_NUMBERS
    ensures Nth(1, k - 1) == 0 && Nth(1, k) == 1
  {
    NthBelowWrap(1, k - 2);
  }

  // The state k exchanges after the sender was at offset b with its packet numbered n, when the
  // receiver held kept.
  ghost predicate Stage(data: seq<Byte>, b: nat, n: SeqNo, kept: seq<Byte>, extra: multiset<Packet>,
                        k: int, s: System) {
    && 0 <= k && b + Offset(k) <= |data|
    && InStep(s, data, b + Offset(k), kept + data[b..b + Offset(k)], extra)
    && s.sender.packetno == Nth(n, k) && (k > 0 ==> s.sender.retrans == MAXRETRANS)
  }

  lemma SliceExtends(data: seq<Byte>, b: nat, kept: seq<Byte>, k: int)
    requires 0 <= k && b + Offset(k + 1) <= |data|
    ensures var q := b + Offset(k);
            && Upto(data, q) == b + Offset(k + 1)
            && kept + data[b..q] + data[q..Upto(data, q)] == kept + data[b..b + Offset(k + 1)]
  {
    assert data[b..b + Offset(k)] + data[b + Offset(k)..b + Offset(k + 1)] == data[b..b + Offset(k + 1)];
  }

  // Offsets and contents are passed by name here: the solver then compares names, not slices.
  lemma StageGives(data: seq<Byte>, b: nat, n: SeqNo, kept: seq<Byte>, extra: multiset<Packet>, k: int, s: System,
                   q: nat, r: nat, have: seq<Byte>, more: seq<Byte>)
    requires Stage(data, b, n, kept, extra, k, s) && b + Offset(k + 1) <= |data|
    requires q == b + Offset(k) && r == b + Offset(k + 1)
    requires have == kept + data[b..q] && more == kept + data[b..r]
    ensures InStep(s, data, q, have, extra) && q + CHUNK == r && more == have + data[q..r]
    ensures s.receiver.packetno == Nth(n, k)
  {
    SliceExtends(data, b, kept, k);
  }

  lemma StageAfter(data: seq<Byte>, b: nat, n: SeqNo, kept: seq<Byte>, extra: multiset<Packet>, k: int, t: System,
                   r: nat, more: seq<Byte>)
    requires 0 <= k && r == b + Offset(k + 1) <= |data| && more == kept + data[b..r]
    requires InStep(t, data, r, more, extra)
    requires t.sender.retrans == MAXRETRANS && t.receiver.packetno == Successor(Nth(n, k))
    ensures Stage(data, b, n, kept, extra, k + 1, t)
  {
  }

  lemma FullExchange(c: Channel, s: System, data: seq<Byte>, q: nat, r: nat, have: seq<Byte>, more: seq<Byte>,
                     extra: multiset<Packet>)
    returns (t: System)
    requires InStep(s, data, q, have, extra) && q + CHUNK == r <= |data| && more == have + data[q..r]
    ensures Reachable(c, s, t) && InStep(t, data, r, more, extra) && t.sender.retrans == MAXRETRANS
    ensures t.receiver.packetno == Successor(s.receiver.packetno)
  {
    t := Exchange(c, s, data, q, have, more, extra);
  }

  lemma NextStage(c: Channel, data: seq<Byte>, b: nat, n: SeqNo, kept: seq<Byte>, extra: multiset<Packet>,
                  k: int, s: System,
                  q: nat, r: nat, have: seq<Byte>, more: seq<Byte>)
    returns (t: System)
    requires Stage(data, b, n, kept, extra, k, s) && b + Offset(k + 1) <= |data|
    requires q == b + Offset(k) && r == b + Offset(k + 1)
    requires have == kept + data[b..q] && more == kept + data[b..r]
    ensures Reachable(c, s, t) && Stage(data, b, n, kept, extra, k + 1, t)
  {
    StageGives(data, b, n, kept, extra, k, s, q, r, have, more);
    t := FullExchange(c, s, data, q, r, have, more, extra);
    StageAfter(data, b, n, kept, extra, k, t, r, more);
  }

  ghost predicate CanGetTo(c: Channel, s: System, data: seq<Byte>, b: nat, n: SeqNo, kept: seq<Byte>,
                           extra: multiset<Packet>, k: int) {
    exists t :: Reachable(c, s, t) && Stage(data, b, n, kept, extra, k, t)
  }

  lemma GetsFurther(c: Channel, s: System, data: seq<Byte>, b: nat, n: SeqNo, kept: seq<Byte>, extra: multiset<Packet>,
                    k: int)
    requires CanGetTo(c, s, data, b, n, kept, extra, k) && b + Offset(k + 1) <= |data|
    ensures CanGetTo(c, s, data, b, n, kept, extra, k + 1)
  {
    var u :| Reachable(c, s, u) && Stage(data, b, n, kept, extra, k, u);
    var q, r := b + Offset(k), b + Offset(k + 1);
    var have, more := kept + data[b..q], kept + data[b..r];
    var t := NextStage(c, data, b, n, kept, extra, k, u, q, r, have, more);
    CanReachOn(Permitted(c), Next, s, u, t);
  }

  lemma Exchanges(c: Channel, s: System, data: seq<Byte>, b: nat, n: SeqNo, kept: seq<Byte>, extra: multiset<Packet>,
                  k: nat)
    returns (t: System)
    requires Stage(data, b, n, kept, extra, 0, s) && b + Offset(k) <= |data|
    ensures Reachable(c, s, t) && Stage(data, b, n, kept, extra, k, t)
  {
    CanReachItself(Permitted(c), Next, s);
    var i := 0;
    while i < k
      invariant 0 <= i <= k && CanGetTo(c, s, data, b, n, kept, extra, i)
    {
      GetsFurther(c, s, data, b, n, kept, extra, i);
      i := i + 1;
    }
    t :| Reachable(c, s, t) && Stage(data, b, n, kept, extra, k, t);
  }

  lemma LastStageGives(data: seq<Byte>, b: nat, n: SeqNo, kept: seq<Byte>, extra: multiset<Packet>, k: int, s: System,
                       q: nat, have: seq<Byte>, more: seq<Byte>)
    requires Stage(data, b, n, kept, extra, k, s) && b + Offset(k + 1) > |data| && b <= |data|
    requires q == b + Offset(k) && have == kept + data[b..q] && more == kept + data[b..]
    ensures InStep(s, data, q, have, extra) && q + CHUNK > |data| && more == have + data[q..Upto(data, q)]
    ensures s.receiver.packetno == Nth(n, k)
  {
    LastSlice(data, b, kept, q, have, more);
  }

  lemma LastSlice(data: seq<Byte>, b: nat, kept: seq<Byte>, q: nat, have: seq<Byte>, more: seq<Byte>)
    requires b <= q <= |data| < q + CHUNK && have == kept + data[b..q] && more == kept + data[b..]
    ensures more == have + data[q..Upto(data, q)]
  {
    assert data[b..q] + data[q..|data|] == data[b..];
  }

  lemma ShortExchange(c: Channel, s: System, data: seq<Byte>, q: nat, have: seq<Byte>, more: seq<Byte>,
                      extra: multiset<Packet>)
    returns (t: System)
    requires InStep(s, data, q, have, extra) && q + CHUNK > |data| && more == have + data[q..Upto(data, q)]
    ensures Reachable(c, s, t) && EotSent(t, more, extra)
    ensures t.receiver.packetno == Successor(s.receiver.packetno)
  {
    t := Exchange(c, s, data, q, have, more, extra);
  }

  lemma LastExchange(c: Channel, data: seq<Byte>, b: nat, n: SeqNo, kept: seq<Byte>, extra: multiset<Packet>,
                     k: int, s: System,
                     q: nat, have: seq<Byte>, more: seq<Byte>)
    returns (t: System)
    requires Stage(data, b, n, kept, extra, k, s) && b + Offset(k + 1) > |data| && b <= |data|
    requires q == b + Offset(k) && have == kept + data[b..q] && more == kept + data[b..]
    ensures Reachable(c, s, t) && EotSent(t, more, extra) && t.receiver.packetno == Nth(n, k + 1)
  {
    LastStageGives(data, b, n, kept, extra, k, s, q, have, more);
    t := ShortExchange(c, s, data, q, have, more, extra);
  }

  lemma LastExchangeFrom(c: Channel, s: System, data: seq<Byte>, b: nat, n: SeqNo, kept: seq<Byte>, more: seq<Byte>,
                         extra: multiset<Packet>, k: int)
    returns (t: System)
    requires Stage(data, b, n, kept, extra, k, s) && b + Offset(k + 1) > |data| && b <= |data|
    requires more == kept + data[b..]
    ensures Reachable(c, s, t) && EotSent(t, more, extra) && t.receiver.packetno == Nth(n, k + 1)
  {
    var q := b + Offset(k);
    var have := kept + data[b..q];
    t := LastExchange(c, data, b, n, kept, extra, k, s, q, have, more);
  }

  // From there on deliveries alone bring the rest of the file over.
  lemma ToTheEnd(c: Channel, s: System, data: seq<Byte>, b: nat, n: SeqNo, kept: seq<Byte>, more: seq<Byte>,
                 extra: multiset<Packet>)
    returns (t: System)
    requires b <= |data| && Stage(data, b, n, kept, extra, 0, s) && more == kept + data[b..]
    ensures Reachable(c, s, t) && EotSent(t, more, extra)
    ensures t.receiver.packetno == Nth(n, (|data| - b) / 128 + 1)
  {
    var k := (|data| - b) / 128;
    var u := Exchanges(c, s, data, b, n, kept, extra, k);
    t := LastExchangeFrom(c, u, data, b, n, kept, more, extra, k);
    CanReachOn(Permitted(c), Next, s, u, t);
  }

  // The whole file.
  lemma AllOfIt(c: Channel, s: System, data: seq<Byte>, extra: multiset<Packet>) returns (t: System)
    requires Stage(data, 0, 1, [], extra, 0, s)
    ensures Reachable(c, s, t) && EotSent(t, data, extra) && t.receiver.packetno == Nth(1, |data| / 128 + 1)
  {
    assert data == [] + data[0..];
    t := ToTheEnd(c, s, data, 0, 1, [], data, extra);
  }

  lemma StartsInStep(sender: Device, stx: Packet, receiver: Device, soh: Packet, data: seq<Byte>)
    requires CanStart(sender, stx, receiver, soh, data)
    ensures Stage(data, 0, 1, [], multiset{}, 0, Start(sender, stx, receiver, soh))
  {
    assert [] + data[0..0] == [];
  }

  // ---- Past the sequence numbers -----------------------------------------------------------------

  function Garbled(p: Packet): Packet {
    p.(crc16 := p.crc16[0 := !p.crc16[0]])
  }

  // Damage to the chunk numbered 0 makes the sender skip it, and the receiver takes the next one
  // for it.
  lemma ZeroChunkIsSkipped(c: Channel, s: System, data: seq<Byte>, q: nat, stored: seq<Byte>, extra: multiset<Packet>)
    returns (t: System)
    requires InStep(s, data, q, stored, extra) && s.sender.packetno == 0 && s.sender.retrans > 1 && c != Clean
    ensures Reachable(c, s, t) && InStep(t, data, Upto(data, q), stored, extra) && t.sender.packetno == 0
  {
    var p := PacketAt(data, q, 0);
    var e, f := ToReceiver(p, Garbled(p)), ToSender(ControlPacket(NAK));
    assert Garbled(p).crc16[0] != p.crc16[0];
    ReceiverRefuses(s.receiver, stored, Garbled(p));
    var s1 := Next(s, e);
    assert s1.toSender == multiset{ControlPacket(NAK)} && s1.toReceiver == extra;
    WrappedResendIsWrong(s1.sender, data, q);
    t := Next(s1, f);
    TwoSteps(c, s, e, f);
  }

  lemma NewStage(s: System, data: seq<Byte>, q: nat, stored: seq<Byte>, extra: multiset<Packet>, n: SeqNo)
    requires InStep(s, data, q, stored, extra) && s.sender.packetno == n
    ensures Stage(data, q, n, stored, extra, 0, s)
  {
    assert stored + data[q..q] == stored;
  }

  lemma AtWrap(data: seq<Byte>, extra: multiset<Packet>, s: System)
    requires Stage(data, 0, 1, [], extra, 65535, s)
    ensures WRAP <= |data| && InStep(s, data, WRAP, data[..WRAP], extra)
    ensures s.sender.packetno == 0 && s.sender.retrans == MAXRETRANS
  {
    NthWraps(SEQUENCE_NUMBERS);
    assert Offset(65535) == WRAP;
    assert [] + data[0..WRAP] == data[..WRAP];
  }

  lemma ChunkSkipped(c: Channel, start: System, data: seq<Byte>)
    requires Stage(data, 0, 1, [], multiset{}, 0, start) && |data| > WRAP && c != Clean
    ensures !AlwaysFaithful(c, start, data)
  {
    assert Offset(65535) == WRAP;
    var t := Exchanges(c, start, data, 0, 1, [], multiset{}, 65535);
    AtWrap(data, multiset{}, t);
    var u := ZeroChunkIsSkipped(c, t, data, WRAP, data[..WRAP], multiset{});
    CanReachOn(Permitted(c), Next, start, t, u);
    var p := Upto(data, WRAP);
    NewStage(u, data, p, data[..WRAP], multiset{}, 0);
    var short := data[..WRAP] + data[p..];
    var v := ToTheEnd(c, u, data, p, 0, data[..WRAP], short, multiset{});
    CanReachOn(Permitted(c), Next, start, u, v);
    BreaksFaith(c, start, v, short, data);
  }

  lemma FirstChunkCopied(c: Channel, start: System, data: seq<Byte>) returns (s: System)
    requires Stage(data, 0, 1, [], multiset{}, 0, start) && (c == Copying || c == SingleAcks)
    ensures Reachable(c, start, s) && Stage(data, 0, 1, [], multiset{PacketAt(data, 0, 1)}, 0, s)
  {
    var p := PacketAt(data, 0, 1);
    var e := DuplicateToReceiver(p);
    s := start.(toReceiver := start.toReceiver + multiset{p});
    assert [] + data[0..0] == [];
    assert Allows(c, e) && Enabled(start, e) && s == Next(start, e);
    CanReachItself(Permitted(c), Next, start);
    CanReachNext(Permitted(c), Next, start, start, e);
    assert s.toReceiver == multiset{p} + multiset{p};
    NewStage(s, data, 0, [], multiset{p}, 1);
  }

  lemma StaleChunkArrives(c: Channel, t: System, data: seq<Byte>, p: Packet) returns (u: System)
    requires EotSent(t, data, multiset{p}) && p.control == SOH && p.seqno == t.receiver.packetno
    requires Check(p.buffer, p.crc16)
    ensures Reachable(c, t, u) && Holds(u.receiver, data + p.buffer) && ControlPacket(EOT) in u.toReceiver
  {
    var f := ToReceiver(p, p);
    ReceiverAccepts(t.receiver, data, p);
    u := Next(t, f);
    assert Enabled(t, f) && Allows(c, f);
    CanReachItself(Permitted(c), Next, t);
    CanReachNext(Permitted(c), Next, t, t, f);
  }

  lemma BackToOne(n: SeqNo, size: nat)
    requires size == WRAP && n == Nth(1, size / 128 + 1)
    ensures n == 1
  {
    var k := size / 128 + 1;
    assert size == 8388480;
    NthWraps(k);
  }

  // With 65536 chunks the receiver comes to wait for number 1 again, and a copy of the first chunk
  // that is still under way is appended.
  lemma StaleChunkAppended(c: Channel, start: System, data: seq<Byte>)
    requires Stage(data, 0, 1, [], multiset{}, 0, start) && |data| == WRAP && (c == Copying || c == SingleAcks)
    ensures !AlwaysFaithful(c, start, data)
  {
    var p := PacketAt(data, 0, 1);
    var s := FirstChunkCopied(c, start, data);
    var t := AllOfIt(c, s, data, multiset{p});
    BackToOne(t.receiver.packetno, |data|);
    CanReachOn(Permitted(c), Next, start, s, t);
    var u := StaleChunkArrives(c, t, data, p);
    CanReachOn(Permitted(c), Next, start, t, u);
    BreaksFaith(c, start, u, data + p.buffer, data);
  }

  // ---- Copied acknowledgements ------------------------------------------------------------------

  // The sender runs ahead on copies of one acknowledgement.
  ghost predicate Racing(s: System, data: seq<Byte>, q: nat, stored: seq<Byte>) {
    SentFrom(s.sender, data, q) && Holds(s.receiver, stored) && ControlPacket(ACK) in s.toSender
  }

  ghost predicate CanRaceTo(s: System, data: seq<Byte>, q: nat, stored: seq<Byte>) {
    exists t :: Reachable(Copying, s, t) && Racing(t, data, q, stored)
  }

  lemma RacesOn(s: System, data: seq<Byte>, q: nat, stored: seq<Byte>) returns (t: System)
    requires Racing(s, data, q, stored)
    ensures Reachable(Copying, s, t) && Holds(t.receiver, stored)
    ensures if q + CHUNK <= |data| then Racing(t, data, q + CHUNK, stored) else ControlPacket(EOT) in t.toReceiver
  {
    var e, f := DuplicateToSender(ControlPacket(ACK)), ToSender(ControlPacket(ACK));
    SenderAcknowledged(s.sender, data, q);
    t := Next(Next(s, e), f);
    TwoSteps(Copying, s, e, f);
  }

  lemma RacesFurther(s: System, data: seq<Byte>, q: nat, stored: seq<Byte>)
    requires CanRaceTo(s, data, q, stored) && q + CHUNK <= |data|
    ensures CanRaceTo(s, data, q + CHUNK, stored)
  {
    var u :| Reachable(Copying, s, u) && Racing(u, data, q, stored);
    var t := RacesOn(u, data, q, stored);
    CanReachOn(Permitted(Copying), Next, s, u, t);
  }

  lemma RacesToTheEnd(s: System, data: seq<Byte>, stored: seq<Byte>) returns (t: System)
    requires Racing(s, data, 0, stored)
    ensures Reachable(Copying, s, t) && Holds(t.receiver, stored) && ControlPacket(EOT) in t.toReceiver
  {
    var q := 0;
    CanReachItself(Permitted(Copying), Next, s);
    while q + CHUNK <= |data|
      invariant 0 <= q <= |data| && CanRaceTo(s, data, q, stored)
    {
      RacesFurther(s, data, q, stored);
      q := q + CHUNK;
    }
    var u :| Reachable(Copying, s, u) && Racing(u, data, q, stored);
    t := RacesOn(u, data, q, stored);
    CanReachOn(Permitted(Copying), Next, s, u, t);
  }

  // The receiver stores the first chunk; copies of that one acknowledgement bring the sender to EOT.
  lemma AcknowledgementsCopied(start: System, data: seq<Byte>)
    requires Stage(data, 0, 1, [], multiset{}, 0, start) && |data| > CHUNK
    ensures !AlwaysFaithful(Copying, start, data)
  {
    assert [] + data[0..0] == [];
    var p := PacketAt(data, 0, 1);
    var e := ToReceiver(p, p);
    var s := Next(start, e);
    Delivered(start, data, 0, [], multiset{});
    CanReachItself(Permitted(Copying), Next, start);
    CanReachNext(Permitted(Copying), Next, start, start, e);
    var stored := [] + data[0..Upto(data, 0)];
    var t := RacesToTheEnd(s, data, stored);
    CanReachOn(Permitted(Copying), Next, start, s, t);
    BreaksFaith(Copying, start, t, stored, data);
  }

  // ---- Within the limits ------------------------------------------------------------------------

  // At most one full chunk: an EOT is only sent once that chunk is stored, however often its
  // acknowledgement was copied.
  ghost predicate SmallAt(s: System, data: seq<Byte>, m: nat) {
    && |data| <= CHUNK && 1 <= m <= ChunkCount(data) + 1
    && Stored(s.receiver, data, m)
    && (Idle(s.sender) || (Sending(s.sender, data) && s.sender.packetno <= m))
    && OnlyReplies(s.toSender) && (ControlPacket(ACK) in s.toSender ==> m > 1)
    && AllSmall(s.toReceiver, data, m)
  }

  predicate SmallSound(p: Packet, data: seq<Byte>, m: nat)
    requires |data| <= CHUNK
  {
    || (1 <= p.seqno <= ChunkCount(data) && p == DataPacket(data, p.seqno))
    || (p.control == EOT && m > 1)
    || p.control == CAN
  }

  predicate AllSmall(q: multiset<Packet>, data: seq<Byte>, m: nat)
    requires |data| <= CHUNK
  {
    forall p :: p in q ==> SmallSound(p, data, m)
  }

  lemma SmallReceives(s: System, p: Packet, next: Device, c: Control, data: seq<Byte>, m: nat) returns (n: nat)
    requires SmallAt(s, data, m) && p in s.toReceiver && p.control == SOH
    requires || (Stored(next, data, m) && c == NAK)
             || (p.seqno == m && m <= ChunkCount(data) && Stored(next, data, m + 1) && c == ACK)
    ensures SmallAt(System(s.sender, next, s.toReceiver - multiset{p}, s.toSender + multiset{ControlPacket(c)}),
                    data, n)
  {
    n := if c == NAK then m else m + 1;
    assert SmallSound(p, data, m);
  }

  lemma SmallTakesPacket(s: System, e: Event, data: seq<Byte>, m: nat) returns (n: nat)
    requires SmallAt(s, data, m) && Enabled(s, e) && e.ToReceiver? && e.p.control == SOH
    ensures SmallAt(Next(s, e), data, n)
  {
    ReceiverTakesOnlyNext(s.receiver, data, m, ChunkCount(data), e.p, e.arrived);
    var (next, out) := Handle(s.receiver, e.arrived, true);
    n := SmallReceives(s, e.p, next, out.value.control, data, m);
  }

  lemma SmallMoves(s: System, p: Packet, next: Device, out: Packet, data: seq<Byte>, m: nat)
    requires SmallAt(s, data, m) && p in s.toSender && Answers(s.sender, data, p, next, out)
    ensures SmallAt(System(next, s.receiver, s.toReceiver + multiset{out}, s.toSender - multiset{p}), data, m)
  {
    assert IsReply(p);
    SmallAnswers(s.sender, data, p, next, out, m);
  }

  lemma SmallAnswers(d: Device, data: seq<Byte>, p: Packet, next: Device, out: Packet, m: nat)
    requires |data| <= CHUNK && 1 <= m <= ChunkCount(data) + 1 && IsReply(p) && (p.control == ACK ==> m > 1)
    requires Idle(d) || (Sending(d, data) && d.packetno <= m)
    requires Answers(d, data, p, next, out)
    ensures (Idle(next) || (Sending(next, data) && next.packetno <= m)) && SmallSound(out, data, m)
  {
  }

  lemma SmallTakesReply(s: System, e: Event, data: seq<Byte>, m: nat)
    requires SmallAt(s, data, m) && Enabled(s, e) && e.ToSender?
    ensures SmallAt(Next(s, e), data, m)
  {
    SenderAnswers(s.sender, data, e.p);
    var (next, out) := Handle(s.sender, e.p, true);
    SmallMoves(s, e.p, next, out.value, data, m);
  }

  lemma SmallTakesOther(s: System, e: Event, data: seq<Byte>, m: nat)
    requires SmallAt(s, data, m) && Enabled(s, e) && !e.ToReceiver? && !e.ToSender?
    ensures SmallAt(Next(s, e), data, m)
  {
  }

  ghost predicate Small(s: System, data: seq<Byte>) {
    exists m: nat :: SmallAt(s, data, m)
  }

  // The session ends.
  lemma SmallTakesEnd(s: System, e: Event, data: seq<Byte>, m: nat)
    requires SmallAt(s, data, m) && Enabled(s, e) && e.ToReceiver? && e.p.control != SOH
    ensures !Next(s, e).receiver.isReceiving
    ensures e.arrived.control == EOT ==> WholeFile(Next(s, e), data)
  {
    assert SmallSound(e.p, data, m) && e.arrived == e.p;
    assert m > 1 ==> Prefix(data, m - 1) == data;
  }

  lemma SmallStep(s: System, e: Event, data: seq<Byte>)
    requires Small(s, data) && Enabled(s, e)
    ensures Next(s, e).receiver.isReceiving ==> Small(Next(s, e), data)
    ensures e.ToReceiver? && e.arrived.control == EOT ==> WholeFile(Next(s, e), data)
  {
    var m: nat :| SmallAt(s, data, m);
    if !e.ToReceiver? {
      if e.ToSender? { SmallTakesReply(s, e, data, m); } else { SmallTakesOther(s, e, data, m); }
    } else if e.p.control == SOH {
      var n := SmallTakesPacket(s, e, data, m);
    } else {
      SmallTakesEnd(s, e, data, m);
    }
  }

  lemma SmallStart(sender: Device, stx: Packet, receiver: Device, soh: Packet, data: seq<Byte>)
    requires CanStart(sender, stx, receiver, soh, data) && |data| <= CHUNK
    ensures Small(Start(sender, stx, receiver, soh), data)
  {
    SendingStarts(sender, stx, data);
    assert SmallAt(Start(sender, stx, receiver, soh), data, 1);
  }

  lemma {:induction false} SmallThroughout(states: seq<System>, events: seq<Event>, data: seq<Byte>, i: nat)
    requires Run(Copying, states, events) && Small(states[0], data) && i < |states|
    ensures states[i].receiver.isReceiving ==> Small(states[i], data)
    ensures FaithfulAt(states, events, data, i)
  {
    if i > 0 {
      SmallThroughout(states, events, data, i - 1);
      assert Enabled(states[i - 1], events[i - 1]);
      SmallStep(states[i - 1], events[i - 1], data);
    }
    if states[i].receiver.isReceiving {
      SmallIsPrefix(states[i], data);
    }
  }

  lemma SmallIsPrefix(s: System, data: seq<Byte>)
    requires Small(s, data)
    ensures PrefixStored(s, data)
  {
    var m: nat :| SmallAt(s, data, m);
    assert Prefix(data, m - 1) <= data;
  }

  // ---- Channels that copy nothing ---------------------------------------------------------------

  // The number that chunk k goes by, up to the one after the last that can be counted.
  function Number(k: nat): SeqNo
    requires k <= SEQUENCE_NUMBERS + 1
  {
    if k < SEQUENCE_NUMBERS then k else k - SEQUENCE_NUMBERS
  }

  // Without copies one packet at most is under way. The file is at most 65536 chunks, the last one
  // of which is then empty.
  ghost predicate OnItsWay(s: System, data: seq<Byte>, k: nat) {
    && 1 <= k <= SEQUENCE_NUMBERS && Offset(k - 1) <= |data| <= WRAP
    && InStep(s, data, Offset(k - 1), data[..Offset(k - 1)], multiset{}) && s.sender.packetno == Number(k)
  }

  ghost predicate Refused(s: System, data: seq<Byte>, k: nat) {
    && 1 <= k <= SEQUENCE_NUMBERS && Offset(k - 1) <= |data| <= WRAP
    && SentFrom(s.sender, data, Offset(k - 1)) && Holds(s.receiver, data[..Offset(k - 1)])
    && s.receiver.packetno == s.sender.packetno == Number(k)
    && s.toReceiver == multiset{} && s.toSender == multiset{ControlPacket(NAK)}
  }

  ghost predicate Taken(s: System, data: seq<Byte>, k: nat) {
    && 1 <= k <= SEQUENCE_NUMBERS && Offset(k - 1) <= |data| <= WRAP
    && SentFrom(s.sender, data, Offset(k - 1)) && Holds(s.receiver, data[..Upto(data, Offset(k - 1))])
    && s.sender.packetno == Number(k) && s.receiver.packetno == Number(k + 1)
    && s.toReceiver == multiset{} && s.toSender == multiset{ControlPacket(ACK)}
  }

  // The sender has ended, or a packet was lost and nothing moves any more.
  ghost predicate Over(s: System, data: seq<Byte>, j: nat) {
    && j <= |data| && Holds(s.receiver, data[..j]) && s.toSender == multiset{}
    && (|| s.toReceiver == multiset{}
        || s.toReceiver == multiset{ControlPacket(CAN)}
        || (s.toReceiver == multiset{ControlPacket(EOT)} && j == |data|))
  }

  ghost predicate Alone(s: System, data: seq<Byte>) {
    || (exists k: nat :: OnItsWay(s, data, k))
    || (exists k: nat :: Refused(s, data, k))
    || (exists k: nat :: Taken(s, data, k))
    || (exists j: nat :: Over(s, data, j))
  }

  lemma PacketTaken(s: System, t: System, data: seq<Byte>, k: nat)
    requires OnItsWay(s, data, k) && t.sender == s.sender
    requires Holds(t.receiver, data[..Offset(k - 1)] + data[Offset(k - 1)..Upto(data, Offset(k - 1))])
    requires t.receiver.packetno == Successor(s.receiver.packetno)
    requires t.toReceiver == multiset{} && t.toSender == multiset{ControlPacket(ACK)}
    ensures Taken(t, data, k)
  {
    var q := Offset(k - 1);
    assert data[..q] + data[q..Upto(data, q)] == data[..Upto(data, q)];
  }

  lemma PacketRefused(s: System, e: Event, data: seq<Byte>, k: nat)
    requires OnItsWay(s, data, k) && Enabled(s, e) && e.ToReceiver? && e.arrived != e.p
    ensures Refused(Next(s, e), data, k)
  {
    assert e.p == PacketAt(data, Offset(k - 1), Number(k));
    ReceiverRefuses(s.receiver, data[..Offset(k - 1)], e.arrived);
  }

  lemma PacketArrivesAlone(s: System, e: Event, data: seq<Byte>, k: nat)
    requires OnItsWay(s, data, k) && Enabled(s, e) && e.ToReceiver?
    ensures var t := Next(s, e); if e.arrived == e.p then Taken(t, data, k) else Refused(t, data, k)
  {
    if e.arrived == e.p {
      assert e.p == PacketAt(data, Offset(k - 1), s.sender.packetno);
      Delivered(s, data, Offset(k - 1), data[..Offset(k - 1)], multiset{});
      PacketTaken(s, Next(s, e), data, k);
    } else {
      PacketRefused(s, e, data, k);
    }
  }

  // A NAK brings back the refused chunk: the seek works below number 65536, and from there on there
  // is nothing left to read.
  lemma SenderRepeats(d: Device, data: seq<Byte>, k: nat)
    requires 1 <= k <= SEQUENCE_NUMBERS && Offset(k - 1) <= |data| <= WRAP
    requires SentFrom(d, data, Offset(k - 1)) && d.packetno == Number(k)
    ensures var (next, out) := Handle(d, ControlPacket(NAK), true);
            if d.retrans > 1 then
              && SentFrom(next, data, Offset(k - 1)) && next.packetno == Number(k)
              && out == Some(PacketAt(data, Offset(k - 1), Number(k)))
            else Idle(next) && out == Some(ControlPacket(CAN))
  {
    NakStep(d, data, Offset(k - 1), ControlPacket(NAK), true);
  }

  lemma RefusalArrives(s: System, data: seq<Byte>, k: nat)
    requires Refused(s, data, k)
    ensures var t := Next(s, ToSender(ControlPacket(NAK))); OnItsWay(t, data, k) || Over(t, data, Offset(k - 1))
  {
    SenderRepeats(s.sender, data, k);
  }

  lemma AcknowledgementArrives(s: System, data: seq<Byte>, k: nat)
    requires Taken(s, data, k)
    ensures var t := Next(s, ToSender(ControlPacket(ACK))); OnItsWay(t, data, k + 1) || Over(t, data, |data|)
  {
    var q := Offset(k - 1);
    SenderAcknowledged(s.sender, data, q);
    var (next, out) := Handle(s.sender, ControlPacket(ACK), true);
    var t := System(next, s.receiver, multiset{out.value}, multiset{});
    assert Next(s, ToSender(ControlPacket(ACK))) == t;
    if q + CHUNK <= |data| {
      NextOnItsWay(s, t, data, k);
    } else {
      assert data[..Upto(data, q)] == data[..|data|];
    }
  }

  lemma NextOnItsWay(s: System, t: System, data: seq<Byte>, k: nat)
    requires Taken(s, data, k) && Offset(k - 1) + CHUNK <= |data| && t.receiver == s.receiver
    requires SentFrom(t.sender, data, Offset(k - 1) + CHUNK) && t.sender.packetno == Successor(s.sender.packetno)
    requires t.toReceiver == multiset{PacketAt(data, Offset(k - 1) + CHUNK, t.sender.packetno)}
    requires t.toSender == multiset{}
    ensures OnItsWay(t, data, k + 1)
  {
    assert Offset(k - 1) + CHUNK == Offset(k) && k < SEQUENCE_NUMBERS;
  }

  predicate Loses(e: Event) {
    e.LoseToReceiver? || e.LoseToSender?
  }

  lemma LostPacket(s: System, e: Event, data: seq<Byte>, k: nat)
    requires OnItsWay(s, data, k) && Enabled(s, e) && Loses(e)
    ensures Over(Next(s, e), data, Offset(k - 1))
  {
  }

  lemma LostRefusal(s: System, e: Event, data: seq<Byte>, k: nat)
    requires Refused(s, data, k) && Enabled(s, e) && Loses(e)
    ensures Over(Next(s, e), data, Offset(k - 1))
  {
  }

  lemma LostAcknowledgement(s: System, e: Event, data: seq<Byte>, k: nat)
    requires Taken(s, data, k) && Enabled(s, e) && Loses(e)
    ensures Over(Next(s, e), data, Upto(data, Offset(k - 1)))
  {
  }

  lemma LostEnd(s: System, e: Event, data: seq<Byte>, j: nat)
    requires Over(s, data, j) && Enabled(s, e) && Loses(e)
    ensures Over(Next(s, e), data, j)
  {
  }

  lemma LostAlone(s: System, e: Event, data: seq<Byte>)
    requires Alone(s, data) && Enabled(s, e) && Loses(e)
    ensures Alone(Next(s, e), data)
  {
    if k: nat :| OnItsWay(s, data, k) {
      LostPacket(s, e, data, k);
    } else if k: nat :| Refused(s, data, k) {
      LostRefusal(s, e, data, k);
    } else if k: nat :| Taken(s, data, k) {
      LostAcknowledgement(s, e, data, k);
    } else {
      var j: nat :| Over(s, data, j);
      LostEnd(s, e, data, j);
    }
  }

  lemma DeliveredAlone(s: System, e: Event, data: seq<Byte>)
    requires Alone(s, data) && Enabled(s, e) && (e.ToReceiver? || e.ToSender?)
    ensures Next(s, e).receiver.isReceiving ==> Alone(Next(s, e), data)
    ensures e.ToReceiver? && e.arrived.control == EOT ==> WholeFile(Next(s, e), data)
  {
    if k: nat :| OnItsWay(s, data, k) {
      PacketArrivesAlone(s, e, data, k);
    } else if k: nat :| Refused(s, data, k) {
      RefusalArrives(s, data, k);
    } else if k: nat :| Taken(s, data, k) {
      AcknowledgementArrives(s, data, k);
    } else {
      var j: nat :| Over(s, data, j);
      EndArrives(s, e, data, j);
    }
  }

  lemma EndArrives(s: System, e: Event, data: seq<Byte>, j: nat)
    requires Over(s, data, j) && Enabled(s, e) && (e.ToReceiver? || e.ToSender?)
    ensures !Next(s, e).receiver.isReceiving
    ensures e.ToReceiver? && e.arrived.control == EOT ==> WholeFile(Next(s, e), data)
  {
    if e.p == ControlPacket(CAN) {
      CanEnds(s.receiver);
    } else {
      EotEnds(s.receiver, data, j);
    }
  }

  lemma CanEnds(d: Device)
    ensures !Handle(d, ControlPacket(CAN), true).0.isReceiving
  {
  }

  lemma EotEnds(d: Device, data: seq<Byte>, j: nat)
    requires j == |data| && Holds(d, data[..j])
    ensures var r := Handle(d, ControlPacket(EOT), true).0;
            !r.isReceiving && r.filename in r.fs && r.fs[r.filename] == data
  {
    assert data[..|data|] == data;
  }

  lemma {:induction false} AloneThroughout(states: seq<System>, events: seq<Event>, data: seq<Byte>, i: nat)
    requires Run(NoCopies, states, events) && Alone(states[0], data) && i < |states|
    ensures states[i].receiver.isReceiving ==> Alone(states[i], data)
    ensures FaithfulAt(states, events, data, i)
  {
    if i > 0 {
      AloneThroughout(states, events, data, i - 1);
      var s, e := states[i - 1], events[i - 1];
      assert Enabled(s, e) && Allows(NoCopies, e);
      if e.ToReceiver? || e.ToSender? {
        DeliveredAlone(s, e, data);
      } else {
        LostAlone(s, e, data);
      }
    }
    if states[i].receiver.isReceiving {
      AloneIsPrefix(states[i], data);
    }
  }

  lemma AloneHolds(s: System, data: seq<Byte>) returns (j: nat)
    requires Alone(s, data)
    ensures j <= |data| && Holds(s.receiver, data[..j])
  {
    if k: nat :| OnItsWay(s, data, k) {
      j := Offset(k - 1);
    } else if k: nat :| Refused(s, data, k) {
      j := Offset(k - 1);
    } else if k: nat :| Taken(s, data, k) {
      j := Upto(data, Offset(k - 1));
    } else {
      j :| Over(s, data, j);
    }
  }

  lemma AloneIsPrefix(s: System, data: seq<Byte>)
    requires Alone(s, data)
    ensures PrefixStored(s, data)
  {
    var j := AloneHolds(s, data);
    assert data[..j] <= data;
  }

  lemma AloneStart(sender: Device, stx: Packet, receiver: Device, soh: Packet, data: seq<Byte>)
    requires CanStart(sender, stx, receiver, soh, data) && |data| <= WRAP
    ensures Alone(Start(sender, stx, receiver, soh), data)
  {
    StartsInStep(sender, stx, receiver, soh, data);
    assert [] + data[0..0] == data[..0];
    assert OnItsWay(Start(sender, stx, receiver, soh), data, 1);
  }

  // ---- Clean channels ---------------------------------------------------------------------------

  // A packet is on its way and taken, then its acknowledgement, in the end the EOT.
  ghost predicate InOrder(s: System, data: seq<Byte>, q: nat) {
    q <= |data| && InStep(s, data, q, data[..q], multiset{})
  }

  ghost predicate Answered(s: System, data: seq<Byte>, q: nat) {
    && SentFrom(s.sender, data, q) && Holds(s.receiver, data[..Upto(data, q)])
    && s.receiver.packetno == Successor(s.sender.packetno)
    && s.toReceiver == multiset{} && s.toSender == multiset{ControlPacket(ACK)}
  }

  ghost predicate Finished(s: System, data: seq<Byte>) {
    EotSent(s, data, multiset{}) && s.toSender == multiset{}
  }

  ghost predicate Tidy(s: System, data: seq<Byte>) {
    || (exists q: nat :: InOrder(s, data, q))
    || (exists q: nat :: Answered(s, data, q))
    || Finished(s, data)
  }

  lemma OrderedPacket(s: System, e: Event, data: seq<Byte>, q: nat)
    requires InOrder(s, data, q) && Enabled(s, e) && Allows(Clean, e)
    ensures e.ToReceiver? && e.arrived.control == SOH && Answered(Next(s, e), data, q)
  {
    Delivered(s, data, q, data[..q], multiset{});
    assert data[..q] + data[q..Upto(data, q)] == data[..Upto(data, q)];
  }

  lemma OrderedAnswer(s: System, e: Event, data: seq<Byte>, q: nat)
    requires Answered(s, data, q) && Enabled(s, e) && Allows(Clean, e)
    ensures e.ToSender? && Tidy(Next(s, e), data)
  {
    var t, stored := Next(s, e), data[..Upto(data, q)];
    Acknowledged(s, data, q, stored, multiset{});
    if q + CHUNK <= |data| {
      assert InOrder(t, data, q + CHUNK);
    } else {
      assert stored == data;
    }
  }

  lemma OrderedEnd(s: System, e: Event, data: seq<Byte>)
    requires Finished(s, data) && Enabled(s, e) && Allows(Clean, e)
    ensures e.ToReceiver? && !Next(s, e).receiver.isReceiving && WholeFile(Next(s, e), data)
  {
    EotEnds(s.receiver, data, |data|);
  }

  lemma TidyStep(s: System, e: Event, data: seq<Byte>)
    requires Tidy(s, data) && Enabled(s, e) && Allows(Clean, e)
    ensures Next(s, e).receiver.isReceiving ==> Tidy(Next(s, e), data)
    ensures e.ToReceiver? && e.arrived.control == EOT ==> WholeFile(Next(s, e), data)
  {
    if q: nat :| InOrder(s, data, q) {
      OrderedPacket(s, e, data, q);
    } else if q: nat :| Answered(s, data, q) {
      OrderedAnswer(s, e, data, q);
    } else {
      OrderedEnd(s, e, data);
    }
  }

  lemma TidyIsPrefix(s: System, data: seq<Byte>)
    requires Tidy(s, data)
    ensures PrefixStored(s, data)
  {
  }

  lemma {:induction false} TidyThroughout(states: seq<System>, events: seq<Event>, data: seq<Byte>, i: nat)
    requires Run(Clean, states, events) && Tidy(states[0], data) && i < |states|
    ensures states[i].receiver.isReceiving ==> Tidy(states[i], data)
    ensures FaithfulAt(states, events, data, i)
  {
    if i > 0 {
      TidyThroughout(states, events, data, i - 1);
      assert Enabled(states[i - 1], events[i - 1]) && Allows(Clean, events[i - 1]);
      TidyStep(states[i - 1], events[i - 1], data);
    }
    if states[i].receiver.isReceiving {
      TidyIsPrefix(states[i], data);
    }
  }

  lemma TidyStart(sender: Device, stx: Packet, receiver: Device, soh: Packet, data: seq<Byte>)
    requires CanStart(sender, stx, receiver, soh, data)
    ensures Tidy(Start(sender, stx, receiver, soh), data)
  {
    StartsInStep(sender, stx, receiver, soh, data);
    assert [] + data[0..0] == data[..0];
    assert InOrder(Start(sender, stx, receiver, soh), data, 0);
  }

  lemma EndReached(start: System, t: System, data: seq<Byte>) returns (states: seq<System>, events: seq<Event>)
    requires Reachable(Clean, start, t) && EotSent(t, data, multiset{})
    ensures Run(Clean, states, events) && states[0] == start && |events| > 0 && events[|events| - 1] == EOT_ARRIVES
    ensures !states[|events|].receiver.isReceiving && WholeFile(states[|events|], data)
  {
    states, events := ReachedByRun(Clean, start, t);
    assert Enabled(t, EOT_ARRIVES) && Allows(Clean, EOT_ARRIVES);
    VisitsOneMore(Permitted(Clean), Next, states, events, EOT_ARRIVES);
    EotEnds(t.receiver, data, |data|);
    states, events := states + [Next(t, EOT_ARRIVES)], events + [EOT_ARRIVES];
    VisitedByRun(Clean, states, events);
  }

  // A file of any size can be transferred: some run over clean channels ends with an EOT that finds
  // it whole.
  lemma CleanTransferCompletes(sender: Device, stx: Packet, receiver: Device, soh: Packet, data: seq<Byte>)
    returns (states: seq<System>, events: seq<Event>)
    requires CanStart(sender, stx, receiver, soh, data)
    ensures Run(Clean, states, events) && states[0] == Start(sender, stx, receiver, soh)
    ensures |events| > 0 && events[|events| - 1] == EOT_ARRIVES
    ensures !states[|events|].receiver.isReceiving && WholeFile(states[|events|], data)
  {
    StartsInStep(sender, stx, receiver, soh, data);
    var t := AllOfIt(Clean, Start(sender, stx, receiver, soh), data, multiset{});
    states, events := EndReached(Start(sender, stx, receiver, soh), t, data);
  }

  // ---- The exact limits ---------------------------------------------------------------------------

  // The files each kind of channel carries faithfully in every run.
  predicate Carries(c: Channel, data: seq<Byte>) {
    match c
    case Copying => |data| <= CHUNK
    case SingleAcks => |data| < WRAP
    case NoCopies => |data| <= WRAP
    case Clean => true
  }

  lemma CarriedFaithfully(c: Channel, sender: Device, stx: Packet, receiver: Device, soh: Packet, data: seq<Byte>)
    requires CanStart(sender, stx, receiver, soh, data) && Carries(c, data)
    ensures AlwaysFaithful(c, Start(sender, stx, receiver, soh), data)
  {
    var start := Start(sender, stx, receiver, soh);
    forall states, events, i: nat | Run(c, states, events) && states[0] == start && i < |states|
      ensures FaithfulAt(states, events, data, i)
    {
      match c
      case Copying =>
        SmallStart(sender, stx, receiver, soh, data);
        SmallThroughout(states, events, data, i);
      case SingleAcks =>
        TransferIsFaithful(c, sender, stx, receiver, soh, data, states, events, i);
      case NoCopies =>
        AloneStart(sender, stx, receiver, soh, data);
        AloneThroughout(states, events, data, i);
      case Clean =>
        TidyStart(sender, stx, receiver, soh, data);
        TidyThroughout(states, events, data, i);
    }
  }

  // Every run is faithful if and only if the channel carries a file of this size.
  lemma FaithfulExactly(c: Channel, sender: Device, stx: Packet, receiver: Device, soh: Packet, data: seq<Byte>)
    requires CanStart(sender, stx, receiver, soh, data)
    ensures AlwaysFaithful(c, Start(sender, stx, receiver, soh), data) <==> Carries(c, data)
  {
    var start := Start(sender, stx, receiver, soh);
    if Carries(c, data) {
      CarriedFaithfully(c, sender, stx, receiver, soh, data);
    } else {
      StartsInStep(sender, stx, receiver, soh, data);
      if c == Copying {
        AcknowledgementsCopied(start, data);
      } else if |data| == WRAP {
        StaleChunkAppended(c, start, data);
      } else {
        ChunkSkipped(c, start, data);
      }
    }
  }
}
