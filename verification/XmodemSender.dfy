// The adapter as a sender, for files of any size: what each reply makes it send, up to which size
// its sessions end, and how often it sends a number.
module XmodemSender {
  import opened Basics
  import opened Crc
  import opened Xmodem

  const SEQUENCE_NUMBERS := 0x1_0000

  predicate Idle(d: Device) {
    !d.isReceiving && !d.isTransmitting
  }

  // CHUNK times k, with the constant written out for the solver.
  function Offset(k: int): int {
    128 * k
  }

  function Upto(data: seq<Byte>, q: nat): nat {
    if q + CHUNK <= |data| then q + CHUNK else |data|
  }

  // A read from here on comes back with less than a whole chunk.
  predicate Short(data: seq<Byte>, q: nat) {
    q + CHUNK > |data|
  }

  function PacketAt(data: seq<Byte>, q: nat, seqno: SeqNo): Packet
    requires q <= |data|
  {
    Packet(SOH, seqno, CrcOf(data[q..Upto(data, q)]), data[q..Upto(data, q)])
  }

  // The adapter is in the middle of sending data, and what it sent last starts at offset q.
  ghost predicate Serving(d: Device, data: seq<Byte>, q: nat) {
    && q <= |data| && d.isTransmitting && !d.isReceiving
    && (Short(data, q) ==> d.isEOT)
    && 1 <= d.retrans <= MAXRETRANS
    && d.file.Reader? && d.file.name in d.fs && d.fs[d.file.name] == data
    && d.file.pos == Upto(data, q)
  }

  function Successor(n: SeqNo): SeqNo {
    (n + 1) % SEQUENCE_NUMBERS
  }

  // Where a NAK makes the sender read on: the offset its number stands for, if the file has it.
  function Resumed(data: seq<Byte>, q: nat, n: SeqNo): nat {
    var target := (n - 1) * CHUNK;
    if 0 <= target <= |data| then target else Upto(data, q)
  }

  // An idle adapter, and a request for a file it has.
  ghost predicate CanServe(d: Device, stx: Packet, data: seq<Byte>) {
    && Idle(d) && !d.isEOT && 1 <= d.retrans <= MAXRETRANS
    && stx.control == STX && stx.seqno == 0
    && (var name := CopyName(d.filename, stx.buffer); name in d.fs && d.fs[name] == data)
  }

  // ---- One reply --------------------------------------------------------------------------------

  lemma SendsFrom(d: Device, data: seq<Byte>, q: nat)
    requires d.file.Reader? && d.file.name in d.fs && d.fs[d.file.name] == data
    requires d.file.pos == q <= |data|
    ensures var p := PacketAt(data, q, d.packetno);
            SendChunk(d) ==
            (d.(store := p, file := d.file.(pos := Upto(data, q)), isEOT := d.isEOT || Short(data, q)), Some(p))
  {
    assert ReadChunk(d.fs, d.file) == data[q..Upto(data, q)];
  }

  lemma StartSend(d: Device, stx: Packet, data: seq<Byte>)
    requires CanServe(d, stx, data)
    ensures var (next, out) := Handle(d, stx, true);
            && Serving(next, data, 0) && next.isEOT == Short(data, 0)
            && next.packetno == 1 && next.retrans == d.retrans
            && out == Some(PacketAt(data, 0, 1))
  {
    var name := CopyName(d.filename, stx.buffer);
    SendsFrom(d.(filename := name, file := Reader(name, 0), packetno := 1, isTransmitting := true), data, 0);
  }

  lemma AckStep(d: Device, data: seq<Byte>, q: nat, p: Packet, opens: bool)
    requires Serving(d, data, q) && p.control == ACK
    ensures var (next, out) := Handle(d, p, opens);
            if d.isEOT then Idle(next) && out == Some(ControlPacket(EOT))
            else
              && Serving(next, data, q + CHUNK) && next.isEOT == Short(data, q + CHUNK)
              && next.packetno == Successor(d.packetno) && next.retrans == MAXRETRANS
              && out == Some(PacketAt(data, q + CHUNK, next.packetno))
  {
    if !d.isEOT {
      SendsFrom(d.(retrans := MAXRETRANS, packetno := Successor(d.packetno)), data, q + CHUNK);
    }
  }

  lemma NakStep(d: Device, data: seq<Byte>, q: nat, p: Packet, opens: bool)
    requires Serving(d, data, q) && p.control == NAK
    ensures var (next, out) := Handle(d, p, opens);
            if d.retrans == 1 then Idle(next) && out == Some(ControlPacket(CAN))
            else
              var r := Resumed(data, q, d.packetno);
              && Serving(next, data, r) && next.isEOT == (d.isEOT || Short(data, r))
              && next.packetno == d.packetno && next.retrans == d.retrans - 1
              && out == Some(PacketAt(data, r, d.packetno))
  {
    if d.retrans > 1 {
      var back := Seek(d.fs, d.file, (d.packetno - 1) * CHUNK);
      SendsFrom(d.(retrans := d.retrans - 1, file := back), data, Resumed(data, q, d.packetno));
    }
  }

  // ---- Whole sessions ---------------------------------------------------------------------------

  predicate AcksAndNaks(replies: seq<Packet>) {
    forall i :: 0 <= i < |replies| ==> replies[i].control == ACK || replies[i].control == NAK
  }

  function Outputs(d: Device, replies: seq<Packet>): (outs: seq<Option<Packet>>)
    ensures |outs| == |replies|
    decreases |replies|
  {
    if replies == [] then [] else
    var (next, out) := Handle(d, replies[0], true);
    [out] + Outputs(next, replies[1..])
  }

  predicate EndsSession(out: Option<Packet>) {
    out.Some? && (out.value.control == EOT || out.value.control == CAN)
  }

  // Every full chunk is followed by another one, so the last chunk is always short.
  function ChunkCount(data: seq<Byte>): nat {
    |data| / CHUNK + 1
  }

  // The file has no more chunks than there are sequence numbers to count them by.
  predicate Numberable(data: seq<Byte>) {
    ChunkCount(data) < SEQUENCE_NUMBERS
  }

  // A piece of the file: of a numberable one, the chunk that its number stands for.
  ghost predicate IsChunk(out: Option<Packet>, data: seq<Byte>) {
    out.Some? && exists q: nat :: IsChunkAt(out.value, data, q)
  }

  ghost predicate IsChunkAt(p: Packet, data: seq<Byte>, q: nat) {
    q <= |data| && p == PacketAt(data, q, p.seqno) && (Numberable(data) ==> q == (p.seqno - 1) * CHUNK)
  }

  // The sender has seen k - 1 ACKs since the start.
  ghost predicate Phase(d: Device, data: seq<Byte>, k: nat, q: nat) {
    && Serving(d, data, q) && 1 <= k <= ChunkCount(data) && k <= SEQUENCE_NUMBERS + 1
    && d.packetno == k % SEQUENCE_NUMBERS
    && (d.isEOT || q >= (k - 1) * CHUNK)
    && (k < SEQUENCE_NUMBERS ==> q == (k - 1) * CHUNK)
  }

  function RepliesLeft(chunks: int, retrans: int): int {
    MAXRETRANS * chunks + retrans
  }

  // How many replies the session can still absorb.
  function Budget(d: Device, data: seq<Byte>, k: nat): int {
    RepliesLeft(ChunkCount(data) - k, d.retrans)
  }

  // The largest size at which chunk 65537, which has number 1 again, is the last one.
  const RESTART := (SEQUENCE_NUMBERS + 1) * CHUNK

  lemma PhaseAck(d: Device, data: seq<Byte>, k: nat, q: nat, next: Device)
    requires Phase(d, data, k, q) && !d.isEOT && |data| < RESTART
    requires Serving(next, data, q + CHUNK) && next.packetno == Successor(d.packetno)
    ensures Phase(next, data, k + 1, q + CHUNK)
  {
  }

  lemma PhaseNak(d: Device, data: seq<Byte>, k: nat, q: nat, next: Device)
    requires Phase(d, data, k, q) && |data| < RESTART
    requires Serving(next, data, Resumed(data, q, d.packetno)) && next.packetno == d.packetno
    requires d.isEOT ==> next.isEOT
    ensures Phase(next, data, k, Resumed(data, q, d.packetno))
  {
  }

  // One reply moves the session to the next chunk with a fresh budget, or costs one try.
  predicate Advances(k: nat, retrans: int, k': nat, retrans': int) {
    (k' == k + 1 && retrans' == MAXRETRANS) || (k' == k && retrans' == retrans - 1)
  }

  // What a sender in this phase has sent is a piece of the file.
  lemma PhaseSends(d: Device, data: seq<Byte>, k: nat, q: nat, out: Packet)
    requires Phase(d, data, k, q) && out == PacketAt(data, q, d.packetno)
    ensures IsChunk(Some(out), data)
  {
    assert Numberable(data) ==> k == d.packetno;
    assert IsChunkAt(out, data, q);
  }

  // One reply, seen from the budget: the session ends, or a piece goes out and the budget falls.
  ghost predicate Steps(data: seq<Byte>, k: nat, retrans: int, next: Device, out: Packet, k': nat, q': nat) {
    if EndsSession(Some(out)) then Idle(next)
    else
      && Phase(next, data, k', q') && IsChunk(Some(out), data) && Advances(k, retrans, k', next.retrans)
      && out.control == SOH && out.seqno == next.packetno
  }

  lemma PhaseOnAck(d: Device, data: seq<Byte>, k: nat, q: nat, p: Packet)
    returns (next: Device, out: Packet, k': nat, q': nat)
    requires Phase(d, data, k, q) && |data| < RESTART && p.control == ACK
    ensures Handle(d, p, true) == (next, Some(out)) && Steps(data, k, d.retrans, next, out, k', q')
  {
    AckStep(d, data, q, p, true);
    var step := Handle(d, p, true);
    next, out, k', q' := step.0, step.1.value, k + 1, q + CHUNK;
    if !d.isEOT {
      PhaseAck(d, data, k, q, next);
      PhaseSends(next, data, k', q', out);
    }
  }

  lemma PhaseOnNak(d: Device, data: seq<Byte>, k: nat, q: nat, p: Packet)
    returns (next: Device, out: Packet, k': nat, q': nat)
    requires Phase(d, data, k, q) && |data| < RESTART && p.control == NAK
    ensures Handle(d, p, true) == (next, Some(out)) && Steps(data, k, d.retrans, next, out, k', q')
  {
    NakStep(d, data, q, p, true);
    var step := Handle(d, p, true);
    next, out, k', q' := step.0, step.1.value, k, Resumed(data, q, d.packetno);
    if d.retrans > 1 {
      PhaseNak(d, data, k, q, next);
      PhaseSends(next, data, k', q', out);
    }
  }

  lemma PhaseStep(d: Device, data: seq<Byte>, k: nat, q: nat, p: Packet)
    returns (next: Device, out: Packet, k': nat, q': nat)
    requires Phase(d, data, k, q) && |data| < RESTART && (p.control == ACK || p.control == NAK)
    ensures Handle(d, p, true) == (next, Some(out)) && Steps(data, k, d.retrans, next, out, k', q')
  {
    if p.control == ACK {
      next, out, k', q' := PhaseOnAck(d, data, k, q, p);
    } else {
      next, out, k', q' := PhaseOnNak(d, data, k, q, p);
    }
  }

  lemma RepliesFall(chunks: int, retrans: int)
    requires chunks >= 0 && retrans >= 1
    ensures RepliesLeft(chunks, retrans) > 0
    ensures RepliesLeft(chunks - 1, MAXRETRANS) < RepliesLeft(chunks, retrans)
    ensures RepliesLeft(chunks, retrans - 1) < RepliesLeft(chunks, retrans)
  {
  }

  // The first n outputs are pieces of the file and the next one ends the session.
  ghost predicate EndsAt(outs: seq<Option<Packet>>, data: seq<Byte>, n: nat) {
    n < |outs| && EndsSession(outs[n]) && forall i :: 0 <= i < n ==> IsChunk(outs[i], data)
  }

  ghost predicate EndsBefore(outs: seq<Option<Packet>>, data: seq<Byte>, limit: int) {
    exists n: nat :: n < limit && EndsAt(outs, data, n)
  }

  lemma EndsLater(out: Option<Packet>, outs: seq<Option<Packet>>, data: seq<Byte>, n: nat)
    requires IsChunk(out, data) && EndsAt(outs, data, n)
    ensures EndsAt([out] + outs, data, n + 1)
  {
    var all := [out] + outs;
    forall i | 0 <= i < n + 1
      ensures IsChunk(all[i], data)
    {
      assert all[i] == if i == 0 then out else outs[i - 1];
    }
  }

  // Under any replies, the sender says EOT or CAN before its budget is spent, and sends only pieces
  // of the file until then.
  lemma {:induction false} EndsWithinBudget(d: Device, data: seq<Byte>, k: nat, q: nat, replies: seq<Packet>)
    returns (n: nat)
    requires Phase(d, data, k, q) && |data| < RESTART
    requires AcksAndNaks(replies) && |replies| >= Budget(d, data, k)
    ensures n < Budget(d, data, k) && EndsAt(Outputs(d, replies), data, n)
    decreases |replies|
  {
    RepliesFall(ChunkCount(data) - k, d.retrans);
    var next, out, k', q' := PhaseStep(d, data, k, q, replies[0]);
    if EndsSession(Some(out)) {
      n := 0;
    } else {
      var m := EndsWithinBudget(next, data, k', q', replies[1..]);
      EndsLater(Some(out), Outputs(next, replies[1..]), data, m);
      n := m + 1;
    }
  }

  // However the replies go, as many of them as the limit end the session.
  ghost predicate AlwaysEnds(d: Device, data: seq<Byte>, limit: int) {
    forall replies :: AcksAndNaks(replies) && |replies| >= limit ==> EndsBefore(Outputs(d, replies), data, limit)
  }

  lemma FirstPhase(d: Device, stx: Packet, data: seq<Byte>)
    requires CanServe(d, stx, data)
    ensures var first := Handle(d, stx, true).0;
            Phase(first, data, 1, 0) && Budget(first, data, 1) <= MAXRETRANS * ChunkCount(data)
  {
    StartSend(d, stx, data);
  }

  // A fresh session ends within MAXRETRANS replies per chunk.
  lemma SessionEnds(d: Device, stx: Packet, data: seq<Byte>)
    requires CanServe(d, stx, data) && |data| < RESTART
    ensures AlwaysEnds(Handle(d, stx, true).0, data, MAXRETRANS * ChunkCount(data))
  {
    var first, limit := Handle(d, stx, true).0, MAXRETRANS * ChunkCount(data);
    FirstPhase(d, stx, data);
    forall replies | AcksAndNaks(replies) && |replies| >= limit
      ensures EndsBefore(Outputs(first, replies), data, limit)
    {
      var n := EndsWithinBudget(first, data, 1, 0, replies);
    }
  }

  // ---- How often a number is sent ---------------------------------------------------------------

  predicate Sends(out: Option<Packet>, n: nat) {
    out.Some? && out.value.control == SOH && out.value.seqno == n
  }

  function TimesSent(outs: seq<Option<Packet>>, n: nat): nat {
    if outs == [] then 0 else (if Sends(outs[0], n) then 1 else 0) + TimesSent(outs[1..], n)
  }

  lemma {:induction false} IdleSendsNothing(d: Device, replies: seq<Packet>, n: nat)
    requires Idle(d) && AcksAndNaks(replies)
    ensures TimesSent(Outputs(d, replies), n) == 0
    decreases |replies|
  {
    if replies != [] {
      var (next, out) := Handle(d, replies[0], true);
      IdleSendsNothing(next, replies[1..], n);
      assert Outputs(d, replies)[1..] == Outputs(next, replies[1..]);
    }
  }

  // Below this size no two chunks go by the same number.
  const REUSE := SEQUENCE_NUMBERS * CHUNK

  // The chunk that goes by number n, if there are so many.
  function ChunkNumbered(n: nat): nat {
    if n == 0 then SEQUENCE_NUMBERS else n
  }

  // How often the number of chunk j can still be sent from chunk k on.
  function SendsLeft(j: nat, k: nat, retrans: int): int {
    if j < k then 0 else if j == k then retrans - 1 else MAXRETRANS
  }

  lemma SendsLeftFall(n: nat, k: nat, retrans: int, k': nat, retrans': int, seqno: nat)
    requires 1 <= k && 1 <= k' <= SEQUENCE_NUMBERS && Advances(k, retrans, k', retrans')
    requires 1 <= retrans <= MAXRETRANS && 1 <= retrans' && seqno == k' % SEQUENCE_NUMBERS
    ensures (if seqno == n then 1 else 0) + SendsLeft(ChunkNumbered(n), k', retrans')
            <= SendsLeft(ChunkNumbered(n), k, retrans)
  {
  }

  lemma SentFirst(out: Option<Packet>, rest: seq<Option<Packet>>, n: nat)
    ensures TimesSent([out] + rest, n) == (if Sends(out, n) then 1 else 0) + TimesSent(rest, n)
  {
    assert ([out] + rest)[1..] == rest;
  }

  lemma {:induction false} SentAtMost(d: Device, data: seq<Byte>, k: nat, q: nat, replies: seq<Packet>, n: nat)
    requires Phase(d, data, k, q) && |data| < REUSE && AcksAndNaks(replies)
    ensures TimesSent(Outputs(d, replies), n) <= SendsLeft(ChunkNumbered(n), k, d.retrans)
    decreases |replies|
  {
    if replies != [] {
      var next, out, k', q' := PhaseStep(d, data, k, q, replies[0]);
      var rest := Outputs(next, replies[1..]);
      SentFirst(Some(out), rest, n);
      if EndsSession(Some(out)) {
        IdleSendsNothing(next, replies[1..], n);
      } else {
        SentAtMost(next, data, k', q', replies[1..], n);
        SendsLeftFall(n, k, d.retrans, k', next.retrans, out.seqno);
      }
    }
  }

  // ---- Past those sizes -------------------------------------------------------------------------

  function Acks(k: nat): (replies: seq<Packet>)
    ensures |replies| == k && AcksAndNaks(replies)
  {
    seq(k, _ => ControlPacket(ACK))
  }

  function Naks(k: nat): (replies: seq<Packet>)
    ensures |replies| == k && AcksAndNaks(replies)
  {
    seq(k, _ => ControlPacket(NAK))
  }

  function After(d: Device, replies: seq<Packet>): Device
    decreases |replies|
  {
    if replies == [] then d else After(Handle(d, replies[0], true).0, replies[1..])
  }

  predicate GoesOn(outs: seq<Option<Packet>>) {
    forall i :: 0 <= i < |outs| ==> !EndsSession(outs[i])
  }

  lemma {:induction false} InTwoParts(d: Device, first: seq<Packet>, second: seq<Packet>)
    ensures Outputs(d, first + second) == Outputs(d, first) + Outputs(After(d, first), second)
    ensures After(d, first + second) == After(After(d, first), second)
    decreases |first|
  {
    if first == [] {
      assert first + second == second;
    } else {
      assert (first + second)[1..] == first[1..] + second;
      InTwoParts(Handle(d, first[0], true).0, first[1..], second);
    }
  }

  lemma {:induction false} SentInParts(a: seq<Option<Packet>>, b: seq<Option<Packet>>, n: nat)
    ensures TimesSent(a + b, n) == TimesSent(a, n) + TimesSent(b, n)
  {
    if a == [] {
      assert a + b == b;
    } else {
      assert (a + b)[1..] == a[1..] + b;
      SentInParts(a[1..], b, n);
    }
  }

  // A sender that has not come back from a later chunk, at number n.
  ghost predicate ServingAt(d: Device, data: seq<Byte>, q: nat, n: nat) {
    Serving(d, data, q) && d.isEOT == Short(data, q) && d.packetno == n
  }

  lemma OneAck(d: Device, data: seq<Byte>, q: nat, r: nat, n: nat, m: nat)
    requires ServingAt(d, data, q, n) && r == q + CHUNK <= |data| && m == Successor(n)
    ensures var e, outs := After(d, Acks(1)), Outputs(d, Acks(1));
            && ServingAt(e, data, r, m) && e.retrans == MAXRETRANS
            && |outs| == 1 && Sends(outs[0], m) && GoesOn(outs)
  {
    AckStep(d, data, q, ControlPacket(ACK), true);
    var step := Handle(d, ControlPacket(ACK), true);
    assert Acks(1)[1..] == [];
    assert Outputs(d, Acks(1)) == [step.1] + Outputs(step.0, []);
    assert After(d, Acks(1)) == After(step.0, []);
  }

  // The k-th number behind n.
  function NumberAfter(n: nat, k: nat): SeqNo {
    (n + k) % SEQUENCE_NUMBERS
  }

  lemma NextNumber(n: nat, k: nat)
    ensures Successor(NumberAfter(n, k)) == NumberAfter(n, k + 1)
  {
  }

  lemma BothGoOn(a: seq<Option<Packet>>, b: seq<Option<Packet>>, n: nat)
    requires GoesOn(a) && GoesOn(b)
    ensures GoesOn(a + b) && (|b| > 0 && Sends(b[0], n) ==> Sends((a + b)[|a|], n))
  {
  }

  // After k ACKs the sender is at offset r and number n, which it has just sent.
  ghost predicate Moved(e: Device, outs: seq<Option<Packet>>, data: seq<Byte>, r: nat, n: nat, k: nat) {
    && ServingAt(e, data, r, n) && GoesOn(outs) && |outs| == k
    && (k > 0 ==> e.retrans == MAXRETRANS && Sends(outs[k - 1], n))
  }

  lemma MovesOneMore(d: Device, data: seq<Byte>, k: nat, r: nat, n: nat, r': nat, n': nat)
    requires Moved(After(d, Acks(k)), Outputs(d, Acks(k)), data, r, n, k)
    requires r' == r + CHUNK <= |data| && n' == Successor(n)
    ensures Moved(After(d, Acks(k + 1)), Outputs(d, Acks(k + 1)), data, r', n', k + 1)
  {
    var e := After(d, Acks(k));
    OneAck(e, data, r, r', n, n');
    assert Acks(k + 1) == Acks(k) + Acks(1);
    InTwoParts(d, Acks(k), Acks(1));
    BothGoOn(Outputs(d, Acks(k)), Outputs(e, Acks(1)), n');
  }

  lemma NotMoved(d: Device, data: seq<Byte>, q: nat, n: nat)
    requires ServingAt(d, data, q, n)
    ensures Moved(After(d, Acks(0)), Outputs(d, Acks(0)), data, q, n, 0)
  {
  }

  // ACKs lead through the file, number by number.
  lemma {:induction false} AcksMoveOn(d: Device, data: seq<Byte>, q: nat, k: nat, n: nat, r: nat)
    requires ServingAt(d, data, q, n) && r == q + Offset(k) <= |data|
    ensures Moved(After(d, Acks(k)), Outputs(d, Acks(k)), data, r, NumberAfter(n, k), k)
    decreases k
  {
    if k == 0 {
      NotMoved(d, data, q, n);
    } else {
      var j, before := k - 1, q + Offset(k - 1);
      AcksMoveOn(d, data, q, j, n, before);
      NextNumber(n, j);
      MovesOneMore(d, data, j, before, NumberAfter(n, j), r, NumberAfter(n, j + 1));
    }
  }

  // A sender at number 1 answers NAKs with the first chunk, wherever it is.
  lemma {:induction false} NaksRestart(d: Device, data: seq<Byte>, q: nat, k: nat)
    requires Serving(d, data, q) && d.packetno == 1 && k < d.retrans
    ensures TimesSent(Outputs(d, Naks(k)), 1) == k
    decreases k
  {
    if k > 0 {
      NakStep(d, data, q, ControlPacket(NAK), true);
      var step := Handle(d, ControlPacket(NAK), true);
      NaksRestart(step.0, data, 0, k - 1);
      assert Naks(k)[1..] == Naks(k - 1);
      SentFirst(step.1, Outputs(step.0, Naks(k - 1)), 1);
    }
  }

  lemma OneNak(d: Device, data: seq<Byte>, q: nat)
    requires ServingAt(d, data, q, 1) && d.retrans == MAXRETRANS && !Short(data, q) && !Short(data, 0)
    ensures ServingAt(After(d, Naks(1)), data, 0, 1) && GoesOn(Outputs(d, Naks(1)))
  {
    NakStep(d, data, q, ControlPacket(NAK), true);
    var step := Handle(d, ControlPacket(NAK), true);
    assert Naks(1)[1..] == [];
    assert Outputs(d, Naks(1)) == [step.1] + Outputs(step.0, []);
    assert After(d, Naks(1)) == After(step.0, []);
  }

  // Number 1 comes again behind 65536 chunks, and one NAK there takes the sender back to the start
  // of the file.
  lemma Round(d: Device, data: seq<Byte>, k: nat)
    requires ServingAt(d, data, 0, 1) && k == SEQUENCE_NUMBERS && |data| >= RESTART
    ensures var round := Acks(k) + Naks(1);
            ServingAt(After(d, round), data, 0, 1) && GoesOn(Outputs(d, round)) && |round| > 0
  {
    AcksMoveOn(d, data, 0, k, 1, Offset(k));
    OneNak(After(d, Acks(k)), data, Offset(k));
    InTwoParts(d, Acks(k), Naks(1));
  }

  lemma {:induction false} ManyRounds(d: Device, data: seq<Byte>, m: nat) returns (replies: seq<Packet>)
    requires ServingAt(d, data, 0, 1) && |data| >= RESTART
    ensures AcksAndNaks(replies) && |replies| >= m && GoesOn(Outputs(d, replies))
    decreases m
  {
    if m == 0 {
      replies := [];
    } else {
      var k: nat := SEQUENCE_NUMBERS;
      var round := Acks(k) + Naks(1);
      Round(d, data, k);
      var rest := ManyRounds(After(d, round), data, m - 1);
      replies := round + rest;
      InTwoParts(d, round, rest);
      BothGoOn(Outputs(d, round), Outputs(After(d, round), rest), 0);
    }
  }

  // From there on no number of replies is sure to end the session.
  lemma SessionNeverEnds(d: Device, stx: Packet, data: seq<Byte>, limit: int)
    requires CanServe(d, stx, data) && |data| >= RESTART
    ensures !AlwaysEnds(Handle(d, stx, true).0, data, limit)
  {
    var first := Handle(d, stx, true).0;
    StartSend(d, stx, data);
    var replies := ManyRounds(first, data, if limit > 0 then limit else 0);
    assert GoesOn(Outputs(first, replies));
  }

  // Every session of the file ends within MAXRETRANS replies per chunk, and within any other number
  // of them, if and only if chunk 65537 is not a full one.
  lemma SessionEndsExactly(d: Device, stx: Packet, data: seq<Byte>)
    requires CanServe(d, stx, data)
    ensures AlwaysEnds(Handle(d, stx, true).0, data, MAXRETRANS * ChunkCount(data)) <==> |data| < RESTART
    ensures (exists limit :: AlwaysEnds(Handle(d, stx, true).0, data, limit)) <==> |data| < RESTART
  {
    if |data| < RESTART {
      SessionEnds(d, stx, data);
    } else {
      forall limit
        ensures !AlwaysEnds(Handle(d, stx, true).0, data, limit)
      {
        SessionNeverEnds(d, stx, data, limit);
      }
    }
  }

  // No number goes out more than MAXRETRANS times, the packet that answers the request included.
  ghost predicate NoneTooOften(first: Device, out: Option<Packet>) {
    forall replies, n: nat :: AcksAndNaks(replies) ==> TimesSent([out] + Outputs(first, replies), n) <= MAXRETRANS
  }

  lemma EachSentAtMost(d: Device, stx: Packet, data: seq<Byte>, replies: seq<Packet>, n: nat)
    requires CanServe(d, stx, data) && |data| < REUSE && AcksAndNaks(replies)
    ensures var (first, out) := Handle(d, stx, true); TimesSent([out] + Outputs(first, replies), n) <= MAXRETRANS
  {
    StartSend(d, stx, data);
    FirstPhase(d, stx, data);
    var (first, out) := Handle(d, stx, true);
    SentAtMost(first, data, 1, 0, replies, n);
    SentFirst(out, Outputs(first, replies), n);
  }

  lemma {:induction false} SentOnce(outs: seq<Option<Packet>>, i: nat, n: nat)
    requires i < |outs| && Sends(outs[i], n)
    ensures TimesSent(outs, n) >= 1
  {
    if i > 0 {
      SentOnce(outs[1..], i - 1, n);
    }
  }

  lemma NumberOneAgain(first: Device, data: seq<Byte>, k: nat)
    requires ServingAt(first, data, 0, 1) && |data| >= REUSE && k == SEQUENCE_NUMBERS
    ensures TimesSent(Outputs(first, Acks(k)), 1) >= 1
    ensures TimesSent(Outputs(After(first, Acks(k)), Naks(MAXRETRANS - 1)), 1) == MAXRETRANS - 1
  {
    AcksMoveOn(first, data, 0, k, 1, Offset(k));
    NaksRestart(After(first, Acks(k)), data, Offset(k), MAXRETRANS - 1);
    SentOnce(Outputs(first, Acks(k)), k - 1, 1);
  }

  // With 65536 full chunks number 1 is sent again, and as often as it is refused.
  lemma FirstNumberSentAgain(d: Device, stx: Packet, data: seq<Byte>, k: nat)
    requires CanServe(d, stx, data) && |data| >= REUSE && k == SEQUENCE_NUMBERS
    ensures var (first, out) := Handle(d, stx, true);
            TimesSent([out] + Outputs(first, Acks(k) + Naks(MAXRETRANS - 1)), 1) > MAXRETRANS
  {
    StartSend(d, stx, data);
    var (first, out) := Handle(d, stx, true);
    NumberOneAgain(first, data, k);
    var a, b := Outputs(first, Acks(k)), Outputs(After(first, Acks(k)), Naks(MAXRETRANS - 1));
    InTwoParts(first, Acks(k), Naks(MAXRETRANS - 1));
    SentInParts(a, b, 1);
    SentFirst(out, a + b, 1);
  }

  // The budget holds for every number if and only if no two chunks share one.
  lemma SentAtMostExactly(d: Device, stx: Packet, data: seq<Byte>)
    requires CanServe(d, stx, data)
    ensures var (first, out) := Handle(d, stx, true); NoneTooOften(first, out) <==> |data| < REUSE
  {
    var (first, out) := Handle(d, stx, true);
    if |data| < REUSE {
      forall replies, n: nat | AcksAndNaks(replies)
        ensures TimesSent([out] + Outputs(first, replies), n) <= MAXRETRANS
      {
        EachSentAtMost(d, stx, data, replies, n);
      }
    } else {
      var k: nat := SEQUENCE_NUMBERS;
      FirstNumberSentAgain(d, stx, data, k);
      assert AcksAndNaks(Acks(k) + Naks(MAXRETRANS - 1));
    }
  }
}
