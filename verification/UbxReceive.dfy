// The u-blox receive loops: waiting for a payload, and waiting for an acknowledgement.
module UbxReceive {
  import opened Basics
  import opened Ubx

  // ---- What arrives -----------------------------------------------------------------------------

  // One turn of a polling loop: a byte, or nothing available. For the reads of several bytes at
  // once, nothing means for as long as the read waits.
  datatype Poll = Nothing | Got(b: byte)

  function Read(polls: seq<Poll>): Bytes {
    if polls == [] then [] else
    Read(polls[..|polls| - 1]) + if polls[|polls| - 1].Got? then [polls[|polls| - 1].b] else []
  }

  lemma {:induction false} ReadAppend(s: seq<Poll>, t: seq<Poll>)
    ensures Read(s + t) == Read(s) + Read(t)
  {
    if t == [] {
      assert s + t == s;
    } else {
      assert (s + t)[..|s + t| - 1] == s + t[..|t| - 1];
      ReadAppend(s, t[..|t| - 1]);
    }
  }

  lemma ReadFirst(polls: seq<Poll>, n: nat)
    requires 0 < n <= |polls|
    ensures Read(polls[..n]) == (if polls[0].Got? then [polls[0].b] else []) + Read(polls[1..][..n - 1])
    ensures polls[1..][..n - 1] == polls[1..n]
  {
    assert polls[..n] == [polls[0]] + polls[1..n];
    assert polls[1..][..n - 1] == polls[1..n];
    assert [polls[0]][..0] == [];
    ReadAppend([polls[0]], polls[1..n]);
  }

  // ---- getACK(buffer, size, class, id): wait for a message, return its payload --------------

  datatype Outcome = Timeout | Payload(bytes: Bytes)

  datatype Matcher = Matcher(frame: nat, needRead: nat)

  const CLEAN := Matcher(0, 0)

  // One byte of the header, frame being how many were matched before it. After a mismatch the
  // matcher starts over with the next byte, never with the one that did not match.
  function MatchByte(m: Matcher, c: byte, cls: byte, id: byte): Matcher {
    if m.frame == 0 then m.(frame := if c == 0xB5 then 1 else 0)
    else if m.frame == 1 then m.(frame := if c == 0x62 then 2 else 0)
    else if m.frame == 2 then m.(frame := if c == cls then 3 else 0)
    else if m.frame == 3 then m.(frame := if c == id then 4 else 0)
    else if m.frame == 4 then Matcher(5, c)
    else Matcher(6, m.needRead + 256 * c as int)
  }

  // How many bytes a read of n gets: it gives up when nothing comes.
  function Burst(polls: seq<Poll>, n: nat): (taken: nat)
    ensures taken <= n && taken <= |polls|
  {
    if n == 0 || polls == [] || polls[0].Nothing? then 0 else 1 + Burst(polls[1..], n - 1)
  }

  // What arrives before the deadline, matched byte by byte. Once a header is complete its payload
  // is read in one go, unless it would not fit the buffer; a short read starts the search again.
  function Receive(m: Matcher, polls: seq<Poll>, size: nat, cls: byte, id: byte): Outcome
    decreases |polls|
  {
    if polls == [] then Timeout
    else if polls[0].Nothing? then Receive(m, polls[1..], size, cls, id)
    else
      var next, rest := MatchByte(m, polls[0].b, cls, id), polls[1..];
      if next.frame < 6 then Receive(next, rest, size, cls, id)
      else if next.needRead >= size then Receive(next.(frame := 0), rest, size, cls, id)
      else
        var taken := Burst(rest, next.needRead);
        if taken == next.needRead then Payload(Read(rest[..taken]))
        else Receive(next.(frame := 0), rest[taken..], size, cls, id)
  }

  // Where the matcher stands after some polls, none if they end in the middle of a payload or
  // with one.
  function After(m: Matcher, polls: seq<Poll>, size: nat, cls: byte, id: byte): seq<Matcher>
    decreases |polls|
  {
    if polls == [] then [m]
    else if polls[0].Nothing? then After(m, polls[1..], size, cls, id)
    else
      var next, rest := MatchByte(m, polls[0].b, cls, id), polls[1..];
      if next.frame < 6 then After(next, rest, size, cls, id)
      else if next.needRead >= size then After(next.(frame := 0), rest, size, cls, id)
      else
        var taken := Burst(rest, next.needRead);
        if taken == next.needRead || taken == |rest| then []
        else After(next.(frame := 0), rest[taken..], size, cls, id)
  }

  lemma {:induction false} BurstAppend(g: seq<Poll>, polls: seq<Poll>, n: nat)
    requires Burst(g, n) < |g|
    ensures Burst(g + polls, n) == Burst(g, n)
  {
    if n > 0 && g[0].Got? {
      assert (g + polls)[1..] == g[1..] + polls;
      BurstAppend(g[1..], polls, n - 1);
    }
  }

  lemma {:induction false} ReceiveAppend(m: Matcher, g: seq<Poll>, polls: seq<Poll>, size: nat, cls: byte, id: byte)
    requires After(m, g, size, cls, id) != []
    ensures Receive(m, g + polls, size, cls, id) == Receive(After(m, g, size, cls, id)[0], polls, size, cls, id)
    decreases |g|
  {
    if g == [] {
      assert g + polls == polls;
    } else {
      assert (g + polls)[1..] == g[1..] + polls;
      if g[0].Nothing? {
        ReceiveAppend(m, g[1..], polls, size, cls, id);
      } else {
        var next := MatchByte(m, g[0].b, cls, id);
        if next.frame < 6 {
          ReceiveAppend(next, g[1..], polls, size, cls, id);
        } else if next.needRead >= size {
          ReceiveAppend(next.(frame := 0), g[1..], polls, size, cls, id);
        } else {
          var taken := Burst(g[1..], next.needRead);
          BurstAppend(g[1..], polls, next.needRead);
          assert (g[1..] + polls)[taken..] == g[1..][taken..] + polls;
          ReceiveAppend(next.(frame := 0), g[1..][taken..], polls, size, cls, id);
        }
      }
    }
  }

  // Bytes that arrive without a pause.
  function Sent(bytes: Bytes): (polls: seq<Poll>)
    ensures |polls| == |bytes|
  {
    seq(|bytes|, i requires 0 <= i < |bytes| => Got(bytes[i]))
  }

  lemma SentAppend(a: Bytes, b: Bytes)
    ensures Sent(a + b) == Sent(a) + Sent(b)
  {
  }

  lemma {:induction false} ReadSent(bytes: Bytes)
    ensures Read(Sent(bytes)) == bytes
  {
    if bytes != [] {
      var n := |bytes| - 1;
      assert Sent(bytes)[..n] == Sent(bytes[..n]);
      ReadSent(bytes[..n]);
    }
  }

  lemma {:induction false} BurstOfSent(bytes: Bytes, polls: seq<Poll>)
    ensures Burst(Sent(bytes) + polls, |bytes|) == |bytes|
  {
    if bytes != [] {
      assert (Sent(bytes) + polls)[1..] == Sent(bytes[1..]) + polls;
      BurstOfSent(bytes[1..], polls);
    }
  }

  lemma ReceiveByte(m: Matcher, c: byte, rest: seq<Poll>, size: nat, cls: byte, id: byte)
    requires MatchByte(m, c, cls, id).frame < 6
    ensures Receive(m, [Got(c)] + rest, size, cls, id) == Receive(MatchByte(m, c, cls, id), rest, size, cls, id)
  {
    assert ([Got(c)] + rest)[1..] == rest;
  }

  lemma ReceiveLength(n: nat, rest: seq<Poll>, size: nat, cls: byte, id: byte)
    requires n < 0x1_0000 && n < size && Burst(rest, n) == n
    ensures Receive(Matcher(5, n % 256), [Got(n / 256)] + rest, size, cls, id) == Payload(Read(rest[..n]))
  {
    assert MatchByte(Matcher(5, n % 256), n / 256, cls, id) == Matcher(6, n);
    assert ([Got(n / 256)] + rest)[1..] == rest;
  }

  lemma HeaderMatches(m: Matcher, n: nat, rest: seq<Poll>, size: nat, cls: byte, id: byte)
    requires m.frame == 0 && n < 0x1_0000 && n < size && Burst(rest, n) == n
    ensures Receive(m, Sent(Header(cls, id, n)) + rest, size, cls, id) == Payload(Read(rest[..n]))
  {
    var s5 := [Got(n / 256)] + rest;
    var s4 := [Got(n % 256)] + s5;
    var s3 := [Got(id)] + s4;
    var s2 := [Got(cls)] + s3;
    var s1 := [Got(0x62)] + s2;
    assert Sent(Header(cls, id, n)) + rest == [Got(0xB5)] + s1;
    ReceiveByte(m, 0xB5, s1, size, cls, id);
    ReceiveByte(m.(frame := 1), 0x62, s2, size, cls, id);
    ReceiveByte(m.(frame := 2), cls, s3, size, cls, id);
    ReceiveByte(m.(frame := 3), id, s4, size, cls, id);
    ReceiveByte(m.(frame := 4), n % 256, s5, size, cls, id);
    ReceiveLength(n, rest, size, cls, id);
  }

  // Round trip: what the packet builder frames, the receive loop gives back, after anything that
  // leaves the matcher waiting for a header, whatever follows.
  lemma FrameRoundTrip(g: seq<Poll>, cls: byte, id: byte, payload: Bytes, tail: seq<Poll>, size: nat)
    requires |payload| < 0x1_0000 && |payload| < size
    requires After(CLEAN, g, size, cls, id) != [] && After(CLEAN, g, size, cls, id)[0].frame == 0
    ensures Receive(CLEAN, g + Sent(Frame(cls, id, payload)) + tail, size, cls, id) == Payload(payload)
  {
    var frame, n := Frame(cls, id, payload), |payload|;
    var check := Sent(frame[n + 6..]) + tail;
    var rest := Sent(payload) + check;
    FrameInParts(cls, id, payload);
    assert g + Sent(frame) + tail == g + (Sent(Header(cls, id, n)) + rest);
    ReceiveAppend(CLEAN, g, Sent(Header(cls, id, n)) + rest, size, cls, id);
    BurstOfSent(payload, check);
    HeaderMatches(After(CLEAN, g, size, cls, id)[0], n, rest, size, cls, id);
    assert rest[..n] == Sent(payload);
    ReadSent(payload);
  }

  lemma FrameInParts(cls: byte, id: byte, payload: Bytes)
    requires |payload| < 0x1_0000
    ensures |Frame(cls, id, payload)| == |payload| + 8
    ensures Sent(Frame(cls, id, payload)) ==
            Sent(Header(cls, id, |payload|)) + (Sent(payload) + Sent(Frame(cls, id, payload)[|payload| + 6..]))
  {
    var frame, n := Frame(cls, id, payload), |payload|;
    assert frame == Header(cls, id, n) + (payload + frame[n + 6..]);
    SentAppend(Header(cls, id, n), payload + frame[n + 6..]);
    SentAppend(payload, frame[n + 6..]);
  }

  lemma {:induction false} NoiseLeavesClean(g: seq<Poll>, size: nat, cls: byte, id: byte)
    requires Got(0xB5) !in g
    ensures After(CLEAN, g, size, cls, id) == [CLEAN]
    decreases |g|
  {
    if g != [] {
      NoiseLeavesClean(g[1..], size, cls, id);
    }
  }

  // In particular after any bytes and pauses without a 0xB5 among them.
  lemma FrameAfterNoise(g: seq<Poll>, cls: byte, id: byte, payload: Bytes, tail: seq<Poll>, size: nat)
    requires |payload| < 0x1_0000 && |payload| < size
    requires Got(0xB5) !in g
    ensures Receive(CLEAN, g + Sent(Frame(cls, id, payload)) + tail, size, cls, id) == Payload(payload)
  {
    NoiseLeavesClean(g, size, cls, id);
    FrameRoundTrip(g, cls, id, payload, tail, size);
  }

  // A frame that breaks off inside its payload is given up, and when it comes again after the
  // pause it is received.
  lemma BrokenFrameIsRepeated(cls: byte, id: byte, payload: Bytes, k: nat, tail: seq<Poll>, size: nat)
    requires k < |payload| < 0x1_0000 && |payload| < size
    ensures Receive(CLEAN, Sent(Header(cls, id, |payload|) + payload[..k]) + [Nothing] +
                    Sent(Frame(cls, id, payload)) + tail, size, cls, id) == Payload(payload)
  {
    var n, broken := |payload|, Sent(payload[..k]) + [Nothing];
    var g := Sent(Header(cls, id, n)) + broken;
    SentAppend(Header(cls, id, n), payload[..k]);
    assert Sent(Header(cls, id, n) + payload[..k]) + [Nothing] == g;
    BrokenOff(payload[..k], n);
    AfterHeader(n, broken, k, size, cls, id);
    FrameRoundTrip(g, cls, id, payload, tail, size);
  }

  lemma {:induction false} BrokenOff(part: Bytes, n: nat)
    requires |part| < n
    ensures Burst(Sent(part) + [Nothing], n) == |part|
  {
    if part != [] {
      assert (Sent(part) + [Nothing])[1..] == Sent(part[1..]) + [Nothing];
      BrokenOff(part[1..], n - 1);
    }
  }

  lemma AfterByte(m: Matcher, c: byte, rest: seq<Poll>, size: nat, cls: byte, id: byte)
    requires MatchByte(m, c, cls, id).frame < 6
    ensures After(m, [Got(c)] + rest, size, cls, id) == After(MatchByte(m, c, cls, id), rest, size, cls, id)
  {
    assert ([Got(c)] + rest)[1..] == rest;
  }

  lemma AfterLength(n: nat, broken: seq<Poll>, k: nat, size: nat, cls: byte, id: byte)
    requires k < n < 0x1_0000 && n < size && |broken| == k + 1 && broken[k] == Nothing && Burst(broken, n) == k
    ensures After(Matcher(5, n % 256), [Got(n / 256)] + broken, size, cls, id) == [Matcher(0, n)]
  {
    assert MatchByte(Matcher(5, n % 256), n / 256, cls, id) == Matcher(6, n);
    assert ([Got(n / 256)] + broken)[1..] == broken;
    assert broken[k..] == [Nothing] && [Nothing][1..] == [];
    assert After(Matcher(0, n), [Nothing], size, cls, id) == [Matcher(0, n)];
  }

  lemma AfterHeader(n: nat, broken: seq<Poll>, k: nat, size: nat, cls: byte, id: byte)
    requires k < n < 0x1_0000 && n < size && |broken| == k + 1 && broken[k] == Nothing && Burst(broken, n) == k
    ensures After(CLEAN, Sent(Header(cls, id, n)) + broken, size, cls, id) == [Matcher(0, n)]
  {
    var s5 := [Got(n / 256)] + broken;
    var s4 := [Got(n % 256)] + s5;
    var s3 := [Got(id)] + s4;
    var s2 := [Got(cls)] + s3;
    var s1 := [Got(0x62)] + s2;
    assert Sent(Header(cls, id, n)) + broken == [Got(0xB5)] + s1;
    AfterByte(CLEAN, 0xB5, s1, size, cls, id);
    AfterByte(Matcher(1, 0), 0x62, s2, size, cls, id);
    AfterByte(Matcher(2, 0), cls, s3, size, cls, id);
    AfterByte(Matcher(3, 0), id, s4, size, cls, id);
    AfterByte(Matcher(4, 0), n % 256, s5, size, cls, id);
    AfterLength(n, broken, k, size, cls, id);
  }

  lemma {:induction false} NoHeaderNoPayload(m: Matcher, polls: seq<Poll>, size: nat, cls: byte, id: byte)
    requires m.frame == 0 && Got(0xB5) !in polls
    ensures Receive(m, polls, size, cls, id) == Timeout
    decreases |polls|
  {
    if polls != [] {
      NoHeaderNoPayload(m, polls[1..], size, cls, id);
    }
  }

  lemma {:induction false} AfterMatchesLess(m: Matcher, g: seq<Poll>, size: nat, cls: byte, id: byte)
    requires m.frame < 6 && After(m, g, size, cls, id) != []
    ensures After(m, g, size, cls, id)[0].frame < 6
    decreases |g|
  {
    if g != [] {
      if g[0].Nothing? {
        AfterMatchesLess(m, g[1..], size, cls, id);
      } else {
        var next := MatchByte(m, g[0].b, cls, id);
        if next.frame < 6 {
          AfterMatchesLess(next, g[1..], size, cls, id);
        } else if next.needRead >= size {
          AfterMatchesLess(next.(frame := 0), g[1..], size, cls, id);
        } else {
          AfterMatchesLess(next.(frame := 0), g[1..][Burst(g[1..], next.needRead)..], size, cls, id);
        }
      }
    }
  }

  // Reading 0xB5 in the middle of a header takes the matcher back to the start, at once or, where a
  // length is due, with the next byte.
  lemma HeaderByteIsLost(m: Matcher, frame: Bytes, size: nat, cls: byte, id: byte)
    requires 0 < m.frame < 6 && size <= 0x62B5 && cls != 0xB5 && id != 0xB5
    requires |frame| >= 2 && frame[0] == 0xB5 && frame[1] == 0x62 && 0xB5 !in frame[1..]
    ensures Receive(m, Sent(frame), size, cls, id) == Timeout
  {
    var s := Sent(frame);
    var next := MatchByte(m, 0xB5, cls, id);
    if m.frame == 4 {
      assert MatchByte(next, 0x62, cls, id) == Matcher(6, 0x62B5);
      assert s[1..][1..] == Sent(frame[1..][1..]);
      NoHeaderNoPayload(Matcher(0, 0x62B5), s[1..][1..], size, cls, id);
    } else {
      assert s[1..] == Sent(frame[1..]);
      NoHeaderNoPayload(next.(frame := 0), s[1..], size, cls, id);
    }
  }

  // A frame that comes last, with no second 0xB5 in it, is received if and only if the matcher then
  // stands at the start.
  lemma FrameReceivedExactly(g: seq<Poll>, cls: byte, id: byte, payload: Bytes, size: nat)
    requires |payload| < 0x1_0000 && |payload| < size <= 0x62B5
    requires 0xB5 !in Frame(cls, id, payload)[1..]
    requires After(CLEAN, g, size, cls, id) != []
    ensures Receive(CLEAN, g + Sent(Frame(cls, id, payload)), size, cls, id) == Payload(payload) <==>
            After(CLEAN, g, size, cls, id)[0].frame == 0
  {
    var frame, m := Frame(cls, id, payload), After(CLEAN, g, size, cls, id)[0];
    if m.frame == 0 {
      FrameRoundTrip(g, cls, id, payload, [], size);
      assert g + Sent(frame) + [] == g + Sent(frame);
    } else {
      AfterMatchesLess(CLEAN, g, size, cls, id);
      ReceiveAppend(CLEAN, g, Sent(frame), size, cls, id);
      assert frame[1..][1] == cls && frame[1..][2] == id;
      HeaderByteIsLost(m, frame, size, cls, id);
    }
  }

  // A stray 0xB5 right before a frame makes the loop miss it: the second 0xB5 is dropped as a
  // mismatch instead of being taken as a new start.
  lemma StrayHeaderByteLosesFrame(cls: byte, id: byte, payload: Bytes, size: nat)
    requires |payload| < 0x1_0000 && |payload| < size
    requires 0xB5 !in Frame(cls, id, payload)[1..]
    ensures Receive(CLEAN, Sent([0xB5] + Frame(cls, id, payload)), size, cls, id) == Timeout
  {
    var frame := Frame(cls, id, payload);
    var s := Sent([0xB5] + frame);
    assert s[1..] == Sent(frame) && s[1..][1..] == Sent(frame[1..]);
    assert MatchByte(CLEAN, s[0].b, cls, id).frame == 1;
    assert MatchByte(MatchByte(CLEAN, s[0].b, cls, id), s[1].b, cls, id) == CLEAN;
    NoHeaderNoPayload(CLEAN, Sent(frame[1..]), size, cls, id);
  }

  // The last m.frame bytes read are the matched part of a header.
  ghost predicate Matched(seen: Bytes, m: Matcher, cls: byte, id: byte) {
    var k, n := m.frame, |seen|;
    && k <= n && k < 6
    && (k >= 1 ==> seen[n - k] == 0xB5)
    && (k >= 2 ==> seen[n - k + 1] == 0x62)
    && (k >= 3 ==> seen[n - k + 2] == cls)
    && (k >= 4 ==> seen[n - k + 3] == id)
    && (k >= 5 ==> seen[n - k + 4] as int == m.needRead)
  }

  lemma MatchedStep(seen: Bytes, m: Matcher, c: byte, cls: byte, id: byte)
    requires Matched(seen, m, cls, id)
    ensures var next := MatchByte(m, c, cls, id);
            if next.frame < 6 then Matched(seen + [c], next, cls, id)
            else next.needRead < 0x1_0000 && |seen| >= 5 && seen[|seen| - 5..] + [c] == Header(cls, id, next.needRead)
  {
  }

  lemma ReadParts(polls: seq<Poll>, k: nat)
    requires k <= |polls|
    ensures Read(polls) == Read(polls[..k]) + Read(polls[k..])
  {
    assert polls == polls[..k] + polls[k..];
    ReadAppend(polls[..k], polls[k..]);
  }

  lemma ReadOne(polls: seq<Poll>)
    requires polls != []
    ensures Read(polls) == (if polls[0].Got? then [polls[0].b] else []) + Read(polls[1..])
  {
    ReadFirst(polls, |polls|);
    assert polls[..|polls|] == polls && polls[1..|polls|] == polls[1..];
  }

  // A read that is not short has read as many bytes.
  lemma {:induction false} BurstReads(polls: seq<Poll>, n: nat)
    ensures |Read(polls[..Burst(polls, n)])| == Burst(polls, n)
  {
    if n > 0 && polls != [] && polls[0].Got? {
      var taken := Burst(polls, n);
      BurstReads(polls[1..], n - 1);
      ReadOne(polls[..taken]);
      assert polls[..taken][1..] == polls[1..][..taken - 1];
    }
  }

  // A header for this class and id, announcing exactly these bytes, stands in front of them.
  ghost predicate StandsAt(all: Bytes, at: nat, p: Bytes, cls: byte, id: byte) {
    && |p| < 0x1_0000 && at + 6 + |p| <= |all|
    && all[at..at + 6] == Header(cls, id, |p|)
    && all[at + 6..at + 6 + |p|] == p
  }

  lemma PayloadStands(seen: Bytes, c: byte, p: Bytes, behind: Bytes, cls: byte, id: byte)
    requires |seen| >= 5 && |p| < 0x1_0000 && seen[|seen| - 5..] + [c] == Header(cls, id, |p|)
    ensures StandsAt(seen + ([c] + (p + behind)), |seen| - 5, p, cls, id)
  {
    var all, at := seen + ([c] + (p + behind)), |seen| - 5;
    assert all[at..at + 6] == seen[at..] + [c];
    assert all[at + 6..at + 6 + |p|] == p;
  }

  // Nothing is invented: a returned payload was preceded, without a gap, by a header for this
  // class and id announcing exactly its length.
  lemma {:induction false} ReceiveIsSound(seen: Bytes, m: Matcher, polls: seq<Poll>, size: nat, cls: byte, id: byte)
    returns (at: nat)
    requires Matched(seen, m, cls, id) && Receive(m, polls, size, cls, id).Payload?
    ensures var p := Receive(m, polls, size, cls, id).bytes;
            |p| < size && StandsAt(seen + Read(polls), at, p, cls, id)
    decreases |polls|
  {
    var rest := polls[1..];
    ReadOne(polls);
    if polls[0].Nothing? {
      assert [] + Read(rest) == Read(rest);
      at := ReceiveIsSound(seen, m, rest, size, cls, id);
    } else {
      var c := polls[0].b;
      var next := MatchByte(m, c, cls, id);
      MatchedStep(seen, m, c, cls, id);
      assert seen + ([c] + Read(rest)) == (seen + [c]) + Read(rest);
      if next.frame < 6 {
        at := ReceiveIsSound(seen + [c], next, rest, size, cls, id);
      } else if next.needRead >= size {
        at := ReceiveIsSound(seen + [c], next.(frame := 0), rest, size, cls, id);
      } else {
        var taken := Burst(rest, next.needRead);
        var p, behind := Read(rest[..taken]), Read(rest[taken..]);
        BurstReads(rest, next.needRead);
        ReadParts(rest, taken);
        if taken == next.needRead {
          at := |seen| - 5;
          PayloadStands(seen, c, p, behind, cls, id);
        } else {
          assert (seen + [c]) + (p + behind) == (seen + [c] + p) + behind;
          at := ReceiveIsSound(seen + [c] + p, next.(frame := 0), rest[taken..], size, cls, id);
        }
      }
    }
  }

  // The loop itself: a frame counter, and the payload read straight into the caller's buffer.
  method GetAckPayload(buffer: array<byte>, size: nat, cls: byte, id: byte, polls: seq<Poll>) returns (n: nat)
    requires size <= buffer.Length && size < 0x1_0000
    modifies buffer
    ensures match Receive(CLEAN, polls, size, cls, id)
            case Payload(p) => n == |p| <= buffer.Length && buffer[..n] == p
            case Timeout => n == 0
  {
    var ubxFrameCounter: nat, needRead: nat, at := 0, 0, 0;
    while at < |polls|
      invariant at <= |polls| && ubxFrameCounter < 6
      invariant Receive(CLEAN, polls, size, cls, id) ==
                Receive(Matcher(ubxFrameCounter, needRead), polls[at..], size, cls, id)
      decreases |polls| - at
    {
      assert polls[at..][1..] == polls[at + 1..];
      at := at + 1;
      if polls[at - 1].Nothing? { continue; }
      var c := polls[at - 1].b;
      if ubxFrameCounter == 0 {
        if c == 0xB5 { ubxFrameCounter := 1; }
      } else if ubxFrameCounter == 1 {
        ubxFrameCounter := if c == 0x62 then 2 else 0;
      } else if ubxFrameCounter == 2 {
        ubxFrameCounter := if c == cls then 3 else 0;
      } else if ubxFrameCounter == 3 {
        ubxFrameCounter := if c == id then 4 else 0;
      } else if ubxFrameCounter == 4 {
        needRead := c;
        ubxFrameCounter := 5;
      } else {
        needRead := needRead + 256 * c as int;
        ubxFrameCounter := 0;
        if needRead < size {
          var rest := polls[at..];
          var taken := ReadBytes(buffer, rest, needRead);
          assert rest[taken..] == polls[at + taken..];
          if taken == needRead {
            BurstReads(rest, needRead);
            return needRead;
          }
          at := at + taken;
        }
      }
    }
    n := 0;
  }

  lemma OneMoreByte(polls: seq<Poll>, k: nat, n: nat)
    requires k < n && k < |polls| && polls[k].Got?
    ensures Burst(polls[k..], n - k) == 1 + Burst(polls[k + 1..], n - (k + 1))
    ensures Read(polls[..k + 1]) == Read(polls[..k]) + [polls[k].b]
  {
    assert polls[k..][1..] == polls[k + 1..];
    assert polls[..k + 1][..k] == polls[..k];
  }

  // Stream::readBytes: byte by byte until enough have come or none comes.
  method ReadBytes(buffer: array<byte>, polls: seq<Poll>, n: nat) returns (taken: nat)
    requires n <= buffer.Length
    modifies buffer
    ensures taken == Burst(polls, n)
    ensures buffer[..taken] == Read(polls[..taken])
  {
    taken := 0;
    while taken < n && taken < |polls| && polls[taken].Got?
      invariant taken <= n && taken <= |polls|
      invariant Burst(polls, n) == taken + Burst(polls[taken..], n - taken)
      invariant buffer[..taken] == Read(polls[..taken])
    {
      OneMoreByte(polls, taken, n);
      buffer[taken] := polls[taken].b;
      assert buffer[..taken + 1] == buffer[..taken] + [buffer[taken]];
      taken := taken + 1;
    }
  }

  // ---- getACK(class, id): wait for UBX-ACK-ACK -----------------------------------------------

  datatype Response = NoResponse | Ok | Nak | FrameErrors

  // "More than 100 frame errors"
  const FRAME_ERRORS: Bytes := [77, 111, 114, 101, 32, 116, 104, 97, 110, 32, 49, 48, 48, 32,
                                102, 114, 97, 109, 101, 32, 101, 114, 114, 111, 114, 115]

  function AckFrame(cls: byte, id: byte): (f: Bytes)
    ensures |f| == 10
  {
    Frame(0x05, 0x01, [cls, id])
  }

  // What one byte does: an answer, or new counters (bytes of the acknowledgement matched,
  // characters of the complaint matched).
  datatype Turn = Answer(r: Response) | Go(ack: nat, errors: nat)

  function TakeByte(ack: nat, errors: nat, b: byte, cls: byte, id: byte): (t: Turn)
    requires ack < 10 && errors < 26
    ensures t.Go? ==> t.ack <= 10 && t.errors < 26
  {
    var errors' := if b == FRAME_ERRORS[errors] then errors + 1 else 0;
    if errors' == 26 then Answer(FrameErrors)
    else if b == AckFrame(cls, id)[ack] then Go(ack + 1, errors')
    else if ack == 3 && b == 0 then Answer(Nak)
    else Go(0, errors')
  }

  function TakePoll(poll: Poll, ack: nat, errors: nat, cls: byte, id: byte): Turn
    requires ack < 10 && errors < 26
  {
    if poll.Nothing? then Go(ack, errors) else TakeByte(ack, errors, poll.b, cls, id)
  }

  // The response and how many turns it took.
  function Await(polls: seq<Poll>, ack: nat, errors: nat, cls: byte, id: byte): (answer: (Response, nat))
    requires ack <= 10 && errors < 26
    ensures answer.1 <= |polls|
    decreases |polls|
  {
    if polls == [] then (NoResponse, 0)
    else if ack > 9 then (Ok, 0)
    else
      var turn := TakePoll(polls[0], ack, errors, cls, id);
      match turn
      case Answer(r) => (r, 1)
      case Go(ack', errors') =>
        var (r, n) := Await(polls[1..], ack', errors', cls, id);
        (r, n + 1)
  }

  ghost predicate EndsWith(s: Bytes, suffix: Bytes) {
    |suffix| <= |s| && s[|s| - |suffix|..] == suffix
  }

  lemma EndsWithMore(s: Bytes, suffix: Bytes, b: byte)
    requires EndsWith(s, suffix)
    ensures EndsWith(s + [b], suffix + [b])
  {
    assert (s + [b])[|s| - |suffix|..] == s[|s| - |suffix|..] + [b];
  }

  // The answer says something about the last bytes read: OK, that they are the ten bytes of the
  // acknowledgement frame for this class and id; NAK, that they start a UBX-ACK-NAK; frame
  // errors, that they are the module's complaint.
  ghost predicate Justified(r: Response, seen: Bytes, cls: byte, id: byte) {
    match r
    case Ok => EndsWith(seen, AckFrame(cls, id))
    case Nak => EndsWith(seen, [0xB5, 0x62, 0x05, 0x00])
    case FrameErrors => EndsWith(seen, FRAME_ERRORS)
    case NoResponse => true
  }

  lemma AckFrameStart(cls: byte, id: byte)
    ensures AckFrame(cls, id)[..3] == [0xB5, 0x62, 0x05]
  {
  }

  ghost predicate Seen(seen: Bytes, ack: nat, errors: nat, cls: byte, id: byte) {
    && ack <= 10 && errors < 26
    && EndsWith(seen, AckFrame(cls, id)[..ack]) && EndsWith(seen, FRAME_ERRORS[..errors])
  }

  lemma ComplaintStep(seen: Bytes, errors: nat, b: byte)
    requires errors < 26 && EndsWith(seen, FRAME_ERRORS[..errors])
    ensures EndsWith(seen + [b], FRAME_ERRORS[..if b == FRAME_ERRORS[errors] then errors + 1 else 0])
  {
    EndsWithMore(seen, FRAME_ERRORS[..errors], b);
    if b == FRAME_ERRORS[errors] { assert FRAME_ERRORS[..errors] + [b] == FRAME_ERRORS[..errors + 1]; }
  }

  lemma AckStep(seen: Bytes, ack: nat, b: byte, cls: byte, id: byte)
    requires ack < 10 && EndsWith(seen, AckFrame(cls, id)[..ack])
    ensures EndsWith(seen + [b], AckFrame(cls, id)[..if b == AckFrame(cls, id)[ack] then ack + 1 else 0])
    ensures ack == 3 && b == 0 ==> EndsWith(seen + [b], [0xB5, 0x62, 0x05, 0x00])
  {
    var frame := AckFrame(cls, id);
    EndsWithMore(seen, frame[..ack], b);
    if b == frame[ack] { assert frame[..ack] + [b] == frame[..ack + 1]; }
    if ack == 3 && b == 0 {
      AckFrameStart(cls, id);
      assert frame[..3] + [b] == [0xB5, 0x62, 0x05, 0x00];
    }
  }

  lemma TakeByteIsSound(seen: Bytes, ack: nat, errors: nat, b: byte, cls: byte, id: byte)
    requires ack < 10 && Seen(seen, ack, errors, cls, id)
    ensures match TakeByte(ack, errors, b, cls, id)
            case Answer(r) => Justified(r, seen + [b], cls, id)
            case Go(ack', errors') => Seen(seen + [b], ack', errors', cls, id)
  {
    ComplaintStep(seen, errors, b);
    AckStep(seen, ack, b, cls, id);
    assert FRAME_ERRORS[..26] == FRAME_ERRORS;
  }

  lemma TakePollIsSound(seen: Bytes, now: Bytes, ack: nat, errors: nat, poll: Poll, cls: byte, id: byte)
    requires ack < 10 && Seen(seen, ack, errors, cls, id)
    requires now == if poll.Got? then [poll.b] else []
    ensures match TakePoll(poll, ack, errors, cls, id)
            case Answer(r) => Justified(r, seen + now, cls, id)
            case Go(ack', errors') => Seen(seen + now, ack', errors', cls, id)
  {
    if poll.Got? { TakeByteIsSound(seen, ack, errors, poll.b, cls, id); } else { assert seen + now == seen; }
  }

  lemma NoTurnIsSound(seen: Bytes, polls: seq<Poll>, ack: nat, errors: nat, cls: byte, id: byte)
    requires Seen(seen, ack, errors, cls, id) && (polls == [] || ack > 9)
    ensures var (r, n) := Await(polls, ack, errors, cls, id); Justified(r, seen + Read(polls[..n]), cls, id)
  {
    assert polls[..0] == [] && seen + Read([]) == seen;
    assert AckFrame(cls, id)[..10] == AckFrame(cls, id);
  }

  lemma ReadOneMore(seen: Bytes, polls: seq<Poll>, n: nat, now: Bytes)
    requires 0 < n <= |polls| && now == if polls[0].Got? then [polls[0].b] else []
    ensures seen + Read(polls[..n]) == (seen + now) + Read(polls[1..][..n - 1])
    ensures n == 1 ==> seen + Read(polls[..n]) == seen + now
  {
    ReadFirst(polls, n);
  }

  lemma {:induction false} AwaitIsSound(seen: Bytes, polls: seq<Poll>, ack: nat, errors: nat, cls: byte, id: byte)
    requires Seen(seen, ack, errors, cls, id)
    ensures var (r, n) := Await(polls, ack, errors, cls, id); Justified(r, seen + Read(polls[..n]), cls, id)
    decreases |polls|
  {
    if polls == [] || ack > 9 {
      NoTurnIsSound(seen, polls, ack, errors, cls, id);
    } else {
      var (r, n) := Await(polls, ack, errors, cls, id);
      var now := if polls[0].Got? then [polls[0].b] else [];
      ReadOneMore(seen, polls, n, now);
      TakePollIsSound(seen, now, ack, errors, polls[0], cls, id);
      match TakePoll(polls[0], ack, errors, cls, id)
      case Answer(_) =>
      case Go(ack', errors') => AwaitIsSound(seen + now, polls[1..], ack', errors', cls, id);
    }
  }

  // A class/id wait that says OK has just read, as its last ten bytes, the acknowledgement
  // frame the packet builder would make for that class and id.
  lemma AnswerIsJustified(polls: seq<Poll>, cls: byte, id: byte)
    ensures var (r, n) := Await(polls, 0, 0, cls, id); Justified(r, Read(polls[..n]), cls, id)
  {
    AwaitIsSound([], polls, 0, 0, cls, id);
    var (r, n) := Await(polls, 0, 0, cls, id);
    assert [] + Read(polls[..n]) == Read(polls[..n]);
  }

  // Once the counters stand at the start of a frame, the frame and one more turn give OK.
  lemma {:induction false} FrameIsAccepted(polls: seq<Poll>, ack: nat, errors: nat, k: nat, cls: byte, id: byte)
    requires ack <= 10 && errors <= ack && k < |polls|
    requires Read(polls[..k]) == AckFrame(cls, id)[ack..]
    ensures Await(polls, ack, errors, cls, id).0 == Ok
    decreases |polls|
  {
    if ack < 10 {
      ReadFirst(polls, k);
      var turn := TakePoll(polls[0], ack, errors, cls, id);
      var later := Read(polls[1..][..k - 1]);
      if polls[0].Got? {
        assert ([polls[0].b] + later)[0] == AckFrame(cls, id)[ack];
        assert ([polls[0].b] + later)[1..] == later;
        assert AckFrame(cls, id)[ack..][1..] == AckFrame(cls, id)[ack + 1..];
      } else {
        assert [] + later == later;
      }
      FrameIsAccepted(polls[1..], turn.ack, turn.errors, k - 1, cls, id);
    }
  }

  // The frame UBX-ACK-NAK, up to the byte that tells it from an acknowledgement.
  const NAK_HEAD: Bytes := [0xB5, 0x62, 0x05, 0x00]

  lemma ReadBegins(polls: seq<Poll>, k: nat, expected: Bytes)
    requires k <= |polls| && Read(polls[..k]) == expected && expected != []
    ensures k > 0
    ensures polls[0].Got? ==> polls[0].b == expected[0] && Read(polls[1..][..k - 1]) == expected[1..]
    ensures polls[0].Nothing? ==> Read(polls[1..][..k - 1]) == expected
  {
    ReadFirst(polls, k);
    var later := Read(polls[1..][..k - 1]);
    if polls[0].Got? {
      assert expected == [polls[0].b] + later;
    } else {
      assert [] + later == later;
    }
  }

  lemma NakByte(ack: nat, errors: nat, cls: byte, id: byte)
    requires ack < 4 && errors < 26 && (ack > 0 ==> errors == 0)
    ensures TakeByte(ack, errors, NAK_HEAD[ack], cls, id) == if ack == 3 then Answer(Nak) else Go(ack + 1, 0)
  {
    AckFrameStart(cls, id);
    assert AckFrame(cls, id)[..3] == NAK_HEAD[..3] && AckFrame(cls, id)[3] == 0x01;
  }

  // A refusal that comes while the counter stands at the start is answered NAK.
  lemma {:induction false} NakIsAnswered(polls: seq<Poll>, ack: nat, errors: nat, k: nat, cls: byte, id: byte)
    requires ack < 4 && errors < 26 && (ack > 0 ==> errors == 0) && k <= |polls|
    requires Read(polls[..k]) == NAK_HEAD[ack..]
    ensures Await(polls, ack, errors, cls, id).0 == Nak
    decreases |polls|
  {
    ReadBegins(polls, k, NAK_HEAD[ack..]);
    if polls[0].Got? {
      NakByte(ack, errors, cls, id);
      assert polls[0].b == NAK_HEAD[ack] && NAK_HEAD[ack..][1..] == NAK_HEAD[ack + 1..];
      if ack < 3 {
        NakIsAnswered(polls[1..], ack + 1, 0, k - 1, cls, id);
      }
    } else {
      NakIsAnswered(polls[1..], ack, errors, k - 1, cls, id);
    }
  }

  lemma ComplaintByte(errors: nat, cls: byte, id: byte)
    requires errors < 26
    ensures TakeByte(0, errors, FRAME_ERRORS[errors], cls, id) ==
            if errors == 25 then Answer(FrameErrors) else Go(0, errors + 1)
  {
    AckFrameStart(cls, id);
    assert AckFrame(cls, id)[..3][0] == 0xB5;
  }

  // The module's complaint, read whole, is answered as such.
  lemma {:induction false} ComplaintIsAnswered(polls: seq<Poll>, errors: nat, k: nat, cls: byte, id: byte)
    requires errors < 26 && k <= |polls| && Read(polls[..k]) == FRAME_ERRORS[errors..]
    ensures Await(polls, 0, errors, cls, id).0 == FrameErrors
    decreases |polls|
  {
    ReadBegins(polls, k, FRAME_ERRORS[errors..]);
    if polls[0].Got? {
      ComplaintByte(errors, cls, id);
      assert polls[0].b == FRAME_ERRORS[errors] && FRAME_ERRORS[errors..][1..] == FRAME_ERRORS[errors + 1..];
      if errors < 25 {
        ComplaintIsAnswered(polls[1..], errors + 1, k - 1, cls, id);
      }
    } else {
      ComplaintIsAnswered(polls[1..], errors, k - 1, cls, id);
    }
  }

  // OK takes the rest of the frame.
  lemma {:induction false} OkTakesBytes(polls: seq<Poll>, ack: nat, errors: nat, cls: byte, id: byte)
    requires ack <= 10 && errors < 26 && Await(polls, ack, errors, cls, id).0 == Ok
    ensures |polls| >= 10 - ack
    decreases |polls|
  {
    if ack < 10 {
      var turn := TakePoll(polls[0], ack, errors, cls, id);
      OkTakesBytes(polls[1..], turn.ack, turn.errors, cls, id);
    }
  }

  // Here, too, a stray 0xB5 before the frame makes the loop miss it.
  lemma StrayHeaderByteLosesAck(cls: byte, id: byte)
    ensures Await(Sent([0xB5] + AckFrame(cls, id)), 0, 0, cls, id).0 != Ok
  {
    var frame := AckFrame(cls, id);
    var s := Sent([0xB5] + frame);
    AckFrameStart(cls, id);
    assert frame[0] == frame[..3][0] == 0xB5 && frame[1] == frame[..3][1] == 0x62;
    assert s[0] == s[1] == Got(0xB5) && s[1..][0] == s[1];
    assert TakePoll(s[0], 0, 0, cls, id) == Go(1, 0);
    assert TakePoll(s[1], 1, 0, cls, id) == Go(0, 0);
    assert s[1..][1..] == s[2..] && |s[2..]| == 9;
    if Await(s[2..], 0, 0, cls, id).0 == Ok {
      OkTakesBytes(s[2..], 0, 0, cls, id);
    }
    assert Await(s, 0, 0, cls, id).0 == Await(s[1..], 1, 0, cls, id).0 == Await(s[2..], 0, 0, cls, id).0;
  }

  // The loop, with the acknowledgement's checksum built the way the code builds it.
  method GetAckClassId(polls: seq<Poll>, cls: byte, id: byte) returns (r: Response)
    ensures r == Await(polls, 0, 0, cls, id).0
  {
    var ackP := [cls, id];
    var buf := BuildAck(ackP);
    var ack: nat, sCounter: nat, at := 0, 0, 0;
    while at < |polls|
      invariant at <= |polls| && ack <= 10 && sCounter < 26
      invariant Await(polls, 0, 0, cls, id).0 == Await(polls[at..], ack, sCounter, cls, id).0
      decreases |polls| - at
    {
      if ack > 9 { return Ok; }
      assert polls[at..][1..] == polls[at + 1..];
      if polls[at].Got? {
        var b := polls[at].b;
        if b == FRAME_ERRORS[sCounter] {
          sCounter := sCounter + 1;
          if sCounter == 26 { return FrameErrors; }
        } else {
          sCounter := 0;
        }
        if b == buf[ack] {
          ack := ack + 1;
        } else {
          if ack == 3 && b == 0 { return Nak; }
          ack := 0;
        }
      }
      at := at + 1;
    }
    r := NoResponse;
  }

  // One round of the checksum loops: byte j goes into the running pair at the end.
  function Accumulate(buf: Bytes, j: nat): (next: Bytes)
    requires |buf| == 10 && 2 <= j < 8
    ensures |next| == 10
  {
    var a := (buf[8] as int + buf[j] as int) % 256;
    buf[8 := a][9 := (buf[9] as int + a) % 256]
  }

  lemma AccumulateStep(buf: Bytes, j: nat)
    requires |buf| == 10 && 2 <= j < 8 && Fletcher(buf[2..j]) == (buf[8], buf[9])
    ensures var next := Accumulate(buf, j); next[..8] == buf[..8] && Fletcher(next[2..j + 1]) == (next[8], next[9])
  {
    var next := Accumulate(buf, j);
    assert next[2..j + 1][..j - 2] == buf[2..j];
  }

  method BuildAck(ackP: Bytes) returns (buf: Bytes)
    requires |ackP| == 2
    ensures buf == AckFrame(ackP[0], ackP[1])
  {
    buf := [0xB5, 0x62, 0x05, 0x01, 0x02, 0x00, 0x00, 0x00, 0x00, 0x00];
    ghost var head := buf[..8];
    for j := 2 to 6
      invariant |buf| == 10 && buf[..8] == head
      invariant Fletcher(buf[2..j]) == (buf[8], buf[9])
    {
      AccumulateStep(buf, j);
      buf := Accumulate(buf, j);
    }
    for j := 0 to 2
      invariant |buf| == 10 && buf[..8] == head[..6] + ackP[..j] + head[6 + j..]
      invariant Fletcher(buf[2..6 + j]) == (buf[8], buf[9])
    {
      ghost var before := buf;
      buf := buf[6 + j := ackP[j]];
      assert buf[2..6 + j] == before[2..6 + j];
      assert buf[..8] == head[..6] + ackP[..j + 1] + head[7 + j..];
      AccumulateStep(buf, 6 + j);
      buf := Accumulate(buf, 6 + j);
    }
    assert buf[..8] == Header(0x05, 0x01, 2) + ackP;
    AckBuilt(buf, ackP);
  }

  lemma AckBuilt(buf: Bytes, ackP: Bytes)
    requires |buf| == 10 && |ackP| == 2 && buf[..8] == Header(0x05, 0x01, 2) + ackP
    requires Fletcher(buf[2..8]) == (buf[8], buf[9])
    ensures buf == AckFrame(ackP[0], ackP[1])
  {
    assert ackP == [ackP[0], ackP[1]];
    assert buf[2..8] == buf[..8][2..];
    assert buf[2..8] == Body(0x05, 0x01, ackP);
    assert buf == buf[..8] + [buf[8], buf[9]];
  }
}
