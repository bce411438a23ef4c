// u-blox framing: building a frame in the scratch buffer, and the byte-by-byte matchers.
module Ubx {
  import opened Basics

  // ---- Fletcher checksum (section 3.4 of the u-blox M10 interface description) ---------------

  function Fletcher(s: Bytes): (byte, byte) {
    if s == [] then (0, 0) else
    var (a, b) := Fletcher(s[..|s| - 1]);
    var a' := (a as int + s[|s| - 1] as int) % 256;
    (a', (b as int + a') % 256)
  }

  function Body(cls: byte, id: byte, payload: Bytes): Bytes
    requires |payload| < 0x1_0000
  {
    [cls, id, |payload| % 256, |payload| / 256] + payload
  }

  function Header(cls: byte, id: byte, n: nat): (h: Bytes)
    requires n < 0x1_0000
    ensures |h| == 6
  {
    [0xB5, 0x62, cls, id, n % 256, n / 256]
  }

  function Frame(cls: byte, id: byte, payload: Bytes): (f: Bytes)
    requires |payload| < 0x1_0000
    ensures |f| == |payload| + 8
  {
    var (a, b) := Fletcher(Body(cls, id, payload));
    Header(cls, id, |payload|) + payload + [a, b]
  }

  // The two sums before reduction: of the bytes, and of the running sums.
  function Sum(s: Bytes): int {
    if s == [] then 0 else Sum(s[..|s| - 1]) + s[|s| - 1] as int
  }

  function Running(s: Bytes): int {
    if s == [] then 0 else Running(s[..|s| - 1]) + Sum(s)
  }

  lemma {:induction false} FletcherIsSums(s: Bytes)
    ensures var (a, b) := Fletcher(s); a as int == Sum(s) % 256 && b as int == Running(s) % 256
  {
    if s != [] {
      var front, last := s[..|s| - 1], s[|s| - 1] as int;
      FletcherIsSums(front);
      ReducedSum(Sum(front), last);
      ReducedSum(Running(front), Sum(s) % 256);
      ReducedSum(Sum(s), Running(front));
    }
  }

  lemma ReducedSum(a: int, b: int)
    ensures (a % 256 + b) % 256 == (a + b) % 256
  {
  }

  lemma {:induction false} SumsAppend(s: Bytes, t: Bytes)
    ensures Sum(s + t) == Sum(s) + Sum(t)
    ensures Running(s + t) == Running(s) + |t| * Sum(s) + Running(t)
  {
    if t == [] {
      assert s + t == s;
    } else {
      var n := |t| - 1;
      assert (s + t)[..|s| + n] == s + t[..n];
      SumsAppend(s, t[..n]);
      assert Sum(s + t) == Sum(s) + Sum(t);
      assert |t| * Sum(s) == n * Sum(s) + Sum(s);
    }
  }

  lemma SumsOfTwo(x: byte, y: byte)
    ensures Sum([x, y]) == x as int + y as int && Running([x, y]) == 2 * x as int + y as int
  {
    assert [x, y][..1] == [x] && [x][..0] == [];
    assert Sum([x]) == x as int && Running([x]) == x as int;
  }

  lemma SumsBefore(s: Bytes, x: byte, y: byte)
    ensures Sum(s + [x, y]) == Sum(s) + (x as int + y as int)
    ensures Running(s + [x, y]) == Running(s) + 2 * Sum(s) + (2 * x as int + y as int)
  {
    SumsOfTwo(x, y);
    var t := [x, y];
    SumsAppend(s, t);
    assert |t| == 2;
  }

  // Corruption confined to two neighbouring bytes, a single changed byte and a swap of unequal
  // neighbours among it, always changes the checksum pair.
  lemma NeighboursDetected(s: Bytes, x: byte, y: byte, x': byte, y': byte, tail: Bytes)
    requires x != x' || y != y'
    ensures Fletcher(s + [x, y] + tail) != Fletcher(s + [x', y'] + tail)
  {
    var m, m' := s + [x, y], s + [x', y'];
    FletcherIsSums(m + tail);
    FletcherIsSums(m' + tail);
    SumsBefore(s, x, y);
    SumsBefore(s, x', y');
    SumsAppend(m, tail);
    SumsAppend(m', tail);
    if Fletcher(m + tail) == Fletcher(m' + tail) {
      SameSums(Sum(m), Running(m), Sum(m'), Running(m'), |tail|, Sum(tail), Running(tail));
      SameNeighbours(x as int, y as int, x' as int, y' as int, Sum(m) - Sum(m'), Running(m) - Running(m'));
    }
  }

  lemma SameRemainder(a: int, b: int)
    requires a % 256 == b % 256
    ensures (a - b) % 256 == 0
  {
  }

  // Equal checksums after a common tail mean equal sums, modulo 256, before it.
  lemma SameSums(a: int, b: int, a': int, b': int, n: int, c: int, d: int)
    requires (a + c) % 256 == (a' + c) % 256
    requires (b + n * a + d) % 256 == (b' + n * a' + d) % 256
    ensures (a - a') % 256 == 0 && (b - b') % 256 == 0
  {
    SameRemainder(a + c, a' + c);
    var k := (a - a') / 256;
    ScaledDifference(n, a, a', k);
    SameRemainder(b + n * a + d, b' + n * a' + d);
    DropMultiple(b - b', n * k);
  }

  lemma ScaledDifference(n: int, p: int, q: int, k: int)
    requires p - q == 256 * k
    ensures n * p - n * q == 256 * (n * k)
  {
    assert n * p - n * q == n * (p - q);
  }

  lemma DropMultiple(e: int, m: int)
    requires (e + 256 * m) % 256 == 0
    ensures e % 256 == 0
  {
  }

  lemma SameNeighbours(x: int, y: int, x': int, y': int, da: int, db: int)
    requires 0 <= x < 256 && 0 <= y < 256 && 0 <= x' < 256 && 0 <= y' < 256
    requires da == (x + y) - (x' + y') && db == (2 * x + y) - (2 * x' + y')
    requires da % 256 == 0 && db % 256 == 0
    ensures x == x' && y == y'
  {
    assert (db - da) % 256 == 0;
  }

  // One changed byte anywhere, the last included.
  lemma SingleByteDetected(s: Bytes, x: byte, x': byte, tail: Bytes)
    requires x != x'
    ensures Fletcher(s + [x] + tail) != Fletcher(s + [x'] + tail)
  {
    if tail == [] {
      assert s + [x] + tail == s + [x] && s + [x'] + tail == s + [x'];
      assert (s + [x])[..|s|] == s && (s + [x'])[..|s|] == s;
    } else {
      NeighboursDetected(s, x, tail[0], x', tail[0], tail[1..]);
      assert s + [x, tail[0]] + tail[1..] == s + [x] + tail;
      assert s + [x', tail[0]] + tail[1..] == s + [x'] + tail;
    }
  }

  // The frame byte by byte: synchronisation, class, id, length with its low byte first, payload, and
  // the two sums over all from the class on.
  lemma FrameFields(cls: byte, id: byte, payload: Bytes)
    requires |payload| < 0x1_0000
    ensures var f, n := Frame(cls, id, payload), |payload|;
            && f[0] == 0xB5 && f[1] == 0x62 && f[2] == cls && f[3] == id
            && f[4] as int + 0x100 * f[5] as int == n && f[6..n + 6] == payload
            && f[n + 6] as int == Sum(f[2..n + 6]) % 0x100 && f[n + 7] as int == Running(f[2..n + 6]) % 0x100
  {
    var f, n := Frame(cls, id, payload), |payload|;
    assert f[2..n + 6] == Body(cls, id, payload);
    FletcherIsSums(Body(cls, id, payload));
  }

  // ---- Building a frame in place -----------------------------------------------------------

  const SCRATCH := 250

  lemma Assembled(built: Bytes, cls: byte, id: byte, payload: Bytes)
    requires |payload| < 256 && |payload| + 6 <= |built|
    requires built[..6] == Header(cls, id, |payload|) && built[6..6 + |payload|] == payload
    ensures built[2..|payload| + 6] == Body(cls, id, payload)
    ensures built[..|payload| + 6] == Header(cls, id, |payload|) + payload
  {
    assert built[2..|payload| + 6] == built[..6][2..] + built[6..6 + |payload|];
    assert built[..|payload| + 6] == built[..6] + built[6..6 + |payload|];
  }

  lemma Finished(built: Bytes, cls: byte, id: byte, payload: Bytes, a: byte, b: byte)
    requires |payload| < 256 && |payload| + 8 <= |built|
    requires built[..6] == Header(cls, id, |payload|) && built[6..6 + |payload|] == payload
    requires (a, b) == Fletcher(built[2..|payload| + 6])
    ensures built[|payload| + 6 := a][|payload| + 7 := b][..|payload| + 8] == Frame(cls, id, payload)
  {
    Assembled(built, cls, id, payload);
    var done := built[|payload| + 6 := a][|payload| + 7 := b];
    assert done[..|payload| + 6] == built[..|payload| + 6];
    assert done[..|payload| + 8] == done[..|payload| + 6] + [a, b];
  }

  class Gps {
    const scratch: array<byte>

    constructor ()
      ensures scratch.Length == SCRATCH && fresh(scratch) && scratch[..] == seq(SCRATCH, _ => 0)
    {
      scratch := new byte[SCRATCH](_ => 0);
    }

    method UBXChecksum(length: nat)
      requires 4 <= length <= scratch.Length
      modifies scratch
      ensures var (a, b) := Fletcher(old(scratch[2..length - 2]));
              scratch[..] == old(scratch[..])[length - 2 := a][length - 1 := b]
    {
      var ckA: byte, ckB: byte := 0, 0;
      for i := 2 to length - 2
        invariant scratch[..] == old(scratch[..])
        invariant (ckA, ckB) == Fletcher(scratch[2..i])
      {
        assert scratch[2..i + 1][..i - 2] == scratch[2..i];
        ckA := (ckA as int + scratch[i] as int) % 256;
        ckB := (ckB as int + ckA as int) % 256;
      }
      scratch[length - 2] := ckA;
      scratch[length - 1] := ckB;
    }

    method MakeUBXPacket(cls: byte, id: byte, payloadSize: byte, msg: Bytes) returns (n: byte)
      requires scratch.Length == SCRATCH
      requires payloadSize as int + 8 <= SCRATCH && payloadSize as int <= |msg|
      modifies scratch
      ensures n as int == payloadSize as int + 8
      ensures scratch[..n] == Frame(cls, id, msg[..payloadSize])
      ensures scratch[n..] == old(scratch[n..])
    {
      var size: nat := payloadSize as int;
      WriteHeader(cls, id, size);
      ghost var headed := scratch[..];
      CopyPayload(size, msg);
      ghost var built := scratch[..];
      assert built[size + 8..] == built[6 + size..][2..] == headed[6 + size..][2..] == headed[size + 8..];
      ghost var (a, b) := Fletcher(built[2..size + 6]);
      assert scratch[2..size + 6] == built[2..size + 6];
      UBXChecksum(size + 8);
      Finished(built, cls, id, msg[..size], a, b);
      ghost var done := built[size + 6 := a][size + 7 := b];
      assert scratch[..] == done;
      assert scratch[..size + 8] == done[..size + 8];
      assert scratch[size + 8..] == done[size + 8..] == built[size + 8..];
      n := size + 8;
    }

    method WriteHeader(cls: byte, id: byte, size: nat)
      requires scratch.Length == SCRATCH && size + 8 <= SCRATCH
      modifies scratch
      ensures scratch[..6] == Header(cls, id, size)
      ensures scratch[size + 8..] == old(scratch[size + 8..])
    {
      scratch[6 + size], scratch[7 + size] := 0, 0;
      assert scratch[size + 8..] == old(scratch[size + 8..]);
      scratch[0], scratch[1], scratch[2], scratch[3], scratch[4], scratch[5] := 0xB5, 0x62, cls, id, size, 0;
    }

    // The loop copying the payload behind the header.
    method CopyPayload(size: nat, msg: Bytes)
      requires scratch.Length == SCRATCH && size + 8 <= SCRATCH && size <= |msg|
      modifies scratch
      ensures scratch[6..6 + size] == msg[..size]
      ensures scratch[..6] == old(scratch[..6]) && scratch[6 + size..] == old(scratch[6 + size..])
    {
      for i := 0 to size
        invariant scratch[6..6 + i] == msg[..i]
        invariant scratch[..6] == old(scratch[..6]) && scratch[6 + size..] == old(scratch[6 + size..])
      {
        scratch[6 + i] := msg[i];
      }
    }
  }
}
