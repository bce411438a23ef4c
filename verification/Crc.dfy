// CRC-16/CCITT as the XMODEM adapter computes it, one byte at a time with shifts, against
// polynomial division over GF(2) (section 2 of ITU-T V.41) of the message times x^16.
module Crc {
  import opened Polynomials

  // Machine words as their bits: index i is the coefficient of 2^i, which is also the
  // coefficient of x^i.
  type Byte = b: seq<bool> | |b| == 8 witness
    [false, false, false, false, false, false, false, false]
  type Word = w: seq<bool> | |w| == 16 witness
    [false, false, false, false, false, false, false, false] +
    [false, false, false, false, false, false, false, false]

  const ZERO: Word := [false, false, false, false, false, false, false, false] +
                      [false, false, false, false, false, false, false, false]

  function ShiftLeft(w: Word, k: nat): Word {
    seq(16, i requires 0 <= i < 16 => i >= k && w[i - k])
  }

  function ShiftRight(w: Word, k: nat): Word {
    seq(16, i requires 0 <= i < 16 => i + k < 16 && w[i + k])
  }

  function Xor(v: Word, w: Word): Word {
    seq(16, i requires 0 <= i < 16 => v[i] != w[i])
  }

  function Or(v: Word, w: Word): Word {
    seq(16, i requires 0 <= i < 16 => v[i] || w[i])
  }

  // w & 0xff, also the cast to unsigned char
  function LowByte(w: Word): Word {
    seq(16, i requires 0 <= i < 16 => i < 8 && w[i])
  }

  function Widen(b: Byte): Word {
    seq(16, i requires 0 <= i < 16 => i < 8 && b[i])
  }

  // One round of the loop body: swap the halves, absorb the byte, then three folds.
  function Absorb(crc: Word, b: Byte): Word {
    Xor(Or(LowByte(ShiftRight(crc, 8)), ShiftLeft(crc, 8)), Widen(b))
  }

  function FoldNibble(w: Word): Word {
    Xor(w, ShiftRight(LowByte(w), 4))
  }

  function FoldTwelve(w: Word): Word {
    Xor(w, ShiftLeft(ShiftLeft(w, 8), 4))
  }

  function FoldFive(w: Word): Word {
    Xor(w, ShiftLeft(ShiftLeft(LowByte(w), 4), 1))
  }

  function ByteStep(crc: Word, b: Byte): Word {
    FoldFive(FoldTwelve(FoldNibble(Absorb(crc, b))))
  }

  function CrcOf(s: seq<Byte>): Word {
    if s == [] then ZERO else ByteStep(CrcOf(s[..|s| - 1]), s[|s| - 1])
  }

  // The loop of the source: a running value, a moving pointer and a falling length.
  method Crc16Ccitt(buffer: seq<Byte>, length: nat) returns (crc16: Word)
    requires length <= |buffer|
    ensures crc16 == CrcOf(buffer[..length])
  {
    crc16 := ZERO;
    var at, left := 0, length;
    while left != 0
      invariant at + left == length
      invariant crc16 == CrcOf(buffer[..at])
    {
      assert buffer[..at + 1][..at] == buffer[..at];
      crc16 := Or(LowByte(ShiftRight(crc16, 8)), ShiftLeft(crc16, 8));
      crc16 := Xor(crc16, Widen(buffer[at]));
      crc16 := Xor(crc16, ShiftRight(LowByte(crc16), 4));
      crc16 := Xor(crc16, ShiftLeft(ShiftLeft(crc16, 8), 4));
      crc16 := Xor(crc16, ShiftLeft(ShiftLeft(LowByte(crc16), 4), 1));
      at, left := at + 1, left - 1;
    }
  }

  predicate Check(buf: seq<Byte>, tcrc: Word) {
    CrcOf(buf) == tcrc
  }

  // ---- Buffers and registers as polynomials -------------------------------------------

  // Polynomial of a little-endian coefficient sequence.
  function Coefficients(w: seq<bool>): Poly {
    set i: nat | i < |w| && w[i]
  }

  // The transmitted bits of a buffer, high bit of each byte first.
  function Bits(s: seq<Byte>): (bits: seq<bool>)
    ensures |bits| == 8 * |s|
  {
    seq(8 * |s|, i requires 0 <= i < 8 * |s| => s[i / 8][7 - i % 8])
  }

  // A bit string as a polynomial, the bit sent first leading.
  function Message(bits: seq<bool>): Poly {
    set i: nat | i < |bits| && Coefficient(bits, i)
  }

  predicate Coefficient(bits: seq<bool>, i: nat)
    requires i < |bits|
  {
    bits[|bits| - 1 - i]
  }

  // What the folds add to the quotient: the absorbed top byte plus its high nibble.
  function QuotientByte(crc: Word, b: Byte): Poly {
    set i: nat | i < 8 && QuotientBit(crc, b, i)
  }

  predicate QuotientBit(crc: Word, b: Byte, i: nat)
    requires i < 8
  {
    (crc[8 + i] != b[i]) != (i < 4 && (crc[12 + i] != b[4 + i]))
  }

  lemma ByteStepBit(crc: Word, b: Byte, i: nat)
    requires i < 16
    ensures ByteStep(crc, b)[i] ==
            ((i >= 8 && crc[i - 8]) !=
             (((i < 8 && i in QuotientByte(crc, b)) != (i >= 12 && i - 12 in QuotientByte(crc, b))) !=
              (5 <= i < 13 && i - 5 in QuotientByte(crc, b))))
  {
    var absorbed := Absorb(crc, b);
    var low := FoldNibble(absorbed);
    var high := FoldTwelve(low);
    assert forall k :: 0 <= k < 8 ==> absorbed[k] == (crc[8 + k] != b[k]);
    assert forall k :: 8 <= k < 16 ==> absorbed[k] == crc[k - 8];
    assert forall k :: 0 <= k < 8 ==> low[k] == (k in QuotientByte(crc, b));
    assert forall k :: 8 <= k < 16 ==> low[k] == crc[k - 8];
    assert high[i] == (low[i] != (i >= 12 && low[i - 12]));
    assert ByteStep(crc, b)[i] == (high[i] != (5 <= i < 13 && high[i - 5]));
  }

  // Times x^8, plus the byte at x^16, is the next register plus a multiple of G.
  lemma ByteIdentity(crc: Word, b: Byte)
    ensures Add(Shift(Coefficients(crc), 8), Shift(Coefficients(b), 16)) ==
            Add(TimesG(QuotientByte(crc, b)), Coefficients(ByteStep(crc, b)))
  {
    var lhs := Add(Shift(Coefficients(crc), 8), Shift(Coefficients(b), 16));
    var rhs := Add(TimesG(QuotientByte(crc, b)), Coefficients(ByteStep(crc, b)));
    forall e: nat ensures e in lhs <==> e in rhs {
      InShift(Coefficients(crc), 8, e);
      InShift(Coefficients(b), 16, e);
      InTimesG(QuotientByte(crc, b), e);
      if e < 16 { ByteStepBit(crc, b, e); }
    }
  }


  lemma BitsAt(s: seq<Byte>, e: nat)
    requires e < 8 * |s|
    ensures e in Message(Bits(s)) <==> s[|s| - 1 - e / 8][e % 8]
  {
    var i := 8 * |s| - 1 - e;
    assert i / 8 == |s| - 1 - e / 8 && 7 - i % 8 == e % 8;
  }

  lemma MessageOfBytes(s: seq<Byte>, b: Byte)
    ensures Message(Bits(s + [b])) == Add(Shift(Message(Bits(s)), 8), Coefficients(b))
  {
    var t := s + [b];
    forall e: nat ensures e in Message(Bits(t)) <==> e in Add(Shift(Message(Bits(s)), 8), Coefficients(b)) {
      InShift(Message(Bits(s)), 8, e);
      if e < 8 * |t| { BitsAt(t, e); }
      if 8 <= e < 8 * |t| {
        BitsAt(s, e - 8);
        assert |t| - 1 - e / 8 == |s| - 1 - (e - 8) / 8;
      }
    }
  }

  lemma AddAssociates(p: Poly, q: Poly, r: Poly)
    ensures Add(Add(p, q), r) == Add(p, Add(q, r))
  {
  }

  // message * x^16 == quotient * G + crc, whatever the message.
  lemma {:induction false} DivisionIdentity(s: seq<Byte>) returns (q: Poly)
    ensures Shift(Message(Bits(s)), 16) == Add(TimesG(q), Coefficients(CrcOf(s)))
  {
    if s == [] {
      q := {};
      forall e: nat ensures e !in TimesG({}) && e !in Shift(Message(Bits(s)), 16) {
        InTimesG({}, e);
        InShift(Message(Bits(s)), 16, e);
      }
    } else {
      var front, b := s[..|s| - 1], s[|s| - 1];
      var p := DivisionIdentity(front);
      assert s == front + [b];
      MessageOfBytes(front, b);
      q := Add(Shift(p, 8), QuotientByte(CrcOf(front), b));
      ByteIdentity(CrcOf(front), b);
      DivisionStep(Message(Bits(front)), 8, Coefficients(b), p, Coefficients(CrcOf(front)),
                   QuotientByte(CrcOf(front), b), Coefficients(CrcOf(s)));
    }
  }

  // Long division carries on past k more message bits.
  lemma DivisionStep(m: Poly, k: nat, b: Poly, p: Poly, r: Poly, d: Poly, next: Poly)
    requires Shift(m, 16) == Add(TimesG(p), r)
    requires Add(Shift(r, k), Shift(b, 16)) == Add(TimesG(d), next)
    ensures Shift(Add(Shift(m, k), b), 16) == Add(TimesG(Add(Shift(p, k), d)), next)
  {
    ShiftAdd(Shift(m, k), b, 16);
    ShiftShift(m, k, 16);
    ShiftShift(m, 16, k);
    ShiftAdd(TimesG(p), r, k);
    ShiftTimesG(p, k);
    TimesGAdd(Shift(p, k), d);
    var a := Shift(TimesG(p), k);
    AddAssociates(a, Shift(r, k), Shift(b, 16));
    AddAssociates(a, TimesG(d), next);
  }

  // The CRC is the remainder: a polynomial of degree below 16 completes a multiple of G to
  // message * x^16 exactly when it is the CRC.
  lemma CrcIsTheRemainder(s: seq<Byte>, r: Poly)
    requires DegreeBelow(r, 16)
    ensures (exists q: Poly :: Shift(Message(Bits(s)), 16) == Add(TimesG(q), r)) <==> r == Coefficients(CrcOf(s))
  {
    var q0 := DivisionIdentity(s);
    if q: Poly :| Shift(Message(Bits(s)), 16) == Add(TimesG(q), r) {
      RemainderUnique(q, r, q0, Coefficients(CrcOf(s)));
    }
  }

  // ---- Bit-serial division ----------------------------------------------------------

  const GENERATOR: Word := [true, false, false, false, false, true, false, false] +
                           [false, false, false, false, true, false, false, false]

  // The shift register of V.41: one bit in, feedback 0x1021 when the leading bits differ.
  function BitStep(r: Word, b: bool): Word {
    if r[15] != b then Xor(ShiftLeft(r, 1), GENERATOR) else ShiftLeft(r, 1)
  }

  function BitSerial(bits: seq<bool>): Word {
    if bits == [] then ZERO else BitStep(BitSerial(bits[..|bits| - 1]), bits[|bits| - 1])
  }

  lemma BitIdentity(r: Word, b: bool, one: Poly, d: Poly)
    requires one == (if b then {0} else {}) && d == (if r[15] != b then {0} else {})
    ensures Add(Shift(Coefficients(r), 1), Shift(one, 16)) == Add(TimesG(d), Coefficients(BitStep(r, b)))
  {
    var lhs := Add(Shift(Coefficients(r), 1), Shift(one, 16));
    var rhs := Add(TimesG(d), Coefficients(BitStep(r, b)));
    forall e: nat ensures e in lhs <==> e in rhs {
      InShift(Coefficients(r), 1, e);
      InShift(one, 16, e);
      InTimesG(d, e);
    }
  }

  lemma MessageOfBits(bits: seq<bool>, b: bool, one: Poly)
    requires one == if b then {0} else {}
    ensures Message(bits + [b]) == Add(Shift(Message(bits), 1), one)
  {
    forall e: nat ensures e in Message(bits + [b]) <==> e in Add(Shift(Message(bits), 1), one) {
      InShift(Message(bits), 1, e);
      if 0 < e <= |bits| { assert Coefficient(bits + [b], e) == Coefficient(bits, e - 1); }
    }
  }

  lemma {:induction false} BitSerialIdentity(bits: seq<bool>) returns (q: Poly)
    ensures Shift(Message(bits), 16) == Add(TimesG(q), Coefficients(BitSerial(bits)))
  {
    if bits == [] {
      q := {};
      forall e: nat ensures e !in TimesG({}) && e !in Shift(Message(bits), 16) {
        InTimesG({}, e);
        InShift(Message(bits), 16, e);
      }
    } else {
      var front, b := bits[..|bits| - 1], bits[|bits| - 1];
      var p := BitSerialIdentity(front);
      assert bits == front + [b];
      var one: Poly := if b then {0} else {};
      var d: Poly := if BitSerial(front)[15] != b then {0} else {};
      q := Add(Shift(p, 1), d);
      MessageOfBits(front, b, one);
      BitIdentity(BitSerial(front), b, one, d);
      DivisionStep(Message(front), 1, one, p, Coefficients(BitSerial(front)), d, Coefficients(BitSerial(bits)));
    }
  }

  // The byte-at-a-time loop leaves the same register as the bit-serial divider.
  lemma CrcIsBitSerial(s: seq<Byte>)
    ensures CrcOf(s) == BitSerial(Bits(s))
  {
    var p := DivisionIdentity(s);
    var q := BitSerialIdentity(Bits(s));
    var v, w := CrcOf(s), BitSerial(Bits(s));
    RemainderUnique(p, Coefficients(v), q, Coefficients(w));
    forall i | 0 <= i < 16 ensures v[i] == w[i] {
      assert i in Coefficients(v) <==> i in Coefficients(w);
    }
  }

  // ---- Linearity --------------------------------------------------------------------

  function XorByte(a: Byte, b: Byte): Byte {
    seq(8, i requires 0 <= i < 8 => a[i] != b[i])
  }

  function XorBuffers(s: seq<Byte>, t: seq<Byte>): (x: seq<Byte>)
    requires |s| == |t|
    ensures |x| == |s|
  {
    seq(|s|, i requires 0 <= i < |s| => XorByte(s[i], t[i]))
  }

  lemma StepLinear(c: Word, d: Word, a: Byte, b: Byte)
    ensures ByteStep(Xor(c, d), XorByte(a, b)) == Xor(ByteStep(c, a), ByteStep(d, b))
  {
    var v, w := Absorb(c, a), Absorb(d, b);
    assert Absorb(Xor(c, d), XorByte(a, b)) == Xor(v, w);
    assert FoldNibble(Xor(v, w)) == Xor(FoldNibble(v), FoldNibble(w));
    v, w := FoldNibble(v), FoldNibble(w);
    assert FoldTwelve(Xor(v, w)) == Xor(FoldTwelve(v), FoldTwelve(w));
    v, w := FoldTwelve(v), FoldTwelve(w);
    assert FoldFive(Xor(v, w)) == Xor(FoldFive(v), FoldFive(w));
  }

  lemma {:induction false} CrcLinear(s: seq<Byte>, t: seq<Byte>)
    requires |s| == |t|
    ensures CrcOf(XorBuffers(s, t)) == Xor(CrcOf(s), CrcOf(t))
  {
    if s != [] {
      var n := |s| - 1;
      CrcLinear(s[..n], t[..n]);
      assert XorBuffers(s, t)[..n] == XorBuffers(s[..n], t[..n]);
      StepLinear(CrcOf(s[..n]), CrcOf(t[..n]), s[n], t[n]);
    }
  }

  // ---- What the check detects ---------------------------------------------------------

  // The flipped bits of a damaged buffer, as exponents.
  function Flips(s: seq<Byte>, t: seq<Byte>): Poly {
    Add(Message(Bits(s)), Message(Bits(t)))
  }

  lemma SameCrcMeansMultiple(s: seq<Byte>, t: seq<Byte>) returns (q: Poly)
    requires CrcOf(s) == CrcOf(t)
    ensures Shift(Flips(s, t), 16) == TimesG(q)
  {
    var p1 := DivisionIdentity(s);
    var p2 := DivisionIdentity(t);
    q := Add(p1, p2);
    ShiftAdd(Message(Bits(s)), Message(Bits(t)), 16);
    TimesGAdd(p1, p2);
    CancelCommon(TimesG(p1), TimesG(p2), Coefficients(CrcOf(s)));
  }

  lemma CancelCommon(a: Poly, b: Poly, r: Poly)
    ensures Add(Add(a, r), Add(b, r)) == Add(a, b)
  {
  }

  // Damage goes undetected exactly when the flips, times x^16, are a multiple of G.
  lemma UndetectedExactly(s: seq<Byte>, t: seq<Byte>)
    ensures CrcOf(s) == CrcOf(t) <==> exists q: Poly :: Shift(Flips(s, t), 16) == TimesG(q)
  {
    if CrcOf(s) == CrcOf(t) {
      var q := SameCrcMeansMultiple(s, t);
    }
    if q: Poly :| Shift(Flips(s, t), 16) == TimesG(q) {
      var p1 := DivisionIdentity(s);
      var p2 := DivisionIdentity(t);
      var v, w := CrcOf(s), CrcOf(t);
      ShiftAdd(Message(Bits(s)), Message(Bits(t)), 16);
      TimesGAdd(p1, p2);
      SwapMiddle(TimesG(p1), Coefficients(v), TimesG(p2), Coefficients(w));
      RemainderUnique(q, {}, Add(p1, p2), Add(Coefficients(v), Coefficients(w)));
      forall i | 0 <= i < 16 ensures v[i] == w[i] {
        assert i !in Add(Coefficients(v), Coefficients(w));
      }
    }
  }

  lemma SwapMiddle(a: Poly, r: Poly, b: Poly, u: Poly)
    ensures Add(Add(a, r), Add(b, u)) == Add(Add(a, b), Add(r, u))
  {
  }

  lemma FlipsAt(s: seq<Byte>, t: seq<Byte>, i: nat, j: nat)
    requires i < |s| == |t| && j < 8
    ensures 8 * (|s| - 1 - i) + j in Flips(s, t) <==> s[i][j] != t[i][j]
  {
    var e := 8 * (|s| - 1 - i) + j;
    assert e / 8 == |s| - 1 - i && e % 8 == j;
    BitsAt(s, e);
    BitsAt(t, e);
  }

  // Any burst is detected: bit errors all within 16 consecutive bit positions, anywhere in
  // a buffer of any length, not necessarily aligned to bytes.
  lemma BurstDetected(s: seq<Byte>, t: seq<Byte>, low: nat)
    requires |s| == |t| && s != t
    requires forall e :: e in Flips(s, t) ==> low <= e < low + 16
    ensures CrcOf(s) != CrcOf(t)
  {
    if CrcOf(s) == CrcOf(t) {
      var q := SameCrcMeansMultiple(s, t);
      var i :| 0 <= i < |s| && s[i] != t[i];
      var j :| 0 <= j < 8 && s[i][j] != t[i][j];
      FlipsAt(s, t, i, j);
      var e := 8 * (|s| - 1 - i) + j;
      InShift(Flips(s, t), 16, e + 16);
      if q == {} { InTimesG({}, e + 16); }
      var a, b := MultipleSpansMoreThanSixteen(q);
      InShift(Flips(s, t), 16, a);
      InShift(Flips(s, t), 16, b);
    }
  }

  // An odd number of flipped bits, wherever they are, is detected.
  lemma OddFlipsDetected(s: seq<Byte>, t: seq<Byte>)
    requires |Flips(s, t)| % 2 == 1
    ensures CrcOf(s) != CrcOf(t)
  {
    if CrcOf(s) == CrcOf(t) {
      var q := SameCrcMeansMultiple(s, t);
      ShiftSize(Flips(s, t), 16);
      MultipleHasEvenTerms(q);
    }
  }

  // Corruption confined to two adjacent bytes makes check fail.
  lemma AdjacentBytesDetected(s: seq<Byte>, t: seq<Byte>, i: nat, crc: Word)
    requires |s| == |t| && s != t && i < |s|
    requires forall k :: 0 <= k < |s| && k != i && k != i + 1 ==> s[k] == t[k]
    requires Check(s, crc)
    ensures !Check(t, crc)
  {
    var low: nat := if i + 1 < |s| then 8 * (|s| - 2 - i) else 0;
    forall e | e in Flips(s, t) ensures low <= e < low + 16 {
      FlipsAt(s, t, |s| - 1 - e / 8, e % 8);
    }
    BurstDetected(s, t, low);
  }
}
