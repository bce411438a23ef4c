// Polynomials over GF(2), a polynomial being the finite set of the exponents whose
// coefficient is 1. This is the reference against which the shift-trick CRC is judged.
module Polynomials {

  type Poly = set<nat>

  // Addition is symmetric difference.
  function Add(p: Poly, q: Poly): Poly {
    (p - q) + (q - p)
  }

  // Multiplication by x^k.
  function Shift(p: Poly, k: nat): Poly {
    set e | e in p :: e + k
  }

  // Multiplication by the CCITT generator x^16 + x^12 + x^5 + 1.
  function TimesG(p: Poly): Poly {
    Add(Add(Shift(p, 16), Shift(p, 12)), Add(Shift(p, 5), p))
  }

  const G: Poly := {16, 12, 5, 0}

  lemma TimesGOfOne()
    ensures TimesG({0}) == G
  {
    assert Shift({0}, 16) == {16} && Shift({0}, 12) == {12} && Shift({0}, 5) == {5};
  }

  ghost predicate DegreeBelow(p: Poly, n: nat) {
    forall e :: e in p ==> e < n
  }

  lemma InShift(p: Poly, k: nat, e: nat)
    ensures e in Shift(p, k) <==> e >= k && e - k in p
  {
    if e >= k && e - k in p {
      assert e == (e - k) + k;
    }
  }

  lemma InTimesG(p: Poly, e: nat)
    ensures e in TimesG(p) <==>
            (((e >= 16 && e - 16 in p) != (e >= 12 && e - 12 in p)) != ((e >= 5 && e - 5 in p) != (e in p)))
  {
    InShift(p, 16, e);
    InShift(p, 12, e);
    InShift(p, 5, e);
  }

  lemma TimesGAdd(p: Poly, q: Poly)
    ensures TimesG(Add(p, q)) == Add(TimesG(p), TimesG(q))
  {
    forall e: nat ensures e in TimesG(Add(p, q)) <==> e in Add(TimesG(p), TimesG(q)) {
      InTimesG(p, e);
      InTimesG(q, e);
      InTimesG(Add(p, q), e);
    }
  }

  lemma ShiftAdd(p: Poly, q: Poly, k: nat)
    ensures Shift(Add(p, q), k) == Add(Shift(p, k), Shift(q, k))
  {
    forall e: nat ensures e in Shift(Add(p, q), k) <==> e in Add(Shift(p, k), Shift(q, k)) {
      InShift(p, k, e);
      InShift(q, k, e);
      InShift(Add(p, q), k, e);
    }
  }

  lemma ShiftShift(p: Poly, j: nat, k: nat)
    ensures Shift(Shift(p, j), k) == Shift(p, j + k)
  {
    forall e: nat ensures e in Shift(Shift(p, j), k) <==> e in Shift(p, j + k) {
      InShift(Shift(p, j), k, e);
      InShift(p, j + k, e);
      if e >= k { InShift(p, j, e - k); }
    }
  }

  lemma ShiftTimesG(p: Poly, k: nat)
    ensures TimesG(Shift(p, k)) == Shift(TimesG(p), k)
  {
    var a, b := Add(Shift(p, 16), Shift(p, 12)), Add(Shift(p, 5), p);
    ShiftAdd(a, b, k);
    ShiftAdd(Shift(p, 16), Shift(p, 12), k);
    ShiftAdd(Shift(p, 5), p, k);
    ShiftShift(p, 16, k);
    ShiftShift(p, k, 16);
    ShiftShift(p, 12, k);
    ShiftShift(p, k, 12);
    ShiftShift(p, 5, k);
    ShiftShift(p, k, 5);
  }

  lemma {:induction false} HasMaximum(p: Poly) returns (m: nat)
    requires p != {}
    ensures m in p && forall e :: e in p ==> e <= m
  {
    m :| m in p;
    var rest := p - {m};
    assert forall e :: e in p ==> e in rest || e == m;
    if rest != {} {
      var n := HasMaximum(rest);
      if n > m { m := n; }
    }
  }

  lemma {:induction false} HasMinimum(p: Poly) returns (m: nat)
    requires p != {}
    ensures m in p && forall e :: e in p ==> m <= e
  {
    m :| m in p;
    var rest := p - {m};
    assert forall e :: e in p ==> e in rest || e == m;
    if rest != {} {
      var n := HasMinimum(rest);
      if n < m { m := n; }
    }
  }

  // A nonzero multiple of G spans more than 16 exponents: its lowest term is the lowest
  // term of the cofactor, its highest is 16 above the highest term of the cofactor.
  lemma MultipleSpansMoreThanSixteen(q: Poly) returns (low: nat, high: nat)
    requires q != {}
    ensures low in TimesG(q) && high in TimesG(q) && high >= low + 16
  {
    low := HasMinimum(q);
    var m := HasMaximum(q);
    high := m + 16;
    InTimesG(q, low);
    InTimesG(q, high);
  }

  // The remainder of division by G is unique.
  lemma RemainderUnique(q1: Poly, r1: Poly, q2: Poly, r2: Poly)
    requires DegreeBelow(r1, 16) && DegreeBelow(r2, 16)
    requires Add(TimesG(q1), r1) == Add(TimesG(q2), r2)
    ensures q1 == q2 && r1 == r2
  {
    TimesGAdd(q1, q2);
    var d := Add(q1, q2);
    assert TimesG(d) == Add(r1, r2) by {
      forall e: nat ensures e in TimesG(d) <==> e in Add(r1, r2) {
        assert e in Add(TimesG(q1), r1) <==> e in Add(TimesG(q2), r2);
      }
    }
    if d != {} {
      var low, high := MultipleSpansMoreThanSixteen(d);
      assert false;
    }
    assert q1 == q2 by {
      forall e: nat ensures e in q1 <==> e in q2 { assert e !in d; }
    }
    forall e: nat ensures e in r1 <==> e in r2 {
      assert e !in TimesG(d) by { InTimesG({}, e); }
    }
  }

  lemma AddParity(p: Poly, q: Poly)
    ensures |Add(p, q)| % 2 == (|p| + |q|) % 2
  {
    var i := p * q;
    assert p == (p - q) + i && q == (q - p) + i;
    assert |p| == |p - q| + |i|;
    assert |q| == |q - p| + |i|;
    assert |Add(p, q)| == |p - q| + |q - p|;
  }

  lemma {:induction false} ShiftSize(p: Poly, k: nat)
    ensures |Shift(p, k)| == |p|
  {
    if p != {} {
      var e :| e in p;
      var rest := p - {e};
      ShiftSize(rest, k);
      InShift(rest, k, e + k);
      assert Shift(p, k) == Shift(rest, k) + {e + k} by {
        forall d: nat ensures d in Shift(p, k) <==> d in Shift(rest, k) + {e + k} {
          InShift(p, k, d);
          InShift(rest, k, d);
        }
      }
    }
  }

  lemma SumParity(p: Poly, q: Poly)
    requires (|p| + |q|) % 2 == 0
    ensures |Add(p, q)| % 2 == 0
  {
    AddParity(p, q);
  }

  lemma FourSumParity(a: Poly, b: Poly, c: Poly, d: Poly)
    requires |a| == |b| == |c| == |d|
    ensures |Add(Add(a, b), Add(c, d))| % 2 == 0
  {
    SumParity(a, b);
    SumParity(c, d);
    var ab, cd := Add(a, b), Add(c, d);
    SumParity(ab, cd);
  }

  // G has an even number of terms, so every multiple of it has.
  lemma MultipleHasEvenTerms(q: Poly)
    ensures |TimesG(q)| % 2 == 0
  {
    ShiftSize(q, 16);
    ShiftSize(q, 12);
    ShiftSize(q, 5);
    FourSumParity(Shift(q, 16), Shift(q, 12), Shift(q, 5), q);
  }
}
