// State of charge from cell voltage, by interpolation in a table of open-circuit voltages.
module Battery {
  import opened Basics

  // The table holds millivolts per cell, from full to empty.
  ghost predicate Decreasing(ocv: seq<nat>) {
    forall i, j | 0 <= i < j < |ocv| :: ocv[i] > ocv[j]
  }

  // The first entry that the voltage reaches; the length of the table when it reaches none.
  function Segment(ocv: seq<nat>, voltage: nat): (i: nat)
    ensures i <= |ocv|
    ensures forall j | 0 <= j < i :: ocv[j] > voltage
    ensures i < |ocv| ==> ocv[i] <= voltage
  {
    if |ocv| == 0 || ocv[0] <= voltage then 0 else 1 + Segment(ocv[1..], voltage)
  }

  // The height on the curve, in table steps above the last entry.
  ghost function Level(ocv: seq<nat>, voltage: nat): real
    requires |ocv| >= 2 && Decreasing(ocv)
  {
    var i := Segment(ocv, voltage);
    if i == |ocv| then 0.0
    else if i == 0 then (|ocv| - 1) as real
    else (|ocv| - 1 - i) as real + (voltage - ocv[i]) as real / (ocv[i - 1] - ocv[i]) as real
  }

  function Charge(steps: int, level: real): real
    requires steps > 0
  {
    100.0 / steps as real * level
  }

  ghost function Percent(ocv: seq<nat>, voltage: nat): int
    requires |ocv| >= 2 && Decreasing(ocv)
  {
    Charge(|ocv| - 1, Level(ocv, voltage)).Floor
  }

  // ---- The shape of the curve ------------------------------------------------------------------

  lemma FractionInUnit(a: int, b: int)
    requires 0 <= a < b
    ensures 0.0 <= a as real / b as real < 1.0
  {
  }

  lemma FractionRises(a: int, c: int, b: int)
    requires a < c && 0 < b
    ensures a as real / b as real < c as real / b as real
  {
  }

  lemma LevelInSegment(ocv: seq<nat>, voltage: nat)
    requires |ocv| >= 2 && Decreasing(ocv)
    ensures var i, top := Segment(ocv, voltage), |ocv| - 1;
            && (0 < i <= top ==> (top - i) as real <= Level(ocv, voltage) < (top - i + 1) as real)
            && (i == 0 ==> Level(ocv, voltage) == top as real)
            && (i > top ==> Level(ocv, voltage) == 0.0)
  {
    var i := Segment(ocv, voltage);
    if 0 < i < |ocv| {
      FractionInUnit(voltage - ocv[i], ocv[i - 1] - ocv[i]);
    }
  }

  // From one entry to the next, both included, the level rises by one step in proportion to the voltage.
  lemma LevelIsLinear(ocv: seq<nat>, i: nat, voltage: nat)
    requires |ocv| >= 2 && Decreasing(ocv) && 0 < i < |ocv| && ocv[i] <= voltage <= ocv[i - 1]
    ensures Level(ocv, voltage) ==
            (|ocv| - 1 - i) as real + (voltage - ocv[i]) as real / (ocv[i - 1] - ocv[i]) as real
  {
    if voltage == ocv[i - 1] {
      LevelAtEntry(ocv, i - 1);
    } else {
      SegmentIsFirst(ocv, voltage, i);
    }
  }

  lemma LevelNeverFalls(ocv: seq<nat>, low: nat, high: nat)
    requires |ocv| >= 2 && Decreasing(ocv) && low < high
    ensures Level(ocv, low) <= Level(ocv, high)
    ensures ocv[|ocv| - 1] <= low && high <= ocv[0] ==> Level(ocv, low) < Level(ocv, high)
  {
    LevelInSegment(ocv, low);
    LevelInSegment(ocv, high);
    var i, j := Segment(ocv, low), Segment(ocv, high);
    assert j <= i;
    if 0 < i == j < |ocv| {
      FractionRises(low - ocv[i], high - ocv[i], ocv[i - 1] - ocv[i]);
    }
  }

  lemma ChargeKeepsOrder(steps: int, a: real, b: real)
    requires steps > 0 && a <= b
    ensures Charge(steps, a).Floor <= Charge(steps, b).Floor
  {
    var k := 100.0 / steps as real;
    assert k > 0.0;
    assert k * (b - a) >= 0.0;
  }

  lemma PercentNeverFalls(ocv: seq<nat>, low: nat, high: nat)
    requires |ocv| >= 2 && Decreasing(ocv) && low <= high
    ensures Percent(ocv, low) <= Percent(ocv, high)
  {
    if low < high {
      LevelNeverFalls(ocv, low, high);
      ChargeKeepsOrder(|ocv| - 1, Level(ocv, low), Level(ocv, high));
    }
  }

  lemma LevelAtEntry(ocv: seq<nat>, i: nat)
    requires |ocv| >= 2 && Decreasing(ocv) && i < |ocv|
    ensures Level(ocv, ocv[i]) == (|ocv| - 1 - i) as real
  {
    assert Segment(ocv, ocv[i]) == i;
  }

  // Table entry i counts for n - 1 - i of n - 1 equal steps from empty to full.
  lemma PercentAtEntry(ocv: seq<nat>, i: nat)
    requires |ocv| >= 2 && Decreasing(ocv) && i < |ocv|
    ensures Percent(ocv, ocv[i]) == 100 * (|ocv| - 1 - i) / (|ocv| - 1)
  {
    LevelAtEntry(ocv, i);
    ChargeOfWholeSteps(|ocv| - 1, |ocv| - 1 - i);
  }

  lemma ChargeOfWholeSteps(steps: int, m: int)
    requires steps > 0 && m >= 0
    ensures Charge(steps, m as real).Floor == 100 * m / steps
  {
    FloorOfQuotient(100 * m, steps);
    assert 100.0 / steps as real * m as real == (100 * m) as real / steps as real;
  }

  lemma FloorOfQuotient(a: int, b: int)
    requires 0 <= a && 0 < b
    ensures (a as real / b as real).Floor == a / b
  {
    var q := a / b;
    assert q * b <= a < (q + 1) * b;
    assert q as real * b as real == (q * b) as real;
    assert (q + 1) as real * b as real == ((q + 1) * b) as real;
    assert q as real <= a as real / b as real < (q + 1) as real;
  }

  lemma PercentInRange(ocv: seq<nat>, voltage: nat)
    requires |ocv| >= 2 && Decreasing(ocv)
    ensures 0 <= Percent(ocv, voltage) <= 100
    ensures voltage >= ocv[0] ==> Percent(ocv, voltage) == 100
    ensures voltage < ocv[|ocv| - 1] ==> Percent(ocv, voltage) == 0
  {
    var top := |ocv| - 1;
    FullCharge(top);
    LevelInSegment(ocv, voltage);
    assert voltage < ocv[top] ==> Segment(ocv, voltage) == |ocv|;
    assert 0.0 <= Level(ocv, voltage) <= top as real;
    ChargeKeepsOrder(top, 0.0, Level(ocv, voltage));
    ChargeKeepsOrder(top, Level(ocv, voltage), top as real);
  }

  // ---- The reading ------------------------------------------------------------------------------

  lemma FullCharge(steps: int)
    requires steps > 0
    ensures Charge(steps, steps as real) == 100.0 && Charge(steps, 0.0) == 0.0
  {
  }

  lemma SegmentIsFirst(ocv: seq<nat>, voltage: nat, i: nat)
    requires i < |ocv| && ocv[i] <= voltage && forall j | 0 <= j < i :: ocv[j] > voltage
    ensures Segment(ocv, voltage) == i
  {
  }

  class AnalogBatteryLevel {
    const ocv: seq<nat>
    const numCells: nat

    ghost predicate Valid() {
      |ocv| >= 2 && Decreasing(ocv) && numCells > 0
    }

    function NoBatVolt(): real
      requires |ocv| > 0
    {
      ((ocv[|ocv| - 1] - 500) * numCells) as real
    }

    // The per-cell voltage is kept in sixteen bits, so v is what a pack of that many cells can have.
    method GetBatteryPercent(v: real) returns (percent: int)
      requires Valid() && 0.0 <= v < 65536.0 * numCells as real
      ensures percent == if v < NoBatVolt() then -1 else Percent(ocv, (v / numCells as real).Floor)
      ensures -1 <= percent <= 100 && (percent == -1 <==> v < ((ocv[|ocv| - 1] - 500) * numCells) as real)
    {
      if v < NoBatVolt() {
        return -1;
      }
      var voltage: nat := (v / numCells as real).Floor;
      var soc := StateOfCharge(voltage);
      PercentInRange(ocv, voltage);
      percent := Clamp(soc.Floor, 0, 100);
    }

    method StateOfCharge(voltage: nat) returns (soc: real)
      requires Valid()
      ensures soc == Charge(|ocv| - 1, Level(ocv, voltage))
    {
      soc := 0.0;
      var i := 0;
      while i < |ocv|
        invariant 0 <= i <= |ocv| && soc == 0.0
        invariant forall j | 0 <= j < i :: ocv[j] > voltage
      {
        if ocv[i] <= voltage {
          SegmentIsFirst(ocv, voltage, i);
          if i == 0 {
            soc := 100.0;
            FullCharge(|ocv| - 1);
          } else {
            soc := Charge(|ocv| - 1, (|ocv| - 1 - i) as real +
                      (voltage - ocv[i]) as real / (ocv[i - 1] - ocv[i]) as real);
          }
          return;
        }
        i := i + 1;
      }
      FullCharge(|ocv| - 1);
      assert Segment(ocv, voltage) == |ocv|;
    }
  }
}
