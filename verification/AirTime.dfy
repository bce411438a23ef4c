// The airtime object with its bucket arrays, proved against AirTimeModel.
module AirTime {
  import opened AirTimeModel
  import opened DutyCycle

  class AirTime {
    const channelUtilization: array<nat>
    const utilizationTX: array<nat>
    const periodTX: array<nat>
    const periodRX: array<nat>
    const periodRXAll: array<nat>
    const airPeriodTx: array<nat>
    const airPeriodRx: array<nat>
    var lastPeriodIndex: nat
    var lastUtilPeriod: nat
    var lastUtilPeriodTX: nat
    var secSinceBoot: nat
    var firstTime: bool

    ghost function Repr(): set<object> {
      {this, channelUtilization, utilizationTX, periodTX, periodRX, periodRXAll, airPeriodTx, airPeriodRx}
    }

    ghost predicate Valid() {
      && channelUtilization.Length == CHANNEL_PERIODS && utilizationTX.Length == MINUTES
      && periodTX.Length == periodRX.Length == periodRXAll.Length == PERIODS
      && airPeriodTx.Length == airPeriodRx.Length == PERIODS
      && periodTX != periodRX && periodTX != periodRXAll && periodTX != airPeriodTx && periodTX != airPeriodRx
      && periodRX != periodRXAll && periodRX != airPeriodTx && periodRX != airPeriodRx
      && periodRXAll != airPeriodTx && periodRXAll != airPeriodRx && airPeriodTx != airPeriodRx
    }

    // lengths tell the other two arrays apart
    ghost function Abs(): (s: State)
      requires Valid()
      reads Repr()
      ensures Shaped(s)
    {
      State(channelUtilization[..], utilizationTX[..], periodTX[..], periodRX[..], periodRXAll[..],
            airPeriodTx[..], airPeriodRx[..], lastPeriodIndex,
            lastUtilPeriod, lastUtilPeriodTX, secSinceBoot, firstTime)
    }

    constructor ()
      ensures Valid() && fresh(Repr()) && Abs() == Boot()
    {
      channelUtilization, utilizationTX := new nat[CHANNEL_PERIODS](_ => 0), new nat[MINUTES](_ => 0);
      periodTX, periodRX, periodRXAll := new nat[PERIODS](_ => 0), new nat[PERIODS](_ => 0), new nat[PERIODS](_ => 0);
      airPeriodTx, airPeriodRx := new nat[PERIODS](_ => 0), new nat[PERIODS](_ => 0);
      lastPeriodIndex, lastUtilPeriod, lastUtilPeriodTX, secSinceBoot, firstTime := 0, 0, 0, 0, true;
    }

    static method AddTo(bucket: array<nat>, i: nat, ms: nat)
      requires i < bucket.Length
      modifies bucket
      ensures bucket[..] == Bump(old(bucket[..]), i, ms)
    {
      bucket[i] := (bucket[i] + ms) % U32;
    }

    method Log(kind: Kind, ms: nat)
      requires Valid()
      modifies Repr()
      ensures Abs() == LogAirtime(old(Abs()), kind, ms)
    {
      match kind {
        case TX =>
          AddTo(periodTX, 0, ms);
          AddTo(airPeriodTx, 0, ms);
          AddTo(utilizationTX, secSinceBoot / 60 % MINUTES, ms);
        case RX =>
          AddTo(periodRX, 0, ms);
          AddTo(airPeriodRx, 0, ms);
        case RX_ALL =>
          AddTo(periodRXAll, 0, ms);
      }
      AddTo(channelUtilization, secSinceBoot / 10 % CHANNEL_PERIODS, ms);
    }

    // The rotation loop, oldest slot first.
    method AirtimeRotatePeriod()
      requires Valid()
      modifies Repr()
      ensures Abs() == Rotate(old(Abs()))
    {
      var current := secSinceBoot / 3600 % PERIODS;
      if lastPeriodIndex != current {
        ShiftSlots(periodTX, airPeriodTx);
        ShiftSlots(periodRX, airPeriodRx);
        ShiftDown(periodRXAll);
        lastPeriodIndex := current;
      }
    }

    // Shifts the slots and copies the shifted ones to the global array.
    static method ShiftSlots(slots: array<nat>, copies: array<nat>)
      requires slots.Length == copies.Length == PERIODS && slots != copies
      modifies slots, copies
      ensures slots[..] == Shifted(old(slots[..])) && copies[..] == Shifted(old(slots[..]))
    {
      var i := PERIODS - 2;
      while i >= 0
        invariant -1 <= i <= PERIODS - 2
        invariant forall k :: 0 <= k <= i + 1 ==> slots[k] == old(slots[k])
        invariant forall k :: i + 2 <= k < PERIODS ==> slots[k] == copies[k] == old(slots[k - 1])
      {
        slots[i + 1] := slots[i];
        copies[i + 1] := slots[i];
        i := i - 1;
      }
      slots[0] := 0;
      copies[0] := 0;
    }

    static method ShiftDown(slots: array<nat>)
      requires slots.Length == PERIODS
      modifies slots
      ensures slots[..] == Shifted(old(slots[..]))
    {
      var i := PERIODS - 2;
      while i >= 0
        invariant -1 <= i <= PERIODS - 2
        invariant forall k :: 0 <= k <= i + 1 ==> slots[k] == old(slots[k])
        invariant forall k :: i + 2 <= k < PERIODS ==> slots[k] == old(slots[k - 1])
      {
        slots[i + 1] := slots[i];
        i := i - 1;
      }
      slots[0] := 0;
    }

    static method Clear(b: array<nat>)
      modifies b
      ensures b[..] == Zeros(b.Length)
    {
      for i := 0 to b.Length
        invariant forall k :: 0 <= k < i ==> b[k] == 0
      {
        b[i] := 0;
      }
    }

    method ClearBuckets(utilPeriod: nat)
      requires Valid() && utilPeriod == secSinceBoot / 10 % CHANNEL_PERIODS
      modifies Repr()
      ensures Abs() == FirstRun(old(Abs()))
    {
      Clear(utilizationTX);
      Clear(channelUtilization);
      Clear(periodTX);
      Clear(periodRX);
      Clear(periodRXAll);
      firstTime := false;
      lastUtilPeriod := utilPeriod;
    }

    method ResetBuckets(utilPeriod: nat, utilPeriodTX: nat)
      requires Valid() && utilPeriod == secSinceBoot / 10 % CHANNEL_PERIODS
                && utilPeriodTX == secSinceBoot / 60 % MINUTES
      modifies `lastUtilPeriod, `lastUtilPeriodTX, channelUtilization, utilizationTX
      ensures Abs() == ResetTX(ResetChannel(old(Abs())))
    {
      if lastUtilPeriod != utilPeriod {
        lastUtilPeriod := utilPeriod;
        channelUtilization[utilPeriod] := 0;
      }
      if lastUtilPeriodTX != utilPeriodTX {
        lastUtilPeriodTX := utilPeriodTX;
        utilizationTX[utilPeriodTX] := 0;
      }
    }

    method Tick()
      requires Valid()
      modifies Repr()
      ensures Abs() == RunOnce(old(Abs()))
    {
      secSinceBoot := (secSinceBoot + 1) % U32;
      var utilPeriod := secSinceBoot / 10 % CHANNEL_PERIODS;
      var utilPeriodTX := secSinceBoot / 60 % MINUTES;
      if firstTime {
        ClearBuckets(utilPeriod);
      } else {
        AirtimeRotatePeriod();
        ResetBuckets(utilPeriod, utilPeriodTX);
      }
    }

    method UtilizationPercent() returns (percent: real)
      requires Valid()
      ensures percent == UtilizationTXPercent(Abs())
    {
      var sum := 0;
      for i := 0 to MINUTES
        invariant sum == SumAll(utilizationTX[..i]) % U32
      {
        assert utilizationTX[..i + 1][..i] == utilizationTX[..i];
        ModAdd(SumAll(utilizationTX[..i]), utilizationTX[i]);
        sum := (sum + utilizationTX[i]) % U32;
      }
      assert utilizationTX[..MINUTES] == utilizationTX[..];
      percent := sum as real / 3600000.0 * 100.0;
    }

    method IsTxAllowedAirUtil(overrideDutyCycle: bool, dutyCycle: real) returns (ok: bool)
      requires Valid()
      ensures ok == TxAllowed(Abs(), overrideDutyCycle, dutyCycle)
    {
      if !overrideDutyCycle && dutyCycle < 100.0 {
        var percent := UtilizationPercent();
        return percent < dutyCycle * 50.0 / 100.0;
      }
      return true;
    }
  }
}
