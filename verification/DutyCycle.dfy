// The duty-cycle gate on transmissions, against everything that was sent.
module DutyCycle {
  import opened AirTimeModel

  function SumAll(b: seq<nat>): nat {
    if b == [] then 0 else SumAll(b[..|b| - 1]) + b[|b| - 1]
  }

  lemma {:induction false} SumUpdate(b: seq<nat>, i: nat, v: nat)
    requires i < |b|
    ensures SumAll(b[i := v]) == SumAll(b) - b[i] + v
  {
    var n := |b| - 1;
    if i < n {
      SumUpdate(b[..n], i, v);
      assert b[i := v][..n] == b[..n][i := v];
    } else {
      assert b[i := v][..n] == b[..n];
    }
  }

  // utilizationTXPercent, over exact reals; the sum is a uint32_t.
  function UtilizationTXPercent(s: State): real {
    (SumAll(s.tx) % U32) as real / 3600000.0 * 100.0
  }

  predicate TxAllowed(s: State, overrideDutyCycle: bool, dutyCycle: real) {
    if !overrideDutyCycle && dutyCycle < 100.0 then UtilizationTXPercent(s) < dutyCycle * 50.0 / 100.0 else true
  }

  // ---- Everything sent in the last sixty minutes ------------------------------------------------

  // Transmit time in the sixty minutes up to the given one.
  function SentInWindow(log: seq<Entry>, minute: int): nat {
    if log == [] then 0 else
    var e := log[|log| - 1];
    SentInWindow(log[..|log| - 1], minute) +
    if e.kind == TX && minute - 60 < e.sec / 60 <= minute then e.ms else 0
  }

  function TXInWindow(log: seq<Entry>, sec: nat): nat {
    SentInWindow(log, sec / 60)
  }

  lemma SentAppend(log: seq<Entry>, e: Entry, minute: int)
    ensures SentInWindow(log + [e], minute) ==
            SentInWindow(log, minute) + if e.kind == TX && minute - 60 < e.sec / 60 <= minute then e.ms else 0
  {
    assert (log + [e])[..|log|] == log;
  }

  lemma LogAddsToWindow(log: seq<Entry>, e: Entry)
    ensures TXInWindow(log + [e], e.sec) == TXInWindow(log, e.sec) + if e.kind == TX then e.ms else 0
  {
    SentAppend(log, e, e.sec / 60);
  }

  lemma {:induction false} LaterWindow(log: seq<Entry>, minute: int, sec: nat)
    requires UpTo(log, sec) && sec / 60 <= minute
    ensures SentInWindow(log, minute + 1) <= SentInWindow(log, minute)
  {
    if log != [] {
      var front, e := log[..|log| - 1], log[|log| - 1];
      LaterWindow(front, minute, sec);
      assert e.sec <= sec;
    }
  }

  lemma TickOnlyForgets(log: seq<Entry>, sec: nat)
    requires UpTo(log, sec)
    ensures TXInWindow(log, sec + 1) <= TXInWindow(log, sec)
  {
    if (sec + 1) / 60 != sec / 60 {
      LaterWindow(log, sec / 60, sec);
    }
  }

  // ---- The sixty buckets add up to it -----------------------------------------------------------

  // True transmit totals, unreduced, of the minutes the sixty buckets stand for.
  function MinuteTotals(log: seq<Entry>, p: nat): (b: seq<nat>)
    ensures |b| == MINUTES
  {
    seq(MINUTES, i requires 0 <= i < MINUTES => Total(log, {TX}, 60, Slot(p, MINUTES, i)))
  }

  lemma MinuteSlot(p: nat, i: nat)
    requires i < 60
    ensures p - 60 < Slot(p, MINUTES, i) <= p
    ensures Slot(p, MINUTES, i) % 60 == i
  {
    assert MINUTES == 60;
    var s := p - (p - i) % 60;
    assert s % 60 == i;
  }

  lemma SameMinute(a: int, b: int, p: nat)
    requires p - 60 < a <= p && p - 60 < b <= p && a % 60 == b % 60
    ensures a == b
  {
  }

  // Bucket i stands for minute m exactly when m is in the window and leaves remainder i.
  lemma SlotIs(p: nat, i: nat, m: int)
    requires i < 60
    ensures Slot(p, MINUTES, i) == m <==> p - 60 < m <= p && m % 60 == i
  {
    MinuteSlot(p, i);
    if p - 60 < m <= p && m % 60 == i {
      SameMinute(Slot(p, MINUTES, i), m, p);
    }
  }

  lemma TotalsAppend(log: seq<Entry>, e: Entry, p: nat, i: nat)
    requires i < 60
    ensures MinuteTotals(log + [e], p)[i] == MinuteTotals(log, p)[i] +
            if e.kind == TX && p - 60 < e.sec / 60 <= p && e.sec / 60 % 60 == i then e.ms else 0
  {
    SlotIs(p, i, e.sec / 60);
    TotalAppend(log, e, {TX}, 60, Slot(p, MINUTES, i));
  }

  lemma TotalsAppendAll(log: seq<Entry>, e: Entry, p: nat)
    ensures var b := MinuteTotals(log, p);
            MinuteTotals(log + [e], p) ==
            if e.kind == TX && p - 60 < e.sec / 60 <= p then b[e.sec / 60 % 60 := b[e.sec / 60 % 60] + e.ms] else b
  {
    var b, next := MinuteTotals(log, p), MinuteTotals(log + [e], p);
    forall i | 0 <= i < MINUTES
      ensures next[i] == b[i] + if e.kind == TX && p - 60 < e.sec / 60 <= p && e.sec / 60 % 60 == i then e.ms else 0
    {
      TotalsAppend(log, e, p, i);
    }
  }

  lemma {:induction false} BucketsAddUp(log: seq<Entry>, p: nat)
    ensures SumAll(MinuteTotals(log, p)) == SentInWindow(log, p)
  {
    if log == [] {
      ZeroSum(MinuteTotals(log, p));
    } else {
      var front, e := log[..|log| - 1], log[|log| - 1];
      assert log == front + [e];
      BucketsAddUp(front, p);
      AddsUpWithOneMore(front, e, p);
    }
  }

  lemma AddsUpWithOneMore(log: seq<Entry>, e: Entry, p: nat)
    requires SumAll(MinuteTotals(log, p)) == SentInWindow(log, p)
    ensures SumAll(MinuteTotals(log + [e], p)) == SentInWindow(log + [e], p)
  {
    TotalsAppendAll(log, e, p);
    SentAppend(log, e, p);
    if e.kind == TX && p - 60 < e.sec / 60 <= p {
      var b, at := MinuteTotals(log, p), e.sec / 60 % 60;
      SumUpdate(b, at, b[at] + e.ms);
    }
  }

  lemma {:induction false} ZeroSum(b: seq<nat>)
    requires forall i :: 0 <= i < |b| ==> b[i] == 0
    ensures SumAll(b) == 0
  {
    if b != [] {
      ZeroSum(b[..|b| - 1]);
    }
  }

  function Reduced(b: seq<nat>): (r: seq<nat>)
    ensures |r| == |b|
  {
    seq(|b|, i requires 0 <= i < |b| => b[i] % U32)
  }

  lemma {:induction false} SumOfReduced(b: seq<nat>)
    ensures SumAll(Reduced(b)) % U32 == SumAll(b) % U32
  {
    if b != [] {
      var n := |b| - 1;
      SumOfReduced(b[..n]);
      assert Reduced(b)[..n] == Reduced(b[..n]);
      SumsModulo(SumAll(Reduced(b[..n])), SumAll(b[..n]), b[n]);
    }
  }

  lemma SumsModulo(x: nat, y: nat, z: nat)
    requires x % U32 == y % U32
    ensures (x + z % U32) % U32 == (y + z) % U32
  {
    ModAdd(x, z % U32);
    ModAdd(y, z);
    ModAdd(z, x % U32);
  }

  // The gate sees the true total, modulo 2^32.
  lemma GateSeesModulo(s: State, log: seq<Entry>)
    requires Shaped(s) && TXMirrors(s, log)
    ensures SumAll(s.tx) % U32 == TXInWindow(log, s.sec) % U32
  {
    var p := s.sec / 60;
    var b := MinuteTotals(log, p);
    forall i | 0 <= i < MINUTES
      ensures s.tx[i] == Reduced(b)[i]
    {
    }
    assert s.tx == Reduced(b);
    SumOfReduced(b);
    BucketsAddUp(log, p);
  }

  // As long as that total fits 32 bits, the gate sees the truth.
  lemma GateSeesTruth(s: State, log: seq<Entry>)
    requires Shaped(s) && TXMirrors(s, log) && TXInWindow(log, s.sec) < U32
    ensures SumAll(s.tx) % U32 == TXInWindow(log, s.sec)
  {
    GateSeesModulo(s, log);
    SmallMod(TXInWindow(log, s.sec));
  }

  lemma SmallMod(a: nat)
    requires a < U32
    ensures a % U32 == a
  {
  }

  // Each transmission is at most most ms long and logged right after the gate allowed it.
  ghost predicate Disciplined(actions: seq<Action>, most: nat, dutyCycle: real) {
    forall i :: 0 <= i < |actions| && actions[i].Log? && actions[i].kind == TX ==>
      actions[i].ms <= most && TxAllowed(After(actions[..i]), false, dutyCycle)
  }

  // Half the duty cycle of an hour, in milliseconds.
  function Limit(dutyCycle: real): real {
    dutyCycle * 18000.0
  }

  lemma AllowedBelowLimit(s: State, dutyCycle: real)
    requires dutyCycle < 100.0
    ensures TxAllowed(s, false, dutyCycle) <==> (SumAll(s.tx) % U32) as real < Limit(dutyCycle)
  {
  }

  // The gate over every run: open with an override or without a limit, and else exactly while the
  // transmissions of the last sixty minutes, modulo 2^32, take less than half the duty cycle.
  lemma GateExactly(actions: seq<Action>, overrideDutyCycle: bool, dutyCycle: real)
    requires 0 < Ticks(actions) < U32
    ensures var sent := TXInWindow(LogAfter(actions), Ticks(actions));
            TxAllowed(After(actions), overrideDutyCycle, dutyCycle) <==>
            overrideDutyCycle || dutyCycle >= 100.0 || (sent % U32) as real < 0.5 * (dutyCycle / 100.0 * 3_600_000.0)
  {
    BucketsMirrorTheLog(actions);
    GateSeesModulo(After(actions), LogAfter(actions));
    if dutyCycle < 100.0 {
      AllowedBelowLimit(After(actions), dutyCycle);
    }
  }

  lemma DisciplinedPrefix(actions: seq<Action>, most: nat, dutyCycle: real)
    requires Disciplined(actions, most, dutyCycle) && actions != []
    ensures Disciplined(actions[..|actions| - 1], most, dutyCycle)
  {
    var front := actions[..|actions| - 1];
    forall i | 0 <= i < |front| && front[i].Log? && front[i].kind == TX
      ensures front[i].ms <= most && TxAllowed(After(front[..i]), false, dutyCycle)
    {
      assert front[i] == actions[i] && front[..i] == actions[..i];
    }
  }

  ghost predicate Within(log: seq<Entry>, sec: nat, most: nat, dutyCycle: real) {
    TXInWindow(log, sec) as real < Limit(dutyCycle) + most as real
  }

  lemma AllowedLogKeeps(s: State, log: seq<Entry>, ms: nat, most: nat, dutyCycle: real)
    requires Shaped(s) && TXMirrors(s, log) && TxAllowed(s, false, dutyCycle) && ms <= most
    requires 0.0 <= dutyCycle < 100.0 && Limit(dutyCycle) + most as real <= U32 as real
    requires Within(log, s.sec, most, dutyCycle)
    ensures Within(log + [Entry(s.sec, TX, ms)], s.sec, most, dutyCycle)
  {
    GateSeesTruth(s, log);
    AllowedBelowLimit(s, dutyCycle);
    LogAddsToWindow(log, Entry(s.sec, TX, ms));
  }

  lemma DutyCycleStep(s: State, ticks: nat, log: seq<Entry>, earlyTX: nat, earlyRX: nat,
                      a: Action, most: nat, dutyCycle: real)
    requires Faithful(s, ticks, log, earlyTX, earlyRX) && (a.Tick? ==> ticks + 1 < U32)
    requires 0.0 <= dutyCycle < 100.0 && most > 0 && Limit(dutyCycle) + most as real <= U32 as real
    requires a.Log? && a.kind == TX ==> a.ms <= most && TxAllowed(s, false, dutyCycle)
    requires !s.firstTime ==> Within(log, s.sec, most, dutyCycle)
    ensures var next := if a.Log? && !s.firstTime then log + [Entry(s.sec, a.kind, a.ms)] else log;
            !Do(s, a).firstTime ==> Within(next, Do(s, a).sec, most, dutyCycle)
  {
    if s.firstTime {
      assert a.Tick? ==> RunOnce(s).sec / 60 == 0;
    } else if a.Tick? {
      RunOnceSec(s);
      TickOnlyForgets(log, s.sec);
    } else if a.kind == TX {
      AllowedLogKeeps(s, log, a.ms, most, dutyCycle);
    } else {
      LogAddsToWindow(log, Entry(s.sec, a.kind, a.ms));
    }
  }

  lemma RunOnceSec(s: State)
    requires Shaped(s) && s.sec + 1 < U32
    ensures RunOnce(s).sec == s.sec + 1
  {
  }

  // Duty-cycle guarantee, over every run: the transmissions of the window of sixty minutes
  // stay below the limit plus one transmission. The limit plus that transmission has to fit
  // the 32 bits the gate adds up in.
  lemma {:induction false} DutyCycleHolds(actions: seq<Action>, most: nat, dutyCycle: real)
    requires Ticks(actions) < U32 && Disciplined(actions, most, dutyCycle)
    requires 0.0 <= dutyCycle < 100.0 && most > 0 && Limit(dutyCycle) + most as real <= U32 as real
    ensures !After(actions).firstTime ==> Within(LogAfter(actions), After(actions).sec, most, dutyCycle)
  {
    if actions != [] {
      var front, a := actions[..|actions| - 1], actions[|actions| - 1];
      DisciplinedPrefix(actions, most, dutyCycle);
      DutyCycleHolds(front, most, dutyCycle);
      BucketsMirrorTheLog(front);
      assert a.Log? && a.kind == TX ==> a.ms <= most && TxAllowed(After(front), false, dutyCycle);
      DutyCycleStep(After(front), Ticks(front), LogAfter(front), Early(front, TX), Early(front, RX),
                    a, most, dutyCycle);
    }
  }

  // ---- What was sent before the first tick ------------------------------------------------------

  // Every transmission and reception, those before the first tick included.
  function Sent(actions: seq<Action>): seq<Entry> {
    if actions == [] then [] else
    var front, a := actions[..|actions| - 1], actions[|actions| - 1];
    if a.Log? then Sent(front) + [Entry(After(front).sec, a.kind, a.ms)] else Sent(front)
  }

  // Until the first tick the clock stands at zero.
  lemma {:induction false} ClockCountsTicks(actions: seq<Action>)
    requires Ticks(actions) < U32
    ensures After(actions).sec == Ticks(actions) && After(actions).firstTime == (Ticks(actions) == 0)
  {
    BucketsMirrorTheLog(actions);
  }

  // What was sent before the first tick counts for the first hour, and the buckets miss just that.
  lemma {:induction false} BucketsMissEarly(actions: seq<Action>, minute: nat)
    requires Ticks(actions) < U32
    ensures SentInWindow(Sent(actions), minute) ==
            SentInWindow(LogAfter(actions), minute) + if minute < 60 then Early(actions, TX) else 0
  {
    if actions != [] {
      var front, a := actions[..|actions| - 1], actions[|actions| - 1];
      BucketsMissEarly(front, minute);
      ClockCountsTicks(front);
      if a.Log? {
        var e := Entry(After(front).sec, a.kind, a.ms);
        SentAppend(Sent(front), e, minute);
        SentAppend(LogAfter(front), e, minute);
      }
    }
  }

  // Before the first tick everything goes into the first bucket.
  lemma {:induction false} EarlyBucket(actions: seq<Action>)
    requires Ticks(actions) == 0
    ensures After(actions).tx == Zeros(MINUTES)[0 := Early(actions, TX) % U32]
  {
    if actions != [] {
      var front, a := actions[..|actions| - 1], actions[|actions| - 1];
      EarlyBucket(front);
      ClockCountsTicks(front);
      FirstBucketGrows(After(front), a.kind, a.ms, Early(front, TX));
    }
  }

  lemma FirstBucketGrows(s: State, kind: Kind, ms: nat, early: nat)
    requires Shaped(s) && s.sec == 0 && s.tx == Zeros(MINUTES)[0 := early % U32]
    ensures LogAirtime(s, kind, ms).tx == Zeros(MINUTES)[0 := (early + if kind == TX then ms else 0) % U32]
  {
    ModAdd(early, ms);
  }

  lemma OneBucket(x: nat)
    ensures SumAll(Zeros(MINUTES)[0 := x]) == x
  {
    ZeroSum(Zeros(MINUTES));
    SumUpdate(Zeros(MINUTES), 0, x);
  }

  // The gate bounds that part as well.
  lemma {:induction false} EarlyIsBounded(actions: seq<Action>, most: nat, dutyCycle: real)
    requires Ticks(actions) < U32 && Disciplined(actions, most, dutyCycle)
    requires 0.0 <= dutyCycle < 100.0 && most > 0 && Limit(dutyCycle) + most as real <= U32 as real
    ensures Early(actions, TX) as real < Limit(dutyCycle) + most as real
  {
    if actions != [] {
      var front, a := actions[..|actions| - 1], actions[|actions| - 1];
      DisciplinedPrefix(actions, most, dutyCycle);
      EarlyIsBounded(front, most, dutyCycle);
      ClockCountsTicks(front);
      if a.Log? && a.kind == TX && After(front).firstTime {
        EarlyGate(front, dutyCycle);
      }
    }
  }

  lemma EarlyGate(actions: seq<Action>, dutyCycle: real)
    requires Ticks(actions) == 0 && Early(actions, TX) < U32 && dutyCycle < 100.0
    ensures TxAllowed(After(actions), false, dutyCycle) <==> Early(actions, TX) as real < Limit(dutyCycle)
  {
    EarlyBucket(actions);
    OneBucket(Early(actions, TX) % U32);
    SmallMod(Early(actions, TX));
    AllowedBelowLimit(After(actions), dutyCycle);
  }

  // Everything sent in the last sixty minutes, over every run: below the limit plus one
  // transmission, plus, in the first hour, what went out before the first tick.
  lemma EverythingSent(actions: seq<Action>, most: nat, dutyCycle: real)
    requires Ticks(actions) < U32 && Disciplined(actions, most, dutyCycle)
    requires 0.0 <= dutyCycle < 100.0 && most > 0 && Limit(dutyCycle) + most as real <= U32 as real
    ensures !After(actions).firstTime ==>
              var early := if After(actions).sec < 3600 then Early(actions, TX) else 0;
              TXInWindow(Sent(actions), After(actions).sec) as real < Limit(dutyCycle) + most as real + early as real
    ensures Early(actions, TX) as real < Limit(dutyCycle) + most as real
  {
    EarlyIsBounded(actions, most, dutyCycle);
    DutyCycleHolds(actions, most, dutyCycle);
    BucketsMissEarly(actions, After(actions).sec / 60);
  }

  // ---- The gate defeated ------------------------------------------------------------------------

  lemma AfterStep(actions: seq<Action>, a: Action)
    ensures After(actions + [a]) == Do(After(actions), a)
    ensures Ticks(actions + [a]) == Ticks(actions) + if a.Tick? then 1 else 0
    ensures LogAfter(actions + [a]) ==
            if a.Log? && !After(actions).firstTime then LogAfter(actions) + [Entry(After(actions).sec, a.kind, a.ms)]
            else LogAfter(actions)
    ensures Early(actions + [a], TX) ==
            Early(actions, TX) + if a.Log? && a.kind == TX && After(actions).firstTime then a.ms else 0
  {
    assert (actions + [a])[..|actions|] == actions;
  }

  // In the first minute everything logged so far is in the window.
  function Transmitted(actions: seq<Action>): nat {
    SentInWindow(LogAfter(actions), 0)
  }

  lemma FirstMinuteGate(actions: seq<Action>, dutyCycle: real)
    requires Ticks(actions) == 1 && dutyCycle < 100.0
    ensures !After(actions).firstTime && After(actions).sec == 1
    ensures TxAllowed(After(actions), false, dutyCycle) <==> (Transmitted(actions) % U32) as real < Limit(dutyCycle)
  {
    BucketsMirrorTheLog(actions);
    GateSeesModulo(After(actions), LogAfter(actions));
    AllowedBelowLimit(After(actions), dutyCycle);
  }

  lemma TransmitMore(actions: seq<Action>, ms: nat, most: nat, dutyCycle: real)
    requires Ticks(actions) == 1 && dutyCycle < 100.0 && Disciplined(actions, most, dutyCycle)
    requires ms <= most && (Transmitted(actions) % U32) as real < Limit(dutyCycle)
    ensures var next := actions + [Log(TX, ms)];
            && Ticks(next) == 1 && Disciplined(next, most, dutyCycle)
            && Transmitted(next) == Transmitted(actions) + ms && Early(next, TX) == Early(actions, TX)
  {
    FirstMinuteGate(actions, dutyCycle);
    AfterStep(actions, Log(TX, ms));
    SentAppend(LogAfter(actions), Entry(1, TX, ms), 0);
    DisciplinedLonger(actions, Log(TX, ms), most, dutyCycle);
  }

  lemma DisciplinedLonger(actions: seq<Action>, a: Action, most: nat, dutyCycle: real)
    requires Disciplined(actions, most, dutyCycle)
    requires a.Log? && a.kind == TX ==> a.ms <= most && TxAllowed(After(actions), false, dutyCycle)
    ensures Disciplined(actions + [a], most, dutyCycle)
  {
    var next := actions + [a];
    forall i | 0 <= i < |next| && next[i].Log? && next[i].kind == TX
      ensures next[i].ms <= most && TxAllowed(After(next[..i]), false, dutyCycle)
    {
      if i < |actions| {
        assert next[i] == actions[i] && next[..i] == actions[..i];
      } else {
        assert next[..i] == actions;
      }
    }
  }

  // A transmission long enough to wrap the sum defeats the gate: fill the window to exactly
  // 2^32 ms, and it looks empty.
  function WrappingRun(most: nat): seq<Action>
    requires most <= U32
  {
    [Tick, Log(TX, U32 - most), Log(TX, most), Log(TX, most)]
  }

  lemma WrapDefeatsTheGate(most: nat, dutyCycle: real)
    requires 0.0 < dutyCycle < 100.0 && most < U32 && Limit(dutyCycle) + most as real > U32 as real
    ensures var actions := WrappingRun(most);
            && Ticks(actions) == 1 && Disciplined(actions, most, dutyCycle)
            && !After(actions).firstTime && !Within(LogAfter(actions), After(actions).sec, most, dutyCycle)
  {
    var x: nat := U32 - most;
    assert x <= most by { assert Limit(dutyCycle) < 1800000.0; }
    var a1: seq<Action> := [Tick];
    OneTick();
    TransmitMore(a1, x, most, dutyCycle);
    var a2 := a1 + [Log(TX, x)];
    TransmitMore(a2, most, most, dutyCycle);
    var a3 := a2 + [Log(TX, most)];
    TransmitMore(a3, most, most, dutyCycle);
    assert WrappingRun(most) == a3 + [Log(TX, most)];
    FirstMinuteGate(WrappingRun(most), dutyCycle);
  }

  lemma OneTick()
    ensures Ticks([Tick]) == 1 && Transmitted([Tick]) == 0
  {
    assert [Tick][..0] == [];
  }

  // Over every run, short of the wrap of the clock, what was logged since the first tick keeps to
  // the limit plus one transmission.
  ghost predicate AlwaysHolds(most: nat, dutyCycle: real) {
    forall actions :: Ticks(actions) < U32 && Disciplined(actions, most, dutyCycle) && !After(actions).firstTime ==>
      Within(LogAfter(actions), After(actions).sec, most, dutyCycle)
  }

  // It does so if and only if the two fit the 32 bits of the sum.
  lemma DutyCycleHoldsExactly(most: nat, dutyCycle: real)
    requires 0.0 < dutyCycle < 100.0 && 0 < most < U32
    ensures AlwaysHolds(most, dutyCycle) <==> Limit(dutyCycle) + most as real <= U32 as real
  {
    if Limit(dutyCycle) + most as real <= U32 as real {
      forall actions | Ticks(actions) < U32 && Disciplined(actions, most, dutyCycle) && !After(actions).firstTime
        ensures Within(LogAfter(actions), After(actions).sec, most, dutyCycle)
      {
        DutyCycleHolds(actions, most, dutyCycle);
      }
    } else {
      WrapDefeatsTheGate(most, dutyCycle);
    }
  }

  // ---- What the gate forgets --------------------------------------------------------------------

  // A disciplined run into the first minute, with sent ms since its tick and early ms before.
  ghost predicate InFirstMinute(actions: seq<Action>, sent: nat, early: nat, most: nat, dutyCycle: real) {
    && Ticks(actions) == 1 && Disciplined(actions, most, dutyCycle)
    && Transmitted(actions) == sent && Early(actions, TX) == early
  }

  lemma SendMore(actions: seq<Action>, ms: nat, sent: nat, early: nat, most: nat, dutyCycle: real)
    requires InFirstMinute(actions, sent, early, most, dutyCycle) && dutyCycle < 100.0
    requires ms <= most && sent as real < Limit(dutyCycle) <= U32 as real
    ensures InFirstMinute(actions + [Log(TX, ms)], sent + ms, early, most, dutyCycle)
  {
    SmallMod(sent);
    TransmitMore(actions, ms, most, dutyCycle);
  }

  // Transmissions of 1 ms fill the window up to the limit.
  lemma FillUp(actions: seq<Action>, n: nat, early: nat, most: nat, dutyCycle: real) returns (filled: seq<Action>)
    requires InFirstMinute(actions, 0, early, most, dutyCycle)
    requires dutyCycle < 100.0 && most > 0 && n as real < Limit(dutyCycle) <= U32 as real
    ensures InFirstMinute(filled, n, early, most, dutyCycle)
  {
    filled := actions;
    for i := 0 to n
      invariant InFirstMinute(filled, i, early, most, dutyCycle)
    {
      SendMore(filled, 1, i, early, most, dutyCycle);
      filled := filled + [Log(TX, 1)];
    }
  }

  // The largest number of whole milliseconds below a limit.
  function Below(limit: real): (n: nat)
    requires limit > 0.0
    ensures n as real < limit <= n as real + 1.0
  {
    if limit.Floor as real == limit then limit.Floor - 1 else limit.Floor
  }

  lemma EarlyThenTick(ms: nat, most: nat, dutyCycle: real)
    requires 0.0 < Limit(dutyCycle) && dutyCycle < 100.0 && ms <= most
    ensures var a := [Log(TX, ms), Tick];
            Disciplined(a, most, dutyCycle) && Ticks(a) == 1 && Transmitted(a) == 0 && Early(a, TX) == ms
  {
    EarlyLogAllowed(ms, most, dutyCycle);
    AfterStep([Log(TX, ms)], Tick);
    DisciplinedLonger([Log(TX, ms)], Tick, most, dutyCycle);
    assert [Log(TX, ms), Tick] == [Log(TX, ms)] + [Tick];
  }

  lemma EarlyLogAllowed(ms: nat, most: nat, dutyCycle: real)
    requires 0.0 < Limit(dutyCycle) && dutyCycle < 100.0 && ms <= most
    ensures var a := [Log(TX, ms)];
            Disciplined(a, most, dutyCycle) && Ticks(a) == 0 && LogAfter(a) == [] && Early(a, TX) == ms
  {
    assert [Log(TX, ms)] == [] + [Log(TX, ms)];
    AfterStep([], Log(TX, ms));
    ZeroSum(Boot().tx);
    AllowedBelowLimit(Boot(), dutyCycle);
    DisciplinedLonger([], Log(TX, ms), most, dutyCycle);
  }

  // The gate forgets what it allowed before the first tick: with early ms sent by then, the window
  // is filled as if nothing had been.
  lemma EarlyTransmissionsEscape(early: nat, most: nat, dutyCycle: real) returns (actions: seq<Action>)
    requires 0.0 < dutyCycle < 100.0 && early <= most && most > 0 && Limit(dutyCycle) <= U32 as real
    ensures Ticks(actions) == 1 && Disciplined(actions, most, dutyCycle) && !After(actions).firstTime
    ensures Early(actions, TX) == early
    ensures TXInWindow(Sent(actions), After(actions).sec) == early + Below(Limit(dutyCycle)) + most
    ensures early > 0 ==> !Within(Sent(actions), After(actions).sec, most, dutyCycle)
  {
    var n := Below(Limit(dutyCycle));
    EarlyThenTick(early, most, dutyCycle);
    assert InFirstMinute([Log(TX, early), Tick], 0, early, most, dutyCycle);
    actions := FillUp([Log(TX, early), Tick], n, early, most, dutyCycle);
    SendMore(actions, most, n, early, most, dutyCycle);
    actions := actions + [Log(TX, most)];
    SentInFirstMinute(actions, n + most, early, most, dutyCycle);
  }

  lemma SentInFirstMinute(actions: seq<Action>, sent: nat, early: nat, most: nat, dutyCycle: real)
    requires InFirstMinute(actions, sent, early, most, dutyCycle) && dutyCycle < 100.0
    ensures !After(actions).firstTime && TXInWindow(Sent(actions), After(actions).sec) == sent + early
  {
    FirstMinuteGate(actions, dutyCycle);
    BucketsMissEarly(actions, 0);
  }

  // Everything sent keeps to the limit plus one transmission, in every run with at most early ms
  // sent before the first tick.
  ghost predicate AlwaysWithin(early: nat, most: nat, dutyCycle: real) {
    forall actions ::
      Ticks(actions) < U32 && Disciplined(actions, most, dutyCycle) && EarlyAtMost(actions, early) ==>
        Within(Sent(actions), After(actions).sec, most, dutyCycle)
  }

  ghost predicate EarlyAtMost(actions: seq<Action>, early: nat) {
    !After(actions).firstTime && Early(actions, TX) <= early
  }

  // At a duty cycle of zero the gate is closed from the start.
  lemma {:induction false} NothingEarly(actions: seq<Action>, most: nat)
    requires Disciplined(actions, most, 0.0)
    ensures Early(actions, TX) == 0
  {
    if actions != [] {
      var front, a := actions[..|actions| - 1], actions[|actions| - 1];
      DisciplinedPrefix(actions, most, 0.0);
      NothingEarly(front, most);
      AllowedBelowLimit(After(front), 0.0);
      assert a.Log? && a.kind == TX ==> TxAllowed(After(front), false, 0.0);
    }
  }

  // One millisecond before the first tick is too much.
  lemma EverythingWithinExactly(early: nat, most: nat, dutyCycle: real)
    requires 0.0 <= dutyCycle < 100.0 && most > 0 && Limit(dutyCycle) + most as real <= U32 as real
    ensures AlwaysWithin(early, most, dutyCycle) <==> early == 0 || dutyCycle == 0.0
  {
    if early == 0 || dutyCycle == 0.0 {
      forall actions |
        Ticks(actions) < U32 && Disciplined(actions, most, dutyCycle) && EarlyAtMost(actions, early)
        ensures Within(Sent(actions), After(actions).sec, most, dutyCycle)
      {
        EverythingSent(actions, most, dutyCycle);
        if dutyCycle == 0.0 { NothingEarly(actions, most); }
      }
    } else {
      var actions := EarlyTransmissionsEscape(1, most, dutyCycle);
      assert EarlyAtMost(actions, early);
    }
  }
}
