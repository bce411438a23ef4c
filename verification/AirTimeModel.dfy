// Airtime accounting as values: rotating buckets, and the full log they stand for.
module AirTimeModel {

  const U32 := 0x1_0000_0000
  const CHANNEL_PERIODS := 6
  const MINUTES := 60
  const PERIODS := 8

  datatype Kind = TX | RX | RX_ALL

  datatype State = State(
    channel: seq<nat>,        // channelUtilization: ten-second buckets, any kind
    tx: seq<nat>,             // utilizationTX: one-minute buckets
    periodTX: seq<nat>, periodRX: seq<nat>, periodRXAll: seq<nat>,   // hourly slots, newest first
    airTx: seq<nat>, airRx: seq<nat>,                                // the global copies
    lastPeriodIndex: nat, lastUtilPeriod: nat, lastUtilPeriodTX: nat,
    sec: nat, firstTime: bool)

  predicate Shaped(s: State) {
    && |s.channel| == CHANNEL_PERIODS && |s.tx| == MINUTES
    && |s.periodTX| == |s.periodRX| == |s.periodRXAll| == |s.airTx| == |s.airRx| == PERIODS
  }

  function Zeros(n: nat): (z: seq<nat>)
    ensures |z| == n && forall i :: 0 <= i < n ==> z[i] == 0
  {
    seq(n, _ => 0)
  }

  function Boot(): (s: State)
    ensures Shaped(s)
  {
    State(Zeros(CHANNEL_PERIODS), Zeros(MINUTES),
          Zeros(PERIODS), Zeros(PERIODS), Zeros(PERIODS), Zeros(PERIODS), Zeros(PERIODS),
          0, 0, 0, 0, true)
  }

  // uint32_t addition into one bucket
  function Bump(b: seq<nat>, i: nat, ms: nat): (r: seq<nat>)
    requires i < |b|
    ensures |r| == |b|
  {
    b[i := (b[i] + ms) % U32]
  }

  function LogAirtime(s: State, kind: Kind, ms: nat): (r: State)
    requires Shaped(s)
    ensures Shaped(r)
  {
    var t := match kind
      case TX => s.(periodTX := Bump(s.periodTX, 0, ms), airTx := Bump(s.airTx, 0, ms),
                    tx := Bump(s.tx, s.sec / 60 % MINUTES, ms))
      case RX => s.(periodRX := Bump(s.periodRX, 0, ms), airRx := Bump(s.airRx, 0, ms))
      case RX_ALL => s.(periodRXAll := Bump(s.periodRXAll, 0, ms));
    t.(channel := Bump(s.channel, s.sec / 10 % CHANNEL_PERIODS, ms))
  }

  // Shift every slot to the next older one.
  function Shifted(p: seq<nat>): (r: seq<nat>)
    requires |p| == PERIODS
    ensures |r| == PERIODS
  {
    [0] + p[..PERIODS - 1]
  }

  function Rotate(s: State): (r: State)
    requires Shaped(s)
    ensures Shaped(r)
  {
    var index := s.sec / 3600 % PERIODS;
    if s.lastPeriodIndex == index then s
    else s.(periodTX := Shifted(s.periodTX), periodRX := Shifted(s.periodRX), periodRXAll := Shifted(s.periodRXAll),
            airTx := Shifted(s.periodTX), airRx := Shifted(s.periodRX), lastPeriodIndex := index)
  }

  // A new ten-second or one-minute period starts its bucket at zero.
  function ResetChannel(s: State): (r: State)
    requires Shaped(s)
    ensures Shaped(r)
  {
    var util := s.sec / 10 % CHANNEL_PERIODS;
    if s.lastUtilPeriod == util then s else s.(lastUtilPeriod := util, channel := s.channel[util := 0])
  }

  function ResetTX(s: State): (r: State)
    requires Shaped(s)
    ensures Shaped(r)
  {
    var util := s.sec / 60 % MINUTES;
    if s.lastUtilPeriodTX == util then s else s.(lastUtilPeriodTX := util, tx := s.tx[util := 0])
  }

  function FirstRun(s: State): (r: State)
    requires Shaped(s)
    ensures Shaped(r)
  {
    s.(tx := Zeros(MINUTES), channel := Zeros(CHANNEL_PERIODS), periodTX := Zeros(PERIODS), periodRX := Zeros(PERIODS),
       periodRXAll := Zeros(PERIODS), firstTime := false, lastUtilPeriod := s.sec / 10 % CHANNEL_PERIODS)
  }

  function RunOnce(s0: State): (r: State)
    requires Shaped(s0)
    ensures Shaped(r)
  {
    var s := s0.(sec := (s0.sec + 1) % U32);
    if s.firstTime then FirstRun(s) else ResetTX(ResetChannel(Rotate(s)))
  }

  // ---- The full log -------------------------------------------------------------------------

  datatype Entry = Entry(sec: nat, kind: Kind, ms: nat)

  // Everything of these kinds logged in one period of the given width.
  function Total(log: seq<Entry>, kinds: set<Kind>, width: nat, period: int): nat
    requires width > 0
  {
    if log == [] then 0 else
    var e := log[|log| - 1];
    Total(log[..|log| - 1], kinds, width, period) + if e.kind in kinds && e.sec / width == period then e.ms else 0
  }

  lemma TotalAppend(log: seq<Entry>, e: Entry, kinds: set<Kind>, width: nat, period: int)
    requires width > 0
    ensures Total(log + [e], kinds, width, period) ==
            Total(log, kinds, width, period) + if e.kind in kinds && e.sec / width == period then e.ms else 0
  {
    assert (log + [e])[..|log|] == log;
  }

  predicate UpTo(log: seq<Entry>, sec: nat) {
    forall i :: 0 <= i < |log| ==> log[i].sec <= sec
  }

  lemma {:induction false} NothingOutside(log: seq<Entry>, kinds: set<Kind>, width: nat, period: int, sec: nat)
    requires width > 0 && UpTo(log, sec) && (period < 0 || period > sec / width)
    ensures Total(log, kinds, width, period) == 0
  {
    if log != [] {
      NothingOutside(log[..|log| - 1], kinds, width, period, sec);
      DivMonotone(log[|log| - 1].sec, sec, width);
    }
  }

  lemma DivMonotone(a: nat, b: nat, w: nat)
    requires a <= b && w > 0
    ensures a / w <= b / w
  {
    if a / w > b / w {
      Scale(b / w + 1, a / w, w);
    }
  }

  lemma Scale(x: int, y: int, w: nat)
    requires x <= y
    ensures x * w <= y * w
  {
  }

  // The period bucket i of n stands for while period p is current: the last one congruent to i.
  function Slot(p: nat, n: nat, i: nat): int
    requires n > 0
  {
    p - (p - i) % n
  }

  // Rotating buckets over the last n periods.
  ghost predicate Window(b: seq<nat>, log: seq<Entry>, kinds: set<Kind>, width: nat, p: nat)
    requires width > 0
  {
    |b| > 0 && forall i :: 0 <= i < |b| ==> b[i] == Total(log, kinds, width, Slot(p, |b|, i)) % U32
  }

  // Slots ordered by age.
  ghost predicate Ages(b: seq<nat>, log: seq<Entry>, kind: Kind, p: nat) {
    |b| == PERIODS && forall k :: 0 <= k < PERIODS ==> b[k] == Total(log, {kind}, 3600, p - k) % U32
  }

  lemma ModAdd(a: nat, b: nat)
    ensures (a % U32 + b) % U32 == (a + b) % U32
  {
  }

  lemma SlotIsCurrent(p: nat, n: nat, i: nat)
    requires i < n
    ensures Slot(p, n, i) == p <==> i == p % n
  {
    var d := p - i;
    if d % n == 0 {
      assert p == i + d / n * n;
      ModOf(p, d / n, n, i);
    }
    if i == p % n {
      assert d == p / n * n;
      MultipleMod(p / n, n);
    }
  }

  lemma ModOf(p: int, q: int, n: nat, r: nat)
    requires r < n && p == r + q * n
    ensures p % n == r
  {
    var k := q - p / n;
    assert k * n == q * n - p / n * n;
    if k >= 1 { Scale(1, k, n); }
    if k <= -1 { Scale(k, -1, n); }
  }

  lemma MultipleMod(q: int, n: nat)
    requires n > 0
    ensures q * n % n == 0
  {
    ModOf(q * n, q, n, 0);
  }

  lemma SlotOfNext(p: nat, n: nat, i: nat)
    requires i < n && i != (p + 1) % n
    ensures Slot(p + 1, n, i) == Slot(p, n, i)
  {
    SlotIsCurrent(p + 1, n, i);
    var d := p + 1 - i;
    assert d % n != 0;
    var q, r := d / n, d % n;
    assert d - 1 == (r - 1) + q * n;
    ModOf(d - 1, q, n, r - 1);
  }

  lemma WindowLogs(b: seq<nat>, log: seq<Entry>, kinds: set<Kind>, width: nat, p: nat, e: Entry)
    requires width > 0 && Window(b, log, kinds, width, p) && e.sec / width == p
    ensures Window(if e.kind in kinds then Bump(b, p % |b|, e.ms) else b, log + [e], kinds, width, p)
  {
    var next := if e.kind in kinds then Bump(b, p % |b|, e.ms) else b;
    forall i | 0 <= i < |b| ensures next[i] == Total(log + [e], kinds, width, Slot(p, |b|, i)) % U32 {
      SlotIsCurrent(p, |b|, i);
      TotalAppend(log, e, kinds, width, Slot(p, |b|, i));
      ModAdd(Total(log, kinds, width, Slot(p, |b|, i)), e.ms);
    }
  }

  lemma WindowAdvances(b: seq<nat>, log: seq<Entry>, kinds: set<Kind>, width: nat, p: nat, sec: nat)
    requires width > 0 && Window(b, log, kinds, width, p) && UpTo(log, sec) && sec / width == p
    ensures Window(b[(p + 1) % |b| := 0], log, kinds, width, p + 1)
  {
    var next := b[(p + 1) % |b| := 0];
    forall i | 0 <= i < |b| ensures next[i] == Total(log, kinds, width, Slot(p + 1, |b|, i)) % U32 {
      if i == (p + 1) % |b| {
        SlotIsCurrent(p + 1, |b|, i);
        NothingOutside(log, kinds, width, p + 1, sec);
      } else {
        SlotOfNext(p, |b|, i);
      }
    }
  }

  lemma AgesLog(b: seq<nat>, log: seq<Entry>, kind: Kind, p: nat, e: Entry)
    requires Ages(b, log, kind, p) && e.sec / 3600 == p
    ensures Ages(if e.kind == kind then Bump(b, 0, e.ms) else b, log + [e], kind, p)
  {
    var next := if e.kind == kind then Bump(b, 0, e.ms) else b;
    forall k | 0 <= k < PERIODS ensures next[k] == Total(log + [e], {kind}, 3600, p - k) % U32 {
      TotalAppend(log, e, {kind}, 3600, p - k);
      ModAdd(Total(log, {kind}, 3600, p - k), e.ms);
    }
  }

  lemma AgesShift(b: seq<nat>, log: seq<Entry>, kind: Kind, p: nat, sec: nat)
    requires Ages(b, log, kind, p) && UpTo(log, sec) && sec / 3600 == p
    ensures Ages(Shifted(b), log, kind, p + 1)
  {
    NothingOutside(log, {kind}, 3600, p + 1, sec);
    forall k | 0 <= k < PERIODS ensures Shifted(b)[k] == Total(log, {kind}, 3600, p + 1 - k) % U32 {
      if k > 0 { assert p + 1 - k == p - (k - 1); }
    }
  }

  // ---- Runs -----------------------------------------------------------------------------------

  datatype Action = Tick | Log(kind: Kind, ms: nat)

  function Do(s: State, a: Action): (r: State)
    requires Shaped(s)
    ensures Shaped(r)
  {
    match a
    case Tick => RunOnce(s)
    case Log(kind, ms) => LogAirtime(s, kind, ms)
  }

  function After(actions: seq<Action>): (s: State)
    ensures Shaped(s)
  {
    if actions == [] then Boot() else Do(After(actions[..|actions| - 1]), actions[|actions| - 1])
  }

  // What was logged after the first tick, which wipes the buckets.
  function LogAfter(actions: seq<Action>): seq<Entry> {
    if actions == [] then [] else
    var front, a := actions[..|actions| - 1], actions[|actions| - 1];
    if a.Log? && !After(front).firstTime then LogAfter(front) + [Entry(After(front).sec, a.kind, a.ms)]
    else LogAfter(front)
  }

  // What was logged before it.
  function Early(actions: seq<Action>, kind: Kind): nat {
    if actions == [] then 0 else
    var front, a := actions[..|actions| - 1], actions[|actions| - 1];
    Early(front, kind) + if a.Log? && a.kind == kind && After(front).firstTime then a.ms else 0
  }

  function Ticks(actions: seq<Action>): nat {
    if actions == [] then 0 else Ticks(actions[..|actions| - 1]) + if actions[|actions| - 1].Tick? then 1 else 0
  }

  const EVERY := {TX, RX, RX_ALL}

  // The global copy: the hourly slots, plus, in the first hour, what came before the first tick.
  ghost predicate Copies(air: seq<nat>, slots: seq<nat>, hour: nat, early: nat)
    requires |air| == |slots| == PERIODS
  {
    && air[0] == (slots[0] + if hour == 0 then early else 0) % U32
    && forall k :: 1 <= k < PERIODS ==> air[k] == slots[k]
  }

  ghost predicate ChannelMirrors(s: State, log: seq<Entry>) {
    Window(s.channel, log, EVERY, 10, s.sec / 10) && s.lastUtilPeriod == s.sec / 10 % CHANNEL_PERIODS
  }

  ghost predicate TXMirrors(s: State, log: seq<Entry>) {
    Window(s.tx, log, {TX}, 60, s.sec / 60) && s.lastUtilPeriodTX == s.sec / 60 % MINUTES
  }

  ghost predicate HoursMirror(s: State, log: seq<Entry>, earlyTX: nat, earlyRX: nat)
    requires Shaped(s)
  {
    && Ages(s.periodTX, log, TX, s.sec / 3600)
    && Ages(s.periodRX, log, RX, s.sec / 3600)
    && Ages(s.periodRXAll, log, RX_ALL, s.sec / 3600)
    && Copies(s.airTx, s.periodTX, s.sec / 3600, earlyTX)
    && Copies(s.airRx, s.periodRX, s.sec / 3600, earlyRX)
    && s.lastPeriodIndex == s.sec / 3600 % PERIODS
  }

  ghost predicate Mirrors(s: State, log: seq<Entry>, earlyTX: nat, earlyRX: nat) {
    && Shaped(s) && !s.firstTime && UpTo(log, s.sec)
    && ChannelMirrors(s, log) && TXMirrors(s, log) && HoursMirror(s, log, earlyTX, earlyRX)
  }

  lemma LogKeepsHours(s: State, log: seq<Entry>, earlyTX: nat, earlyRX: nat, kind: Kind, ms: nat)
    requires Shaped(s) && HoursMirror(s, log, earlyTX, earlyRX)
    ensures HoursMirror(LogAirtime(s, kind, ms), log + [Entry(s.sec, kind, ms)], earlyTX, earlyRX)
  {
    var e := Entry(s.sec, kind, ms);
    AgesLog(s.periodTX, log, TX, s.sec / 3600, e);
    AgesLog(s.periodRX, log, RX, s.sec / 3600, e);
    AgesLog(s.periodRXAll, log, RX_ALL, s.sec / 3600, e);
    CopiesLog(s.airTx, s.periodTX, s.sec / 3600, earlyTX, ms);
    CopiesLog(s.airRx, s.periodRX, s.sec / 3600, earlyRX, ms);
  }

  lemma LogKeeps(s: State, log: seq<Entry>, earlyTX: nat, earlyRX: nat, kind: Kind, ms: nat)
    requires Mirrors(s, log, earlyTX, earlyRX)
    ensures Mirrors(LogAirtime(s, kind, ms), log + [Entry(s.sec, kind, ms)], earlyTX, earlyRX)
  {
    var e := Entry(s.sec, kind, ms);
    WindowLogs(s.channel, log, EVERY, 10, s.sec / 10, e);
    WindowLogs(s.tx, log, {TX}, 60, s.sec / 60, e);
    LogKeepsHours(s, log, earlyTX, earlyRX, kind, ms);
  }

  lemma CopiesLog(air: seq<nat>, slots: seq<nat>, hour: nat, early: nat, ms: nat)
    requires |air| == |slots| == PERIODS && Copies(air, slots, hour, early)
    ensures Copies(Bump(air, 0, ms), Bump(slots, 0, ms), hour, early)
  {
    var e := if hour == 0 then early else 0;
    ModAdd(slots[0] + e, ms);
    ModAdd(slots[0] + ms, e);
  }

  // The next period has another bucket.
  lemma NextPeriods(p: nat)
    ensures (p + 1) % CHANNEL_PERIODS != p % CHANNEL_PERIODS && (p + 1) % MINUTES != p % MINUTES
    ensures (p + 1) % PERIODS != p % PERIODS
  {
  }

  lemma TickChannel(s: State, t: State, log: seq<Entry>)
    requires Shaped(s) && Shaped(t) && ChannelMirrors(s, log) && UpTo(log, s.sec)
    requires t.sec == s.sec + 1 && t.channel == s.channel && t.lastUtilPeriod == s.lastUtilPeriod
    ensures ChannelMirrors(ResetChannel(t), log)
  {
    if t.sec / 10 != s.sec / 10 {
      NextPeriods(s.sec / 10);
      assert t.sec / 10 == s.sec / 10 + 1;
      WindowAdvances(s.channel, log, EVERY, 10, s.sec / 10, s.sec);
    }
  }

  lemma TickTX(s: State, t: State, log: seq<Entry>)
    requires Shaped(s) && Shaped(t) && TXMirrors(s, log) && UpTo(log, s.sec)
    requires t.sec == s.sec + 1 && t.tx == s.tx && t.lastUtilPeriodTX == s.lastUtilPeriodTX
    ensures TXMirrors(ResetTX(t), log)
  {
    if t.sec / 60 != s.sec / 60 {
      NextPeriods(s.sec / 60);
      assert t.sec / 60 == s.sec / 60 + 1;
      WindowAdvances(s.tx, log, {TX}, 60, s.sec / 60, s.sec);
    }
  }

  lemma TickHours(s: State, log: seq<Entry>, earlyTX: nat, earlyRX: nat)
    requires Shaped(s) && HoursMirror(s, log, earlyTX, earlyRX) && UpTo(log, s.sec)
    ensures HoursMirror(Rotate(s.(sec := s.sec + 1)), log, earlyTX, earlyRX)
  {
    var p, sec := s.sec / 3600, s.sec + 1;
    if sec / 3600 == p {
      assert Rotate(s.(sec := sec)) == s.(sec := sec);
    } else {
      assert sec / 3600 == p + 1;
      NextPeriods(p);
      AgesShift(s.periodTX, log, TX, p, s.sec);
      AgesShift(s.periodRX, log, RX, p, s.sec);
      AgesShift(s.periodRXAll, log, RX_ALL, p, s.sec);
    }
  }

  lemma RotateFrame(s: State)
    requires Shaped(s)
    ensures var t := Rotate(s);
            && t.sec == s.sec && t.firstTime == s.firstTime && t.channel == s.channel && t.tx == s.tx
            && t.lastUtilPeriod == s.lastUtilPeriod && t.lastUtilPeriodTX == s.lastUtilPeriodTX
  {
  }

  lemma RunOnceAfterFirst(s: State, t: State)
    requires Shaped(s) && !s.firstTime && s.sec + 1 < U32 && t == Rotate(s.(sec := s.sec + 1))
    ensures RunOnce(s) == ResetTX(ResetChannel(t))
  {
    assert (s.sec + 1) % U32 == s.sec + 1;
  }

  lemma TickParts(s: State, t: State, u: State, v: State, log: seq<Entry>, earlyTX: nat, earlyRX: nat)
    requires Mirrors(s, log, earlyTX, earlyRX)
    requires t == Rotate(s.(sec := s.sec + 1)) && u == ResetChannel(t) && v == ResetTX(u)
    ensures Mirrors(v, log, earlyTX, earlyRX) && v.sec == s.sec + 1
  {
    RotateFrame(s.(sec := s.sec + 1));
    TickHours(s, log, earlyTX, earlyRX);
    TickChannel(s, t, log);
    TickTX(s, u, log);
    OthersKeep(t, u, v, log, earlyTX, earlyRX);
  }

  lemma TickKeeps(s: State, log: seq<Entry>, earlyTX: nat, earlyRX: nat)
    requires Mirrors(s, log, earlyTX, earlyRX) && s.sec + 1 < U32
    ensures Mirrors(RunOnce(s), log, earlyTX, earlyRX) && RunOnce(s).sec == s.sec + 1
  {
    var t := Rotate(s.(sec := s.sec + 1));
    RunOnceAfterFirst(s, t);
    TickParts(s, t, ResetChannel(t), RunOnce(s), log, earlyTX, earlyRX);
  }

  // The two resets leave everything but their own bucket array alone.
  lemma OthersKeep(t: State, u: State, v: State, log: seq<Entry>, earlyTX: nat, earlyRX: nat)
    requires Shaped(t) && HoursMirror(t, log, earlyTX, earlyRX) && !t.firstTime
    requires u == ResetChannel(t) && v == ResetTX(u) && ChannelMirrors(u, log)
    ensures HoursMirror(v, log, earlyTX, earlyRX) && ChannelMirrors(v, log) && !v.firstTime && v.sec == t.sec
  {
    assert v == u.(tx := v.tx, lastUtilPeriodTX := v.lastUtilPeriodTX);
    assert u == t.(channel := u.channel, lastUtilPeriod := u.lastUtilPeriod);
  }

  // Before the first tick only the globals and the buckets it will wipe have moved.
  ghost predicate Waiting(s: State, earlyTX: nat, earlyRX: nat) {
    && Shaped(s) && s.firstTime && s.sec == 0
    && s.lastPeriodIndex == 0 && s.lastUtilPeriodTX == 0
    && Copies(s.airTx, Zeros(PERIODS), 0, earlyTX) && Copies(s.airRx, Zeros(PERIODS), 0, earlyRX)
  }

  lemma FirstTick(s: State, earlyTX: nat, earlyRX: nat)
    requires Waiting(s, earlyTX, earlyRX)
    ensures Mirrors(RunOnce(s), [], earlyTX, earlyRX) && RunOnce(s).sec == 1
  {
    EmptyWindow(CHANNEL_PERIODS, EVERY, 10, 0);
    EmptyWindow(MINUTES, {TX}, 60, 0);
    EmptyAges(TX);
    EmptyAges(RX);
    EmptyAges(RX_ALL);
  }

  lemma EmptyWindow(n: nat, kinds: set<Kind>, width: nat, p: nat)
    requires n > 0 && width > 0
    ensures Window(Zeros(n), [], kinds, width, p)
  {
  }

  lemma EmptyAges(kind: Kind)
    ensures Ages(Zeros(PERIODS), [], kind, 0)
  {
  }

  lemma EarlyLog(s: State, earlyTX: nat, earlyRX: nat, kind: Kind, ms: nat)
    requires Waiting(s, earlyTX, earlyRX)
    ensures Waiting(LogAirtime(s, kind, ms), earlyTX + if kind == TX then ms else 0,
                    earlyRX + if kind == RX then ms else 0)
  {
    ModAdd(earlyTX, ms);
    ModAdd(earlyRX, ms);
  }

  ghost predicate Faithful(s: State, ticks: nat, log: seq<Entry>, earlyTX: nat, earlyRX: nat) {
    && s.firstTime == (ticks == 0) && s.sec == ticks
    && if s.firstTime then log == [] && Waiting(s, earlyTX, earlyRX) else Mirrors(s, log, earlyTX, earlyRX)
  }

  lemma DoKeeps(s: State, ticks: nat, log: seq<Entry>, earlyTX: nat, earlyRX: nat, a: Action)
    requires Faithful(s, ticks, log, earlyTX, earlyRX) && (a.Tick? ==> ticks + 1 < U32)
    ensures Faithful(Do(s, a), if a.Tick? then ticks + 1 else ticks,
                     if a.Log? && !s.firstTime then log + [Entry(s.sec, a.kind, a.ms)] else log,
                     earlyTX + if a.Log? && a.kind == TX && s.firstTime then a.ms else 0,
                     earlyRX + if a.Log? && a.kind == RX && s.firstTime then a.ms else 0)
  {
    match a
    case Tick =>
      if s.firstTime { FirstTick(s, earlyTX, earlyRX); } else { TickKeeps(s, log, earlyTX, earlyRX); }
    case Log(kind, ms) =>
      if s.firstTime { EarlyLog(s, earlyTX, earlyRX, kind, ms); } else { LogKeeps(s, log, earlyTX, earlyRX, kind, ms); }
  }

  lemma BootIsFaithful()
    ensures Faithful(Boot(), 0, [], 0, 0)
  {
  }

  // The refinement, over every interleaving of ticks and log calls: once the first tick has
  // happened, buckets and slots hold exactly the logged totals of their periods.
  lemma {:induction false} BucketsMirrorTheLog(actions: seq<Action>)
    requires Ticks(actions) < U32
    ensures Faithful(After(actions), Ticks(actions), LogAfter(actions), Early(actions, TX), Early(actions, RX))
  {
    if actions == [] {
      BootIsFaithful();
    } else {
      var front := actions[..|actions| - 1];
      BucketsMirrorTheLog(front);
      DoKeeps(After(front), Ticks(front), LogAfter(front), Early(front, TX), Early(front, RX), actions[|actions| - 1]);
    }
  }

  // The globals are the hourly slots if nothing was logged before the first tick; a total
  // logged there that is not a multiple of 2^32 shows for the first hour, and only then.
  lemma GlobalsMirrorExactly(actions: seq<Action>)
    requires 0 < Ticks(actions) < U32
    ensures var s := After(actions);
            && (s.airTx == s.periodTX <==> s.sec >= 3600 || Early(actions, TX) % U32 == 0)
            && (s.airRx == s.periodRX <==> s.sec >= 3600 || Early(actions, RX) % U32 == 0)
  {
    BucketsMirrorTheLog(actions);
    var s := After(actions);
    CopiesExactly(s.airTx, s.periodTX, s.sec / 3600, Early(actions, TX));
    CopiesExactly(s.airRx, s.periodRX, s.sec / 3600, Early(actions, RX));
  }

  lemma CopiesExactly(air: seq<nat>, slots: seq<nat>, hour: nat, early: nat)
    requires |air| == |slots| == PERIODS && Copies(air, slots, hour, early) && slots[0] < U32
    ensures air == slots <==> hour > 0 || early % U32 == 0
  {
    ModAdd(early, slots[0]);
  }
}
