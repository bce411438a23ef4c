// When a disturbed accelerometer or magnetometer is ignored, and for how long.
module FusionRecovery {
  import opened Basics

  // A zero reading, one whose error is within the threshold (or that comes during
  // initialisation), and one whose error is above it.
  datatype Reading = Missing | Agreeing | Disagreeing

  datatype Recovery = Recovery(trigger: int, timeout: int, ignored: bool) {
    predicate Flag() {
      trigger > timeout
    }
  }

  function Fresh(period: nat): Recovery {
    Recovery(0, period, false)
  }

  function Observe(s: Recovery, period: nat, reading: Reading): Recovery {
    if reading == Missing then
      s.(ignored := true)
    else
      var trigger := if reading == Agreeing then s.trigger - 9 else s.trigger + 1;
      Recovery(Clamp(trigger, 0, period),
               if trigger > s.timeout then 0 else period,
               reading == Disagreeing && trigger <= s.timeout)
  }

  function Run(s: Recovery, period: nat, readings: seq<Reading>): Recovery {
    if |readings| == 0 then s
    else Observe(Run(s, period, readings[..|readings| - 1]), period, readings[|readings| - 1])
  }

  function Present(readings: seq<Reading>): nat {
    if |readings| == 0 then 0
    else Present(readings[..|readings| - 1]) + if readings[|readings| - 1] == Missing then 0 else 1
  }

  // ---- What every run keeps ------------------------------------------------------------------

  predicate Steady(s: Recovery, period: nat) {
    || (s.timeout == period && 0 <= s.trigger <= period)
    || (s.timeout == 0 && 0 < s.trigger <= period)
  }

  lemma {:induction false} RunStaysSteady(s: Recovery, period: nat, readings: seq<Reading>)
    requires Steady(s, period)
    ensures Steady(Run(s, period, readings), period)
  {
    if |readings| > 0 {
      RunStaysSteady(s, period, readings[..|readings| - 1]);
    }
  }

  // With a period of zero the timeout is zero although nothing is being recovered from.
  lemma FlagShowsTimeout(period: nat, readings: seq<Reading>)
    ensures var s := Run(Fresh(period), period, readings);
            (s.Flag() <==> s.timeout == 0) <==> period >= 1
  {
    RunStaysSteady(Fresh(period), period, readings);
  }

  lemma {:induction false} RunConcatenates(s: Recovery, period: nat, first: seq<Reading>, second: seq<Reading>)
    ensures Run(s, period, first + second) == Run(Run(s, period, first), period, second)
  {
    if |second| == 0 {
      assert first + second == first;
    } else {
      var last := |second| - 1;
      assert (first + second)[..|first| + last] == first + second[..last];
      RunConcatenates(s, period, first, second[..last]);
    }
  }

  // ---- How long a sensor is ignored ----------------------------------------------------------

  ghost predicate AllIgnored(s: Recovery, period: nat, readings: seq<Reading>) {
    forall k | 0 < k <= |readings| :: Run(s, period, readings[..k]).ignored
  }

  lemma {:induction false} IgnoredReadingsAreCounted(s: Recovery, period: nat, readings: seq<Reading>)
    requires Steady(s, period) && AllIgnored(s, period, readings)
    ensures Run(s, period, readings).trigger == s.trigger + Present(readings)
    ensures Run(s, period, readings).timeout == s.timeout
    ensures s.timeout == 0 ==> Present(readings) == 0
  {
    if |readings| > 0 {
      var before := readings[..|readings| - 1];
      forall k | 0 < k <= |before|
        ensures Run(s, period, before[..k]).ignored
      {
        assert before[..k] == readings[..k];
      }
      IgnoredReadingsAreCounted(s, period, before);
      RunStaysSteady(s, period, before);
      assert readings[..|readings|] == readings;
    }
  }

  lemma OutageIsBounded(period: nat, readings: seq<Reading>, from: nat, to: nat)
    requires from <= to <= |readings|
    requires forall k | from < k <= to :: Run(Fresh(period), period, readings[..k]).ignored
    ensures Present(readings[from..to]) <= period
  {
    var s, window := Run(Fresh(period), period, readings[..from]), readings[from..to];
    RunStaysSteady(Fresh(period), period, readings[..from]);
    forall k | 0 < k <= |window|
      ensures Run(s, period, window[..k]).ignored
    {
      assert readings[..from] + window[..k] == readings[..from + k];
      RunConcatenates(Fresh(period), period, readings[..from], window[..k]);
    }
    IgnoredReadingsAreCounted(s, period, window);
    RunStaysSteady(s, period, window);
  }

  // The bound is met: as many disagreeing readings as the period are ignored, and the next is used.
  lemma {:induction false} OutageReachesBound(period: nat, n: nat)
    requires n <= period + 1
    ensures var s := Run(Fresh(period), period, seq(n, i => Disagreeing));
            n > 0 ==> (s.ignored <==> n <= period)
    ensures var s := Run(Fresh(period), period, seq(n, i => Disagreeing));
            n <= period ==> s.trigger == n && s.timeout == period
  {
    if n > 0 {
      assert seq(n, i => Disagreeing)[..n - 1] == seq(n - 1, i => Disagreeing);
      OutageReachesBound(period, n - 1);
    }
  }

  // Once recovery has begun every reading is used until the trigger has fallen to zero, and
  // recovery ends just then.
  lemma {:induction false} RecoveryUsesEveryReading(s: Recovery, period: nat, readings: seq<Reading>)
    requires Steady(s, period) && s.Flag()
    requires forall k | 0 <= k < |readings| :: Run(s, period, readings[..k]).trigger > 0
    ensures var t := Run(s, period, readings);
            && (t.Flag() <==> t.trigger > 0)
            && (|readings| > 0 ==> (t.ignored <==> readings[|readings| - 1] == Missing))
  {
    if |readings| > 0 {
      var before := readings[..|readings| - 1];
      forall k | 0 <= k < |before|
        ensures Run(s, period, before[..k]).trigger > 0
      {
        assert before[..k] == readings[..k];
      }
      RecoveryUsesEveryReading(s, period, before);
      RunStaysSteady(s, period, before);
    }
  }

  // One agreeing reading makes up for nine disagreeing ones. It is always used, and so many of them
  // in a row end a recovery.
  lemma {:induction false} AgreeingReadingsRecover(s: Recovery, period: nat, n: nat)
    requires Steady(s, period)
    ensures var t := Run(s, period, seq(n, i => Agreeing));
            && t.trigger == (if 9 * n < s.trigger then s.trigger - 9 * n else 0)
            && (n > 0 ==> !t.ignored)
            && (s.Flag() && period > 0 ==> (t.Flag() <==> 9 * n < s.trigger))
  {
    if n > 0 {
      assert seq(n, i => Agreeing)[..n - 1] == seq(n - 1, i => Agreeing);
      AgreeingReadingsRecover(s, period, n - 1);
      RunStaysSteady(s, period, seq(n - 1, i => Agreeing));
    }
  }
}
