// The e-ink refresh chooser as one decision per frame, and what holds over whole runs.
module EInkModel {
  import opened Basics

  const U32 := 0x1_0000_0000
  type uint32 = n: nat | n < U32

  datatype FrameFlag = BACKGROUND | RESPONSIVE | COSMETIC | DEMAND_FAST | BLOCKING
  type Flags = set<FrameFlag>

  datatype Refresh = UNSPECIFIED | FULL | FAST | SKIPPED

  datatype Reason =
    | NO_OBJECTIONS
    | ASYNC_REFRESH_BLOCKED_DEMANDFAST
    | ASYNC_REFRESH_BLOCKED_COSMETIC
    | ASYNC_REFRESH_BLOCKED_RESPONSIVE
    | ASYNC_REFRESH_BLOCKED_BACKGROUND
    | EXCEEDED_RATELIMIT_FAST
    | EXCEEDED_RATELIMIT_FULL
    | FLAGGED_COSMETIC
    | FLAGGED_DEMAND_FAST
    | EXCEEDED_LIMIT_FASTREFRESH
    | FRAME_MATCHED_PREVIOUS
    | BACKGROUND_USES_FAST
    | FLAGGED_BACKGROUND
    | REDRAW_WITH_FULL

  // Build-time settings of a variant.
  datatype Config = Config(rateBackgroundMs: nat, rateResponsiveMs: nat, limitFast: nat,
                           backgroundUsesFast: bool, asyncFull: bool)

  datatype State = State(
    frameFlags: Flags, refresh: Refresh, reason: Reason,
    previousFrameFlags: Flags, previousRefresh: Refresh, previousReason: Reason,
    initialized: bool, previousRunMs: uint32, imageHash: uint32, previousImageHash: uint32,
    fastRefreshCount: uint32, currentConfig: Refresh, asyncRefreshRunning: bool)

  // What one update sees of the world: the clock, the BUSY pin at its two readings, the image.
  datatype World = World(now: uint32, busy: bool, stillBusy: bool, hash: uint32)

  function Boot(): State {
    State({BACKGROUND}, UNSPECIFIED, NO_OBJECTIONS, {BACKGROUND}, UNSPECIFIED, NO_OBJECTIONS,
          false, U32 - 1, 0, 0, 0, FULL, false)
  }

  // ---- The decision ------------------------------------------------------------------------

  // Flags carried over from a frame that was postponed.
  function Promoted(previous: Reason): Flags {
    match previous
    case ASYNC_REFRESH_BLOCKED_DEMANDFAST => {DEMAND_FAST}
    case ASYNC_REFRESH_BLOCKED_COSMETIC => {COSMETIC}
    case ASYNC_REFRESH_BLOCKED_RESPONSIVE => {RESPONSIVE}
    case EXCEEDED_RATELIMIT_FAST => {RESPONSIVE}
    case _ => {}
  }

  // The flags the checks work on.
  function Effective(s: State): Flags {
    s.frameFlags + (if s.initialized then {} else {DEMAND_FAST}) + Promoted(s.previousReason)
  }

  predicate WithinTimespan(s: State, now: uint32, ms: nat) {
    s.previousRunMs <= now && (now - s.previousRunMs) % U32 < ms
  }

  predicate Blocked(cfg: Config, s: State, w: World) {
    cfg.asyncFull && s.asyncRefreshRunning && w.busy
  }

  predicate RateLimited(cfg: Config, s: State, w: World, flags: Flags) {
    if flags == {BACKGROUND} then WithinTimespan(s, w.now, cfg.rateBackgroundMs)
    else COSMETIC !in flags && DEMAND_FAST !in flags && RESPONSIVE in flags
         && WithinTimespan(s, w.now, cfg.rateResponsiveMs)
  }

  predicate Postponed(cfg: Config, s: State, w: World) {
    Blocked(cfg, s, w) || RateLimited(cfg, s, w, Effective(s))
  }

  function PostponedReason(cfg: Config, s: State, w: World): Reason {
    var flags := Effective(s);
    if RateLimited(cfg, s, w, flags) then
      if flags == {BACKGROUND} then EXCEEDED_RATELIMIT_FULL else EXCEEDED_RATELIMIT_FAST
    else if DEMAND_FAST in flags then ASYNC_REFRESH_BLOCKED_DEMANDFAST
    else if COSMETIC in flags then ASYNC_REFRESH_BLOCKED_COSMETIC
    else if RESPONSIVE in flags then ASYNC_REFRESH_BLOCKED_RESPONSIVE
    else ASYNC_REFRESH_BLOCKED_BACKGROUND
  }

  // The refresh and reason of a frame that is due, by priority. The last line is the flaw the
  // code warns about: no decision, and the reason left over from an earlier frame.
  function Choice(cfg: Config, s: State, w: World): (Refresh, Reason) {
    var flags := Effective(s);
    if COSMETIC in flags then (FULL, FLAGGED_COSMETIC)
    else if DEMAND_FAST in flags then (FAST, FLAGGED_DEMAND_FAST)
    else if w.hash == s.previousImageHash then
      if !cfg.backgroundUsesFast && flags == {BACKGROUND} && s.fastRefreshCount > 0 then (FULL, REDRAW_WITH_FULL)
      else (SKIPPED, FRAME_MATCHED_PREVIOUS)
    else if s.fastRefreshCount >= cfg.limitFast then (FULL, EXCEEDED_LIMIT_FASTREFRESH)
    else if flags == {BACKGROUND} then
      if cfg.backgroundUsesFast then (FAST, BACKGROUND_USES_FAST) else (FULL, FLAGGED_BACKGROUND)
    else if RESPONSIVE in flags then (FAST, NO_OBJECTIONS)
    else (UNSPECIFIED, s.reason)
  }

  function Decision(cfg: Config, s: State, w: World): (Refresh, Reason) {
    if Postponed(cfg, s, w) then (SKIPPED, PostponedReason(cfg, s, w)) else Choice(cfg, s, w)
  }

  function Counted(count: uint32, refresh: Refresh): uint32 {
    match refresh
    case FAST => (count + 1) % U32
    case FULL => 0
    case _ => count
  }

  function Configured(current: Refresh, refresh: Refresh): Refresh {
    if current == FULL && refresh == FAST then FAST else if current == FAST && refresh == FULL then FULL else current
  }

  // Whether a full refresh is running in the background once the frame is done.
  function AsyncAfter(cfg: Config, s: State, w: World, refresh: Refresh): bool {
    var running := s.asyncRefreshRunning && (!cfg.asyncFull || w.busy || w.stillBusy);
    if cfg.asyncFull && refresh == FULL then BLOCKING !in Effective(s) else running
  }

  // One frame, from the pending flags to the state the next frame starts from.
  function Update(cfg: Config, s: State, w: World): State {
    var (refresh, reason) := Decision(cfg, s, w);
    var due := !Postponed(cfg, s, w);
    State({BACKGROUND}, UNSPECIFIED, reason, Effective(s), refresh, reason, true,
          if due then w.now else s.previousRunMs,
          if due then w.hash else s.imageHash,
          if due && refresh != SKIPPED then w.hash else s.previousImageHash,
          if due then Counted(s.fastRefreshCount, refresh) else s.fastRefreshCount,
          if due then Configured(s.currentConfig, refresh) else s.currentConfig,
          AsyncAfter(cfg, s, w, refresh))
  }

  // ---- A decision is always reached ----------------------------------------------------------

  // Without a decision exactly for a new image whose only flag is the BLOCKING modifier.
  lemma UndecidedExactly(cfg: Config, s: State, w: World)
    requires BACKGROUND in s.frameFlags
    ensures Decision(cfg, s, w).0 == UNSPECIFIED <==>
            && Effective(s) == {BACKGROUND, BLOCKING}
            && !Blocked(cfg, s, w) && w.hash != s.previousImageHash && s.fastRefreshCount < cfg.limitFast
  {
    var flags := Effective(s);
    if COSMETIC !in flags && DEMAND_FAST !in flags && RESPONSIVE !in flags {
      OnlyBackgroundAndBlocking(flags);
    }
  }

  lemma OnlyBackgroundAndBlocking(flags: Flags)
    requires BACKGROUND in flags && COSMETIC !in flags && DEMAND_FAST !in flags && RESPONSIVE !in flags
    ensures flags == if BLOCKING in flags then {BACKGROUND, BLOCKING} else {BACKGROUND}
  {
    var named := if BLOCKING in flags then {BACKGROUND, BLOCKING} else {BACKGROUND};
    forall f ensures f in flags <==> f in named {
      match f {
        case BACKGROUND =>
        case RESPONSIVE =>
        case COSMETIC =>
        case DEMAND_FAST =>
        case BLOCKING =>
      }
    }
  }

  // ---- Postponed requests --------------------------------------------------------------------

  // How strong a request is: DEMAND_FAST, then COSMETIC, then RESPONSIVE.
  function Strength(flags: Flags): nat {
    if DEMAND_FAST in flags then 3 else if COSMETIC in flags then 2 else if RESPONSIVE in flags then 1 else 0
  }

  function Max(a: nat, b: nat): nat {
    if a >= b then a else b
  }

  // The request waiting to be honoured.
  function Pending(s: State): nat {
    Strength(Promoted(s.previousReason))
  }

  // A frame together with everything that was waiting: nothing gets lost, nothing is added.
  lemma PendingJoins(s: State)
    requires s.initialized
    ensures Strength(Effective(s)) == Max(Strength(s.frameFlags), Pending(s))
  {
  }

  // A postponed frame leaves its strongest request waiting; one that got through leaves none.
  lemma PendingAfter(cfg: Config, s: State, w: World)
    requires BACKGROUND in s.frameFlags && Decision(cfg, s, w).0 != UNSPECIFIED
    ensures Pending(Update(cfg, s, w)) == if Postponed(cfg, s, w) then Strength(Effective(s)) else 0
  {
  }

  // A RESPONSIVE request is met with a fast refresh, unless the image is the one already shown or
  // too many fast refreshes went before.
  function ResponsiveRefresh(cfg: Config, s: State, w: World): Refresh {
    if w.hash == s.previousImageHash then SKIPPED
    else if s.fastRefreshCount >= cfg.limitFast then FULL
    else FAST
  }

  // The frame that gets through honours what was waiting.
  lemma PendingHonoured(cfg: Config, s: State, w: World)
    requires s.initialized && !Postponed(cfg, s, w)
    ensures Pending(s) == 3 ==> Decision(cfg, s, w).0 == if COSMETIC in s.frameFlags then FULL else FAST
    ensures Pending(s) == 2 ==> Decision(cfg, s, w).0 == FULL
    ensures Pending(s) == 1 && COSMETIC !in s.frameFlags && DEMAND_FAST !in s.frameFlags ==>
              Decision(cfg, s, w).0 == ResponsiveRefresh(cfg, s, w)
  {
  }

  // ---- Runs --------------------------------------------------------------------------------

  // A frame with the flags added for it, a poll of the running refresh, or a join of it.
  datatype Event = Frame(added: Flags, world: World) | Poll(busy: bool) | Join

  function WithFlags(s: State, added: Flags): State {
    s.(frameFlags := s.frameFlags + added)
  }

  function Happen(cfg: Config, s: State, e: Event): State {
    match e
    case Frame(added, w) => Update(cfg, WithFlags(s, added), w)
    case Poll(busy) => if cfg.asyncFull && !busy then s.(asyncRefreshRunning := false) else s
    case Join => if cfg.asyncFull then s.(asyncRefreshRunning := false) else s
  }

  function After(cfg: Config, events: seq<Event>): State {
    if events == [] then Boot() else Happen(cfg, After(cfg, events[..|events| - 1]), events[|events| - 1])
  }

  // BLOCKING is a modifier: only ever added together with COSMETIC or DEMAND_FAST.
  predicate Disciplined(events: seq<Event>) {
    forall i :: 0 <= i < |events| && events[i].Frame? && BLOCKING in events[i].added ==>
      COSMETIC in events[i].added || DEMAND_FAST in events[i].added
  }

  ghost predicate Between(s: State) {
    s.frameFlags == {BACKGROUND} && s.refresh == UNSPECIFIED
  }

  lemma {:induction false} BetweenFrames(cfg: Config, events: seq<Event>)
    ensures Between(After(cfg, events))
    ensures (exists i :: 0 <= i < |events| && events[i].Frame?) <==> After(cfg, events).initialized
  {
    if events != [] {
      var front := events[..|events| - 1];
      BetweenFrames(cfg, front);
      if events[|events| - 1].Frame? { assert events[|events| - 1].Frame?; }
      if exists i :: 0 <= i < |front| && front[i].Frame? {
        var i :| 0 <= i < |front| && front[i].Frame?;
        assert events[i].Frame?;
      }
      if i :| 0 <= i < |events| && events[i].Frame? && i < |front| { assert front[i].Frame?; }
    }
  }

  // In every disciplined run every frame is decided: refreshed or skipped for a reason.
  lemma EveryFrameIsDecided(cfg: Config, events: seq<Event>, i: nat)
    requires Disciplined(events) && i < |events| && events[i].Frame?
    ensures Decision(cfg, WithFlags(After(cfg, events[..i]), events[i].added), events[i].world).0 != UNSPECIFIED
  {
    var s := After(cfg, events[..i]);
    BetweenFrames(cfg, events[..i]);
    var t := WithFlags(s, events[i].added);
    UndecidedExactly(cfg, t, events[i].world);
    assert BLOCKING !in Promoted(t.previousReason);
    if Effective(t) == {BACKGROUND, BLOCKING} {
      assert BLOCKING in events[i].added;
      assert COSMETIC in Effective(t) || DEMAND_FAST in Effective(t);
    }
  }

  // All frames of the run from here on are postponed, and none comes without a decision.
  ghost predicate AllPostponed(cfg: Config, s: State, events: seq<Event>)
    decreases |events|
  {
    events != [] ==>
      && (events[0].Frame? ==> Postponed(cfg, WithFlags(s, events[0].added), events[0].world))
      && AllPostponed(cfg, Happen(cfg, s, events[0]), events[1..])
  }

  function RunFrom(cfg: Config, s: State, events: seq<Event>): State
    decreases |events|
  {
    if events == [] then s else RunFrom(cfg, Happen(cfg, s, events[0]), events[1..])
  }

  function Strongest(events: seq<Event>): nat
    decreases |events|
  {
    if events == [] then 0 else Max(if events[0].Frame? then Strength(events[0].added) else 0, Strongest(events[1..]))
  }

  lemma PendingStep(cfg: Config, s: State, e: Event)
    requires Between(s) && s.initialized
    requires e.Frame? ==> Postponed(cfg, WithFlags(s, e.added), e.world)
    ensures var t := Happen(cfg, s, e);
            Between(t) && t.initialized && Pending(t) == Max(Pending(s), if e.Frame? then Strength(e.added) else 0)
  {
    if e.Frame? {
      var u := WithFlags(s, e.added);
      PendingJoins(u);
      PendingAfter(cfg, u, e.world);
      assert Strength(u.frameFlags) == Strength(e.added);
    }
  }

  // However many frames are postponed in a row, what waits at the end is the strongest request
  // of all of them.
  lemma {:induction false} StrongestRequestWaits(cfg: Config, s: State, events: seq<Event>)
    requires Between(s) && s.initialized && AllPostponed(cfg, s, events)
    ensures Pending(RunFrom(cfg, s, events)) == Max(Pending(s), Strongest(events))
    decreases |events|
  {
    if events != [] {
      PendingStep(cfg, s, events[0]);
      StrongestRequestWaits(cfg, Happen(cfg, s, events[0]), events[1..]);
    }
  }

  // What the first frame that gets through does, over every run of postponed ones before it: the
  // strongest request of them all decides, with the frame's own flags, and nothing else.
  lemma StrongestRequestDecides(cfg: Config, s: State, events: seq<Event>, added: Flags, w: World)
    requires Between(s) && s.initialized && AllPostponed(cfg, s, events)
    requires !Postponed(cfg, WithFlags(RunFrom(cfg, s, events), added), w)
    ensures var t := WithFlags(RunFrom(cfg, s, events), added);
            var waiting := Max(Pending(s), Strongest(events));
            var refresh := Decision(cfg, t, w).0;
            if COSMETIC in added || waiting == 2 then refresh == FULL
            else if DEMAND_FAST in added || waiting == 3 then refresh == FAST
            else RESPONSIVE in added || waiting == 1 ==> refresh == ResponsiveRefresh(cfg, t, w)
  {
    StrongestRequestWaits(cfg, s, events);
    StaysInitialized(cfg, s, events);
    RequestDecides(cfg, WithFlags(RunFrom(cfg, s, events), added), w);
  }

  lemma {:induction false} StaysInitialized(cfg: Config, s: State, events: seq<Event>)
    requires Between(s) && s.initialized
    ensures Between(RunFrom(cfg, s, events)) && RunFrom(cfg, s, events).initialized
    decreases |events|
  {
    if events != [] {
      StaysInitialized(cfg, Happen(cfg, s, events[0]), events[1..]);
    }
  }

  lemma RequestDecides(cfg: Config, t: State, w: World)
    requires t.initialized && !Postponed(cfg, t, w)
    ensures var refresh := Decision(cfg, t, w).0;
            if COSMETIC in t.frameFlags || Pending(t) == 2 then refresh == FULL
            else if DEMAND_FAST in t.frameFlags || Pending(t) == 3 then refresh == FAST
            else RESPONSIVE in t.frameFlags || Pending(t) == 1 ==> refresh == ResponsiveRefresh(cfg, t, w)
  {
  }

  // Only the strongest request waits: a COSMETIC one is lost when a DEMAND_FAST one is postponed
  // after it, and the frame that gets through is refreshed fast.
  function LosingRun(): seq<Event> {
    var free, busy := World(0, false, false, 1), World(0, true, true, 2);
    [Frame({COSMETIC}, free)] + [Frame({COSMETIC}, busy)] + [Frame({DEMAND_FAST}, busy)] + [Frame({}, free)]
  }

  lemma FirstFrameInBackground(cfg: Config, w: World)
    requires cfg.asyncFull && !w.busy
    ensures var s := After(cfg, [Frame({COSMETIC}, w)]);
            Between(s) && s.initialized && s.asyncRefreshRunning && Pending(s) == 0
  {
    AfterOneMore(cfg, [], Frame({COSMETIC}, w));
    assert [] + [Frame({COSMETIC}, w)] == [Frame({COSMETIC}, w)];
  }

  lemma BusyFrame(cfg: Config, s: State, added: Flags, w: World)
    requires cfg.asyncFull && w.busy && Between(s) && s.initialized && s.asyncRefreshRunning
    ensures var t := Happen(cfg, s, Frame(added, w));
            && Between(t) && t.initialized && t.asyncRefreshRunning
            && Pending(t) == Max(Pending(s), Strength(added))
  {
    PendingStep(cfg, s, Frame(added, w));
  }

  lemma CosmeticRequestLost(cfg: Config)
    requires cfg.asyncFull
    ensures Disciplined(LosingRun())
    ensures Pending(After(cfg, LosingRun()[..2])) == 2 && Pending(After(cfg, LosingRun()[..3])) == 3
    ensures RefreshAt(cfg, LosingRun()) == (FAST, FLAGGED_DEMAND_FAST)
    ensures Pending(After(cfg, LosingRun())) == 0
  {
    var free, busy := World(0, false, false, 1), World(0, true, true, 2);
    var e1, e2: Event := Frame({COSMETIC}, free), Frame({COSMETIC}, busy);
    var e3, e4: Event := Frame({DEMAND_FAST}, busy), Frame({}, free);
    FirstFrameInBackground(cfg, free);
    AfterOneMore(cfg, [e1], e2);
    BusyFrame(cfg, After(cfg, [e1]), {COSMETIC}, busy);
    AfterOneMore(cfg, [e1] + [e2], e3);
    BusyFrame(cfg, After(cfg, [e1] + [e2]), {DEMAND_FAST}, busy);
    RequestDecides(cfg, WithFlags(After(cfg, [e1] + [e2] + [e3]), {}), free);
    AfterOneMore(cfg, [e1] + [e2] + [e3], e4);
    assert LosingRun()[..2] == [e1] + [e2] && LosingRun()[..3] == [e1] + [e2] + [e3];
  }

  lemma AfterOneMore(cfg: Config, events: seq<Event>, e: Event)
    ensures After(cfg, events + [e]) == Happen(cfg, After(cfg, events), e)
    ensures e.Frame? ==> RefreshAt(cfg, events + [e]) == Decision(cfg, WithFlags(After(cfg, events), e.added), e.world)
  {
    assert (events + [e])[..|events|] == events;
  }

  // ---- Consecutive fast refreshes ------------------------------------------------------------

  function RefreshAt(cfg: Config, events: seq<Event>): (Refresh, Reason)
    requires events != [] && events[|events| - 1].Frame?
  {
    var e := events[|events| - 1];
    Decision(cfg, WithFlags(After(cfg, events[..|events| - 1]), e.added), e.world)
  }

  // Fast refreshes since the last full one, and how many of them were demanded.
  function FastSinceFull(cfg: Config, events: seq<Event>): nat {
    if events == [] then 0 else
    var before := FastSinceFull(cfg, events[..|events| - 1]);
    if !events[|events| - 1].Frame? then before
    else match RefreshAt(cfg, events).0
         case FULL => 0
         case FAST => before + 1
         case _ => before
  }

  function DemandedSinceFull(cfg: Config, events: seq<Event>): nat {
    if events == [] then 0 else
    var before := DemandedSinceFull(cfg, events[..|events| - 1]);
    if !events[|events| - 1].Frame? then before
    else match RefreshAt(cfg, events)
         case (FULL, _) => 0
         case (FAST, FLAGGED_DEMAND_FAST) => before + 1
         case _ => before
  }

  lemma FastOnlyBelowLimit(cfg: Config, s: State, w: World)
    requires Decision(cfg, s, w).0 == FAST && Decision(cfg, s, w).1 != FLAGGED_DEMAND_FAST
    ensures s.fastRefreshCount < cfg.limitFast
  {
  }

  // One refresh: the true count, the demanded ones among it, and the field that tracks it.
  lemma CountStep(cfg: Config, s: State, w: World, fast: nat, demanded: nat)
    requires s.fastRefreshCount == fast && fast + 1 < U32 && fast <= cfg.limitFast + demanded
    ensures var (refresh, reason) := Decision(cfg, s, w);
            var fast' := if refresh == FULL then 0 else if refresh == FAST then fast + 1 else fast;
            var demanded' := if refresh == FULL then 0
                             else if refresh == FAST && reason == FLAGGED_DEMAND_FAST then demanded + 1 else demanded;
            Update(cfg, s, w).fastRefreshCount == fast' && fast' <= cfg.limitFast + demanded'
  {
    var (refresh, reason) := Decision(cfg, s, w);
    if refresh == FAST && reason != FLAGGED_DEMAND_FAST { FastOnlyBelowLimit(cfg, s, w); }
  }

  // Over every run: no more fast refreshes in a row than the limit plus those demanded.
  lemma {:induction false} FastRefreshesBounded(cfg: Config, events: seq<Event>)
    requires |events| < U32
    ensures FastSinceFull(cfg, events) <= |events|
    ensures After(cfg, events).fastRefreshCount == FastSinceFull(cfg, events)
    ensures FastSinceFull(cfg, events) <= cfg.limitFast + DemandedSinceFull(cfg, events)
  {
    if events != [] {
      var front, e := events[..|events| - 1], events[|events| - 1];
      FastRefreshesBounded(cfg, front);
      if e.Frame? {
        CountStep(cfg, WithFlags(After(cfg, front), e.added), e.world, FastSinceFull(cfg, front),
                DemandedSinceFull(cfg, front));
      }
    }
  }

  // ---- How often frames are due ----------------------------------------------------------------

  // The last frame of the run gets past the checks that postpone.
  predicate Due(cfg: Config, events: seq<Event>)
    requires events != [] && events[|events| - 1].Frame?
  {
    !Postponed(cfg, LastState(cfg, events), events[|events| - 1].world)
  }

  // What the last frame of the run works on.
  function LastState(cfg: Config, events: seq<Event>): State
    requires events != [] && events[|events| - 1].Frame?
  {
    WithFlags(After(cfg, events[..|events| - 1]), events[|events| - 1].added)
  }

  // The last due frame, if there has been one.
  function LastDue(cfg: Config, events: seq<Event>): Option<World> {
    if events == [] then None
    else if events[|events| - 1].Frame? && Due(cfg, events) then Some(events[|events| - 1].world)
    else LastDue(cfg, events[..|events| - 1])
  }

  function FirstFrame(events: seq<Event>): Option<World> {
    if events == [] then None
    else
      var first := FirstFrame(events[..|events| - 1]);
      if first.None? && events[|events| - 1].Frame? then Some(events[|events| - 1].world) else first
  }

  // How long after the last due frame a frame with these flags has to come.
  function Wait(cfg: Config, flags: Flags): nat {
    if COSMETIC in flags || DEMAND_FAST in flags then 0
    else if RESPONSIVE in flags then cfg.rateResponsiveMs
    else if BLOCKING in flags then 0
    else cfg.rateBackgroundMs
  }

  // All that the due frames of the run have had to wait.
  function Waited(cfg: Config, events: seq<Event>): nat {
    if events == [] then 0
    else
      Waited(cfg, events[..|events| - 1]) +
      if events[|events| - 1].Frame? && Due(cfg, events) then Wait(cfg, Effective(LastState(cfg, events))) else 0
  }

  // The clock has not overflowed: no frame is earlier than the due one before it.
  predicate InOrder(cfg: Config, events: seq<Event>) {
    events != [] ==>
      && InOrder(cfg, events[..|events| - 1])
      && (events[|events| - 1].Frame? && LastDue(cfg, events[..|events| - 1]).Some? ==>
            LastDue(cfg, events[..|events| - 1]).value.now <= events[|events| - 1].world.now)
  }

  // Before its first frame, the display waits for nothing.
  ghost predicate Unstarted(s: State) {
    && !s.initialized && !s.asyncRefreshRunning && s.previousRunMs == U32 - 1 && s.previousImageHash == 0
    && Promoted(s.previousReason) == {}
  }

  // The clock and the image of the last due frame are what the display remembers.
  lemma {:induction false} LastDueIsRemembered(cfg: Config, events: seq<Event>)
    requires Disciplined(events)
    ensures var s, last := After(cfg, events), LastDue(cfg, events);
            && Between(s) && (last.Some? <==> s.initialized) && (FirstFrame(events).Some? <==> s.initialized)
            && (last.None? ==> Unstarted(s))
            && (last.Some? ==> s.previousRunMs == last.value.now && s.previousImageHash == last.value.hash)
  {
    if events != [] {
      var front, e := events[..|events| - 1], events[|events| - 1];
      LastDueIsRemembered(cfg, front);
      if e.Frame? {
        EveryFrameIsDecided(cfg, events, |events| - 1);
        RememberedByUpdate(cfg, LastState(cfg, events), e.world);
      }
    }
  }

  lemma RememberedByUpdate(cfg: Config, s: State, w: World)
    requires Decision(cfg, s, w).0 != UNSPECIFIED
    ensures var t := Update(cfg, s, w);
            if Postponed(cfg, s, w) then
              t.previousRunMs == s.previousRunMs && t.previousImageHash == s.previousImageHash
            else t.previousRunMs == w.now && t.previousImageHash == w.hash
    ensures Unstarted(s) ==> !Postponed(cfg, s, w)
  {
  }

  // The first frame is shown at once, fast unless it is COSMETIC.
  lemma FirstFrameIsShown(cfg: Config, events: seq<Event>)
    requires Disciplined(events) && events != [] && events[|events| - 1].Frame?
    requires FirstFrame(events[..|events| - 1]).None?
    ensures RefreshAt(cfg, events).0 == if COSMETIC in events[|events| - 1].added then FULL else FAST
  {
    LastDueIsRemembered(cfg, events[..|events| - 1]);
    RememberedByUpdate(cfg, LastState(cfg, events), events[|events| - 1].world);
    UndecidedExactly(cfg, LastState(cfg, events), events[|events| - 1].world);
  }

  // A frame is postponed exactly while a refresh goes on or its time has not come.
  lemma PostponedExactly(cfg: Config, s: State, w: World, last: nat)
    requires BACKGROUND in s.frameFlags && s.previousRunMs == last <= w.now
    ensures Postponed(cfg, s, w) <==> Blocked(cfg, s, w) || w.now - last < Wait(cfg, Effective(s))
  {
    var flags := Effective(s);
    if COSMETIC !in flags && DEMAND_FAST !in flags && RESPONSIVE !in flags {
      OnlyBackgroundAndBlocking(flags);
    }
  }

  lemma DueExactly(cfg: Config, events: seq<Event>)
    requires Disciplined(events) && events != [] && events[|events| - 1].Frame? && InOrder(cfg, events)
    ensures var last := LastDue(cfg, events[..|events| - 1]);
            var s, w := LastState(cfg, events), events[|events| - 1].world;
            Due(cfg, events) <==>
            last.None? || (!Blocked(cfg, s, w) && w.now - last.value.now >= Wait(cfg, Effective(s)))
  {
    var front, w := events[..|events| - 1], events[|events| - 1].world;
    assert Disciplined(front);
    LastDueIsRemembered(cfg, front);
    EveryFrameIsDecided(cfg, events, |events| - 1);
    RememberedByUpdate(cfg, LastState(cfg, events), w);
    if LastDue(cfg, front).Some? {
      PostponedExactly(cfg, LastState(cfg, events), w, LastDue(cfg, front).value.now);
    }
  }

  lemma FirstNeedNotWait(cfg: Config, s: State)
    requires !s.initialized
    ensures Wait(cfg, Effective(s)) == 0
  {
  }

  // Over every run, the waits of the due frames fit into the time that has passed: so many
  // BACKGROUND frames and so many RESPONSIVE ones, each with the wait of its kind.
  lemma {:induction false} DueFramesAreSpaced(cfg: Config, events: seq<Event>)
    requires Disciplined(events) && InOrder(cfg, events)
    ensures FirstFrame(events).Some? <==> LastDue(cfg, events).Some?
    ensures FirstFrame(events).Some? ==>
              FirstFrame(events).value.now + Waited(cfg, events) <= LastDue(cfg, events).value.now
    ensures FirstFrame(events).None? ==> Waited(cfg, events) == 0
  {
    LastDueIsRemembered(cfg, events);
    if events != [] {
      var front := events[..|events| - 1];
      LastDueIsRemembered(cfg, front);
      DueFramesAreSpaced(cfg, front);
      if events[|events| - 1].Frame? {
        DueExactly(cfg, events);
        if FirstFrame(front).None? {
          FirstNeedNotWait(cfg, LastState(cfg, events));
        }
      }
    }
  }

  // ---- Plain frames ----------------------------------------------------------------------------

  // Where BACKGROUND frames use full refreshes, each one that is due leaves a picture that a full
  // refresh has drawn; where they use fast ones, a new image gets one, up to the limit.
  lemma PlainFrameRefreshes(cfg: Config, s: State, w: World)
    requires Effective(s) == {BACKGROUND} && !Postponed(cfg, s, w)
    ensures !cfg.backgroundUsesFast ==> Update(cfg, s, w).fastRefreshCount == 0
    ensures cfg.backgroundUsesFast ==> Decision(cfg, s, w).0 == ResponsiveRefresh(cfg, s, w)
    ensures Decision(cfg, s, w).0 == SKIPPED ==> w.hash == s.previousImageHash
  {
  }

  // The mode the panel is configured for: that of the last refresh, FULL at first.
  function LastMode(cfg: Config, events: seq<Event>): Refresh {
    if events == [] then FULL
    else if events[|events| - 1].Frame? && RefreshAt(cfg, events).0 in {FULL, FAST} then RefreshAt(cfg, events).0
    else LastMode(cfg, events[..|events| - 1])
  }

  lemma {:induction false} ConfiguredForLast(cfg: Config, events: seq<Event>)
    ensures After(cfg, events).currentConfig == LastMode(cfg, events)
    ensures LastMode(cfg, events) == FULL || LastMode(cfg, events) == FAST
  {
    if events != [] {
      ConfiguredForLast(cfg, events[..|events| - 1]);
    }
  }

  // ---- Refreshes in the background --------------------------------------------------------------

  // This event starts a full refresh that nobody awaits.
  predicate Detaches(cfg: Config, events: seq<Event>, i: nat)
    requires i < |events|
  {
    && events[i].Frame? && RefreshAt(cfg, events[..i + 1]).0 == FULL
    && BLOCKING !in Effective(LastState(cfg, events[..i + 1]))
  }

  // This event finds the panel still busy, and starts no full refresh itself.
  predicate FindsBusy(cfg: Config, events: seq<Event>, i: nat)
    requires i < |events|
  {
    match events[i]
    case Frame(_, w) => (w.busy || w.stillBusy) && RefreshAt(cfg, events[..i + 1]).0 != FULL
    case Poll(busy) => busy
    case Join => false
  }

  ghost predicate DetachedAt(cfg: Config, events: seq<Event>, i: nat) {
    i < |events| && Detaches(cfg, events, i) && forall j | i < j < |events| :: FindsBusy(cfg, events, j)
  }

  lemma EarlierEvents(cfg: Config, events: seq<Event>, i: nat)
    requires i + 1 < |events|
    ensures Detaches(cfg, events[..|events| - 1], i) <==> Detaches(cfg, events, i)
    ensures FindsBusy(cfg, events[..|events| - 1], i) <==> FindsBusy(cfg, events, i)
  {
    assert events[..|events| - 1][..i + 1] == events[..i + 1];
  }

  lemma StillDetached(cfg: Config, events: seq<Event>, i: nat)
    requires i + 1 < |events|
    ensures DetachedAt(cfg, events, i) <==>
            DetachedAt(cfg, events[..|events| - 1], i) && FindsBusy(cfg, events, |events| - 1)
  {
    var front, last := events[..|events| - 1], |events| - 1;
    EarlierEvents(cfg, events, i);
    if DetachedAt(cfg, events, i) {
      assert FindsBusy(cfg, events, last);
      forall j | i < j < last ensures FindsBusy(cfg, front, j) {
        EarlierEvents(cfg, events, j);
        assert FindsBusy(cfg, events, j);
      }
    }
    if DetachedAt(cfg, front, i) && FindsBusy(cfg, events, last) {
      forall j | i < j < |events| ensures FindsBusy(cfg, events, j) {
        if j < last {
          EarlierEvents(cfg, events, j);
          assert FindsBusy(cfg, front, j);
        }
      }
    }
  }

  lemma RunningAfterLast(cfg: Config, events: seq<Event>)
    requires cfg.asyncFull && events != []
    ensures After(cfg, events).asyncRefreshRunning <==>
            || Detaches(cfg, events, |events| - 1)
            || (After(cfg, events[..|events| - 1]).asyncRefreshRunning && FindsBusy(cfg, events, |events| - 1))
  {
    assert events[..|events|] == events;
  }

  // A refresh counts as running exactly since the last frame that started one without awaiting it, as
  // long as every look at the panel finds it busy.
  lemma {:induction false} RunningExactly(cfg: Config, events: seq<Event>)
    requires cfg.asyncFull
    ensures After(cfg, events).asyncRefreshRunning <==> exists i: nat :: DetachedAt(cfg, events, i)
  {
    if events != [] {
      var front, last := events[..|events| - 1], |events| - 1;
      RunningExactly(cfg, front);
      RunningAfterLast(cfg, events);
      if Detaches(cfg, events, last) {
        assert DetachedAt(cfg, events, last);
      }
      if i: nat :| DetachedAt(cfg, front, i) && FindsBusy(cfg, events, last) {
        StillDetached(cfg, events, i);
        assert DetachedAt(cfg, events, i);
      }
      if i: nat :| DetachedAt(cfg, events, i) && i < last {
        StillDetached(cfg, events, i);
      }
    }
  }
}
