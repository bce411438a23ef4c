// The display object: each check of the source mutates the refresh and its reason in turn.
module EInk {
  import opened EInkModel

  class EInkDynamicDisplay {
    const cfg: Config
    var frameFlags: Flags
    var refresh: Refresh
    var reason: Reason
    var previousFrameFlags: Flags
    var previousRefresh: Refresh
    var previousReason: Reason
    var initialized: bool
    var previousRunMs: uint32
    var imageHash: uint32
    var previousImageHash: uint32
    var fastRefreshCount: uint32
    var currentConfig: Refresh
    var asyncRefreshRunning: bool

    ghost function Abs(): State
      reads this
    {
      State(frameFlags, refresh, reason, previousFrameFlags, previousRefresh, previousReason, initialized,
            previousRunMs, imageHash, previousImageHash, fastRefreshCount, currentConfig, asyncRefreshRunning)
    }

    constructor (cfg: Config)
      ensures this.cfg == cfg && Abs() == Boot()
    {
      this.cfg := cfg;
      frameFlags, refresh, reason := {BACKGROUND}, UNSPECIFIED, NO_OBJECTIONS;
      previousFrameFlags, previousRefresh, previousReason := {BACKGROUND}, UNSPECIFIED, NO_OBJECTIONS;
      initialized, previousRunMs, imageHash, previousImageHash := false, U32 - 1, 0, 0;
      fastRefreshCount, currentConfig, asyncRefreshRunning := 0, FULL, false;
    }

    method AddFrameFlag(flag: FrameFlag)
      modifies `frameFlags
      ensures Abs() == WithFlags(old(Abs()), {flag})
    {
      frameFlags := frameFlags + {flag};
    }

    method CheckInitialized()
      modifies `initialized, `frameFlags
      ensures initialized && frameFlags == old(frameFlags) + if old(initialized) then {} else {DEMAND_FAST}
    {
      if !initialized {
        initialized := true;
        AddFrameFlag(DEMAND_FAST);
      }
    }

    method CheckForPromotion()
      modifies `frameFlags
      ensures frameFlags == old(frameFlags) + Promoted(previousReason)
    {
      match previousReason {
        case ASYNC_REFRESH_BLOCKED_DEMANDFAST => AddFrameFlag(DEMAND_FAST);
        case ASYNC_REFRESH_BLOCKED_COSMETIC => AddFrameFlag(COSMETIC);
        case ASYNC_REFRESH_BLOCKED_RESPONSIVE => AddFrameFlag(RESPONSIVE);
        case EXCEEDED_RATELIMIT_FAST => AddFrameFlag(RESPONSIVE);
        case _ =>
      }
    }

    method PollAsyncRefresh(busy: bool)
      modifies `asyncRefreshRunning
      ensures asyncRefreshRunning == (old(asyncRefreshRunning) && busy)
    {
      if !asyncRefreshRunning { return; }
      if busy { return; }
      asyncRefreshRunning := false;
    }

    method CheckBusyAsyncRefresh(w: World)
      modifies `refresh, `reason, `asyncRefreshRunning
      ensures asyncRefreshRunning == (old(asyncRefreshRunning) && (w.busy || w.stillBusy))
      ensures if old(asyncRefreshRunning) && w.busy then
                refresh == SKIPPED && reason ==
                  if DEMAND_FAST in frameFlags then ASYNC_REFRESH_BLOCKED_DEMANDFAST
                  else if COSMETIC in frameFlags then ASYNC_REFRESH_BLOCKED_COSMETIC
                  else if RESPONSIVE in frameFlags then ASYNC_REFRESH_BLOCKED_RESPONSIVE
                  else ASYNC_REFRESH_BLOCKED_BACKGROUND
              else refresh == old(refresh) && reason == old(reason)
    {
      if !asyncRefreshRunning { return; }
      if w.busy {
        refresh := SKIPPED;
        if DEMAND_FAST in frameFlags {
          reason := ASYNC_REFRESH_BLOCKED_DEMANDFAST;
        } else if COSMETIC in frameFlags {
          reason := ASYNC_REFRESH_BLOCKED_COSMETIC;
        } else if RESPONSIVE in frameFlags {
          reason := ASYNC_REFRESH_BLOCKED_RESPONSIVE;
        } else {
          reason := ASYNC_REFRESH_BLOCKED_BACKGROUND;
        }
      } else {
        PollAsyncRefresh(w.stillBusy);
      }
    }

    // The rate limit may overwrite the reason the busy check has set.
    method CheckRateLimiting(now: uint32)
      modifies `refresh, `reason
      ensures if previousRunMs > now then refresh == old(refresh) && reason == old(reason)
              else if frameFlags == {BACKGROUND} && (now - previousRunMs) % U32 < cfg.rateBackgroundMs
                then refresh == SKIPPED && reason == EXCEEDED_RATELIMIT_FULL
              else if COSMETIC !in frameFlags && DEMAND_FAST !in frameFlags && RESPONSIVE in frameFlags
                      && (now - previousRunMs) % U32 < cfg.rateResponsiveMs
                then refresh == SKIPPED && reason == EXCEEDED_RATELIMIT_FAST
              else refresh == old(refresh) && reason == old(reason)
    {
      if previousRunMs > now { return; }
      if frameFlags == {BACKGROUND} {
        if (now - previousRunMs) % U32 < cfg.rateBackgroundMs {
          refresh, reason := SKIPPED, EXCEEDED_RATELIMIT_FULL;
          return;
        }
      }
      if COSMETIC in frameFlags || DEMAND_FAST in frameFlags { return; }
      if RESPONSIVE in frameFlags {
        if (now - previousRunMs) % U32 < cfg.rateResponsiveMs {
          refresh, reason := SKIPPED, EXCEEDED_RATELIMIT_FAST;
        }
      }
    }

    method CheckCosmetic()
      modifies `refresh, `reason
      ensures if old(refresh) == UNSPECIFIED && COSMETIC in frameFlags
              then refresh == FULL && reason == FLAGGED_COSMETIC
              else refresh == old(refresh) && reason == old(reason)
    {
      if refresh != UNSPECIFIED { return; }
      if COSMETIC in frameFlags {
        refresh, reason := FULL, FLAGGED_COSMETIC;
      }
    }

    method CheckDemandingFast()
      modifies `refresh, `reason
      ensures if old(refresh) == UNSPECIFIED && DEMAND_FAST in frameFlags
              then refresh == FAST && reason == FLAGGED_DEMAND_FAST
              else refresh == old(refresh) && reason == old(reason)
    {
      if refresh != UNSPECIFIED { return; }
      if DEMAND_FAST in frameFlags {
        refresh, reason := FAST, FLAGGED_DEMAND_FAST;
      }
    }

    method CheckFrameMatchesPrevious()
      modifies `refresh, `reason
      ensures if old(refresh) == UNSPECIFIED && imageHash == previousImageHash then
                (refresh, reason) == if !cfg.backgroundUsesFast && frameFlags == {BACKGROUND} && fastRefreshCount > 0
                                     then (FULL, REDRAW_WITH_FULL) else (SKIPPED, FRAME_MATCHED_PREVIOUS)
              else refresh == old(refresh) && reason == old(reason)
    {
      if refresh != UNSPECIFIED { return; }
      if imageHash != previousImageHash { return; }
      if !cfg.backgroundUsesFast {
        if frameFlags == {BACKGROUND} && fastRefreshCount > 0 {
          refresh, reason := FULL, REDRAW_WITH_FULL;
          return;
        }
      }
      refresh, reason := SKIPPED, FRAME_MATCHED_PREVIOUS;
    }

    method CheckConsecutiveFastRefreshes()
      modifies `refresh, `reason
      ensures if old(refresh) == UNSPECIFIED && fastRefreshCount >= cfg.limitFast
              then refresh == FULL && reason == EXCEEDED_LIMIT_FASTREFRESH
              else refresh == old(refresh) && reason == old(reason)
    {
      if refresh != UNSPECIFIED { return; }
      if fastRefreshCount >= cfg.limitFast {
        refresh, reason := FULL, EXCEEDED_LIMIT_FASTREFRESH;
      }
    }

    method CheckFastRequested()
      modifies `refresh, `reason
      ensures if old(refresh) == UNSPECIFIED then
                (refresh, reason) == if frameFlags == {BACKGROUND}
                                     then (if cfg.backgroundUsesFast then (FAST, BACKGROUND_USES_FAST)
                                            else (FULL, FLAGGED_BACKGROUND))
                                     else if RESPONSIVE in frameFlags then (FAST, NO_OBJECTIONS)
                                         else (UNSPECIFIED, old(reason))
              else refresh == old(refresh) && reason == old(reason)
    {
      if refresh != UNSPECIFIED { return; }
      if frameFlags == {BACKGROUND} {
        if cfg.backgroundUsesFast {
          refresh, reason := FAST, BACKGROUND_USES_FAST;
        } else {
          refresh, reason := FULL, FLAGGED_BACKGROUND;
        }
      }
      if RESPONSIVE in frameFlags {
        refresh, reason := FAST, NO_OBJECTIONS;
      }
    }

    method ApplyRefreshMode()
      modifies `currentConfig
      ensures currentConfig == Configured(old(currentConfig), refresh)
    {
      if currentConfig == FULL && refresh == FAST {
        currentConfig := FAST;
      } else if currentConfig == FAST && refresh == FULL {
        currentConfig := FULL;
      }
    }

    method AdjustRefreshCounters()
      modifies `fastRefreshCount
      ensures fastRefreshCount == Counted(old(fastRefreshCount), refresh)
    {
      if refresh == FAST {
        fastRefreshCount := (fastRefreshCount + 1) % U32;
      } else if refresh == FULL {
        fastRefreshCount := 0;
      }
    }

    // The checks before a new frame is due.
    method Admit(w: World)
      requires refresh == UNSPECIFIED
      modifies this
      ensures (refresh, reason) == if Postponed(cfg, old(Abs()), w) then (SKIPPED, PostponedReason(cfg, old(Abs()), w))
                                   else (UNSPECIFIED, old(reason))
      ensures frameFlags == Effective(old(Abs())) && initialized
      ensures asyncRefreshRunning == (old(asyncRefreshRunning) && (!cfg.asyncFull || w.busy || w.stillBusy))
      ensures unchanged(`previousFrameFlags, `previousRefresh, `previousReason, `previousRunMs, `imageHash,
                        `previousImageHash, `fastRefreshCount, `currentConfig)
    {
      CheckInitialized();
      CheckForPromotion();
      if cfg.asyncFull {
        CheckBusyAsyncRefresh(w);
      }
      CheckRateLimiting(w.now);
    }

    // The checks of a frame that is due: the first to decide wins.
    method Choose(ghost s: State, ghost w: World)
      requires refresh == UNSPECIFIED && reason == s.reason && frameFlags == Effective(s)
      requires imageHash == w.hash && previousImageHash == s.previousImageHash && fastRefreshCount == s.fastRefreshCount
      modifies `refresh, `reason
      ensures (refresh, reason) == Choice(cfg, s, w)
    {
      CheckCosmetic();
      CheckDemandingFast();
      CheckFrameMatchesPrevious();
      CheckConsecutiveFastRefreshes();
      CheckFastRequested();
    }

    method DetermineMode(w: World) returns (approved: bool)
      requires refresh == UNSPECIFIED
      modifies this
      ensures (refresh, reason) == Decision(cfg, old(Abs()), w)
      ensures approved == (refresh != SKIPPED)
      ensures frameFlags == Effective(old(Abs())) && initialized
      ensures asyncRefreshRunning == (old(asyncRefreshRunning) && (!cfg.asyncFull || w.busy || w.stillBusy))
      ensures if Postponed(cfg, old(Abs()), w)
              then unchanged(`previousRunMs, `imageHash, `fastRefreshCount, `currentConfig)
              else
                && previousRunMs == w.now && imageHash == w.hash
                && fastRefreshCount == Counted(old(fastRefreshCount), refresh)
                && currentConfig == Configured(old(currentConfig), refresh)
      ensures unchanged(`previousImageHash)
    {
      Admit(w);
      if refresh == SKIPPED { return false; }
      previousRunMs := w.now;
      imageHash := w.hash;
      Choose(old(Abs()), w);
      ApplyRefreshMode();
      AdjustRefreshCounters();
      return refresh != SKIPPED;
    }

    method StoreAndReset()
      modifies this
      ensures previousFrameFlags == old(frameFlags) && previousRefresh == old(refresh) && previousReason == old(reason)
      ensures previousImageHash == if old(refresh) != SKIPPED then old(imageHash) else old(previousImageHash)
      ensures frameFlags == {BACKGROUND} && refresh == UNSPECIFIED
      ensures unchanged(`reason, `initialized, `previousRunMs, `imageHash, `fastRefreshCount,
                        `currentConfig, `asyncRefreshRunning)
    {
      previousFrameFlags := frameFlags;
      previousRefresh := refresh;
      previousReason := reason;
      if refresh != SKIPPED {
        previousImageHash := imageHash;
      }
      frameFlags := {BACKGROUND};
      refresh := UNSPECIFIED;
    }

    // With BLOCKING the full refresh is awaited here, else it goes on in the background.
    method EndOrDetach()
      modifies `asyncRefreshRunning
      ensures asyncRefreshRunning == if cfg.asyncFull && previousRefresh == FULL then BLOCKING !in previousFrameFlags
                                     else old(asyncRefreshRunning)
    {
      if cfg.asyncFull {
        if previousRefresh == FULL {
          asyncRefreshRunning := true;
          if BLOCKING in previousFrameFlags {
            asyncRefreshRunning := false;
          }
        }
      }
    }

    method UpdateFrame(w: World) returns (approved: bool)
      requires refresh == UNSPECIFIED
      modifies this
      ensures Abs() == Update(cfg, old(Abs()), w)
      ensures approved == (Decision(cfg, old(Abs()), w).0 != SKIPPED)
    {
      approved := DetermineMode(w);
      StoreAndReset();
      if approved {
        EndOrDetach();
      }
    }
  }
}
