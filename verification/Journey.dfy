/** The journey engine (`src/brain/journey/guardrails.ts`, `engine.ts`): what one tick of
    the nudge schedule does to the log, and what every run of serial ticks keeps. Reads of
    the outside world at a tick are its inputs. */
module Journey {
  import opened Prelude
  import opened Schedule
  import opened JourneyLog

  const MIN_BEAT_GAP_MS := DAY_MS
  const MAX_IGNORED_BEATS := 2
  const REFUSAL_PAUSE_MS := 7 * DAY_MS
  const RETRY_BACKOFF_MS := DAY_MS
  const SETTINGS_RETRY_MS := 15 * MINUTE_MS

  datatype Switch = On | Off | Unknown

  /** Everything a tick reads: the clock when it decides and when it records, the enable
      switch, the rungs granted (and again at the end), whether that read was reliable,
      whether a home channel exists, whether the post succeeds, and its payload. */
  datatype Tick = Tick(now: int, recordedAt: int, switch: Switch, granted: set<Rung>, reliable: bool,
                       hasHome: bool, delivers: bool, laterGranted: set<Rung>,
                       force: bool, fast: bool, rung: Option<Rung>, stub: bool)

  datatype Decision = Send(rung: Rung) | Suppress(reason: Suppression) | Exit(exitReason: ExitReason)

  /** Every rung but the channels one has a message. */
  predicate HasBeat(rung: Rung) { rung != Channels }

  function Unaskable(): set<Rung> { {Channels} }

  function ScaleDuration(ms: int, fastForward: bool): int {
    if fastForward then ms * MINUTE_MS / DAY_MS else ms
  }

  function FastForward(production: bool, fast: bool): bool { !production && fast }

  function Gap(production: bool, tick: Tick): int {
    ScaleDuration(MIN_BEAT_GAP_MS, FastForward(production, tick.fast))
  }

  // ---------------------------------------------------------------------------
  // Settling the log against live state.

  datatype Settled = Settled(rows: seq<Beat>, revoked: set<Rung>, newRefusal: bool)

  function ReconcileRung(acc: Settled, rung: Rung, granted: set<Rung>, now: int, reliable: bool): Settled {
    if rung in granted then acc.(rows := CreditGrant(acc.rows, rung, now))
    else if !reliable || !HasCreditedBeat(acc.rows, rung) then acc
    else if HasRefusalMark(acc.rows, rung) then acc.(revoked := acc.revoked + {rung})
    else Settled(acc.rows + [Beat(Some(rung), Paused(now + REFUSAL_PAUSE_MS), now, None)],
                 acc.revoked + {rung}, true)
  }

  function Reconcile(acc: Settled, rungs: seq<Rung>, granted: set<Rung>, now: int, reliable: bool): Settled
    decreases |rungs|
  {
    if |rungs| == 0 then acc
    else Reconcile(ReconcileRung(acc, rungs[0], granted, now, reliable), rungs[1..], granted, now, reliable)
  }

  function Decide(production: bool, rows: seq<Beat>, tick: Tick): (Decision, seq<Beat>) {
    if HasExited(rows) then (Suppress(Disabled), rows)
    else if PausedUntil(rows).Some? && PausedUntil(rows).value > tick.now then (Suppress(WhilePaused), rows)
    else if !tick.force && tick.switch.Unknown? then (Suppress(SettingsUnavailable), rows)
    else if !tick.force && tick.switch.Off? then (Suppress(Disabled), rows)
    else
      var settled := Reconcile(Settled(rows, {}, false), LADDER, tick.granted, tick.now, tick.reliable);
      (DecideSettled(production, settled, tick), settled.rows)
  }

  /** The guards that look at the settled log. */
  function DecideSettled(production: bool, settled: Settled, tick: Tick): Decision {
    var rung := NextRung(tick.granted, settled.revoked + Unaskable());
    var last := LastSentAt(settled.rows);
    if settled.newRefusal then Suppress(WhilePaused)
    else if IgnoredStreak(settled.rows) >= MAX_IGNORED_BEATS then Exit(Ignored)
    else if rung.None? then Exit(JourneyExitReason(tick.granted))
    else if !tick.hasHome then Suppress(NoSurface)
    else if last.Some? && tick.now - last.value < Gap(production, tick) then Suppress(RateLimited)
    else Send(rung.value)
  }

  /** The row a decision leaves, and the reason no beat went out, if none did. */
  function Entry(decision: Decision, tick: Tick): (Beat, Option<Suppression>) {
    match decision
    case Exit(reason) => (Beat(None, Exited(reason), tick.recordedAt, None), None)
    case Suppress(reason) => (Beat(None, Suppressed(reason), tick.recordedAt, None), Some(reason))
    case Send(offered) =>
      var rung := if tick.rung.Some? then tick.rung.value else offered;
      if !tick.stub && !HasBeat(rung) then (Beat(Some(rung), Suppressed(NoBeat), tick.recordedAt, None), Some(NoBeat))
      else if tick.stub || tick.delivers then (Beat(Some(rung), Sent, tick.recordedAt, None), None)
      else (Beat(Some(rung), Suppressed(NoSurface), tick.recordedAt, None), Some(NoSurface))
  }

  /** The log after a whole tick. */
  function After(production: bool, rows: seq<Beat>, tick: Tick): seq<Beat> {
    if HasExited(rows) then rows
    else
      var (decision, settled) := Decide(production, rows, tick);
      var (entry, suppressed) := Entry(decision, tick);
      var logged := settled + [entry];
      if decision.Exit? || suppressed == Some(Disabled) || NextRung(tick.laterGranted, {}).Some? then logged
      else logged + [Beat(None, Exited(JourneyExitReason(tick.laterGranted)), tick.recordedAt, None)]
  }

  /** The earliest a suppressed tick may usefully run again. */
  function RetryFloor(production: bool, rows: seq<Beat>, reason: Option<Suppression>, now: int, fast: bool): int {
    var fastForward := FastForward(production, fast);
    if reason == Some(RateLimited) then
      (if LastSentAt(rows).Some? then LastSentAt(rows).value else now) + ScaleDuration(MIN_BEAT_GAP_MS, fastForward)
    else if reason == Some(WhilePaused) then
      if PausedUntil(rows).Some? then PausedUntil(rows).value else now + ScaleDuration(RETRY_BACKOFF_MS, false)
    else if reason.Some? then now + ScaleDuration(RETRY_BACKOFF_MS, fastForward)
    else now
  }

  /** When the tick arms its successor, if it does; `placed` is the answer of `nextBeatAt`. */
  function Rearmed(production: bool, rows: seq<Beat>, tick: Tick, placed: real): Option<int> {
    if HasExited(rows) then None
    else
      var (decision, _) := Decide(production, rows, tick);
      var (_, suppressed) := Entry(decision, tick);
      if decision.Exit? || suppressed == Some(Disabled) || NextRung(tick.laterGranted, {}).None? then None
      else
        var fastForward := FastForward(production, tick.fast);
        var at :=
          if suppressed == Some(SettingsUnavailable)
          then (tick.recordedAt + ScaleDuration(SETTINGS_RETRY_MS, fastForward)) as real
          else Max(placed,
                   RetryFloor(production, After(production, rows, tick), suppressed, tick.recordedAt,
                              tick.fast) as real);
        Some(WakesAt(at, tick.recordedAt))
  }

  // ---------------------------------------------------------------------------
  // The engine itself, updating one log and one pending alarm.

  class Engine {
    const production: bool
    var rows: seq<Beat>
    var alarm: Option<int>

    constructor (production: bool)
      ensures this.production == production && rows == [] && alarm == None
    {
      this.production := production;
      rows, alarm := [], None;
    }

    method CountIgnored() returns (streak: nat)
      ensures streak == IgnoredStreak(rows)
    {
      streak := 0;
      var i := |rows|;
      assert rows[..|rows|] == rows;
      while i > 0
        invariant 0 <= i <= |rows|
        invariant streak + IgnoredStreak(rows[..i]) == IgnoredStreak(rows)
      {
        i := i - 1;
        assert rows[..i + 1][..i] == rows[..i];
        if rows[i].outcome.Sent? {
          if rows[i].grantedAt.Some? {
            return;
          }
          streak := streak + 1;
        }
      }
    }

    method ReconcileGrants(granted: set<Rung>, now: int, reliable: bool)
      returns (revoked: set<Rung>, newRefusal: bool)
      modifies this`rows
      ensures Settled(rows, revoked, newRefusal)
           == Reconcile(Settled(old(rows), {}, false), LADDER, granted, now, reliable)
    {
      revoked, newRefusal := {}, false;
      var i := 0;
      while i < |LADDER|
        invariant 0 <= i <= |LADDER|
        invariant Reconcile(Settled(rows, revoked, newRefusal), LADDER[i..], granted, now, reliable)
               == Reconcile(Settled(old(rows), {}, false), LADDER, granted, now, reliable)
      {
        var rung := LADDER[i];
        i := i + 1;
        if rung in granted {
          rows := CreditGrant(rows, rung, now);
          continue;
        }
        if !reliable { continue; }
        if !HasCreditedBeat(rows, rung) { continue; }
        revoked := revoked + {rung};
        if !HasRefusalMark(rows, rung) {
          rows := rows + [Beat(Some(rung), Paused(now + REFUSAL_PAUSE_MS), now, None)];
          newRefusal := true;
        }
      }
    }

    method DecideNextBeat(tick: Tick) returns (decision: Decision)
      modifies this`rows
      ensures (decision, rows) == Decide(production, old(rows), tick)
    {
      if HasExited(rows) {
        return Suppress(Disabled);
      }
      var pausedUntil := PausedUntil(rows);
      if pausedUntil.Some? && pausedUntil.value > tick.now {
        return Suppress(WhilePaused);
      }
      if !tick.force {
        if tick.switch == Unknown { return Suppress(SettingsUnavailable); }
        if tick.switch == Off { return Suppress(Disabled); }
      }
      var revoked, newRefusal := ReconcileGrants(tick.granted, tick.now, tick.reliable);
      if newRefusal { return Suppress(WhilePaused); }
      var streak := CountIgnored();
      if streak >= MAX_IGNORED_BEATS { return Exit(Ignored); }
      var rung := NextRung(tick.granted, revoked + Unaskable());
      if rung.None? { return Exit(JourneyExitReason(tick.granted)); }
      if !tick.hasHome { return Suppress(NoSurface); }
      var last := LastSentAt(rows);
      if last.Some? && tick.now - last.value < Gap(production, tick) {
        return Suppress(RateLimited);
      }
      return Send(rung.value);
    }

    method RunTick(tick: Tick, placed: real)
      modifies this
      ensures rows == After(production, old(rows), tick)
      ensures alarm == var next := Rearmed(production, old(rows), tick, placed);
                       if next.Some? then next else old(alarm)
    {
      if HasExited(rows) { return; }
      var decision := DecideNextBeat(tick);
      var (entry, suppressed) := Entry(decision, tick);
      rows := rows + [entry];
      if decision.Exit? { return; }
      if suppressed == Some(Disabled) { return; }
      if NextRung(tick.laterGranted, {}).None? {
        rows := rows + [Beat(None, Exited(JourneyExitReason(tick.laterGranted)), tick.recordedAt, None)];
        return;
      }
      var fastForward := FastForward(production, tick.fast);
      var at := if suppressed == Some(SettingsUnavailable)
                then (tick.recordedAt + ScaleDuration(SETTINGS_RETRY_MS, fastForward)) as real
                else Max(placed, RetryFloor(production, rows, suppressed, tick.recordedAt, tick.fast) as real);
      alarm := Some(WakesAt(at, tick.recordedAt));
    }
  }
}
