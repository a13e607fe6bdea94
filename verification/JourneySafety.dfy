/** What every run of serial ticks keeps: pacing, the silence limit, the pause after a
    refusal, the absorbing exit, and that a rung taken back is never asked for again. */
module JourneySafety {
  import opened Prelude
  import opened Schedule
  import opened JourneyLog
  import opened Journey

  // ---------------------------------------------------------------------------
  // Settling only fills in grant times and appends refusal pauses.

  ghost predicate Evolved(rows: seq<Beat>, r: seq<Beat>, now: int) {
    && |rows| <= |r|
    && (forall i :: 0 <= i < |rows| ==>
          r[i] == rows[i]
          || (rows[i].outcome.Sent? && rows[i].grantedAt.None? && r[i] == rows[i].(grantedAt := Some(now))))
    && (forall i :: |rows| <= i < |r| ==>
          r[i].outcome == Paused(now + REFUSAL_PAUSE_MS) && r[i].at == now && r[i].rung.Some? && r[i].grantedAt.None?)
  }

  ghost predicate PausesDiffer(rows: seq<Beat>) {
    forall i, j :: 0 <= i < j < |rows| && rows[i].outcome.Paused? && rows[j].outcome.Paused? ==>
      rows[i].rung != rows[j].rung
  }

  lemma ReconcileRungEvolves(acc: Settled, rung: Rung, granted: set<Rung>, now: int, reliable: bool)
    ensures var r := ReconcileRung(acc, rung, granted, now, reliable);
      && Evolved(acc.rows, r.rows, now)
      && (PausesDiffer(acc.rows) ==> PausesDiffer(r.rows))
      && (r.newRefusal == acc.newRefusal || (r.newRefusal && |r.rows| > |acc.rows|))
      && (|r.rows| > |acc.rows| ==> r.newRefusal)
      && acc.revoked <= r.revoked
  {
    CreditGrantCredits(acc.rows, rung, now);
  }

  lemma {:induction false} ReconcileEvolves(acc: Settled, rungs: seq<Rung>, granted: set<Rung>, now: int,
          reliable: bool)
    ensures var r := Reconcile(acc, rungs, granted, now, reliable);
      && Evolved(acc.rows, r.rows, now)
      && (PausesDiffer(acc.rows) ==> PausesDiffer(r.rows))
      && (|r.rows| > |acc.rows| ==> r.newRefusal)
      && (acc.newRefusal ==> r.newRefusal)
      && acc.revoked <= r.revoked
    decreases |rungs|
  {
    if |rungs| > 0 {
      var one := ReconcileRung(acc, rungs[0], granted, now, reliable);
      ReconcileRungEvolves(acc, rungs[0], granted, now, reliable);
      ReconcileEvolves(one, rungs[1..], granted, now, reliable);
      EvolvedTwice(acc.rows, one.rows, Reconcile(one, rungs[1..], granted, now, reliable).rows, now);
    }
  }

  lemma EvolvedTwice(a: seq<Beat>, b: seq<Beat>, c: seq<Beat>, now: int)
    requires Evolved(a, b, now) && Evolved(b, c, now)
    ensures Evolved(a, c, now)
  {
  }

  lemma {:induction false} ReadingsEvolve(rows: seq<Beat>, r: seq<Beat>, now: int)
    requires Evolved(rows, r, now)
    ensures IgnoredStreak(r) <= IgnoredStreak(rows)
    ensures LastSentAt(r) == LastSentAt(rows)
    decreases |r|
  {
    if |r| > |rows| {
      ReadingsEvolve(rows, r[..|r| - 1], now);
    } else if |rows| > 0 {
      ReadingsEvolve(rows[..|rows| - 1], r[..|r| - 1], now);
    }
  }

  // ---------------------------------------------------------------------------
  // The invariant.

  ghost predicate Ordered(rows: seq<Beat>, clock: int) {
    && (forall i :: 0 <= i < |rows| ==> rows[i].at <= clock)
    && (forall i, j :: 0 <= i < j < |rows| ==> rows[i].at <= rows[j].at)
  }

  /** Sent beats are at least `gap` apart. */
  ghost predicate Spaced(rows: seq<Beat>, gap: int) {
    forall i, j :: 0 <= i < j < |rows| && rows[i].outcome.Sent? && rows[j].outcome.Sent? ==>
      rows[i].at + gap <= rows[j].at
  }

  /** After a refusal nothing is sent for seven days, and no rung is refused twice. */
  ghost predicate Restful(rows: seq<Beat>) {
    && PausesDiffer(rows)
    && (forall i :: 0 <= i < |rows| && rows[i].outcome.Paused? ==>
          rows[i].outcome.until == rows[i].at + REFUSAL_PAUSE_MS && rows[i].rung.Some?)
    && (forall i, j :: 0 <= i < j < |rows| && rows[i].outcome.Paused? && rows[j].outcome.Sent? ==>
          rows[i].at + REFUSAL_PAUSE_MS <= rows[j].at)
  }

  /** An exit is the last thing in the log. */
  ghost predicate ExitIsLast(rows: seq<Beat>) {
    forall i :: 0 <= i < |rows| - 1 ==> !rows[i].outcome.Exited?
  }

  ghost predicate Safe(rows: seq<Beat>, gap: int, clock: int) {
    && Ordered(rows, clock) && Spaced(rows, gap) && Restful(rows) && ExitIsLast(rows)
    && IgnoredStreak(rows) <= MAX_IGNORED_BEATS
  }

  lemma {:induction false} LastSentIsLatest(rows: seq<Beat>, clock: int)
    requires Ordered(rows, clock)
    ensures forall i :: 0 <= i < |rows| && rows[i].outcome.Sent? ==>
              LastSentAt(rows).Some? && rows[i].at <= LastSentAt(rows).value
  {
    if |rows| > 0 && !rows[|rows| - 1].outcome.Sent? {
      LastSentIsLatest(rows[..|rows| - 1], clock);
      assert forall i :: 0 <= i < |rows| - 1 ==> rows[i] == rows[..|rows| - 1][i];
    }
  }

  lemma {:induction false} PausedUntilIsLatest(rows: seq<Beat>, clock: int)
    requires Ordered(rows, clock) && Restful(rows)
    ensures forall i :: 0 <= i < |rows| && rows[i].outcome.Paused? ==>
              PausedUntil(rows).Some? && rows[i].outcome.until <= PausedUntil(rows).value
  {
    if |rows| > 0 && !rows[|rows| - 1].outcome.Paused? {
      PausedUntilIsLatest(rows[..|rows| - 1], clock);
      assert forall i :: 0 <= i < |rows| - 1 ==> rows[i] == rows[..|rows| - 1][i];
    }
  }

  lemma SettlingStaysOrdered(rows: seq<Beat>, r: seq<Beat>, clock: int, now: int)
    requires Ordered(rows, clock) && clock <= now && Evolved(rows, r, now)
    ensures Ordered(r, now)
  {
  }

  lemma SettlingStaysSpaced(rows: seq<Beat>, r: seq<Beat>, gap: int, now: int)
    requires Spaced(rows, gap) && Evolved(rows, r, now)
    ensures Spaced(r, gap)
  {
  }

  lemma SettlingStaysRestful(rows: seq<Beat>, r: seq<Beat>, now: int)
    requires Restful(rows) && Evolved(rows, r, now) && PausesDiffer(r)
    ensures Restful(r)
  {
  }

  lemma SettlingIsSafe(rows: seq<Beat>, r: seq<Beat>, gap: int, clock: int, now: int)
    requires Safe(rows, gap, clock) && !HasExited(rows) && clock <= now
    requires Evolved(rows, r, now) && PausesDiffer(r)
    ensures Safe(r, gap, now) && !HasExited(r)
  {
    SettlingStaysOrdered(rows, r, clock, now);
    SettlingStaysSpaced(rows, r, gap, now);
    SettlingStaysRestful(rows, r, now);
    assert forall i :: 0 <= i < |r| ==> !r[i].outcome.Exited?;
    ReadingsEvolve(rows, r, now);
  }

  /** A beat sent at `at` keeps all three distances. */
  ghost predicate BeatFits(rows: seq<Beat>, at: int, gap: int) {
    && IgnoredStreak(rows) < MAX_IGNORED_BEATS
    && (forall i :: 0 <= i < |rows| && rows[i].outcome.Sent? ==> rows[i].at + gap <= at)
    && (forall i :: 0 <= i < |rows| && rows[i].outcome.Paused? ==> rows[i].at + REFUSAL_PAUSE_MS <= at)
  }

  lemma LogStaysOrdered(rows: seq<Beat>, entry: Beat, clock: int)
    requires Ordered(rows, clock) && clock <= entry.at
    ensures Ordered(rows + [entry], entry.at)
  {
  }

  lemma LogStaysSpaced(rows: seq<Beat>, entry: Beat, gap: int)
    requires Spaced(rows, gap) && (entry.outcome.Sent? ==> BeatFits(rows, entry.at, gap))
    ensures Spaced(rows + [entry], gap)
  {
  }

  lemma LogStaysRestful(rows: seq<Beat>, entry: Beat, gap: int)
    requires Restful(rows) && !entry.outcome.Paused? && (entry.outcome.Sent? ==> BeatFits(rows, entry.at, gap))
    ensures Restful(rows + [entry])
  {
  }

  lemma LogStaysOpen(rows: seq<Beat>, entry: Beat)
    requires !HasExited(rows)
    ensures ExitIsLast(rows + [entry])
    ensures !entry.outcome.Exited? ==> !HasExited(rows + [entry])
  {
  }

  lemma StreakGrows(rows: seq<Beat>, entry: Beat)
    ensures IgnoredStreak(rows + [entry]) <= IgnoredStreak(rows) + if entry.outcome.Sent? then 1 else 0
  {
    assert (rows + [entry])[..|rows|] == rows;
  }

  /** An entry is safe to log when, if it is a beat, it fits. */
  lemma LoggingIsSafe(rows: seq<Beat>, entry: Beat, gap: int, clock: int)
    requires Safe(rows, gap, clock) && !HasExited(rows) && clock <= entry.at && !entry.outcome.Paused?
    requires entry.outcome.Sent? ==> BeatFits(rows, entry.at, gap)
    ensures Safe(rows + [entry], gap, entry.at)
    ensures !entry.outcome.Exited? ==> !HasExited(rows + [entry])
  {
    LogStaysOrdered(rows, entry, clock);
    LogStaysSpaced(rows, entry, gap);
    LogStaysRestful(rows, entry, gap);
    LogStaysOpen(rows, entry);
    StreakGrows(rows, entry);
  }

  ghost predicate TimedWell(production: bool, tick: Tick, gap: int, clock: int) {
    clock <= tick.now <= tick.recordedAt && gap <= Gap(production, tick)
  }

  ghost function SettledLog(rows: seq<Beat>, tick: Tick): Settled {
    Reconcile(Settled(rows, {}, false), LADDER, tick.granted, tick.now, tick.reliable)
  }

  /** The guards a decision to send has passed. */
  lemma SendPassedGuards(production: bool, rows: seq<Beat>, tick: Tick)
    ensures var (decision, settled) := Decide(production, rows, tick);
      && (settled == rows || settled == SettledLog(rows, tick).rows)
      && (decision.Send? ==>
            && settled == SettledLog(rows, tick).rows && !SettledLog(rows, tick).newRefusal
            && !HasExited(rows)
            && !(PausedUntil(rows).Some? && PausedUntil(rows).value > tick.now)
            && IgnoredStreak(settled) < MAX_IGNORED_BEATS
            && !(LastSentAt(settled).Some? && tick.now - LastSentAt(settled).value < Gap(production, tick)))
  {
  }

  lemma SettledLogIsSafe(rows: seq<Beat>, tick: Tick, gap: int, clock: int)
    requires Safe(rows, gap, clock) && !HasExited(rows) && clock <= tick.now
    ensures Safe(rows, gap, tick.now)
    ensures Safe(SettledLog(rows, tick).rows, gap, tick.now) && !HasExited(SettledLog(rows, tick).rows)
    ensures Evolved(rows, SettledLog(rows, tick).rows, tick.now)
    ensures !SettledLog(rows, tick).newRefusal ==> |SettledLog(rows, tick).rows| == |rows|
  {
    ReconcileEvolves(Settled(rows, {}, false), LADDER, tick.granted, tick.now, tick.reliable);
    SettlingIsSafe(rows, SettledLog(rows, tick).rows, gap, clock, tick.now);
  }

  lemma DecisionIsSafe(production: bool, rows: seq<Beat>, tick: Tick, gap: int, clock: int)
    requires Safe(rows, gap, clock) && !HasExited(rows) && TimedWell(production, tick, gap, clock)
    ensures var (decision, settled) := Decide(production, rows, tick);
      && Safe(settled, gap, tick.now) && !HasExited(settled)
      && (decision.Send? ==> BeatFits(settled, tick.recordedAt, gap))
  {
    SettledLogIsSafe(rows, tick, gap, clock);
    SendPassedGuards(production, rows, tick);
    var (decision, settled) := Decide(production, rows, tick);
    if decision.Send? {
      SendFits(rows, settled, tick, gap, clock);
    }
  }

  lemma SendFits(rows: seq<Beat>, settled: seq<Beat>, tick: Tick, gap: int, clock: int)
    requires Ordered(rows, clock) && Restful(rows) && Ordered(settled, tick.now) && tick.now <= tick.recordedAt
    requires Evolved(rows, settled, tick.now) && |settled| == |rows|
    requires !(PausedUntil(rows).Some? && PausedUntil(rows).value > tick.now)
    requires LastSentAt(settled).Some? ==> tick.now - LastSentAt(settled).value >= gap
    ensures forall i :: 0 <= i < |settled| && settled[i].outcome.Sent? ==> settled[i].at + gap <= tick.recordedAt
    ensures forall i :: 0 <= i < |settled| && settled[i].outcome.Paused? ==>
              settled[i].at + REFUSAL_PAUSE_MS <= tick.recordedAt
  {
    LastSentIsLatest(settled, tick.now);
    PausedUntilIsLatest(rows, clock);
    assert forall i :: 0 <= i < |settled| && settled[i].outcome.Paused? ==> settled[i] == rows[i];
  }

  /** A tick that goes through logs one entry, and an exit after a refusal. */
  lemma AfterLogs(production: bool, rows: seq<Beat>, tick: Tick)
    requires !HasExited(rows)
    ensures var (decision, settled) := Decide(production, rows, tick);
      var entry := Entry(decision, tick).0;
      var exit := Beat(None, Exited(JourneyExitReason(tick.laterGranted)), tick.recordedAt, None);
      && entry.at == tick.recordedAt && !entry.outcome.Paused?
      && (entry.outcome.Sent? ==> decision.Send?)
      && (After(production, rows, tick) == settled + [entry]
          || (!entry.outcome.Exited? && After(production, rows, tick) == settled + [entry] + [exit]))
  {
  }

  lemma TickIsSafe(production: bool, rows: seq<Beat>, tick: Tick, gap: int, clock: int)
    requires Safe(rows, gap, clock) && TimedWell(production, tick, gap, clock)
    ensures Safe(After(production, rows, tick), gap, tick.recordedAt)
  {
    if !HasExited(rows) {
      DecisionIsSafe(production, rows, tick, gap, clock);
      AfterLogs(production, rows, tick);
      var (decision, settled) := Decide(production, rows, tick);
      var entry := Entry(decision, tick).0;
      LoggingIsSafe(settled, entry, gap, tick.now);
      if After(production, rows, tick) != settled + [entry] {
        LoggingIsSafe(settled + [entry],
                      Beat(None, Exited(JourneyExitReason(tick.laterGranted)), tick.recordedAt, None),
                      gap, tick.recordedAt);
      }
    }
  }

  // ---------------------------------------------------------------------------
  // Runs.

  function Run(production: bool, rows: seq<Beat>, ticks: seq<Tick>): seq<Beat>
    decreases |ticks|
  {
    if |ticks| == 0 then rows else Run(production, After(production, rows, ticks[0]), ticks[1..])
  }

  /** Ticks do not overlap and the clock does not go back. */
  ghost predicate Serial(production: bool, ticks: seq<Tick>, gap: int, clock: int) {
    |ticks| == 0
    || (TimedWell(production, ticks[0], gap, clock) && Serial(production, ticks[1..], gap, ticks[0].recordedAt))
  }

  /** Pacing, silence, rest and exit hold of every run, in fast forward with its own gap. */
  lemma {:induction false} RunIsSafe(production: bool, rows: seq<Beat>, ticks: seq<Tick>, gap: int, clock: int)
      returns (end: int)
    requires Safe(rows, gap, clock) && Serial(production, ticks, gap, clock)
    ensures clock <= end && Safe(Run(production, rows, ticks), gap, end)
    decreases |ticks|
  {
    end := clock;
    if |ticks| > 0 {
      TickIsSafe(production, rows, ticks[0], gap, clock);
      end := RunIsSafe(production, After(production, rows, ticks[0]), ticks[1..], gap, ticks[0].recordedAt);
    }
  }

  /** In production every gap is a whole day, whatever the payload asks for. */
  lemma ProductionGap(tick: Tick)
    ensures Gap(true, tick) == 24 * HOUR_MS
    ensures tick.fast ==> Gap(false, tick) == MINUTE_MS
  {
  }

  lemma {:induction false} ExitAbsorbs(production: bool, rows: seq<Beat>, ticks: seq<Tick>)
    requires HasExited(rows)
    ensures Run(production, rows, ticks) == rows
    decreases |ticks|
  {
    if |ticks| > 0 {
      ExitAbsorbs(production, rows, ticks[1..]);
    }
  }

  // ---------------------------------------------------------------------------
  // A rung given and taken back.

  lemma CreditSurvives(rows: seq<Beat>, r: seq<Beat>, rung: Rung, now: int)
    requires Evolved(rows, r, now) && HasCreditedBeat(rows, rung)
    ensures HasCreditedBeat(r, rung)
  {
    var i :| 0 <= i < |rows| && IsSent(rows[i], rung) && rows[i].grantedAt.Some?;
    assert r[i] == rows[i];
  }

  lemma {:induction false} RevokedAreRemembered(acc: Settled, rungs: seq<Rung>, granted: set<Rung>, now: int,
          rung: Rung)
    requires HasCreditedBeat(acc.rows, rung) && rung !in granted && rung in rungs
    ensures rung in Reconcile(acc, rungs, granted, now, true).revoked
    decreases |rungs|
  {
    var one := ReconcileRung(acc, rungs[0], granted, now, true);
    ReconcileRungEvolves(acc, rungs[0], granted, now, true);
    CreditSurvives(acc.rows, one.rows, rung, now);
    if rungs[0] == rung {
      ReconcileEvolves(one, rungs[1..], granted, now, true);
    } else {
      RevokedAreRemembered(one, rungs[1..], granted, now, rung);
    }
  }

  ghost predicate Automatic(tick: Tick) {
    tick.rung.None? && tick.reliable
  }

  /** An automatic tick that read reliably never offers a credited or granted rung. */
  lemma NotOfferedAgain(production: bool, rows: seq<Beat>, tick: Tick)
    requires Automatic(tick)
    ensures var (decision, _) := Decide(production, rows, tick);
      decision.Send? ==>
        !HasCreditedBeat(rows, decision.rung) && decision.rung !in tick.granted && HasBeat(decision.rung)
  {
    var (decision, _) := Decide(production, rows, tick);
    if decision.Send? {
      var acc := Settled(rows, {}, false);
      var settled := Reconcile(acc, LADDER, tick.granted, tick.now, true);
      NextRungIsLowest(tick.granted, settled.revoked + Unaskable());
      if HasCreditedBeat(rows, decision.rung) {
        OnLadder(decision.rung);
        RevokedAreRemembered(acc, LADDER, tick.granted, tick.now, decision.rung);
      }
    }
  }

  lemma DecideEvolves(production: bool, rows: seq<Beat>, tick: Tick)
    ensures Evolved(rows, Decide(production, rows, tick).1, tick.now)
  {
    ReconcileEvolves(Settled(rows, {}, false), LADDER, tick.granted, tick.now, tick.reliable);
    assert Evolved(rows, rows, tick.now);
  }

  /** What a tick appends behind the settled log. */
  lemma AfterIs(production: bool, rows: seq<Beat>, tick: Tick) returns (exit: seq<Beat>)
    requires !HasExited(rows)
    ensures var (decision, settled) := Decide(production, rows, tick);
      && After(production, rows, tick) == settled + [Entry(decision, tick).0] + exit
      && forall beat, rung :: beat in exit ==> !IsSent(beat, rung)
  {
    var (decision, settled) := Decide(production, rows, tick);
    var entry := Entry(decision, tick).0;
    var after := After(production, rows, tick);
    exit := after[|settled| + 1..];
    assert after[..|settled| + 1] == settled + [entry];
    assert after == after[..|settled| + 1] + exit;
  }

  lemma EntryIsNot(production: bool, rows: seq<Beat>, tick: Tick, rung: Rung)
    requires Automatic(tick) && HasCreditedBeat(rows, rung)
    ensures !IsSent(Entry(Decide(production, rows, tick).0, tick).0, rung)
  {
    NotOfferedAgain(production, rows, tick);
  }

  lemma TickExtends(production: bool, rows: seq<Beat>, tick: Tick, rung: Rung)
    requires Automatic(tick) && HasCreditedBeat(rows, rung)
    ensures var r := After(production, rows, tick);
      && |rows| <= |r| && HasCreditedBeat(r, rung)
      && forall i :: |rows| <= i < |r| ==> !IsSent(r[i], rung)
  {
    if !HasExited(rows) {
      var settled := Decide(production, rows, tick).1;
      var exit := AfterIs(production, rows, tick);
      DecideEvolves(production, rows, tick);
      CreditSurvives(rows, settled, rung, tick.now);
      EntryIsNot(production, rows, tick, rung);
      AppendedAreNot(rows, settled, Entry(Decide(production, rows, tick).0, tick).0, exit, rung, tick.now);
    }
  }

  lemma AppendedAreNot(rows: seq<Beat>, settled: seq<Beat>, entry: Beat, exit: seq<Beat>, rung: Rung, now: int)
    requires Evolved(rows, settled, now) && HasCreditedBeat(settled, rung) && !IsSent(entry, rung)
    requires forall beat, other :: beat in exit ==> !IsSent(beat, other)
    ensures var r := settled + [entry] + exit;
      HasCreditedBeat(r, rung) && forall i :: |rows| <= i < |r| ==> !IsSent(r[i], rung)
  {
    var r := settled + [entry] + exit;
    var k :| 0 <= k < |settled| && IsSent(settled[k], rung) && settled[k].grantedAt.Some?;
    assert r[k] == settled[k];
    forall i | |rows| <= i < |r| ensures !IsSent(r[i], rung) {
      if i > |settled| {
        assert r[i] in exit;
      }
    }
  }

  /** Once a nudge for a rung was answered, no later automatic tick asks for it again,
      whether the grant stands or was taken back. */
  lemma {:induction false} NeverAskedAgain(production: bool, rows: seq<Beat>, ticks: seq<Tick>, rung: Rung)
    requires HasCreditedBeat(rows, rung) && forall i :: 0 <= i < |ticks| ==> Automatic(ticks[i])
    ensures var r := Run(production, rows, ticks);
      |rows| <= |r| && forall i :: |rows| <= i < |r| ==> !IsSent(r[i], rung)
    decreases |ticks|
  {
    if |ticks| > 0 {
      TickExtends(production, rows, ticks[0], rung);
      var next := After(production, rows, ticks[0]);
      NeverAskedAgain(production, next, ticks[1..], rung);
      var r := Run(production, rows, ticks);
      KeepsPrefix(production, next, ticks[1..]);
      forall i | |rows| <= i < |r| ensures !IsSent(r[i], rung) {
        if i < |next| {
          assert r[i].rung == next[i].rung && r[i].outcome == next[i].outcome;
        }
      }
    }
  }

  /** Ticks only append, and fill in grant times. */
  ghost predicate Extends(rows: seq<Beat>, r: seq<Beat>) {
    |rows| <= |r| && forall i :: 0 <= i < |rows| ==>
      r[i].rung == rows[i].rung && r[i].outcome == rows[i].outcome && r[i].at == rows[i].at
  }

  lemma TickKeepsPrefix(production: bool, rows: seq<Beat>, tick: Tick)
    ensures Extends(rows, After(production, rows, tick))
  {
    SendPassedGuards(production, rows, tick);
    ReconcileEvolves(Settled(rows, {}, false), LADDER, tick.granted, tick.now, tick.reliable);
    assert Extends(rows, SettledLog(rows, tick).rows);
  }

  lemma {:induction false} KeepsPrefix(production: bool, rows: seq<Beat>, ticks: seq<Tick>)
    ensures Extends(rows, Run(production, rows, ticks))
    decreases |ticks|
  {
    if |ticks| > 0 {
      TickKeepsPrefix(production, rows, ticks[0]);
      KeepsPrefix(production, After(production, rows, ticks[0]), ticks[1..]);
    }
  }

  // ---------------------------------------------------------------------------
  // A failed read.

  /** It revokes nothing and marks no refusal: it only credits the rungs it shows as granted. */
  lemma {:induction false} UnreliableReadOnlyCredits(acc: Settled, rungs: seq<Rung>, granted: set<Rung>, now: int)
    ensures var r := Reconcile(acc, rungs, granted, now, false);
      r.revoked == acc.revoked && r.newRefusal == acc.newRefusal && |r.rows| == |acc.rows|
    decreases |rungs|
  {
    if |rungs| > 0 {
      var one := ReconcileRung(acc, rungs[0], granted, now, false);
      CreditGrantCredits(acc.rows, rungs[0], now);
      UnreliableReadOnlyCredits(one, rungs[1..], granted, now);
    }
  }

  /** Exit, pause and switch let the tick through. */
  predicate Admitted(rows: seq<Beat>, tick: Tick) {
    && !HasExited(rows)
    && !(PausedUntil(rows).Some? && PausedUntil(rows).value > tick.now)
    && (tick.force || tick.switch.On?)
  }

  /** Silence and pacing let a beat through, and there is a home to send it from. */
  predicate Unheld(production: bool, settled: seq<Beat>, tick: Tick) {
    && IgnoredStreak(settled) < MAX_IGNORED_BEATS
    && tick.hasHome && (tick.stub || tick.delivers)
    && !(LastSentAt(settled).Some? && tick.now - LastSentAt(settled).value < Gap(production, tick))
  }

  /** The lowest rung that the read does not show as granted and that has a message. */
  predicate LowestAskable(granted: set<Rung>, rung: Rung) {
    && rung !in granted && rung !in Unaskable()
    && forall other :: Position(other) < Position(rung) ==> other in granted || other in Unaskable()
  }

  lemma LowestAskableIs(granted: set<Rung>, rung: Rung)
    ensures NextRung(granted, {} + Unaskable()) == Some(rung) <==> LowestAskable(granted, rung)
  {
    var next := NextRung(granted, {} + Unaskable());
    NextRungIsLowest(granted, {} + Unaskable());
    if LowestAskable(granted, rung) {
      assert rung !in granted + ({} + Unaskable());
      assert next.Some?;
      OnLadder(rung);
      OnLadder(next.value);
      assert !(Position(next.value) < Position(rung)) && !(Position(rung) < Position(next.value));
    }
  }

  /** An automatic tick whose read failed sends a rung, credited before or not, exactly when the
      guards pass and the rung is the lowest one the read does not show as granted. */
  lemma SentAfterFailedReadIff(production: bool, rows: seq<Beat>, tick: Tick, rung: Rung)
    requires tick.rung.None? && !tick.reliable
    ensures var r := After(production, rows, tick);
      (exists i :: |rows| <= i < |r| && IsSent(r[i], rung)) <==>
      (Admitted(rows, tick) && Unheld(production, SettledLog(rows, tick).rows, tick)
        && LowestAskable(tick.granted, rung))
  {
    if !HasExited(rows) {
      var (decision, settled) := Decide(production, rows, tick);
      var entry := Entry(decision, tick).0;
      UnreliableReadOnlyCredits(Settled(rows, {}, false), LADDER, tick.granted, tick.now);
      LowestAskableIs(tick.granted, rung);
      var exit := AfterIs(production, rows, tick);
      var r := After(production, rows, tick);
      assert |settled| == |rows| && r[|rows|] == entry;
      forall i | |rows| < i < |r| ensures !IsSent(r[i], rung) {
        assert r[i] in exit;
      }
      EntrySentIff(production, rows, tick, rung);
    }
  }

  lemma EntrySentIff(production: bool, rows: seq<Beat>, tick: Tick, rung: Rung)
    requires tick.rung.None? && !tick.reliable && !HasExited(rows)
    requires SettledLog(rows, tick).revoked == {} && !SettledLog(rows, tick).newRefusal
    requires NextRung(tick.granted, {} + Unaskable()) == Some(rung) <==> LowestAskable(tick.granted, rung)
    ensures IsSent(Entry(Decide(production, rows, tick).0, tick).0, rung) <==>
      (Admitted(rows, tick) && Unheld(production, SettledLog(rows, tick).rows, tick)
        && LowestAskable(tick.granted, rung))
  {
    NextRungIsLowest(tick.granted, {} + Unaskable());
  }

  /** So reliability is needed: a credited rung does go out again after a failed read. */
  lemma AskedAgainAfterFailedRead()
    ensures var rows := [Beat(Some(Domain), Sent, 0, Some(0))];
      var tick := Tick(DAY_MS, DAY_MS, On, {}, false, true, true, {}, false, false, None, false);
      && HasCreditedBeat(rows, Domain)
      && exists i :: 1 <= i < |After(true, rows, tick)| && IsSent(After(true, rows, tick)[i], Domain)
  {
    var rows := [Beat(Some(Domain), Sent, 0, Some(0))];
    var tick := Tick(DAY_MS, DAY_MS, On, {}, false, true, true, {}, false, false, None, false);
    assert rows[..0] == [];
    assert IsSent(rows[0], Domain);
    UnreliableReadSettlesNothing(Settled(rows, {}, false), LADDER, DAY_MS);
    SentAfterFailedReadIff(true, rows, tick, Domain);
  }

  lemma {:induction false} UnreliableReadSettlesNothing(acc: Settled, rungs: seq<Rung>, now: int)
    ensures Reconcile(acc, rungs, {}, now, false) == acc
    decreases |rungs|
  {
    if |rungs| > 0 {
      UnreliableReadSettlesNothing(acc, rungs[1..], now);
    }
  }
}
