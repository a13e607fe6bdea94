/** What one tick does, told by its outcome: when the live state counts as a refusal, and which of
    the guards' answers ends up in the log. */
module JourneyTick {
  import opened Prelude
  import opened Schedule
  import opened JourneyLog
  import opened Journey
  import opened JourneySafety
  import opened JourneyBound

  // ---------------------------------------------------------------------------
  // Settling the log, rung by rung.

  predicate WasSent(rows: seq<Beat>, rung: Rung) {
    exists i :: 0 <= i < |rows| && IsSent(rows[i], rung)
  }

  /** A reliable read shows a credited rung as no longer granted. */
  predicate TakenBack(rows: seq<Beat>, rung: Rung, granted: set<Rung>, reliable: bool) {
    reliable && rung !in granted && HasCreditedBeat(rows, rung)
  }

  lemma CreditLeavesOthers(rows: seq<Beat>, rung: Rung, now: int, other: Rung)
    requires other != rung
    ensures var r := CreditGrant(rows, rung, now);
      && (HasCreditedBeat(r, other) <==> HasCreditedBeat(rows, other))
      && (HasRefusalMark(r, other) <==> HasRefusalMark(rows, other))
      && (WasSent(r, other) <==> WasSent(rows, other))
  {
    CreditGrantCredits(rows, rung, now);
    var r := CreditGrant(rows, rung, now);
    assert forall i :: 0 <= i < |rows| ==>
        r[i].rung == rows[i].rung && r[i].outcome == rows[i].outcome
        && (rows[i].rung == Some(other) ==> r[i] == rows[i]);
  }

  lemma MarkLeavesOthers(rows: seq<Beat>, mark: Beat, other: Rung)
    requires mark.outcome.Paused? && mark.rung != Some(other)
    ensures HasCreditedBeat(rows + [mark], other) <==> HasCreditedBeat(rows, other)
    ensures HasRefusalMark(rows + [mark], other) <==> HasRefusalMark(rows, other)
    ensures WasSent(rows + [mark], other) <==> WasSent(rows, other)
  {
    var r := rows + [mark];
    assert r[|rows|] == mark && forall i :: 0 <= i < |rows| ==> r[i] == rows[i];
  }

  lemma LeavesOthers(acc: Settled, rung: Rung, granted: set<Rung>, now: int, reliable: bool, other: Rung)
    requires other != rung
    ensures var one := ReconcileRung(acc, rung, granted, now, reliable);
      && (HasCreditedBeat(one.rows, other) <==> HasCreditedBeat(acc.rows, other))
      && (HasRefusalMark(one.rows, other) <==> HasRefusalMark(acc.rows, other))
      && (WasSent(one.rows, other) <==> WasSent(acc.rows, other))
      && (other in one.revoked <==> other in acc.revoked)
  {
    CreditLeavesOthers(acc.rows, rung, now, other);
    MarkLeavesOthers(acc.rows, Beat(Some(rung), Paused(now + REFUSAL_PAUSE_MS), now, None), other);
  }

  lemma SettlesItself(acc: Settled, rung: Rung, granted: set<Rung>, now: int, reliable: bool)
    ensures var one := ReconcileRung(acc, rung, granted, now, reliable);
      var taken := TakenBack(acc.rows, rung, granted, reliable);
      && one.revoked == (if taken then acc.revoked + {rung} else acc.revoked)
      && (HasRefusalMark(one.rows, rung) <==> HasRefusalMark(acc.rows, rung) || taken)
      && (one.newRefusal <==> acc.newRefusal || (taken && !HasRefusalMark(acc.rows, rung)))
      && (rung in granted && WasSent(acc.rows, rung) ==> HasCreditedBeat(one.rows, rung))
  {
    CreditGrantCredits(acc.rows, rung, now);
    var one := ReconcileRung(acc, rung, granted, now, reliable).rows;
    if i :| 0 <= i < |acc.rows| && acc.rows[i].outcome.Paused? && acc.rows[i].rung == Some(rung) {
      assert one[i] == acc.rows[i];
    }
    if i :| 0 <= i < |one| && one[i].outcome.Paused? && one[i].rung == Some(rung) {
      assert i < |acc.rows| ==> acc.rows[i] == one[i];
    }
    if TakenBack(acc.rows, rung, granted, reliable) && !HasRefusalMark(acc.rows, rung) {
      assert one[|acc.rows|].outcome.Paused? && one[|acc.rows|].rung == Some(rung);
    }
  }

  ghost predicate Once(rungs: seq<Rung>) {
    forall i, j :: 0 <= i < j < |rungs| ==> rungs[i] != rungs[j]
  }

  lemma {:induction false} PassedOver(acc: Settled, rungs: seq<Rung>, granted: set<Rung>, now: int, reliable: bool,
          rung: Rung)
    requires rung !in rungs
    ensures var r := Reconcile(acc, rungs, granted, now, reliable);
      && (HasCreditedBeat(r.rows, rung) <==> HasCreditedBeat(acc.rows, rung))
      && (HasRefusalMark(r.rows, rung) <==> HasRefusalMark(acc.rows, rung))
      && (rung in r.revoked <==> rung in acc.revoked)
    decreases |rungs|
  {
    if |rungs| > 0 {
      LeavesOthers(acc, rungs[0], granted, now, reliable, rung);
      PassedOver(ReconcileRung(acc, rungs[0], granted, now, reliable), rungs[1..], granted, now, reliable, rung);
    }
  }

  lemma {:induction false} SettlesRung(acc: Settled, rungs: seq<Rung>, granted: set<Rung>, now: int, reliable: bool,
          rung: Rung)
    requires Once(rungs) && rung in rungs
    ensures var r := Reconcile(acc, rungs, granted, now, reliable);
      var taken := TakenBack(acc.rows, rung, granted, reliable);
      && (rung in r.revoked <==> rung in acc.revoked || taken)
      && (HasRefusalMark(r.rows, rung) <==> HasRefusalMark(acc.rows, rung) || taken)
      && (rung in granted && WasSent(acc.rows, rung) ==> HasCreditedBeat(r.rows, rung))
    decreases |rungs|
  {
    var one := ReconcileRung(acc, rungs[0], granted, now, reliable);
    if rungs[0] == rung {
      SettlesItself(acc, rung, granted, now, reliable);
      PassedOver(one, rungs[1..], granted, now, reliable, rung);
    } else {
      LeavesOthers(acc, rungs[0], granted, now, reliable, rung);
      SettlesRung(one, rungs[1..], granted, now, reliable, rung);
    }
  }

  /** A rung that is taken back and has no refusal mark yet. */
  predicate Refuses(rows: seq<Beat>, rung: Rung, granted: set<Rung>, reliable: bool) {
    TakenBack(rows, rung, granted, reliable) && !HasRefusalMark(rows, rung)
  }

  predicate AnyRefuses(rows: seq<Beat>, rungs: seq<Rung>, granted: set<Rung>, reliable: bool) {
    |rungs| > 0
    && (Refuses(rows, rungs[0], granted, reliable) || AnyRefuses(rows, rungs[1..], granted, reliable))
  }

  lemma {:induction false} AnyRefusesIs(rows: seq<Beat>, rungs: seq<Rung>, granted: set<Rung>, reliable: bool)
    ensures AnyRefuses(rows, rungs, granted, reliable) <==>
            exists rung :: rung in rungs && Refuses(rows, rung, granted, reliable)
  {
    if |rungs| > 0 {
      assert rungs == [rungs[0]] + rungs[1..];
      AnyRefusesIs(rows, rungs[1..], granted, reliable);
    }
  }

  lemma {:induction false} SameRefusals(a: seq<Beat>, b: seq<Beat>, rungs: seq<Rung>, granted: set<Rung>,
          reliable: bool)
    requires forall rung :: rung in rungs ==>
      (Refuses(a, rung, granted, reliable) <==> Refuses(b, rung, granted, reliable))
    ensures AnyRefuses(a, rungs, granted, reliable) <==> AnyRefuses(b, rungs, granted, reliable)
  {
    if |rungs| > 0 {
      assert rungs[0] in rungs && forall rung :: rung in rungs[1..] ==> rung in rungs;
      SameRefusals(a, b, rungs[1..], granted, reliable);
    }
  }

  lemma {:induction false} RefusalIsNew(acc: Settled, rungs: seq<Rung>, granted: set<Rung>, now: int, reliable: bool)
    requires Once(rungs)
    ensures Reconcile(acc, rungs, granted, now, reliable).newRefusal <==>
            acc.newRefusal || AnyRefuses(acc.rows, rungs, granted, reliable)
    decreases |rungs|
  {
    if |rungs| > 0 {
      var first, rest := rungs[0], rungs[1..];
      var one := ReconcileRung(acc, first, granted, now, reliable);
      SettlesItself(acc, first, granted, now, reliable);
      RefusalIsNew(one, rest, granted, now, reliable);
      assert rungs == [first] + rest;
      forall rung | rung in rest
        ensures Refuses(one.rows, rung, granted, reliable) <==> Refuses(acc.rows, rung, granted, reliable)
      {
        LeavesOthers(acc, first, granted, now, reliable, rung);
      }
      SameRefusals(acc.rows, one.rows, rest, granted, reliable);
    }
  }

  /** What the live state makes of the log before anything is decided: a granted rung that was sent
      is credited; a credited one that a reliable read shows no longer is marked as refused, once;
      and the tick counts as a refusal exactly when that mark is new. */
  lemma SettlingIs(rows: seq<Beat>, tick: Tick, rung: Rung)
    ensures var s := SettledLog(rows, tick);
      && (rung in s.revoked <==> TakenBack(rows, rung, tick.granted, tick.reliable))
      && (HasRefusalMark(s.rows, rung) <==>
            HasRefusalMark(rows, rung) || TakenBack(rows, rung, tick.granted, tick.reliable))
      && (rung in tick.granted && WasSent(rows, rung) ==> HasCreditedBeat(s.rows, rung))
      && (s.newRefusal <==> exists other :: Refuses(rows, other, tick.granted, tick.reliable))
  {
    var acc := Settled(rows, {}, false);
    OnLadder(rung);
    assert LADDER[Position(rung)] in LADDER;
    SettlesRung(acc, LADDER, tick.granted, tick.now, tick.reliable, rung);
    RefusalIsNew(acc, LADDER, tick.granted, tick.now, tick.reliable);
    AnyRefusesIs(rows, LADDER, tick.granted, tick.reliable);
    forall other ensures other in LADDER {
      OnLadder(other);
      assert LADDER[Position(other)] in LADDER;
    }
  }

  // ---------------------------------------------------------------------------
  // What the tick logs.

  /** Nothing is refused at this tick. */
  ghost predicate Welcome(rows: seq<Beat>, tick: Tick) {
    forall rung :: !Refuses(rows, rung, tick.granted, tick.reliable)
  }

  /** Neither granted, nor taken back, nor without a message. */
  predicate Askable(rows: seq<Beat>, tick: Tick, rung: Rung) {
    rung !in tick.granted && rung != Channels && !TakenBack(rows, rung, tick.granted, tick.reliable)
  }

  ghost predicate NextToAsk(rows: seq<Beat>, tick: Tick, rung: Rung) {
    Askable(rows, tick, rung)
    && forall other :: Position(other) < Position(rung) ==> !Askable(rows, tick, other)
  }

  lemma NextToAskIs(rows: seq<Beat>, tick: Tick)
    ensures var next := NextRung(tick.granted, SettledLog(rows, tick).revoked + Unaskable());
      if next.None? then forall rung :: !Askable(rows, tick, rung) else NextToAsk(rows, tick, next.value)
  {
    var skip := SettledLog(rows, tick).revoked + Unaskable();
    NextRungIsLowest(tick.granted, skip);
    forall rung ensures Askable(rows, tick, rung) <==> rung !in tick.granted + skip {
      SettlingIs(rows, tick, rung);
    }
  }

  predicate Quiet(rows: seq<Beat>, tick: Tick) {
    PausedUntil(rows).Some? && PausedUntil(rows).value > tick.now
  }

  predicate Paced(production: bool, rows: seq<Beat>, tick: Tick) {
    LastSentAt(rows).Some? ==> tick.now - LastSentAt(rows).value >= Gap(production, tick)
  }

  /** Nothing stands in the way before a rung is looked for. */
  ghost predicate Heard(rows: seq<Beat>, tick: Tick) {
    !Quiet(rows, tick) && (tick.force || tick.switch.On?) && Welcome(rows, tick)
  }

  /** The decision once the log is settled. */
  lemma SettledDecisionIs(production: bool, rows: seq<Beat>, tick: Tick)
    ensures var decision := DecideSettled(production, SettledLog(rows, tick), tick);
      var ignored := IgnoredStreak(SettledLog(rows, tick).rows) >= MAX_IGNORED_BEATS;
      var asks := exists rung :: Askable(rows, tick, rung);
      && (decision == Suppress(WhilePaused) <==> !Welcome(rows, tick))
      && (decision == Exit(Ignored) <==> Welcome(rows, tick) && ignored)
      && (decision.Exit? <==> Welcome(rows, tick) && (ignored || !asks))
      && (decision == Suppress(RateLimited) <==>
            Welcome(rows, tick) && !ignored && asks && tick.hasHome && !Paced(production, rows, tick))
      && (decision.Send? <==>
            Welcome(rows, tick) && !ignored && asks && tick.hasHome && Paced(production, rows, tick))
      && (decision.Send? ==> NextToAsk(rows, tick, decision.rung))
      && (decision.Suppress? ==> decision.reason in {WhilePaused, RateLimited, NoSurface})
  {
    SettlingIs(rows, tick, Domain);
    NextToAskIs(rows, tick);
    ReconcileEvolves(Settled(rows, {}, false), LADDER, tick.granted, tick.now, tick.reliable);
    ReadingsEvolve(rows, SettledLog(rows, tick).rows, tick.now);
  }

  /** The entry of a tick, outcome by outcome. The silence that counts is that of the settled log. */
  lemma EntryIs(production: bool, rows: seq<Beat>, tick: Tick)
    requires !HasExited(rows)
    ensures var entry := Entry(Decide(production, rows, tick).0, tick).0;
      var ignored := IgnoredStreak(SettledLog(rows, tick).rows) >= MAX_IGNORED_BEATS;
      var asks := exists rung :: Askable(rows, tick, rung);
      && (entry.outcome == Suppressed(SettingsUnavailable) <==>
            !Quiet(rows, tick) && !tick.force && tick.switch.Unknown?)
      && (entry.outcome == Suppressed(Disabled) <==> !Quiet(rows, tick) && !tick.force && tick.switch.Off?)
      && (entry.outcome == Suppressed(WhilePaused) <==>
            Quiet(rows, tick) || ((tick.force || tick.switch.On?) && !Welcome(rows, tick)))
      && (entry.outcome == Exited(Ignored) <==> Heard(rows, tick) && ignored)
      && (entry.outcome.Exited? <==> Heard(rows, tick) && (ignored || !asks))
      && (entry.outcome == Suppressed(RateLimited) <==>
            Heard(rows, tick) && !ignored && asks && tick.hasHome && !Paced(production, rows, tick))
      && (entry.outcome.Sent? <==>
            Heard(rows, tick) && !ignored && asks && tick.hasHome && Paced(production, rows, tick)
            && (tick.stub || (tick.delivers && entry.rung != Some(Channels))))
      && (entry.outcome.Sent? ==>
            entry.rung.Some?
            && if tick.rung.Some? then entry.rung == tick.rung else NextToAsk(rows, tick, entry.rung.value))
  {
    DecisionIs(production, rows, tick);
    SettledDecisionIs(production, rows, tick);
    var decision := Decide(production, rows, tick).0;
    EntryOf(decision, tick);
  }

  /** The entry of each kind of decision. */
  lemma EntryOf(decision: Decision, tick: Tick)
    ensures var entry := Entry(decision, tick).0;
      match decision
      case Exit(reason) => entry.outcome == Exited(reason)
      case Suppress(reason) => entry.outcome == Suppressed(reason)
      case Send(offered) =>
        && entry.rung == Some(if tick.rung.Some? then tick.rung.value else offered)
        && (entry.outcome.Sent? <==> tick.stub || (tick.delivers && entry.rung != Some(Channels)))
        && (entry.outcome.Sent? || entry.outcome == Suppressed(NoBeat) || entry.outcome == Suppressed(NoSurface))
  {
  }

  lemma DecisionIs(production: bool, rows: seq<Beat>, tick: Tick)
    requires !HasExited(rows)
    ensures var decision := Decide(production, rows, tick).0;
      decision == if Quiet(rows, tick) then Suppress(WhilePaused)
                  else if !tick.force && tick.switch.Unknown? then Suppress(SettingsUnavailable)
                  else if !tick.force && tick.switch.Off? then Suppress(Disabled)
                  else DecideSettled(production, SettledLog(rows, tick), tick)
  {
  }

  /** A tick ends the journey exactly by its own entry, or when by its end every rung is granted and
      it was not told that it is switched off. */
  lemma JourneyEndsIff(production: bool, rows: seq<Beat>, tick: Tick)
    requires !HasExited(rows)
    ensures var entry := Entry(Decide(production, rows, tick).0, tick).0;
      HasExited(After(production, rows, tick)) <==>
      entry.outcome.Exited? || (entry.outcome != Suppressed(Disabled) && forall rung :: rung in tick.laterGranted)
  {
    LastLogged(production, rows, tick);
    EntryTells(Decide(production, rows, tick).0, tick);
    NextRungIsLowest(tick.laterGranted, {});
    assert tick.laterGranted + {} == tick.laterGranted;
    var (decision, settled) := Decide(production, rows, tick);
    var after := After(production, rows, tick);
    if after == settled + [Entry(decision, tick).0] {
      assert after[|after| - 1] == Entry(decision, tick).0;
    } else {
      assert after[|after| - 1].outcome.Exited?;
    }
  }
}
