/** A bound no function of the journey states: with reliable reads and no operator
    overrides, a whole journey sends at most ten beats, however the grants come and go. */
module JourneyBound {
  import opened Prelude
  import opened Schedule
  import opened JourneyLog
  import opened Journey
  import opened JourneySafety

  function SentCount(rows: seq<Beat>): nat {
    if |rows| == 0 then 0
    else SentCount(rows[..|rows| - 1]) + if rows[|rows| - 1].outcome.Sent? then 1 else 0
  }

  function Mark(rows: seq<Beat>, rung: Rung): nat {
    if HasCreditedBeat(rows, rung) then 1 else 0
  }

  function CreditedRungs(rows: seq<Beat>): nat {
    Mark(rows, Domain) + Mark(rows, SecondAsker) + Mark(rows, ToolWorkspace) + Mark(rows, Digest)
  }

  predicate SameRung(a: Beat, b: Beat) {
    a.outcome.Sent? && b.outcome.Sent? && a.rung == b.rung
  }

  /** Each rung's credited beats come after its uncredited ones. */
  ghost predicate LatestCreditedFirst(rows: seq<Beat>) {
    forall i, j :: 0 <= i < j < |rows| && SameRung(rows[i], rows[j]) && rows[i].grantedAt.Some? ==>
      rows[j].grantedAt.Some?
  }

  /** Every newly credited rung pays for two beats; the open streak is still unpaid. */
  ghost predicate Paid(rows: seq<Beat>) {
    && LatestCreditedFirst(rows)
    && (forall i :: 0 <= i < |rows| && rows[i].outcome.Sent? ==> rows[i].rung.Some? && HasBeat(rows[i].rung.value))
    && IgnoredStreak(rows) <= MAX_IGNORED_BEATS
    && SentCount(rows) <= 2 * CreditedRungs(rows) + IgnoredStreak(rows)
  }

  lemma PaidMeansFew(rows: seq<Beat>)
    requires Paid(rows)
    ensures SentCount(rows) <= 10
  {
  }

  // ---------------------------------------------------------------------------
  // Crediting a grant.

  ghost predicate Open(beat: Beat, rung: Rung) {
    IsSent(beat, rung) && beat.grantedAt.None?
  }

  ghost function Answer(rows: seq<Beat>, p: nat, now: int): seq<Beat>
    requires p < |rows|
  {
    rows[p := rows[p].(grantedAt := Some(now))]
  }

  /** Where the credit goes: to the last open beat of the rung. */
  lemma {:induction false} CreditGrantAt(rows: seq<Beat>, rung: Rung, now: int) returns (p: nat)
    ensures p <= |rows|
    ensures forall j :: p < j < |rows| ==> !Open(rows[j], rung)
    ensures p < |rows| ==> Open(rows[p], rung) && CreditGrant(rows, rung, now) == Answer(rows, p, now)
    ensures p == |rows| ==> CreditGrant(rows, rung, now) == rows && forall j :: 0 <= j < |rows| ==> !Open(rows[j], rung)
  {
    if |rows| == 0 {
      p := 0;
    } else {
      var front, last := rows[..|rows| - 1], rows[|rows| - 1];
      assert rows == front + [last];
      if Open(last, rung) {
        p := |rows| - 1;
      } else {
        p := CreditGrantAt(front, rung, now);
        assert forall j :: 0 <= j < |front| ==> rows[j] == front[j];
        if p == |front| {
          p := |rows|;
        }
      }
    }
  }

  lemma {:induction false} StreakEndsAtCredit(a: seq<Beat>, b: seq<Beat>, q: nat)
    requires |a| == |b| && q < |a| && a[q].outcome.Sent? && a[q].grantedAt.Some?
    requires forall j :: q <= j < |a| ==> a[j] == b[j]
    ensures IgnoredStreak(a) == IgnoredStreak(b)
  {
    if q < |a| - 1 {
      StreakEndsAtCredit(a[..|a| - 1], b[..|b| - 1], q);
    }
  }

  lemma {:induction false} SameSentCount(a: seq<Beat>, b: seq<Beat>)
    requires |a| == |b| && forall j :: 0 <= j < |a| ==> a[j].outcome == b[j].outcome
    ensures SentCount(a) == SentCount(b)
  {
    if |a| > 0 {
      SameSentCount(a[..|a| - 1], b[..|b| - 1]);
    }
  }

  lemma OthersKeepTheirMark(rows: seq<Beat>, r: seq<Beat>, rung: Rung, now: int, other: Rung)
    requires Credited(rows, r, rung, now) && other != rung
    ensures Mark(r, other) == Mark(rows, other)
  {
    if HasCreditedBeat(rows, other) {
      var i :| 0 <= i < |rows| && IsSent(rows[i], other) && rows[i].grantedAt.Some?;
      assert r[i] == rows[i];
    }
    if HasCreditedBeat(r, other) {
      var i :| 0 <= i < |r| && IsSent(r[i], other) && r[i].grantedAt.Some?;
      assert r[i] == rows[i];
    }
  }

  lemma AnswerKeepsOrder(rows: seq<Beat>, p: nat, rung: Rung, now: int)
    requires LatestCreditedFirst(rows) && p < |rows| && Open(rows[p], rung)
    requires forall j :: p < j < |rows| ==> !Open(rows[j], rung)
    ensures LatestCreditedFirst(Answer(rows, p, now))
  {
    var r := Answer(rows, p, now);
    forall i, j | 0 <= i < j < |r| && SameRung(r[i], r[j]) && r[i].grantedAt.Some? ensures r[j].grantedAt.Some? {
      if i == p {
        assert !Open(rows[j], rung);
      } else if j != p {
        assert SameRung(rows[i], rows[j]);
      }
    }
  }

  /** A second credit of the same rung leaves the open streak alone. */
  lemma SecondCreditKeepsStreak(rows: seq<Beat>, p: nat, rung: Rung, now: int)
    requires LatestCreditedFirst(rows) && p < |rows| && Open(rows[p], rung) && HasCreditedBeat(rows, rung)
    ensures IgnoredStreak(Answer(rows, p, now)) == IgnoredStreak(rows)
  {
    var q :| 0 <= q < |rows| && IsSent(rows[q], rung) && rows[q].grantedAt.Some?;
    assert q < p ==> SameRung(rows[q], rows[p]);
    StreakEndsAtCredit(rows, Answer(rows, p, now), q);
  }

  lemma AnswerMarks(rows: seq<Beat>, p: nat, rung: Rung, now: int)
    requires p < |rows| && Open(rows[p], rung)
    ensures Mark(Answer(rows, p, now), rung) == 1
    ensures forall other :: other != rung ==> Mark(Answer(rows, p, now), other) == Mark(rows, other)
  {
    var r := Answer(rows, p, now);
    assert IsSent(r[p], rung);
    assert Credited(rows, r, rung, now);
    forall other | other != rung ensures Mark(r, other) == Mark(rows, other) {
      OthersKeepTheirMark(rows, r, rung, now, other);
    }
  }

  lemma CreditPays(rows: seq<Beat>, rung: Rung, now: int)
    requires Paid(rows)
    ensures Paid(CreditGrant(rows, rung, now))
  {
    var p := CreditGrantAt(rows, rung, now);
    if p < |rows| {
      var r := Answer(rows, p, now);
      AnswerKeepsOrder(rows, p, rung, now);
      AnswerMarks(rows, p, rung, now);
      SameSentCount(rows, r);
      assert Evolved(rows, r, now);
      ReadingsEvolve(rows, r, now);
      assert rung != Channels;
      if HasCreditedBeat(rows, rung) {
        SecondCreditKeepsStreak(rows, p, rung, now);
      }
      assert SentCount(r) <= 2 * CreditedRungs(r) + IgnoredStreak(r);
    }
  }

  lemma {:induction false} UnsentRowsChangeNothing(rows: seq<Beat>, entry: Beat)
    requires !entry.outcome.Sent?
    ensures SentCount(rows + [entry]) == SentCount(rows)
    ensures IgnoredStreak(rows + [entry]) == IgnoredStreak(rows)
    ensures forall rung :: Mark(rows + [entry], rung) == Mark(rows, rung)
    ensures Paid(rows) ==> Paid(rows + [entry])
  {
    var r := rows + [entry];
    assert r[..|rows|] == rows;
    forall rung ensures HasCreditedBeat(r, rung) <==> HasCreditedBeat(rows, rung) {
      if HasCreditedBeat(rows, rung) {
        var i :| 0 <= i < |rows| && IsSent(rows[i], rung) && rows[i].grantedAt.Some?;
        assert IsSent(r[i], rung);
      }
      if HasCreditedBeat(r, rung) {
        var i :| 0 <= i < |r| && IsSent(r[i], rung) && r[i].grantedAt.Some?;
        assert IsSent(rows[i], rung);
      }
    }
  }

  lemma {:induction false} SettlingPays(acc: Settled, rungs: seq<Rung>, granted: set<Rung>, now: int, reliable: bool)
    requires Paid(acc.rows)
    ensures Paid(Reconcile(acc, rungs, granted, now, reliable).rows)
    ensures forall rung :: rung !in granted ==>
              Mark(Reconcile(acc, rungs, granted, now, reliable).rows, rung) == Mark(acc.rows, rung)
    decreases |rungs|
  {
    if |rungs| > 0 {
      var one := ReconcileRung(acc, rungs[0], granted, now, reliable);
      if rungs[0] in granted {
        CreditPays(acc.rows, rungs[0], now);
        CreditGrantCredits(acc.rows, rungs[0], now);
        forall other | other !in granted ensures Mark(one.rows, other) == Mark(acc.rows, other) {
          OthersKeepTheirMark(acc.rows, one.rows, rungs[0], now, other);
        }
      } else {
        UnsentRowsChangeNothing(acc.rows, Beat(Some(rungs[0]), Paused(now + REFUSAL_PAUSE_MS), now, None));
      }
      SettlingPays(one, rungs[1..], granted, now, reliable);
    }
  }

  lemma SendingOpensStreak(rows: seq<Beat>, rung: Rung, at: int)
    requires Paid(rows) && HasBeat(rung) && !HasCreditedBeat(rows, rung) && IgnoredStreak(rows) < MAX_IGNORED_BEATS
    ensures Paid(rows + [Beat(Some(rung), Sent, at, None)])
  {
    var r := rows + [Beat(Some(rung), Sent, at, None)];
    assert r[..|rows|] == rows;
    forall other | HasCreditedBeat(rows, other) ensures HasCreditedBeat(r, other) {
      var i :| 0 <= i < |rows| && IsSent(rows[i], other) && rows[i].grantedAt.Some?;
      assert IsSent(r[i], other);
    }
    forall i, j | 0 <= i < j < |r| && SameRung(r[i], r[j]) && r[i].grantedAt.Some? ensures r[j].grantedAt.Some? {
      if j == |rows| {
        assert IsSent(rows[i], rung);
      } else {
        assert SameRung(rows[i], rows[j]);
      }
    }
  }

  lemma TickPays(production: bool, rows: seq<Beat>, tick: Tick)
    requires Paid(rows) && Automatic(tick)
    ensures Paid(After(production, rows, tick))
  {
    if !HasExited(rows) {
      var (decision, settled) := Decide(production, rows, tick);
      var (entry, _) := Entry(decision, tick);
      SettlingPays(Settled(rows, {}, false), LADDER, tick.granted, tick.now, true);
      SendPassedGuards(production, rows, tick);
      NotOfferedAgain(production, rows, tick);
      if entry.outcome.Sent? {
        assert Mark(settled, decision.rung) == Mark(rows, decision.rung);
        SendingOpensStreak(settled, decision.rung, tick.recordedAt);
      } else {
        UnsentRowsChangeNothing(settled, entry);
      }
      UnsentRowsChangeNothing(settled + [entry],
        Beat(None, Exited(JourneyExitReason(tick.laterGranted)), tick.recordedAt, None));
    }
  }

  lemma {:induction false} RunPays(production: bool, rows: seq<Beat>, ticks: seq<Tick>)
    requires Paid(rows) && forall i :: 0 <= i < |ticks| ==> Automatic(ticks[i])
    ensures Paid(Run(production, rows, ticks))
    decreases |ticks|
  {
    if |ticks| > 0 {
      TickPays(production, rows, ticks[0]);
      RunPays(production, After(production, rows, ticks[0]), ticks[1..]);
    }
  }

  /** From an empty log, no run of automatic ticks sends more than ten beats. */
  lemma AtMostTenBeats(production: bool, ticks: seq<Tick>)
    requires forall i :: 0 <= i < |ticks| ==> Automatic(ticks[i])
    ensures SentCount(Run(production, [], ticks)) <= 10
  {
    RunPays(production, [], ticks);
    PaidMeansFew(Run(production, [], ticks));
  }

  // ---------------------------------------------------------------------------
  // The alarm a tick leaves behind.

  lemma SettledHasNotExited(production: bool, rows: seq<Beat>, tick: Tick)
    requires !HasExited(rows)
    ensures !HasExited(Decide(production, rows, tick).1)
  {
    ReconcileEvolves(Settled(rows, {}, false), LADDER, tick.granted, tick.now, tick.reliable);
    SendPassedGuards(production, rows, tick);
    var settled := SettledLog(rows, tick).rows;
    forall i | 0 <= i < |settled| ensures !settled[i].outcome.Exited? {
      assert i < |rows| ==> !rows[i].outcome.Exited?;
    }
  }

  /** What the tick logs last: its own entry, unless an exit follows it. */
  lemma LastLogged(production: bool, rows: seq<Beat>, tick: Tick)
    requires !HasExited(rows)
    ensures var after := After(production, rows, tick);
      var entry := Entry(Decide(production, rows, tick).0, tick).0;
      && |after| > 0
      && (HasExited(after) <==> after[|after| - 1].outcome.Exited?)
      && (!HasExited(after) ==> after[|after| - 1] == entry)
  {
    SettledHasNotExited(production, rows, tick);
    AfterLogs(production, rows, tick);
    var (decision, settled) := Decide(production, rows, tick);
    var entry := Entry(decision, tick).0;
    var logged := settled + [entry];
    assert logged[|settled|] == entry;
    assert forall i :: 0 <= i < |settled| ==> logged[i] == settled[i];
    var after := After(production, rows, tick);
    if after != logged {
      assert after[|after| - 1].outcome.Exited?;
    }
  }

  /** A tick arms its successor exactly when the journey goes on after it: it has not exited, and
      was not told that it is switched off. */
  lemma ArmsSuccessorIff(production: bool, rows: seq<Beat>, tick: Tick, placed: real)
    requires !HasExited(rows)
    ensures var after := After(production, rows, tick);
      && |after| > 0
      && (Rearmed(production, rows, tick, placed).Some? <==>
            !HasExited(after) && after[|after| - 1].outcome != Suppressed(Disabled))
  {
    LastLogged(production, rows, tick);
    EntryTells(Decide(production, rows, tick).0, tick);
  }

  lemma EntryTells(decision: Decision, tick: Tick)
    ensures var (entry, suppressed) := Entry(decision, tick);
      && (entry.outcome.Exited? <==> decision.Exit?)
      && (entry.outcome.Sent? ==> suppressed.None?)
      && (entry.outcome.Suppressed? ==> suppressed == Some(entry.outcome.suppression))
      && !entry.outcome.Paused?
  {
  }

  /** Where the alarm of an instant lies: a minute from now at least, and otherwise within half a
      second of the instant. */
  predicate FiresFor(wake: int, at: real, now: int) {
    if at < (now + 60_000) as real then wake == now + 60_000 else at - 500.0 <= wake as real <= at + 500.0
  }

  /** When the successor wakes, by what the tick logged: after a beat as placed, though not in the
      past; when the settings could not be read a quarter of an hour later, or a minute in fast
      forward, wherever the next beat is placed; when the message had nowhere to go, or none is
      written, as placed but not before a day, or that minute. */
  lemma SuccessorWakes(production: bool, rows: seq<Beat>, tick: Tick, placed: real)
    requires !HasExited(rows) && Rearmed(production, rows, tick, placed).Some?
    ensures var wake := Rearmed(production, rows, tick, placed).value;
      var after := After(production, rows, tick);
      var now := tick.recordedAt;
      var fast := !production && tick.fast;
      var backOff := now + if fast then 60_000 else 86_400_000;
      |after| > 0 &&
      match after[|after| - 1].outcome
      case Sent => FiresFor(wake, Max(placed, now as real), now)
      case Suppressed(SettingsUnavailable) => wake == now + if fast then 60_000 else 900_000
      case Suppressed(NoSurface) => FiresFor(wake, Max(placed, backOff as real), now)
      case Suppressed(NoBeat) => FiresFor(wake, Max(placed, backOff as real), now)
      case _ => true
  {
    LastLogged(production, rows, tick);
    EntryTells(Decide(production, rows, tick).0, tick);
    ArmsSuccessorIff(production, rows, tick, placed);
    var now := tick.recordedAt;
    var suppressed := Entry(Decide(production, rows, tick).0, tick).1;
    if suppressed == Some(SettingsUnavailable) {
      SettingsRetryIs(production, tick);
    } else {
      var floor := RetryFloor(production, After(production, rows, tick), suppressed, now, tick.fast);
      WakesWithin(Max(placed, floor as real), now);
    }
  }

  lemma SettingsRetryIs(production: bool, tick: Tick)
    ensures var now := tick.recordedAt;
      var fastForward := FastForward(production, tick.fast);
      WakesAt((now + ScaleDuration(SETTINGS_RETRY_MS, fastForward)) as real, now)
        == now + if fastForward then 60_000 else 900_000
  {
    var now := tick.recordedAt;
    WakesWithin((now + 900_000) as real, now);
    assert 900_000 == 900 * 1000;
    WakesWithin((now + 625) as real, now);
  }


  /** A tick held back by pacing or a pause is armed for no earlier than half a second before that
      clears. */
  lemma RetryWaits(production: bool, rows: seq<Beat>, tick: Tick, placed: real)
    requires !HasExited(rows)
    requires Decide(production, rows, tick).0 == Suppress(RateLimited)
        || Decide(production, rows, tick).0 == Suppress(WhilePaused)
    ensures var alarm := Rearmed(production, rows, tick, placed);
      var after := After(production, rows, tick);
      alarm.Some? ==>
        && (Decide(production, rows, tick).0 == Suppress(RateLimited) && LastSentAt(after).Some? ==>
              alarm.value >= LastSentAt(after).value + Gap(production, tick) - 500)
        && (Decide(production, rows, tick).0 == Suppress(WhilePaused) && PausedUntil(after).Some? ==>
              alarm.value >= PausedUntil(after).value - 500)
  {
    var (decision, settled) := Decide(production, rows, tick);
    var (entry, suppressed) := Entry(decision, tick);
    var after := After(production, rows, tick);
    var at := Max(placed, RetryFloor(production, after, suppressed, tick.recordedAt, tick.fast) as real);
    WakesOnTime(at, tick.recordedAt);
  }

  /** When the reason clears for which a tick was held back, read off the log it leaves. */
  function ClearsAt(production: bool, rows: seq<Beat>, tick: Tick): Option<int> {
    var decision := Decide(production, rows, tick).0;
    var after := After(production, rows, tick);
    if decision == Suppress(RateLimited) && LastSentAt(after).Some?
    then Some(LastSentAt(after).value + Gap(production, tick))
    else if decision == Suppress(WhilePaused) then PausedUntil(after)
    else None
  }

  lemma {:induction false} RefusalPauses(acc: Settled, rungs: seq<Rung>, granted: set<Rung>, now: int, reliable: bool)
    requires acc.newRefusal ==> PausedUntil(acc.rows).Some?
    ensures var r := Reconcile(acc, rungs, granted, now, reliable);
      r.newRefusal ==> PausedUntil(r.rows).Some?
    decreases |rungs|
  {
    if |rungs| > 0 {
      var one := ReconcileRung(acc, rungs[0], granted, now, reliable);
      CreditKeepsPause(acc.rows, rungs[0], now);
      RefusalPauses(one, rungs[1..], granted, now, reliable);
    }
  }

  lemma {:induction false} CreditKeepsPause(rows: seq<Beat>, rung: Rung, now: int)
    ensures PausedUntil(CreditGrant(rows, rung, now)) == PausedUntil(rows)
  {
    if |rows| > 0 {
      CreditKeepsPause(rows[..|rows| - 1], rung, now);
    }
  }

  lemma HeldBackHasReason(production: bool, rows: seq<Beat>, tick: Tick)
    requires !HasExited(rows)
    ensures var (decision, settled) := Decide(production, rows, tick);
      && (decision == Suppress(RateLimited) ==> LastSentAt(settled).Some?)
      && (decision == Suppress(WhilePaused) ==> PausedUntil(settled).Some?)
  {
    RefusalPauses(Settled(rows, {}, false), LADDER, tick.granted, tick.now, tick.reliable);
  }

  lemma ReadingsPassOver(rows: seq<Beat>, entry: Beat)
    requires !entry.outcome.Sent? && !entry.outcome.Paused?
    ensures LastSentAt(rows + [entry]) == LastSentAt(rows) && PausedUntil(rows + [entry]) == PausedUntil(rows)
  {
    assert (rows + [entry])[..|rows|] == rows;
  }

  /** Every tick held back by pacing or a pause knows when that clears. */
  lemma HeldBackClears(production: bool, rows: seq<Beat>, tick: Tick)
    requires !HasExited(rows)
    requires Decide(production, rows, tick).0 in {Suppress(RateLimited), Suppress(WhilePaused)}
    ensures ClearsAt(production, rows, tick).Some?
  {
    var (decision, settled) := Decide(production, rows, tick);
    var entry := Entry(decision, tick).0;
    HeldBackHasReason(production, rows, tick);
    AfterLogs(production, rows, tick);
    ReadingsPassOver(settled, entry);
    ReadingsPassOver(settled + [entry],
                     Beat(None, Exited(JourneyExitReason(tick.laterGranted)), tick.recordedAt, None));
  }

  /** A tick held back by pacing or a pause wakes its successor when that clears or as placed,
      whichever is later. */
  lemma HeldBackWakes(production: bool, rows: seq<Beat>, tick: Tick, placed: real)
    requires !HasExited(rows)
    requires Decide(production, rows, tick).0 in {Suppress(RateLimited), Suppress(WhilePaused)}
    requires Rearmed(production, rows, tick, placed).Some?
    ensures ClearsAt(production, rows, tick).Some?
    ensures FiresFor(Rearmed(production, rows, tick, placed).value,
                     Max(placed, ClearsAt(production, rows, tick).value as real), tick.recordedAt)
  {
    HeldBackClears(production, rows, tick);
    var clears := ClearsAt(production, rows, tick).value;
    var suppressed := Entry(Decide(production, rows, tick).0, tick).1;
    assert RetryFloor(production, After(production, rows, tick), suppressed, tick.recordedAt, tick.fast) == clears;
    WakesWithin(Max(placed, clears as real), tick.recordedAt);
  }

  /** The promise that a suppressed tick never wakes before its reason clears is kept exactly
      unless the reason clears over a minute later, at less than half a second past a whole second,
      and the placement of the beat does not push the alarm past that half second. */
  lemma RetryWakesShortIff(production: bool, rows: seq<Beat>, tick: Tick, placed: real)
    requires !HasExited(rows)
    requires Decide(production, rows, tick).0 in {Suppress(RateLimited), Suppress(WhilePaused)}
    requires Rearmed(production, rows, tick, placed).Some?
    ensures ClearsAt(production, rows, tick).Some?
    ensures var wake := Rearmed(production, rows, tick, placed).value;
      var clears := ClearsAt(production, rows, tick).value;
      var ahead := clears - tick.recordedAt;
      wake < clears <==>
      ahead > 60_000 && 0 < ahead % 1000 < 500 && placed < (clears - ahead % 1000 + 500) as real
  {
    HeldBackClears(production, rows, tick);
    var (decision, settled) := Decide(production, rows, tick);
    var suppressed := Entry(decision, tick).1;
    var clears := ClearsAt(production, rows, tick).value;
    assert RetryFloor(production, After(production, rows, tick), suppressed, tick.recordedAt, tick.fast) == clears;
    WakesShortIff(clears, Max(placed, clears as real), tick.recordedAt);
  }

  /** A tick with the same gap that runs before the reason has cleared sends nothing either. */
  lemma WokenShortIsHeldBack(production: bool, rows: seq<Beat>, tick: Tick, next: Tick)
    requires !HasExited(rows)
    requires Decide(production, rows, tick).0 in {Suppress(RateLimited), Suppress(WhilePaused)}
    requires ClearsAt(production, rows, tick).Some? && next.now < ClearsAt(production, rows, tick).value
    requires Gap(production, next) == Gap(production, tick)
    ensures !Decide(production, After(production, rows, tick), next).0.Send?
  {
    HeldBackClears(production, rows, tick);
    var after := After(production, rows, tick);
    SendPassedGuards(production, after, next);
    ReconcileEvolves(Settled(after, {}, false), LADDER, next.granted, next.now, next.reliable);
    ReadingsEvolve(after, SettledLog(after, next).rows, next.now);
  }

  /** An instance: the alarm of a rate-limited tick at 60 400 ms before the gap closes fires 400 ms
      short, and the tick it runs is rate-limited again. */
  lemma RetryWakesShort() returns (rows: seq<Beat>, tick: Tick, placed: real, wake: int)
    ensures Safe(rows, DAY_MS, tick.now) && TimedWell(true, tick, DAY_MS, tick.now)
    ensures Decide(true, rows, tick).0 == Suppress(RateLimited)
    ensures Rearmed(true, rows, tick, placed) == Some(wake)
    ensures Decide(true, After(true, rows, tick), tick.(now := wake)).0 == Suppress(RateLimited)
  {
    var now := DAY_MS - 60_400;
    tick := Tick(now, now, On, {}, true, true, true, {}, false, false, None, false);
    rows, placed := [Beat(Some(Domain), Sent, 0, None)], 0.0;
    var after := rows + [Beat(None, Suppressed(RateLimited), now, None)];
    assert rows[..|rows| - 1] == [] && after[..|after| - 1] == rows;
    HeldByPacing(rows, tick, 0);
    assert NextRung({}, {}) == Some(Domain);
    assert After(true, rows, tick) == after;
    assert LastSentAt(after) == LastSentAt(rows);
    WakesEarlyIff(60_400, now);
    wake := WakesAt((now + 60_400) as real, now);
    assert Max(placed, RetryFloor(true, after, Some(RateLimited), now, false) as real) == (now + 60_400) as real;
    HeldByPacing(after, tick.(now := wake), 0);
  }

  lemma HeldByPacing(rows: seq<Beat>, tick: Tick, last: int)
    requires !HasExited(rows) && PausedUntil(rows) == None && (forall rung :: !HasCreditedBeat(rows, rung))
    requires IgnoredStreak(rows) < MAX_IGNORED_BEATS && LastSentAt(rows) == Some(last)
    requires tick.switch == On && tick.granted == {} && tick.reliable && tick.hasHome && !tick.force
    requires tick.now - last < Gap(true, tick)
    ensures Decide(true, rows, tick) == (Suppress(RateLimited), rows)
  {
    SettlesNothing(Settled(rows, {}, false), LADDER, tick.now);
    NextRungIsLowest({}, {} + Unaskable());
    assert Domain !in {} + Unaskable();
  }

  lemma {:induction false} SettlesNothing(acc: Settled, rungs: seq<Rung>, now: int)
    requires forall rung :: !HasCreditedBeat(acc.rows, rung)
    ensures Reconcile(acc, rungs, {}, now, true) == acc
    decreases |rungs|
  {
    if |rungs| > 0 {
      SettlesNothing(acc, rungs[1..], now);
    }
  }
}
