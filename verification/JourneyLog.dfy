/** The journey's log (`src/brain/journey/log.ts`, `rungs.ts`): one row per thing that
    happened. Ticks are serial and the clock does not go back, so the order of insertion
    is the order of `at`, and "latest" means last. */
module JourneyLog {
  import opened Prelude
  import opened Schedule

  datatype Suppression = RateLimited | WhilePaused | Disabled | NoSurface | NoBeat | SettingsUnavailable

  datatype ExitReason = Completed | Ignored | Refused

  datatype Outcome = Sent | Suppressed(suppression: Suppression) | Paused(until: int) | Exited(reason: ExitReason)

  datatype Beat = Beat(rung: Option<Rung>, outcome: Outcome, at: int, grantedAt: Option<int>)

  const LADDER: seq<Rung> := [Domain, Channels, SecondAsker, ToolWorkspace, Digest]

  // ---------------------------------------------------------------------------
  // Reading the log.

  predicate IsSent(beat: Beat, rung: Rung) {
    beat.outcome.Sent? && beat.rung == Some(rung)
  }

  function LastSentAt(rows: seq<Beat>): Option<int> {
    if |rows| == 0 then None
    else if rows[|rows| - 1].outcome.Sent? then Some(rows[|rows| - 1].at)
    else LastSentAt(rows[..|rows| - 1])
  }

  /** Sent beats since the last one that was credited with a grant. */
  function IgnoredStreak(rows: seq<Beat>): nat {
    if |rows| == 0 then 0
    else
      var last := rows[|rows| - 1];
      if !last.outcome.Sent? then IgnoredStreak(rows[..|rows| - 1])
      else if last.grantedAt.Some? then 0
      else 1 + IgnoredStreak(rows[..|rows| - 1])
  }

  function PausedUntil(rows: seq<Beat>): Option<int> {
    if |rows| == 0 then None
    else if rows[|rows| - 1].outcome.Paused? then Some(rows[|rows| - 1].outcome.until)
    else PausedUntil(rows[..|rows| - 1])
  }

  predicate HasExited(rows: seq<Beat>) {
    exists i :: 0 <= i < |rows| && rows[i].outcome.Exited?
  }

  predicate HasCreditedBeat(rows: seq<Beat>, rung: Rung) {
    exists i :: 0 <= i < |rows| && IsSent(rows[i], rung) && rows[i].grantedAt.Some?
  }

  predicate HasRefusalMark(rows: seq<Beat>, rung: Rung) {
    exists i :: 0 <= i < |rows| && rows[i].outcome.Paused? && rows[i].rung == Some(rung)
  }

  /** The last beat sent for a rung without an answer yet takes the time of the grant. */
  function CreditGrant(rows: seq<Beat>, rung: Rung, now: int): (r: seq<Beat>)
    ensures |r| == |rows|
  {
    if |rows| == 0 then []
    else
      var last := rows[|rows| - 1];
      if IsSent(last, rung) && last.grantedAt.None?
      then rows[..|rows| - 1] + [last.(grantedAt := Some(now))]
      else CreditGrant(rows[..|rows| - 1], rung, now) + [last]
  }

  /** Only a null grant time on a sent beat of this rung may have been filled in. */
  ghost predicate Credited(rows: seq<Beat>, r: seq<Beat>, rung: Rung, now: int) {
    && |r| == |rows|
    && forall i :: 0 <= i < |rows| ==>
         r[i] == rows[i]
         || (IsSent(rows[i], rung) && rows[i].grantedAt.None? && r[i] == rows[i].(grantedAt := Some(now)))
  }

  lemma {:induction false} CreditGrantCredits(rows: seq<Beat>, rung: Rung, now: int)
    ensures Credited(rows, CreditGrant(rows, rung, now), rung, now)
    ensures (exists i :: 0 <= i < |rows| && IsSent(rows[i], rung)) ==>
        HasCreditedBeat(CreditGrant(rows, rung, now), rung)
    ensures !HasCreditedBeat(rows, rung) || HasCreditedBeat(CreditGrant(rows, rung, now), rung)
  {
    if |rows| > 0 {
      var front, last := rows[..|rows| - 1], rows[|rows| - 1];
      var r := CreditGrant(rows, rung, now);
      CreditGrantCredits(front, rung, now);
      if IsSent(last, rung) && last.grantedAt.None? {
        assert r[|rows| - 1].grantedAt.Some?;
      } else {
        assert r[..|rows| - 1] == CreditGrant(front, rung, now);
        if IsSent(last, rung) {
          assert r[|rows| - 1] == last;
        } else if HasCreditedBeat(CreditGrant(front, rung, now), rung) {
          var i :| 0 <= i < |front| && IsSent(r[..|rows| - 1][i], rung) && r[..|rows| - 1][i].grantedAt.Some?;
          assert IsSent(r[i], rung);
        }
        if exists i :: 0 <= i < |rows| && IsSent(rows[i], rung) {
          var i :| 0 <= i < |rows| && IsSent(rows[i], rung);
          assert i < |front| ==> IsSent(front[i], rung);
        }
        if HasCreditedBeat(rows, rung) {
          var i :| 0 <= i < |rows| && IsSent(rows[i], rung) && rows[i].grantedAt.Some?;
          assert i < |front| ==> IsSent(front[i], rung);
        }
      }
    }
  }

  // ---------------------------------------------------------------------------
  // The ladder.

  function NextRung(granted: set<Rung>, skip: set<Rung>): Option<Rung> {
    FirstOpen(LADDER, granted, skip)
  }

  function FirstOpen(ladder: seq<Rung>, granted: set<Rung>, skip: set<Rung>): Option<Rung> {
    if |ladder| == 0 then None
    else if ladder[0] !in granted && ladder[0] !in skip then Some(ladder[0])
    else FirstOpen(ladder[1..], granted, skip)
  }

  function Position(rung: Rung): nat {
    match rung
    case Domain => 0
    case Channels => 1
    case SecondAsker => 2
    case ToolWorkspace => 3
    case Digest => 4
  }

  lemma OnLadder(rung: Rung)
    ensures LADDER[Position(rung)] == rung
  {
  }

  lemma {:induction false} FirstOpenIsLowest(ladder: seq<Rung>, granted: set<Rung>, skip: set<Rung>)
    ensures var r := FirstOpen(ladder, granted, skip);
      if r.None? then forall i :: 0 <= i < |ladder| ==> ladder[i] in granted + skip
      else exists i :: 0 <= i < |ladder| && ladder[i] == r.value && r.value !in granted + skip
                    && forall j :: 0 <= j < i ==> ladder[j] in granted + skip
  {
    if |ladder| > 0 && (ladder[0] in granted || ladder[0] in skip) {
      FirstOpenIsLowest(ladder[1..], granted, skip);
      var r := FirstOpen(ladder[1..], granted, skip);
      if r.Some? {
        var i :| 0 <= i < |ladder[1..]| && ladder[1..][i] == r.value
              && forall j :: 0 <= j < i ==> ladder[1..][j] in granted + skip;
        assert ladder[i + 1] == r.value;
        forall j | 0 <= j < i + 1 ensures ladder[j] in granted + skip {
          assert j > 0 ==> ladder[j] == ladder[1..][j - 1];
        }
      } else {
        forall i | 0 <= i < |ladder| ensures ladder[i] in granted + skip {
          assert i > 0 ==> ladder[i] == ladder[1..][i - 1];
        }
      }
    }
  }

  /** The journey always offers the lowest rung that is neither granted nor skipped. */
  lemma NextRungIsLowest(granted: set<Rung>, skip: set<Rung>)
    ensures NextRung(granted, skip).None? <==> forall rung :: rung in granted + skip
    ensures NextRung(granted, skip).Some? ==>
      var r := NextRung(granted, skip).value;
      && r !in granted + skip
      && forall rung :: Position(rung) < Position(r) ==> rung in granted + skip
  {
    FirstOpenIsLowest(LADDER, granted, skip);
    if NextRung(granted, skip).None? {
      forall rung ensures rung in granted + skip {
        OnLadder(rung);
        assert LADDER[Position(rung)] in granted + skip;
      }
    } else {
      var r := NextRung(granted, skip).value;
      var i :| 0 <= i < |LADDER| && LADDER[i] == r && r !in granted + skip
            && forall j :: 0 <= j < i ==> LADDER[j] in granted + skip;
      forall rung | Position(rung) < Position(r) ensures rung in granted + skip {
        OnLadder(rung);
        OnLadder(r);
        assert LADDER[Position(rung)] in granted + skip;
      }
    }
  }

  function JourneyExitReason(granted: set<Rung>): ExitReason {
    if forall i :: 0 <= i < |LADDER| ==> LADDER[i] in granted then Completed else Refused
  }
}
