/** Silent investigations (`src/brain/slack/chime-budget.ts`): a leased concurrency limit
    and an hourly cap over one table keyed by trace id. */
module PassiveInvestigation {
  import opened Prelude
  import opened ChimeBudget

  const MAX_CONCURRENT := 2
  const MAX_PER_HOUR := 6
  const LEASE_MS := 600_000
  const RETENTION_MS := 7 * 24 * HOUR_MS

  datatype Status = Running | Expired | Finished

  datatype Work = Work(status: Status, startedAt: nat, expiresAt: nat, bucket: nat)

  datatype Claim = Claim(traceId: string, startedAt: nat)

  datatype Overflow = Concurrency | InvestigationHourly

  type Table = map<string, Work>

  /** Deletes what finished a week ago and expires what ran past its lease. */
  function Swept(table: Table, now: nat): Table {
    map id | id in table && !(table[id].status != Running && table[id].startedAt < now - RETENTION_MS) ::
      if table[id].status == Running && table[id].expiresAt <= now then table[id].(status := Expired) else table[id]
  }

  function RunningIds(table: Table): set<string> {
    set id | id in table && table[id].status == Running
  }

  function IdsInBucket(table: Table, bucket: nat): set<string> {
    set id | id in table && table[id].bucket == bucket
  }

  function Reserved(table: Table, traceId: string, now: nat): (Table, Result<Claim, Overflow>) {
    var swept := Swept(table, now);
    if |RunningIds(swept)| >= MAX_CONCURRENT then (swept, Err(Concurrency))
    else if |IdsInBucket(swept, Bucket(now))| >= MAX_PER_HOUR then (swept, Err(InvestigationHourly))
    else
      var inserted := if traceId in swept then swept
                      else swept[traceId := NewWork(now)];
      (inserted, Ok(Claim(traceId, now)))
  }

  function Released(table: Table, claim: Claim, now: nat): Table {
    var id := claim.traceId;
    if id in table && table[id].startedAt == claim.startedAt && table[id].status == Running
    then table[id := table[id].(status := Finished, expiresAt := now)]
    else table
  }

  class Investigations {
    var table: Table

    constructor ()
      ensures table == map[]
    {
      table := map[];
    }

    method Reserve(traceId: string, now: nat) returns (r: Result<Claim, Overflow>)
      modifies this
      ensures (table, r) == Reserved(old(table), traceId, now)
    {
      table := map id | id in table && !(table[id].status != Running && table[id].startedAt < now - RETENTION_MS) ::
        table[id];
      table := map id | id in table ::
        if table[id].status == Running && table[id].expiresAt <= now then table[id].(status := Expired) else table[id];
      assert table == Swept(old(table), now);
      if |RunningIds(table)| >= MAX_CONCURRENT { return Err(Concurrency); }
      if |IdsInBucket(table, Bucket(now))| >= MAX_PER_HOUR { return Err(InvestigationHourly); }
      if traceId !in table {
        table := table[traceId := NewWork(now)];
      }
      r := Ok(Claim(traceId, now));
    }

    method Release(claim: Claim, now: nat)
      modifies this
      ensures table == Released(old(table), claim, now)
    {
      var id := claim.traceId;
      if id in table && table[id].startedAt == claim.startedAt && table[id].status == Running {
        table := table[id := table[id].(status := Finished, expiresAt := now)];
      }
    }
  }

  // ---------------------------------------------------------------------------
  // Runs, with the claims handed out so far.

  datatype Step = ReserveStep(traceId: string, now: nat) | ReleaseStep(claim: Claim, now: nat)

  function Run(table: Table, claims: seq<Claim>, steps: seq<Step>): (Table, seq<Claim>)
    decreases |steps|
  {
    if |steps| == 0 then (table, claims)
    else match steps[0]
      case ReserveStep(id, now) =>
        var (next, r) := Reserved(table, id, now);
        Run(next, if r.Ok? then claims + [r.value] else claims, steps[1..])
      case ReleaseStep(claim, now) => Run(Released(table, claim, now), claims, steps[1..])
  }

  ghost predicate ClockForward(steps: seq<Step>, from: nat) {
    |steps| == 0 || (from <= steps[0].now && ClockForward(steps[1..], steps[0].now))
  }

  ghost predicate Limited(table: Table) {
    && |RunningIds(table)| <= MAX_CONCURRENT
    && (forall b: nat :: |IdsInBucket(table, b)| <= MAX_PER_HOUR)
    && (forall id :: id in table ==> table[id].bucket == Bucket(table[id].startedAt))
  }

  lemma SweptIsLimited(table: Table, now: nat)
    requires Limited(table)
    ensures Limited(Swept(table, now))
  {
    SubsetSize(RunningIds(Swept(table, now)), RunningIds(table));
    forall b: nat ensures |IdsInBucket(Swept(table, now), b)| <= MAX_PER_HOUR {
      SubsetSize(IdsInBucket(Swept(table, now), b), IdsInBucket(table, b));
    }
  }

  function NewWork(now: nat): Work {
    Work(Running, now, now + LEASE_MS, Bucket(now))
  }

  lemma InsertOne(table: Table, id: string, work: Work, b: nat)
    requires id !in table
    ensures RunningIds(table[id := work]) == RunningIds(table) + if work.status == Running then {id} else {}
    ensures IdsInBucket(table[id := work], b) == IdsInBucket(table, b) + if work.bucket == b then {id} else {}
  {
  }

  lemma InsertIsLimited(table: Table, id: string, now: nat)
    requires Limited(table) && id !in table
    requires |RunningIds(table)| < MAX_CONCURRENT && |IdsInBucket(table, Bucket(now))| < MAX_PER_HOUR
    ensures Limited(table[id := NewWork(now)])
  {
    var next := table[id := NewWork(now)];
    InsertOne(table, id, NewWork(now), 0);
    forall b: nat ensures |IdsInBucket(next, b)| <= MAX_PER_HOUR {
      InsertOne(table, id, NewWork(now), b);
    }
  }

  lemma ReservedIsLimited(table: Table, traceId: string, now: nat)
    requires Limited(table)
    ensures Limited(Reserved(table, traceId, now).0)
  {
    SweptIsLimited(table, now);
    var swept := Swept(table, now);
    if Reserved(table, traceId, now).0 != swept {
      InsertIsLimited(swept, traceId, now);
    }
  }

  lemma ReleasedIsLimited(table: Table, claim: Claim, now: nat)
    requires Limited(table)
    ensures Limited(Released(table, claim, now))
  {
    var next := Released(table, claim, now);
    SubsetSize(RunningIds(next), RunningIds(table));
    forall b: nat ensures |IdsInBucket(next, b)| <= MAX_PER_HOUR {
      assert IdsInBucket(next, b) == IdsInBucket(table, b);
    }
  }

  /** In every run at most two investigations hold a live lease, and each clock hour has
      at most six rows. */
  lemma {:induction false} EveryRunIsLimited(table: Table, claims: seq<Claim>, steps: seq<Step>)
    requires Limited(table)
    ensures Limited(Run(table, claims, steps).0)
    decreases |steps|
  {
    if |steps| > 0 {
      match steps[0]
      case ReserveStep(id, now) =>
        ReservedIsLimited(table, id, now);
        var (next, r) := Reserved(table, id, now);
        EveryRunIsLimited(next, if r.Ok? then claims + [r.value] else claims, steps[1..]);
      case ReleaseStep(claim, now) =>
        ReleasedIsLimited(table, claim, now);
        EveryRunIsLimited(Released(table, claim, now), claims, steps[1..]);
    }
  }

  // ---------------------------------------------------------------------------
  // What one call does.

  /** The investigations whose lease has not run out. */
  function Unexpired(table: Table, now: nat): set<string> {
    set id | id in table && table[id].status == Running && now < table[id].expiresAt
  }

  /** A claim is granted exactly while fewer than two leases are unexpired and the hour has fewer than
      six rows. A new id then gets its row for a full lease; leases that ran out are marked, what
      ended a week ago is dropped, and nothing else changes. */
  lemma ReserveIs(table: Table, traceId: string, now: nat)
    requires Limited(table)
    ensures var (next, r) := Reserved(table, traceId, now);
      && (r.Ok? <==> |Unexpired(table, now)| < MAX_CONCURRENT && |IdsInBucket(table, Bucket(now))| < MAX_PER_HOUR)
      && r == (if r.Ok? then Ok(Claim(traceId, now))
               else if |Unexpired(table, now)| >= MAX_CONCURRENT then Err(Concurrency) else Err(InvestigationHourly))
      && (traceId !in table && r.Ok? ==>
            traceId in next && next[traceId] == Work(Running, now, now + LEASE_MS, Bucket(now)))
      && (traceId !in table && r.Err? ==> traceId !in next)
      && forall id :: id in table && id != traceId ==>
           if table[id].status != Running && table[id].startedAt + RETENTION_MS < now then id !in next
           else
             && id in next
             && next[id] == if table[id].status == Running && table[id].expiresAt <= now
                            then table[id].(status := Expired) else table[id]
  {
    var swept := Swept(table, now);
    assert RunningIds(swept) == Unexpired(table, now);
    forall id | id in IdsInBucket(table, Bucket(now)) ensures id in swept {
      assert table[id].bucket == Bucket(table[id].startedAt);
    }
    assert IdsInBucket(swept, Bucket(now)) == IdsInBucket(table, Bucket(now));
  }

  /** Giving a claim back frees its slot at once, and no other. */
  lemma ReleaseFreesSlot(table: Table, claim: Claim, now: nat, later: nat)
    ensures var next := Released(table, claim, now);
      var theirs := claim.traceId in table && table[claim.traceId].startedAt == claim.startedAt;
      && Unexpired(next, later) == Unexpired(table, later) - (if theirs then {claim.traceId} else {})
      && next.Keys == table.Keys
      && (forall id :: id in table && id != claim.traceId ==> next[id] == table[id])
      && (claim.traceId in table && !(theirs && table[claim.traceId].status == Running) ==> next == table)
      && (theirs && table[claim.traceId].status == Running ==> next[claim.traceId].status == Finished)
  {
  }

  // ---------------------------------------------------------------------------
  // From rows to claims: the hourly cap binds callers only if trace ids do not repeat.

  ghost function ClaimsIn(claims: seq<Claim>, bucket: nat): nat {
    if |claims| == 0 then 0
    else ClaimsIn(claims[..|claims| - 1], bucket) + if Bucket(claims[|claims| - 1].startedAt) == bucket then 1 else 0
  }

  ghost function TracesIn(claims: seq<Claim>, bucket: nat): set<string> {
    if |claims| == 0 then {}
    else TracesIn(claims[..|claims| - 1], bucket) + TraceOf(claims[|claims| - 1], bucket)
  }

  ghost function TraceOf(claim: Claim, bucket: nat): set<string> {
    if Bucket(claim.startedAt) == bucket then {claim.traceId} else {}
  }

  lemma {:induction false} TracesHas(claims: seq<Claim>, bucket: nat, id: string)
    ensures id in TracesIn(claims, bucket) <==>
            exists i :: 0 <= i < |claims| && Bucket(claims[i].startedAt) == bucket && claims[i].traceId == id
  {
    if |claims| > 0 {
      var front := claims[..|claims| - 1];
      TracesHas(front, bucket, id);
      if i :| 0 <= i < |claims| && Bucket(claims[i].startedAt) == bucket && claims[i].traceId == id {
        assert i < |front| ==> front[i] == claims[i];
      }
      if i :| 0 <= i < |front| && Bucket(front[i].startedAt) == bucket && front[i].traceId == id {
        assert claims[i] == front[i];
      }
    }
  }

  ghost predicate DistinctTraces(claims: seq<Claim>) {
    forall i, j :: 0 <= i < j < |claims| ==> claims[i].traceId != claims[j].traceId
  }

  lemma {:induction false} DistinctCount(claims: seq<Claim>, bucket: nat)
    requires DistinctTraces(claims)
    ensures ClaimsIn(claims, bucket) == |TracesIn(claims, bucket)|
  {
    if |claims| > 0 {
      var front, last := claims[..|claims| - 1], claims[|claims| - 1];
      DistinctCount(front, bucket);
      TracesHas(front, bucket, last.traceId);
    }
  }

  /** Every row belongs to some claim, and every claim of the current hour has its row. */
  ghost predicate Matched(table: Table, claims: seq<Claim>, now: nat) {
    && Limited(table)
    && (forall i :: 0 <= i < |claims| ==> claims[i].startedAt <= now)
    && (forall i :: 0 <= i < |claims| && Bucket(claims[i].startedAt) == Bucket(now) ==>
          claims[i].traceId in table && table[claims[i].traceId].startedAt == claims[i].startedAt)
    && (forall id :: id in table ==> exists i :: 0 <= i < |claims| && claims[i].traceId == id)
    && (forall b :: ClaimsIn(claims, b) <= MAX_PER_HOUR)
  }

  lemma {:induction false} NoClaimsLater(claims: seq<Claim>, bucket: nat)
    requires forall i :: 0 <= i < |claims| ==> Bucket(claims[i].startedAt) < bucket
    ensures ClaimsIn(claims, bucket) == 0
  {
    if |claims| > 0 {
      NoClaimsLater(claims[..|claims| - 1], bucket);
    }
  }

  lemma SweptMatches(table: Table, claims: seq<Claim>, from: nat, now: nat)
    requires Matched(table, claims, from) && from <= now
    ensures Matched(Swept(table, now), claims, now)
  {
    SweptIsLimited(table, now);
    var swept := Swept(table, now);
    forall i | 0 <= i < |claims| && Bucket(claims[i].startedAt) == Bucket(now)
      ensures claims[i].traceId in swept && swept[claims[i].traceId].startedAt == claims[i].startedAt
    {
      assert Bucket(from) == Bucket(now);
    }
  }

  lemma NewTrace(claims: seq<Claim>, id: string, now: nat)
    requires DistinctTraces(claims + [Claim(id, now)])
    ensures forall i :: 0 <= i < |claims| ==> claims[i].traceId != id
  {
    var after := claims + [Claim(id, now)];
    forall i | 0 <= i < |claims| ensures claims[i].traceId != id {
      assert after[i].traceId != after[|claims|].traceId;
    }
  }

  lemma ClaimMatches(table: Table, claims: seq<Claim>, id: string, now: nat)
    requires Matched(table, claims, now) && DistinctTraces(claims + [Claim(id, now)])
    requires |RunningIds(table)| < MAX_CONCURRENT && |IdsInBucket(table, Bucket(now))| < MAX_PER_HOUR
    ensures id !in table && Matched(table[id := NewWork(now)], claims + [Claim(id, now)], now)
  {
    var after, next := claims + [Claim(id, now)], table[id := NewWork(now)];
    NewTrace(claims, id, now);
    InsertIsLimited(table, id, now);
    CountOneMore(table, claims, id, now);
    forall i | 0 <= i < |after| && Bucket(after[i].startedAt) == Bucket(now)
      ensures after[i].traceId in next && next[after[i].traceId].startedAt == after[i].startedAt
    {
      assert i < |claims| ==> after[i] == claims[i] && after[i].traceId != after[|claims|].traceId;
    }
    forall other | other in next ensures exists i :: 0 <= i < |after| && after[i].traceId == other {
      if other in table {
        var i :| 0 <= i < |claims| && claims[i].traceId == other;
        assert after[i].traceId == other;
      } else {
        assert after[|claims|].traceId == other;
      }
    }
  }

  lemma CountOneMore(table: Table, claims: seq<Claim>, id: string, now: nat)
    requires Matched(table, claims, now) && DistinctTraces(claims + [Claim(id, now)])
    requires |IdsInBucket(table, Bucket(now))| < MAX_PER_HOUR
    ensures forall b :: ClaimsIn(claims + [Claim(id, now)], b) <= MAX_PER_HOUR
  {
    var after := claims + [Claim(id, now)];
    assert after[..|claims|] == claims;
    assert DistinctTraces(claims) by {
      forall i, j | 0 <= i < j < |claims| ensures claims[i].traceId != claims[j].traceId {
        assert after[i].traceId != after[j].traceId;
      }
    }
    DistinctCount(claims, Bucket(now));
    forall id | id in TracesIn(claims, Bucket(now)) ensures id in IdsInBucket(table, Bucket(now)) {
      TracesHas(claims, Bucket(now), id);
    }
    SubsetSize(TracesIn(claims, Bucket(now)), IdsInBucket(table, Bucket(now)));
  }

  lemma ReserveMatches(table: Table, claims: seq<Claim>, from: nat, id: string, now: nat)
    requires Matched(table, claims, from) && from <= now
    ensures var (next, r) := Reserved(table, id, now);
      && (r.Err? ==> Matched(next, claims, now))
      && (r.Ok? && DistinctTraces(claims + [r.value]) ==> Matched(next, claims + [r.value], now))
  {
    SweptMatches(table, claims, from, now);
    var (next, r) := Reserved(table, id, now);
    if r.Ok? && DistinctTraces(claims + [r.value]) {
      ClaimMatches(Swept(table, now), claims, id, now);
    }
  }

  lemma {:induction false} MatchedRun(table: Table, claims: seq<Claim>, steps: seq<Step>, from: nat)
    requires Matched(table, claims, from) && ClockForward(steps, from)
    requires DistinctTraces(Run(table, claims, steps).1)
    ensures forall b :: ClaimsIn(Run(table, claims, steps).1, b) <= MAX_PER_HOUR
    decreases |steps|
  {
    ClaimsGrow(table, claims, steps);
    if |steps| > 0 {
      match steps[0]
      case ReserveStep(id, now) =>
        var (next, r) := Reserved(table, id, now);
        var after := if r.Ok? then claims + [r.value] else claims;
        ClaimsGrow(next, after, steps[1..]);
        ReserveMatches(table, claims, from, id, now);
        MatchedRun(next, after, steps[1..], now);
      case ReleaseStep(claim, now) =>
        ReleasedIsLimited(table, claim, now);
        assert Matched(Released(table, claim, now), claims, now);
        MatchedRun(Released(table, claim, now), claims, steps[1..], now);
    }
  }

  lemma {:induction false} ClaimsGrow(table: Table, claims: seq<Claim>, steps: seq<Step>)
    ensures var after := Run(table, claims, steps).1; |claims| <= |after| && after[..|claims|] == claims
    decreases |steps|
  {
    if |steps| > 0 {
      match steps[0]
      case ReserveStep(id, now) =>
        var (next, r) := Reserved(table, id, now);
        var more := if r.Ok? then claims + [r.value] else claims;
        ClaimsGrow(next, more, steps[1..]);
        assert more[..|claims|] == claims;
      case ReleaseStep(claim, now) => ClaimsGrow(Released(table, claim, now), claims, steps[1..]);
    }
  }

  /** From an empty table, callers that use each trace id once get at most six
      investigations per clock hour. */
  lemma SixClaimsPerHour(steps: seq<Step>)
    requires ClockForward(steps, 0) && DistinctTraces(Run(map[], [], steps).1)
    ensures forall b :: ClaimsIn(Run(map[], [], steps).1, b) <= MAX_PER_HOUR
  {
    assert RunningIds(map[]) == {} && forall b :: IdsInBucket(map[], b) == {};
    MatchedRun(map[], [], steps, 0);
  }

  // ---------------------------------------------------------------------------
  // The claims that callers still hold.

  /** The claims handed out and not given back at the end of a run. */
  ghost function Holding(table: Table, held: set<Claim>, steps: seq<Step>): set<Claim>
    decreases |steps|
  {
    if |steps| == 0 then held
    else match steps[0]
      case ReserveStep(id, now) =>
        var (next, r) := Reserved(table, id, now);
        Holding(next, if r.Ok? then held + {r.value} else held, steps[1..])
      case ReleaseStep(claim, now) => Holding(Released(table, claim, now), held - {claim}, steps[1..])
  }

  ghost function Live(held: set<Claim>, now: nat): set<Claim> {
    set claim | claim in held && claim.startedAt + LEASE_MS > now
  }

  ghost function LastTime(steps: seq<Step>, from: nat): nat {
    if |steps| == 0 then from else LastTime(steps[1..], steps[0].now)
  }

  ghost predicate HasRunningRow(table: Table, claim: Claim) {
    && claim.traceId in table
    && table[claim.traceId] == Work(Running, claim.startedAt, claim.startedAt + LEASE_MS, Bucket(claim.startedAt))
  }

  /** Every claim still held and unexpired was handed out and has its running row. */
  ghost predicate Backed(table: Table, claims: seq<Claim>, held: set<Claim>, now: nat) {
    && (forall claim :: claim in held ==> claim in claims)
    && (forall claim :: claim in Live(held, now) ==> HasRunningRow(table, claim))
  }

  lemma ReserveBacks(table: Table, claims: seq<Claim>, held: set<Claim>, from: nat, id: string, now: nat)
    requires Matched(table, claims, from) && Backed(table, claims, held, from) && from <= now
    ensures var (next, r) := Reserved(table, id, now);
      && (r.Err? ==> Backed(next, claims, held, now))
      && (r.Ok? && DistinctTraces(claims + [r.value]) ==>
            Backed(next, claims + [r.value], held + {r.value}, now))
  {
    var (next, r) := Reserved(table, id, now);
    var swept := Swept(table, now);
    forall claim | claim in Live(held, now) ensures HasRunningRow(swept, claim) {
      assert claim in Live(held, from);
    }
    if r.Ok? && DistinctTraces(claims + [r.value]) {
      SweptMatches(table, claims, from, now);
      ClaimMatches(swept, claims, id, now);
      NewTrace(claims, id, now);
      forall claim | claim in Live(held + {r.value}, now) ensures HasRunningRow(next, claim) {
        if claim != r.value {
          assert claim in Live(held, now) && claim in claims;
        }
      }
    }
  }

  lemma ReleaseBacks(table: Table, claims: seq<Claim>, held: set<Claim>, from: nat, claim: Claim, now: nat)
    requires Backed(table, claims, held, from) && DistinctTraces(claims) && from <= now
    ensures Backed(Released(table, claim, now), claims, held - {claim}, now)
  {
    forall other | other in Live(held - {claim}, now) ensures HasRunningRow(Released(table, claim, now), other) {
      assert other in Live(held, from);
      assert HasRunningRow(table, other) && other != claim;
    }
  }

  lemma {:induction false} AtMostOneClaimEach(ids: set<string>, table: Table, live: set<Claim>)
    requires forall claim :: claim in live ==> claim.traceId in ids && HasRunningRow(table, claim)
    ensures |live| <= |ids|
    decreases |live|
  {
    if live == {} {
    } else {
      var claim :| claim in live;
      forall other | other in live - {claim} ensures other.traceId in ids - {claim.traceId} {
        assert HasRunningRow(table, other) && HasRunningRow(table, claim);
      }
      AtMostOneClaimEach(ids - {claim.traceId}, table, live - {claim});
    }
  }

  lemma {:induction false} BackedRun(
      table: Table, claims: seq<Claim>, held: set<Claim>, steps: seq<Step>, from: nat, now: nat)
    requires Matched(table, claims, from) && Backed(table, claims, held, from)
    requires ClockForward(steps, from) && LastTime(steps, from) <= now
    requires DistinctTraces(Run(table, claims, steps).1)
    ensures |Live(Holding(table, held, steps), now)| <= MAX_CONCURRENT
    decreases |steps|
  {
    ClaimsGrow(table, claims, steps);
    if |steps| == 0 {
      forall claim | claim in Live(held, now) ensures HasRunningRow(table, claim) {
        assert claim in Live(held, from);
      }
      AtMostOneClaimEach(RunningIds(table), table, Live(held, now));
    } else {
      match steps[0]
      case ReserveStep(id, at) =>
        var (next, r) := Reserved(table, id, at);
        var after := if r.Ok? then claims + [r.value] else claims;
        ClaimsGrow(next, after, steps[1..]);
        ReserveMatches(table, claims, from, id, at);
        ReserveBacks(table, claims, held, from, id, at);
        BackedRun(next, after, if r.Ok? then held + {r.value} else held, steps[1..], at, now);
      case ReleaseStep(claim, at) =>
        ReleasedIsLimited(table, claim, at);
        assert Matched(Released(table, claim, at), claims, at);
        DistinctPrefix(claims, Run(table, claims, steps).1);
        ReleaseBacks(table, claims, held, from, claim, at);
        BackedRun(Released(table, claim, at), claims, held - {claim}, steps[1..], at, now);
    }
  }

  lemma DistinctPrefix(claims: seq<Claim>, after: seq<Claim>)
    requires |claims| <= |after| && after[..|claims|] == claims && DistinctTraces(after)
    ensures DistinctTraces(claims)
  {
    forall i, j | 0 <= i < j < |claims| ensures claims[i].traceId != claims[j].traceId {
      assert claims[i] == after[i] && claims[j] == after[j];
    }
  }

  /** From an empty table, callers that use each trace id once hold at most two claims
      whose lease has not run out, at every moment of every run. */
  lemma TwoClaimsHeld(steps: seq<Step>, now: nat)
    requires ClockForward(steps, 0) && LastTime(steps, 0) <= now
    requires DistinctTraces(Run(map[], [], steps).1)
    ensures |Live(Holding(map[], {}, steps), now)| <= MAX_CONCURRENT
  {
    assert RunningIds(map[]) == {} && forall b :: IdsInBucket(map[], b) == {};
    BackedRun(map[], [], {}, steps, 0, now);
  }

  /** Why both statements ask for distinct trace ids: an id whose row is present is granted
      again without a row. The callers draw a fresh id for every investigation. */
  lemma {:induction false} RepeatedTraceEscapesTheCap(n: nat)
    ensures Run(map[], [], seq(n, _ => ReserveStep("t", 0))).1 == seq(n, _ => Claim("t", 0))
  {
    if n > 0 {
      var first := ReserveStep("t", 0);
      assert seq(n, _ => first)[1..] == seq(n - 1, _ => first);
      assert RunningIds(map[]) == {} && IdsInBucket(map[], 0) == {};
      assert Swept(map[], 0) == map[];
      var table := Reserved(map[], "t", 0).0;
      GrantedForever(table, [Claim("t", 0)], n - 1);
      assert [] + [Claim("t", 0)] == [Claim("t", 0)];
      assert [Claim("t", 0)] + seq(n - 1, _ => Claim("t", 0)) == seq(n, _ => Claim("t", 0));
    }
  }

  lemma {:induction false} GrantedForever(table: Table, claims: seq<Claim>, n: nat)
    requires table == map["t" := Work(Running, 0, LEASE_MS, 0)]
    ensures Run(table, claims, seq(n, _ => ReserveStep("t", 0))).1 == claims + seq(n, _ => Claim("t", 0))
    decreases n
  {
    if n > 0 {
      var first := ReserveStep("t", 0);
      assert seq(n, _ => first)[1..] == seq(n - 1, _ => first);
      assert Swept(table, 0) == table;
      assert RunningIds(table) == {"t"} && IdsInBucket(table, 0) == {"t"};
      assert Reserved(table, "t", 0) == (table, Ok(Claim("t", 0)));
      GrantedForever(table, claims + [Claim("t", 0)], n - 1);
      assert [Claim("t", 0)] + seq(n - 1, _ => Claim("t", 0)) == seq(n, _ => Claim("t", 0));
      assert claims + [Claim("t", 0)] + seq(n - 1, _ => Claim("t", 0)) == claims + seq(n, _ => Claim("t", 0));
    }
  }
}
