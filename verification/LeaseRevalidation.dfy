/** `revalidateLease` (`src/brain/lease/store.ts`): four blocks around three awaits, with any
    other steps in between. */
module LeaseRevalidation {
  import opened Prelude
  import opened LeaseStore
  import LeaseDecisions

  /** The row holding a lease; the column is unique. */
  ghost function FindLease(rows: Table, leaseId: string): (r: Option<Row>)
    ensures r.Some? ==> Holds(r.value, leaseId) && exists id :: id in rows && rows[id] == r.value
    ensures r.None? ==> forall id :: id in rows ==> !Holds(rows[id], leaseId)
  {
    if exists id :: id in rows && Holds(rows[id], leaseId) then
      var id :| id in rows && Holds(rows[id], leaseId);
      Some(rows[id])
    else None
  }

  /** What the outside said while the call ran, and what others did between its blocks. */
  datatype Course = Course(startedAt: int, before: seq<Step>, member: bool, during: seq<Step>,
                           connection: Option<LeaseDecisions.Connection>, leaseable: bool, after: seq<Step>,
                           eligible: bool, endedAt: int)

  datatype Verdict = Verdict(ok: bool, rows: Table)

  ghost predicate ConnectionServes(course: Course, row: Row)
    requires row.grant.Some?
  {
    && course.connection.Some? && course.leaseable && course.connection.value.active
    && course.connection.value.id == row.grant.value.lessorConnection
    && course.connection.value.orgId == row.request.key.orgId
    && course.connection.value.serverSlug == row.request.key.serverSlug
    && course.connection.value.userId == row.grant.value.lessorUser
  }

  /** The last block: read the lease again. */
  ghost function Conclude(rows: Table, leaseId: string, now: int): Verdict {
    var latest := FindLease(rows, leaseId);
    if latest.None? || latest.value.status != Active then Verdict(false, rows)
    else if latest.value.expiresAt <= now then Verdict(false, Next(rows, Finish(leaseId, Expired)))
    else Verdict(true, rows)
  }

  ghost function Revalidate(rows: Table, leaseId: string, course: Course): Verdict {
    var lease := FindLease(rows, leaseId);
    if lease.None? || lease.value.status != Active then Verdict(false, rows)
    else if lease.value.expiresAt <= course.startedAt then Verdict(false, Next(rows, Finish(leaseId, Expired)))
    else if !course.member then Verdict(false, Next(Asked(rows, course), Revoke(leaseId, course.startedAt)))
    else if !ConnectionServes(course, lease.value) then Verdict(false, Fetched(rows, course))
    else if !course.eligible then Verdict(false, Checked(rows, course))
    else Conclude(Checked(rows, course), leaseId, course.endedAt)
  }

  /** The table when the membership, the connection and the eligibility answer arrive. */
  ghost function Asked(rows: Table, course: Course): Table {
    Run(rows, course.before)
  }

  ghost function Fetched(rows: Table, course: Course): Table {
    Run(Asked(rows, course), course.during)
  }

  ghost function Checked(rows: Table, course: Course): Table {
    Run(Fetched(rows, course), course.after)
  }

  ghost predicate HonestCourse(rows: Table, course: Course) {
    && AllHonest(rows, course.before)
    && AllHonest(Asked(rows, course), course.during)
    && AllHonest(Fetched(rows, course), course.after)
  }

  lemma FindLeaseIs(rows: Table, leaseId: string, id: string)
    requires Sound(rows) && id in rows && Holds(rows[id], leaseId)
    ensures FindLease(rows, leaseId) == Some(rows[id])
  {
  }

  /** A lease row stays findable: grants never change hands. */
  lemma LeaseStays(rows: Table, steps: seq<Step>, leaseId: string)
    requires Sound(rows) && AllHonest(rows, steps)
    requires FindLease(rows, leaseId).Some? && FindLease(rows, leaseId).value.status == Active
    ensures var later := FindLease(Run(rows, steps), leaseId);
      Sound(Run(rows, steps)) && later.Some? && (later.value.status == Active ==> later == FindLease(rows, leaseId))
      && (later.value.status != Active ==> later.value.status in {Revoked, Expired, Consumed})
  {
    var id :| id in rows && rows[id] == FindLease(rows, leaseId).value;
    RunIsSound(rows, steps);
    ActiveRowStays(rows, steps, id);
    FindLeaseIs(Run(rows, steps), leaseId, id);
  }

  lemma {:induction false} ActiveRowStays(rows: Table, steps: seq<Step>, id: string)
    requires Sound(rows) && AllHonest(rows, steps) && id in rows && rows[id].grant.Some?
    ensures id in Run(rows, steps)
    ensures var later := Run(rows, steps)[id];
      && later.grant == rows[id].grant
      && (later.status == Active ==> later == rows[id])
      && (later.status != Active ==> later == rows[id] || later.status in {Revoked, Expired, Consumed})
    decreases |steps|
  {
    if |steps| > 0 {
      StepIsSound(rows, steps[0]);
      var next := Next(rows, steps[0]);
      assert Edge(rows[id], next[id]);
      ActiveRowStays(next, steps[1..], id);
    }
  }

  ghost predicate StillLive(rows: Table, leaseId: string, row: Row) {
    FindLease(rows, leaseId) == Some(row) && row.status == Active
  }

  /** If the lease is active after a run, it was active, and the same, before it. */
  lemma LiveWasLive(rows: Table, steps: seq<Step>, leaseId: string, row: Row)
    requires Sound(rows) && AllHonest(rows, steps) && StillLive(rows, leaseId, row)
    ensures Sound(Run(rows, steps))
    ensures FindLease(Run(rows, steps), leaseId).Some?
    ensures var later := FindLease(Run(rows, steps), leaseId).value;
      later.status == Active ==> StillLive(Run(rows, steps), leaseId, row)
  {
    LeaseStays(rows, steps, leaseId);
  }

  /** All that must be so for a true answer. */
  ghost predicate InOrder(row: Row, course: Course) {
    && row.grant.Some? && row.status == Active
    && row.expiresAt > course.startedAt && row.expiresAt > course.endedAt
    && course.member && ConnectionServes(course, row) && course.eligible
  }

  /** A true answer is sound whatever happened at the awaits: the lease is active and unexpired
      when it is given, it was active and unchanged at every await before, and each check was
      answered in its favour at its own moment. Nothing else is needed for a true answer. */
  lemma TrueMeansLive(rows: Table, leaseId: string, course: Course)
    requires Sound(rows) && HonestCourse(rows, course)
    ensures var verdict := Revalidate(rows, leaseId, course);
      var latest := FindLease(Checked(rows, course), leaseId);
      && (verdict.ok <==> latest.Some? && FindLease(rows, leaseId) == latest && InOrder(latest.value, course))
      && (verdict.ok ==>
            && verdict.rows == Checked(rows, course)
            && StillLive(rows, leaseId, latest.value) && StillLive(Asked(rows, course), leaseId, latest.value)
            && StillLive(Fetched(rows, course), leaseId, latest.value)
            && StillLive(Checked(rows, course), leaseId, latest.value))
  {
    var lease := FindLease(rows, leaseId);
    if lease.Some? && lease.value.status == Active {
      Sandwich(rows, course, leaseId, lease.value);
    }
  }

  lemma Sandwich(rows: Table, course: Course, leaseId: string, row: Row)
    requires Sound(rows) && HonestCourse(rows, course) && StillLive(rows, leaseId, row)
    ensures var latest := FindLease(Checked(rows, course), leaseId);
      && latest.Some?
      && (latest.value.status == Active ==>
            StillLive(Asked(rows, course), leaseId, row) && StillLive(Fetched(rows, course), leaseId, row)
            && StillLive(Checked(rows, course), leaseId, row))
  {
    Onward(rows, course.before, leaseId, row);
    Onward(Asked(rows, course), course.during, leaseId, row);
    Onward(Fetched(rows, course), course.after, leaseId, row);
  }

  ghost predicate LiveOrEnded(rows: Table, leaseId: string, row: Row) {
    StillLive(rows, leaseId, row) || (FindLease(rows, leaseId).Some? && FindLease(rows, leaseId).value.status != Active)
  }

  lemma Onward(rows: Table, steps: seq<Step>, leaseId: string, row: Row)
    requires Sound(rows) && AllHonest(rows, steps) && LiveOrEnded(rows, leaseId, row)
    ensures Sound(Run(rows, steps)) && LiveOrEnded(Run(rows, steps), leaseId, row)
    ensures StillLive(Run(rows, steps), leaseId, row) ==> StillLive(rows, leaseId, row)
  {
    if StillLive(rows, leaseId, row) {
      LiveWasLive(rows, steps, leaseId, row);
    } else {
      EndedStaysEnded(rows, steps, leaseId);
    }
  }

  lemma EndedStaysEnded(rows: Table, steps: seq<Step>, leaseId: string)
    requires Sound(rows) && AllHonest(rows, steps)
    requires FindLease(rows, leaseId).Some? && FindLease(rows, leaseId).value.status != Active
    ensures Sound(Run(rows, steps)) && FindLease(Run(rows, steps), leaseId) == FindLease(rows, leaseId)
  {
    var id :| id in rows && rows[id] == FindLease(rows, leaseId).value;
    RunIsSound(rows, steps);
    NeverActiveAgain(rows, steps, id);
    FindLeaseIs(Run(rows, steps), leaseId, id);
  }

  lemma FinishOne(rows: Table, id: string, leaseId: string)
    requires Sound(rows) && id in rows && Holds(rows[id], leaseId) && rows[id].status == Active
    ensures Next(rows, Finish(leaseId, Expired)) == rows[id := rows[id].(status := Expired)]
  {
  }

  lemma RevokeOne(rows: Table, id: string, leaseId: string, now: int)
    requires Sound(rows) && id in rows && Holds(rows[id], leaseId)
    ensures Next(rows, Revoke(leaseId, now)) ==
            if rows[id].status == Active then rows[id := rows[id].(status := Revoked, revokedAt := Some(now))] else rows
  {
  }

  lemma HeldThroughout(rows: Table, leaseId: string, course: Course, id: string)
    requires Sound(rows) && HonestCourse(rows, course) && id in rows && Holds(rows[id], leaseId)
    ensures Sound(Asked(rows, course)) && Sound(Checked(rows, course))
    ensures id in Asked(rows, course) && Holds(Asked(rows, course)[id], leaseId)
    ensures id in Checked(rows, course) && Holds(Checked(rows, course)[id], leaseId)
  {
    RunIsSound(rows, course.before);
    ActiveRowStays(rows, course.before, id);
    RunIsSound(Asked(rows, course), course.during);
    ActiveRowStays(Asked(rows, course), course.during, id);
    RunIsSound(Fetched(rows, course), course.after);
    ActiveRowStays(Fetched(rows, course), course.after, id);
  }

  lemma ConcludeActs(rows: Table, leaseId: string, now: int, id: string)
    requires Sound(rows) && id in rows && Holds(rows[id], leaseId)
    ensures Conclude(rows, leaseId, now).rows ==
            if rows[id].status == Active && rows[id].expiresAt <= now
            then rows[id := rows[id].(status := Expired)] else rows
  {
    FindLeaseIs(rows, leaseId, id);
    if rows[id].status == Active {
      FinishOne(rows, id, leaseId);
    }
  }

  /** What the call does to the table on its way to an answer, given the lease was active when it
      began: an expired lease is closed, one whose holder left the channel is revoked if it still
      is active, and otherwise only the others' steps show. */
  lemma RevalidationActs(rows: Table, leaseId: string, course: Course, id: string)
    requires Sound(rows) && HonestCourse(rows, course)
    requires id in rows && Holds(rows[id], leaseId) && rows[id].status == Active
    ensures id in Asked(rows, course) && id in Checked(rows, course)
    ensures var verdict := Revalidate(rows, leaseId, course);
      var asked, checked := Asked(rows, course), Checked(rows, course);
      verdict.rows ==
      if rows[id].expiresAt <= course.startedAt then rows[id := rows[id].(status := Expired)]
      else if !course.member then
        if asked[id].status == Active
        then asked[id := asked[id].(status := Revoked, revokedAt := Some(course.startedAt))] else asked
      else if !ConnectionServes(course, rows[id]) then Fetched(rows, course)
      else if course.eligible && checked[id].status == Active && checked[id].expiresAt <= course.endedAt
      then checked[id := checked[id].(status := Expired)]
      else checked
  {
    HeldThroughout(rows, leaseId, course, id);
    FindLeaseIs(rows, leaseId, id);
    if rows[id].expiresAt <= course.startedAt {
      FinishOne(rows, id, leaseId);
    } else if !course.member {
      RevokeOne(Asked(rows, course), id, leaseId, course.startedAt);
    } else if ConnectionServes(course, rows[id]) && course.eligible {
      ConcludeActs(Checked(rows, course), leaseId, course.endedAt, id);
    }
  }

  /** Without an active lease the answer is no, and nothing is done. */
  lemma NoLeaseNoAction(rows: Table, leaseId: string, course: Course)
    requires forall id :: id in rows && Holds(rows[id], leaseId) ==> rows[id].status != Active
    ensures Revalidate(rows, leaseId, course) == Verdict(false, rows)
  {
  }

  // ---------------------------------------------------------------------------
  // The leases a turn runs with.

  /** One lease per server of the actor's live leases, a writing one if there is any. */
  method ChooseLeases(live: seq<Row>) returns (chosen: map<string, Row>)
    ensures forall server :: server in chosen <==> exists l :: l in live && l.request.key.serverSlug == server
    ensures forall server :: server in chosen ==>
        chosen[server] in live && chosen[server].request.key.serverSlug == server
    ensures forall l :: l in live && l.request.mode == ReadWrite ==>
              chosen[l.request.key.serverSlug].request.mode == ReadWrite
  {
    chosen := map[];
    var i := 0;
    while i < |live|
      invariant 0 <= i <= |live|
      invariant forall server :: server in chosen <==>
          exists j :: 0 <= j < i && live[j].request.key.serverSlug == server
      invariant forall server :: server in chosen ==>
          chosen[server] in live && chosen[server].request.key.serverSlug == server
      invariant forall j :: 0 <= j < i && live[j].request.mode == ReadWrite ==>
        chosen[live[j].request.key.serverSlug].request.mode == ReadWrite
    {
      var server := live[i].request.key.serverSlug;
      if server !in chosen || live[i].request.mode == ReadWrite {
        chosen := chosen[server := live[i]];
      }
      i := i + 1;
    }
  }
}
