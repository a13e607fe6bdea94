/** The `brain_lease` table (`src/brain/lease/store.ts`): guarded updates of one row and its
    list of card deliveries. Every method is one block without an `await`. */
module LeaseStore {
  import opened Prelude

  datatype Mode = ReadOnly | ReadWrite

  datatype DeliveryStatus = Waiting | Approved | Declined | Invalidated

  datatype Delivery = Delivery(ownerIndex: nat, card: string, status: DeliveryStatus)

  datatype Owner = Owner(userId: string, connectionId: string, slackUserId: Option<string>)

  datatype ThreadKey = ThreadKey(orgId: string, teamId: string, channel: string, threadTs: string, lessee: string,
                                 serverSlug: string)

  /** What the asker fixed once and for all. */
  datatype Request = Request(requestId: string, key: ThreadKey, mode: Mode, owners: seq<Owner>)

  datatype Grant = Grant(leaseId: string, lessorUser: string, lessorConnection: string, approvedBySlack: string)

  datatype Status = Pending | Active | Denied | Error | Expired | Cancelled | Revoked | Consumed

  datatype Row = Row(request: Request, deliveries: seq<Delivery>, status: Status, grant: Option<Grant>,
                     createdAt: int, expiresAt: int, decidedAt: Option<int>, decidedBy: Option<string>,
                     revokedAt: Option<int>)

  type Table = map<string, Row>

  // ---------------------------------------------------------------------------
  // The two delivery transitions.

  datatype Outcome = StillPending | AllDeclined | Unavailable

  /** The first delivery of an owner. */
  function FirstOf(deliveries: seq<Delivery>, ownerIndex: nat): Option<Delivery> {
    if |deliveries| == 0 then None
    else if deliveries[0].ownerIndex == ownerIndex then Some(deliveries[0])
    else FirstOf(deliveries[1..], ownerIndex)
  }

  function WithStatus(deliveries: seq<Delivery>, ownerIndex: nat, status: DeliveryStatus): seq<Delivery> {
    seq(|deliveries|, i requires 0 <= i < |deliveries| =>
      if deliveries[i].ownerIndex == ownerIndex then deliveries[i].(status := status) else deliveries[i])
  }

  predicate Any(deliveries: seq<Delivery>, status: DeliveryStatus) {
    exists d :: d in deliveries && d.status == status
  }

  predicate Every(deliveries: seq<Delivery>, status: DeliveryStatus) {
    forall d :: d in deliveries ==> d.status == status
  }

  function Settled(deliveries: seq<Delivery>, ownerIndex: nat, status: DeliveryStatus): Option<(seq<Delivery>,
          Outcome)> {
    var target := FirstOf(deliveries, ownerIndex);
    if target.None? || target.value.status != Waiting then None
    else
      var next := WithStatus(deliveries, ownerIndex, status);
      if Any(next, Waiting) then Some((next, StillPending))
      else Some((next, if Every(next, Declined) then AllDeclined else Unavailable))
  }

  function Granted(deliveries: seq<Delivery>, ownerIndex: nat): Option<seq<Delivery>> {
    var target := FirstOf(deliveries, ownerIndex);
    if target.None? || target.value.status != Waiting then None
    else Some(seq(|deliveries|, i requires 0 <= i < |deliveries| =>
      deliveries[i].(status := if deliveries[i].ownerIndex == ownerIndex then Approved
                               else if deliveries[i].status == Waiting then Invalidated
                               else deliveries[i].status)))
  }

  // ---------------------------------------------------------------------------
  // One step, row by row.

  datatype Step =
    | Insert(row: Row)
    | Route(requestId: string, more: seq<Delivery>)
    | Settle(requestId: string, ownerIndex: nat, verdict: DeliveryStatus, who: Option<string>, now: int)
    | Close(requestId: string, status: Status)
    | Activate(requestId: string, ownerIndex: nat, grant: Grant, createdAt: int, expiresAt: int)
    | Revoke(leaseId: string, now: int)
    | Finish(leaseId: string, status: Status)
    | Disconnect(connectionId: string, now: int)

  function OwnerIndexes(deliveries: seq<Delivery>): set<nat> {
    set i | 0 <= i < |deliveries| :: deliveries[i].ownerIndex
  }

  ghost predicate DistinctOwners(deliveries: seq<Delivery>) {
    forall i, j :: 0 <= i < j < |deliveries| ==> deliveries[i].ownerIndex != deliveries[j].ownerIndex
  }

  /** Each owner at most once, told in one pass over the additions. */
  predicate NoneTaken(taken: set<nat>, more: seq<Delivery>)
    decreases |more|
  {
    |more| == 0 || (more[0].ownerIndex !in taken && NoneTaken(taken + {more[0].ownerIndex}, more[1..]))
  }

  function Routed(row: Row, more: seq<Delivery>): Row {
    if row.status != Pending || |more| == 0 || !NoneTaken(OwnerIndexes(row.deliveries), more) then row
    else row.(deliveries := row.deliveries + more)
  }

  function StatusAfter(outcome: Outcome): Status {
    match outcome
    case StillPending => Pending
    case AllDeclined => Denied
    case Unavailable => Error
  }

  function SettledRow(row: Row, ownerIndex: nat, verdict: DeliveryStatus, who: Option<string>, now: int): Row {
    if row.status != Pending then row
    else
      match Settled(row.deliveries, ownerIndex, verdict)
      case None => row
      case Some((deliveries, outcome)) =>
        var status := StatusAfter(outcome);
        row.(deliveries := deliveries, status := status,
             decidedAt := if status == Pending then None else Some(now),
             decidedBy := if status == Pending then None else who)
  }

  function ActivatedRow(row: Row, ownerIndex: nat, grant: Grant, createdAt: int, expiresAt: int): Row {
    if row.status != Pending then row
    else
      match Granted(row.deliveries, ownerIndex)
      case None => row
      case Some(deliveries) =>
        row.(deliveries := deliveries, status := Active, grant := Some(grant), createdAt := createdAt,
             expiresAt := expiresAt, decidedAt := Some(createdAt), decidedBy := Some(grant.approvedBySlack),
             revokedAt := None)
  }

  predicate Holds(row: Row, leaseId: string) {
    row.grant.Some? && row.grant.value.leaseId == leaseId
  }

  function Touch(row: Row, step: Step): Row {
    match step
    case Insert(_) => row
    case Route(id, more) => if row.request.requestId == id then Routed(row, more) else row
    case Settle(id, ownerIndex, verdict, who, now) =>
      if row.request.requestId == id then SettledRow(row, ownerIndex, verdict, who, now) else row
    case Close(id, status) =>
      if row.request.requestId == id && row.status == Pending then row.(status := status) else row
    case Activate(id, ownerIndex, grant, createdAt, expiresAt) =>
      if row.request.requestId == id then ActivatedRow(row, ownerIndex, grant, createdAt, expiresAt) else row
    case Revoke(leaseId, now) =>
      if Holds(row, leaseId) && row.status == Active then row.(status := Revoked, revokedAt := Some(now)) else row
    case Finish(leaseId, status) =>
      if Holds(row, leaseId) && row.status == Active then row.(status := status) else row
    case Disconnect(connectionId, now) =>
      if row.status == Active && row.grant.Some? && row.grant.value.lessorConnection == connectionId
      then row.(status := Revoked, revokedAt := Some(now)) else row
  }

  /** Inserting a request id that exists fails on the primary key. */
  function Next(rows: Table, step: Step): Table {
    if step.Insert? then
      if step.row.request.requestId in rows then rows else rows[step.row.request.requestId := step.row]
    else map id | id in rows :: Touch(rows[id], step)
  }

  function Run(rows: Table, steps: seq<Step>): Table
    decreases |steps|
  {
    if |steps| == 0 then rows else Run(Next(rows, steps[0]), steps[1..])
  }

  // ---------------------------------------------------------------------------
  // The table itself.

  ghost predicate Keyed(rows: Table) {
    forall id :: id in rows ==> rows[id].request.requestId == id
  }

  lemma OnlyOneRow(rows: Table, id: string, step: Step)
    requires Keyed(rows) && id in rows
    requires (step.Route? || step.Settle? || step.Close? || step.Activate?) && step.requestId == id
    ensures Next(rows, step) == rows[id := Touch(rows[id], step)]
  {
  }

  lemma NoSuchRow(rows: Table, id: string, step: Step)
    requires Keyed(rows) && id !in rows
    requires (step.Route? || step.Settle? || step.Close? || step.Activate?) && step.requestId == id
    ensures Next(rows, step) == rows
  {
  }

  class Store {
    var rows: Table

    constructor ()
      ensures rows == map[]
    {
      rows := map[];
    }

    method AddDeliveries(id: string, more: seq<Delivery>) returns (added: bool)
      requires Keyed(rows)
      modifies this
      ensures rows == Next(old(rows), Route(id, more))
      ensures added <==> rows != old(rows)
    {
      if id !in rows || rows[id].status != Pending || |more| == 0 {
        if id in rows { OnlyOneRow(rows, id, Route(id, more)); }
        assert Next(rows, Route(id, more)) == rows;
        return false;
      }
      OnlyOneRow(rows, id, Route(id, more));
      var current := rows[id];
      var taken := OwnerIndexes(current.deliveries);
      var i := 0;
      while i < |more|
        invariant 0 <= i <= |more|
        invariant NoneTaken(OwnerIndexes(current.deliveries), more) <==> NoneTaken(taken, more[i..])
      {
        assert more[i..][1..] == more[i + 1..];
        if more[i].ownerIndex in taken {
          assert rows[id := current] == rows;
          return false;
        }
        taken := taken + {more[i].ownerIndex};
        i := i + 1;
      }
      rows := rows[id := current.(deliveries := current.deliveries + more)];
      assert |rows[id].deliveries| != |current.deliveries|;
      added := true;
    }

    /** `Some` of the outcome, or `None` for a stale call. */
    method UpdateDelivery(id: string, ownerIndex: nat, verdict: DeliveryStatus, who: Option<string>, now: int)
        returns (outcome: Option<Outcome>)
      requires Keyed(rows) && verdict != Waiting
      modifies this
      ensures rows == Next(old(rows), Settle(id, ownerIndex, verdict, who, now))
      ensures outcome.Some? ==> id in rows && rows[id].status == StatusAfter(outcome.value)
      ensures outcome.None? ==> rows == old(rows)
    {
      ghost var step := Settle(id, ownerIndex, verdict, who, now);
      if id !in rows {
        NoSuchRow(rows, id, step);
        return None;
      }
      OnlyOneRow(rows, id, step);
      var current := rows[id];
      if current.status != Pending {
        assert rows[id := current] == rows;
        return None;
      }
      match Settled(current.deliveries, ownerIndex, verdict)
      case None =>
        assert rows[id := current] == rows;
        outcome := None;
      case Some((deliveries, result)) =>
        var status := StatusAfter(result);
        rows := rows[id := current.(deliveries := deliveries, status := status,
                                    decidedAt := if status == Pending then None else Some(now),
                                    decidedBy := if status == Pending then None else who)];
        outcome := Some(result);
    }

    method MarkTerminalIfPending(id: string, status: Status) returns (marked: bool)
      requires Keyed(rows) && status in {Expired, Error, Cancelled}
      modifies this
      ensures rows == Next(old(rows), Close(id, status))
      ensures marked <==> rows != old(rows)
    {
      if id !in rows {
        NoSuchRow(rows, id, Close(id, status));
        return false;
      }
      OnlyOneRow(rows, id, Close(id, status));
      if rows[id].status != Pending {
        assert rows[id := rows[id]] == rows;
        return false;
      }
      rows := rows[id := rows[id].(status := status)];
      assert rows[id].status != Pending;
      marked := true;
    }

    method ActivateLease(id: string, ownerIndex: nat, grant: Grant, createdAt: int, expiresAt: int)
      returns (activated: bool)
      requires Keyed(rows)
      modifies this
      ensures rows == Next(old(rows), Activate(id, ownerIndex, grant, createdAt, expiresAt))
      ensures activated <==> rows != old(rows)
    {
      ghost var step := Activate(id, ownerIndex, grant, createdAt, expiresAt);
      if id !in rows {
        NoSuchRow(rows, id, step);
        return false;
      }
      OnlyOneRow(rows, id, step);
      var current := rows[id];
      var deliveries := Granted(current.deliveries, ownerIndex);
      if current.status != Pending || deliveries.None? {
        assert rows[id := current] == rows;
        return false;
      }
      rows := rows[id := current.(deliveries := deliveries.value, status := Active, grant := Some(grant),
                                  createdAt := createdAt, expiresAt := expiresAt,
                                  decidedAt := Some(createdAt), decidedBy := Some(grant.approvedBySlack),
                                  revokedAt := None)];
      assert rows[id].status != current.status;
      activated := true;
    }

    method RevokeLease(leaseId: string, now: int)
      modifies this
      ensures rows == Next(old(rows), Revoke(leaseId, now))
    {
      rows := map id | id in rows ::
        if Holds(rows[id], leaseId) && rows[id].status == Active
        then rows[id].(status := Revoked, revokedAt := Some(now))
        else rows[id];
    }

    method MarkLeaseTerminal(leaseId: string, status: Status)
      requires status in {Expired, Consumed}
      modifies this
      ensures rows == Next(old(rows), Finish(leaseId, status))
    {
      rows := map id | id in rows ::
        if Holds(rows[id], leaseId) && rows[id].status == Active then rows[id].(status := status) else rows[id];
    }

    method RevokeForConnection(connectionId: string, now: int)
      modifies this
      ensures rows == Next(old(rows), Disconnect(connectionId, now))
    {
      rows := map id | id in rows ::
        if rows[id].status == Active && rows[id].grant.Some? && rows[id].grant.value.lessorConnection == connectionId
        then rows[id].(status := Revoked, revokedAt := Some(now)) else rows[id];
    }
  }

  // ---------------------------------------------------------------------------
  // The invariant, at two levels: the row's status against its deliveries.

  ghost predicate Winner(row: Row, w: nat) {
    && w < |row.deliveries| && row.deliveries[w].status == Approved
    && (forall i :: 0 <= i < |row.deliveries| && i != w ==> row.deliveries[i].status in {Declined, Invalidated})
    && row.grant.Some? && row.deliveries[w].ownerIndex < |row.request.owners|
    && var owner := row.request.owners[row.deliveries[w].ownerIndex];
       row.grant.value.lessorUser == owner.userId && row.grant.value.lessorConnection == owner.connectionId
       && owner.slackUserId == Some(row.grant.value.approvedBySlack)
  }

  ghost predicate StatusFits(row: Row) {
    match row.status
    case Pending => row.grant.None? && (row.deliveries == [] || Any(row.deliveries, Waiting))
    case Denied => row.grant.None? && row.deliveries != [] && Every(row.deliveries, Declined)
    case Error => row.grant.None?
    case Cancelled => row.grant.None?
    case Expired => true
    case Active => row.grant.Some?
    case Revoked => row.grant.Some?
    case Consumed => row.grant.Some?
  }

  ghost predicate RowSound(row: Row) {
    && DistinctOwners(row.deliveries)
    && (forall d :: d in row.deliveries ==> d.ownerIndex < |row.request.owners|)
    && StatusFits(row)
    && (if row.grant.Some? then exists w :: Winner(row, w) else !Any(row.deliveries, Approved))
  }

  ghost predicate LeaseIdsDiffer(rows: Table) {
    forall a, b :: a in rows && b in rows && a != b && rows[a].grant.Some? && rows[b].grant.Some? ==>
      rows[a].grant.value.leaseId != rows[b].grant.value.leaseId
  }

  ghost predicate Sound(rows: Table) {
    Keyed(rows) && LeaseIdsDiffer(rows) && forall id :: id in rows ==> RowSound(rows[id])
  }

  /** What the callers pass: new requests are pending and unrouted, routed deliveries wait for an
      owner of the request, an owner's verdict is a refusal or an invalidation, and an approval
      names the owner whose delivery it is, under a new lease id. */
  ghost predicate HonestFor(row: Row, step: Step) {
    match step
    case Insert(_) => true
    case Route(_, more) => forall d :: d in more ==> d.status == Waiting && d.ownerIndex < |row.request.owners|
    case Settle(_, _, verdict, _, _) => verdict == Declined || verdict == Invalidated
    case Close(_, status) => status in {Expired, Error, Cancelled}
    case Activate(_, ownerIndex, grant, _, _) =>
      && ownerIndex < |row.request.owners|
      && var owner := row.request.owners[ownerIndex];
         grant.lessorUser == owner.userId && grant.lessorConnection == owner.connectionId
         && owner.slackUserId == Some(grant.approvedBySlack)
    case Revoke(_, _) => true
    case Finish(_, status) => status in {Expired, Consumed}
    case Disconnect(_, _) => true
  }

  ghost predicate Honest(rows: Table, step: Step) {
    match step
    case Insert(row) => row.status == Pending && row.deliveries == [] && row.grant.None?
    case Activate(id, _, grant, _, _) =>
      (id in rows ==> HonestFor(rows[id], step)) && forall other :: other in rows ==> !Holds(rows[other], grant.leaseId)
    case Route(id, _) => id in rows ==> HonestFor(rows[id], step)
    case Settle(id, _, _, _, _) => id in rows ==> HonestFor(rows[id], step)
    case Close(id, _) => id in rows ==> HonestFor(rows[id], step)
    case Revoke(_, _) => true
    case Finish(_, status) => status in {Expired, Consumed}
    case Disconnect(_, _) => true
  }

  /** How a row may change: the request never, decided deliveries never, and the status only
      from pending to an outcome and from active to an end. */
  ghost predicate Forward(before: seq<Delivery>, after: seq<Delivery>) {
    && |before| <= |after|
    && forall i :: 0 <= i < |before| ==>
         && after[i].ownerIndex == before[i].ownerIndex && after[i].card == before[i].card
         && (before[i].status != Waiting ==> after[i] == before[i])
  }

  ghost predicate Edge(before: Row, after: Row) {
    && after.request == before.request
    && Forward(before.deliveries, after.deliveries)
    && match before.status
       case Pending => after.status !in {Revoked, Consumed} && (after.grant.Some? <==> after.status == Active)
       case Active =>
         && after == before.(status := after.status, revokedAt := after.revokedAt)
         && (after.status == Active ==> after == before)
         && after.status in {Active, Revoked, Expired, Consumed}
       case Denied => after == before
       case Error => after == before
       case Expired => after == before
       case Cancelled => after == before
       case Revoked => after == before
       case Consumed => after == before
  }

  lemma {:induction false} FirstOfIs(deliveries: seq<Delivery>, ownerIndex: nat) returns (k: nat)
    requires FirstOf(deliveries, ownerIndex).Some?
    ensures k < |deliveries| && deliveries[k] == FirstOf(deliveries, ownerIndex).value
        && deliveries[k].ownerIndex == ownerIndex
  {
    if deliveries[0].ownerIndex == ownerIndex {
      k := 0;
    } else {
      var rest := FirstOfIs(deliveries[1..], ownerIndex);
      k := rest + 1;
    }
  }

  lemma {:induction false} NoneTakenIs(taken: set<nat>, more: seq<Delivery>)
    requires NoneTaken(taken, more)
    ensures DistinctOwners(more) && forall d :: d in more ==> d.ownerIndex !in taken
    decreases |more|
  {
    if |more| > 0 {
      var rest := more[1..];
      NoneTakenIs(taken + {more[0].ownerIndex}, rest);
      forall i, j | 0 <= i < j < |more| ensures more[i].ownerIndex != more[j].ownerIndex {
        assert more[j] == rest[j - 1] && rest[j - 1] in rest;
        if i > 0 { assert more[i] == rest[i - 1]; }
      }
    }
  }

  lemma RoutedIsSound(row: Row, more: seq<Delivery>)
    requires RowSound(row) && forall d :: d in more ==> d.status == Waiting && d.ownerIndex < |row.request.owners|
    ensures RowSound(Routed(row, more)) && Edge(row, Routed(row, more))
  {
    var after := Routed(row, more);
    if after != row {
      NoneTakenIs(OwnerIndexes(row.deliveries), more);
      var all := row.deliveries + more;
      forall i, j | 0 <= i < j < |all| ensures all[i].ownerIndex != all[j].ownerIndex {
        if i < |row.deliveries| && j >= |row.deliveries| {
          assert all[i].ownerIndex in OwnerIndexes(row.deliveries);
          assert all[j] in more;
        }
      }
      assert more[0] in all && more[0].status == Waiting;
    }
  }

  lemma VerdictShape(deliveries: seq<Delivery>, ownerIndex: nat, verdict: DeliveryStatus, owners: nat)
    requires DistinctOwners(deliveries) && !Any(deliveries, Approved)
    requires forall d :: d in deliveries ==> d.ownerIndex < owners
    requires FirstOf(deliveries, ownerIndex).Some? && FirstOf(deliveries, ownerIndex).value.status == Waiting
    requires verdict == Declined || verdict == Invalidated
    ensures var next := WithStatus(deliveries, ownerIndex, verdict);
      && DistinctOwners(next) && !Any(next, Approved) && next != []
      && Forward(deliveries, next)
      && (forall d :: d in next ==> d.ownerIndex < owners)
  {
    var k := FirstOfIs(deliveries, ownerIndex);
    var next := WithStatus(deliveries, ownerIndex, verdict);
    assert forall i :: 0 <= i < |next| && i != k ==> next[i] == deliveries[i];
    forall d | d in next ensures d.status != Approved && d.ownerIndex < owners {
      var i :| 0 <= i < |next| && next[i] == d;
      assert deliveries[i] in deliveries;
    }
  }

  lemma SettledIsSound(row: Row, ownerIndex: nat, verdict: DeliveryStatus, who: Option<string>, now: int)
    requires RowSound(row) && (verdict == Declined || verdict == Invalidated)
    ensures var after := SettledRow(row, ownerIndex, verdict, who, now);
      RowSound(after) && Edge(row, after)
  {
    if row.status == Pending && Settled(row.deliveries, ownerIndex, verdict).Some? {
      VerdictShape(row.deliveries, ownerIndex, verdict, |row.request.owners|);
    }
  }

  lemma ActivatedIsSound(row: Row, ownerIndex: nat, grant: Grant, createdAt: int, expiresAt: int)
    requires RowSound(row) && HonestFor(row, Activate(row.request.requestId, ownerIndex, grant, createdAt, expiresAt))
    ensures var after := ActivatedRow(row, ownerIndex, grant, createdAt, expiresAt);
      RowSound(after) && Edge(row, after)
  {
    var after := ActivatedRow(row, ownerIndex, grant, createdAt, expiresAt);
    if row.status == Pending && Granted(row.deliveries, ownerIndex).Some? {
      var k := FirstOfIs(row.deliveries, ownerIndex);
      var next := after.deliveries;
      forall i | 0 <= i < |next| && i != k ensures next[i].status in {Declined, Invalidated} {
        assert row.deliveries[i] in row.deliveries;
        assert row.deliveries[i].ownerIndex != row.deliveries[k].ownerIndex;
      }
      forall d | d in next ensures d.ownerIndex < |row.request.owners| {
        var i :| 0 <= i < |next| && next[i] == d;
        assert row.deliveries[i] in row.deliveries;
      }
      assert Winner(after, k);
    }
  }

  lemma EndedIsSound(row: Row, status: Status, revokedAt: Option<int>)
    requires RowSound(row) && row.status == Active && status in {Revoked, Expired, Consumed}
    ensures var after := row.(status := status, revokedAt := revokedAt);
      RowSound(after) && Edge(row, after)
  {
    var after := row.(status := status, revokedAt := revokedAt);
    var w :| Winner(row, w);
    assert Winner(after, w);
  }

  /** Every step keeps each row sound and moves it along the diagram. */
  lemma TouchIsSound(row: Row, step: Step)
    requires RowSound(row)
    requires ((step.Route? || step.Settle? || step.Close? || step.Activate?)
              && step.requestId == row.request.requestId) ==> HonestFor(row, step)
    requires step.Finish? ==> step.status in {Expired, Consumed}
    ensures RowSound(Touch(row, step)) && Edge(row, Touch(row, step))
  {
    match step
    case Insert(_) =>
    case Route(_, more) => if step.requestId == row.request.requestId { RoutedIsSound(row, more); }
    case Settle(_, ownerIndex, verdict, who, now) =>
      if step.requestId == row.request.requestId { SettledIsSound(row, ownerIndex, verdict, who, now); }
    case Close(_, _) =>
    case Activate(_, ownerIndex, grant, createdAt, expiresAt) =>
      if step.requestId == row.request.requestId { ActivatedIsSound(row, ownerIndex, grant, createdAt, expiresAt); }
    case Revoke(_, now) => if row.status == Active { EndedIsSound(row, Revoked, Some(now)); }
    case Finish(_, status) => if row.status == Active { EndedIsSound(row, status, row.revokedAt); }
    case Disconnect(_, now) => if row.status == Active { EndedIsSound(row, Revoked, Some(now)); }
  }

  ghost predicate Moved(before: Table, after: Table) {
    forall id :: id in before ==> id in after && Edge(before[id], after[id])
  }

  lemma TouchGrants(row: Row, step: Step)
    ensures Touch(row, step).grant == row.grant
         || (step.Activate? && step.requestId == row.request.requestId && Touch(row, step).grant == Some(step.grant))
  {
  }

  lemma StepIsSound(rows: Table, step: Step)
    requires Sound(rows) && Honest(rows, step)
    ensures Sound(Next(rows, step)) && Moved(rows, Next(rows, step))
  {
    var after := Next(rows, step);
    if step.Insert? {
      forall id | id in rows ensures Edge(rows[id], after[id]) {
        TouchIsSound(rows[id], step);
      }
    } else {
      forall id | id in rows ensures RowSound(after[id]) && Edge(rows[id], after[id]) {
        TouchIsSound(rows[id], step);
      }
      forall a, b | a in after && b in after && a != b && after[a].grant.Some? && after[b].grant.Some?
        ensures after[a].grant.value.leaseId != after[b].grant.value.leaseId
      {
        TouchGrants(rows[a], step);
        TouchGrants(rows[b], step);
      }
    }
  }

  ghost predicate AllHonest(rows: Table, steps: seq<Step>)
    decreases |steps|
  {
    |steps| == 0 || (Honest(rows, steps[0]) && AllHonest(Next(rows, steps[0]), steps[1..]))
  }

  /** What any number of steps may do to a row. */
  ghost predicate Later(before: Row, after: Row) {
    && after.request == before.request
    && Forward(before.deliveries, after.deliveries)
    && (before.status !in {Pending, Active} ==> after == before)
    && (before.status == Active ==> after.status != Pending && (after.status == Active ==> after == before))
  }

  lemma EdgeThenLater(a: Row, b: Row, c: Row)
    requires Edge(a, b) && Later(b, c)
    ensures Later(a, c)
  {
  }

  ghost predicate AllLater(before: Table, after: Table) {
    forall id :: id in before ==> id in after && Later(before[id], after[id])
  }

  /** Over every interleaving of the blocks: the table stays sound, a settled row is frozen, and
      a row that is active at both ends was the same row throughout. */
  lemma {:induction false} RunIsSound(rows: Table, steps: seq<Step>)
    requires Sound(rows) && AllHonest(rows, steps)
    ensures Sound(Run(rows, steps)) && AllLater(rows, Run(rows, steps))
    decreases |steps|
  {
    if |steps| > 0 {
      var next := Next(rows, steps[0]);
      StepIsSound(rows, steps[0]);
      RunIsSound(next, steps[1..]);
      forall id | id in rows ensures id in Run(rows, steps) && Later(rows[id], Run(rows, steps)[id]) {
        EdgeThenLater(rows[id], next[id], Run(rows, steps)[id]);
      }
    }
  }

  /** An ended lease is never active again. */
  lemma NeverActiveAgain(rows: Table, steps: seq<Step>, id: string)
    requires Sound(rows) && AllHonest(rows, steps) && id in rows
    requires rows[id].grant.Some? && rows[id].status != Active
    ensures id in Run(rows, steps) && Run(rows, steps)[id] == rows[id]
  {
    RunIsSound(rows, steps);
  }

  // ---------------------------------------------------------------------------
  // What each block does, read off the rows.

  lemma {:induction false} FirstOfHas(deliveries: seq<Delivery>, k: nat)
    requires DistinctOwners(deliveries) && k < |deliveries|
    ensures FirstOf(deliveries, deliveries[k].ownerIndex) == Some(deliveries[k])
  {
    if k > 0 {
      assert deliveries[0].ownerIndex != deliveries[k].ownerIndex;
      FirstOfHas(deliveries[1..], k - 1);
    }
  }

  ghost predicate OthersSame(before: Table, after: Table, id: string) {
    after.Keys == before.Keys && forall other :: other in before && other != id ==> after[other] == before[other]
  }

  /** The fields that no delivery decides. */
  ghost predicate SameOtherwise(before: Row, after: Row) {
    && after.request == before.request && after.grant == before.grant && after.createdAt == before.createdAt
    && after.expiresAt == before.expiresAt && after.revokedAt == before.revokedAt
  }

  /** What a refusal of the delivery at `k` makes of a pending row: it stays pending while another
      delivery waits, is denied when all owners declined, and fails in every other case. */
  ghost predicate Refused(before: Row, after: Row, k: nat, verdict: DeliveryStatus, who: Option<string>, now: int)
    requires k < |before.deliveries|
  {
    && SameOtherwise(before, after)
    && after.deliveries == before.deliveries[k := before.deliveries[k].(status := verdict)]
    && (after.status == Pending <==>
          exists i :: 0 <= i < |before.deliveries| && i != k && before.deliveries[i].status == Waiting)
    && (after.status == Denied <==>
          verdict == Declined
          && forall i :: 0 <= i < |before.deliveries| && i != k ==> before.deliveries[i].status == Declined)
    && after.status in {Pending, Denied, Error}
    && after.decidedAt == (if after.status == Pending then None else Some(now))
    && after.decidedBy == (if after.status == Pending then None else who)
  }

  lemma RefusedRowIs(row: Row, k: nat, verdict: DeliveryStatus, who: Option<string>, now: int)
    requires DistinctOwners(row.deliveries) && row.status == Pending
    requires k < |row.deliveries| && row.deliveries[k].status == Waiting
    requires verdict == Declined || verdict == Invalidated
    ensures Refused(row, SettledRow(row, row.deliveries[k].ownerIndex, verdict, who, now), k, verdict, who, now)
  {
    var given := row.deliveries;
    FirstOfHas(given, k);
    var settled := WithStatus(given, given[k].ownerIndex, verdict);
    assert forall i :: 0 <= i < |given| && i != k ==> given[i].ownerIndex != given[k].ownerIndex;
    assert settled == given[k := given[k].(status := verdict)];
    StatusesOf(given, settled, k, verdict);
  }

  /** Which statuses there are once the delivery at `k` has been refused. */
  lemma StatusesOf(before: seq<Delivery>, after: seq<Delivery>, k: nat, verdict: DeliveryStatus)
    requires k < |before| && after == before[k := before[k].(status := verdict)] && verdict != Waiting
    ensures Any(after, Waiting) <==> exists i :: 0 <= i < |before| && i != k && before[i].status == Waiting
    ensures Every(after, Declined) <==>
            verdict == Declined && forall i :: 0 <= i < |before| && i != k ==> before[i].status == Declined
  {
    assert after[k].status == verdict && forall i :: 0 <= i < |before| && i != k ==> after[i] == before[i];
    if i :| 0 <= i < |before| && i != k && before[i].status == Waiting {
      assert after[i] in after;
    }
    if Every(after, Declined) {
      forall i | 0 <= i < |before| ensures after[i].status == Declined {
        assert after[i] in after;
      }
    }
    if verdict == Declined && forall i :: 0 <= i < |before| && i != k ==> before[i].status == Declined {
      forall d | d in after ensures d.status == Declined {
        var i :| 0 <= i < |after| && after[i] == d;
      }
    }
  }

  /** A waiting delivery that is declined or invalidated, in the whole table. */
  lemma RefusalIs(rows: Table, id: string, k: nat, verdict: DeliveryStatus, who: Option<string>, now: int)
    requires Sound(rows) && id in rows && rows[id].status == Pending
    requires k < |rows[id].deliveries| && rows[id].deliveries[k].status == Waiting
    requires verdict == Declined || verdict == Invalidated
    ensures var after := Next(rows, Settle(id, rows[id].deliveries[k].ownerIndex, verdict, who, now));
      OthersSame(rows, after, id) && Refused(rows[id], after[id], k, verdict, who, now)
  {
    assert RowSound(rows[id]);
    OnlyOneRow(rows, id, Settle(id, rows[id].deliveries[k].ownerIndex, verdict, who, now));
    RefusedRowIs(rows[id], k, verdict, who, now);
  }

  /** No delivery of this owner waits on a pending row. */
  ghost predicate NoneWaits(row: Row, ownerIndex: nat) {
    row.status == Pending ==> forall d :: d in row.deliveries && d.ownerIndex == ownerIndex ==> d.status != Waiting
  }

  lemma StaleRowStays(row: Row, ownerIndex: nat, verdict: DeliveryStatus, who: Option<string>, grant: Grant,
          now: int, expiresAt: int)
    requires NoneWaits(row, ownerIndex)
    ensures SettledRow(row, ownerIndex, verdict, who, now) == row
    ensures ActivatedRow(row, ownerIndex, grant, now, expiresAt) == row
  {
    if FirstOf(row.deliveries, ownerIndex).Some? {
      var k := FirstOfIs(row.deliveries, ownerIndex);
      assert row.deliveries[k] in row.deliveries;
    }
  }

  /** A call that comes too late changes nothing. */
  lemma StaleCallsDoNothing(rows: Table, id: string, ownerIndex: nat, verdict: DeliveryStatus, who: Option<string>,
          grant: Grant, now: int, expiresAt: int)
    requires Keyed(rows) && (id in rows ==> NoneWaits(rows[id], ownerIndex))
    ensures Next(rows, Settle(id, ownerIndex, verdict, who, now)) == rows
    ensures Next(rows, Activate(id, ownerIndex, grant, now, expiresAt)) == rows
  {
    var settle, activate := Settle(id, ownerIndex, verdict, who, now), Activate(id, ownerIndex, grant, now, expiresAt);
    if id in rows {
      StaleRowStays(rows[id], ownerIndex, verdict, who, grant, now, expiresAt);
      OnlyOneRow(rows, id, settle);
      OnlyOneRow(rows, id, activate);
      assert rows[id := rows[id]] == rows;
    } else {
      NoSuchRow(rows, id, settle);
      NoSuchRow(rows, id, activate);
    }
  }

  /** A waiting delivery that is approved: it wins, the other waiting ones are invalidated, decided
      ones stay, and the row carries the grant. */
  lemma ApprovalIs(rows: Table, id: string, k: nat, grant: Grant, createdAt: int, expiresAt: int)
    requires Sound(rows) && id in rows && rows[id].status == Pending
    requires k < |rows[id].deliveries| && rows[id].deliveries[k].status == Waiting
    ensures var before := rows[id];
      var next := Next(rows, Activate(id, before.deliveries[k].ownerIndex, grant, createdAt, expiresAt));
      && OthersSame(rows, next, id)
      && next[id] == Row(before.request, next[id].deliveries, Active, Some(grant), createdAt, expiresAt,
                         Some(createdAt), Some(grant.approvedBySlack), None)
      && |next[id].deliveries| == |before.deliveries|
      && forall i :: 0 <= i < |before.deliveries| ==>
           next[id].deliveries[i] == before.deliveries[i].(status :=
             if i == k then Approved
             else if before.deliveries[i].status == Waiting then Invalidated
             else before.deliveries[i].status)
  {
    var deliveries := rows[id].deliveries;
    OnlyOneRow(rows, id, Activate(id, deliveries[k].ownerIndex, grant, createdAt, expiresAt));
    FirstOfHas(deliveries, k);
    assert forall i :: 0 <= i < |deliveries| && i != k ==> deliveries[i].ownerIndex != deliveries[k].ownerIndex;
  }

  lemma {:induction false} NoneTakenIff(taken: set<nat>, more: seq<Delivery>)
    ensures NoneTaken(taken, more) <==>
            DistinctOwners(more) && forall i :: 0 <= i < |more| ==> more[i].ownerIndex !in taken
    decreases |more|
  {
    if |more| > 0 {
      var rest := more[1..];
      NoneTakenIff(taken + {more[0].ownerIndex}, rest);
      if NoneTaken(taken, more) {
        NoneTakenIs(taken, more);
        assert forall i :: 0 <= i < |more| ==> more[i] in more;
      }
    }
  }

  /** New deliveries are appended to a pending row exactly when no owner would then have two. */
  lemma RoutingIs(rows: Table, id: string, more: seq<Delivery>)
    requires Sound(rows) && id in rows
    ensures var before := rows[id];
      var next := Next(rows, Route(id, more));
      && OthersSame(rows, next, id)
      && next[id] == if before.status == Pending && DistinctOwners(before.deliveries + more)
                     then before.(deliveries := before.deliveries + more) else before
  {
    var before := rows[id].deliveries;
    var all := before + more;
    OnlyOneRow(rows, id, Route(id, more));
    NoneTakenIff(OwnerIndexes(before), more);
    if more == [] {
      assert all == before;
    } else if NoneTaken(OwnerIndexes(before), more) {
      RoutedIsDistinct(before, more);
    } else if DistinctOwners(all) {
      forall i, j | 0 <= i < |more| && 0 <= j < |before| ensures more[i].ownerIndex != before[j].ownerIndex {
        assert all[|before| + i] == more[i] && all[j] == before[j];
      }
      forall i, j | 0 <= i < j < |more| ensures more[i].ownerIndex != more[j].ownerIndex {
        assert all[|before| + i].ownerIndex != all[|before| + j].ownerIndex;
      }
      assert false;
    }
  }

  lemma RoutedIsDistinct(before: seq<Delivery>, more: seq<Delivery>)
    requires DistinctOwners(before) && DistinctOwners(more)
    requires forall i :: 0 <= i < |more| ==> more[i].ownerIndex !in OwnerIndexes(before)
    ensures DistinctOwners(before + more)
  {
    var all := before + more;
    forall i, j | 0 <= i < j < |all| ensures all[i].ownerIndex != all[j].ownerIndex {
      if i < |before| && j >= |before| {
        assert all[i].ownerIndex in OwnerIndexes(before);
        assert all[j] == more[j - |before|];
      }
    }
  }

  /** Whether a row's lease ends by this step, and how. */
  ghost predicate EndsLease(row: Row, step: Step) {
    row.status == Active && row.grant.Some?
    && ((step.Revoke? && row.grant.value.leaseId == step.leaseId)
        || (step.Finish? && row.grant.value.leaseId == step.leaseId)
        || (step.Disconnect? && row.grant.value.lessorConnection == step.connectionId))
  }

  lemma EndingRowIs(row: Row, step: Step)
    requires step.Revoke? || step.Finish? || step.Disconnect?
    ensures Touch(row, step) ==
            if !EndsLease(row, step) then row
            else if step.Finish? then row.(status := step.status)
            else row.(status := Revoked, revokedAt := Some(step.now))
  {
  }

  /** Revocation, consumption, expiry and disconnection end the leases they name, once and for all:
      whatever happens afterwards, the row stays as they left it. Every other row is untouched. */
  lemma EndedForGood(rows: Table, step: Step, steps: seq<Step>, id: string)
    requires Sound(rows) && Honest(rows, step) && (step.Revoke? || step.Finish? || step.Disconnect?)
    requires AllHonest(Next(rows, step), steps) && id in rows
    ensures id in Next(rows, step)
    ensures !EndsLease(rows[id], step) ==> Next(rows, step)[id] == rows[id]
    ensures EndsLease(rows[id], step) ==>
      && id in Run(Next(rows, step), steps)
      && Run(Next(rows, step), steps)[id] ==
         if step.Finish? then rows[id].(status := step.status)
         else rows[id].(status := Revoked, revokedAt := Some(step.now))
  {
    StepIsSound(rows, step);
    EndingRowIs(rows[id], step);
    if EndsLease(rows[id], step) {
      NeverActiveAgain(Next(rows, step), steps, id);
    }
  }

  /** A request is inserted exactly under a new id. */
  lemma InsertIs(rows: Table, row: Row, id: string)
    ensures var after := Next(rows, Insert(row));
      && row.request.requestId in after
      && (row.request.requestId !in rows ==> after[row.request.requestId] == row)
      && (id in rows ==> id in after && after[id] == rows[id])
      && (id in after ==> id in rows || id == row.request.requestId)
  {
  }
}
