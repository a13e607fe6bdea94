/** Owners' button presses, the expiry alarm and revocation (`src/brain/lease/decision.ts`,
    `routing.ts`, `tools.ts`): the blocks between the `await`s of each handler, run in any order
    against the table of `LeaseStore`. */
module LeaseDecisions {
  import opened Prelude
  import opened LeaseStore

  const LEASE_TTL_MS := 600000
  const LEASE_REQUEST_EXPIRY_MS := 900000

  datatype Connection = Connection(id: string, orgId: string, serverSlug: string, userId: string, active: bool)

  datatype Press = Press(requestId: string, teamId: string, slackUser: string, approve: bool)

  /** A press waiting for an answer; `request` is the copy it loaded. */
  datatype Flow =
    | AskMember(press: Press, request: Request, ownerIndex: nat, hasTurn: bool)
    | AskConnection(press: Press, request: Request, ownerIndex: nat, hasTurn: bool)
    | AskEligible(press: Press, request: Request, ownerIndex: nat, hasTurn: bool, connection: Option<Connection>)

  datatype Block = Block(steps: seq<Step>, next: Option<Flow>)

  const NOTHING := Block([], None)

  // ---------------------------------------------------------------------------
  // Which delivery belongs to the person who pressed.

  predicate BelongsTo(d: Delivery, owners: seq<Owner>, slackUser: string) {
    d.ownerIndex < |owners| && owners[d.ownerIndex].slackUserId == Some(slackUser)
  }

  function OwnersDelivery(deliveries: seq<Delivery>, owners: seq<Owner>, slackUser: string): Option<Delivery> {
    if |deliveries| == 0 then None
    else if BelongsTo(deliveries[0], owners, slackUser) then Some(deliveries[0])
    else OwnersDelivery(deliveries[1..], owners, slackUser)
  }

  method OwnerDeliveryForSlackUser(deliveries: seq<Delivery>, owners: seq<Owner>, slackUser: string)
    returns (r: Option<Delivery>)
    ensures r == OwnersDelivery(deliveries, owners, slackUser)
    ensures r.Some? ==> r.value in deliveries && BelongsTo(r.value, owners, slackUser)
    ensures r.None? ==> forall d :: d in deliveries ==> !BelongsTo(d, owners, slackUser)
  {
    var ordinal := 0;
    assert deliveries[0..] == deliveries;
    while ordinal < |deliveries|
      invariant 0 <= ordinal <= |deliveries|
      invariant OwnersDelivery(deliveries, owners, slackUser) ==
          OwnersDelivery(deliveries[ordinal..], owners, slackUser)
      invariant forall i :: 0 <= i < ordinal ==> !BelongsTo(deliveries[i], owners, slackUser)
    {
      var delivery := deliveries[ordinal];
      if delivery.ownerIndex < |owners| && owners[delivery.ownerIndex].slackUserId == Some(slackUser) {
        return Some(delivery);
      }
      assert deliveries[ordinal..][1..] == deliveries[ordinal + 1..];
      ordinal := ordinal + 1;
    }
    r := None;
  }

  lemma {:induction false} OwnersDeliveryIs(deliveries: seq<Delivery>, owners: seq<Owner>, slackUser: string)
    ensures var found := OwnersDelivery(deliveries, owners, slackUser);
      found.Some? ==> found.value in deliveries && BelongsTo(found.value, owners, slackUser)
  {
    if |deliveries| > 0 {
      OwnersDeliveryIs(deliveries[1..], owners, slackUser);
    }
  }

  // ---------------------------------------------------------------------------
  // The blocks of a press.

  predicate RequestExpired(row: Row, now: int) {
    row.status == Pending && row.expiresAt <= now
  }

  function Begin(rows: Table, press: Press, now: int, hasTurn: bool, turnCurrent: bool): Block {
    if press.requestId !in rows then NOTHING
    else
      var row := rows[press.requestId];
      var delivery := OwnersDelivery(row.deliveries, row.request.owners, press.slackUser);
      if row.request.key.teamId != press.teamId || delivery.None? then NOTHING
      else if row.status != Pending || delivery.value.status != Waiting then NOTHING
      else if RequestExpired(row, now) then Block([Close(press.requestId, Expired)], None)
      else if !turnCurrent then Block([Close(press.requestId, Cancelled)], None)
      else Block([], Some(AskMember(press, row.request, delivery.value.ownerIndex, hasTurn)))
  }

  /** `yes` answers a membership or eligibility question, `connection` the connection one;
      `leaseId` is the id drawn if this block approves, `resumed` whether the turn resumed. */
  datatype Answer = Answer(yes: bool, connection: Option<Connection>, now: int, leaseId: string, resumed: bool)

  predicate ConnectionFits(connection: Option<Connection>, request: Request, owner: Owner) {
    && connection.Some?
    && connection.value.id == owner.connectionId
    && connection.value.orgId == request.key.orgId
    && connection.value.serverSlug == request.key.serverSlug
    && connection.value.active
    && connection.value.userId == owner.userId
  }

  function Resume(flow: Flow, answer: Answer): Block
    requires flow.ownerIndex < |flow.request.owners|
  {
    var id := flow.press.requestId;
    var owner := flow.request.owners[flow.ownerIndex];
    match flow
    case AskMember(press, request, ownerIndex, hasTurn) =>
      if answer.yes then Block([], Some(AskConnection(press, request, ownerIndex, hasTurn)))
      else Block([Close(id, Cancelled)], None)
    case AskConnection(press, request, ownerIndex, hasTurn) =>
      Block([], Some(AskEligible(press, request, ownerIndex, hasTurn, answer.connection)))
    case AskEligible(press, request, ownerIndex, hasTurn, connection) =>
      if !ConnectionFits(connection, request, owner) || !answer.yes then
        Block([Settle(id, ownerIndex, Invalidated, Some(press.slackUser), answer.now)], None)
      else if !press.approve then
        Block([Settle(id, ownerIndex, Declined, Some(press.slackUser), answer.now)], None)
      else
        var grant := Grant(answer.leaseId, owner.userId, owner.connectionId, press.slackUser);
        var activate := Activate(id, ownerIndex, grant, answer.now, answer.now + LEASE_TTL_MS);
        Block(if hasTurn && !answer.resumed then [activate, Revoke(answer.leaseId, answer.now)] else [activate], None)
  }

  /** The alarm's block: what it does, and whether it arms again. */
  function Escalate(rows: Table, id: string, now: int, turnCurrent: bool): (r: (seq<Step>, bool)) {
    if id !in rows || rows[id].status != Pending then ([], false)
    else if !RequestExpired(rows[id], now) then ([], true)
    else ([Close(id, if turnCurrent then Expired else Cancelled)], false)
  }

  ghost function RevokeBlock(rows: Table, leaseId: string, teamId: string, slackUser: string, now: int): seq<Step> {
    if exists id :: id in rows && Holds(rows[id], leaseId) && rows[id].request.key.teamId == teamId
                 && rows[id].grant.value.approvedBySlack == slackUser
    then [Revoke(leaseId, now)] else []
  }

  // ---------------------------------------------------------------------------
  // Any interleaving of presses, answers, alarms, revocations and the other writers.

  /** `vouched` records, for a waiting press, that its membership question was answered with yes. */
  datatype System = System(rows: Table, flows: map<nat, Flow>, vouched: map<nat, Press>)

  datatype Event =
    | Pressed(flow: nat, press: Press, now: int, hasTurn: bool, turnCurrent: bool)
    | Answered(flow: nat, answer: Answer)
    | Alarm(id: string, now: int, turnCurrent: bool)
    | RevokePressed(leaseId: string, teamId: string, slackUser: string, now: int)
    | Elsewhere(step: Step)

  function WithFlow(flows: map<nat, Flow>, n: nat, next: Option<Flow>): map<nat, Flow> {
    if next.Some? then flows[n := next.value] else flows - {n}
  }

  /** The block an event runs, and the press it leaves waiting. */
  ghost function BlockOf(sys: System, event: Event): Block
    requires SystemSound(sys)
  {
    match event
    case Pressed(n, press, now, hasTurn, turnCurrent) =>
      if n in sys.flows then NOTHING else Begin(sys.rows, press, now, hasTurn, turnCurrent)
    case Answered(n, answer) => if n in sys.flows then Resume(sys.flows[n], answer) else NOTHING
    case Alarm(id, now, turnCurrent) => Block(Escalate(sys.rows, id, now, turnCurrent).0, None)
    case RevokePressed(leaseId, teamId, slackUser, now) =>
      Block(RevokeBlock(sys.rows, leaseId, teamId, slackUser, now), None)
    case Elsewhere(step) => Block([step], None)
  }

  function FlowsAfter(flows: map<nat, Flow>, event: Event, next: Option<Flow>): map<nat, Flow> {
    match event
    case Pressed(n, _, _, _, _) => if n in flows then flows else WithFlow(flows, n, next)
    case Answered(n, _) => WithFlow(flows, n, next)
    case Alarm(_, _, _) => flows
    case RevokePressed(_, _, _, _) => flows
    case Elsewhere(_) => flows
  }

  /** The press whose membership question this event answers with yes. */
  predicate Confirms(sys: System, event: Event, n: nat, press: Press) {
    && event.Answered? && event.flow == n && event.answer.yes
    && n in sys.flows && sys.flows[n].AskMember? && sys.flows[n].press == press
  }

  function VouchedAfter(sys: System, event: Event): map<nat, Press> {
    match event
    case Pressed(n, _, _, _, _) => if n in sys.flows then sys.vouched else sys.vouched - {n}
    case Answered(n, answer) =>
      if n in sys.flows && Confirms(sys, event, n, sys.flows[n].press) then sys.vouched[n := sys.flows[n].press]
      else sys.vouched
    case Alarm(_, _, _) => sys.vouched
    case RevokePressed(_, _, _, _) => sys.vouched
    case Elsewhere(_) => sys.vouched
  }

  ghost function React(sys: System, event: Event): System
    requires SystemSound(sys)
  {
    var block := BlockOf(sys, event);
    System(Run(sys.rows, block.steps), FlowsAfter(sys.flows, event, block.next), VouchedAfter(sys, event))
  }

  /** A waiting press still speaks about the request in the table and about its own presser. */
  ghost predicate FlowSound(rows: Table, flow: Flow) {
    && flow.press.requestId in rows
    && rows[flow.press.requestId].request == flow.request
    && flow.ownerIndex < |flow.request.owners|
    && flow.request.owners[flow.ownerIndex].slackUserId == Some(flow.press.slackUser)
  }

  /** A press past its membership question had a yes to it. */
  ghost predicate Vouched(sys: System, n: nat)
    requires n in sys.flows
  {
    sys.flows[n].AskMember? || (n in sys.vouched && sys.vouched[n] == sys.flows[n].press)
  }

  ghost predicate SystemSound(sys: System) {
    && Sound(sys.rows)
    && (forall n :: n in sys.flows ==> FlowSound(sys.rows, sys.flows[n]))
    && (forall n :: n in sys.flows ==> Vouched(sys, n))
  }

  /** Lease ids are drawn fresh, and only presses approve. */
  ghost predicate Possible(sys: System, event: Event) {
    match event
    case Pressed(_, _, _, _, _) => true
    case Answered(_, answer) => forall id :: id in sys.rows ==> !Holds(sys.rows[id], answer.leaseId)
    case Alarm(_, _, _) => true
    case RevokePressed(_, _, _, _) => true
    case Elsewhere(step) => !step.Activate? && Honest(sys.rows, step)
  }

  lemma RunOne(rows: Table, step: Step)
    ensures Run(rows, [step]) == Next(rows, step)
    ensures Honest(rows, step) ==> AllHonest(rows, [step])
  {
    assert [step][1..] == [];
  }

  lemma RunTwo(rows: Table, first: Step, second: Step)
    ensures Run(rows, [first, second]) == Next(Next(rows, first), second)
    ensures Honest(rows, first) && Honest(Next(rows, first), second) ==> AllHonest(rows, [first, second])
  {
    assert [first, second][1..] == [second];
    RunOne(Next(rows, first), second);
  }

  lemma BeginIsHonest(rows: Table, press: Press, now: int, hasTurn: bool, turnCurrent: bool)
    requires Sound(rows)
    ensures var block := Begin(rows, press, now, hasTurn, turnCurrent);
      AllHonest(rows, block.steps) && (block.next.Some? ==> FlowSound(rows, block.next.value))
  {
    var block := Begin(rows, press, now, hasTurn, turnCurrent);
    if press.requestId in rows {
      var row := rows[press.requestId];
      OwnersDeliveryIs(row.deliveries, row.request.owners, press.slackUser);
    }
    if |block.steps| > 0 {
      RunOne(rows, block.steps[0]);
    }
  }

  lemma ResumeIsHonest(rows: Table, flow: Flow, answer: Answer)
    requires Sound(rows) && FlowSound(rows, flow)
    requires forall id :: id in rows ==> !Holds(rows[id], answer.leaseId)
    ensures var block := Resume(flow, answer);
      AllHonest(rows, block.steps) && (block.next.Some? ==> FlowSound(rows, block.next.value))
  {
    var block := Resume(flow, answer);
    if |block.steps| == 2 {
      RunTwo(rows, block.steps[0], block.steps[1]);
    } else if |block.steps| == 1 {
      RunOne(rows, block.steps[0]);
    }
  }

  lemma BlockIsHonest(sys: System, event: Event)
    requires SystemSound(sys) && Possible(sys, event)
    ensures var block := BlockOf(sys, event);
      AllHonest(sys.rows, block.steps) && (block.next.Some? ==> FlowSound(sys.rows, block.next.value))
  {
    match event
    case Pressed(_, press, now, hasTurn, turnCurrent) => BeginIsHonest(sys.rows, press, now, hasTurn, turnCurrent);
    case Answered(n, answer) => if n in sys.flows { ResumeIsHonest(sys.rows, sys.flows[n], answer); }
    case Alarm(id, now, turnCurrent) => RunOne(sys.rows, Close(id, if turnCurrent then Expired else Cancelled));
    case RevokePressed(leaseId, _, _, now) => RunOne(sys.rows, Revoke(leaseId, now));
    case Elsewhere(step) => RunOne(sys.rows, step);
  }

  lemma FlowsSurvive(before: Table, after: Table, flow: Flow)
    requires AllLater(before, after) && FlowSound(before, flow)
    ensures FlowSound(after, flow)
  {
    assert Later(before[flow.press.requestId], after[flow.press.requestId]);
  }

  lemma EventIsSound(sys: System, event: Event)
    requires SystemSound(sys) && Possible(sys, event)
    ensures SystemSound(React(sys, event)) && AllLater(sys.rows, React(sys, event).rows)
  {
    var block := BlockOf(sys, event);
    var after := React(sys, event);
    BlockIsHonest(sys, event);
    RunIsSound(sys.rows, block.steps);
    forall n | n in after.flows ensures FlowSound(after.rows, after.flows[n]) {
      if n in sys.flows && after.flows[n] == sys.flows[n] {
        FlowsSurvive(sys.rows, after.rows, sys.flows[n]);
      } else {
        FlowsSurvive(sys.rows, after.rows, block.next.value);
      }
    }
    forall n | n in after.flows ensures Vouched(after, n) {
      VouchedStays(sys, event, n);
    }
  }

  lemma VouchedStays(sys: System, event: Event, n: nat)
    requires SystemSound(sys) && n in React(sys, event).flows
    ensures Vouched(React(sys, event), n)
  {
    var block := BlockOf(sys, event);
    if event.Pressed? && event.flow == n && n !in sys.flows {
      assert block.next.Some? && block.next.value.AskMember?;
    } else {
      assert n in sys.flows && Vouched(sys, n);
      if event.Answered? && event.flow == n {
        assert sys.flows[n].AskMember? ==> event.answer.yes;
      }
    }
  }

  ghost function Happen(sys: System, events: seq<Event>): (end: System)
    requires SystemSound(sys) && AllPossible(sys, events)
    ensures SystemSound(end)
    decreases |events|
  {
    if |events| == 0 then sys
    else
      EventIsSound(sys, events[0]);
      Happen(React(sys, events[0]), events[1..])
  }

  ghost predicate AllPossible(sys: System, events: seq<Event>)
    requires SystemSound(sys)
    decreases |events|
  {
    |events| == 0
    || (Possible(sys, events[0])
        && (EventIsSound(sys, events[0]); AllPossible(React(sys, events[0]), events[1..])))
  }

  lemma LaterTransitive(a: Row, b: Row, c: Row)
    requires Later(a, b) && Later(b, c)
    ensures Later(a, c)
  {
  }

  /** However presses, answers, alarms, revocations and other writers interleave: a pending row
      with deliveries has a waiting one and no approved one, an activated row has exactly one
      approved delivery, whose owner is the lessor and the approver, and none waiting, a denied
      row was declined by all, and settled rows never change. */
  lemma {:induction false} EveryInterleavingIsSound(sys: System, events: seq<Event>)
    requires SystemSound(sys) && AllPossible(sys, events)
    ensures SystemSound(Happen(sys, events)) && AllLater(sys.rows, Happen(sys, events).rows)
    decreases |events|
  {
    if |events| > 0 {
      EventIsSound(sys, events[0]);
      var next := React(sys, events[0]);
      EveryInterleavingIsSound(next, events[1..]);
      var after := Happen(sys, events);
      forall id | id in sys.rows ensures id in after.rows && Later(sys.rows[id], after.rows[id]) {
        LaterTransitive(sys.rows[id], next.rows[id], after.rows[id]);
      }
    }
  }

  // ---------------------------------------------------------------------------
  // The same blocks, as the handlers run them against the table.

  method BeginPress(store: Store, press: Press, now: int, hasTurn: bool, turnCurrent: bool) returns (next: Option<Flow>)
    requires Keyed(store.rows)
    modifies store
    ensures store.rows == Run(old(store.rows), Begin(old(store.rows), press, now, hasTurn, turnCurrent).steps)
    ensures next == Begin(old(store.rows), press, now, hasTurn, turnCurrent).next
  {
    next := None;
    if press.requestId in store.rows {
      var request := store.rows[press.requestId];
      if request.request.key.teamId == press.teamId {
        var delivery := OwnerDeliveryForSlackUser(request.deliveries, request.request.owners, press.slackUser);
        if delivery.Some? && request.status == Pending && delivery.value.status == Waiting {
          RunOne(store.rows, Close(press.requestId, Expired));
          RunOne(store.rows, Close(press.requestId, Cancelled));
          if RequestExpired(request, now) {
            var _ := store.MarkTerminalIfPending(press.requestId, Expired);
          } else if !turnCurrent {
            var _ := store.MarkTerminalIfPending(press.requestId, Cancelled);
          } else {
            next := Some(AskMember(press, request.request, delivery.value.ownerIndex, hasTurn));
          }
        }
      }
    }
  }

  lemma NobodyHolds(rows: Table, leaseId: string, now: int)
    requires forall id :: id in rows ==> !Holds(rows[id], leaseId)
    ensures Next(rows, Revoke(leaseId, now)) == rows
  {
  }

  method ResumePress(store: Store, flow: Flow, answer: Answer) returns (next: Option<Flow>)
    requires Keyed(store.rows) && flow.ownerIndex < |flow.request.owners|
    requires forall id :: id in store.rows ==> !Holds(store.rows[id], answer.leaseId)
    modifies store
    ensures store.rows == Run(old(store.rows), Resume(flow, answer).steps)
    ensures next == Resume(flow, answer).next
  {
    ghost var before := store.rows;
    var id := flow.press.requestId;
    var owner := flow.request.owners[flow.ownerIndex];
    var who := Some(flow.press.slackUser);
    next := None;
    match flow
    case AskMember(press, request, ownerIndex, hasTurn) =>
      if answer.yes {
        next := Some(AskConnection(press, request, ownerIndex, hasTurn));
      } else {
        RunOne(before, Close(id, Cancelled));
        var _ := store.MarkTerminalIfPending(id, Cancelled);
      }
    case AskConnection(press, request, ownerIndex, hasTurn) =>
      next := Some(AskEligible(press, request, ownerIndex, hasTurn, answer.connection));
    case AskEligible(press, request, ownerIndex, hasTurn, connection) =>
      if !ConnectionFits(connection, request, owner) || !answer.yes {
        RunOne(before, Settle(id, ownerIndex, Invalidated, who, answer.now));
        var _ := store.UpdateDelivery(id, ownerIndex, Invalidated, who, answer.now);
      } else if !press.approve {
        RunOne(before, Settle(id, ownerIndex, Declined, who, answer.now));
        var _ := store.UpdateDelivery(id, ownerIndex, Declined, who, answer.now);
      } else {
        var grant := Grant(answer.leaseId, owner.userId, owner.connectionId, press.slackUser);
        ghost var activate := Activate(id, ownerIndex, grant, answer.now, answer.now + LEASE_TTL_MS);
        RunOne(before, activate);
        RunTwo(before, activate, Revoke(answer.leaseId, answer.now));
        var activated := store.ActivateLease(id, ownerIndex, grant, answer.now, answer.now + LEASE_TTL_MS);
        if activated && hasTurn && !answer.resumed {
          store.RevokeLease(answer.leaseId, answer.now);
        } else if !activated {
          NobodyHolds(before, answer.leaseId, answer.now);
        }
      }
  }

  method RunEscalation(store: Store, id: string, now: int, turnCurrent: bool) returns (armAgain: bool)
    requires Keyed(store.rows)
    modifies store
    ensures store.rows == Run(old(store.rows), Escalate(old(store.rows), id, now, turnCurrent).0)
    ensures armAgain == Escalate(old(store.rows), id, now, turnCurrent).1
  {
    armAgain := false;
    if id in store.rows && store.rows[id].status == Pending {
      if !RequestExpired(store.rows[id], now) {
        return true;
      }
      RunOne(store.rows, Close(id, if turnCurrent then Expired else Cancelled));
      if !turnCurrent {
        var _ := store.MarkTerminalIfPending(id, Cancelled);
      } else {
        var _ := store.MarkTerminalIfPending(id, Expired);
      }
    }
  }

  // ---------------------------------------------------------------------------
  // When a press approves.

  lemma OtherDoesNotActivate(rows: Table, step: Step, id: string)
    requires Keyed(rows) && Honest(rows, step) && !step.Activate? && id in rows && rows[id].status != Active
    ensures id in Next(rows, step) && Next(rows, step)[id].status != Active
  {
  }

  lemma {:induction false} OthersDoNotActivate(rows: Table, steps: seq<Step>, id: string)
    requires Sound(rows) && AllHonest(rows, steps) && forall step :: step in steps ==> !step.Activate?
    requires id in rows && rows[id].status != Active
    ensures id in Run(rows, steps) && Run(rows, steps)[id].status != Active
    decreases |steps|
  {
    if |steps| > 0 {
      StepIsSound(rows, steps[0]);
      assert steps[0] in steps;
      OtherDoesNotActivate(rows, steps[0], id);
      OthersDoNotActivate(Next(rows, steps[0]), steps[1..], id);
    }
  }

  /** The presses that approve: membership, connection and eligibility answered in favour, and the
      approve button. */
  ghost predicate Approving(sys: System, event: Event) {
    && event.Answered? && event.flow in sys.flows && event.answer.yes
    && event.flow in sys.vouched && sys.vouched[event.flow] == sys.flows[event.flow].press
    && var flow := sys.flows[event.flow];
       flow.AskEligible? && flow.press.approve && flow.ownerIndex < |flow.request.owners|
       && ConnectionFits(flow.connection, flow.request, flow.request.owners[flow.ownerIndex])
  }

  ghost predicate DeliveryWaits(row: Row, ownerIndex: nat) {
    row.status == Pending && FirstOf(row.deliveries, ownerIndex).Some?
      && FirstOf(row.deliveries, ownerIndex).value.status == Waiting
  }

  lemma ActivateActivates(rows: Table, step: Step, id: string)
    requires Keyed(rows) && step.Activate? && id in rows && rows[id].status != Active
    ensures id in Next(rows, step)
    ensures Next(rows, step)[id].status == Active <==> step.requestId == id && DeliveryWaits(rows[id], step.ownerIndex)
  {
  }

  lemma ApprovingActivates(rows: Table, flow: Flow, answer: Answer, id: string)
    requires Keyed(rows) && id in rows && rows[id].status != Active
    requires flow.AskEligible? && flow.press.approve && flow.ownerIndex < |flow.request.owners| && answer.yes
    requires ConnectionFits(flow.connection, flow.request, flow.request.owners[flow.ownerIndex])
    ensures var after := Run(rows, Resume(flow, answer).steps);
      && id in after
      && (after[id].status == Active ==> flow.press.requestId == id && DeliveryWaits(rows[id], flow.ownerIndex))
  {
    var steps := Resume(flow, answer).steps;
    ActivateActivates(rows, steps[0], id);
    if |steps| == 2 {
      RunTwo(rows, steps[0], steps[1]);
    } else {
      RunOne(rows, steps[0]);
    }
  }

  /** A request becomes active only when a press by one of its owners has had all three answers in
      its favour and that owner's delivery still waits. */
  lemma ActivationWasApproved(sys: System, event: Event, id: string)
    requires SystemSound(sys) && Possible(sys, event)
    requires id in sys.rows && sys.rows[id].status != Active
    ensures id in React(sys, event).rows
    ensures React(sys, event).rows[id].status == Active ==>
      && Approving(sys, event) && sys.flows[event.flow].press.requestId == id
      && DeliveryWaits(sys.rows[id], sys.flows[event.flow].ownerIndex)
  {
    var steps := BlockOf(sys, event).steps;
    BlockIsHonest(sys, event);
    if Approving(sys, event) {
      ApprovingActivates(sys.rows, sys.flows[event.flow], event.answer, id);
    } else {
      assert forall step :: step in steps ==> !step.Activate? by {
        if event.Answered? && event.flow in sys.flows { assert Vouched(sys, event.flow); }
      }
      OthersDoNotActivate(sys.rows, steps, id);
    }
  }

  /** Some event of the run answered this press's membership question with yes. */
  ghost predicate MembershipConfirmed(sys: System, events: seq<Event>, n: nat, press: Press)
    requires SystemSound(sys) && AllPossible(sys, events)
    decreases |events|
  {
    |events| > 0
    && (Confirms(sys, events[0], n, press)
        || (EventIsSound(sys, events[0]); MembershipConfirmed(React(sys, events[0]), events[1..], n, press)))
  }

  lemma {:induction false} VouchedWasConfirmed(sys: System, events: seq<Event>, n: nat, press: Press)
    requires SystemSound(sys) && AllPossible(sys, events)
    requires !(n in sys.vouched && sys.vouched[n] == press)
    requires n in Happen(sys, events).vouched && Happen(sys, events).vouched[n] == press
    ensures MembershipConfirmed(sys, events, n, press)
    decreases |events|
  {
    EventIsSound(sys, events[0]);
    var next := React(sys, events[0]);
    if !(n in next.vouched && next.vouched[n] == press) {
      VouchedWasConfirmed(next, events[1..], n, press);
    }
  }

  /** From a system without waiting presses: whatever happens, a request becomes active only
      through a press whose membership, connection and eligibility questions were all answered in
      its favour, and whose delivery waits. */
  lemma ActivationInRun(sys: System, events: seq<Event>, event: Event, id: string)
    requires SystemSound(sys) && sys.vouched == map[] && AllPossible(sys, events)
    requires Possible(Happen(sys, events), event)
    requires var before := Happen(sys, events);
      && id in before.rows && before.rows[id].status != Active
      && id in React(before, event).rows && React(before, event).rows[id].status == Active
    ensures var before := Happen(sys, events);
      && Approving(before, event) && before.flows[event.flow].press.requestId == id
      && DeliveryWaits(before.rows[id], before.flows[event.flow].ownerIndex)
      && MembershipConfirmed(sys, events, event.flow, before.flows[event.flow].press)
  {
    var before := Happen(sys, events);
    EveryInterleavingIsSound(sys, events);
    ActivationWasApproved(before, event, id);
    VouchedWasConfirmed(sys, events, event.flow, before.flows[event.flow].press);
  }

  /** The last block of an approving press activates the request exactly when the request is
      still pending and the owner's delivery still waits: the request's deadline, checked before
      the awaits, is not part of the condition. */
  lemma ActivatesIff(rows: Table, flow: Flow, answer: Answer)
    requires Sound(rows) && FlowSound(rows, flow) && flow.AskEligible? && flow.press.approve
    requires forall id :: id in rows ==> !Holds(rows[id], answer.leaseId)
    requires ConnectionFits(flow.connection, flow.request, flow.request.owners[flow.ownerIndex]) && answer.yes
    requires !flow.hasTurn || answer.resumed
    ensures var id := flow.press.requestId;
      var after := Run(rows, Resume(flow, answer).steps);
      && id in after
      && (after[id] != rows[id] <==> DeliveryWaits(rows[id], flow.ownerIndex))
      && (after[id] != rows[id] ==> after[id].status == Active && after[id].expiresAt == answer.now + LEASE_TTL_MS)
  {
    RunOne(rows, Resume(flow, answer).steps[0]);
  }

  /** So a request can be approved after its deadline: the press came a millisecond before it,
      and the answers a millisecond after. */
  lemma ApprovedLate(key: ThreadKey)
    ensures var owner := Owner("u", "c", Some("U"));
      var row := Row(Request("r", key, ReadOnly, [owner]), [Delivery(0, "card", Waiting)], Pending, None,
                     0, LEASE_REQUEST_EXPIRY_MS, None, None, None);
      var rows: Table := map["r" := row];
      var press := Press("r", key.teamId, "U", true);
      var flow := AskEligible(press, row.request, 0, false,
        Some(Connection("c", key.orgId, key.serverSlug, "u", true)));
      var answer := Answer(true, None, LEASE_REQUEST_EXPIRY_MS + 1, "l", false);
      && Begin(rows, press, LEASE_REQUEST_EXPIRY_MS - 1, false, true) ==
           Block([], Some(AskMember(press, row.request, 0, false)))
      && Sound(rows) && FlowSound(rows, flow)
      && var after := Run(rows, Resume(flow, answer).steps);
         "r" in after && after["r"].status == Active && after["r"].decidedAt == Some(LEASE_REQUEST_EXPIRY_MS + 1)
  {
    var owner := Owner("u", "c", Some("U"));
    var row := Row(Request("r", key, ReadOnly, [owner]), [Delivery(0, "card", Waiting)], Pending, None,
                   0, LEASE_REQUEST_EXPIRY_MS, None, None, None);
    var rows: Table := map["r" := row];
    assert row.deliveries[0] in row.deliveries;
    var flow := AskEligible(Press("r", key.teamId, "U", true), row.request, 0, false,
                            Some(Connection("c", key.orgId, key.serverSlug, "u", true)));
    var answer := Answer(true, None, LEASE_REQUEST_EXPIRY_MS + 1, "l", false);
    ActivatesIff(rows, flow, answer);
    RunOne(rows, Resume(flow, answer).steps[0]);
  }

  // ---------------------------------------------------------------------------
  // What a press does, from the button to the row.

  ghost predicate FirstBelonging(row: Row, slackUser: string, k: nat) {
    && k < |row.deliveries| && BelongsTo(row.deliveries[k], row.request.owners, slackUser)
    && forall i :: 0 <= i < k ==> !BelongsTo(row.deliveries[i], row.request.owners, slackUser)
  }

  lemma {:induction false} OwnersDeliveryAt(deliveries: seq<Delivery>, owners: seq<Owner>, slackUser: string, k: nat)
    requires k < |deliveries| && BelongsTo(deliveries[k], owners, slackUser)
    requires forall i :: 0 <= i < k ==> !BelongsTo(deliveries[i], owners, slackUser)
    ensures OwnersDelivery(deliveries, owners, slackUser) == Some(deliveries[k])
  {
    if k > 0 {
      OwnersDeliveryAt(deliveries[1..], owners, slackUser, k - 1);
    }
  }

  /** The presser's own delivery still waits, in the right workspace. */
  predicate MayPress(row: Row, press: Press, k: nat) {
    k < |row.deliveries| && row.request.key.teamId == press.teamId
    && row.status == Pending && row.deliveries[k].status == Waiting
  }

  /** A press by an owner: it asks its first question exactly when the request is neither settled
      nor expired and the turn goes on; otherwise an expired or abandoned request is closed. */
  lemma PressIs(rows: Table, press: Press, now: int, hasTurn: bool, turnCurrent: bool, k: nat)
    requires Keyed(rows) && press.requestId in rows && FirstBelonging(rows[press.requestId], press.slackUser, k)
    ensures var id := press.requestId;
      var row := rows[id];
      var block := Begin(rows, press, now, hasTurn, turnCurrent);
      && block.next == (if MayPress(row, press, k) && now < row.expiresAt && turnCurrent
                        then Some(AskMember(press, row.request, row.deliveries[k].ownerIndex, hasTurn)) else None)
      && Run(rows, block.steps) ==
           (if MayPress(row, press, k) && row.expiresAt <= now then rows[id := row.(status := Expired)]
            else if MayPress(row, press, k) && !turnCurrent then rows[id := row.(status := Cancelled)]
            else rows)
  {
    var id := press.requestId;
    OwnersDeliveryAt(rows[id].deliveries, rows[id].request.owners, press.slackUser, k);
    OnlyOneRow(rows, id, Close(id, Expired));
    OnlyOneRow(rows, id, Close(id, Cancelled));
    RunOne(rows, Close(id, Expired));
    RunOne(rows, Close(id, Cancelled));
  }

  /** Nobody else's press does anything. */
  lemma StrangersPressInVain(rows: Table, press: Press, now: int, hasTurn: bool, turnCurrent: bool)
    requires press.requestId in rows ==>
      forall d :: d in rows[press.requestId].deliveries ==>
        !BelongsTo(d, rows[press.requestId].request.owners, press.slackUser)
    ensures Begin(rows, press, now, hasTurn, turnCurrent) == NOTHING
  {
    if press.requestId in rows {
      var row := rows[press.requestId];
      OwnersDeliveryIs(row.deliveries, row.request.owners, press.slackUser);
    }
  }

  /** The request is pending and the delivery at `k` is the flow's and waits. */
  ghost predicate WaitsAt(rows: Table, flow: Flow, k: nat) {
    && FlowSound(rows, flow)
    && var row := rows[flow.press.requestId];
       row.status == Pending && k < |row.deliveries|
       && row.deliveries[k].ownerIndex == flow.ownerIndex && row.deliveries[k].status == Waiting
  }

  predicate Confirmed(flow: Flow, answer: Answer)
    requires flow.AskEligible? && flow.ownerIndex < |flow.request.owners|
  {
    answer.yes && ConnectionFits(flow.connection, flow.request, flow.request.owners[flow.ownerIndex])
  }

  /** The last block of a press that does not approve: it declines with every answer in favour and
      invalidates otherwise, and the request is pending, denied or failed accordingly. */
  lemma RefusingPressIs(rows: Table, flow: Flow, answer: Answer, k: nat)
    requires Sound(rows) && flow.AskEligible? && WaitsAt(rows, flow, k)
    requires !(Confirmed(flow, answer) && flow.press.approve)
    ensures var id := flow.press.requestId;
      var after := Run(rows, Resume(flow, answer).steps);
      && OthersSame(rows, after, id)
      && Refused(rows[id], after[id], k, if Confirmed(flow, answer) then Declined else Invalidated,
                 Some(flow.press.slackUser), answer.now)
  {
    var verdict := if Confirmed(flow, answer) then Declined else Invalidated;
    var who := Some(flow.press.slackUser);
    RefusalIs(rows, flow.press.requestId, k, verdict, who, answer.now);
    RunOne(rows, Settle(flow.press.requestId, flow.ownerIndex, verdict, who, answer.now));
  }

  lemma OnlyHolderIsRevoked(rows: Table, id: string, leaseId: string, now: int)
    requires id in rows && Holds(rows[id], leaseId) && rows[id].status == Active
    requires forall other :: other in rows && other != id ==> !Holds(rows[other], leaseId)
    ensures Next(rows, Revoke(leaseId, now)) == rows[id := rows[id].(status := Revoked, revokedAt := Some(now))]
  {
  }

  function GrantTo(flow: Flow, leaseId: string): Grant
    requires flow.ownerIndex < |flow.request.owners|
  {
    var owner := flow.request.owners[flow.ownerIndex];
    Grant(leaseId, owner.userId, owner.connectionId, flow.press.slackUser)
  }

  lemma ApprovingSteps(rows: Table, flow: Flow, answer: Answer)
    requires flow.ownerIndex < |flow.request.owners| && flow.AskEligible? && Confirmed(flow, answer)
    requires flow.press.approve
    ensures var activated := Next(rows, Activate(flow.press.requestId, flow.ownerIndex, GrantTo(flow, answer.leaseId),
                                                 answer.now, answer.now + LEASE_TTL_MS));
      Run(rows, Resume(flow, answer).steps) ==
      if flow.hasTurn && !answer.resumed then Next(activated, Revoke(answer.leaseId, answer.now)) else activated
  {
    var activate := Activate(flow.press.requestId, flow.ownerIndex, GrantTo(flow, answer.leaseId), answer.now,
                             answer.now + LEASE_TTL_MS);
    RunOne(rows, activate);
    RunTwo(rows, activate, Revoke(answer.leaseId, answer.now));
  }

  /** The last block of a press that approves: the row is active under the new lease, which is the
      owner's, or revoked on the spot when the turn that asked cannot be resumed. */
  lemma ApprovingPressIs(rows: Table, flow: Flow, answer: Answer, k: nat)
    requires Sound(rows) && flow.AskEligible? && WaitsAt(rows, flow, k)
    requires Confirmed(flow, answer) && flow.press.approve
    requires forall id :: id in rows ==> !Holds(rows[id], answer.leaseId)
    ensures var id := flow.press.requestId;
      var after := Run(rows, Resume(flow, answer).steps);
      var dropped := flow.hasTurn && !answer.resumed;
      && OthersSame(rows, after, id)
      && after[id].status == (if dropped then Revoked else Active)
      && after[id].revokedAt == (if dropped then Some(answer.now) else None)
      && after[id].grant == Some(GrantTo(flow, answer.leaseId))
      && after[id].createdAt == answer.now && after[id].expiresAt == answer.now + LEASE_TTL_MS
      && k < |after[id].deliveries| && after[id].deliveries[k].status == Approved
  {
    var id := flow.press.requestId;
    var grant := GrantTo(flow, answer.leaseId);
    ApprovingSteps(rows, flow, answer);
    ApprovalIs(rows, id, k, grant, answer.now, answer.now + LEASE_TTL_MS);
    if flow.hasTurn && !answer.resumed {
      OnlyHolderIsRevoked(Next(rows, Activate(id, flow.ownerIndex, grant, answer.now, answer.now + LEASE_TTL_MS)),
                          id, answer.leaseId, answer.now);
    }
  }

  /** A press asks its three questions in turn: a no to the first cancels the request, and the
      answers to the first two change no row otherwise. */
  lemma QuestionsInTurn(rows: Table, flow: Flow, answer: Answer)
    requires Keyed(rows) && FlowSound(rows, flow) && !flow.AskEligible?
    ensures var id := flow.press.requestId;
      var block := Resume(flow, answer);
      && (flow.AskMember? && !answer.yes ==>
            && block.next.None?
            && Run(rows, block.steps) ==
                 if rows[id].status == Pending then rows[id := rows[id].(status := Cancelled)] else rows)
      && (flow.AskConnection? || answer.yes ==>
            && Run(rows, block.steps) == rows && block.next.Some?
            && block.next.value.press == flow.press && block.next.value.request == flow.request
            && block.next.value.ownerIndex == flow.ownerIndex && block.next.value.hasTurn == flow.hasTurn
            && (flow.AskMember? ==> block.next.value.AskConnection?)
            && (flow.AskConnection? ==>
                  block.next.value.AskEligible? && block.next.value.connection == answer.connection))
  {
    var id := flow.press.requestId;
    OnlyOneRow(rows, id, Close(id, Cancelled));
    RunOne(rows, Close(id, Cancelled));
    assert rows[id := rows[id]] == rows;
  }

  /** A revoke press ends the active lease it names exactly when the presser approved it in that
      workspace, and touches nothing else. */
  lemma RevokePressIs(rows: Table, leaseId: string, teamId: string, slackUser: string, now: int, id: string)
    requires Sound(rows) && id in rows
    ensures var after := Run(rows, RevokeBlock(rows, leaseId, teamId, slackUser, now));
      && after.Keys == rows.Keys
      && after[id] == if Holds(rows[id], leaseId) && rows[id].status == Active
                         && rows[id].request.key.teamId == teamId && rows[id].grant.value.approvedBySlack == slackUser
                      then rows[id].(status := Revoked, revokedAt := Some(now)) else rows[id]
  {
    var step := Revoke(leaseId, now);
    RunOne(rows, step);
    EndingRowIs(rows[id], step);
    if other :| other in rows && Holds(rows[other], leaseId) && rows[other].request.key.teamId == teamId
                && rows[other].grant.value.approvedBySlack == slackUser {
      assert Holds(rows[id], leaseId) ==> id == other;
    }
  }

  // ---------------------------------------------------------------------------
  // The expiry alarm.

  /** Whole seconds until the deadline, rounded up, and at least one. */
  function AlarmDelay(expiresAt: int, now: int): int {
    var seconds := (expiresAt - now + 999) / 1000;
    if seconds < 1 then 1 else seconds
  }

  /** An alarm never fires before the deadline it was armed for, is less than a second late
      unless the deadline had all but passed, and settles a request that still waits. */
  lemma AlarmSettles(rows: Table, id: string, armedAt: int, firedAt: int, turnCurrent: bool)
    requires Sound(rows) && id in rows && rows[id].status == Pending
    requires firedAt >= armedAt + 1000 * AlarmDelay(rows[id].expiresAt, armedAt)
    ensures var due := armedAt + 1000 * AlarmDelay(rows[id].expiresAt, armedAt);
      rows[id].expiresAt <= due && (due < rows[id].expiresAt + 1000 || due == armedAt + 1000)
    ensures var (steps, again) := Escalate(rows, id, firedAt, turnCurrent);
      && !again
      && Run(rows, steps) == rows[id := rows[id].(status := if turnCurrent then Expired else Cancelled)]
  {
    var step := Close(id, if turnCurrent then Expired else Cancelled);
    RunOne(rows, step);
    OnlyOneRow(rows, id, step);
  }

  /** Before the deadline the alarm is armed again, and a settled or unknown request is left alone. */
  lemma AlarmWaits(rows: Table, id: string, now: int, turnCurrent: bool)
    requires id in rows && rows[id].status == Pending ==> now < rows[id].expiresAt
    ensures var (steps, again) := Escalate(rows, id, now, turnCurrent);
      Run(rows, steps) == rows && (again <==> id in rows && rows[id].status == Pending)
  {
  }

  // ---------------------------------------------------------------------------
  // Open requests of one thread.

  predicate Satisfies(existing: Mode, requested: Mode) {
    existing == requested || existing == ReadWrite || requested == ReadWrite
  }

  /** With two modes the test passes for every pair, so the mode never tells requests apart. */
  lemma EveryModeSatisfies(existing: Mode, requested: Mode)
    ensures Satisfies(existing, requested)
  {
    match existing
    case ReadOnly =>
    case ReadWrite =>
  }

  predicate Open(row: Row, now: int) {
    row.status in {Pending, Active} && row.expiresAt > now
  }

  ghost predicate HasOpen(rows: Table, key: ThreadKey, mode: Mode, now: int) {
    exists id :: id in rows && rows[id].request.key == key && Open(rows[id], now)
      && Satisfies(rows[id].request.mode, mode)
  }

  ghost predicate OneOpen(rows: Table, now: int) {
    forall a, b :: a in rows && b in rows && a != b && rows[a].request.key == rows[b].request.key ==>
      !(Open(rows[a], now) && Open(rows[b], now))
  }

  datatype Timed = Timed(step: Step, now: int)

  function Replay(rows: Table, steps: seq<Timed>): Table
    decreases |steps|
  {
    if |steps| == 0 then rows else Replay(Next(rows, steps[0].step), steps[1..])
  }

  ghost predicate AllTimely(rows: Table, steps: seq<Timed>, now: int)
    decreases |steps|
  {
    |steps| == 0
    || (now <= steps[0].now && Honest(rows, steps[0].step)
         && AllTimely(Next(rows, steps[0].step), steps[1..], steps[0].now))
  }

  ghost predicate AnotherOpen(rows: Table, id: string, key: ThreadKey, now: int) {
    exists other :: other in rows && other != id && rows[other].request.key == key && Open(rows[other], now)
  }

  /** A new open request is inserted beside an open one, or one is approved, for some time to come,
      beside an open one. */
  ghost predicate OpensSecond(rows: Table, timed: Timed) {
    match timed.step
    case Insert(row) =>
      row.request.requestId !in rows && Open(row, timed.now)
        && AnotherOpen(rows, row.request.requestId, row.request.key, timed.now)
    case Activate(id, ownerIndex, _, _, expiresAt) =>
      id in rows && DeliveryWaits(rows[id], ownerIndex) && expiresAt > timed.now
      && AnotherOpen(rows, id, rows[id].request.key, timed.now)
    case Route(_, _) => false
    case Settle(_, _, _, _, _) => false
    case Close(_, _) => false
    case Revoke(_, _) => false
    case Finish(_, _) => false
    case Disconnect(_, _) => false
  }

  lemma OpenOnlyCloses(rows: Table, from: int, now: int)
    requires OneOpen(rows, from) && from <= now
    ensures OneOpen(rows, now)
  {
    forall a, b | a in rows && b in rows && a != b && rows[a].request.key == rows[b].request.key
      ensures !(Open(rows[a], now) && Open(rows[b], now))
    {
      assert !(Open(rows[a], from) && Open(rows[b], from));
    }
  }

  /** One row changes: then only pairs with it can break. */
  lemma OneRowOpens(rows: Table, id: string, row: Row, now: int)
    requires OneOpen(rows, now) && (id in rows ==> rows[id].request.key == row.request.key)
    ensures OneOpen(rows[id := row], now) <==> !(Open(row, now) && AnotherOpen(rows, id, row.request.key, now))
  {
    var after := rows[id := row];
    if Open(row, now) && AnotherOpen(rows, id, row.request.key, now) {
      var other :| other in rows && other != id && rows[other].request.key == row.request.key && Open(rows[other], now);
      assert id in after && other in after && after[other] == rows[other];
    }
  }

  lemma InsertOpensIff(rows: Table, timed: Timed)
    requires OneOpen(rows, timed.now) && timed.step.Insert?
    ensures OneOpen(Next(rows, timed.step), timed.now) <==> !OpensSecond(rows, timed)
  {
    var row := timed.step.row;
    if row.request.requestId !in rows {
      OneRowOpens(rows, row.request.requestId, row, timed.now);
    }
  }

  lemma ActivateOpensIff(rows: Table, timed: Timed)
    requires Keyed(rows) && OneOpen(rows, timed.now) && timed.step.Activate?
    ensures OneOpen(Next(rows, timed.step), timed.now) <==> !OpensSecond(rows, timed)
  {
    var id := timed.step.requestId;
    if id in rows {
      OnlyOneRow(rows, id, timed.step);
      var after := Touch(rows[id], timed.step);
      OneRowOpens(rows, id, after, timed.now);
      if DeliveryWaits(rows[id], timed.step.ownerIndex) {
        assert after.expiresAt == timed.step.expiresAt && after.status == Active;
      } else {
        assert after == rows[id] && rows[id := after] == rows;
      }
    } else {
      NoSuchRow(rows, id, timed.step);
    }
  }

  lemma OpenCameFrom(row: Row, timed: Timed)
    requires !timed.step.Activate? && (timed.step.Close? ==> timed.step.status in {Expired, Error, Cancelled})
    requires timed.step.Finish? ==> timed.step.status in {Expired, Consumed}
    requires Open(Touch(row, timed.step), timed.now)
    ensures Open(row, timed.now) && Touch(row, timed.step).request == row.request
  {
  }

  lemma OthersOpenNone(rows: Table, timed: Timed)
    requires Keyed(rows) && OneOpen(rows, timed.now) && Honest(rows, timed.step)
    requires !timed.step.Insert? && !timed.step.Activate?
    ensures OneOpen(Next(rows, timed.step), timed.now)
  {
    var after := Next(rows, timed.step);
    forall id | id in rows && Open(after[id], timed.now)
      ensures Open(rows[id], timed.now) && after[id].request == rows[id].request
    {
      if !(timed.step.Close? && timed.step.requestId != id) {
        OpenCameFrom(rows[id], timed);
      }
    }
  }

  /** A step leaves a thread with two open requests for a server in exactly those two cases. */
  lemma OpensSecondIff(rows: Table, timed: Timed, now: int)
    requires Sound(rows) && OneOpen(rows, now) && now <= timed.now && Honest(rows, timed.step)
    ensures OneOpen(Next(rows, timed.step), timed.now) <==> !OpensSecond(rows, timed)
  {
    OpenOnlyCloses(rows, now, timed.now);
    if timed.step.Insert? {
      InsertOpensIff(rows, timed);
    } else if timed.step.Activate? {
      ActivateOpensIff(rows, timed);
    } else {
      OthersOpenNone(rows, timed);
    }
  }

  ghost predicate NeverOpensSecond(rows: Table, steps: seq<Timed>)
    decreases |steps|
  {
    |steps| == 0 || (!OpensSecond(rows, steps[0]) && NeverOpensSecond(Next(rows, steps[0].step), steps[1..]))
  }

  ghost predicate AlwaysOneOpen(rows: Table, steps: seq<Timed>, now: int)
    decreases |steps|
  {
    OneOpen(rows, now) && (|steps| == 0 || AlwaysOneOpen(Next(rows, steps[0].step), steps[1..], steps[0].now))
  }

  /** Over every run: no thread ever has two open requests for a server exactly when no step opens
      a second one. */
  lemma {:induction false} OneOpenPerThreadIff(rows: Table, steps: seq<Timed>, now: int)
    requires Sound(rows) && OneOpen(rows, now) && AllTimely(rows, steps, now)
    ensures AlwaysOneOpen(rows, steps, now) <==> NeverOpensSecond(rows, steps)
    decreases |steps|
  {
    if |steps| > 0 {
      OpensSecondIff(rows, steps[0], now);
      StepIsSound(rows, steps[0].step);
      if !OpensSecond(rows, steps[0]) {
        OneOpenPerThreadIff(Next(rows, steps[0].step), steps[1..], steps[0].now);
      }
    }
  }

  /** What a caller can see to: an insertion in the same breath as its check, and an approval before
      the request's deadline, open no second request. */
  lemma CarefulOpensNoSecond(rows: Table, timed: Timed, now: int)
    requires OneOpen(rows, now) && now <= timed.now
    requires timed.step.Insert? ==>
      !HasOpen(rows, timed.step.row.request.key, timed.step.row.request.mode, timed.now)
    requires timed.step.Activate? && timed.step.requestId in rows ==> rows[timed.step.requestId].expiresAt > timed.now
    ensures !OpensSecond(rows, timed)
  {
    OpenOnlyCloses(rows, now, timed.now);
    if timed.step.Insert? {
      forall id | id in rows ensures Satisfies(rows[id].request.mode, timed.step.row.request.mode) {
        EveryModeSatisfies(rows[id].request.mode, timed.step.row.request.mode);
      }
    }
  }

  /** Both cases are reachable: asking twice during the await between check and insertion, and
      approving late a request whose successor was properly checked. */
  lemma TwoOpenRequests(key: ThreadKey)
    ensures var owner := Owner("u", "c", Some("U"));
      var first := Row(Request("r", key, ReadOnly, [owner]), [], Pending, None, 0, 900000, None, None, None);
      var second := Row(Request("s", key, ReadOnly, [owner]), [], Pending, None, 0, 900000, None, None, None);
      var later := second.(createdAt := 900000, expiresAt := 1800000);
      var routed := first.(deliveries := [Delivery(0, "card", Waiting)]);
      var approval := Activate("r", 0, Grant("l", "u", "c", "U"), 900001, 1500001);
      && !HasOpen(map[], key, ReadOnly, 0)
      && !OneOpen(Run(map[], [Insert(first), Insert(second)]), 0)
      && !HasOpen(map["r" := routed], key, ReadOnly, 900000)
      && !OneOpen(Run(map["r" := routed], [Insert(later), approval]), 900001)
  {
    var owner := Owner("u", "c", Some("U"));
    var first := Row(Request("r", key, ReadOnly, [owner]), [], Pending, None, 0, 900000, None, None, None);
    var second := Row(Request("s", key, ReadOnly, [owner]), [], Pending, None, 0, 900000, None, None, None);
    var later := second.(createdAt := 900000, expiresAt := 1800000);
    var routed := first.(deliveries := [Delivery(0, "card", Waiting)]);
    var approval := Activate("r", 0, Grant("l", "u", "c", "U"), 900001, 1500001);
    var both := Run(map[], [Insert(first), Insert(second)]);
    RunTwo(map[], Insert(first), Insert(second));
    assert Open(both["r"], 0) && Open(both["s"], 0);
    var after := Run(map["r" := routed], [Insert(later), approval]);
    RunTwo(map["r" := routed], Insert(later), approval);
    assert Open(after["r"], 900001) && Open(after["s"], 900001);
  }
}
