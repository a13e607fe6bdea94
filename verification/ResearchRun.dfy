/** The auto-research run (`src/brain/auto-research/run.ts`): a lock row with a deadline and
    an owner token, renewed by heartbeats, stolen by force, deleted by a reset; and drafts
    whose insertion is fenced by it. A reset advances the epoch in one block and wipes the tables
    in a later one, with an await between. Tokens are numbered in the order they are issued. */
module ResearchRun {
  import opened Prelude

  const LEASE_TTL_MS := 900_000
  const DRAFT_CONCURRENCY := 6

  type Token = nat

  /** The lock row, with the progress its owner reports. */
  datatype Lock = Lock(until: int, owner: Token, total: nat, done: nat, active: nat)

  /** One run's own variables. `next` jobs have been handed to batches. */
  datatype RunState = RunState(epoch: nat, total: nat, next: nat, active: nat,
                               drafted: nat, skipped: nat, errored: nat, over: bool)
  {
    function Done(): nat { drafted + skipped + errored }
  }

  /** An inserted draft: by whom, under which reset epoch. */
  datatype Insertion = Insertion(token: Token, epoch: nat)

  /** `inserted` is every draft ever inserted, `drafts` the rows that are still there. */
  datatype State = State(lock: Option<Lock>, epoch: nat, issued: nat, runs: map<Token, RunState>,
                         inserted: seq<Insertion>, drafts: seq<Insertion>)

  datatype JobResult = Drafted | NothingToSay | Threw

  datatype Step =
    | Start(force: bool, now: int)
    | Plan(token: Token, jobs: nat)
    | BeginBatch(token: Token, now: int)
    | Heartbeat(token: Token, now: int)
    | Settle(token: Token, result: JobResult, now: int)
    | Finish(token: Token)
    | AdvanceEpoch
    | WipeTables

  // ---------------------------------------------------------------------------
  // The lock row.

  predicate Owns(lock: Option<Lock>, token: Token) {
    lock.Some? && lock.value.owner == token
  }

  predicate Holds(lock: Option<Lock>, token: Token, now: int) {
    Owns(lock, token) && lock.value.until > now
  }

  function Renewed(lock: Option<Lock>, token: Token, now: int): Option<Lock> {
    if Owns(lock, token) then Some(lock.value.(until := now + LEASE_TTL_MS)) else lock
  }

  function Reported(lock: Option<Lock>, token: Token, run: RunState): Option<Lock> {
    if Owns(lock, token) then Some(lock.value.(total := run.total, done := run.Done(), active := run.active)) else lock
  }

  function ReleasedBy(lock: Option<Lock>, token: Token): Option<Lock> {
    if Owns(lock, token) then Some(lock.value.(until := 0)) else lock
  }

  predicate MayAcquire(lock: Option<Lock>, force: bool, now: int) {
    lock.None? || lock.value.until <= now || force
  }

  // ---------------------------------------------------------------------------
  // One atomic block of a run each.

  function Next(s: State, step: Step): State {
    match step
    case Start(force, now) =>
      if !MayAcquire(s.lock, force, now) then s
      else
        var begun := RunState(s.epoch, 0, 0, 0, 0, 0, 0, false);
        s.(lock := Some(Lock(now + LEASE_TTL_MS, s.issued, 0, 0, 0)),
           issued := s.issued + 1, runs := s.runs[s.issued := begun])
    case Plan(token, jobs) =>
      if !Working(s, token) || s.runs[token].total > 0 then s
      else
        var run := s.runs[token].(total := jobs);
        s.(lock := Reported(s.lock, token, run), runs := s.runs[token := run])
    case BeginBatch(token, now) =>
      if !Working(s, token) || s.runs[token].active > 0 || s.runs[token].next >= s.runs[token].total then s
      else if (s.runs[token].next > 0 && s.runs[token].epoch != s.epoch) || !Owns(s.lock, token) then
        s.(lock := ReleasedBy(s.lock, token), runs := s.runs[token := s.runs[token].(over := true)])
      else
        var left := s.runs[token].total - s.runs[token].next;
        var size := if left < DRAFT_CONCURRENCY then left else DRAFT_CONCURRENCY;
        var run := s.runs[token].(next := s.runs[token].next + size, active := size);
        s.(lock := Reported(Renewed(s.lock, token, now), token, run), runs := s.runs[token := run])
    case Heartbeat(token, now) =>
      if !Working(s, token) || s.runs[token].active == 0 then s
      else s.(lock := Renewed(s.lock, token, now))
    case Settle(token, result, now) =>
      if !Working(s, token) || s.runs[token].active == 0 then s
      else
        var run := s.runs[token].(active := s.runs[token].active - 1);
        var keeps := result.Drafted? && s.epoch == run.epoch && Holds(s.lock, token, now);
        var settled := if keeps then run.(drafted := run.drafted + 1)
                       else if result.Threw? then run.(errored := run.errored + 1)
                       else run.(skipped := run.skipped + 1);
        s.(lock := Reported(s.lock, token, settled), runs := s.runs[token := settled],
           inserted := if keeps then s.inserted + [Insertion(token, run.epoch)] else s.inserted,
           drafts := if keeps then s.drafts + [Insertion(token, run.epoch)] else s.drafts)
    case Finish(token) =>
      if !Working(s, token) || s.runs[token].active > 0 then s
      else s.(lock := ReleasedBy(s.lock, token), runs := s.runs[token := s.runs[token].(over := true)])
    case AdvanceEpoch => s.(epoch := s.epoch + 1)
    case WipeTables => s.(lock := None, drafts := [])
  }

  predicate Working(s: State, token: Token) {
    token in s.runs && !s.runs[token].over
  }

  const INITIAL := State(None, 0, 0, map[], [], [])

  function Run(s: State, steps: seq<Step>): State
    decreases |steps|
  {
    if |steps| == 0 then s else Run(Next(s, steps[0]), steps[1..])
  }

  // ---------------------------------------------------------------------------
  // The object that is updated in place, and the guards in source order.

  class AutoResearch {
    var state: State

    constructor ()
      ensures state == INITIAL
    {
      state := INITIAL;
    }

    /** `acquireAutoResearchLease` and the synchronous start of the run. */
    method Acquire(force: bool, now: int) returns (token: Option<Token>)
      modifies this
      ensures state == Next(old(state), Start(force, now))
      ensures token == if MayAcquire(old(state).lock, force, now) then Some(old(state).issued) else None
    {
      var held := state.lock;
      if held.Some? && held.value.until > now && !force { return None; }
      var mine := state.issued;
      state := state.(issued := mine + 1,
                      lock := Some(Lock(now + LEASE_TTL_MS, mine, 0, 0, 0)),
                      runs := state.runs[mine := RunState(state.epoch, 0, 0, 0, 0, 0, 0, false)]);
      token := Some(mine);
    }

    method Renew(token: Token, now: int) returns (held: bool)
      modifies this
      ensures state == old(state).(lock := Renewed(old(state).lock, token, now))
      ensures held <==> Owns(state.lock, token)
    {
      if state.lock.Some? && state.lock.value.owner == token {
        state := state.(lock := Some(state.lock.value.(until := now + LEASE_TTL_MS)));
      }
      held := state.lock.Some? && state.lock.value.owner == token;
    }

    method Report(token: Token)
      requires token in state.runs
      modifies this
      ensures state == old(state).(lock := Reported(old(state).lock, token, old(state).runs[token]))
    {
      if state.lock.Some? && state.lock.value.owner == token {
        var run := state.runs[token];
        state := state.(lock := Some(state.lock.value.(total := run.total, done := run.Done(), active := run.active)));
      }
    }

    /** The block a draft settles in: fence, insertion and counters with no await between. */
    method SettleJob(token: Token, result: JobResult, now: int)
      requires Working(state, token) && state.runs[token].active > 0
      modifies this
      ensures state == Next(old(state), Settle(token, result, now))
    {
      var run := state.runs[token];
      match result {
        case Drafted =>
          if state.epoch == run.epoch && Holds(state.lock, token, now) {
            state := state.(inserted := state.inserted + [Insertion(token, run.epoch)],
                            drafts := state.drafts + [Insertion(token, run.epoch)]);
            run := run.(drafted := run.drafted + 1);
          } else {
            run := run.(skipped := run.skipped + 1);
          }
        case NothingToSay =>
          run := run.(skipped := run.skipped + 1);
        case Threw =>
          run := run.(errored := run.errored + 1);
      }
      run := run.(active := run.active - 1);
      state := state.(runs := state.runs[token := run]);
      Report(token);
    }

    /** The top of the batch loop: a run that was reset or lost its lock stops there. */
    method BeginBatch(token: Token, now: int) returns (size: nat)
      requires Working(state, token) && state.runs[token].active == 0
          && state.runs[token].next < state.runs[token].total
      modifies this
      ensures state == Next(old(state), Step.BeginBatch(token, now))
      ensures size == 0 <==> state.runs[token].over
    {
      size := 0;
      var run := state.runs[token];
      var held := false;
      if run.next == 0 || run.epoch == state.epoch {
        held := Renew(token, now);
      }
      if !held {
        state := state.(runs := state.runs[token := run.(over := true)]);
        Release(token);
        return;
      }
      size := if run.total - run.next < DRAFT_CONCURRENCY then run.total - run.next else DRAFT_CONCURRENCY;
      state := state.(runs := state.runs[token := run.(next := run.next + size, active := size)]);
      Report(token);
    }

    /** The first block of a reset. */
    method AdvanceResetEpoch()
      modifies this
      ensures state == Next(old(state), AdvanceEpoch)
    {
      state := state.(epoch := state.epoch + 1);
    }

    /** The last block of a reset, after the schedules have been cancelled. */
    method WipeResearchTables()
      modifies this
      ensures state == Next(old(state), WipeTables)
    {
      state := state.(drafts := []);
      state := state.(lock := None);
    }

    method Release(token: Token)
      modifies this
      ensures state == old(state).(lock := ReleasedBy(old(state).lock, token))
    {
      if state.lock.Some? && state.lock.value.owner == token {
        state := state.(lock := Some(state.lock.value.(until := 0)));
      }
    }
  }

  // ---------------------------------------------------------------------------
  // Invariants.

  function CountBy(inserted: seq<Insertion>, token: Token): nat {
    if |inserted| == 0 then 0
    else CountBy(inserted[..|inserted| - 1], token) + if inserted[|inserted| - 1].token == token then 1 else 0
  }

  ghost predicate Fenced(s: State) {
    && (s.lock.Some? ==> s.issued > 0 && s.lock.value.owner == s.issued - 1)
    && (forall token: Token :: token in s.runs <==> token < s.issued)
    && (forall i :: 0 <= i < |s.inserted| ==> s.inserted[i].token < s.issued && s.inserted[i].epoch <= s.epoch)
    && (forall i, j :: 0 <= i < j < |s.inserted| ==>
          s.inserted[i].token <= s.inserted[j].token && s.inserted[i].epoch <= s.inserted[j].epoch)
    && (forall token :: token in s.runs ==> s.runs[token].epoch <= s.epoch)
  }

  /** Every job handed out is in flight or accounted for, `drafted` counts the rows this run
      really inserted, and the lock shows the counters of its owner. */
  ghost predicate Conserved(s: State) {
    && (forall token :: token in s.runs ==> Balanced(s.runs[token], CountBy(s.inserted, token)))
    && (s.lock.Some? && s.lock.value.owner in s.runs ==> Shows(s.lock.value, s.runs[s.lock.value.owner]))
  }

  predicate Balanced(run: RunState, rows: nat) {
    run.next == run.active + run.Done() && run.next <= run.total && run.drafted == rows
  }

  predicate Shows(lock: Lock, run: RunState) {
    lock.total == run.total && lock.done == run.Done() && lock.active == run.active
  }

  lemma CountAppend(inserted: seq<Insertion>, x: Insertion)
    ensures forall token ::
        CountBy(inserted + [x], token) == CountBy(inserted, token) + if x.token == token then 1 else 0
  {
    assert (inserted + [x])[..|inserted|] == inserted;
  }

  lemma {:induction false} CountNone(inserted: seq<Insertion>, token: Token)
    requires forall i :: 0 <= i < |inserted| ==> inserted[i].token < token
    ensures CountBy(inserted, token) == 0
  {
    if |inserted| > 0 {
      CountNone(inserted[..|inserted| - 1], token);
    }
  }

  lemma SettleKeepsFence(s: State, token: Token, result: JobResult, now: int)
    requires Fenced(s)
    ensures Fenced(Next(s, Settle(token, result, now)))
    ensures s.inserted <= Next(s, Settle(token, result, now)).inserted
  {
  }

  lemma StepKeepsFence(s: State, step: Step)
    requires Fenced(s)
    ensures Fenced(Next(s, step))
    ensures s.inserted <= Next(s, step).inserted
  {
    if step.Settle? {
      SettleKeepsFence(s, step.token, step.result, step.now);
    } else {
      assert Next(s, step).inserted == s.inserted;
    }
  }

  /** A run changes its own counters and reports them. */
  lemma ReportingConserves(s: State, token: Token, run: RunState, lock: Option<Lock>, inserted: seq<Insertion>)
    requires Fenced(s) && Conserved(s) && token in s.runs
    requires Balanced(run, CountBy(inserted, token))
    requires forall other :: other != token ==> CountBy(inserted, other) == CountBy(s.inserted, other)
    requires lock == s.lock || lock == Renewed(s.lock, token, if lock.Some? then lock.value.until - LEASE_TTL_MS else 0)
    ensures Conserved(s.(lock := Reported(lock, token, run), runs := s.runs[token := run], inserted := inserted))
  {
  }

  lemma SettleConserves(s: State, token: Token, result: JobResult, now: int)
    requires Fenced(s) && Conserved(s) && Working(s, token) && s.runs[token].active > 0
    ensures Conserved(Next(s, Settle(token, result, now)))
  {
    var next := Next(s, Settle(token, result, now));
    CountAppend(s.inserted, Insertion(token, s.runs[token].epoch));
    ReportingConserves(s, token, next.runs[token], s.lock, next.inserted);
  }

  lemma BeginBatchConserves(s: State, token: Token, now: int)
    requires Fenced(s) && Conserved(s) && token in s.runs
    ensures Conserved(Next(s, BeginBatch(token, now)))
  {
    var next := Next(s, BeginBatch(token, now));
    if next.runs != s.runs && Owns(s.lock, token) {
      ReportingConserves(s, token, next.runs[token], Renewed(s.lock, token, now), s.inserted);
    }
  }

  lemma StepConserves(s: State, step: Step)
    requires Fenced(s) && Conserved(s)
    ensures Conserved(Next(s, step))
  {
    match step
    case Start(_, _) =>
      CountNone(s.inserted, s.issued);
    case Plan(token, jobs) =>
      if Next(s, step) != s {
        ReportingConserves(s, token, s.runs[token].(total := jobs), s.lock, s.inserted);
      }
    case BeginBatch(token, now) =>
      if token in s.runs { BeginBatchConserves(s, token, now); }
    case Settle(token, result, now) =>
      if Working(s, token) && s.runs[token].active > 0 { SettleConserves(s, token, result, now); }
    case _ =>
  }

  lemma {:induction false} RunKeepsInvariants(s: State, steps: seq<Step>)
    requires Fenced(s) && Conserved(s)
    ensures Fenced(Run(s, steps)) && Conserved(Run(s, steps)) && s.inserted <= Run(s, steps).inserted
    decreases |steps|
  {
    if |steps| > 0 {
      StepKeepsFence(s, steps[0]);
      StepConserves(s, steps[0]);
      RunKeepsInvariants(Next(s, steps[0]), steps[1..]);
    }
  }

  // ---------------------------------------------------------------------------
  // Main results.

  /** The only insertion there is: by the owner of an unexpired lock, in its own epoch. */
  lemma InsertedByOwner(s: State, step: Step)
    requires Fenced(s)
    ensures var next := Next(s, step);
      next.inserted == s.inserted
      || (&& step.Settle? && step.result.Drafted? && Holds(s.lock, step.token, step.now)
          && step.token in s.runs && s.runs[step.token].epoch == s.epoch
          && next.inserted == s.inserted + [Insertion(step.token, s.epoch)])
    ensures var next := Next(s, step);
      && s.issued <= next.issued && s.epoch <= next.epoch
      && forall token :: token in s.runs ==> token in next.runs && next.runs[token].epoch == s.runs[token].epoch
  {
  }

  /** A run that does not own the lock inserts nothing more, whatever happens next: its token never
      comes back, not by release, expiry, deletion of the row or its own renewals. */
  lemma {:induction false} DispossessedNeverInserts(s: State, steps: seq<Step>, token: Token)
    requires Fenced(s) && token < s.issued && !Owns(s.lock, token)
    ensures var end := Run(s, steps);
      && s.inserted <= end.inserted
      && forall i :: |s.inserted| <= i < |end.inserted| ==> end.inserted[i].token != token
    decreases |steps|
  {
    if |steps| > 0 {
      StepKeepsFence(s, steps[0]);
      InsertedByOwner(s, steps[0]);
      DispossessedNeverInserts(Next(s, steps[0]), steps[1..], token);
    }
  }

  /** Once a later token exists, however it came about, the earlier run inserts nothing. */
  lemma SupersededNeverInserts(s: State, steps: seq<Step>, early: Token)
    requires Fenced(s) && early + 1 < s.issued
    ensures var end := Run(s, steps);
      && s.inserted <= end.inserted
      && forall i :: |s.inserted| <= i < |end.inserted| ==> end.inserted[i].token != early
  {
    DispossessedNeverInserts(s, steps, early);
  }

  /** Nor does any run that began before a reset wiped the tables, be it in the reset's own new
      epoch. */
  lemma WipedNeverInserts(s: State, steps: seq<Step>, token: Token)
    requires Fenced(s) && token < s.issued
    ensures var wiped := Next(s, WipeTables);
      var end := Run(wiped, steps);
      && s.inserted <= end.inserted
      && forall i :: |s.inserted| <= i < |end.inserted| ==> end.inserted[i].token != token
  {
    StepKeepsFence(s, WipeTables);
    DispossessedNeverInserts(Next(s, WipeTables), steps, token);
  }

  ghost predicate Clean(s: State) {
    forall i :: 0 <= i < |s.drafts| ==> s.drafts[i].epoch == s.epoch
  }

  /** After the wipe, and until another reset begins, every draft in the table belongs to the
      current epoch. */
  lemma {:induction false} CleanUntilNextReset(s: State, steps: seq<Step>)
    requires Fenced(s) && Clean(s) && forall i :: 0 <= i < |steps| ==> !steps[i].AdvanceEpoch?
    ensures Clean(Run(s, steps)) && Run(s, steps).epoch == s.epoch
    decreases |steps|
  {
    if |steps| > 0 {
      StepKeepsFence(s, steps[0]);
      var next := Next(s, steps[0]);
      assert !steps[0].AdvanceEpoch? && Clean(next) && next.epoch == s.epoch;
      assert forall i :: 0 <= i < |steps| - 1 ==> steps[1..][i] == steps[i + 1];
      CleanUntilNextReset(next, steps[1..]);
    }
  }

  lemma WipedIsClean(s: State, steps: seq<Step>)
    requires Fenced(s) && forall i :: 0 <= i < |steps| ==> !steps[i].AdvanceEpoch?
    ensures Clean(Run(Next(s, WipeTables), steps))
  {
    StepKeepsFence(s, WipeTables);
    CleanUntilNextReset(Next(s, WipeTables), steps);
  }

  /** Nor does a run that started before a reset, from the moment the epoch advances. */
  lemma {:induction false} StaleEpochNeverInserts(s: State, steps: seq<Step>, token: Token)
    requires Fenced(s) && token in s.runs && s.runs[token].epoch < s.epoch
    ensures var end := Run(s, steps);
      && s.inserted <= end.inserted
      && forall i :: |s.inserted| <= i < |end.inserted| ==> end.inserted[i].token != token
    decreases |steps|
  {
    if |steps| > 0 {
      StepKeepsFence(s, steps[0]);
      InsertedByOwner(s, steps[0]);
      StaleEpochNeverInserts(Next(s, steps[0]), steps[1..], token);
    }
  }

  /** From the start: the inserted drafts come in whole runs, never interleaved, and each
      run's counters add up. */
  lemma EveryRunIsFenced(steps: seq<Step>, token: Token)
    ensures var end := Run(INITIAL, steps);
      && (forall i, j :: 0 <= i < j < |end.inserted| ==> end.inserted[i].token <= end.inserted[j].token)
      && (token in end.runs ==>
            var run := end.runs[token];
            && run.drafted == CountBy(end.inserted, token)
            && run.drafted + run.skipped + run.errored + run.active == run.next <= run.total)
  {
    assert INITIAL.runs == map[];
    forall t: Token ensures t in INITIAL.runs <==> t < INITIAL.issued { }
    RunKeepsInvariants(INITIAL, steps);
  }

  /** What a run does to a lock it does not own: nothing. */
  lemma StrangersLeaveLockAlone(s: State, step: Step, owner: Token)
    requires Fenced(s) && Owns(s.lock, owner)
    requires (step.Plan? || step.BeginBatch? || step.Heartbeat? || step.Settle? || step.Finish?) && step.token != owner
    ensures Next(s, step).lock == s.lock
  {
  }

  /** An owner that is not forced out, reset or finished keeps the lock, with a deadline no
      earlier, as long as the clock stays short of the deadline. */
  lemma {:induction false} UnforcedOwnerKeepsLock(s: State, steps: seq<Step>, owner: Token, deadline: int)
    requires Fenced(s) && Owns(s.lock, owner) && s.lock.value.until >= deadline
    requires owner in s.runs && s.runs[owner].epoch == s.epoch
    requires forall i :: 0 <= i < |steps| ==>
      match steps[i]
      case Start(force, now) => !force && now < deadline
      case BeginBatch(token, now) => now + LEASE_TTL_MS >= deadline
      case Heartbeat(token, now) => now + LEASE_TTL_MS >= deadline
      case Settle(_, _, _) => true
      case Plan(_, _) => true
      case Finish(token) => token != owner
      case AdvanceEpoch => false
      case WipeTables => false
    ensures Owns(Run(s, steps).lock, owner) && Run(s, steps).lock.value.until >= deadline
    decreases |steps|
  {
    if |steps| > 0 {
      StepKeepsFence(s, steps[0]);
      InsertedByOwner(s, steps[0]);
      assert forall i :: 0 <= i < |steps| - 1 ==> steps[1..][i] == steps[i + 1];
      UnforcedOwnerKeepsLock(Next(s, steps[0]), steps[1..], owner, deadline);
    }
  }

  // ---------------------------------------------------------------------------
  // What each block of a run does.

  /** The run still belongs in the queue: no reset since it began, and its lock is not lost. */
  predicate MayInsert(s: State, token: Token, now: int) {
    && token in s.runs && s.runs[token].epoch == s.epoch
    && s.lock.Some? && s.lock.value.owner == token && now < s.lock.value.until
  }

  /** A job that settles: its draft is inserted exactly when there is one and the run still belongs
      in the queue, and exactly one of the three counters rises. */
  lemma SettleInsertsIff(s: State, token: Token, result: JobResult, now: int)
    requires Working(s, token) && s.runs[token].active > 0
    ensures var next := Next(s, Settle(token, result, now));
      var run := s.runs[token];
      var row := [Insertion(token, s.epoch)];
      var inserts := result.Drafted? && MayInsert(s, token, now);
      && (next.inserted == s.inserted + row <==> inserts) && (next.inserted == s.inserted <==> !inserts)
      && (next.drafts == s.drafts + row <==> inserts) && (next.drafts == s.drafts <==> !inserts)
      && next.runs == s.runs[token := next.runs[token]]
      && next.runs[token] == run.(active := run.active - 1,
                                  drafted := run.drafted + if inserts then 1 else 0,
                                  skipped := run.skipped + if !inserts && !result.Threw? then 1 else 0,
                                  errored := run.errored + if result.Threw? then 1 else 0)
      && next.epoch == s.epoch && next.issued == s.issued
  {
    var next := Next(s, Settle(token, result, now));
    var row := [Insertion(token, s.epoch)];
    assert |s.inserted + row| == |s.inserted| + 1 && |s.drafts + row| == |s.drafts| + 1;
  }

  function Settles(token: Token, results: seq<JobResult>, now: int): seq<Step> {
    if |results| == 0 then [] else [Settle(token, results[0], now)] + Settles(token, results[1..], now)
  }

  function DraftedIn(results: seq<JobResult>): nat {
    if |results| == 0 then 0 else (if results[0].Drafted? then 1 else 0) + DraftedIn(results[1..])
  }

  /** A batch that settles while the run still belongs in the queue inserts all its drafts. */
  lemma {:induction false} BatchInsertsAll(s: State, token: Token, results: seq<JobResult>, now: int)
    requires Working(s, token) && MayInsert(s, token, now) && |results| <= s.runs[token].active
    ensures var end := Run(s, Settles(token, results, now));
      && s.inserted <= end.inserted && |end.inserted| == |s.inserted| + DraftedIn(results)
      && (forall i :: |s.inserted| <= i < |end.inserted| ==> end.inserted[i] == Insertion(token, s.epoch))
      && token in end.runs && end.runs[token].active == s.runs[token].active - |results|
    decreases |results|
  {
    if |results| > 0 {
      var step := Settle(token, results[0], now);
      SettleInsertsIff(s, token, results[0], now);
      assert ([step] + Settles(token, results[1..], now))[1..] == Settles(token, results[1..], now);
      BatchInsertsAll(Next(s, step), token, results[1..], now);
    }
  }

  /** A run begins exactly when nobody holds an unexpired lock or it is forced, with a fresh token,
      in the current epoch, and with the lock for the full term. */
  lemma StartIs(s: State, force: bool, now: int)
    requires Fenced(s)
    ensures var next := Next(s, Start(force, now));
      if s.lock.Some? && now < s.lock.value.until && !force then next == s
      else
        && s.issued !in s.runs && next.issued == s.issued + 1
        && next.lock == Some(Lock(now + LEASE_TTL_MS, s.issued, 0, 0, 0))
        && next.runs.Keys == s.runs.Keys + {s.issued}
        && (forall token :: token in s.runs ==> next.runs[token] == s.runs[token])
        && Working(next, s.issued) && next.runs[s.issued].epoch == s.epoch && next.runs[s.issued].total == 0
        && next.epoch == s.epoch && next.inserted == s.inserted && next.drafts == s.drafts
  {
  }

  /** A heartbeat of the owner moves its deadline to a full term from now, and anybody else's
      does nothing. */
  lemma HeartbeatIs(s: State, token: Token, now: int)
    requires Working(s, token) && s.runs[token].active > 0
    ensures var next := Next(s, Heartbeat(token, now));
      if s.lock.Some? && s.lock.value.owner == token
      then next == s.(lock := Some(s.lock.value.(until := now + LEASE_TTL_MS))) else next == s
  {
  }

  /** The top of the loop: with jobs left, a run that owns its lock, in its own epoch or before its
      first batch, renews the lock and hands out six jobs or what is left; any other run is over. */
  lemma BatchBegins(s: State, token: Token, now: int)
    requires Working(s, token) && s.runs[token].active == 0 && s.runs[token].next < s.runs[token].total
    ensures var next := Next(s, Step.BeginBatch(token, now));
      var run := s.runs[token];
      var goesOn := s.lock.Some? && s.lock.value.owner == token && (run.next == 0 || run.epoch == s.epoch);
      && token in next.runs && (next.runs[token].over <==> !goesOn)
      && (goesOn ==>
            && next.lock.Some? && next.lock.value.owner == token && next.lock.value.until == now + LEASE_TTL_MS
            && 0 < next.runs[token].active <= DRAFT_CONCURRENCY
            && (next.runs[token].active < DRAFT_CONCURRENCY ==> next.runs[token].next == run.total)
            && next.runs[token].next == run.next + next.runs[token].active <= run.total)
      && next.inserted == s.inserted && next.drafts == s.drafts && next.epoch == s.epoch
  {
  }

  /** A run that is over has given its lock back: the next one may start at once. */
  lemma FinishedRunFreesLock(s: State, token: Token, now: nat)
    requires Fenced(s) && Working(s, token) && s.runs[token].active == 0 && Owns(s.lock, token)
    ensures var finished := Next(s, Finish(token));
      && token in finished.runs && finished.runs[token].over
      && Next(finished, Start(false, now)).issued == s.issued + 1
  {
  }

  /** So is a run that was reset and finds out at the top of its loop. */
  lemma StoppedRunFreesLock(s: State, token: Token, began: int, now: nat)
    requires Fenced(s) && Working(s, token) && s.runs[token].active == 0 && Owns(s.lock, token)
    requires 0 < s.runs[token].next < s.runs[token].total && s.runs[token].epoch != s.epoch
    ensures Next(Next(s, Step.BeginBatch(token, began)), Start(false, now)).issued == s.issued + 1
  {
  }

  /** The plan is made once, and the lock shows its size. */
  lemma PlanIs(s: State, token: Token, jobs: nat)
    requires Working(s, token)
    ensures var next := Next(s, Plan(token, jobs));
      && token in next.runs
      && next.runs[token].total == (if s.runs[token].total == 0 then jobs else s.runs[token].total)
      && (s.runs[token].total == 0 && Owns(s.lock, token) ==> next.lock.Some? && next.lock.value.total == jobs)
      && next.inserted == s.inserted && next.drafts == s.drafts
  {
  }

  /** A reset takes the drafts and the lock, and with the epoch everything still in flight. */
  lemma ResetIs(s: State)
    ensures Next(s, AdvanceEpoch).epoch == s.epoch + 1 && Next(s, AdvanceEpoch).lock == s.lock
    ensures Next(s, WipeTables).drafts == [] && Next(s, WipeTables).lock.None?
    ensures Next(s, WipeTables).runs == s.runs && Next(s, WipeTables).epoch == s.epoch
  {
  }
}
