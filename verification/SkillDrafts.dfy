/** Skill drafts awaiting a click in Slack (`src/brain/skills/slack-drafts.ts`,
    `slack-interactions.ts`, and the sweep in `store.ts`). Draft ids and processing tokens
    are UUIDs: never issued twice. A crash is a claim that takes no further step. */
module SkillDrafts {
  import opened Prelude

  const RETENTION_MS := 86_400_000

  datatype Status = Pending | Processing | Created | Cancelled

  datatype Draft = Draft(status: Status, body: string, token: Option<nat>, createdAt: int, expiresAt: int)

  type Table = map<string, Draft>

  predicate Settled(status: Status) { status.Created? || status.Cancelled? }

  /** A settled draft drops the text it was carrying. */
  function SettledAs(draft: Draft, status: Status): Draft {
    draft.(status := status, token := None, body := "")
  }

  predicate Claimable(table: Table, id: string, now: int) {
    id in table && table[id].status.Pending? && table[id].expiresAt > now
  }

  function ClaimedBy(table: Table, id: string, token: nat): Table
    requires id in table
  {
    table[id := table[id].(status := Processing, token := Some(token))]
  }

  predicate OwnsClaim(table: Table, id: string, token: nat) {
    id in table && table[id].status.Processing? && table[id].token == Some(token)
  }

  predicate Stale(draft: Draft, now: int) {
    var before := now - RETENTION_MS;
    (Settled(draft.status) && draft.createdAt < before) || (!Settled(draft.status) && draft.expiresAt < before)
  }

  function Swept(table: Table, now: int): Table {
    map id | id in table && !Stale(table[id], now) :: table[id]
  }

  class DraftTable {
    var rows: Table

    constructor ()
      ensures rows == map[]
    {
      rows := map[];
    }

    method InsertPending(id: string, body: string, createdAt: int, expiresAt: int)
      modifies this
      ensures rows == if id in Swept(old(rows), createdAt) then Swept(old(rows), createdAt)
                      else Swept(old(rows), createdAt)[id := Draft(Pending, body, None, createdAt, expiresAt)]
    {
      Sweep(createdAt);
      if id !in rows {
        rows := rows[id := Draft(Pending, body, None, createdAt, expiresAt)];
      }
    }

    method Sweep(now: int)
      modifies this
      ensures rows == Swept(old(rows), now)
    {
      rows := map id | id in rows && !Stale(rows[id], now) :: rows[id];
    }

    /** One conditional write decides who owns the draft. */
    method Claim(id: string, token: nat, now: int) returns (draft: Option<Draft>)
      modifies this
      ensures draft.Some? <==> Claimable(old(rows), id, now)
      ensures draft.Some? ==> rows == ClaimedBy(old(rows), id, token) && draft.value == rows[id]
      ensures draft.None? ==> rows == old(rows)
    {
      if id in rows && rows[id].status == Pending && rows[id].expiresAt > now {
        rows := rows[id := rows[id].(status := Processing, token := Some(token))];
        return Some(rows[id]);
      }
      draft := None;
    }

    method Cancel(id: string) returns (changed: bool)
      modifies this
      ensures changed <==> id in old(rows) && old(rows)[id].status == Pending
      ensures rows == if changed then old(rows)[id := SettledAs(old(rows)[id], Cancelled)] else old(rows)
    {
      changed := id in rows && rows[id].status == Pending;
      if changed {
        rows := rows[id := SettledAs(rows[id], Cancelled)];
      }
    }

    /** `finishClaimedSkillDraft` with `Created`, `failClaimedSkillDraft` with `Cancelled`. */
    method SettleClaim(id: string, token: nat, status: Status) returns (changed: bool)
      requires Settled(status)
      modifies this
      ensures changed <==> OwnsClaim(old(rows), id, token)
      ensures rows == if changed then old(rows)[id := SettledAs(old(rows)[id], status)] else old(rows)
    {
      changed := id in rows && rows[id].status == Processing && rows[id].token == Some(token);
      if changed {
        rows := rows[id := SettledAs(rows[id], status)];
      }
    }
  }

  // ---------------------------------------------------------------------------
  // Interleaved clicks.

  /** How saving the skill goes: it may also be saved and then fail in its side effects. */
  datatype Saving = Saved | SavedThenThrew | Rejected

  datatype Phase = Won | SkillMade | SkillFailed | Over

  datatype Click = Click(id: string, phase: Phase)

  /** `used` are the ids ever inserted; a click that won its claim is known by its token;
      `skills` lists, for every skill made, the draft it came from. */
  datatype State = State(rows: Table, used: set<string>, clicks: map<nat, Click>, skills: seq<string>)

  datatype Step =
    | Insert(id: string, body: string, createdAt: int, expiresAt: int)
    | ClaimStep(id: string, token: nat, now: int)
    | Save(token: nat, saving: Saving)
    | SettleStep(token: nat)
    | CancelStep(id: string)
    | Delete(id: string)
    | SweepStep(now: int)

  function Next(s: State, step: Step): State {
    match step
    case Insert(id, body, createdAt, expiresAt) =>
      var swept := Swept(s.rows, createdAt);
      if id in s.used then s
      else s.(rows := swept[id := Draft(Pending, body, None, createdAt, expiresAt)], used := s.used + {id})
    case ClaimStep(id, token, now) =>
      if token in s.clicks || !Claimable(s.rows, id, now) then s
      else s.(rows := ClaimedBy(s.rows, id, token), clicks := s.clicks[token := Click(id, Won)])
    case Save(token, saving) =>
      if token !in s.clicks || s.clicks[token].phase != Won then s
      else
        var id := s.clicks[token].id;
        s.(skills := if saving.Rejected? then s.skills else s.skills + [id],
           clicks := s.clicks[token := Click(id, if saving.Saved? then SkillMade else SkillFailed)])
    case SettleStep(token) =>
      if token !in s.clicks || s.clicks[token].phase == Won || s.clicks[token].phase == Over then s
      else
        var click := s.clicks[token];
        var status := if click.phase == SkillMade then Created else Cancelled;
        s.(rows := if OwnsClaim(s.rows, click.id, token)
                   then s.rows[click.id := SettledAs(s.rows[click.id], status)] else s.rows,
           clicks := s.clicks[token := click.(phase := Over)])
    case CancelStep(id) =>
      if id in s.rows && s.rows[id].status.Pending? then s.(rows := s.rows[id := SettledAs(s.rows[id], Cancelled)])
      else s
    case Delete(id) => s.(rows := s.rows - {id})
    case SweepStep(now) => s.(rows := Swept(s.rows, now))
  }

  const INITIAL := State(map[], {}, map[], [])

  function Run(s: State, steps: seq<Step>): State
    decreases |steps|
  {
    if |steps| == 0 then s else Run(Next(s, steps[0]), steps[1..])
  }

  // ---------------------------------------------------------------------------

  ghost predicate Sound(s: State) {
    RowsSound(s) && ClicksSound(s) && SkillsSound(s)
  }

  /** The row in processing belongs to the click that won it. */
  ghost predicate RowsSound(s: State) {
    && s.rows.Keys <= s.used
    && (forall id :: id in s.rows ==> RowSound(s.rows[id]))
    && (forall id :: id in s.rows && s.rows[id].status.Processing? ==>
          s.rows[id].token.value in s.clicks && s.clicks[s.rows[id].token.value].id == id
          && s.clicks[s.rows[id].token.value].phase != Over)
  }

  /** A draft that was ever claimed is no longer pending, and was claimed once. */
  ghost predicate ClicksSound(s: State) {
    && (forall token :: token in s.clicks ==>
          s.clicks[token].id in s.used
          && (s.clicks[token].id in s.rows ==> !s.rows[s.clicks[token].id].status.Pending?))
    && (forall t, u :: t in s.clicks && u in s.clicks && t != u ==> s.clicks[t].id != s.clicks[u].id)
  }

  /** Skills come one per draft, from clicks that got past saving. */
  ghost predicate SkillsSound(s: State) {
    && (forall id :: id in s.skills ==> Backed(s.clicks, id))
    && (forall i, j :: 0 <= i < j < |s.skills| ==> s.skills[i] != s.skills[j])
    && (forall id :: id in s.rows && s.rows[id].status.Created? ==> id in s.skills)
    && (forall token :: token in s.clicks && s.clicks[token].phase == SkillMade ==> s.clicks[token].id in s.skills)
  }

  /** Some click got past saving a skill from this draft. */
  ghost predicate Backed(clicks: map<nat, Click>, id: string) {
    exists token :: token in clicks && clicks[token].id == id && clicks[token].phase != Won
  }

  predicate RowSound(row: Draft) {
    && (row.status.Processing? <==> row.token.Some?)
    && (Settled(row.status) ==> row.body == "")
  }

  lemma SaveIsSound(s: State, token: nat, saving: Saving)
    requires Sound(s) && token in s.clicks && s.clicks[token].phase == Won
    ensures Sound(Next(s, Save(token, saving)))
  {
    var next := Next(s, Save(token, saving));
    assert RowsSound(next);
    assert ClicksSound(next);
    SaveSkills(s, token, saving);
  }

  lemma SaveSkills(s: State, token: nat, saving: Saving)
    requires ClicksSound(s) && SkillsSound(s) && token in s.clicks && s.clicks[token].phase == Won
    ensures SkillsSound(Next(s, Save(token, saving)))
  {
    var next := Next(s, Save(token, saving));
    var id := s.clicks[token].id;
    assert !Backed(s.clicks, id);
    assert Backed(next.clicks, id) by { assert next.clicks[token].id == id; }
    StillBacked(s, next.clicks);
    forall other | other in next.skills ensures Backed(next.clicks, other) {
      assert other in s.skills || other == id;
    }
  }

  lemma StillBacked(s: State, clicks: map<nat, Click>)
    requires forall t :: t in s.clicks ==>
      t in clicks && clicks[t].id == s.clicks[t].id && (s.clicks[t].phase != Won ==> clicks[t].phase != Won)
    ensures forall id :: Backed(s.clicks, id) ==> Backed(clicks, id)
  {
    forall id | Backed(s.clicks, id) ensures Backed(clicks, id) {
      var t :| t in s.clicks && s.clicks[t].id == id && s.clicks[t].phase != Won;
      assert t in clicks;
    }
  }

  lemma ClaimIsSound(s: State, id: string, token: nat, now: int)
    requires Sound(s)
    ensures Sound(Next(s, ClaimStep(id, token, now)))
  {
    var next := Next(s, ClaimStep(id, token, now));
    StillBacked(s, next.clicks);
    assert RowsSound(next);
    assert SkillsSound(next);
  }

  lemma SettleRows(s: State, token: nat)
    requires RowsSound(s)
    ensures RowsSound(Next(s, SettleStep(token)))
  {
  }

  lemma SettleIsSound(s: State, token: nat)
    requires Sound(s)
    ensures Sound(Next(s, SettleStep(token)))
  {
    SettleRows(s, token);
    StillBacked(s, Next(s, SettleStep(token)).clicks);
  }

  lemma StepIsSound(s: State, step: Step)
    requires Sound(s)
    ensures Sound(Next(s, step))
  {
    match step
    case ClaimStep(id, token, now) => ClaimIsSound(s, id, token, now);
    case Save(token, saving) =>
      if token in s.clicks && s.clicks[token].phase == Won { SaveIsSound(s, token, saving); }
    case SettleStep(token) => SettleIsSound(s, token);
    case _ =>
  }

  lemma {:induction false} RunIsSound(s: State, steps: seq<Step>)
    requires Sound(s)
    ensures Sound(Run(s, steps))
    decreases |steps|
  {
    if |steps| > 0 {
      StepIsSound(s, steps[0]);
      RunIsSound(Next(s, steps[0]), steps[1..]);
    }
  }

  /** However clicks, retries, cancels, sweeps and crashes interleave: no draft yields two
      skills, no draft is claimed by two clicks, a draft marked created has its skill, and
      a settled draft keeps no body. */
  lemma EachDraftAtMostOneSkill(steps: seq<Step>)
    ensures var s := Run(INITIAL, steps);
      && (forall i, j :: 0 <= i < j < |s.skills| ==> s.skills[i] != s.skills[j])
      && (forall t, u :: t in s.clicks && u in s.clicks && t != u ==> s.clicks[t].id != s.clicks[u].id)
      && (forall id :: id in s.rows && s.rows[id].status.Created? ==> id in s.skills)
      && (forall id :: id in s.rows && Settled(s.rows[id].status) ==> s.rows[id].body == "")
  {
    RunIsSound(INITIAL, steps);
  }

  /** A row that stays only moves forward: pending to processing or cancelled, processing to
      created or cancelled by its own token, settled not at all. */
  predicate Forward(before: Draft, after: Draft, step: Step) {
    after == before
    || (before.status.Pending? && after.status.Processing? && after.body == before.body)
    || (before.status.Pending? && after == SettledAs(before, Cancelled))
    || (before.status.Processing? && step.SettleStep? && before.token == Some(step.token)
        && (after == SettledAs(before, Created) || after == SettledAs(before, Cancelled)))
  }

  lemma StepIsForward(s: State, step: Step, id: string)
    requires Sound(s) && id in s.rows && id in Next(s, step).rows
    ensures Forward(s.rows[id], Next(s, step).rows[id], step)
  {
  }

  function Rank(status: Status): nat {
    match status case Pending => 0 case Processing => 1 case _ => 2
  }

  lemma StepRanks(s: State, step: Step, id: string)
    requires Sound(s) && id in s.used && id in Next(s, step).rows
    ensures id in s.rows
    ensures Rank(s.rows[id].status) <= Rank(Next(s, step).rows[id].status)
    ensures Settled(s.rows[id].status) ==> Next(s, step).rows[id] == s.rows[id]
  {
    StepIsForward(s, step, id);
  }

  /** Over a whole run a row never goes back, and once settled it is frozen until swept. */
  lemma {:induction false} RunIsForward(s: State, steps: seq<Step>, id: string)
    requires Sound(s) && id in s.used
    requires id in Run(s, steps).rows
    ensures id in s.rows
    ensures Rank(s.rows[id].status) <= Rank(Run(s, steps).rows[id].status)
    ensures Settled(s.rows[id].status) ==> Run(s, steps).rows[id] == s.rows[id]
    decreases |steps|
  {
    if |steps| > 0 {
      StepIsSound(s, steps[0]);
      assert id in Next(s, steps[0]).used;
      RunIsForward(Next(s, steps[0]), steps[1..], id);
      StepRanks(s, steps[0], id);
    }
  }

  // ---------------------------------------------------------------------------
  // What each block does.

  ghost predicate OthersSame(before: Table, after: Table, id: string) {
    forall other :: other != id ==>
      (other in after <==> other in before) && (other in before ==> after[other] == before[other])
  }

  /** A click wins exactly a draft that is pending and not yet expired; it then holds it under its
      token, with the text it had. */
  lemma ClickWinsIff(s: State, id: string, token: nat, now: int)
    requires token !in s.clicks
    ensures var next := Next(s, ClaimStep(id, token, now));
      && (token in next.clicks <==> id in s.rows && s.rows[id].status.Pending? && now < s.rows[id].expiresAt)
      && OthersSame(s.rows, next.rows, id) && next.skills == s.skills
      && if token in next.clicks
         then
           && next.clicks == s.clicks[token := Click(id, Won)]
           && id in next.rows && next.rows[id].status == Processing && next.rows[id].token == Some(token)
           && next.rows[id].body == s.rows[id].body && next.rows[id].expiresAt == s.rows[id].expiresAt
         else next == s
  {
  }

  /** Nobody has claimed the draft; if its row is there, it is settled, or pending until `expiry`. */
  ghost predicate Unclaimed(s: State, id: string, expiry: int) {
    && id in s.used && (forall token :: token in s.clicks ==> s.clicks[token].id != id)
    && (id in s.rows ==> Settled(s.rows[id].status) || (s.rows[id].status.Pending? && s.rows[id].expiresAt == expiry))
  }

  lemma UnclaimedStays(s: State, step: Step, id: string, expiry: int)
    requires Unclaimed(s, id, expiry) && (step.ClaimStep? && step.id == id ==> step.now >= expiry)
    ensures Unclaimed(Next(s, step), id, expiry)
  {
  }

  /** Once a pending draft has expired no click wins it any more. */
  lemma {:induction false} ExpiredStaysUnclaimed(s: State, steps: seq<Step>, id: string, expiry: int)
    requires Unclaimed(s, id, expiry)
    requires forall i :: 0 <= i < |steps| && steps[i].ClaimStep? && steps[i].id == id ==> steps[i].now >= expiry
    ensures Unclaimed(Run(s, steps), id, expiry)
    decreases |steps|
  {
    if |steps| > 0 {
      UnclaimedStays(s, steps[0], id, expiry);
      assert forall i :: 0 <= i < |steps| - 1 ==> steps[1..][i] == steps[i + 1];
      ExpiredStaysUnclaimed(Next(s, steps[0]), steps[1..], id, expiry);
    }
  }

  /** A sweep keeps settled drafts for a day after they were made and open ones for a day after they
      expired, and changes none. */
  lemma SweepIs(s: State, now: int)
    ensures var next := Next(s, SweepStep(now));
      && next.clicks == s.clicks && next.skills == s.skills && next.used == s.used
      && forall id ::
           && (id in next.rows <==>
                 id in s.rows
                 && now <= 86_400_000 + if s.rows[id].status.Created? || s.rows[id].status.Cancelled?
                                        then s.rows[id].createdAt else s.rows[id].expiresAt)
           && (id in next.rows ==> next.rows[id] == s.rows[id])
  {
  }

  /** A new draft is pending with its text, and inserting it sweeps the others. */
  lemma InsertIs(s: State, id: string, body: string, createdAt: int, expiresAt: int)
    requires id !in s.used
    ensures var next := Next(s, Insert(id, body, createdAt, expiresAt));
      && id in next.rows && next.rows[id] == Draft(Pending, body, None, createdAt, expiresAt)
      && OthersSame(Next(s, SweepStep(createdAt)).rows, next.rows, id)
      && id in next.used && next.clicks == s.clicks && next.skills == s.skills
  {
  }

  /** Saving makes one skill of the draft unless it is rejected, whatever goes wrong afterwards. */
  lemma SaveMakesSkill(s: State, token: nat, saving: Saving)
    requires token in s.clicks && s.clicks[token].phase == Won
    ensures var next := Next(s, Save(token, saving));
      && next.skills == (if saving == Rejected then s.skills else s.skills + [s.clicks[token].id])
      && next.rows == s.rows && token in next.clicks && next.clicks[token].id == s.clicks[token].id
      && next.clicks[token].phase == (if saving == Saved then SkillMade else SkillFailed)
  {
  }

  /** The click that holds the draft settles it, as created exactly if its saving went well. */
  lemma SettlingIs(s: State, token: nat)
    requires Sound(s) && token in s.clicks && s.clicks[token].phase in {SkillMade, SkillFailed}
    ensures var next := Next(s, SettleStep(token));
      var id := s.clicks[token].id;
      && OthersSame(s.rows, next.rows, id) && next.skills == s.skills
      && token in next.clicks && next.clicks[token].phase == Over
      && (id in s.rows && s.rows[id].token == Some(token) ==>
            && id in next.rows && next.rows[id].body == "" && next.rows[id].token.None?
            && next.rows[id].status == if s.clicks[token].phase == SkillMade then Created else Cancelled)
      && (!(id in s.rows && s.rows[id].token == Some(token)) ==> next.rows == s.rows)
  {
  }

  /** Cancelling settles a pending draft and no other. */
  lemma CancelIs(s: State, id: string)
    ensures var next := Next(s, CancelStep(id));
      && OthersSame(s.rows, next.rows, id) && next.clicks == s.clicks && next.skills == s.skills
      && (id in next.rows <==> id in s.rows)
      && (id in s.rows ==>
            if s.rows[id].status.Pending?
            then next.rows[id].status == Cancelled && next.rows[id].body == "" && next.rows[id].token.None?
            else next.rows[id] == s.rows[id])
  {
  }
}
