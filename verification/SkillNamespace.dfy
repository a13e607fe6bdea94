/** The skill namespace (`src/brain/skills/store.ts`, `validation.ts`): names, scopes, caps
    and optimistic versions. `norm` stands for `normalizeSkillName` (trimming, whitespace,
    locale lower case); rows are kept newest update first, as the store lists them. */
module SkillNamespace {
  import opened Prelude

  const ORG_SKILL_CAP := 100
  const PERSONAL_SKILL_CAP := 25

  datatype Scope = Personal | Org

  datatype Row = Row(id: string, name: string, body: string, scope: Scope, active: bool, creator: string, version: nat)

  /** `wellFormed` is the outcome of the length and presence checks. */
  datatype Input = Input(name: string, body: string, scope: Scope, wellFormed: bool)

  datatype Actor = Actor(userId: string, isAdmin: bool)

  datatype Error = InvalidInput | NameConflict | OrgLimit | PersonalLimit | Forbidden | NotFound | VersionConflict

  type Norm = string -> string

  // ---------------------------------------------------------------------------
  // Validation against the other rows.

  /** A personal name must clear the organisation's names and its creator's; an org name
      only the organisation's, so that no private name is disclosed. */
  predicate CollidesWith(row: Row, scope: Scope, creator: string) {
    row.scope == Org || (scope == Personal && row.creator == creator)
  }

  predicate NameTaken(norm: Norm, rows: seq<Row>, input: Input, creator: string, excludeId: Option<string>) {
    exists i :: 0 <= i < |rows| && Some(rows[i].id) != excludeId
             && CollidesWith(rows[i], input.scope, creator) && norm(rows[i].name) == norm(input.name)
  }

  function CountOrg(rows: seq<Row>, excludeId: Option<string>): nat {
    if |rows| == 0 then 0
    else (if rows[0].scope == Org && Some(rows[0].id) != excludeId then 1 else 0) + CountOrg(rows[1..], excludeId)
  }

  predicate PersonalOf(row: Row, creator: string) {
    row.scope == Personal && row.creator == creator
  }

  function CountPersonal(rows: seq<Row>, creator: string, excludeId: Option<string>): nat {
    if |rows| == 0 then 0
    else
      var here := if PersonalOf(rows[0], creator) && Some(rows[0].id) != excludeId then 1 else 0;
      here + CountPersonal(rows[1..], creator, excludeId)
  }

  function Validate(norm: Norm, rows: seq<Row>, input: Input, creator: string,
          excludeId: Option<string>): Option<Error> {
    if !input.wellFormed then Some(InvalidInput)
    else if NameTaken(norm, rows, input, creator, excludeId) then Some(NameConflict)
    else if input.scope == Org && CountOrg(rows, excludeId) >= ORG_SKILL_CAP then Some(OrgLimit)
    else if input.scope == Personal && CountPersonal(rows, creator, excludeId) >= PERSONAL_SKILL_CAP
    then Some(PersonalLimit)
    else None
  }

  // ---------------------------------------------------------------------------
  // The three operations, on values.

  function Find(rows: seq<Row>, id: string): Option<Row> {
    if |rows| == 0 then None else if rows[0].id == id then Some(rows[0]) else Find(rows[1..], id)
  }

  function Without(rows: seq<Row>, id: string): seq<Row> {
    if |rows| == 0 then []
    else (if rows[0].id == id then [] else [rows[0]]) + Without(rows[1..], id)
  }

  function CreateOutcome(norm: Norm, rows: seq<Row>, input: Input, actor: Actor, id: string): Result<Row, Error> {
    if !input.wellFormed then Err(InvalidInput)
    else if input.scope == Org && !actor.isAdmin then Err(Forbidden)
    else
      var problem := Validate(norm, rows, input, actor.userId, None);
      if problem.Some? then Err(problem.value)
      else Ok(Row(id, input.name, input.body, input.scope, true, actor.userId, 1))
  }

  predicate CanManage(row: Row, actor: Actor) {
    && !(row.scope == Personal && row.creator != actor.userId)
    && !(row.scope == Org && !actor.isAdmin)
  }

  function UpdateOutcome(norm: Norm, rows: seq<Row>, id: string, input: Input, actor: Actor,
          expected: nat): Result<Row, Error> {
    var existing := Find(rows, id);
    if existing.None? then Err(NotFound)
    else if !CanManage(existing.value, actor) then Err(Forbidden)
    else if existing.value.version != expected then Err(VersionConflict)
    else if !input.wellFormed then Err(InvalidInput)
    else if input.scope == Org && !actor.isAdmin then Err(Forbidden)
    else if input.scope == Personal && existing.value.creator != actor.userId then Err(Forbidden)
    else
      var problem := Validate(norm, rows, input, existing.value.creator, Some(id));
      if problem.Some? then Err(problem.value)
      else Ok(existing.value.(name := input.name, body := input.body, scope := input.scope, active := true,
                              version := expected + 1))
  }

  function DeleteProblem(rows: seq<Row>, id: string, actor: Actor, expected: nat): Option<Error> {
    var existing := Find(rows, id);
    if existing.None? then None
    else if !CanManage(existing.value, actor) then Some(Forbidden)
    else if existing.value.version != expected then Some(VersionConflict)
    else None
  }

  datatype RuntimeSkill = RuntimeSkill(id: string, name: string, body: string)

  /** The first pass of the listing: the viewer's own active skills and the organisation's. */
  method Candidates(rows: seq<Row>, userId: Option<string>) returns (personal: seq<RuntimeSkill>,
          org: seq<RuntimeSkill>)
    ensures personal == OwnPersonal(rows, userId) && org == ActiveOrg(rows)
  {
    personal, org := [], [];
    var i := 0;
    while i < |rows|
      invariant 0 <= i <= |rows| && ListedUpTo(rows, i, userId, personal, org)
    {
      var row := rows[i];
      NextRowListed(rows, i, userId, personal, org);
      if row.active {
        if row.scope == Org {
          org := org + [Runtime(row)];
        } else if userId.Some? && row.creator == userId.value {
          personal := personal + [Runtime(row)];
        }
      }
      i := i + 1;
    }
    assert rows[..i] == rows;
  }

  class SkillStore {
    const norm: Norm
    const system: seq<RuntimeSkill>
    var rows: seq<Row>

    constructor (norm: Norm, system: seq<RuntimeSkill>)
      ensures this.norm == norm && this.system == system && rows == []
    {
      this.norm, this.system := norm, system;
      rows := [];
    }

    /** `id` is a new UUID. */
    method Create(input: Input, actor: Actor, id: string) returns (r: Result<Row, Error>)
      modifies this
      ensures r == CreateOutcome(norm, old(rows), input, actor, id)
      ensures rows == if r.Ok? then [r.value] + old(rows) else old(rows)
    {
      if !input.wellFormed { return Err(InvalidInput); }
      if input.scope == Org && !actor.isAdmin { return Err(Forbidden); }
      var problem := Validate(norm, rows, input, actor.userId, None);
      if problem.Some? { return Err(problem.value); }
      var row := Row(id, input.name, input.body, input.scope, true, actor.userId, 1);
      rows := [row] + rows;
      r := Ok(row);
    }

    method Update(id: string, input: Input, actor: Actor, expected: nat) returns (r: Result<Row, Error>)
      modifies this
      ensures r == UpdateOutcome(norm, old(rows), id, input, actor, expected)
      ensures rows == if r.Ok? then [r.value] + Without(old(rows), id) else old(rows)
    {
      var existing := Find(rows, id);
      if existing.None? { return Err(NotFound); }
      var row := existing.value;
      if row.scope == Personal && row.creator != actor.userId { return Err(Forbidden); }
      if row.scope == Org && !actor.isAdmin { return Err(Forbidden); }
      if row.version != expected { return Err(VersionConflict); }
      if !input.wellFormed { return Err(InvalidInput); }
      if input.scope == Org && !actor.isAdmin { return Err(Forbidden); }
      if input.scope == Personal && row.creator != actor.userId { return Err(Forbidden); }
      var problem := Validate(norm, rows, input, row.creator, Some(id));
      if problem.Some? { return Err(problem.value); }
      var saved := row.(name := input.name, body := input.body, scope := input.scope, active := true,
                        version := expected + 1);
      rows := [saved] + Without(rows, id);
      r := Ok(saved);
    }

    method Delete(id: string, actor: Actor, expected: nat) returns (problem: Option<Error>)
      modifies this
      ensures problem == DeleteProblem(old(rows), id, actor, expected)
      ensures rows == if problem.None? then Without(old(rows), id) else old(rows)
    {
      var existing := Find(rows, id);
      if existing.None? {
        NothingToRemove(rows, id);
        return None;
      }
      if !CanManage(existing.value, actor) { return Some(Forbidden); }
      if existing.value.version != expected { return Some(VersionConflict); }
      rows := Without(rows, id);
      problem := None;
    }

    /** The viewer's list: system skills, then own personal ones, then org ones, each name
        going to the first that holds it. */
    method ListVisible(userId: Option<string>) returns (r: seq<RuntimeSkill>)
      ensures r == Visible(norm, system, rows, userId)
    {
      var personal, org := Candidates(rows, userId);
      var claimed := NamesOf(norm, system);
      var visiblePersonal := Unclaimed(norm, personal, claimed);
      claimed := claimed + NamesOf(norm, visiblePersonal);
      r := system + visiblePersonal + Unclaimed(norm, org, claimed);
    }

    method LoadByName(userId: Option<string>, name: string) returns (r: Option<RuntimeSkill>)
      ensures r == FirstNamed(norm, Visible(norm, system, rows, userId), name)
    {
      var listed := ListVisible(userId);
      r := FirstNamed(norm, listed, name);
    }
  }

  // ---------------------------------------------------------------------------
  // What a viewer sees.

  function Runtime(row: Row): RuntimeSkill {
    RuntimeSkill(row.id, row.name, row.body)
  }

  function OwnPersonal(rows: seq<Row>, userId: Option<string>): seq<RuntimeSkill> {
    if |rows| == 0 then [] else OwnHere(rows[0], userId) + OwnPersonal(rows[1..], userId)
  }

  function OwnHere(row: Row, userId: Option<string>): seq<RuntimeSkill> {
    if row.active && row.scope == Personal && Some(row.creator) == userId then [Runtime(row)] else []
  }

  function OrgHere(row: Row): seq<RuntimeSkill> {
    if row.active && row.scope == Org then [Runtime(row)] else []
  }

  ghost predicate ListedUpTo(rows: seq<Row>, i: nat, userId: Option<string>, personal: seq<RuntimeSkill>,
          org: seq<RuntimeSkill>)
    requires i <= |rows|
  {
    personal == OwnPersonal(rows[..i], userId) && org == ActiveOrg(rows[..i])
  }

  lemma {:induction false} ListedConcat(a: seq<Row>, row: Row, userId: Option<string>)
    ensures OwnPersonal(a + [row], userId) == OwnPersonal(a, userId) + OwnHere(row, userId)
    ensures ActiveOrg(a + [row]) == ActiveOrg(a) + OrgHere(row)
  {
    if |a| > 0 {
      ListedConcat(a[1..], row, userId);
      assert (a + [row])[1..] == a[1..] + [row];
    }
  }

  lemma NextRowListed(rows: seq<Row>, i: nat, userId: Option<string>, personal: seq<RuntimeSkill>,
          org: seq<RuntimeSkill>)
    requires i < |rows| && ListedUpTo(rows, i, userId, personal, org)
    ensures var row := rows[i];
      && (row.active && row.scope == Org ==> ListedUpTo(rows, i + 1, userId, personal, org + [Runtime(row)]))
      && (row.active && row.scope == Personal && Some(row.creator) == userId ==>
            ListedUpTo(rows, i + 1, userId, personal + [Runtime(row)], org))
      && (!row.active || (row.scope == Personal && Some(row.creator) != userId) ==>
            ListedUpTo(rows, i + 1, userId, personal, org))
  {
    ListedConcat(rows[..i], rows[i], userId);
    assert rows[..i + 1] == rows[..i] + [rows[i]];
  }

  function ActiveOrg(rows: seq<Row>): seq<RuntimeSkill> {
    if |rows| == 0 then [] else OrgHere(rows[0]) + ActiveOrg(rows[1..])
  }

  function NamesOf(norm: Norm, skills: seq<RuntimeSkill>): set<string> {
    set k | 0 <= k < |skills| :: norm(skills[k].name)
  }

  function Unclaimed(norm: Norm, skills: seq<RuntimeSkill>, claimed: set<string>): seq<RuntimeSkill> {
    if |skills| == 0 then []
    else (if norm(skills[0].name) in claimed then [] else [skills[0]]) + Unclaimed(norm, skills[1..], claimed)
  }

  function Visible(norm: Norm, system: seq<RuntimeSkill>, rows: seq<Row>, userId: Option<string>): seq<RuntimeSkill> {
    var claimed := NamesOf(norm, system);
    var personal := Unclaimed(norm, OwnPersonal(rows, userId), claimed);
    system + personal + Unclaimed(norm, ActiveOrg(rows), claimed + NamesOf(norm, personal))
  }

  function FirstNamed(norm: Norm, skills: seq<RuntimeSkill>, name: string): Option<RuntimeSkill> {
    if |skills| == 0 then None
    else if norm(skills[0].name) == norm(name) then Some(skills[0])
    else FirstNamed(norm, skills[1..], name)
  }

  // ---------------------------------------------------------------------------
  // The invariant of the table.

  ghost predicate SameNamespace(a: Row, b: Row) {
    (a.scope == Org && b.scope == Org) || (a.scope == Personal && b.scope == Personal && a.creator == b.creator)
  }

  ghost predicate Distinct(norm: Norm, rows: seq<Row>) {
    && (forall i, j :: 0 <= i < j < |rows| ==> rows[i].id != rows[j].id)
    && (forall i, j :: 0 <= i < j < |rows| && SameNamespace(rows[i], rows[j]) ==>
         norm(rows[i].name) != norm(rows[j].name))
  }

  ghost predicate WellNamed(norm: Norm, rows: seq<Row>) {
    && Distinct(norm, rows)
    && CountOrg(rows, None) <= ORG_SKILL_CAP
    && (forall creator :: CountPersonal(rows, creator, None) <= PERSONAL_SKILL_CAP)
  }

  lemma {:induction false} NothingToRemove(rows: seq<Row>, id: string)
    requires Find(rows, id).None?
    ensures Without(rows, id) == rows
  {
    if |rows| > 0 {
      NothingToRemove(rows[1..], id);
    }
  }

  /** Removing a row keeps the order of the others. */
  lemma {:induction false} WithoutKeeps(rows: seq<Row>, id: string)
    ensures forall row :: row in Without(rows, id) <==> row in rows && row.id != id
    ensures CountOrg(Without(rows, id), None) == CountOrg(rows, Some(id))
    ensures forall creator :: CountPersonal(Without(rows, id), creator, None) == CountPersonal(rows, creator, Some(id))
  {
    if |rows| > 0 {
      var rest := Without(rows[1..], id);
      WithoutKeeps(rows[1..], id);
      assert rows == [rows[0]] + rows[1..];
      if rows[0].id == id {
        assert Without(rows, id) == rest;
      } else {
        assert Without(rows, id) == [rows[0]] + rest;
        assert ([rows[0]] + rest)[1..] == rest;
      }
    }
  }

  lemma {:induction false} CountsShrink(rows: seq<Row>, id: Option<string>)
    ensures CountOrg(rows, id) <= CountOrg(rows, None)
    ensures forall creator :: CountPersonal(rows, creator, id) <= CountPersonal(rows, creator, None)
  {
    if |rows| > 0 {
      CountsShrink(rows[1..], id);
    }
  }

  lemma {:induction false} WithoutIsWellNamed(norm: Norm, rows: seq<Row>, id: string)
    requires WellNamed(norm, rows)
    ensures WellNamed(norm, Without(rows, id))
  {
    WithoutDistinct(norm, rows, id);
    WithoutKeeps(rows, id);
    CountsShrink(rows, Some(id));
  }

  lemma {:induction false} WithoutDistinct(norm: Norm, rows: seq<Row>, id: string)
    requires Distinct(norm, rows)
    ensures Distinct(norm, Without(rows, id))
  {
    if |rows| > 0 {
      WithoutDistinct(norm, rows[1..], id);
      WithoutKeeps(rows[1..], id);
      if rows[0].id != id {
        PrependIsDistinct(norm, rows[0], Without(rows[1..], id));
      }
    }
  }

  lemma PrependIsDistinct(norm: Norm, row: Row, rows: seq<Row>)
    requires Distinct(norm, rows)
    requires forall other :: other in rows ==> other.id != row.id
    requires forall other :: other in rows && SameNamespace(row, other) ==> norm(row.name) != norm(other.name)
    ensures Distinct(norm, [row] + rows)
  {
  }

  /** A row that validation let through may be put in front. */
  lemma AdmittedIsWellNamed(norm: Norm, rows: seq<Row>, row: Row, input: Input)
    requires WellNamed(norm, rows) && row.name == input.name && row.scope == input.scope
    requires Validate(norm, rows, input, row.creator, Some(row.id)).None?
    requires forall other :: other in rows ==> other.id != row.id
    ensures WellNamed(norm, [row] + rows)
  {
    PrependIsDistinct(norm, row, rows) by {
      forall other | other in rows && SameNamespace(row, other) ensures norm(row.name) != norm(other.name) {
        var i :| 0 <= i < |rows| && rows[i] == other;
        assert CollidesWith(rows[i], input.scope, row.creator);
      }
    }
    NotExcluded(rows, row.id);
    assert ([row] + rows)[1..] == rows;
  }

  lemma {:induction false} NotExcluded(rows: seq<Row>, id: string)
    requires forall row :: row in rows ==> row.id != id
    ensures CountOrg(rows, Some(id)) == CountOrg(rows, None)
    ensures forall creator :: CountPersonal(rows, creator, Some(id)) == CountPersonal(rows, creator, None)
  {
    if |rows| > 0 {
      assert forall row :: row in rows[1..] ==> row in rows;
      NotExcluded(rows[1..], id);
    }
  }

  lemma {:induction false} FindIsThere(rows: seq<Row>, id: string)
    ensures Find(rows, id).Some? ==> Find(rows, id).value in rows && Find(rows, id).value.id == id
    ensures Find(rows, id).None? ==> forall row :: row in rows ==> row.id != id
  {
    if |rows| > 0 {
      FindIsThere(rows[1..], id);
    }
  }

  // ---------------------------------------------------------------------------
  // Runs.

  datatype Step =
    | CreateStep(input: Input, actor: Actor, id: string)
    | UpdateStep(id: string, input: Input, actor: Actor, expected: nat)
    | DeleteStep(id: string, actor: Actor, expected: nat)

  function Next(norm: Norm, rows: seq<Row>, step: Step): seq<Row> {
    match step
    case CreateStep(input, actor, id) =>
      var r := CreateOutcome(norm, rows, input, actor, id);
      if r.Ok? && Find(rows, id).None? then [r.value] + rows else rows
    case UpdateStep(id, input, actor, expected) =>
      var r := UpdateOutcome(norm, rows, id, input, actor, expected);
      if r.Ok? then [r.value] + Without(rows, id) else rows
    case DeleteStep(id, actor, expected) =>
      if DeleteProblem(rows, id, actor, expected).None? then Without(rows, id) else rows
  }

  function Run(norm: Norm, rows: seq<Row>, steps: seq<Step>): seq<Row>
    decreases |steps|
  {
    if |steps| == 0 then rows else Run(norm, Next(norm, rows, steps[0]), steps[1..])
  }

  lemma ValidateWithout(norm: Norm, rows: seq<Row>, input: Input, creator: string, id: string)
    requires Validate(norm, rows, input, creator, Some(id)).None?
    ensures Validate(norm, Without(rows, id), input, creator, Some(id)).None?
  {
    var rest := Without(rows, id);
    WithoutKeeps(rows, id);
    NotExcluded(rest, id);
  }

  lemma {:induction false} StepIsWellNamed(norm: Norm, rows: seq<Row>, step: Step)
    requires WellNamed(norm, rows)
    ensures WellNamed(norm, Next(norm, rows, step))
  {
    match step
    case CreateStep(input, actor, id) =>
      var r := CreateOutcome(norm, rows, input, actor, id);
      if r.Ok? && Find(rows, id).None? {
        FindIsThere(rows, id);
        CountsShrink(rows, Some(id));
        AdmittedIsWellNamed(norm, rows, r.value, input);
      }
    case UpdateStep(id, input, actor, expected) =>
      var r := UpdateOutcome(norm, rows, id, input, actor, expected);
      if r.Ok? {
        FindIsThere(rows, id);
        WithoutIsWellNamed(norm, rows, id);
        WithoutKeeps(rows, id);
        ValidateWithout(norm, rows, input, r.value.creator, id);
        AdmittedIsWellNamed(norm, Without(rows, id), r.value, input);
      }
    case DeleteStep(id, actor, expected) =>
      WithoutIsWellNamed(norm, rows, id);
  }

  /** Over every run of creates, updates with scope moves, and deletes: names are unique
      within the organisation and within each creator's personal skills, and the caps hold. */
  lemma {:induction false} RunIsWellNamed(norm: Norm, rows: seq<Row>, steps: seq<Step>)
    requires WellNamed(norm, rows)
    ensures WellNamed(norm, Run(norm, rows, steps))
    decreases |steps|
  {
    if |steps| > 0 {
      StepIsWellNamed(norm, rows, steps[0]);
      RunIsWellNamed(norm, Next(norm, rows, steps[0]), steps[1..]);
    }
  }

  // ---------------------------------------------------------------------------
  // Visibility, from the invariant.

  ghost predicate NamesDiffer(norm: Norm, skills: seq<RuntimeSkill>) {
    forall i, j :: 0 <= i < j < |skills| ==> norm(skills[i].name) != norm(skills[j].name)
  }

  lemma {:induction false} UnclaimedOnly(norm: Norm, skills: seq<RuntimeSkill>, claimed: set<string>)
    requires NamesDiffer(norm, skills)
    ensures var r := Unclaimed(norm, skills, claimed);
      && NamesDiffer(norm, r)
      && (forall skill :: skill in r <==> skill in skills && norm(skill.name) !in claimed)
  {
    if |skills| > 0 {
      UnclaimedOnly(norm, skills[1..], claimed);
      var rest := Unclaimed(norm, skills[1..], claimed);
      assert skills == [skills[0]] + skills[1..];
      forall skill | skill in rest ensures norm(skill.name) != norm(skills[0].name) {
        var j :| 0 <= j < |skills[1..]| && skills[1..][j] == skill;
        assert skills[j + 1] == skill;
      }
    }
  }

  lemma {:induction false} ActiveOrgNames(norm: Norm, rows: seq<Row>)
    requires Distinct(norm, rows)
    ensures NamesDiffer(norm, ActiveOrg(rows))
    ensures forall skill :: skill in ActiveOrg(rows) <==>
              exists row :: row in rows && row.active && row.scope == Org && Runtime(row) == skill
  {
    if |rows| > 0 {
      ActiveOrgNames(norm, rows[1..]);
      assert rows == [rows[0]] + rows[1..];
      forall skill | skill in ActiveOrg(rows[1..]) && rows[0].scope == Org
        ensures norm(skill.name) != norm(rows[0].name)
      {
        var row :| row in rows[1..] && row.active && row.scope == Org && Runtime(row) == skill;
        var j :| 0 <= j < |rows[1..]| && rows[1..][j] == row;
        assert SameNamespace(rows[0], rows[j + 1]);
      }
      forall skill ensures skill in ActiveOrg(rows) <==>
          exists row :: row in rows && row.active && row.scope == Org && Runtime(row) == skill {
        if skill in ActiveOrg(rows) && skill !in ActiveOrg(rows[1..]) { assert Runtime(rows[0]) == skill; }
      }
    }
  }

  lemma {:induction false} OwnPersonalNames(norm: Norm, rows: seq<Row>, userId: Option<string>)
    requires Distinct(norm, rows)
    ensures NamesDiffer(norm, OwnPersonal(rows, userId))
    ensures forall skill :: skill in OwnPersonal(rows, userId) <==>
              exists row :: row in rows && row.active && row.scope == Personal && Some(row.creator) == userId
                && Runtime(row) == skill
  {
    if |rows| > 0 {
      OwnPersonalNames(norm, rows[1..], userId);
      assert rows == [rows[0]] + rows[1..];
      forall skill | skill in OwnPersonal(rows[1..], userId) && rows[0].scope == Personal
        && Some(rows[0].creator) == userId
        ensures norm(skill.name) != norm(rows[0].name)
      {
        var row :| row in rows[1..] && row.active && row.scope == Personal && Some(row.creator) == userId
          && Runtime(row) == skill;
        var j :| 0 <= j < |rows[1..]| && rows[1..][j] == row;
        assert SameNamespace(rows[0], rows[j + 1]);
      }
      forall skill ensures skill in OwnPersonal(rows, userId) <==>
          exists row :: row in rows && row.active && row.scope == Personal && Some(row.creator) == userId
            && Runtime(row) == skill {
        if skill in OwnPersonal(rows, userId) && skill !in OwnPersonal(rows[1..], userId) {
          assert Runtime(rows[0]) == skill;
        }
      }
    }
  }

  lemma ConcatDiffer(norm: Norm, a: seq<RuntimeSkill>, b: seq<RuntimeSkill>)
    requires NamesDiffer(norm, a) && NamesDiffer(norm, b)
    requires forall skill :: skill in b ==> norm(skill.name) !in NamesOf(norm, a)
    ensures NamesDiffer(norm, a + b)
  {
    var all := a + b;
    forall i, j | 0 <= i < j < |all| ensures norm(all[i].name) != norm(all[j].name) {
      if i < |a| && j >= |a| {
        assert all[j] in b;
      }
    }
  }

  /** Every viewer's list is unambiguous, shows no one else's personal skills, and withholds
      an active skill of the organisation or of the viewer only for a name that is taken
      higher up. */
  lemma VisibleNamesDiffer(norm: Norm, system: seq<RuntimeSkill>, rows: seq<Row>, userId: Option<string>)
    requires WellNamed(norm, rows) && NamesDiffer(norm, system)
    ensures var visible := Visible(norm, system, rows, userId);
      && NamesDiffer(norm, visible)
      && (forall skill :: skill in visible ==>
            skill in system || skill in ActiveOrg(rows) || skill in OwnPersonal(rows, userId))
      && (forall skill :: skill in system ==> skill in visible)
      && (forall skill :: skill in OwnPersonal(rows, userId) ==>
            (skill in visible || norm(skill.name) in NamesOf(norm, system)))
      && (forall skill :: skill in ActiveOrg(rows) ==>
            (skill in visible || norm(skill.name) in NamesOf(norm, system + OwnPersonal(rows, userId))))
  {
    OwnPersonalNames(norm, rows, userId);
    ActiveOrgNames(norm, rows);
    var claimed := NamesOf(norm, system);
    UnclaimedOnly(norm, OwnPersonal(rows, userId), claimed);
    var personal := Unclaimed(norm, OwnPersonal(rows, userId), claimed);
    var taken := claimed + NamesOf(norm, personal);
    UnclaimedOnly(norm, ActiveOrg(rows), taken);
    ConcatDiffer(norm, system, personal);
    assert NamesOf(norm, system + personal) == taken by { NamesOfConcat(norm, system, personal); }
    ConcatDiffer(norm, system + personal, Unclaimed(norm, ActiveOrg(rows), taken));
    NamesOfConcat(norm, system, OwnPersonal(rows, userId));
    NamesWithin(norm, personal, OwnPersonal(rows, userId));
  }

  lemma NamesOfConcat(norm: Norm, a: seq<RuntimeSkill>, b: seq<RuntimeSkill>)
    ensures NamesOf(norm, a + b) == NamesOf(norm, a) + NamesOf(norm, b)
  {
    var all := a + b;
    forall name | name in NamesOf(norm, a) + NamesOf(norm, b) ensures name in NamesOf(norm, all) {
      if name in NamesOf(norm, a) {
        var k :| 0 <= k < |a| && norm(a[k].name) == name;
        assert all[k] == a[k];
      } else {
        var k :| 0 <= k < |b| && norm(b[k].name) == name;
        assert all[|a| + k] == b[k];
      }
    }
  }

  lemma NamesWithin(norm: Norm, a: seq<RuntimeSkill>, b: seq<RuntimeSkill>)
    requires forall skill :: skill in a ==> skill in b
    ensures NamesOf(norm, a) <= NamesOf(norm, b)
  {
    forall k | 0 <= k < |a| ensures norm(a[k].name) in NamesOf(norm, b) {
      assert a[k] in b;
      var j :| 0 <= j < |b| && b[j] == a[k];
    }
  }

  /** No personal skill of somebody else is listed. */
  lemma NobodyElsesSkill(norm: Norm, system: seq<RuntimeSkill>, rows: seq<Row>, userId: Option<string>, row: Row)
    requires WellNamed(norm, rows) && NamesDiffer(norm, system)
    requires row in rows && row.scope == Personal && Some(row.creator) != userId
    requires forall skill :: skill in system ==> skill.id != row.id
    ensures forall skill :: skill in Visible(norm, system, rows, userId) ==> skill.id != row.id
  {
    VisibleNamesDiffer(norm, system, rows, userId);
    OwnPersonalNames(norm, rows, userId);
    ActiveOrgNames(norm, rows);
    forall other | other in rows && other.id == row.id ensures other == row {
      var i :| 0 <= i < |rows| && rows[i] == other;
      var j :| 0 <= j < |rows| && rows[j] == row;
    }
  }

  /** Loading by name resolves exactly the listed skill of that name. */
  lemma {:induction false} LoadResolvesListed(norm: Norm, skills: seq<RuntimeSkill>, name: string)
    requires NamesDiffer(norm, skills)
    ensures forall skill :: FirstNamed(norm, skills, name) == Some(skill) <==>
        skill in skills && norm(skill.name) == norm(name)
  {
    if |skills| > 0 {
      assert skills == [skills[0]] + skills[1..];
      LoadResolvesListed(norm, skills[1..], name);
      forall skill | skill in skills[1..] ensures norm(skill.name) != norm(skills[0].name) {
        var j :| 0 <= j < |skills[1..]| && skills[1..][j] == skill;
        assert skills[j + 1] == skill;
      }
    }
  }

  // ---------------------------------------------------------------------------
  // The counts, and so the caps, as sizes of sets.

  function OrgIds(rows: seq<Row>, excludeId: Option<string>): set<string> {
    if |rows| == 0 then {}
    else OrgIds(rows[1..], excludeId)
         + if rows[0].scope == Org && Some(rows[0].id) != excludeId then {rows[0].id} else {}
  }

  function PersonalIds(rows: seq<Row>, creator: string, excludeId: Option<string>): set<string> {
    if |rows| == 0 then {}
    else PersonalIds(rows[1..], creator, excludeId)
         + if PersonalOf(rows[0], creator) && Some(rows[0].id) != excludeId then {rows[0].id} else {}
  }

  lemma {:induction false} IdsAre(rows: seq<Row>, creator: string, excludeId: Option<string>, id: string)
    ensures id in OrgIds(rows, excludeId) <==>
            exists row :: row in rows && row.scope == Org && row.id == id && Some(id) != excludeId
    ensures id in PersonalIds(rows, creator, excludeId) <==>
            exists row :: row in rows && row.scope == Personal && row.creator == creator && row.id == id
                          && Some(id) != excludeId
  {
    if |rows| > 0 {
      assert rows == [rows[0]] + rows[1..];
      IdsAre(rows[1..], creator, excludeId, id);
    }
  }

  ghost predicate DistinctIds(rows: seq<Row>) {
    forall i, j :: 0 <= i < j < |rows| ==> rows[i].id != rows[j].id
  }

  lemma FirstIdIsNew(rows: seq<Row>, creator: string, excludeId: Option<string>)
    requires |rows| > 0 && DistinctIds(rows)
    ensures DistinctIds(rows[1..])
    ensures rows[0].id !in OrgIds(rows[1..], excludeId) && rows[0].id !in PersonalIds(rows[1..], creator, excludeId)
  {
    IdsAre(rows[1..], creator, excludeId, rows[0].id);
    forall row | row in rows[1..] ensures row.id != rows[0].id {
      var j :| 0 <= j < |rows[1..]| && rows[1..][j] == row;
      assert rows[j + 1] == row;
    }
  }

  lemma {:induction false} OrgCountIsSize(rows: seq<Row>, excludeId: Option<string>)
    requires DistinctIds(rows)
    ensures CountOrg(rows, excludeId) == |OrgIds(rows, excludeId)|
  {
    if |rows| > 0 {
      FirstIdIsNew(rows, "", excludeId);
      OrgCountIsSize(rows[1..], excludeId);
    }
  }

  lemma {:induction false} PersonalCountIsSize(rows: seq<Row>, creator: string, excludeId: Option<string>)
    requires DistinctIds(rows)
    ensures CountPersonal(rows, creator, excludeId) == |PersonalIds(rows, creator, excludeId)|
  {
    if |rows| > 0 {
      FirstIdIsNew(rows, creator, excludeId);
      PersonalCountIsSize(rows[1..], creator, excludeId);
    }
  }

  lemma CountsAreSizes(rows: seq<Row>, creator: string, excludeId: Option<string>)
    requires DistinctIds(rows)
    ensures CountOrg(rows, excludeId) == |OrgIds(rows, excludeId)|
    ensures CountPersonal(rows, creator, excludeId) == |PersonalIds(rows, creator, excludeId)|
  {
    OrgCountIsSize(rows, excludeId);
    PersonalCountIsSize(rows, creator, excludeId);
  }

  /** The caps over every run, counted in ids. */
  lemma RunKeepsCaps(norm: Norm, rows: seq<Row>, steps: seq<Step>, creator: string)
    requires WellNamed(norm, rows)
    ensures var end := Run(norm, rows, steps);
      |OrgIds(end, None)| <= ORG_SKILL_CAP && |PersonalIds(end, creator, None)| <= PERSONAL_SKILL_CAP
  {
    RunIsWellNamed(norm, rows, steps);
    CountsAreSizes(Run(norm, rows, steps), creator, None);
  }

  // ---------------------------------------------------------------------------
  // Exactly when the operations succeed.

  /** Who may touch a row: its creator a personal one, an admin one of the organisation. */
  predicate MayTouch(scope: Scope, creator: string, actor: Actor) {
    match scope
    case Personal => actor.userId == creator
    case Org => actor.isAdmin
  }

  /** No other row that the name would be listed beside, or could disclose, holds it. */
  ghost predicate NameFree(norm: Norm, rows: seq<Row>, input: Input, creator: string, excludeId: Option<string>) {
    forall row :: row in rows && Some(row.id) != excludeId && norm(row.name) == norm(input.name) ==>
      row.scope == Personal && (input.scope == Org || row.creator != creator)
  }

  /** The name is free, and the cap leaves room. */
  ghost predicate HasRoom(norm: Norm, rows: seq<Row>, input: Input, creator: string, excludeId: Option<string>) {
    && NameFree(norm, rows, input, creator, excludeId)
    && match input.scope
       case Org => |OrgIds(rows, excludeId)| < ORG_SKILL_CAP
       case Personal => |PersonalIds(rows, creator, excludeId)| < PERSONAL_SKILL_CAP
  }

  lemma NameTakenIs(norm: Norm, rows: seq<Row>, input: Input, creator: string, excludeId: Option<string>)
    ensures NameTaken(norm, rows, input, creator, excludeId) <==> !NameFree(norm, rows, input, creator, excludeId)
  {
    if !NameFree(norm, rows, input, creator, excludeId) {
      var row :| row in rows && Some(row.id) != excludeId && norm(row.name) == norm(input.name)
                 && !(row.scope == Personal && (input.scope == Org || row.creator != creator));
      var i :| 0 <= i < |rows| && rows[i] == row;
      assert CollidesWith(rows[i], input.scope, creator);
    }
  }

  lemma ValidateIs(norm: Norm, rows: seq<Row>, input: Input, creator: string, excludeId: Option<string>)
    requires DistinctIds(rows)
    ensures Validate(norm, rows, input, creator, excludeId).None? <==>
            input.wellFormed && HasRoom(norm, rows, input, creator, excludeId)
  {
    CountsAreSizes(rows, creator, excludeId);
    NameTakenIs(norm, rows, input, creator, excludeId);
  }

  /** A create succeeds exactly for a well-formed input by someone who may hold it, under a name that
      is free, with room under the cap; the new row goes in front at version 1. */
  lemma CreateIs(norm: Norm, rows: seq<Row>, input: Input, actor: Actor, id: string)
    requires WellNamed(norm, rows) && forall row :: row in rows ==> row.id != id
    ensures var next := Next(norm, rows, CreateStep(input, actor, id));
      next == if input.wellFormed && (input.scope == Org ==> actor.isAdmin)
                 && HasRoom(norm, rows, input, actor.userId, None)
              then [Row(id, input.name, input.body, input.scope, true, actor.userId, 1)] + rows else rows
  {
    ValidateIs(norm, rows, input, actor.userId, None);
    FindIsThere(rows, id);
  }

  lemma {:induction false} FindsTheRow(rows: seq<Row>, row: Row)
    requires DistinctIds(rows) && row in rows
    ensures Find(rows, row.id) == Some(row)
  {
    if rows[0] != row {
      var j :| 0 <= j < |rows| && rows[j] == row;
      assert rows[1..][j - 1] == row;
      FindsTheRow(rows[1..], row);
    }
  }

  /** The same rows but for the one of this id. */
  ghost predicate OthersSame(before: seq<Row>, after: seq<Row>, id: string) {
    forall row: Row :: row.id != id ==> (row in after <==> row in before)
  }

  /** An update succeeds exactly when it names the row's present version, by someone who may touch
      the row as it is and as it becomes, with a well-formed input that has room. */
  ghost predicate UpdateFits(norm: Norm, rows: seq<Row>, row: Row, input: Input, actor: Actor, expected: nat) {
    && row.version == expected && MayTouch(row.scope, row.creator, actor)
    && input.wellFormed && MayTouch(input.scope, row.creator, actor)
    && HasRoom(norm, rows, input, row.creator, Some(row.id))
  }

  lemma UpdateFitsIff(norm: Norm, rows: seq<Row>, row: Row, input: Input, actor: Actor, expected: nat)
    requires WellNamed(norm, rows) && row in rows
    ensures UpdateOutcome(norm, rows, row.id, input, actor, expected).Ok? <==>
            UpdateFits(norm, rows, row, input, actor, expected)
    ensures Find(rows, row.id) == Some(row)
  {
    FindsTheRow(rows, row);
    ValidateIs(norm, rows, input, row.creator, Some(row.id));
  }

  /** A successful update replaces that row alone, by one with the new contents and a higher version;
      any other leaves the table alone. */
  lemma UpdateIs(norm: Norm, rows: seq<Row>, row: Row, input: Input, actor: Actor, expected: nat)
    requires WellNamed(norm, rows) && row in rows
    ensures var next := Next(norm, rows, UpdateStep(row.id, input, actor, expected));
      if !UpdateFits(norm, rows, row, input, actor, expected) then next == rows
      else
        && |next| > 0 && OthersSame(rows, next, row.id)
        && next[0].id == row.id && next[0].creator == row.creator && next[0].active
        && next[0].name == input.name && next[0].body == input.body && next[0].scope == input.scope
        && next[0].version > row.version
        && forall other :: other in next && other.id == row.id ==> other == next[0]
  {
    UpdateFitsIff(norm, rows, row, input, actor, expected);
    WithoutKeeps(rows, row.id);
  }

  /** A delete removes the row exactly when it names its present version, by someone who may touch it. */
  lemma DeleteIs(norm: Norm, rows: seq<Row>, row: Row, actor: Actor, expected: nat)
    requires WellNamed(norm, rows) && row in rows
    ensures var next := Next(norm, rows, DeleteStep(row.id, actor, expected));
      if row.version == expected && MayTouch(row.scope, row.creator, actor)
      then OthersSame(rows, next, row.id) && forall other :: other in next ==> other.id != row.id
      else next == rows
  {
    FindsTheRow(rows, row);
    WithoutKeeps(rows, row.id);
  }

  lemma MissingRowIs(norm: Norm, rows: seq<Row>, input: Input, actor: Actor, id: string, expected: nat)
    requires forall row :: row in rows ==> row.id != id
    ensures Next(norm, rows, UpdateStep(id, input, actor, expected)) == rows
    ensures Next(norm, rows, DeleteStep(id, actor, expected)) == rows
    ensures UpdateOutcome(norm, rows, id, input, actor, expected).Err?
  {
    FindIsThere(rows, id);
    if Find(rows, id).None? {
      NothingToRemove(rows, id);
    }
  }

  // ---------------------------------------------------------------------------
  // Over runs: stale versions, and other people's rows.

  ghost predicate PastVersion(rows: seq<Row>, id: string, version: nat) {
    forall row :: row in rows && row.id == id ==> row.version > version
  }

  /** The id is not drawn a second time. */
  ghost predicate NeverReused(steps: seq<Step>, id: string) {
    forall i :: 0 <= i < |steps| ==> !(steps[i].CreateStep? && steps[i].id == id)
  }

  lemma StepKeepsPast(norm: Norm, rows: seq<Row>, step: Step, id: string, version: nat)
    requires WellNamed(norm, rows) && PastVersion(rows, id, version) && !(step.CreateStep? && step.id == id)
    ensures PastVersion(Next(norm, rows, step), id, version)
  {
    match step
    case CreateStep(_, _, _) =>
    case UpdateStep(other, input, actor, expected) =>
      if row :| row in rows && row.id == other {
        UpdateIs(norm, rows, row, input, actor, expected);
      } else {
        MissingRowIs(norm, rows, input, actor, other, expected);
      }
    case DeleteStep(other, actor, expected) =>
      WithoutKeeps(rows, other);
  }

  lemma {:induction false} RunKeepsPast(norm: Norm, rows: seq<Row>, steps: seq<Step>, id: string, version: nat)
    requires WellNamed(norm, rows) && PastVersion(rows, id, version) && NeverReused(steps, id)
    ensures PastVersion(Run(norm, rows, steps), id, version)
    decreases |steps|
  {
    if |steps| > 0 {
      StepKeepsPast(norm, rows, steps[0], id, version);
      StepIsWellNamed(norm, rows, steps[0]);
      assert forall i :: 0 <= i < |steps| - 1 ==> steps[1..][i] == steps[i + 1];
      RunKeepsPast(norm, Next(norm, rows, steps[0]), steps[1..], id, version);
    }
  }

  /** Two editors of one version: once the first has saved, whatever happens next, the second neither
      saves over it nor deletes it. */
  lemma StaleEditorNeverWins(norm: Norm, rows: seq<Row>, row: Row, input: Input, actor: Actor, steps: seq<Step>,
          second: Input, other: Actor)
    requires WellNamed(norm, rows) && row in rows && NeverReused(steps, row.id)
    requires UpdateFits(norm, rows, row, input, actor, row.version)
    ensures var saved := Next(norm, rows, UpdateStep(row.id, input, actor, row.version));
      var end := Run(norm, saved, steps);
      && Next(norm, end, UpdateStep(row.id, second, other, row.version)) == end
      && Next(norm, end, DeleteStep(row.id, other, row.version)) == end
      && UpdateOutcome(norm, end, row.id, second, other, row.version).Err?
  {
    var update := UpdateStep(row.id, input, actor, row.version);
    var saved := Next(norm, rows, update);
    UpdateIs(norm, rows, row, input, actor, row.version);
    StepIsWellNamed(norm, rows, update);
    RunKeepsPast(norm, saved, steps, row.id, row.version);
    RunIsWellNamed(norm, saved, steps);
    var end := Run(norm, saved, steps);
    if present :| present in end && present.id == row.id {
      UpdateFitsIff(norm, end, present, second, other, row.version);
      DeleteIs(norm, end, present, other, row.version);
    } else {
      MissingRowIs(norm, end, second, other, row.id, row.version);
    }
  }

  /** Nobody who may not touch a row takes part. */
  ghost predicate OnlyStrangers(steps: seq<Step>, row: Row) {
    forall i :: 0 <= i < |steps| ==> !MayTouch(row.scope, row.creator, steps[i].actor)
  }

  lemma {:induction false} StrangersLeaveRow(norm: Norm, rows: seq<Row>, steps: seq<Step>, row: Row)
    requires WellNamed(norm, rows) && row in rows && OnlyStrangers(steps, row)
    ensures row in Run(norm, rows, steps)
    decreases |steps|
  {
    if |steps| > 0 {
      var step := steps[0];
      StepIsWellNamed(norm, rows, step);
      assert !MayTouch(row.scope, row.creator, step.actor);
      match step {
        case CreateStep(_, _, _) =>
        case UpdateStep(id, input, actor, expected) => StrangersUpdate(norm, rows, row, id, input, actor, expected);
        case DeleteStep(id, actor, expected) =>
          WithoutKeeps(rows, id);
          if id == row.id {
            DeleteIs(norm, rows, row, actor, expected);
          }
      }
      assert forall i :: 0 <= i < |steps| - 1 ==> steps[1..][i] == steps[i + 1];
      StrangersLeaveRow(norm, Next(norm, rows, step), steps[1..], row);
    }
  }

  lemma StrangersUpdate(norm: Norm, rows: seq<Row>, row: Row, id: string, input: Input, actor: Actor, expected: nat)
    requires WellNamed(norm, rows) && row in rows && !MayTouch(row.scope, row.creator, actor)
    ensures row in Next(norm, rows, UpdateStep(id, input, actor, expected))
  {
    if id == row.id {
      UpdateIs(norm, rows, row, input, actor, expected);
    } else if other :| other in rows && other.id == id {
      UpdateIs(norm, rows, other, input, actor, expected);
    } else {
      MissingRowIs(norm, rows, input, actor, id, expected);
    }
  }

  // ---------------------------------------------------------------------------
  // The order of a viewer's list.

  /** The skills are those of some of the rows, in the order of the rows. */
  predicate InOrderOf(skills: seq<RuntimeSkill>, rows: seq<Row>)
    decreases |rows|
  {
    |skills| == 0
    || (|rows| > 0
        && ((Runtime(rows[0]) == skills[0] && InOrderOf(skills[1..], rows[1..])) || InOrderOf(skills, rows[1..])))
  }

  lemma OneMoreInOrder(first: seq<RuntimeSkill>, rest: seq<RuntimeSkill>, rows: seq<Row>)
    requires |rows| > 0 && InOrderOf(rest, rows[1..]) && (first == [] || first == [Runtime(rows[0])])
    ensures InOrderOf(first + rest, rows)
  {
    if first == [] {
      assert first + rest == rest;
    } else {
      assert (first + rest)[1..] == rest;
    }
  }

  lemma {:induction false} OwnKeepsOrder(norm: Norm, rows: seq<Row>, userId: Option<string>, claimed: set<string>)
    ensures InOrderOf(Unclaimed(norm, OwnPersonal(rows, userId), claimed), rows)
  {
    if |rows| > 0 {
      OwnKeepsOrder(norm, rows[1..], userId, claimed);
      var first := UnclaimedFront(norm, OwnHere(rows[0], userId), OwnPersonal(rows[1..], userId), claimed);
      OneMoreInOrder(first, Unclaimed(norm, OwnPersonal(rows[1..], userId), claimed), rows);
    }
  }

  lemma {:induction false} OrgKeepsOrder(norm: Norm, rows: seq<Row>, claimed: set<string>)
    ensures InOrderOf(Unclaimed(norm, ActiveOrg(rows), claimed), rows)
  {
    if |rows| > 0 {
      OrgKeepsOrder(norm, rows[1..], claimed);
      var first := UnclaimedFront(norm, OrgHere(rows[0]), ActiveOrg(rows[1..]), claimed);
      OneMoreInOrder(first, Unclaimed(norm, ActiveOrg(rows[1..]), claimed), rows);
    }
  }

  lemma UnclaimedFront(norm: Norm, here: seq<RuntimeSkill>, rest: seq<RuntimeSkill>, claimed: set<string>)
      returns (first: seq<RuntimeSkill>)
    requires |here| <= 1
    ensures first == [] || first == here
    ensures Unclaimed(norm, here + rest, claimed) == first + Unclaimed(norm, rest, claimed)
  {
    first := if |here| == 1 && norm(here[0].name) !in claimed then here else [];
    if |here| == 0 {
      assert here + rest == rest;
    } else {
      assert (here + rest)[1..] == rest;
    }
  }

  /** A viewer's list: the system's skills, then the viewer's own, then the organisation's, each in
      the order of the table. */
  lemma VisibleInOrder(norm: Norm, system: seq<RuntimeSkill>, rows: seq<Row>, userId: Option<string>)
      returns (own: seq<RuntimeSkill>, org: seq<RuntimeSkill>)
    requires WellNamed(norm, rows) && NamesDiffer(norm, system)
    ensures Visible(norm, system, rows, userId) == system + own + org
    ensures InOrderOf(own, rows) && InOrderOf(org, rows)
    ensures forall skill :: skill in own ==>
      exists row :: row in rows && row.active && row.scope == Personal && Some(row.creator) == userId
        && Runtime(row) == skill
    ensures forall skill :: skill in org ==>
      exists row :: row in rows && row.active && row.scope == Org && Runtime(row) == skill
  {
    var claimed := NamesOf(norm, system);
    own := Unclaimed(norm, OwnPersonal(rows, userId), claimed);
    var taken := claimed + NamesOf(norm, own);
    org := Unclaimed(norm, ActiveOrg(rows), taken);
    OwnKeepsOrder(norm, rows, userId, claimed);
    OrgKeepsOrder(norm, rows, taken);
    OwnPersonalNames(norm, rows, userId);
    ActiveOrgNames(norm, rows);
    UnclaimedOnly(norm, OwnPersonal(rows, userId), claimed);
    UnclaimedOnly(norm, ActiveOrg(rows), taken);
  }
}
