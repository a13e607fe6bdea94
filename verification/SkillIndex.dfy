/** The index of skills in the prompt (`src/brain/skills/context.ts`): which lines are shortened
    or dropped to fit the budget. `brief` is the description as it is shown, on one line and cut
    to its maximum. Ids are primary keys. */
module SkillIndex {
  import opened Prelude
  import opened StableSort

  const SKILL_INDEX_MAX_CHARS := 16000
  const INDEX_OVERHEAD_CHARS := 600
  /** The length of the fixed sentence above the list. */
  const DIRECTIVE_CHARS := 191

  function Budget(): nat {
    SKILL_INDEX_MAX_CHARS - INDEX_OVERHEAD_CHARS
  }

  /** Ids are only compared. */
  type Id = nat

  datatype Skill = Skill(id: Id, system: bool, name: string, description: string, lastUsedAt: Option<int>,
                         updatedAt: int)

  type Brief = string -> string

  // ---------------------------------------------------------------------------
  // Lines.

  /** The replacements run one after the other; the ampersand goes first, so that none meets the
      output of another. */
  function Replace(s: string, c: char, entity: string): string {
    if |s| == 0 then "" else (if s[0] == c then entity else [s[0]]) + Replace(s[1..], c, entity)
  }

  function EscapeXml(s: string): string {
    Replace(Replace(Replace(s, '&', "&amp;"), '<', "&lt;"), '>', "&gt;")
  }

  function NameLine(skill: Skill): string {
    EscapeXml(skill.name)
  }

  function FullLine(brief: Brief, skill: Skill): (r: string)
    ensures |r| >= |NameLine(skill)|
  {
    if brief(skill.description) == "" then NameLine(skill)
    else NameLine(skill) + " — " + EscapeXml(brief(skill.description))
  }

  function Recency(skill: Skill): int {
    if skill.lastUsedAt.Some? then skill.lastUsedAt.value else skill.updatedAt
  }

  predicate LessRecent(a: Skill, b: Skill) {
    Recency(a) <= Recency(b)
  }

  function Ids(skills: seq<Skill>): set<Id> {
    if |skills| == 0 then {} else Ids(skills[..|skills| - 1]) + {skills[|skills| - 1].id}
  }

  ghost predicate DistinctIds(skills: seq<Skill>) {
    forall i, j :: 0 <= i < j < |skills| ==> skills[i].id != skills[j].id
  }

  function NotSystem(skills: seq<Skill>): seq<Skill> {
    if |skills| == 0 then [] else (if skills[0].system then [] else [skills[0]]) + NotSystem(skills[1..])
  }

  function ByRecency(skills: seq<Skill>): seq<Skill> {
    Sort(NotSystem(skills), LessRecent)
  }

  /** One line with its newline, or nothing for a dropped skill. */
  function Width(brief: Brief, skill: Skill, described: set<Id>, dropped: set<Id>): nat {
    if skill.id in dropped then 0
    else if skill.id in described then |FullLine(brief, skill)| + 1
    else |NameLine(skill)| + 1
  }

  function Total(brief: Brief, skills: seq<Skill>, described: set<Id>, dropped: set<Id>): nat {
    if |skills| == 0 then 0
    else Width(brief, skills[0], described, dropped) + Total(brief, skills[1..], described, dropped)
  }

  function SystemTotal(brief: Brief, skills: seq<Skill>): nat {
    if |skills| == 0 then 0
    else (if skills[0].system then |FullLine(brief, skills[0])| + 1 else 0) + SystemTotal(brief, skills[1..])
  }

  function Lines(brief: Brief, skills: seq<Skill>, described: set<Id>, dropped: set<Id>): seq<string> {
    if |skills| == 0 then []
    else LineOf(brief, skills[0], described, dropped) + Lines(brief, skills[1..], described, dropped)
  }

  function LineOf(brief: Brief, skill: Skill, described: set<Id>, dropped: set<Id>): seq<string> {
    if skill.id in dropped then [] else [if skill.id in described then FullLine(brief, skill) else NameLine(skill)]
  }

  function Size(lines: seq<string>): nat {
    if |lines| == 0 then 0 else |lines[0]| + 1 + Size(lines[1..])
  }

  // ---------------------------------------------------------------------------
  // Sets of ids along a list.

  lemma {:induction false} IdsHas(skills: seq<Skill>, id: Id)
    ensures id in Ids(skills) <==> exists i :: 0 <= i < |skills| && skills[i].id == id
  {
    if |skills| > 0 {
      var front := skills[..|skills| - 1];
      IdsHas(front, id);
      if i :| 0 <= i < |skills| && skills[i].id == id {
        assert i < |front| ==> front[i].id == id;
      }
      if i :| 0 <= i < |front| && front[i].id == id {
        assert skills[i].id == id;
      }
    }
  }

  lemma {:induction false} IdsCount(skills: seq<Skill>)
    requires DistinctIds(skills)
    ensures |Ids(skills)| == |skills|
  {
    if |skills| > 0 {
      IdsCount(skills[..|skills| - 1]);
      Fresh(skills, |skills| - 1);
    }
  }

  lemma IdsAppend(skills: seq<Skill>, k: nat)
    requires k < |skills|
    ensures Ids(skills[..k + 1]) == Ids(skills[..k]) + {skills[k].id}
  {
    assert skills[..k + 1][..k] == skills[..k];
  }

  lemma Fresh(order: seq<Skill>, k: nat)
    requires DistinctIds(order) && k < |order|
    ensures order[k].id !in Ids(order[..k])
  {
    IdsHas(order[..k], order[k].id);
  }

  lemma IdIn(skills: seq<Skill>, s: Skill)
    requires s in skills
    ensures s.id in Ids(skills)
  {
    var i :| 0 <= i < |skills| && skills[i] == s;
    IdsHas(skills, s.id);
  }

  lemma {:induction false} NotSystemIs(skills: seq<Skill>)
    ensures forall s :: s in NotSystem(skills) <==> s in skills && !s.system
    ensures DistinctIds(skills) ==> DistinctIds(NotSystem(skills))
  {
    if |skills| > 0 {
      NotSystemIs(skills[1..]);
      assert skills == [skills[0]] + skills[1..];
      if DistinctIds(skills) {
        forall s | s in skills[1..] ensures s.id != skills[0].id {
          var j :| 0 <= j < |skills[1..]| && skills[1..][j] == s;
          assert skills[j + 1] == s;
        }
      }
    }
  }

  /** The order the budget is enforced in: every skill that is not the system's, once, least
      recently used first. */
  lemma ByRecencyIs(skills: seq<Skill>)
    requires DistinctIds(skills)
    ensures var order := ByRecency(skills);
      DistinctIds(order) && Sorted(order, LessRecent) && forall s :: s in order <==> s in skills && !s.system
  {
    NotSystemIs(skills);
    SortKeepsDistinct(NotSystem(skills), LessRecent, (s: Skill) => s.id);
    SortHas(NotSystem(skills), LessRecent);
    SortSorts(NotSystem(skills), LessRecent);
  }

  // ---------------------------------------------------------------------------
  // How one decision changes the total.

  lemma {:induction false} TotalIgnores(brief: Brief, skills: seq<Skill>, described: set<Id>, dropped: set<Id>, id: Id)
    requires forall s :: s in skills ==> s.id != id
    ensures Total(brief, skills, described - {id}, dropped) == Total(brief, skills, described, dropped)
    ensures Total(brief, skills, described, dropped + {id}) == Total(brief, skills, described, dropped)
  {
    if |skills| > 0 {
      assert skills[0] in skills;
      TotalIgnores(brief, skills[1..], described, dropped, id);
    }
  }

  lemma {:induction false} TotalShortened(brief: Brief, skills: seq<Skill>, described: set<Id>, dropped: set<Id>,
          s: Skill)
    requires DistinctIds(skills) && s in skills && s.id in described && s.id !in dropped
    ensures Total(brief, skills, described - {s.id}, dropped) ==
            Total(brief, skills, described, dropped) - (|FullLine(brief, s)| - |NameLine(s)|)
  {
    var rest := skills[1..];
    assert skills == [skills[0]] + rest;
    if skills[0].id == s.id {
      OthersDiffer(skills);
      TotalIgnores(brief, rest, described, dropped, s.id);
    } else {
      TotalShortened(brief, rest, described, dropped, s);
    }
  }

  lemma {:induction false} TotalDropped(brief: Brief, skills: seq<Skill>, described: set<Id>, dropped: set<Id>,
          s: Skill)
    requires DistinctIds(skills) && s in skills && s.id !in described && s.id !in dropped
    ensures Total(brief, skills, described, dropped + {s.id}) ==
        Total(brief, skills, described, dropped) - (|NameLine(s)| + 1)
  {
    var rest := skills[1..];
    assert skills == [skills[0]] + rest;
    if skills[0].id == s.id {
      OthersDiffer(skills);
      TotalIgnores(brief, rest, described, dropped, s.id);
    } else {
      TotalDropped(brief, rest, described, dropped, s);
    }
  }

  lemma OthersDiffer(skills: seq<Skill>)
    requires DistinctIds(skills) && |skills| > 0
    ensures forall s :: s in skills[1..] ==> s.id != skills[0].id
    ensures forall s :: s in skills && s.id == skills[0].id ==> s == skills[0]
  {
    forall s | s in skills[1..] ensures s.id != skills[0].id {
      var j :| 0 <= j < |skills[1..]| && skills[1..][j] == s;
      assert skills[j + 1] == s;
    }
    assert skills == [skills[0]] + skills[1..];
  }

  lemma {:induction false} SystemRemains(brief: Brief, skills: seq<Skill>, described: set<Id>, dropped: set<Id>)
    requires forall s :: s in skills ==> (if s.system then s.id in described && s.id !in dropped else s.id in dropped)
    ensures Total(brief, skills, described, dropped) == SystemTotal(brief, skills)
  {
    if |skills| > 0 {
      assert skills[0] in skills;
      SystemRemains(brief, skills[1..], described, dropped);
    }
  }

  lemma {:induction false} LinesAmount(brief: Brief, skills: seq<Skill>, described: set<Id>, dropped: set<Id>)
    ensures Size(Lines(brief, skills, described, dropped)) == Total(brief, skills, described, dropped)
  {
    if |skills| > 0 {
      LinesAmount(brief, skills[1..], described, dropped);
      var rest := Lines(brief, skills[1..], described, dropped);
      if skills[0].id in dropped {
        assert Lines(brief, skills, described, dropped) == rest;
      } else {
        assert Lines(brief, skills, described, dropped)[1..] == rest;
      }
    }
  }

  // ---------------------------------------------------------------------------
  // The plan.

  datatype Plan = Plan(lines: seq<string>, nameOnly: nat, dropped: nat)

  /** The ids still described after shortening the first `k` of the order. */
  function DescribedAt(skills: seq<Skill>, k: nat): set<Id>
    requires k <= |ByRecency(skills)|
  {
    Ids(skills) - Ids(ByRecency(skills)[..k])
  }

  function DroppedAt(skills: seq<Skill>, d: nat): set<Id>
    requires d <= |ByRecency(skills)|
  {
    Ids(ByRecency(skills)[..d])
  }

  function Saving(brief: Brief, skill: Skill): nat {
    |FullLine(brief, skill)| - |NameLine(skill)|
  }

  /** The state after shortening the first `k` and dropping the first `d` of the order. */
  function TotalAt(brief: Brief, skills: seq<Skill>, k: nat, d: nat): nat
    requires k <= |ByRecency(skills)| && d <= |ByRecency(skills)|
  {
    Total(brief, skills, DescribedAt(skills, k), DroppedAt(skills, d))
  }

  function LinesAt(brief: Brief, skills: seq<Skill>, k: nat, d: nat): seq<string>
    requires k <= |ByRecency(skills)| && d <= |ByRecency(skills)|
  {
    Lines(brief, skills, DescribedAt(skills, k), DroppedAt(skills, d))
  }

  lemma ShortenOne(brief: Brief, skills: seq<Skill>, k: nat)
    requires DistinctIds(skills) && k < |ByRecency(skills)|
    ensures var s := ByRecency(skills)[k];
      && TotalAt(brief, skills, k + 1, 0) == TotalAt(brief, skills, k, 0) - Saving(brief, s)
      && s.id in DescribedAt(skills, k)
      && DescribedAt(skills, k + 1) == DescribedAt(skills, k) - {s.id}
  {
    var order := ByRecency(skills);
    ByRecencyIs(skills);
    var s := order[k];
    assert s in order;
    IdIn(skills, s);
    Fresh(order, k);
    IdsAppend(order, k);
    var described := Ids(skills) - Ids(order[..k]);
    assert Ids(skills) - Ids(order[..k + 1]) == described - {s.id};
    TotalShortened(brief, skills, described, Ids(order[..0]), s);
  }

  lemma DropOne(brief: Brief, skills: seq<Skill>, d: nat)
    requires DistinctIds(skills) && d < |ByRecency(skills)|
    ensures var s := ByRecency(skills)[d];
      var all := |ByRecency(skills)|;
      && TotalAt(brief, skills, all, d + 1) == TotalAt(brief, skills, all, d) - (|NameLine(s)| + 1)
      && s.id !in DroppedAt(skills, d)
      && DroppedAt(skills, d + 1) == DroppedAt(skills, d) + {s.id}
  {
    var order := ByRecency(skills);
    ByRecencyIs(skills);
    var s := order[d];
    assert s in order;
    Fresh(order, d);
    IdsAppend(order, d);
    assert order[..|order|] == order;
    IdIn(order, s);
    TotalDropped(brief, skills, Ids(skills) - Ids(order), Ids(order[..d]), s);
  }

  lemma SystemOrOrdered(skills: seq<Skill>, s: Skill)
    requires DistinctIds(skills) && s in skills
    ensures var order := ByRecency(skills);
      if s.system then s.id in Ids(skills) - Ids(order) && s.id !in Ids(order) else s.id in Ids(order)
  {
    var order := ByRecency(skills);
    ByRecencyIs(skills);
    IdIn(skills, s);
    IdsHas(order, s.id);
    if s.system {
      forall j | 0 <= j < |order| ensures order[j].id != s.id {
        assert order[j] in order;
        NotAlike(skills, s, order[j]);
      }
    } else {
      IdIn(order, s);
    }
  }

  lemma NotAlike(skills: seq<Skill>, a: Skill, b: Skill)
    requires DistinctIds(skills) && a in skills && b in skills && a != b
    ensures a.id != b.id
  {
    var i :| 0 <= i < |skills| && skills[i] == a;
    var j :| 0 <= j < |skills| && skills[j] == b;
  }

  lemma AllDropped(brief: Brief, skills: seq<Skill>)
    requires DistinctIds(skills)
    ensures var all := |ByRecency(skills)|;
      TotalAt(brief, skills, all, all) == SystemTotal(brief, skills)
  {
    var order := ByRecency(skills);
    assert order[..|order|] == order;
    forall s | s in skills
      ensures if s.system then s.id in Ids(skills) - Ids(order) && s.id !in Ids(order) else s.id in Ids(order)
    {
      SystemOrOrdered(skills, s);
    }
    SystemRemains(brief, skills, Ids(skills) - Ids(order), Ids(order));
  }

  /** What a plan promises, with `k` skills shortened and `d` of them dropped. */
  ghost predicate FitsTightly(brief: Brief, skills: seq<Skill>, k: nat, d: nat)
    requires k <= |ByRecency(skills)| && d <= |ByRecency(skills)|
  {
    && TotalAt(brief, skills, k, d) <= Budget()
    && (k > 0 ==> TotalAt(brief, skills, k - 1, 0) > Budget())
    && (d > 0 ==> k == |ByRecency(skills)| && TotalAt(brief, skills, k, d - 1) > Budget())
  }

  ghost predicate ShortenedTo(brief: Brief, skills: seq<Skill>, described: set<Id>, total: int, k: nat) {
    && k <= |ByRecency(skills)| && total == TotalAt(brief, skills, k, 0)
    && described == DescribedAt(skills, k)
    && (k > 0 ==> TotalAt(brief, skills, k - 1, 0) > Budget())
  }

  method EveryoneDescribed(brief: Brief, skills: seq<Skill>) returns (described: set<Id>, total: int)
    requires DistinctIds(skills)
    ensures ShortenedTo(brief, skills, described, total, 0)
  {
    described := Ids(skills);
    total := Total(brief, skills, described, {});
    ghost var none := ByRecency(skills)[..0];
    assert Ids(none) == {} && Ids(skills) - Ids(none) == Ids(skills);
  }

  lemma OneMoreShortened(brief: Brief, skills: seq<Skill>, described: set<Id>, total: int, k: nat)
    requires DistinctIds(skills) && ShortenedTo(brief, skills, described, total, k)
    requires k < |ByRecency(skills)| && total > Budget()
    ensures var s := ByRecency(skills)[k];
      ShortenedTo(brief, skills, described - {s.id}, total - Saving(brief, s), k + 1)
  {
    ShortenOne(brief, skills, k);
  }

  /** The first loop: shorten while over the budget. */
  method Shorten(brief: Brief, skills: seq<Skill>, order: seq<Skill>) returns (described: set<Id>, total: int, k: nat)
    requires DistinctIds(skills) && order == ByRecency(skills)
    ensures ShortenedTo(brief, skills, described, total, k)
    ensures total <= Budget() || k == |order|
  {
    described, total := EveryoneDescribed(brief, skills);
    k := 0;
    while k < |order| && total > Budget()
      invariant 0 <= k <= |order| && ShortenedTo(brief, skills, described, total, k)
    {
      OneMoreShortened(brief, skills, described, total, k);
      total := total - Saving(brief, order[k]);
      described := described - {order[k].id};
      k := k + 1;
    }
  }

  ghost predicate DroppedTo(brief: Brief, skills: seq<Skill>, k: nat, dropped: set<Id>, total: int, d: nat) {
    && k <= |ByRecency(skills)| && d <= |ByRecency(skills)| && total == TotalAt(brief, skills, k, d)
    && dropped == DroppedAt(skills, d) && |dropped| == d
    && (d > 0 ==> k == |ByRecency(skills)| && TotalAt(brief, skills, k, d - 1) > Budget())
  }

  lemma OneMoreDropped(brief: Brief, skills: seq<Skill>, dropped: set<Id>, total: int, d: nat)
    requires DistinctIds(skills) && DroppedTo(brief, skills, |ByRecency(skills)|, dropped, total, d)
    requires d < |ByRecency(skills)| && total > Budget()
    ensures var s := ByRecency(skills)[d];
      DroppedTo(brief, skills, |ByRecency(skills)|, dropped + {s.id}, total - (|NameLine(s)| + 1), d + 1)
  {
    DropOne(brief, skills, d);
  }

  /** The second loop: drop while still over it. */
  method Drop(brief: Brief, skills: seq<Skill>, order: seq<Skill>, start: int, ghost k: nat)
      returns (dropped: set<Id>, total: int)
    requires DistinctIds(skills) && order == ByRecency(skills) && k <= |order|
    requires start == TotalAt(brief, skills, k, 0) && (start <= Budget() || k == |order|)
    requires SystemTotal(brief, skills) <= Budget()
    ensures DroppedTo(brief, skills, k, dropped, total, |dropped|) && total <= Budget()
  {
    dropped := {};
    total := start;
    var d := 0;
    var none := order[..0];
    assert Ids(none) == {};
    while d < |order| && total > Budget()
      invariant 0 <= d <= |order| && (total > Budget() ==> k == |order|)
      invariant DroppedTo(brief, skills, k, dropped, total, d)
    {
      OneMoreDropped(brief, skills, dropped, total, d);
      total := total - (|NameLine(order[d])| + 1);
      dropped := dropped + {order[d].id};
      d := d + 1;
    }
    AllDropped(brief, skills);
  }

  ghost predicate GoodPlan(brief: Brief, skills: seq<Skill>, plan: Plan) {
    var k := plan.nameOnly + plan.dropped;
    && plan.dropped <= k <= |ByRecency(skills)|
    && plan.lines == LinesAt(brief, skills, k, plan.dropped)
    && Size(plan.lines) <= Budget()
    && FitsTightly(brief, skills, k, plan.dropped)
  }

  lemma LinesAreAt(brief: Brief, skills: seq<Skill>, described: set<Id>, k: nat, dropped: set<Id>, d: nat)
    requires k <= |ByRecency(skills)| && d <= |ByRecency(skills)|
    requires described == DescribedAt(skills, k) && dropped == DroppedAt(skills, d)
    ensures Lines(brief, skills, described, dropped) == LinesAt(brief, skills, k, d)
    ensures Size(LinesAt(brief, skills, k, d)) == TotalAt(brief, skills, k, d)
  {
    LinesAmount(brief, skills, described, dropped);
  }

  lemma Take(all: set<Id>, some: set<Id>, next: set<Id>, id: Id)
    requires id in all && id !in some && some <= all && next == some + {id}
    ensures |all - next| == |all - some| - 1 && next <= all
  {
    assert all - next == (all - some) - {id};
  }

  lemma NoIds(skills: seq<Skill>)
    requires DistinctIds(skills)
    ensures |Ids(skills) - Ids([])| == |skills| && Ids([]) <= Ids(skills)
  {
    IdsCount(skills);
    assert Ids(skills) - Ids([]) == Ids(skills);
  }

  lemma {:induction false} CountWithout(skills: seq<Skill>, order: seq<Skill>, k: nat)
    requires DistinctIds(skills) && DistinctIds(order) && k <= |order| && forall s :: s in order ==> s in skills
    ensures |Ids(skills) - Ids(order[..k])| == |skills| - k && Ids(order[..k]) <= Ids(skills)
    decreases k
  {
    if k == 0 {
      NoIds(skills);
      assert order[..k] == [];
    } else {
      CountWithout(skills, order, k - 1);
      Fresh(order, k - 1);
      IdsAppend(order, k - 1);
      IdIn(skills, order[k - 1]);
      Take(Ids(skills), Ids(order[..k - 1]), Ids(order[..k]), order[k - 1].id);
    }
  }

  lemma DescribedCount(skills: seq<Skill>, k: nat)
    requires DistinctIds(skills) && k <= |ByRecency(skills)|
    ensures |DescribedAt(skills, k)| == |skills| - k
  {
    ByRecencyIs(skills);
    CountWithout(skills, ByRecency(skills), k);
  }

  lemma PlanIsGood(brief: Brief, skills: seq<Skill>, described: set<Id>, total: int, k: nat,
                   dropped: set<Id>, left: int, d: nat)
    requires DistinctIds(skills) && ShortenedTo(brief, skills, described, total, k)
    requires DroppedTo(brief, skills, k, dropped, left, d) && left <= Budget()
    ensures |skills| - |described| == k && |dropped| == d <= k
    ensures GoodPlan(brief, skills, Plan(Lines(brief, skills, described, dropped), k - d, d))
  {
    LinesAreAt(brief, skills, described, k, dropped, d);
    DescribedCount(skills, k);
    var plan := Plan(Lines(brief, skills, described, dropped), k - d, d);
    assert plan.nameOnly + plan.dropped == k;
    assert FitsTightly(brief, skills, k, d);
  }

  /** `None` when the system skills alone are over the budget. The shortened and the dropped skills
      are prefixes of the least-recently-used order, no longer than they must be; the counts
      partition the skills; and the lines with their newlines fit the budget. */
  method PlanIndexLines(brief: Brief, skills: seq<Skill>) returns (r: Option<Plan>)
    requires DistinctIds(skills)
    ensures r.None? <==> SystemTotal(brief, skills) > Budget()
    ensures r.Some? ==> GoodPlan(brief, skills, r.value)
  {
    if SystemTotal(brief, skills) > Budget() { return None; }
    var order := ByRecency(skills);
    var described, total, k := Shorten(brief, skills, order);
    var dropped, left := Drop(brief, skills, order, total, k);
    PlanIsGood(brief, skills, described, total, k, dropped, left, |dropped|);
    r := Some(Plan(Lines(brief, skills, described, dropped), |skills| - |described| - |dropped|, |dropped|));
  }

  lemma {:induction false} LinesHave(brief: Brief, skills: seq<Skill>, described: set<Id>, dropped: set<Id>, s: Skill)
    requires s in skills && s.id !in dropped
    ensures (if s.id in described then FullLine(brief, s) else NameLine(s)) in Lines(brief, skills, described, dropped)
  {
    if skills[0] != s {
      LinesHave(brief, skills[1..], described, dropped, s);
    }
  }

  lemma {:induction false} PrefixIds(skills: seq<Skill>, k: nat)
    requires k <= |skills|
    ensures Ids(skills[..k]) <= Ids(skills)
    decreases |skills| - k
  {
    if k == |skills| {
      assert skills[..k] == skills;
    } else {
      IdsAppend(skills, k);
      PrefixIds(skills, k + 1);
    }
  }

  /** However tight the budget, a system skill keeps its description. */
  lemma SystemStaysDescribed(brief: Brief, skills: seq<Skill>, plan: Plan, s: Skill)
    requires DistinctIds(skills) && GoodPlan(brief, skills, plan) && s in skills && s.system
    ensures FullLine(brief, s) in plan.lines
  {
    var order := ByRecency(skills);
    var k := plan.nameOnly + plan.dropped;
    SystemOrOrdered(skills, s);
    PrefixIds(order, k);
    PrefixIds(order, plan.dropped);
    LinesHave(brief, skills, DescribedAt(skills, k), DroppedAt(skills, plan.dropped), s);
  }

  // ---------------------------------------------------------------------------
  // Escaping.

  function Entity(c: char): string {
    if c == '&' then "&amp;" else if c == '<' then "&lt;" else if c == '>' then "&gt;" else [c]
  }

  function Entities(s: string): string {
    if |s| == 0 then "" else Entity(s[0]) + Entities(s[1..])
  }

  lemma {:induction false} ReplaceConcat(a: string, b: string, c: char, entity: string)
    ensures Replace(a + b, c, entity) == Replace(a, c, entity) + Replace(b, c, entity)
  {
    if |a| == 0 {
      assert a + b == b;
    } else {
      assert (a + b)[1..] == a[1..] + b;
      ReplaceConcat(a[1..], b, c, entity);
    }
  }

  lemma {:induction false} ReplaceMisses(s: string, c: char, entity: string)
    requires c !in s
    ensures Replace(s, c, entity) == s
  {
    if |s| > 0 {
      ReplaceMisses(s[1..], c, entity);
    }
  }

  lemma ReplaceOne(c: char, d: char, entity: string)
    ensures Replace([c], d, entity) == if c == d then entity else [c]
  {
    assert [c][1..] == "";
    assert entity + "" == entity;
  }

  lemma AmpersandIsInert(c: char, entity: string)
    requires c == '<' || c == '>'
    ensures Replace("&amp;", c, entity) == "&amp;"
  {
    ReplaceMisses("&amp;", c, entity);
  }

  lemma LessIsInert(entity: string)
    ensures Replace("&lt;", '>', entity) == "&lt;"
  {
    ReplaceMisses("&lt;", '>', entity);
  }

  lemma EscapeOne(c: char)
    ensures EscapeXml([c]) == Entity(c)
  {
    AmpersandIsInert('<', "&lt;");
    AmpersandIsInert('>', "&gt;");
    LessIsInert("&gt;");
    ReplaceOne(c, '&', "&amp;");
    if c != '&' {
      ReplaceOne(c, '<', "&lt;");
      if c != '<' {
        ReplaceOne(c, '>', "&gt;");
      }
    }
  }

  /** Three replacements in a row escape each character once. */
  lemma {:induction false} EscapeIsCharwise(s: string)
    ensures EscapeXml(s) == Entities(s)
  {
    if |s| > 0 {
      var first := [s[0]];
      var rest := s[1..];
      assert s == first + rest;
      ReplaceConcat(first, rest, '&', "&amp;");
      ReplaceConcat(Replace(first, '&', "&amp;"), Replace(rest, '&', "&amp;"), '<', "&lt;");
      ReplaceConcat(Replace(Replace(first, '&', "&amp;"), '<', "&lt;"),
                    Replace(Replace(rest, '&', "&amp;"), '<', "&lt;"), '>', "&gt;");
      EscapeOne(s[0]);
      EscapeIsCharwise(rest);
    }
  }

  /** Distinct names stay distinct in the index. */
  lemma {:induction false} EntitiesTellApart(a: string, b: string)
    requires Entities(a) == Entities(b)
    ensures a == b
  {
    if |a| > 0 && |b| > 0 {
      var x := Entities(a);
      assert x[0] == Entity(a[0])[0] == Entity(b[0])[0];
      if x[0] == '&' {
        assert |Entity(a[0])| > 1 && |Entity(b[0])| > 1;
        assert x[1] == Entity(a[0])[1] == Entity(b[0])[1];
      }
      assert Entity(a[0]) == Entity(b[0]) && a[0] == b[0];
      assert x[|Entity(a[0])|..] == Entities(a[1..]) == Entities(b[1..]);
      EntitiesTellApart(a[1..], b[1..]);
      assert a == [a[0]] + a[1..] && b == [b[0]] + b[1..];
    }
  }

  lemma EscapeTellsApart(a: string, b: string)
    requires a != b
    ensures EscapeXml(a) != EscapeXml(b)
  {
    EscapeIsCharwise(a);
    EscapeIsCharwise(b);
    if Entities(a) == Entities(b) {
      EntitiesTellApart(a, b);
    }
  }

  // ---------------------------------------------------------------------------
  // The rendered text.

  function Decimal(n: nat): string {
    if n < 10 then [DIGITS[n]] else Decimal(n / 10) + [DIGITS[n % 10]]
  }

  const DIGITS := "0123456789"

  function Join(lines: seq<string>): string {
    if |lines| == 0 then "" else if |lines| == 1 then lines[0] else lines[0] + "\n" + Join(lines[1..])
  }

  function Notice(plan: Plan, n: nat): string {
    var first := Decimal(plan.nameOnly) + " of " + Decimal(n)
      + " skills show a name only; load one to read what it does";
    var second := Decimal(plan.dropped) + " could not be listed at all";
    if plan.nameOnly > 0 && plan.dropped > 0 then "(" + first + "; " + second + ")"
    else if plan.nameOnly > 0 then "(" + first + ")"
    else "(" + second + ")"
  }

  function Render(directive: string, plan: Plan, n: nat): string {
    var notice := if plan.nameOnly > 0 || plan.dropped > 0 then [Notice(plan, n)] else [];
    Join(["<available_skills>", directive] + notice + plan.lines + ["</available_skills>"])
  }

  lemma {:induction false} DecimalIsShort(n: nat, digits: nat, bound: nat)
    requires digits > 0 && bound == Power10(digits) && n < bound
    ensures |Decimal(n)| <= digits
    decreases digits
  {
    if n >= 10 {
      assert digits > 1;
      DecimalIsShort(n / 10, digits - 1, Power10(digits - 1));
    }
  }

  function Power10(digits: nat): nat {
    if digits == 0 then 1 else 10 * Power10(digits - 1)
  }

  lemma {:induction false} JoinLength(lines: seq<string>)
    ensures |lines| > 0 ==> |Join(lines)| + 1 == Size(lines)
  {
    if |lines| > 1 {
      JoinLength(lines[1..]);
    }
  }

  lemma {:induction false} SizeConcat(a: seq<string>, b: seq<string>)
    ensures Size(a + b) == Size(a) + Size(b)
  {
    if |a| == 0 {
      assert a + b == b;
    } else {
      assert (a + b)[1..] == a[1..] + b;
      SizeConcat(a[1..], b);
    }
  }

  /** A list never has more than 2^32 - 1 elements, so its counts have at most ten digits. */
  lemma NoticeIsShort(plan: Plan, n: nat)
    requires plan.nameOnly <= n && plan.dropped <= n && n < 0x1_0000_0000
    ensures |Notice(plan, n)| <= 150
  {
    assert Power10(10) == 10000000000;
    DecimalIsShort(n, 10, Power10(10));
    DecimalIsShort(plan.nameOnly, 10, Power10(10));
    DecimalIsShort(plan.dropped, 10, Power10(10));
  }

  lemma FourSizes(a: seq<string>, b: seq<string>, c: seq<string>, d: seq<string>)
    ensures Size(a + b + c + d) == Size(a) + Size(b) + Size(c) + Size(d)
  {
    SizeConcat(a + b + c, d);
    SizeConcat(a + b, c);
    SizeConcat(a, b);
  }

  lemma TwoSizes(a: string, b: string)
    ensures Size([a, b]) == |a| + |b| + 2
  {
    assert Size([b]) == |b| + 1 + Size([b][1..]);
    assert [a, b][1..] == [b];
  }

  lemma FrameSize(directive: string, notice: seq<string>, lines: seq<string>)
    ensures var text := ["<available_skills>", directive] + notice + lines + ["</available_skills>"];
      |Join(text)| + 1 ==
      |"<available_skills>"| + |directive| + |"</available_skills>"| + 3 + Size(notice) + Size(lines)
  {
    var head := ["<available_skills>", directive];
    var tail := ["</available_skills>"];
    JoinLength(head + notice + lines + tail);
    FourSizes(head, notice, lines, tail);
    TwoSizes("<available_skills>", directive);
  }

  /** The overhead set aside is enough: a plan whose lines fit the budget renders within 16,000
      characters. */
  lemma RenderedFits(directive: string, plan: Plan, n: nat)
    requires |directive| == DIRECTIVE_CHARS
    requires plan.nameOnly <= n && plan.dropped <= n && n < 0x1_0000_0000
    requires Size(plan.lines) <= Budget()
    ensures |Render(directive, plan, n)| <= SKILL_INDEX_MAX_CHARS
  {
    NoticeIsShort(plan, n);
    var notice := if plan.nameOnly > 0 || plan.dropped > 0 then [Notice(plan, n)] else [];
    assert Size(notice) <= 151;
    FrameSize(directive, notice, plan.lines);
  }

  /** Lines, each with its newline. */
  function Ended(lines: seq<string>): string {
    if |lines| == 0 then "" else lines[0] + "\n" + Ended(lines[1..])
  }

  lemma {:induction false} JoinIsEnded(lines: seq<string>)
    ensures |lines| > 0 ==> Join(lines) + "\n" == Ended(lines)
  {
    if |lines| > 1 {
      JoinIsEnded(lines[1..]);
      assert Join(lines) + "\n" == lines[0] + "\n" + (Join(lines[1..]) + "\n");
    } else if |lines| == 1 {
      assert lines[0] + "\n" + "" == lines[0] + "\n";
    }
  }

  lemma {:induction false} EndedConcat(a: seq<string>, b: seq<string>)
    ensures Ended(a + b) == Ended(a) + Ended(b)
  {
    if |a| == 0 {
      assert a + b == b;
    } else {
      assert (a + b)[1..] == a[1..] + b;
      EndedConcat(a[1..], b);
    }
  }

  /** The text: the directive, a notice when something was shortened or dropped, and every line of
      the plan, between the tags. */
  lemma RenderIs(directive: string, plan: Plan, n: nat)
    ensures var notice := if plan.nameOnly > 0 || plan.dropped > 0 then [Notice(plan, n)] else [];
      Render(directive, plan, n) + "\n" ==
      Ended(["<available_skills>", directive]) + Ended(notice) + Ended(plan.lines) + Ended(["</available_skills>"])
  {
    var notice := if plan.nameOnly > 0 || plan.dropped > 0 then [Notice(plan, n)] else [];
    var head, tail := ["<available_skills>", directive], ["</available_skills>"];
    JoinIsEnded(head + notice + plan.lines + tail);
    EndedConcat(head + notice + plan.lines, tail);
    EndedConcat(head + notice, plan.lines);
    EndedConcat(head, notice);
  }

  function ReadDecimal(s: string): int {
    if |s| == 0 then 0 else 10 * ReadDecimal(s[..|s| - 1]) + (s[|s| - 1] as int - '0' as int)
  }

  /** The counts in the notice read back as themselves. */
  lemma {:induction false} DecimalReads(n: nat)
    ensures ReadDecimal(Decimal(n)) == n
  {
    assert forall d :: 0 <= d < 10 ==> DIGITS[d] as int - '0' as int == d;
    var s := Decimal(n);
    if n < 10 {
      assert s[..|s| - 1] == "";
    } else {
      DecimalReads(n / 10);
      assert s[..|s| - 1] == Decimal(n / 10);
    }
  }
}
