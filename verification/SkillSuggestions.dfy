/** `nearestSkillNames` (`src/brain/skills/store.ts`): the closest skill names to
    a name that matched nothing. */
module SkillSuggestions {
  import opened EditDistance
  import opened StableSort

  datatype Candidate = Candidate(name: string, distance: nat)

  const MAX_SUGGESTIONS := 5

  /** By distance, then by the locale's collation of the names. */
  function Nearer(collate: (string, string) -> bool): (Candidate, Candidate) -> bool {
    (x: Candidate, y: Candidate) =>
      x.distance < y.distance || (x.distance == y.distance && collate(x.name, y.name))
  }

  lemma NearerIsTotalPreorder(collate: (string, string) -> bool)
    requires TotalPreorder(collate)
    ensures TotalPreorder(Nearer(collate))
  {
    var leq := Nearer(collate);
    forall x, y ensures leq(x, y) || leq(y, x) {
      assert collate(x.name, y.name) || collate(y.name, x.name);
    }
    forall x, y, z | leq(x, y) && leq(y, z) ensures leq(x, z) {
      assert collate(x.name, y.name) && collate(y.name, z.name) ==> collate(x.name, z.name);
    }
  }

  function Measured(needle: string, names: seq<string>, lower: string -> string): (r: seq<Candidate>)
    ensures |r| == |names|
  {
    seq(|names|, i requires 0 <= i < |names| => Candidate(names[i], Distance(needle, lower(names[i]))))
  }

  function SuggestionCount(limit: int, available: nat): (n: nat)
    ensures n <= available
  {
    var wanted := if limit < MAX_SUGGESTIONS then limit else MAX_SUGGESTIONS;
    var wanted := if wanted < 0 then 0 else wanted;
    if wanted < available then wanted else available
  }

  /** `ranking` lists every skill, nearest first. */
  ghost predicate IsRanking(ranking: seq<Candidate>, needle: string, names: seq<string>,
                            lower: string -> string, collate: (string, string) -> bool) {
    && multiset(ranking) == multiset(Measured(needle, names, lower))
    && Sorted(ranking, Nearer(collate))
  }

  method NearestSkillNames(name: string, skills: seq<string>, limit: int, trim: string -> string,
                           lower: string -> string, collate: (string, string) -> bool)
    returns (r: seq<string>)
    requires TotalPreorder(collate)
    ensures |r| == SuggestionCount(limit, |skills|)
    ensures exists ranking: seq<Candidate> ::
              && IsRanking(ranking, lower(trim(name)), skills, lower, collate)
              && |ranking| == |skills|
              && forall i :: 0 <= i < |r| ==> r[i] == ranking[i].name
  {
    var needle := lower(trim(name));
    var candidates: seq<Candidate> := [];
    for i := 0 to |skills|
      invariant candidates == Measured(needle, skills, lower)[..i]
    {
      var d := Levenshtein(needle, lower(skills[i]));
      candidates := candidates + [Candidate(skills[i], d)];
    }
    assert candidates == Measured(needle, skills, lower);
    NearerIsTotalPreorder(collate);
    SortSorts(candidates, Nearer(collate));
    var ranking := Sort(candidates, Nearer(collate));
    var kept := ranking[..SuggestionCount(limit, |skills|)];
    r := seq(|kept|, i requires 0 <= i < |kept| => kept[i].name);
    assert IsRanking(ranking, needle, skills, lower, collate);
  }

  /** No skill left out is strictly closer than one that was suggested. */
  lemma SuggestionsAreClosest(ranking: seq<Candidate>, needle: string, names: seq<string>, count: nat,
                              lower: string -> string, collate: (string, string) -> bool)
    requires IsRanking(ranking, needle, names, lower, collate)
    requires |ranking| == |names| && count <= |names|
    ensures multiset(Measured(needle, names, lower)) == multiset(ranking[..count]) + multiset(ranking[count..])
    ensures forall i, out :: 0 <= i < count && out in multiset(ranking[count..]) ==> ranking[i].distance <= out.distance
  {
    assert ranking == ranking[..count] + ranking[count..];
    forall i, out | 0 <= i < count && out in multiset(ranking[count..])
      ensures ranking[i].distance <= out.distance
    {
      assert out in ranking[count..];
      var k :| count <= k < |ranking| && ranking[k] == out;
      assert Nearer(collate)(ranking[i], ranking[k]);
    }
  }
}
