/** Text cut to Slack's section limit (`src/brain/skills/slack-drafts.ts`). A text is its code
    points, each of one or two units; escaping is that of `SkillIndex`. */
module SlackText {
  import opened Prelude
  import opened SkillIndex

  const SLACK_SECTION_TEXT_MAX_CHARS := 3000
  const NAME_MAX := 600

  function Units(points: seq<string>): string {
    if |points| == 0 then "" else points[0] + Units(points[1..])
  }

  lemma {:induction false} UnitsConcat(a: seq<string>, b: seq<string>)
    ensures Units(a + b) == Units(a) + Units(b)
  {
    if |a| == 0 {
      assert a + b == b;
    } else {
      assert (a + b)[1..] == a[1..] + b;
      UnitsConcat(a[1..], b);
    }
  }

  lemma {:induction false} EntitiesConcat(a: string, b: string)
    ensures Entities(a + b) == Entities(a) + Entities(b)
  {
    if |a| == 0 {
      assert a + b == b;
    } else {
      assert (a + b)[1..] == a[1..] + b;
      EntitiesConcat(a[1..], b);
    }
  }

  function Escaped(points: seq<string>): string {
    EscapeXml(Units(points))
  }

  lemma OnePoint(point: string)
    ensures Units([point]) == point
  {
    assert [point][1..] == [];
    assert point + "" == point;
  }

  lemma EscapedNext(points: seq<string>, n: nat)
    requires n < |points|
    ensures Escaped(points[..n + 1]) == Escaped(points[..n]) + EscapeXml(points[n])
  {
    var front := points[..n];
    assert points[..n + 1] == front + [points[n]];
    UnitsConcat(front, [points[n]]);
    OnePoint(points[n]);
    EscapeIsCharwise(Units(front) + points[n]);
    EscapeIsCharwise(Units(front));
    EscapeIsCharwise(points[n]);
    EntitiesConcat(Units(front), points[n]);
  }

  /** `n` whole code points, escaped, and an ellipsis: as many as fit. */
  ghost predicate Cut(points: seq<string>, max: int, text: string, n: nat) {
    && n < |points| && text == Escaped(points[..n]) + "…"
    && |Escaped(points[..n])| + 1 <= max < |Escaped(points[..n + 1])| + 1
  }

  /** Never longer than `max`; everything when it fits, and otherwise the longest prefix of code
      points that leaves room for the ellipsis, so that no entity is cut in two. */
  method BoundedEscaped(points: seq<string>, max: int) returns (text: string, ghost n: nat)
    ensures |text| <= if max < 0 then 0 else max
    ensures |Escaped(points)| <= max ==> text == Escaped(points)
    ensures 1 < max < |Escaped(points)| ==> Cut(points, max, text, n)
    ensures max == 1 && |Escaped(points)| > 1 ==> text == "…"
  {
    n := 0;
    if max <= 0 {
      return "", 0;
    }
    var escaped := EscapeXml(Units(points));
    if |escaped| <= max { return escaped, 0; }
    if max == 1 { return "…", 0; }
    var budget := max - 1;
    var bounded := "";
    var i := 0;
    assert points[..0] == [] && Escaped([]) == "";
    assert points[..|points|] == points;
    while i < |points|
      invariant 0 <= i <= |points| && bounded == Escaped(points[..i]) && |bounded| <= budget
    {
      EscapedNext(points, i);
      var encoded := EscapeXml(points[i]);
      if |bounded| + |encoded| > budget {
        n := i;
        return bounded + "…", n;
      }
      bounded := bounded + encoded;
      i := i + 1;
    }
    assert false;
  }

  /** The text is whole if it fits, and otherwise cut at a code point with as much of it as fits. */
  ghost predicate Bounded(points: seq<string>, max: nat, text: string) {
    && |text| <= max
    && (|Escaped(points)| <= max ==> text == Escaped(points))
    && (1 < max < |Escaped(points)| ==> exists n :: Cut(points, max, text, n))
    && (max == 1 && |Escaped(points)| > 1 ==> text == "…")
  }

  /** The summary of a skill: title, name, description and suffix in this order; the name gets at most
      600 characters and the description what is left. It fits a section exactly when its fixed
      parts do. */
  method SkillSummary(name: seq<string>, description: seq<string>, title: Option<string>, suffix: string)
    returns (text: string, ghost shownName: string, ghost shown: string)
    ensures text == Prefix(title) + shownName + "*\n" + shown + suffix
    ensures var room := AtLeastZero(SLACK_SECTION_TEXT_MAX_CHARS - |Prefix(title)| - 2 - |suffix|);
      && Bounded(name, if room < NAME_MAX then room else NAME_MAX, shownName)
      && Bounded(description, room - |shownName|, shown)
    ensures |text| <= SLACK_SECTION_TEXT_MAX_CHARS <==> |Prefix(title)| + 2 + |suffix| <= SLACK_SECTION_TEXT_MAX_CHARS
  {
    var prefix := Prefix(title);
    var afterName := "*\n";
    var maximumNameChars := AtLeastZero(SLACK_SECTION_TEXT_MAX_CHARS - |prefix| - |afterName| - |suffix|);
    var nameText, cutName :=
      BoundedEscaped(name, if maximumNameChars < NAME_MAX then maximumNameChars else NAME_MAX);
    var descriptionChars := AtLeastZero(SLACK_SECTION_TEXT_MAX_CHARS - |prefix| - |nameText| - |afterName| - |suffix|);
    var descriptionText, cut := BoundedEscaped(description, descriptionChars);
    text := prefix + nameText + afterName + descriptionText + suffix;
    shownName, shown := nameText, descriptionText;
    Parts(prefix, nameText, afterName, descriptionText, suffix);
  }

  lemma Parts(a: string, b: string, c: string, d: string, e: string)
    ensures var text := a + b + c + d + e;
      |text| == |a| + |b| + |c| + |d| + |e| && a <= text && a + b + c <= text && text[|text| - |e|..] == e
  {
  }

  function AtLeastZero(n: int): nat {
    if n < 0 then 0 else n
  }

  function Prefix(title: Option<string>): string {
    if title.Some? then "*" + title.value + ": " else "*"
  }
}
