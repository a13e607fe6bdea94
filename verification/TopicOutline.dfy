/** The outline of the topic tree (`outlineBrainTree` in `src/brain/memory/tree.ts`) and the
    tag listing it starts from (`listBrainMemoryTags` in `src/brain/memory/tags.ts`).
    The nested maps of the source are nested sequences in insertion order. */
module TopicOutline {
  import opened Prelude
  import opened StableSort
  import TagKey

  datatype Tag = Tag(key: string, name: string)

  datatype Node = Node(path: string, name: string, depth: nat, subtagCount: nat, children: seq<Node>)

  // ---------------------------------------------------------------------------
  // Segments of a path.

  function Flush(segment: string): seq<string> {
    if segment == "" then [] else [segment]
  }

  /** Splitting at slashes and dropping empty pieces; `segment` is the piece being read. */
  function SegmentsFrom(s: string, segment: string): seq<string>
    decreases |s|
  {
    if |s| == 0 then Flush(segment)
    else if s[0] == '/' then Flush(segment) + SegmentsFrom(s[1..], "")
    else SegmentsFrom(s[1..], segment + [s[0]])
  }

  function Segments(path: string): seq<string> {
    SegmentsFrom(path, "")
  }

  predicate IsSegment(s: string) {
    s != "" && '/' !in s
  }

  lemma {:induction false} SegmentsAreSegments(s: string, segment: string)
    requires '/' !in segment
    ensures forall x :: x in SegmentsFrom(s, segment) ==> IsSegment(x)
    decreases |s|
  {
    if |s| == 0 {
    } else if s[0] == '/' {
      SegmentsAreSegments(s[1..], "");
    } else {
      SegmentsAreSegments(s[1..], segment + [s[0]]);
    }
  }

  function Extend(prefix: string, segment: string): string {
    if prefix == "" then segment else prefix + "/" + segment
  }

  function PathOf(prefix: string, segs: seq<string>): string
    decreases |segs|
  {
    if |segs| == 0 then prefix else PathOf(Extend(prefix, segs[0]), segs[1..])
  }

  lemma ExtendInjective(prefix: string, a: string, b: string)
    ensures Extend(prefix, a) == Extend(prefix, b) <==> a == b
  {
    if prefix != "" && a != b {
      var n := |prefix| + 1;
      assert (prefix + "/" + a)[n..] == a && (prefix + "/" + b)[n..] == b;
    }
  }

  // ---------------------------------------------------------------------------
  // Building and sorting.

  function Unscore(s: string): string {
    if |s| == 0 then "" else [if s[0] == '_' then ' ' else s[0]] + Unscore(s[1..])
  }

  function NodeLabel(path: string): string {
    var segs := Segments(path);
    Unscore(if |segs| > 0 then segs[|segs| - 1] else path)
  }

  /** Where the node of `path` stands on this level; the level's length when it has none. */
  function IndexOf(level: seq<Node>, path: string): (i: nat)
    ensures i <= |level| && (i < |level| ==> level[i].path == path)
    ensures forall j :: 0 <= j < i ==> level[j].path != path
  {
    if |level| == 0 || level[0].path == path then 0 else 1 + IndexOf(level[1..], path)
  }

  /** One tag, walked down segment by segment from `prefix`. */
  function Walk(level: seq<Node>, prefix: string, depth: nat, segs: seq<string>, tag: Tag): seq<Node>
    decreases |segs|
  {
    if |segs| == 0 then level
    else
      var path := Extend(prefix, segs[0]);
      var at := IndexOf(level, path);
      var node := if at < |level| then level[at] else Node(path, NodeLabel(path), depth, 0, []);
      var counted := Node(path, if path == tag.key then tag.name else node.name, node.depth, node.subtagCount + 1,
                          Walk(node.children, path, depth + 1, segs[1..], tag));
      if at < |level| then level[at := counted] else level + [counted]
  }

  function Build(tags: seq<Tag>): seq<Node> {
    if |tags| == 0 then []
    else
      var last := tags[|tags| - 1];
      Walk(Build(tags[..|tags| - 1]), "", 0, Segments(last.key), last)
  }

  predicate MoreTags(a: Node, b: Node) {
    a.subtagCount >= b.subtagCount
  }

  function OutEach(level: seq<Node>): (r: seq<Node>)
    ensures |r| == |level|
    decreases level, 0
  {
    if |level| == 0 then []
    else [level[0].(children := Out(level[0].children))] + OutEach(level[1..])
  }

  /** Each level by descending count; converting a node keeps its count, so it does not matter
      that the source converts after sorting. */
  function Out(level: seq<Node>): seq<Node>
    decreases level, 1
  {
    Sort(OutEach(level), MoreTags)
  }

  method Outline(tags: seq<Tag>) returns (out: seq<Node>)
    ensures out == Out(Build(tags))
  {
    var roots: seq<Node> := [];
    var i := 0;
    while i < |tags|
      invariant 0 <= i <= |tags| && roots == Build(tags[..i])
    {
      assert tags[..i + 1][..i] == tags[..i];
      roots := Walk(roots, "", 0, Segments(tags[i].key), tags[i]);
      i := i + 1;
    }
    assert tags[..i] == tags;
    out := Out(roots);
  }

  // ---------------------------------------------------------------------------
  // Looking a node up by its segments.

  function Find(level: seq<Node>, path: string): Option<Node> {
    var at := IndexOf(level, path);
    if at < |level| then Some(level[at]) else None
  }

  function Lookup(level: seq<Node>, prefix: string, p: seq<string>): Option<Node>
    requires |p| > 0
    decreases |p|
  {
    var path := Extend(prefix, p[0]);
    var found := Find(level, path);
    if found.None? || |p| == 1 then found else Lookup(found.value.children, path, p[1..])
  }

  function Sum(level: seq<Node>): nat {
    if |level| == 0 then 0 else level[0].subtagCount + Sum(level[1..])
  }

  lemma {:induction false} SumUpdate(level: seq<Node>, at: nat, node: Node)
    requires at < |level|
    ensures Sum(level[at := node]) == Sum(level) - level[at].subtagCount + node.subtagCount
  {
    if at > 0 {
      assert level[at := node][1..] == level[1..][at - 1 := node];
      SumUpdate(level[1..], at - 1, node);
    } else {
      assert level[at := node][1..] == level[1..];
    }
  }

  lemma {:induction false} SumAppend(level: seq<Node>, node: Node)
    ensures Sum(level + [node]) == Sum(level) + node.subtagCount
  {
    if |level| > 0 {
      assert (level + [node])[1..] == level[1..] + [node];
      SumAppend(level[1..], node);
    } else {
      assert level + [node] == [node];
    }
  }

  lemma SumWalk(level: seq<Node>, prefix: string, depth: nat, segs: seq<string>, tag: Tag)
    ensures Sum(Walk(level, prefix, depth, segs, tag)) == Sum(level) + if |segs| > 0 then 1 else 0
  {
    if |segs| > 0 {
      var path := Extend(prefix, segs[0]);
      var at := IndexOf(level, path);
      var r := Walk(level, prefix, depth, segs, tag);
      if at < |level| {
        SumUpdate(level, at, r[at]);
      } else {
        SumAppend(level, r[at]);
      }
    }
  }

  lemma IndexDetermined(level: seq<Node>, path: string, i: nat)
    requires i <= |level| && (i < |level| ==> level[i].path == path)
    requires forall j :: 0 <= j < i ==> level[j].path != path
    ensures IndexOf(level, path) == i
  {
  }

  function ChildrenOf(found: Option<Node>): seq<Node> {
    if found.Some? then found.value.children else []
  }

  function CountOf(found: Option<Node>): nat {
    if found.Some? then found.value.subtagCount else 0
  }

  /** What one tag does to the node at `p`. */
  ghost predicate Counted(before: Option<Node>, after: Option<Node>, p: seq<string>, path: string, depth: nat,
          segs: seq<string>, tag: Tag)
    requires p <= segs
  {
    && after.Some?
    && after.value.path == path
    && after.value.depth == (if before.Some? then before.value.depth else depth)
    && after.value.subtagCount == CountOf(before) + 1
    && after.value.name ==
       (if path == tag.key then tag.name else if before.Some? then before.value.name else NodeLabel(path))
    && Sum(after.value.children) == Sum(ChildrenOf(before)) + (if p == segs then 0 else 1)
  }

  ghost predicate WalkedTo(before: Option<Node>, after: Option<Node>, p: seq<string>, path: string, depth: nat,
          segs: seq<string>, tag: Tag) {
    if p <= segs then Counted(before, after, p, path, depth, segs, tag) else after == before
  }

  lemma WalkFinds(level: seq<Node>, prefix: string, depth: nat, segs: seq<string>, tag: Tag, q: string)
    requires |segs| > 0
    ensures var before := Find(level, q);
      var after := Find(Walk(level, prefix, depth, segs, tag), q);
      if q == Extend(prefix, segs[0]) then Counted(before, after, segs[..1], q, depth, segs, tag) else after == before
    ensures var path := Extend(prefix, segs[0]);
      ChildrenOf(Find(Walk(level, prefix, depth, segs, tag), path)) ==
        Walk(ChildrenOf(Find(level, path)), path, depth + 1, segs[1..], tag)
  {
    var path := Extend(prefix, segs[0]);
    var r := Walk(level, prefix, depth, segs, tag);
    var at := IndexOf(level, path);
    IndexDetermined(r, path, at);
    if q == path {
      SumWalk(if at < |level| then level[at].children else [], path, depth + 1, segs[1..], tag);
      assert segs[..1] == segs <==> |segs| == 1;
    } else {
      var i := IndexOf(level, q);
      IndexDetermined(r, q, if i < |level| then i else |r|);
    }
  }

  /** The statement about a child is the statement about its full path. */
  lemma WalkedThrough(before: Option<Node>, after: Option<Node>, p: seq<string>, prefix: string, depth: nat,
          segs: seq<string>, tag: Tag)
    requires |p| > 1 && |segs| > 0 && p[0] == segs[0]
    requires var path := Extend(prefix, segs[0]);
      WalkedTo(before, after, p[1..], PathOf(path, p[1..]), depth + 1 + |p[1..]| - 1, segs[1..], tag)
    ensures WalkedTo(before, after, p, PathOf(prefix, p), depth + |p| - 1, segs, tag)
  {
    PrefixCons(p, segs);
  }

  lemma PrefixCons(p: seq<string>, segs: seq<string>)
    requires |p| > 0 && |segs| > 0
    ensures p <= segs <==> p[0] == segs[0] && p[1..] <= segs[1..]
    ensures p == segs <==> p[0] == segs[0] && p[1..] == segs[1..]
  {
    if p[0] == segs[0] && p[1..] <= segs[1..] {
      assert p == [p[0]] + p[1..] && segs == [segs[0]] + segs[1..];
    }
  }

  /** A tag counts once at every prefix of its segments and changes nothing else. */
  lemma {:induction false} WalkAt(level: seq<Node>, prefix: string, depth: nat, segs: seq<string>, tag: Tag,
          p: seq<string>)
    requires |p| > 0
    ensures WalkedTo(Lookup(level, prefix, p), Lookup(Walk(level, prefix, depth, segs, tag), prefix, p),
                     p, PathOf(prefix, p), depth + |p| - 1, segs, tag)
    decreases |p|
  {
    if |segs| > 0 {
      var path := Extend(prefix, segs[0]);
      var q := Extend(prefix, p[0]);
      ExtendInjective(prefix, segs[0], p[0]);
      WalkFinds(level, prefix, depth, segs, tag, q);
      PrefixCons(p, segs);
      if q == path {
        var children := ChildrenOf(Find(level, path));
        if |p| == 1 {
          assert PathOf(prefix, p) == path;
          assert p <= segs ==> p == segs[..1];
        } else {
          WalkAt(children, path, depth + 1, segs[1..], tag, p[1..]);
          EmptyHasNothing(path, p[1..]);
          assert Lookup(level, prefix, p) == Lookup(children, path, p[1..]);
          WalkedThrough(Lookup(level, prefix, p), Lookup(Walk(level, prefix, depth, segs, tag), prefix, p), p,
                        prefix, depth, segs, tag);
        }
      }
    }
  }

  lemma EmptyHasNothing(prefix: string, p: seq<string>)
    requires |p| > 0
    ensures Lookup([], prefix, p) == None
  {
  }

  // ---------------------------------------------------------------------------
  // What the outline should say, counted from the tags alone.

  /** How many tags lie at or below `p`. */
  function Below(tags: seq<Tag>, p: seq<string>): nat {
    if |tags| == 0 then 0
    else Below(tags[..|tags| - 1], p) + if p <= Segments(tags[|tags| - 1].key) then 1 else 0
  }

  /** How many tags lie exactly at `p`. */
  function At(tags: seq<Tag>, p: seq<string>): nat {
    if |tags| == 0 then 0
    else At(tags[..|tags| - 1], p) + if p == Segments(tags[|tags| - 1].key) then 1 else 0
  }

  /** The label the last tag with this very key gives, if any does. */
  function LabelFor(tags: seq<Tag>, path: string): string {
    if |tags| == 0 then NodeLabel(path)
    else if tags[|tags| - 1].key == path then tags[|tags| - 1].name
    else LabelFor(tags[..|tags| - 1], path)
  }

  ghost predicate NodeIsRight(tags: seq<Tag>, p: seq<string>, node: Node)
    requires |p| > 0
  {
    && node.path == PathOf("", p)
    && node.depth == |p| - 1
    && node.subtagCount == Below(tags, p)
    && node.subtagCount == At(tags, p) + Sum(node.children)
  }

  lemma {:induction false} NoneBelowNoneAt(tags: seq<Tag>, p: seq<string>)
    ensures At(tags, p) <= Below(tags, p)
  {
    if |tags| > 0 {
      NoneBelowNoneAt(tags[..|tags| - 1], p);
    }
  }

  /** Node and counts agree at `p`. */
  ghost predicate RightAt(tags: seq<Tag>, p: seq<string>, found: Option<Node>)
    requires |p| > 0
  {
    (found.Some? <==> Below(tags, p) > 0) && (found.Some? ==> NodeIsRight(tags, p, found.value))
  }

  lemma RightAfterWalk(front: seq<Tag>, last: Tag, p: seq<string>, before: Option<Node>, after: Option<Node>)
    requires |p| > 0 && RightAt(front, p, before)
    requires WalkedTo(before, after, p, PathOf("", p), |p| - 1, Segments(last.key), last)
    ensures RightAt(front + [last], p, after)
  {
    var segs := Segments(last.key);
    assert (front + [last])[..|front|] == front;
    NoneBelowNoneAt(front, p);
  }

  lemma WalkIsRight(level: seq<Node>, front: seq<Tag>, last: Tag, p: seq<string>)
    requires |p| > 0 && RightAt(front, p, Lookup(level, "", p))
    ensures RightAt(front + [last], p, Lookup(Walk(level, "", 0, Segments(last.key), last), "", p))
  {
    var after := Lookup(Walk(level, "", 0, Segments(last.key), last), "", p);
    WalkAt(level, "", 0, Segments(last.key), last, p);
    RightAfterWalk(front, last, p, Lookup(level, "", p), after);
  }

  lemma SplitLast(tags: seq<Tag>) returns (front: seq<Tag>, last: Tag)
    requires |tags| > 0
    ensures tags == front + [last]
    ensures Build(tags) == Walk(Build(front), "", 0, Segments(last.key), last)
  {
    front, last := tags[..|tags| - 1], tags[|tags| - 1];
  }

  /** The tree before sorting is the exact trie of the tags: a node at `p` exactly when some
      tag lies at or below `p`, counting them, with its own tags plus its children's counts. */
  lemma {:induction false} BuildIsTrie(tags: seq<Tag>, p: seq<string>)
    requires |p| > 0
    ensures RightAt(tags, p, Lookup(Build(tags), "", p))
    decreases |tags|
  {
    if |tags| > 0 {
      var front, last := SplitLast(tags);
      BuildIsTrie(front, p);
      WalkIsRight(Build(front), front, last, p);
    }
  }

  // ---------------------------------------------------------------------------
  // Nothing is listed twice, and nothing else is listed.

  ghost predicate DistinctPaths(level: seq<Node>) {
    forall i, j :: 0 <= i < j < |level| ==> level[i].path != level[j].path
  }

  ghost predicate ChildOf(node: Node, prefix: string) {
    exists segment :: IsSegment(segment) && node.path == Extend(prefix, segment)
  }

  ghost predicate Tidy(level: seq<Node>, prefix: string)
    decreases level
  {
    DistinctPaths(level) && forall n :: n in level ==> ChildOf(n, prefix) && Tidy(n.children, n.path)
  }

  lemma {:induction false} WalkIsTidy(level: seq<Node>, prefix: string, depth: nat, segs: seq<string>, tag: Tag)
    requires Tidy(level, prefix) && forall x :: x in segs ==> IsSegment(x)
    ensures Tidy(Walk(level, prefix, depth, segs, tag), prefix)
    decreases |segs|
  {
    if |segs| > 0 {
      var path := Extend(prefix, segs[0]);
      var at := IndexOf(level, path);
      var children := if at < |level| then level[at].children else [];
      WalkIsTidy(children, path, depth + 1, segs[1..], tag);
      var r := Walk(level, prefix, depth, segs, tag);
      assert IsSegment(segs[0]) && r[at].path == Extend(prefix, segs[0]);
      forall n | n in r ensures ChildOf(n, prefix) && Tidy(n.children, n.path) {
        if n != r[at] { assert n in level; }
      }
    }
  }

  lemma {:induction false} BuildIsTidy(tags: seq<Tag>)
    ensures Tidy(Build(tags), "")
  {
    if |tags| > 0 {
      BuildIsTidy(tags[..|tags| - 1]);
      var last := tags[|tags| - 1];
      SegmentsAreSegments(last.key, "");
      WalkIsTidy(Build(tags[..|tags| - 1]), "", 0, Segments(last.key), last);
    }
  }

  // ---------------------------------------------------------------------------
  // Sorting changes order only.

  lemma FindIs(level: seq<Node>, node: Node)
    requires DistinctPaths(level) && node in level
    ensures Find(level, node.path) == Some(node)
  {
  }

  lemma FindNone(level: seq<Node>, path: string)
    requires forall n :: n in level ==> n.path != path
    ensures Find(level, path) == None
  {
  }

  lemma {:induction false} InsertSum(x: Node, s: seq<Node>)
    ensures Sum(Insert(x, s, MoreTags)) == x.subtagCount + Sum(s)
  {
    if |s| == 0 || MoreTags(x, s[0]) {
      assert ([x] + s)[1..] == s;
    } else {
      var rest := Insert(x, s[1..], MoreTags);
      InsertSum(x, s[1..]);
      assert ([s[0]] + rest)[1..] == rest;
    }
  }

  lemma {:induction false} SortSum(s: seq<Node>)
    ensures Sum(Sort(s, MoreTags)) == Sum(s)
  {
    if |s| > 0 {
      SortSum(s[1..]);
      InsertSum(s[0], Sort(s[1..], MoreTags));
    }
  }

  lemma SortIsDistinct(s: seq<Node>)
    requires DistinctPaths(s)
    ensures DistinctPaths(Sort(s, MoreTags))
  {
    SortKeepsDistinct(s, MoreTags, (n: Node) => n.path);
  }

  function Converted(node: Node): Node {
    node.(children := Out(node.children))
  }

  lemma {:induction false} OutEachAt(level: seq<Node>, i: nat)
    requires i < |level|
    ensures OutEach(level)[i] == Converted(level[i])
  {
    if i > 0 {
      OutEachAt(level[1..], i - 1);
      assert OutEach(level) == [Converted(level[0])] + OutEach(level[1..]);
    }
  }

  lemma {:induction false} OutEachSum(level: seq<Node>)
    ensures Sum(OutEach(level)) == Sum(level)
  {
    if |level| > 0 {
      OutEachSum(level[1..]);
      assert OutEach(level)[1..] == OutEach(level[1..]);
    }
  }

  lemma OutEachIsDistinct(level: seq<Node>)
    requires DistinctPaths(level)
    ensures DistinctPaths(OutEach(level))
    ensures forall n :: n in OutEach(level) ==> exists source :: source in level && n == Converted(source)
  {
    forall i | 0 <= i < |level| ensures OutEach(level)[i] == Converted(level[i]) {
      OutEachAt(level, i);
    }
    forall n | n in OutEach(level) ensures exists source :: source in level && n == Converted(source) {
      var source := ConvertedFrom(level, n);
    }
  }

  lemma ConvertedFrom(level: seq<Node>, n: Node) returns (source: Node)
    requires n in OutEach(level)
    ensures source in level && n == Converted(source)
  {
    var i :| 0 <= i < |level| && OutEach(level)[i] == n;
    OutEachAt(level, i);
    source := level[i];
  }

  lemma FindOut(level: seq<Node>, path: string)
    requires DistinctPaths(level)
    ensures var found := Find(level, path);
      Find(Out(level), path) == if found.Some? then Some(Converted(found.value)) else None
    ensures Sum(Out(level)) == Sum(level)
    ensures DistinctPaths(Out(level)) && Sorted(Out(level), MoreTags)
  {
    OutEachIsDistinct(level);
    OutEachSum(level);
    SortIsDistinct(OutEach(level));
    SortSum(OutEach(level));
    SortHas(OutEach(level), MoreTags);
    SortSorts(OutEach(level), MoreTags);
    var at := IndexOf(level, path);
    if at < |level| {
      OutEachAt(level, at);
      assert OutEach(level)[at] in OutEach(level);
      FindIs(Out(level), Converted(level[at]));
    } else {
      forall n | n in Out(level) ensures n.path != path {
        var source := ConvertedFrom(level, n);
      }
      FindNone(Out(level), path);
    }
  }

  lemma {:induction false} LookupOut(level: seq<Node>, prefix: string, p: seq<string>)
    requires |p| > 0 && Tidy(level, prefix)
    ensures var found := Lookup(level, prefix, p);
      Lookup(Out(level), prefix, p) == if found.Some? then Some(Converted(found.value)) else None
    ensures var found := Lookup(level, prefix, p);
      found.Some? ==> Tidy(found.value.children, found.value.path)
    decreases |p|
  {
    var path := Extend(prefix, p[0]);
    FindOut(level, path);
    var found := Find(level, path);
    if found.Some? {
      assert found.value in level;
      if |p| > 1 {
        LookupOut(found.value.children, path, p[1..]);
      }
    }
  }

  ghost predicate Ordered(level: seq<Node>)
    decreases level
  {
    Sorted(level, MoreTags) && forall n :: n in level ==> Ordered(n.children)
  }

  lemma {:induction false} OutIsOrdered(level: seq<Node>, prefix: string)
    requires Tidy(level, prefix)
    ensures Ordered(Out(level)) && Tidy(Out(level), prefix)
    decreases level
  {
    FindOut(level, "");
    OutEachIsDistinct(level);
    SortHas(OutEach(level), MoreTags);
    forall n | n in Out(level) ensures Ordered(n.children) && Tidy(n.children, n.path) && ChildOf(n, prefix) {
      var source := ConvertedFrom(level, n);
      OutIsOrdered(source.children, source.path);
    }
  }

  /** The outline shows, for every path of segments, exactly one node when some tag lies at or
      below it and none otherwise; a node counts those tags, which are its own and its
      children's; and every level is ordered by descending count. */
  lemma OutlineIsTrie(tags: seq<Tag>, p: seq<string>)
    requires |p| > 0
    ensures var out := Out(Build(tags));
      var found := Lookup(out, "", p);
      && RightAt(tags, p, found)
      && Tidy(out, "") && Ordered(out)
  {
    BuildIsTidy(tags);
    BuildIsTrie(tags, p);
    LookupOut(Build(tags), "", p);
    OutIsOrdered(Build(tags), "");
    var found := Lookup(Build(tags), "", p);
    if found.Some? {
      FindOut(found.value.children, "");
    }
  }

  // ---------------------------------------------------------------------------
  // Paths and segments are inverse to each other.

  lemma {:induction false} OnePiece(s: string, segment: string)
    requires '/' !in s
    ensures SegmentsFrom(s, segment) == Flush(segment + s)
    decreases |s|
  {
    if |s| > 0 {
      assert s[0] in s;
      OnePiece(s[1..], segment + [s[0]]);
      assert segment + [s[0]] + s[1..] == segment + s;
    } else {
      assert segment + s == segment;
    }
  }

  lemma {:induction false} SplitAtSlash(a: string, b: string, segment: string)
    ensures SegmentsFrom(a + "/" + b, segment) == SegmentsFrom(a, segment) + SegmentsFrom(b, "")
    decreases |a|
  {
    var s := a + "/" + b;
    if |a| == 0 {
      assert s == "/" + b && s[1..] == b;
    } else {
      assert s[0] == a[0] && s[1..] == a[1..] + "/" + b;
      SplitAtSlash(a[1..], b, if a[0] == '/' then "" else segment + [a[0]]);
    }
  }

  lemma SegmentsOfExtend(prefix: string, segment: string)
    requires IsSegment(segment)
    ensures Segments(Extend(prefix, segment)) == Segments(prefix) + [segment]
  {
    OnePiece(segment, "");
    assert "" + segment == segment;
    if prefix != "" {
      SplitAtSlash(prefix, segment, "");
    }
  }

  lemma {:induction false} SegmentsOfPath(prefix: string, p: seq<string>)
    requires forall x :: x in p ==> IsSegment(x)
    ensures Segments(PathOf(prefix, p)) == Segments(prefix) + p
    decreases |p|
  {
    if |p| == 0 {
      assert Segments(prefix) + p == Segments(prefix);
    } else {
      assert p[0] in p;
      SegmentsOfPath(Extend(prefix, p[0]), p[1..]);
      SegmentsOfExtend(prefix, p[0]);
      assert Segments(prefix) + [p[0]] + p[1..] == Segments(prefix) + p;
    }
  }

  lemma ExtendTwice(prefix: string, segment: string, rest: string)
    requires segment != ""
    ensures Extend(Extend(prefix, segment), rest) == Extend(prefix, segment + "/" + rest)
  {
    if prefix != "" {
      assert prefix + "/" + segment + "/" + rest == prefix + "/" + (segment + "/" + rest);
    }
  }

  /** No slash at either end and no two together. */
  ghost predicate SlashesSeparate(s: string) {
    && (forall i :: 0 < i < |s| ==> !(s[i - 1] == '/' && s[i] == '/'))
    && (|s| > 0 ==> s[|s| - 1] != '/')
  }

  lemma SlashesSeparateTail(s: string)
    requires |s| > 0 && SlashesSeparate(s)
    ensures SlashesSeparate(s[1..]) && (s[0] == '/' ==> |s| > 1 && s[1] != '/')
  {
    var rest := s[1..];
    assert forall i :: 0 < i < |rest| ==> rest[i - 1] == s[i] && rest[i] == s[i + 1];
    assert |s| > 1 ==> rest[|rest| - 1] == s[|s| - 1];
    assert |s| > 1 ==> !(s[0] == '/' && s[1] == '/');
  }

  lemma {:induction false} PathOfSegmentsFrom(s: string, segment: string, prefix: string)
    requires SlashesSeparate(s)
    requires segment == "" ==> |s| > 0 && s[0] != '/'
    ensures PathOf(prefix, SegmentsFrom(s, segment)) == Extend(prefix, segment + s)
    decreases |s|
  {
    if |s| == 0 {
      assert segment + s == segment;
      assert PathOf(prefix, [segment]) == PathOf(Extend(prefix, segment), []);
    } else {
      SlashesSeparateTail(s);
      if s[0] == '/' {
        PathOfSegmentsFrom(s[1..], "", Extend(prefix, segment));
        PathOfCons(prefix, segment, SegmentsFrom(s[1..], ""));
        assert "" + s[1..] == s[1..];
        ExtendTwice(prefix, segment, s[1..]);
        assert segment + "/" + s[1..] == segment + s;
      } else {
        PathOfSegmentsFrom(s[1..], segment + [s[0]], prefix);
        assert segment + [s[0]] + s[1..] == segment + s;
      }
    }
  }

  lemma PathOfCons(prefix: string, segment: string, segs: seq<string>)
    ensures PathOf(prefix, [segment] + segs) == PathOf(Extend(prefix, segment), segs)
  {
    assert ([segment] + segs)[1..] == segs;
  }

  lemma PathOfSegments(key: string)
    requires TagKey.Canonical(key) && key != ""
    ensures PathOf("", Segments(key)) == key
  {
    forall i | 0 < i < |key| ensures !(key[i - 1] == '/' && key[i] == '/') {
      assert !TagKey.BothSeparators(key[i - 1], key[i]);
    }
    PathOfSegmentsFrom(key, "", "");
    assert "" + key == key;
  }

  /** A node carries the title of the tag whose key is its path, or a title made from the path. */
  lemma {:induction false} BuildNames(tags: seq<Tag>, p: seq<string>)
    requires |p| > 0 && forall x :: x in p ==> IsSegment(x)
    ensures var found := Lookup(Build(tags), "", p);
      found.Some? ==> found.value.name == LabelFor(tags, PathOf("", p))
    decreases |tags|
  {
    if |tags| > 0 {
      var front, last := SplitLast(tags);
      BuildNames(front, p);
      WalkAt(Build(front), "", 0, Segments(last.key), last, p);
      SegmentsOfPath("", p);
      BuildIsTrie(front, p);
      if Below(front, p) == 0 {
        NoTagNoTitle(front, p);
      }
    }
  }

  lemma {:induction false} NoTagNoTitle(tags: seq<Tag>, p: seq<string>)
    requires |p| > 0 && Below(tags, p) == 0 && Segments(PathOf("", p)) == p
    ensures LabelFor(tags, PathOf("", p)) == NodeLabel(PathOf("", p))
  {
    if |tags| > 0 {
      NoTagNoTitle(tags[..|tags| - 1], p);
    }
  }

  lemma OutlineNames(tags: seq<Tag>, p: seq<string>)
    requires |p| > 0 && forall x :: x in p ==> IsSegment(x)
    ensures var found := Lookup(Out(Build(tags)), "", p);
      found.Some? ==> found.value.name == LabelFor(tags, PathOf("", p))
  {
    BuildIsTidy(tags);
    LookupOut(Build(tags), "", p);
    BuildNames(tags, p);
  }

  // ---------------------------------------------------------------------------
  // The listing behind the outline.

  predicate HasKey(tags: seq<Tag>, key: string) {
    exists i :: 0 <= i < |tags| && tags[i].key == key
  }

  /** The strongest row of each key, strongest first, until the limit is reached. */
  function Listed(lower: string -> string, rows: seq<Tag>, limit: nat): seq<Tag> {
    if |rows| == 0 then []
    else
      var before := Listed(lower, rows[..|rows| - 1], limit);
      var row := rows[|rows| - 1];
      var key := TagKey.Normalize(lower, row.key);
      if (|before| > 0 && |before| >= limit) || HasKey(before, key) then before else before + [Tag(key, row.name)]
  }

  lemma ListedAppend(lower: string -> string, rows: seq<Tag>, i: nat, limit: nat)
    requires i < |rows|
    ensures var before := Listed(lower, rows[..i], limit);
      var key := TagKey.Normalize(lower, rows[i].key);
      Listed(lower, rows[..i + 1], limit) ==
      if (|before| > 0 && |before| >= limit) || HasKey(before, key) then before else before + [Tag(key, rows[i].name)]
  {
    assert rows[..i + 1][..i] == rows[..i];
  }

  lemma {:induction false} ListedIsFull(lower: string -> string, rows: seq<Tag>, i: nat, limit: nat)
    requires i <= |rows| && |Listed(lower, rows[..i], limit)| > 0 && |Listed(lower, rows[..i], limit)| >= limit
    ensures Listed(lower, rows, limit) == Listed(lower, rows[..i], limit)
    decreases |rows| - i
  {
    if i == |rows| {
      assert rows[..i] == rows;
    } else {
      ListedAppend(lower, rows, i, limit);
      ListedIsFull(lower, rows, i + 1, limit);
    }
  }

  ghost predicate ListedSoFar(lower: string -> string, rows: seq<Tag>, i: nat, limit: nat, out: seq<Tag>,
          seen: set<string>)
    requires i <= |rows|
  {
    && out == Listed(lower, rows[..i], limit)
    && (out == [] || |out| < limit)
    && forall key :: key in seen <==> HasKey(out, key)
  }

  lemma ListOneMore(lower: string -> string, rows: seq<Tag>, i: nat, limit: nat, out: seq<Tag>, seen: set<string>,
          tag: Tag)
    requires i < |rows| && ListedSoFar(lower, rows, i, limit, out, seen)
    requires tag == Tag(TagKey.Normalize(lower, rows[i].key), rows[i].name)
    ensures tag.key in seen ==> ListedSoFar(lower, rows, i + 1, limit, out, seen)
    ensures tag.key !in seen && |out| + 1 < limit ==>
        ListedSoFar(lower, rows, i + 1, limit, out + [tag], seen + {tag.key})
    ensures tag.key !in seen && |out| + 1 >= limit ==> out + [tag] == Listed(lower, rows, limit)
  {
    ListedAppend(lower, rows, i, limit);
    HasKeyAppend(out, tag);
    if tag.key !in seen && |out| + 1 >= limit {
      ListedIsFull(lower, rows, i + 1, limit);
    }
  }

  /** `rows` come by descending use, most recent first. */
  method ListTags(lower: string -> string, rows: seq<Tag>, limit: nat) returns (out: seq<Tag>)
    ensures out == Listed(lower, rows, limit)
  {
    var seen: set<string> := {};
    out := [];
    var i := 0;
    while i < |rows|
      invariant 0 <= i <= |rows| && ListedSoFar(lower, rows, i, limit, out, seen)
    {
      var tag := Tag(TagKey.Normalize(lower, rows[i].key), rows[i].name);
      ListOneMore(lower, rows, i, limit, out, seen, tag);
      if tag.key !in seen {
        seen := seen + {tag.key};
        out := out + [tag];
        if |out| >= limit {
          return;
        }
      }
      i := i + 1;
    }
    assert rows[..i] == rows;
  }

  lemma HasKeyAppend(tags: seq<Tag>, tag: Tag)
    ensures forall key :: HasKey(tags + [tag], key) <==> HasKey(tags, key) || key == tag.key
  {
    assert (tags + [tag])[|tags|] == tag;
    forall key | HasKey(tags, key) ensures HasKey(tags + [tag], key) {
      var i :| 0 <= i < |tags| && tags[i].key == key;
      assert (tags + [tag])[i].key == key;
    }
  }

  ghost predicate DistinctKeys(tags: seq<Tag>) {
    forall i, j :: 0 <= i < j < |tags| ==> tags[i].key != tags[j].key
  }

  /** Every row of the registry holds a key that went through the normaliser. */
  ghost predicate Registered(lower: string -> string, rows: seq<Tag>) {
    forall row :: row in rows ==> WasNormalized(lower, row.key)
  }

  ghost predicate WasNormalized(lower: string -> string, key: string) {
    exists text :: key == TagKey.Normalize(lower, text)
  }

  ghost predicate KeysAreCanonical(tags: seq<Tag>) {
    forall tag :: tag in tags ==> TagKey.Canonical(tag.key) && tag.key != ""
  }

  lemma ListedStep(before: seq<Tag>, tag: Tag)
    requires DistinctKeys(before) && KeysAreCanonical(before)
    requires TagKey.Canonical(tag.key) && tag.key != ""
    ensures HasKey(before, tag.key) || (DistinctKeys(before + [tag]) && KeysAreCanonical(before + [tag]))
  {
  }

  lemma RelistedKey(lower: string -> string, row: Tag)
    requires TagKey.LeavesKeysAlone(lower) && WasNormalized(lower, row.key)
    ensures var key := TagKey.Normalize(lower, row.key);
      TagKey.Canonical(key) && key != ""
  {
    var text :| row.key == TagKey.Normalize(lower, text);
    TagKey.TwiceIsCanonical(lower, text);
  }

  /** Listing normalises a second time, so that no listed key ends in a separator. */
  lemma {:induction false} ListedKeys(lower: string -> string, rows: seq<Tag>, limit: nat)
    requires TagKey.LeavesKeysAlone(lower) && Registered(lower, rows)
    ensures DistinctKeys(Listed(lower, rows, limit)) && KeysAreCanonical(Listed(lower, rows, limit))
  {
    if |rows| > 0 {
      var front := rows[..|rows| - 1];
      var row := rows[|rows| - 1];
      assert rows == front + [row];
      ListedKeys(lower, front, limit);
      RelistedKey(lower, row);
      ListedStep(Listed(lower, front, limit), Tag(TagKey.Normalize(lower, row.key), row.name));
    }
  }

  /** The keys of the rows, normalised once more. */
  ghost predicate KeysOf(lower: string -> string, rows: seq<Tag>, keys: seq<string>) {
    |keys| == |rows| && forall i :: 0 <= i < |rows| ==> keys[i] == TagKey.Normalize(lower, rows[i].key)
  }

  ghost predicate FirstOfItsKey(keys: seq<string>, i: nat) {
    i < |keys| && forall j :: 0 <= j < i ==> keys[j] != keys[i]
  }

  lemma {:induction false} SomeFirst(keys: seq<string>, j: nat) returns (i: nat)
    requires j < |keys|
    ensures i <= j && keys[i] == keys[j] && FirstOfItsKey(keys, i)
  {
    if k :| 0 <= k < j && keys[k] == keys[j] {
      i := SomeFirst(keys, k);
    } else {
      i := j;
    }
  }

  /** `at` are the places of the listed rows: the first row of each key, in order, up to the limit. */
  ghost predicate ListsFirsts(rows: seq<Tag>, keys: seq<string>, limit: nat, out: seq<Tag>, at: seq<nat>)
    requires |keys| == |rows|
  {
    && |at| == |out| && (out == [] || |out| <= limit || |out| == 1)
    && (forall k :: 0 <= k < |at| ==>
          FirstOfItsKey(keys, at[k]) && out[k] == Tag(keys[at[k]], rows[at[k]].name))
    && (forall k, l :: 0 <= k < l < |at| ==> at[k] < at[l])
    && (forall i :: 0 <= i < |keys| && FirstOfItsKey(keys, i) ==>
          i in at || (out != [] && |out| >= limit && forall k :: 0 <= k < |at| ==> at[k] < i))
  }

  lemma FirstsStay(keys: seq<string>, key: string)
    ensures forall i :: 0 <= i < |keys| ==> (FirstOfItsKey(keys + [key], i) <==> FirstOfItsKey(keys, i))
    ensures FirstOfItsKey(keys + [key], |keys|) <==> key !in keys
  {
    var after := keys + [key];
    assert after[|keys|] == key && forall j :: 0 <= j < |keys| ==> after[j] == keys[j];
  }

  lemma ListedHasKey(rows: seq<Tag>, keys: seq<string>, limit: nat, out: seq<Tag>, at: seq<nat>, key: string)
    requires |keys| == |rows| && ListsFirsts(rows, keys, limit, out, at)
    ensures HasKey(out, key) ==> key in keys
    ensures key in keys && !(out != [] && |out| >= limit) ==> HasKey(out, key)
  {
    if HasKey(out, key) {
      var k :| 0 <= k < |out| && out[k].key == key;
      assert keys[at[k]] == key;
    }
    if key in keys && !(out != [] && |out| >= limit) {
      var j :| 0 <= j < |keys| && keys[j] == key;
      var i := SomeFirst(keys, j);
      var k :| 0 <= k < |at| && at[k] == i;
      assert out[k].key == key;
    }
  }

  lemma RowPassedOver(rows: seq<Tag>, keys: seq<string>, limit: nat, out: seq<Tag>, at: seq<nat>, row: Tag, key: string)
    requires |keys| == |rows| && ListsFirsts(rows, keys, limit, out, at)
    requires (out != [] && |out| >= limit) || HasKey(out, key)
    ensures ListsFirsts(rows + [row], keys + [key], limit, out, at)
  {
    FirstsStay(keys, key);
    ListedHasKey(rows, keys, limit, out, at, key);
  }

  lemma RowListed(rows: seq<Tag>, keys: seq<string>, limit: nat, out: seq<Tag>, at: seq<nat>, row: Tag, key: string)
    requires |keys| == |rows| && ListsFirsts(rows, keys, limit, out, at)
    requires !((out != [] && |out| >= limit) || HasKey(out, key))
    ensures ListsFirsts(rows + [row], keys + [key], limit, out + [Tag(key, row.name)], at + [|rows|])
  {
    FirstsStay(keys, key);
    ListedHasKey(rows, keys, limit, out, at, key);
    var next := at + [|rows|];
    assert next[|at|] == |rows| && forall i :: i in at ==> i in next;
  }

  /** The listing, given the normalised keys. */
  function ListedBy(rows: seq<Tag>, keys: seq<string>, limit: nat): seq<Tag>
    requires |keys| == |rows|
    decreases |rows|
  {
    if |rows| == 0 then []
    else
      var n := |rows| - 1;
      var before := ListedBy(rows[..n], keys[..n], limit);
      if (before != [] && |before| >= limit) || HasKey(before, keys[n]) then before
      else before + [Tag(keys[n], rows[n].name)]
  }

  lemma {:induction false} ListedIsBy(lower: string -> string, rows: seq<Tag>, keys: seq<string>, limit: nat)
    requires KeysOf(lower, rows, keys)
    ensures Listed(lower, rows, limit) == ListedBy(rows, keys, limit)
    decreases |rows|
  {
    if |rows| > 0 {
      var n := |rows| - 1;
      ListedIsBy(lower, rows[..n], keys[..n], limit);
      assert keys[n] == TagKey.Normalize(lower, rows[n].key);
    }
  }

  lemma {:induction false} ListsFirstRows(rows: seq<Tag>, keys: seq<string>, limit: nat) returns (at: seq<nat>)
    requires |keys| == |rows|
    ensures ListsFirsts(rows, keys, limit, ListedBy(rows, keys, limit), at)
    decreases |rows|
  {
    at := [];
    if |rows| > 0 {
      var n := |rows| - 1;
      at := ListsFirstRows(rows[..n], keys[..n], limit);
      assert rows == rows[..n] + [rows[n]] && keys == keys[..n] + [keys[n]];
      var out := ListedBy(rows[..n], keys[..n], limit);
      if (out != [] && |out| >= limit) || HasKey(out, keys[n]) {
        RowPassedOver(rows[..n], keys[..n], limit, out, at, rows[n], keys[n]);
      } else {
        RowListed(rows[..n], keys[..n], limit, out, at, rows[n], keys[n]);
        at := at + [n];
      }
    }
  }

  /** The listing shows the first, strongest row of each normalised key, in the order of the rows,
      and stops at the limit. */
  lemma ListingIs(lower: string -> string, rows: seq<Tag>, keys: seq<string>, limit: nat) returns (at: seq<nat>)
    requires KeysOf(lower, rows, keys)
    ensures ListsFirsts(rows, keys, limit, Listed(lower, rows, limit), at)
  {
    ListedIsBy(lower, rows, keys, limit);
    at := ListsFirstRows(rows, keys, limit);
  }

  lemma SegmentsTellKeysApart(a: string, b: string)
    requires TagKey.Canonical(a) && a != "" && TagKey.Canonical(b) && b != "" && a != b
    ensures Segments(a) != Segments(b)
  {
    PathOfSegments(a);
    PathOfSegments(b);
  }

  lemma {:induction false} AtMostOneAt(tags: seq<Tag>, p: seq<string>)
    requires DistinctKeys(tags) && KeysAreCanonical(tags)
    ensures At(tags, p) <= 1
    ensures At(tags, p) > 0 <==> exists tag :: tag in tags && Segments(tag.key) == p
  {
    if |tags| > 0 {
      var front := tags[..|tags| - 1];
      var last := tags[|tags| - 1];
      assert tags == front + [last];
      AtMostOneAt(front, p);
      forall tag | tag in front ensures Segments(tag.key) != Segments(last.key) {
        var i :| 0 <= i < |front| && front[i] == tag;
        assert tags[i].key != tags[|tags| - 1].key;
        SegmentsTellKeysApart(tag.key, last.key);
      }
    }
  }

  lemma {:induction false} BelowIsSegments(tags: seq<Tag>, p: seq<string>)
    requires Below(tags, p) > 0
    ensures forall x :: x in p ==> IsSegment(x)
  {
    var last := tags[|tags| - 1];
    if p <= Segments(last.key) {
      SegmentsAreSegments(last.key, "");
    } else {
      BelowIsSegments(tags[..|tags| - 1], p);
    }
  }

  /** Standing at `p` is having the path of `p` as key. */
  lemma OwnKey(tags: seq<Tag>, p: seq<string>)
    requires KeysAreCanonical(tags) && Below(tags, p) > 0
    ensures (exists tag :: tag in tags && Segments(tag.key) == p) <==> HasKey(tags, PathOf("", p))
  {
    BelowIsSegments(tags, p);
    SegmentsOfPath("", p);
    forall tag | tag in tags ensures PathOf("", Segments(tag.key)) == tag.key {
      PathOfSegments(tag.key);
    }
    if tag :| tag in tags && Segments(tag.key) == p {
      assert tag.key == PathOf("", p);
    }
  }

  /** From the registry to the outline: at most one tag stands at a node, so a node's count is
      its children's, plus one exactly when its own path is a key. */
  lemma OutlineCounts(lower: string -> string, rows: seq<Tag>, limit: nat, shown: seq<Tag>, p: seq<string>)
    requires TagKey.LeavesKeysAlone(lower) && Registered(lower, rows)
    requires |p| > 0
    requires DistinctKeys(shown) && forall tag :: tag in shown ==> tag in Listed(lower, rows, limit)
    ensures var found := Lookup(Out(Build(shown)), "", p);
      found.Some? ==>
        found.value.subtagCount == Sum(found.value.children) + if HasKey(shown, PathOf("", p)) then 1 else 0
  {
    ListedKeys(lower, rows, limit);
    AtMostOneAt(shown, p);
    OutlineIsTrie(shown, p);
    if Below(shown, p) > 0 {
      OwnKey(shown, p);
    }
  }
}
