/** Splitting a crowded topic (`maybeSplitNode` in `src/brain/memory/split.ts`). */
module Split {
  import opened Prelude
  import opened NodeRegistry
  import ResetFence
  import opened TagKey

  // ---------------------------------------------------------------------------
  // Where a child's path lies.

  function GapAfter(s: string, gap: Gap): Gap {
    if |s| == 0 then gap else GapAfter(s[1..], if Alnum(s[0]) then Adjacent else Widen(gap, s[0]))
  }

  lemma {:induction false} WordsConcat(a: string, b: string, gap: Gap)
    ensures Words(a + b, gap) == Words(a, gap) + Words(b, GapAfter(a, gap))
    decreases |a|
  {
    if |a| == 0 {
      assert a + b == b;
    } else {
      assert (a + b)[1..] == a[1..] + b;
      WordsConcat(a[1..], b, if Alnum(a[0]) then Adjacent else Widen(gap, a[0]));
    }
  }

  lemma {:induction false} GapAfterWords(s: string, gap: Gap)
    requires Words(s, gap) != "" || !gap.Start?
    ensures !GapAfter(s, gap).Start?
  {
    if |s| > 0 && !Alnum(s[0]) {
      GapAfterWords(s[1..], Widen(gap, s[0]));
    } else if |s| > 0 {
      GapAfterWords(s[1..], Adjacent);
    }
  }

  lemma {:induction false} HardLead(s: string)
    ensures Words(s, Hard) == if Words(s, Start) == "" then "" else "/" + Words(s, Start)
  {
    if |s| > 0 && !Alnum(s[0]) {
      HardLead(s[1..]);
    }
  }

  lemma WordsJoin(path: string, segment: string)
    requires Words(path, Start) != ""
    ensures Words(path + "/" + segment, Start) ==
            if Words(segment, Start) == "" then Words(path, Start) else Words(path, Start) + "/" + Words(segment, Start)
  {
    var tail := "/" + segment;
    assert path + "/" + segment == path + tail;
    WordsConcat(path, tail, Start);
    GapAfterWords(path, Start);
    assert tail[1..] == segment;
    HardLead(segment);
  }

  /** A path and a segment joined by a slash clean up to the two cleaned, joined by a slash. */
  lemma CleanJoin(path: string, segment: string)
    requires Clean(path) != ""
    ensures Clean(path + "/" + segment) ==
        if Clean(segment) == "" then Clean(path) else Clean(path) + "/" + Clean(segment)
  {
    CleanIsWords(path);
    CleanIsWords(segment);
    CleanIsWords(path + "/" + segment);
    WordsJoin(path, segment);
  }

  /** The key a child is given, and the path its documents are moved to: the key normalised again. */
  function ChildKey(lower: string -> string, nodePath: string, segment: string): string {
    Normalize(lower, nodePath + "/" + segment)
  }

  lemma CutJoin(parent: string, segment: string)
    requires Canonical(parent) && 0 < |parent| <= TAG_KEY_MAX && Canonical(segment) && segment != ""
    ensures var key := Cut(parent + "/" + segment);
      && key != "" && |key| <= TAG_KEY_MAX && Spaced(key, BothSeparators) && !Separator(key[0])
      && (if |parent| == 128 then key == parent
          else if |parent| == 127 then key == parent + "/"
          else |key| > |parent| + 1 && parent + "/" <= key)
  {
    var whole := parent + "/" + segment;
    var key := Cut(whole);
    assert whole[..|parent|] == parent && whole[|parent|] == '/' && whole[|parent| + 1..] == segment;
    forall i | 0 < i < |whole| ensures !BothSeparators(whole[i - 1], whole[i]) {
      if i < |parent| {
        assert !BothSeparators(parent[i - 1], parent[i]);
      } else if i > |parent| + 1 {
        assert !BothSeparators(segment[i - |parent| - 2], segment[i - |parent| - 1]);
      }
    }
    assert key == whole[..|key|];
    if |parent| == 127 {
      assert key == parent + "/";
    } else if |parent| < 127 {
      assert key[..|parent| + 1] == parent + "/";
    }
  }

  lemma ChildKeyIs(lower: string -> string, nodePath: string, segment: string)
    requires LeavesKeysAlone(lower) && InKeyAlphabet(nodePath) && InKeyAlphabet(segment)
    requires Clean(nodePath) != "" && Clean(segment) != ""
    ensures ChildKey(lower, nodePath, segment) == Cut(Clean(nodePath) + "/" + Clean(segment))
  {
    var whole := nodePath + "/" + segment;
    assert InKeyAlphabet(whole);
    NormalizeInAlphabet(lower, whole);
    CleanJoin(nodePath, segment);
  }

  lemma PathFromKey(lower: string -> string, parent: string, key: string)
    requires LeavesKeysAlone(lower) && 0 < |parent|
    requires 0 < |key| <= TAG_KEY_MAX && Spaced(key, BothSeparators) && !Separator(key[0])
    ensures |key| > |parent| + 1 && parent + "/" <= key ==>
        parent + "/" <= Normalize(lower, key) && Normalize(lower, key) != parent
    ensures key == parent + "/" ==> Normalize(lower, key) == parent
    ensures key == parent && !EndsInSeparator(key) ==> Normalize(lower, key) == parent
  {
    NormalizeAgain(lower, key);
    if EndsInSeparator(key) {
      FrontIsCanonical(key);
      if |key| > |parent| + 1 && parent + "/" <= key {
        assert key[..|key| - 1][..|parent| + 1] == key[..|parent| + 1];
        assert |key| - 1 > |parent|;
      }
    }
  }

  /** Where a child's documents go. Room for the slash and a letter makes the child a proper
      child; with 127 characters its path is the parent's own, and with 128 its key is the
      parent's as well, which is the case the split drops. */
  lemma ChildLies(lower: string -> string, nodePath: string, segment: string)
    requires LeavesKeysAlone(lower) && InKeyAlphabet(nodePath) && InKeyAlphabet(segment)
    requires Clean(nodePath) != "" && |Clean(nodePath)| <= TAG_KEY_MAX && Clean(segment) != ""
    ensures var parent := Normalize(lower, nodePath);
      var key := ChildKey(lower, nodePath, segment);
      var path := Normalize(lower, key);
      && parent == Clean(nodePath) && Inside(path, parent)
      && (path != parent <==> |parent| <= 126)
      && (key == parent <==> |parent| == 128)
  {
    CleanIsCanonical(nodePath);
    CleanIsCanonical(segment);
    CutJoin(Clean(nodePath), Clean(segment));
    ChildKeyIs(lower, nodePath, segment);
    NormalizeInAlphabet(lower, nodePath);
    PathFromKey(lower, Clean(nodePath), ChildKey(lower, nodePath, segment));
  }

  // ---------------------------------------------------------------------------
  // Later child wins.

  datatype Update = Update(docs: seq<string>, path: string)

  /** The last child that lists a document. */
  function Winner(updates: seq<Update>, doc: string): (w: Option<nat>)
    ensures w.Some? ==> w.value < |updates|
  {
    if |updates| == 0 then None
    else if doc in updates[|updates| - 1].docs then Some(|updates| - 1)
    else Winner(updates[..|updates| - 1], doc)
  }

  lemma {:induction false} WinnerIs(updates: seq<Update>, doc: string)
    ensures Winner(updates, doc).None? <==> forall u :: 0 <= u < |updates| ==> doc !in updates[u].docs
    ensures var w := Winner(updates, doc);
      w.Some? ==> doc in updates[w.value].docs && forall u :: w.value < u < |updates| ==> doc !in updates[u].docs
  {
    if |updates| > 0 {
      WinnerIs(updates[..|updates| - 1], doc);
    }
  }

  predicate IsWinner(updates: seq<Update>, u: nat, doc: string) {
    Winner(updates, doc) == Some(u)
  }

  function Won(updates: seq<Update>, u: nat, docs: seq<string>): seq<string> {
    if |docs| == 0 then []
    else
      var front := Won(updates, u, docs[..|docs| - 1]);
      var doc := docs[|docs| - 1];
      if IsWinner(updates, u, doc) && doc !in front then front + [doc] else front
  }

  function Assigned(updates: seq<Update>, n: nat): seq<Update>
    requires n <= |updates|
  {
    if n == 0 then []
    else
      var docs := Won(updates, n - 1, updates[n - 1].docs);
      Assigned(updates, n - 1) + if docs == [] then [] else [Update(docs, updates[n - 1].path)]
  }

  method WinnerMap(updates: seq<Update>) returns (winning: map<string, nat>)
    ensures forall doc :: doc in winning <==> Winner(updates, doc).Some?
    ensures forall doc :: doc in winning ==> Winner(updates, doc) == Some(winning[doc])
  {
    winning := map[];
    var u := 0;
    while u < |updates|
      invariant 0 <= u <= |updates|
      invariant forall doc :: doc in winning <==> Winner(updates[..u], doc).Some?
      invariant forall doc :: doc in winning ==> Winner(updates[..u], doc) == Some(winning[doc])
    {
      ghost var before := winning;
      var docs := updates[u].docs;
      var k := 0;
      while k < |docs|
        invariant 0 <= k <= |docs|
        invariant forall doc :: doc in winning <==> doc in before || doc in docs[..k]
        invariant forall doc :: doc in winning ==> winning[doc] == if doc in docs[..k] then u else before[doc]
      {
        winning := winning[docs[k] := u];
        k := k + 1;
      }
      assert docs[..k] == docs;
      assert updates[..u + 1][..u] == updates[..u];
      u := u + 1;
    }
    assert updates[..u] == updates;
  }

  /** The winner map first, then each child's own documents, children left with none dropped. */
  method AssignWinners(updates: seq<Update>) returns (repoints: seq<Update>)
    ensures repoints == Assigned(updates, |updates|)
  {
    var winning := WinnerMap(updates);
    repoints := [];
    var u := 0;
    while u < |updates|
      invariant 0 <= u <= |updates| && repoints == Assigned(updates, u)
    {
      var docs := updates[u].docs;
      var won: seq<string> := [];
      var k := 0;
      while k < |docs|
        invariant 0 <= k <= |docs| && won == Won(updates, u, docs[..k])
      {
        assert docs[..k + 1][..k] == docs[..k];
        if docs[k] in winning && winning[docs[k]] == u && docs[k] !in won {
          won := won + [docs[k]];
        }
        k := k + 1;
      }
      assert docs[..k] == docs;
      if won != [] {
        repoints := repoints + [Update(won, updates[u].path)];
      }
      u := u + 1;
    }
  }

  lemma {:induction false} WonIs(updates: seq<Update>, u: nat, docs: seq<string>)
    ensures forall d :: d in Won(updates, u, docs) <==> d in docs && IsWinner(updates, u, d)
    ensures forall i, j :: 0 <= i < j < |Won(updates, u, docs)| ==> Won(updates, u, docs)[i] != Won(updates, u, docs)[j]
  {
    if |docs| > 0 {
      WonIs(updates, u, docs[..|docs| - 1]);
      assert docs == docs[..|docs| - 1] + [docs[|docs| - 1]];
    }
  }

  ghost predicate Lists(plan: seq<Update>, doc: string) {
    exists r :: r in plan && doc in r.docs
  }

  /** Each document to one child only. */
  ghost predicate Disjoint(plan: seq<Update>) {
    forall i, j, doc :: 0 <= i < j < |plan| && doc in plan[i].docs ==> doc !in plan[j].docs
  }

  ghost predicate ComesFrom(updates: seq<Update>, n: nat, r: Update)
    requires n <= |updates|
  {
    exists u :: 0 <= u < n && r.path == updates[u].path && r.docs == Won(updates, u, updates[u].docs)
  }

  lemma {:induction false} AssignedComesFrom(updates: seq<Update>, n: nat)
    requires n <= |updates|
    ensures forall r :: r in Assigned(updates, n) ==> ComesFrom(updates, n, r)
    ensures forall u :: 0 <= u < n && Won(updates, u, updates[u].docs) != [] ==>
              Update(Won(updates, u, updates[u].docs), updates[u].path) in Assigned(updates, n)
  {
    if n > 0 {
      AssignedComesFrom(updates, n - 1);
      var docs := Won(updates, n - 1, updates[n - 1].docs);
      forall r | r in Assigned(updates, n) ensures ComesFrom(updates, n, r) {
        if r in Assigned(updates, n - 1) {
          var u :| 0 <= u < n - 1 && r.path == updates[u].path && r.docs == Won(updates, u, updates[u].docs);
        }
      }
    }
  }

  lemma {:induction false} AssignedIsDisjoint(updates: seq<Update>, n: nat)
    requires n <= |updates|
    ensures Disjoint(Assigned(updates, n))
  {
    if n > 0 {
      AssignedIsDisjoint(updates, n - 1);
      AssignedComesFrom(updates, n - 1);
      var front := Assigned(updates, n - 1);
      WonIs(updates, n - 1, updates[n - 1].docs);
      forall i, doc | 0 <= i < |front| && doc in front[i].docs ensures !IsWinner(updates, n - 1, doc) {
        assert front[i] in front;
        EarlierWins(updates, n - 1, front[i], doc);
      }
    }
  }

  lemma EarlierWins(updates: seq<Update>, n: nat, r: Update, doc: string)
    requires n < |updates| && ComesFrom(updates, n, r) && doc in r.docs
    ensures !IsWinner(updates, n, doc)
  {
    var u :| 0 <= u < n && r.path == updates[u].path && r.docs == Won(updates, u, updates[u].docs);
    WonIs(updates, u, updates[u].docs);
  }

  /** Later child wins: the assigned sets are disjoint, together they hold exactly the documents
      any child listed, and each document goes to the path of the last child that listed it. */
  lemma LaterChildWins(updates: seq<Update>, doc: string)
    ensures var plan := Assigned(updates, |updates|);
      && Disjoint(plan)
      && (Lists(plan, doc) <==> Lists(updates, doc))
      && (forall r :: r in plan && doc in r.docs ==>
            Winner(updates, doc).Some? && r.path == updates[Winner(updates, doc).value].path)
  {
    var plan := Assigned(updates, |updates|);
    AssignedIsDisjoint(updates, |updates|);
    AssignedComesFrom(updates, |updates|);
    WinnerIs(updates, doc);
    forall r | r in plan && doc in r.docs
      ensures Winner(updates, doc).Some? && r.path == updates[Winner(updates, doc).value].path && Lists(updates, doc)
    {
      var u :| 0 <= u < |updates| && r.path == updates[u].path && r.docs == Won(updates, u, updates[u].docs);
      WonIs(updates, u, updates[u].docs);
      assert updates[u] in updates;
    }
    if Lists(updates, doc) {
      var w := Winner(updates, doc).value;
      WonIs(updates, w, updates[w].docs);
      assert Update(Won(updates, w, updates[w].docs), updates[w].path) in plan;
    }
  }

  // ---------------------------------------------------------------------------
  // The moves, for whichever children's metadata updates succeed.

  /** `updated` says whether the metadata call of this child succeeded. */
  datatype Repoint = Repoint(docs: seq<string>, path: string, updated: bool)

  function ApplyPlan(rows: Rows, tag: string, parent: string, plan: seq<Repoint>, epoch: nat): Rows {
    if |plan| == 0 then rows
    else
      var before := ApplyPlan(rows, tag, parent, plan[..|plan| - 1], epoch);
      var last := plan[|plan| - 1];
      if last.updated then Moves(before, last.docs, tag, parent, last.path, epoch).0 else before
  }

  /** Some child of the plan takes this document, from the parent, to this path. */
  ghost predicate Sends(plan: seq<Repoint>, doc: string, path: string) {
    exists r :: r in plan && r.updated && r.path == path && doc in r.docs
  }

  ghost predicate Leaves(plan: seq<Repoint>, doc: string, parent: string) {
    exists r :: r in plan && r.updated && r.path != parent && doc in r.docs
  }

  /** Which rows a split leaves. */
  ghost predicate SplitRow(rows: Rows, tag: string, parent: string, plan: seq<Repoint>, m: Mapping) {
    if m.tag != tag then m in rows
    else if m.path == parent then m in rows && !Leaves(plan, m.doc, parent)
    else m in rows || (Sends(plan, m.doc, m.path) && Mapping(m.doc, tag, parent) in rows)
  }

  ghost predicate DisjointPlan(plan: seq<Repoint>) {
    forall i, j, doc :: 0 <= i < j < |plan| && doc in plan[i].docs ==> doc !in plan[j].docs
  }

  lemma SendsAppend(front: seq<Repoint>, last: Repoint, doc: string, path: string)
    ensures Sends(front + [last], doc, path) <==>
        Sends(front, doc, path) || (last.updated && last.path == path && doc in last.docs)
    ensures Leaves(front + [last], doc, path) <==>
        Leaves(front, doc, path) || (last.updated && last.path != path && doc in last.docs)
  {
    assert forall r :: r in front + [last] <==> r in front || r == last;
  }

  /** The documents of one child are not in the others. */
  lemma NotSentBefore(front: seq<Repoint>, last: Repoint, doc: string, parent: string)
    requires DisjointPlan(front + [last]) && doc in last.docs
    ensures !Leaves(front, doc, parent)
  {
    var plan := front + [last];
    forall r | r in front ensures doc !in r.docs {
      var i :| 0 <= i < |front| && front[i] == r;
      assert plan[i] == r && plan[|front|] == last;
    }
  }

  lemma {:induction false} PlanIsExact(rows: Rows, tag: string, parent: string, plan: seq<Repoint>, epoch: nat,
          m: Mapping)
    requires DisjointPlan(plan)
    ensures m in ApplyPlan(rows, tag, parent, plan, epoch) <==> SplitRow(rows, tag, parent, plan, m)
    decreases |plan|
  {
    if |plan| > 0 {
      var front := plan[..|plan| - 1];
      var last := plan[|plan| - 1];
      assert plan == front + [last];
      var before := ApplyPlan(rows, tag, parent, front, epoch);
      PlanIsExact(rows, tag, parent, front, epoch, m);
      PlanIsExact(rows, tag, parent, front, epoch, Mapping(m.doc, tag, parent));
      SendsAppend(front, last, m.doc, m.path);
      SendsAppend(front, last, m.doc, parent);
      if last.updated {
        MovesAt(before, last.docs, tag, parent, last.path, epoch, m);
        if m.doc in last.docs {
          NotSentBefore(front, last, m.doc, parent);
        }
      }
    }
  }

  ghost predicate StaysInside(plan: seq<Repoint>, parent: string) {
    forall r :: r in plan ==> Inside(r.path, parent)
  }

  lemma UnderHas(rows: Rows, tag: string, p: string, m: Mapping)
    requires m in rows && m.tag == tag && Inside(m.path, p)
    ensures m.doc in Under(rows, tag, p)
  {
  }

  lemma UnderFrom(rows: Rows, tag: string, p: string, doc: string) returns (m: Mapping)
    requires doc in Under(rows, tag, p)
    ensures m in rows && m.tag == tag && m.doc == doc && Inside(m.path, p)
  {
    m :| m in rows && m.tag == tag && Inside(m.path, p) && m.doc == doc;
  }

  /** A split loses no document and invents none: whichever children's metadata updates failed,
      whatever the cut did to a path, a reader of the parent, or of anything above it, finds
      exactly the documents found before. */
  lemma SplitConserves(rows: Rows, tag: string, parent: string, plan: seq<Repoint>, epoch: nat, p: string)
    requires DisjointPlan(plan) && StaysInside(plan, parent) && Inside(parent, p)
    ensures Under(ApplyPlan(rows, tag, parent, plan, epoch), tag, p) == Under(rows, tag, p)
  {
    var after := ApplyPlan(rows, tag, parent, plan, epoch);
    forall doc | doc in Under(rows, tag, p) ensures doc in Under(after, tag, p) {
      var m := UnderFrom(rows, tag, p, doc);
      PlanIsExact(rows, tag, parent, plan, epoch, m);
      if m !in after {
        var r :| r in plan && r.updated && r.path != parent && doc in r.docs;
        var there := Mapping(doc, tag, r.path);
        PlanIsExact(rows, tag, parent, plan, epoch, there);
        InsideIsTransitive(r.path, parent, p);
        UnderHas(after, tag, p, there);
      } else {
        UnderHas(after, tag, p, m);
      }
    }
    forall doc | doc in Under(after, tag, p) ensures doc in Under(rows, tag, p) {
      var m := UnderFrom(after, tag, p, doc);
      PlanIsExact(rows, tag, parent, plan, epoch, m);
      if m in rows {
        UnderHas(rows, tag, p, m);
      } else {
        UnderHas(rows, tag, p, Mapping(doc, tag, parent));
      }
    }
  }

  /** Elsewhere nothing changes: rows of other containers, and documents of subtrees that neither
      hold the parent nor take a child. */
  lemma SplitLeavesOthers(rows: Rows, tag: string, parent: string, plan: seq<Repoint>, epoch: nat, other: string,
          p: string)
    requires DisjointPlan(plan)
    requires other != tag || (!Inside(parent, p) && forall r :: r in plan ==> !Inside(r.path, p))
    ensures Under(ApplyPlan(rows, tag, parent, plan, epoch), other, p) == Under(rows, other, p)
  {
    var after := ApplyPlan(rows, tag, parent, plan, epoch);
    forall doc ensures doc in Under(after, other, p) <==> doc in Under(rows, other, p) {
      if doc in Under(rows, other, p) {
        var m := UnderFrom(rows, other, p, doc);
        PlanIsExact(rows, tag, parent, plan, epoch, m);
        UnderHas(after, other, p, m);
      }
      if doc in Under(after, other, p) {
        var m := UnderFrom(after, other, p, doc);
        PlanIsExact(rows, tag, parent, plan, epoch, m);
        UnderHas(rows, other, p, m);
      }
    }
  }

  /** A document that stood at the parent ends at its child's path, and no longer at the parent,
      exactly when its child's metadata update succeeded and the child is a proper one. */
  lemma SplitMoves(rows: Rows, tag: string, parent: string, plan: seq<Repoint>, epoch: nat, r: Repoint, doc: string)
    requires DisjointPlan(plan) && r in plan && doc in r.docs && Mapping(doc, tag, parent) in rows
    ensures var after := ApplyPlan(rows, tag, parent, plan, epoch);
      && (Mapping(doc, tag, parent) !in after <==> r.updated && r.path != parent)
      && (r.updated ==> Mapping(doc, tag, r.path) in after)
  {
    PlanIsExact(rows, tag, parent, plan, epoch, Mapping(doc, tag, parent));
    PlanIsExact(rows, tag, parent, plan, epoch, Mapping(doc, tag, r.path));
    var k :| 0 <= k < |plan| && plan[k] == r;
    forall other | other in plan && doc in other.docs ensures other == r {
      var i :| 0 <= i < |plan| && plan[i] == other;
      assert i == k;
    }
  }

  // ---------------------------------------------------------------------------
  // The same moves as blocks between awaits.

  /** The blocks of the loop: one for each child whose metadata update succeeded. */
  function BlocksOf(captured: nat, tag: string, nodePath: string, plan: seq<Repoint>): seq<ResetFence.Event> {
    if |plan| == 0 then []
    else
      var front := BlocksOf(captured, tag, nodePath, plan[..|plan| - 1]);
      var last := plan[|plan| - 1];
      if last.updated then front + [ResetFence.SplitMove(captured, tag, last.docs, nodePath, last.path)] else front
  }

  lemma {:induction false} RunAppend(lower: string -> string, s: ResetFence.State, events: seq<ResetFence.Event>,
          event: ResetFence.Event)
    ensures ResetFence.Run(lower, s, events + [event]) ==
        ResetFence.Next(lower, ResetFence.Run(lower, s, events), event)
    decreases |events|
  {
    if |events| == 0 {
      assert [event][1..] == [] && events + [event] == [event];
    } else {
      assert (events + [event])[1..] == events[1..] + [event];
      RunAppend(lower, ResetFence.Next(lower, s, events[0]), events[1..], event);
    }
  }

  lemma BlocksAppend(captured: nat, tag: string, nodePath: string, plan: seq<Repoint>, i: nat)
    requires i < |plan|
    ensures var last := plan[i];
      BlocksOf(captured, tag, nodePath, plan[..i + 1]) ==
      BlocksOf(captured, tag, nodePath, plan[..i])
        + if last.updated then [ResetFence.SplitMove(captured, tag, last.docs, nodePath, last.path)] else []
  {
    assert plan[..i + 1][..i] == plan[..i];
  }

  /** The loop of the split, in any epoch: a child whose metadata update failed keeps its documents
      where they are, and each move is a block of its own. */
  method MoveChildren(registry: Registry, tag: string, nodePath: string, plan: seq<Repoint>, captured: nat)
    modifies registry
    ensures ResetFence.State(registry.epoch, registry.rows, registry.tags) ==
            ResetFence.Run(registry.lower,
              ResetFence.State(old(registry.epoch), old(registry.rows), old(registry.tags)),
                           BlocksOf(captured, tag, nodePath, plan))
  {
    ghost var before := ResetFence.State(registry.epoch, registry.rows, registry.tags);
    var i := 0;
    while i < |plan|
      invariant 0 <= i <= |plan|
      invariant ResetFence.State(registry.epoch, registry.rows, registry.tags) ==
                ResetFence.Run(registry.lower, before, BlocksOf(captured, tag, nodePath, plan[..i]))
    {
      var repoint := plan[i];
      ghost var done := BlocksOf(captured, tag, nodePath, plan[..i]);
      BlocksAppend(captured, tag, nodePath, plan, i);
      if repoint.updated {
        RunAppend(registry.lower, before, done,
                  ResetFence.SplitMove(captured, tag, repoint.docs, nodePath, repoint.path));
        var _ := registry.Repoint(tag, repoint.docs, nodePath, repoint.path, captured);
      } else {
        assert done + [] == done;
      }
      i := i + 1;
    }
    assert plan[..i] == plan;
  }

  /** In the captured epoch, and with nothing in between, the blocks add up to the plan. */
  lemma {:induction false} BlocksAreThePlan(lower: string -> string, s: ResetFence.State, tag: string,
          nodePath: string, plan: seq<Repoint>)
    requires Normalize(lower, nodePath) != "other" && forall r :: r in plan ==> Normalize(lower, r.path) != "other"
    ensures var end := ResetFence.Run(lower, s, BlocksOf(s.epoch, tag, nodePath, plan));
      && end.epoch == s.epoch
      && end.rows == ApplyPlan(s.rows, tag, Normalize(lower, nodePath), Placed(lower, plan), s.epoch)
  {
    if |plan| > 0 {
      var n := |plan| - 1;
      var front := plan[..n];
      var last := plan[n];
      assert last in plan && plan[..n + 1] == plan;
      BlocksAreThePlan(lower, s, tag, nodePath, front);
      BlocksAppend(s.epoch, tag, nodePath, plan, n);
      PlacedAppend(lower, plan, n);
      ApplyPlanAppend(s.rows, tag, Normalize(lower, nodePath), Placed(lower, front), Place(lower, last), s.epoch);
      var blocks := BlocksOf(s.epoch, tag, nodePath, front);
      if last.updated {
        RunAppend(lower, s, blocks, ResetFence.SplitMove(s.epoch, tag, last.docs, nodePath, last.path));
        NoDocsNoMoves(ResetFence.Run(lower, s, blocks).rows, last.docs, tag, lower, nodePath, last.path, s.epoch);
      } else {
        assert blocks + [] == blocks;
      }
    }
  }

  /** A call without documents returns early, which changes nothing either. */
  lemma NoDocsNoMoves(rows: Rows, docs: seq<string>, tag: string, lower: string -> string, nodePath: string,
          path: string, epoch: nat)
    requires Normalize(lower, nodePath) != "other" && Normalize(lower, path) != "other"
    ensures Repointed(lower, rows, epoch, tag, docs, nodePath, path, epoch).0 ==
            Moves(rows, Unique(docs), tag, Normalize(lower, nodePath), Normalize(lower, path), epoch).0
  {
  }

  /** A repoint as the table sees it: documents once each, the path normalised again. */
  function Place(lower: string -> string, r: Repoint): Repoint {
    Repoint(Unique(r.docs), Normalize(lower, r.path), r.updated)
  }

  function Placed(lower: string -> string, plan: seq<Repoint>): seq<Repoint> {
    if |plan| == 0 then [] else Placed(lower, plan[..|plan| - 1]) + [Place(lower, plan[|plan| - 1])]
  }

  lemma PlacedAppend(lower: string -> string, plan: seq<Repoint>, i: nat)
    requires i < |plan|
    ensures Placed(lower, plan[..i + 1]) == Placed(lower, plan[..i]) + [Place(lower, plan[i])]
  {
    assert plan[..i + 1][..i] == plan[..i];
  }

  lemma ApplyPlanAppend(rows: Rows, tag: string, parent: string, plan: seq<Repoint>, last: Repoint, epoch: nat)
    ensures var before := ApplyPlan(rows, tag, parent, plan, epoch);
      ApplyPlan(rows, tag, parent, plan + [last], epoch) ==
      if last.updated then Moves(before, last.docs, tag, parent, last.path, epoch).0 else before
  {
    assert (plan + [last])[..|plan|] == plan;
  }

  /** The path of a child of `nodePath`; segments come out of the normaliser. */
  ghost predicate ChildOf(lower: string -> string, nodePath: string, path: string) {
    exists segment :: InKeyAlphabet(segment) && Clean(segment) != "" && path == ChildKey(lower, nodePath, segment)
  }

  lemma {:induction false} PlacedIs(lower: string -> string, plan: seq<Repoint>)
    ensures |Placed(lower, plan)| == |plan|
    ensures forall i :: 0 <= i < |plan| ==> Placed(lower, plan)[i] == Place(lower, plan[i])
  {
    if |plan| > 0 {
      PlacedIs(lower, plan[..|plan| - 1]);
    }
  }

  lemma PlacedInside(lower: string -> string, nodePath: string, plan: seq<Repoint>)
    requires LeavesKeysAlone(lower) && InKeyAlphabet(nodePath) && Clean(nodePath) != ""
        && |Clean(nodePath)| <= TAG_KEY_MAX
    requires forall r :: r in plan ==> ChildOf(lower, nodePath, r.path)
    ensures StaysInside(Placed(lower, plan), Normalize(lower, nodePath))
  {
    PlacedIs(lower, plan);
    forall r | r in Placed(lower, plan) ensures Inside(r.path, Normalize(lower, nodePath)) {
      var i :| 0 <= i < |plan| && Placed(lower, plan)[i] == r;
      assert plan[i] in plan;
      var segment :| InKeyAlphabet(segment) && Clean(segment) != ""
        && plan[i].path == ChildKey(lower, nodePath, segment);
      ChildLies(lower, nodePath, segment);
    }
  }

  lemma PlacedDisjoint(lower: string -> string, plan: seq<Repoint>)
    requires DisjointPlan(plan)
    ensures DisjointPlan(Placed(lower, plan))
  {
    PlacedIs(lower, plan);
    var placed := Placed(lower, plan);
    forall i, j, doc | 0 <= i < j < |placed| && doc in placed[i].docs ensures doc !in placed[j].docs {
      UniqueHas(plan[i].docs);
      UniqueHas(plan[j].docs);
    }
  }

  /** The split as a whole: for every partition the model may propose, every set of children whose
      metadata updates fail and every length of the path, the subtree keeps its documents. */
  lemma SplitOfTopicConserves(lower: string -> string, rows: Rows, tag: string, nodePath: string, plan: seq<Repoint>,
          epoch: nat, p: string)
    requires LeavesKeysAlone(lower) && InKeyAlphabet(nodePath) && Clean(nodePath) != ""
        && |Clean(nodePath)| <= TAG_KEY_MAX
    requires DisjointPlan(plan) && forall r :: r in plan ==> ChildOf(lower, nodePath, r.path)
    requires Inside(Normalize(lower, nodePath), p)
    ensures Under(ApplyPlan(rows, tag, Normalize(lower, nodePath), Placed(lower, plan), epoch), tag, p) ==
        Under(rows, tag, p)
  {
    PlacedInside(lower, nodePath, plan);
    PlacedDisjoint(lower, plan);
    SplitConserves(rows, tag, Normalize(lower, nodePath), Placed(lower, plan), epoch, p);
  }

  /** The plan of a partition: each child with its won documents, and whether its metadata update
      succeeded. */
  function PlanOf(won: seq<Update>, updated: nat -> bool): seq<Repoint> {
    seq(|won|, i requires 0 <= i < |won| => Repoint(won[i].docs, won[i].path, updated(i)))
  }

  /** From the partition itself: later child wins, any metadata updates fail, and the subtree
      still holds exactly the documents it held. */
  lemma PartitionConserves(lower: string -> string, rows: Rows, tag: string, nodePath: string, updates: seq<Update>,
                           updated: nat -> bool, epoch: nat, p: string)
    requires LeavesKeysAlone(lower) && InKeyAlphabet(nodePath) && Clean(nodePath) != ""
        && |Clean(nodePath)| <= TAG_KEY_MAX
    requires forall u :: u in updates ==> ChildOf(lower, nodePath, u.path)
    requires Inside(Normalize(lower, nodePath), p)
    ensures var plan := PlanOf(Assigned(updates, |updates|), updated);
      Under(ApplyPlan(rows, tag, Normalize(lower, nodePath), Placed(lower, plan), epoch), tag, p) == Under(rows, tag, p)
  {
    var won := Assigned(updates, |updates|);
    var plan := PlanOf(won, updated);
    AssignedIsDisjoint(updates, |updates|);
    AssignedComesFrom(updates, |updates|);
    forall r | r in plan ensures ChildOf(lower, nodePath, r.path) {
      var i :| 0 <= i < |plan| && plan[i] == r;
      assert won[i] in won;
      var u :| 0 <= u < |updates| && won[i].path == updates[u].path;
      assert updates[u] in updates;
    }
    SplitOfTopicConserves(lower, rows, tag, nodePath, plan, epoch, p);
  }

  // ---------------------------------------------------------------------------
  // One block at a time, whatever happens between the blocks.

  /** A split only moves to a path at or below its topic. */
  ghost predicate Aimed(lower: string -> string, event: ResetFence.Event) {
    event.SplitMove? ==> Inside(Normalize(lower, event.path), Normalize(lower, event.parent))
  }

  /** The moves of a split are aimed, whatever the segment and the length of the path. */
  lemma SplitIsAimed(lower: string -> string, captured: nat, tag: string, ids: seq<string>, nodePath: string,
          segment: string)
    requires LeavesKeysAlone(lower) && InKeyAlphabet(nodePath) && InKeyAlphabet(segment)
    requires Clean(nodePath) != "" && |Clean(nodePath)| <= TAG_KEY_MAX && Clean(segment) != ""
    ensures Aimed(lower, ResetFence.SplitMove(captured, tag, ids, nodePath, ChildKey(lower, nodePath, segment)))
  {
    ChildLies(lower, nodePath, segment);
  }

  lemma RepointedAt(lower: string -> string, s: ResetFence.State, event: ResetFence.Event, m: Mapping)
    requires event.SplitMove?
    ensures var from := Normalize(lower, event.parent);
      var to := Normalize(lower, event.path);
      var after := ResetFence.Next(lower, s, event).rows;
      && (m in s.rows && m !in after ==> from != to && m.tag == event.tag && m.path == from && m.doc in event.ids
                                          && Mapping(m.doc, m.tag, to) in after)
      && (m !in s.rows && m in after ==> m.tag == event.tag && m.path == to && m.doc in event.ids
                                          && Mapping(m.doc, m.tag, from) in s.rows)
  {
    var from := Normalize(lower, event.parent);
    var to := Normalize(lower, event.path);
    MovesAt(s.rows, Unique(event.ids), event.tag, from, to, event.captured, m);
    MovesAt(s.rows, Unique(event.ids), event.tag, from, to, event.captured, Mapping(m.doc, m.tag, to));
    UniqueHas(event.ids);
  }

  /** In any state and epoch: a move of a split leaves every subtree that holds its topic with the
      documents it had. */
  lemma SplitMoveConserves(lower: string -> string, s: ResetFence.State, event: ResetFence.Event, t: string, p: string)
    requires event.SplitMove? && Aimed(lower, event) && Inside(Normalize(lower, event.parent), p)
    ensures Under(ResetFence.Next(lower, s, event).rows, t, p) == Under(s.rows, t, p)
  {
    var after := ResetFence.Next(lower, s, event);
    forall doc ensures doc in Under(after.rows, t, p) <==> doc in Under(s.rows, t, p) {
      if doc in Under(s.rows, t, p) {
        MoveLosesNothing(lower, s, event, t, p, doc);
      }
      if doc in Under(after.rows, t, p) {
        var m := UnderFrom(after.rows, t, p, doc);
        RepointedAt(lower, s, event, m);
        UnderHas(s.rows, t, p, if m in s.rows then m else Mapping(doc, t, Normalize(lower, event.parent)));
      }
    }
  }

  lemma MoveLosesNothing(lower: string -> string, s: ResetFence.State, event: ResetFence.Event, t: string, p: string,
          doc: string)
    requires event.SplitMove? && Aimed(lower, event) && doc in Under(s.rows, t, p)
    ensures doc in Under(ResetFence.Next(lower, s, event).rows, t, p)
  {
    var after := ResetFence.Next(lower, s, event).rows;
    var m := UnderFrom(s.rows, t, p, doc);
    RepointedAt(lower, s, event, m);
    if m in after {
      UnderHas(after, t, p, m);
    } else {
      InsideIsTransitive(Normalize(lower, event.path), Normalize(lower, event.parent), p);
      UnderHas(after, t, p, Mapping(doc, t, Normalize(lower, event.path)));
    }
  }

  lemma {:induction false} UpsertsAt(lower: string -> string, rows: Rows, doc: string, tag: string,
          paths: seq<string>, epoch: nat, m: Mapping)
    ensures m in rows ==> m in ResetFence.Upserts(lower, rows, doc, tag, paths, epoch)
    ensures m in ResetFence.Upserts(lower, rows, doc, tag, paths, epoch) ==> m in rows || (m.doc == doc && m.tag == tag)
  {
    if |paths| > 0 {
      UpsertsAt(lower, rows, doc, tag, paths[..|paths| - 1], epoch, m);
    }
  }

  /** What takes a document away from a subtree: a clean-up of one of its rows there, or a reset. */
  ghost predicate Removes(s: ResetFence.State, event: ResetFence.Event, t: string, p: string, doc: string) {
    event.ResetMemory?
    || (event.CleanUp? && exists m :: m in event.gone && m in s.rows && m.tag == t && m.doc == doc && Inside(m.path, p))
  }

  /** What brings one: the end of its own write, or a split of a topic that lies above the subtree. */
  ghost predicate Brings(lower: string -> string, s: ResetFence.State, event: ResetFence.Event, t: string, p: string,
          doc: string)
  {
    || (event.FinishWrite? && event.remote == ResetFence.Stored(doc) && event.tag == t && event.captured == s.epoch)
    || (event.SplitMove? && event.tag == t && doc in event.ids
        && Inside(Normalize(lower, event.path), p) && !Inside(Normalize(lower, event.parent), p))
  }

  lemma EventChangesUnder(lower: string -> string, s: ResetFence.State, event: ResetFence.Event, t: string, p: string,
          doc: string)
    requires Aimed(lower, event)
    ensures var after := ResetFence.Next(lower, s, event);
      && (doc in Under(s.rows, t, p) && doc !in Under(after.rows, t, p) ==> Removes(s, event, t, p, doc))
      && (doc !in Under(s.rows, t, p) && doc in Under(after.rows, t, p) ==> Brings(lower, s, event, t, p, doc))
  {
    var after := ResetFence.Next(lower, s, event);
    if doc in Under(s.rows, t, p) {
      var m := UnderFrom(s.rows, t, p, doc);
      if event.SplitMove? {
        MoveLosesNothing(lower, s, event, t, p, doc);
      } else if event.FinishWrite? && event.remote.Stored? {
        UpsertsAt(lower, s.rows, event.remote.doc, event.tag, event.paths, event.captured, m);
        UnderHas(after.rows, t, p, m);
      } else if event.CleanUp? && m !in event.gone {
        UnderHas(after.rows, t, p, m);
      }
    } else if doc in Under(after.rows, t, p) {
      var m := UnderFrom(after.rows, t, p, doc);
      assert m !in s.rows;
      if event.SplitMove? {
        RepointedAt(lower, s, event, m);
        var source := Mapping(doc, t, Normalize(lower, event.parent));
        assert Inside(source.path, p) ==> source !in s.rows;
      } else if event.FinishWrite? && event.remote.Stored? {
        UpsertsAt(lower, s.rows, event.remote.doc, event.tag, event.paths, event.captured, m);
      }
    }
  }

  lemma RunStep(lower: string -> string, s: ResetFence.State, events: seq<ResetFence.Event>, k: nat)
    requires k < |events|
    ensures ResetFence.Run(lower, s, events[..k + 1]) ==
            ResetFence.Next(lower, ResetFence.Run(lower, s, events[..k]), events[k])
  {
    assert events[..k + 1] == events[..k] + [events[k]];
    RunAppend(lower, s, events[..k], events[k]);
  }

  /** Over every run in which all splits are aimed, with writes, other splits, clean-ups and resets
      anywhere between their blocks: a document that is no longer found under `p` was removed by a
      clean-up or a reset, so no split ever loses one. */
  lemma {:induction false} LostByCleanUpOrReset(lower: string -> string, s: ResetFence.State,
          events: seq<ResetFence.Event>, t: string, p: string, doc: string)
      returns (k: nat)
    requires forall i :: 0 <= i < |events| ==> Aimed(lower, events[i])
    requires doc in Under(s.rows, t, p) && doc !in Under(ResetFence.Run(lower, s, events).rows, t, p)
    ensures k < |events| && Removes(ResetFence.Run(lower, s, events[..k]), events[k], t, p, doc)
  {
    k := FirstChange(lower, s, events, t, p, doc);
    RunStep(lower, s, events, k);
    EventChangesUnder(lower, ResetFence.Run(lower, s, events[..k]), events[k], t, p, doc);
  }

  /** And one that is newly found there was written there, or came from a topic above by a split. */
  lemma {:induction false} BroughtByWriteOrSplit(lower: string -> string, s: ResetFence.State,
          events: seq<ResetFence.Event>, t: string, p: string, doc: string)
      returns (k: nat)
    requires forall i :: 0 <= i < |events| ==> Aimed(lower, events[i])
    requires doc !in Under(s.rows, t, p) && doc in Under(ResetFence.Run(lower, s, events).rows, t, p)
    ensures k < |events| && Brings(lower, ResetFence.Run(lower, s, events[..k]), events[k], t, p, doc)
  {
    k := FirstChange(lower, s, events, t, p, doc);
    RunStep(lower, s, events, k);
    EventChangesUnder(lower, ResetFence.Run(lower, s, events[..k]), events[k], t, p, doc);
  }

  /** The first step at which a document's presence under `p` changes. */
  lemma {:induction false} FirstChange(lower: string -> string, s: ResetFence.State, events: seq<ResetFence.Event>,
                                       t: string, p: string, doc: string) returns (k: nat)
    requires doc in Under(s.rows, t, p) <==> doc !in Under(ResetFence.Run(lower, s, events).rows, t, p)
    ensures k < |events|
    ensures doc in Under(ResetFence.Run(lower, s, events[..k]).rows, t, p) <==> doc in Under(s.rows, t, p)
    ensures doc in Under(ResetFence.Run(lower, s, events[..k + 1]).rows, t, p) <==> doc !in Under(s.rows, t, p)
  {
    k := 0;
    assert events[..|events|] == events;
    while doc in Under(ResetFence.Run(lower, s, events[..k + 1]).rows, t, p) <==> doc in Under(s.rows, t, p)
      invariant 0 <= k < |events|
      invariant doc in Under(ResetFence.Run(lower, s, events[..k]).rows, t, p) <==> doc in Under(s.rows, t, p)
      decreases |events| - k
    {
      k := k + 1;
    }
  }

  /** With no write, clean-up or reset in a run, and no split of a topic above `p`, the documents
      under `p` stay the same, however the splits interleave. */
  lemma OnlySplitsChangeNothing(lower: string -> string, s: ResetFence.State, events: seq<ResetFence.Event>,
          t: string, p: string)
    requires forall i :: 0 <= i < |events| ==> Aimed(lower, events[i])
    requires forall i :: 0 <= i < |events| ==>
      events[i].SplitTags? || (events[i].SplitMove? && Inside(Normalize(lower, events[i].parent), p))
    ensures Under(ResetFence.Run(lower, s, events).rows, t, p) == Under(s.rows, t, p)
  {
    forall doc ensures doc in Under(ResetFence.Run(lower, s, events).rows, t, p) <==> doc in Under(s.rows, t, p) {
      if doc in Under(s.rows, t, p) && doc !in Under(ResetFence.Run(lower, s, events).rows, t, p) {
        var k := LostByCleanUpOrReset(lower, s, events, t, p, doc);
      } else if doc !in Under(s.rows, t, p) && doc in Under(ResetFence.Run(lower, s, events).rows, t, p) {
        var k := BroughtByWriteOrSplit(lower, s, events, t, p, doc);
      }
    }
  }
}
