/** The table of documents under topic paths, the tag registry and the reset epoch
    (`src/brain/memory/tree.ts`, `tags.ts`, `index.ts`; the reset is in
    `src/brain/turn/agent.impl.ts`). Every method is one block without an `await`. Rows carry
    the epoch their writer had captured, which the source does not store. */
module NodeRegistry {
  import opened Prelude
  import TagKey

  /** The three-part primary key. */
  datatype Mapping = Mapping(doc: string, tag: string, path: string)

  datatype TagRow = TagRow(tag: string, key: string)

  type Rows = map<Mapping, nat>

  /** Equal, or below it: what the path query with descendants selects, keys having no
      wildcard characters. */
  predicate Inside(path: string, p: string) {
    path == p || p + "/" <= path
  }

  /** The documents a reader finds under `p` with its descendants. */
  function Under(rows: Rows, tag: string, p: string): set<string> {
    set m | m in rows && m.tag == tag && Inside(m.path, p) :: m.doc
  }

  lemma InsideIsTransitive(a: string, b: string, c: string)
    requires Inside(a, b) && Inside(b, c)
    ensures Inside(a, c)
  {
    if a != b && b != c {
      assert a == b + "/" + a[|b| + 1..];
      assert (c + "/") == b[..|c| + 1] == a[..|c| + 1];
    }
  }

  // ---------------------------------------------------------------------------
  // Moving documents from one path to another.

  function Move(rows: Rows, doc: string, tag: string, from: string, to: string, epoch: nat): Rows {
    if Mapping(doc, tag, from) in rows
    then (rows - {Mapping(doc, tag, from)})[Mapping(doc, tag, to) := epoch]
    else rows
  }

  function Unique(ids: seq<string>): seq<string> {
    if |ids| == 0 then []
    else
      var front := Unique(ids[..|ids| - 1]);
      if ids[|ids| - 1] in front then front else front + [ids[|ids| - 1]]
  }

  /** The table after the moves, and the documents whose row was there to move. */
  function Moves(rows: Rows, ids: seq<string>, tag: string, from: string, to: string, epoch: nat): (Rows, seq<string>) {
    if |ids| == 0 then (rows, [])
    else
      var (before, moved) := Moves(rows, ids[..|ids| - 1], tag, from, to, epoch);
      var doc := ids[|ids| - 1];
      if Mapping(doc, tag, from) in before then (Move(before, doc, tag, from, to, epoch), moved + [doc])
      else (before, moved)
  }

  ghost predicate MovedSoFar(rows: Rows, ids: seq<string>, tag: string, from: string, to: string, epoch: nat,
          now: Rows, moved: seq<string>) {
    (now, moved) == Moves(rows, ids, tag, from, to, epoch)
  }

  lemma NextMove(rows: Rows, ids: seq<string>, doc: string, tag: string, from: string, to: string, epoch: nat,
          now: Rows, moved: seq<string>)
    requires MovedSoFar(rows, ids, tag, from, to, epoch, now, moved)
    ensures Mapping(doc, tag, from) in now ==>
      MovedSoFar(rows, ids + [doc], tag, from, to, epoch,
        (now - {Mapping(doc, tag, from)})[Mapping(doc, tag, to) := epoch], moved + [doc])
    ensures Mapping(doc, tag, from) !in now ==> MovedSoFar(rows, ids + [doc], tag, from, to, epoch, now, moved)
  {
    MovesAppend(rows, ids, doc, tag, from, to, epoch);
  }

  lemma MovesAppend(rows: Rows, ids: seq<string>, doc: string, tag: string, from: string, to: string, epoch: nat)
    ensures var (before, moved) := Moves(rows, ids, tag, from, to, epoch);
      Moves(rows, ids + [doc], tag, from, to, epoch) ==
      if Mapping(doc, tag, from) in before then (Move(before, doc, tag, from, to, epoch), moved + [doc])
      else (before, moved)
  {
    assert (ids + [doc])[..|ids|] == ids;
  }

  lemma UniqueAppend(ids: seq<string>, i: nat)
    requires i < |ids|
    ensures Unique(ids[..i + 1]) == if ids[i] in Unique(ids[..i]) then Unique(ids[..i]) else Unique(ids[..i]) + [ids[i]]
  {
    assert ids[..i + 1][..i] == ids[..i];
  }

  lemma {:induction false} UniqueHas(ids: seq<string>)
    ensures forall d :: d in Unique(ids) <==> d in ids
  {
    if |ids| > 0 {
      UniqueHas(ids[..|ids| - 1]);
      assert ids == ids[..|ids| - 1] + [ids[|ids| - 1]];
    }
  }

  /** Which rows exist after the moves. */
  ghost predicate MovedRow(rows: Rows, ids: seq<string>, tag: string, from: string, to: string, m: Mapping) {
    if from == to || m.tag != tag || m.doc !in ids then m in rows
    else if m.path == from then false
    else m in rows || (m.path == to && Mapping(m.doc, tag, from) in rows)
  }

  lemma {:induction false} MovesAt(rows: Rows, ids: seq<string>, tag: string, from: string, to: string, epoch: nat,
          m: Mapping)
    ensures m in Moves(rows, ids, tag, from, to, epoch).0 <==> MovedRow(rows, ids, tag, from, to, m)
  {
    if |ids| > 0 {
      var front := ids[..|ids| - 1];
      var doc := ids[|ids| - 1];
      assert ids == front + [doc];
      MovesAt(rows, front, tag, from, to, epoch, m);
      MovesAt(rows, front, tag, from, to, epoch, Mapping(doc, tag, from));
    }
  }

  method MoveEach(rows: Rows, tag: string, ids: seq<string>, from: string, to: string, epoch: nat)
      returns (table: Rows, moved: seq<string>)
    ensures (table, moved) == Moves(rows, Unique(ids), tag, from, to, epoch)
  {
    var seen: seq<string> := [];
    table, moved := rows, [];
    var i := 0;
    while i < |ids|
      invariant 0 <= i <= |ids| && seen == Unique(ids[..i])
      invariant MovedSoFar(rows, seen, tag, from, to, epoch, table, moved)
    {
      var doc := ids[i];
      UniqueAppend(ids, i);
      NextMove(rows, seen, doc, tag, from, to, epoch, table, moved);
      if doc !in seen {
        seen := seen + [doc];
        if Mapping(doc, tag, from) in table {
          table := (table - {Mapping(doc, tag, from)})[Mapping(doc, tag, to) := epoch];
          moved := moved + [doc];
        }
      }
      i := i + 1;
    }
    assert ids[..i] == ids;
  }

  // ---------------------------------------------------------------------------
  // The registry object.

  class Registry {
    const lower: string -> string
    var epoch: nat
    var rows: Rows
    var tags: map<TagRow, nat>

    constructor (lower: string -> string)
      ensures this.lower == lower && epoch == 0 && rows == map[] && tags == map[]
    {
      this.lower := lower;
      epoch, rows, tags := 0, map[], map[];
    }

    /** Normalises the key it is given once more, drops the catch-all, and writes only for the
        current epoch. */
    method Upsert(doc: string, tag: string, path: string, expected: nat) returns (written: bool)
      modifies this
      ensures written <==> TagKey.Normalize(lower, path) != "other" && old(epoch) == expected
      ensures rows ==
          if written then old(rows)[Mapping(doc, tag, TagKey.Normalize(lower, path)) := expected] else old(rows)
      ensures epoch == old(epoch) && tags == old(tags)
    {
      var nodePath := TagKey.Normalize(lower, path);
      if nodePath == "other" { return false; }
      if epoch != expected { return false; }
      rows := rows[Mapping(doc, tag, nodePath) := expected];
      written := true;
    }

    /** One `UPDATE OR REPLACE` per document, each document once. */
    method Repoint(tag: string, ids: seq<string>, expectedPath: string, newPath: string, expected: nat)
      returns (moved: seq<string>)
      modifies this
      ensures (rows, moved) == Repointed(lower, old(rows), old(epoch), tag, ids, expectedPath, newPath, expected)
      ensures epoch == old(epoch) && tags == old(tags)
    {
      var parentPath := TagKey.Normalize(lower, expectedPath);
      var nodePath := TagKey.Normalize(lower, newPath);
      moved := [];
      if |ids| == 0 || parentPath == "other" || nodePath == "other" { return; }
      if epoch != expected { return; }
      rows, moved := MoveEach(rows, tag, ids, parentPath, nodePath, expected);
    }

    /** The caller has checked its epoch in the same block. */
    method RegisterTags(tag: string, keys: seq<string>, captured: nat)
      modifies this
      ensures tags == Registered(old(tags), tag, keys, captured)
      ensures epoch == old(epoch) && rows == old(rows)
    {
      var i := 0;
      while i < |keys|
        invariant 0 <= i <= |keys| && tags == Registered(old(tags), tag, keys[..i], captured)
        invariant epoch == old(epoch) && rows == old(rows)
      {
        RegisteredAppend(old(tags), tag, keys, i, captured);
        tags := tags[TagRow(tag, keys[i]) := captured];
        i := i + 1;
      }
      assert keys[..i] == keys;
    }

    /** The reset advances the epoch and clears both tables in one block. */
    method Reset()
      modifies this
      ensures epoch == old(epoch) + 1 && rows == map[] && tags == map[]
    {
      epoch := epoch + 1;
      rows := map[];
      tags := map[];
    }
  }

  function Repointed(lower: string -> string, rows: Rows, epoch: nat, tag: string, ids: seq<string>,
                     expectedPath: string, newPath: string, expected: nat): (Rows, seq<string>) {
    var parentPath := TagKey.Normalize(lower, expectedPath);
    var nodePath := TagKey.Normalize(lower, newPath);
    if |ids| == 0 || parentPath == "other" || nodePath == "other" || epoch != expected then (rows, [])
    else Moves(rows, Unique(ids), tag, parentPath, nodePath, expected)
  }

  function Registered(tags: map<TagRow, nat>, tag: string, keys: seq<string>, captured: nat): map<TagRow, nat> {
    if |keys| == 0 then tags
    else Registered(tags, tag, keys[..|keys| - 1], captured)[TagRow(tag, keys[|keys| - 1]) := captured]
  }

  lemma RegisteredAppend(tags: map<TagRow, nat>, tag: string, keys: seq<string>, i: nat, captured: nat)
    requires i < |keys|
    ensures Registered(tags, tag, keys[..i + 1], captured) ==
            Registered(tags, tag, keys[..i], captured)[TagRow(tag, keys[i]) := captured]
  {
    assert keys[..i + 1][..i] == keys[..i];
  }

  lemma {:induction false} RegisteredIs(tags: map<TagRow, nat>, tag: string, keys: seq<string>, captured: nat,
          t: TagRow)
    ensures t in Registered(tags, tag, keys, captured) <==> t in tags || (t.tag == tag && t.key in keys)
    ensures t in Registered(tags, tag, keys, captured) ==>
      Registered(tags, tag, keys, captured)[t] == if t.tag == tag && t.key in keys then captured else tags[t]
  {
    if |keys| > 0 {
      assert keys == keys[..|keys| - 1] + [keys[|keys| - 1]];
      RegisteredIs(tags, tag, keys[..|keys| - 1], captured, t);
    }
  }

  ghost predicate NoRepeats(ids: seq<string>) {
    forall i, j :: 0 <= i < j < |ids| ==> ids[i] != ids[j]
  }

  lemma {:induction false} UniqueOnce(ids: seq<string>)
    ensures NoRepeats(Unique(ids))
  {
    if |ids| > 0 {
      UniqueOnce(ids[..|ids| - 1]);
    }
  }

  /** The documents reported as moved: those asked for that stood at the expected path, once each. */
  lemma {:induction false} MovedAre(rows: Rows, ids: seq<string>, tag: string, from: string, to: string, epoch: nat)
    requires NoRepeats(ids)
    ensures var moved := Moves(rows, ids, tag, from, to, epoch).1;
      NoRepeats(moved) && forall d :: d in moved <==> d in ids && Mapping(d, tag, from) in rows
  {
    if |ids| > 0 {
      var front, doc := ids[..|ids| - 1], ids[|ids| - 1];
      assert ids == front + [doc] && doc !in front;
      MovedAre(rows, front, tag, from, to, epoch);
      MovesAt(rows, front, tag, from, to, epoch, Mapping(doc, tag, from));
    }
  }

  /** A repoint acts in the captured epoch and between two proper topics, and then moves exactly the
      documents it reports. */
  lemma RepointMoves(lower: string -> string, rows: Rows, epoch: nat, tag: string, ids: seq<string>,
          expectedPath: string, newPath: string, expected: nat)
    ensures var from, to := TagKey.Normalize(lower, expectedPath), TagKey.Normalize(lower, newPath);
      var (after, moved) := Repointed(lower, rows, epoch, tag, ids, expectedPath, newPath, expected);
      && (forall d :: d in moved <==>
            d in ids && epoch == expected && from != "other" && to != "other" && Mapping(d, tag, from) in rows)
      && (forall m :: m in after <==> if from == "other" || to == "other" || epoch != expected then m in rows
                                      else MovedRow(rows, ids, tag, from, to, m))
  {
    var from, to := TagKey.Normalize(lower, expectedPath), TagKey.Normalize(lower, newPath);
    UniqueOnce(ids);
    UniqueHas(ids);
    MovedAre(rows, Unique(ids), tag, from, to, expected);
    forall m
      ensures m in Moves(rows, Unique(ids), tag, from, to, expected).0 <==> MovedRow(rows, ids, tag, from, to, m)
    {
      MovesAt(rows, Unique(ids), tag, from, to, expected, m);
    }
  }
}

/** The epoch as a fence: blocks of writes, splits, clean-ups and resets in any order. */
module ResetFence {
  import opened Prelude
  import opened NodeRegistry
  import TagKey

  datatype State = State(epoch: nat, rows: Rows, tags: map<TagRow, nat>)

  /** What the remote store answered to a write. */
  datatype Remote = Stored(doc: string) | Failed

  datatype Outcome = Written | DeleteRemote(doc: string) | NotWritten

  datatype Event =
    | FinishWrite(captured: nat, remote: Remote, tag: string, keys: seq<string>, paths: seq<string>)
    | SplitMove(captured: nat, tag: string, ids: seq<string>, parent: string, path: string)
    | SplitTags(captured: nat, tag: string, keys: seq<string>)
    | CleanUp(gone: set<Mapping>)
    | ResetMemory

  function Upserts(lower: string -> string, rows: Rows, doc: string, tag: string, paths: seq<string>,
          epoch: nat): Rows {
    if |paths| == 0 then rows
    else
      var before := Upserts(lower, rows, doc, tag, paths[..|paths| - 1], epoch);
      var path := TagKey.Normalize(lower, paths[|paths| - 1]);
      if path == "other" then before else before[Mapping(doc, tag, path) := epoch]
  }

  function Next(lower: string -> string, s: State, event: Event): State {
    match event
    case FinishWrite(captured, remote, tag, keys, paths) =>
      if remote.Failed? || s.epoch != captured then s
      else s.(tags := Registered(s.tags, tag, keys, captured),
              rows := Upserts(lower, s.rows, remote.doc, tag, paths, captured))
    case SplitMove(captured, tag, ids, parent, path) =>
      s.(rows := Repointed(lower, s.rows, s.epoch, tag, ids, parent, path, captured).0)
    case SplitTags(captured, tag, keys) =>
      if s.epoch != captured then s else s.(tags := Registered(s.tags, tag, keys, captured))
    case CleanUp(gone) => s.(rows := s.rows - gone)
    case ResetMemory => State(s.epoch + 1, map[], map[])
  }

  /** What `writeMemory` reports and does when its remote write has come back. */
  function OutcomeOf(s: State, captured: nat, remote: Remote): Outcome {
    if remote.Failed? then NotWritten
    else if s.epoch != captured then DeleteRemote(remote.doc)
    else Written
  }

  /** The last block of `writeMemory`, against the registry. */
  method FinishWriteBlock(registry: Registry, captured: nat, remote: Remote, tag: string, keys: seq<string>,
          paths: seq<string>)
      returns (outcome: Outcome)
    modifies registry
    ensures outcome == OutcomeOf(State(old(registry.epoch), old(registry.rows), old(registry.tags)), captured, remote)
    ensures State(registry.epoch, registry.rows, registry.tags) ==
            Next(registry.lower, State(old(registry.epoch), old(registry.rows), old(registry.tags)),
                 FinishWrite(captured, remote, tag, keys, paths))
  {
    if remote.Failed? { return NotWritten; }
    if registry.epoch != captured { return DeleteRemote(remote.doc); }
    registry.RegisterTags(tag, keys, captured);
    var i := 0;
    while i < |paths|
      invariant 0 <= i <= |paths|
      invariant registry.epoch == captured == old(registry.epoch)
      invariant registry.tags == Registered(old(registry.tags), tag, keys, captured)
      invariant registry.rows == Upserts(registry.lower, old(registry.rows), remote.doc, tag, paths[..i], captured)
    {
      assert paths[..i + 1][..i] == paths[..i];
      var _ := registry.Upsert(remote.doc, tag, paths[i], captured);
      i := i + 1;
    }
    assert paths[..i] == paths;
    outcome := Written;
  }

  // ---------------------------------------------------------------------------
  // The fence.

  /** Every row and tag was written by an operation of the current epoch. */
  ghost predicate Fenced(s: State) {
    && (forall m :: m in s.rows ==> s.rows[m] == s.epoch)
    && (forall t :: t in s.tags ==> s.tags[t] == s.epoch)
  }

  lemma {:induction false} RegisteredFrom(tags: map<TagRow, nat>, tag: string, keys: seq<string>, captured: nat)
    requires forall t :: t in tags ==> tags[t] == captured
    ensures forall t :: t in Registered(tags, tag, keys, captured) ==>
        Registered(tags, tag, keys, captured)[t] == captured
  {
    if |keys| > 0 {
      RegisteredFrom(tags, tag, keys[..|keys| - 1], captured);
    }
  }

  lemma {:induction false} UpsertsFrom(lower: string -> string, rows: Rows, doc: string, tag: string,
          paths: seq<string>, captured: nat)
    requires forall m :: m in rows ==> rows[m] == captured
    ensures forall m :: m in Upserts(lower, rows, doc, tag, paths, captured) ==>
              Upserts(lower, rows, doc, tag, paths, captured)[m] == captured
  {
    if |paths| > 0 {
      UpsertsFrom(lower, rows, doc, tag, paths[..|paths| - 1], captured);
    }
  }

  lemma {:induction false} MovesFrom(rows: Rows, ids: seq<string>, tag: string, from: string, to: string, captured: nat)
    requires forall m :: m in rows ==> rows[m] == captured
    ensures forall m :: m in Moves(rows, ids, tag, from, to, captured).0 ==>
        Moves(rows, ids, tag, from, to, captured).0[m] == captured
  {
    if |ids| > 0 {
      MovesFrom(rows, ids[..|ids| - 1], tag, from, to, captured);
    }
  }

  lemma EventIsFenced(lower: string -> string, s: State, event: Event)
    requires Fenced(s)
    ensures Fenced(Next(lower, s, event)) && s.epoch <= Next(lower, s, event).epoch
  {
    match event
    case FinishWrite(captured, remote, tag, keys, paths) =>
      if remote.Stored? && s.epoch == captured {
        RegisteredFrom(s.tags, tag, keys, captured);
        UpsertsFrom(lower, s.rows, remote.doc, tag, paths, captured);
      }
    case SplitMove(captured, tag, ids, parent, path) =>
      if s.epoch == captured {
        MovesFrom(s.rows, Unique(ids), tag, TagKey.Normalize(lower, parent), TagKey.Normalize(lower, path), captured);
      }
    case SplitTags(captured, tag, keys) =>
      if s.epoch == captured {
        RegisteredFrom(s.tags, tag, keys, captured);
      }
    case CleanUp(_) =>
    case ResetMemory =>
  }

  function Run(lower: string -> string, s: State, events: seq<Event>): State
    decreases |events|
  {
    if |events| == 0 then s else Run(lower, Next(lower, s, events[0]), events[1..])
  }

  function Resets(events: seq<Event>): nat {
    if |events| == 0 then 0 else (if events[0].ResetMemory? then 1 else 0) + Resets(events[1..])
  }

  lemma {:induction false} EpochCountsResets(lower: string -> string, s: State, events: seq<Event>)
    ensures Run(lower, s, events).epoch == s.epoch + Resets(events)
    decreases |events|
  {
    if |events| > 0 {
      EpochCountsResets(lower, Next(lower, s, events[0]), events[1..]);
    }
  }

  /** Wherever a reset lands, no row or tag of an operation that captured an older epoch is there
      afterwards, at any later moment. */
  lemma {:induction false} EveryRunIsFenced(lower: string -> string, s: State, events: seq<Event>)
    requires Fenced(s)
    ensures Fenced(Run(lower, s, events))
    decreases |events|
  {
    if |events| > 0 {
      EventIsFenced(lower, s, events[0]);
      EveryRunIsFenced(lower, Next(lower, s, events[0]), events[1..]);
    }
  }

  /** A remote write that succeeds is reported as written exactly when no reset happened while it
      ran; otherwise its document goes to the delete step and the registry is left alone. */
  lemma WriteSurvivesIff(lower: string -> string, s: State, events: seq<Event>, doc: string, tag: string,
          keys: seq<string>, paths: seq<string>)
    ensures var finished := Run(lower, s, events);
      && OutcomeOf(finished, s.epoch, Stored(doc)) == (if Resets(events) == 0 then Written else DeleteRemote(doc))
      && (Resets(events) > 0 ==> Next(lower, finished, FinishWrite(s.epoch, Stored(doc), tag, keys, paths)) == finished)
  {
    EpochCountsResets(lower, s, events);
  }

  // ---------------------------------------------------------------------------
  // What a write that survives leaves behind.

  /** One of the paths, as the registry keeps it. */
  predicate IsTopic(lower: string -> string, paths: seq<string>, path: string) {
    exists i :: 0 <= i < |paths| && path == TagKey.Normalize(lower, paths[i]) != "other"
  }

  lemma LastTopic(lower: string -> string, paths: seq<string>, path: string)
    requires |paths| > 0
    ensures IsTopic(lower, paths, path) <==>
            IsTopic(lower, paths[..|paths| - 1], path)
            || path == TagKey.Normalize(lower, paths[|paths| - 1]) != "other"
  {
    LastHit(key => TagKey.Normalize(lower, key), paths, path);
  }

  lemma LastHit(f: string -> string, paths: seq<string>, path: string)
    requires |paths| > 0
    ensures var front := paths[..|paths| - 1];
      (exists i :: 0 <= i < |paths| && path == f(paths[i]) != "other") <==>
      (exists i :: 0 <= i < |front| && path == f(front[i]) != "other") || path == f(paths[|paths| - 1]) != "other"
  {
    var front := paths[..|paths| - 1];
    if i :| 0 <= i < |front| && path == f(front[i]) != "other" {
      assert paths[i] == front[i];
    }
    if i :| 0 <= i < |paths| && path == f(paths[i]) != "other" {
      assert i < |front| ==> front[i] == paths[i];
    }
  }

  lemma {:induction false} UpsertsAre(lower: string -> string, rows: Rows, doc: string, tag: string,
          paths: seq<string>, epoch: nat, m: Mapping)
    ensures m in Upserts(lower, rows, doc, tag, paths, epoch) <==>
            m in rows || (m.doc == doc && m.tag == tag && IsTopic(lower, paths, m.path))
  {
    if |paths| > 0 {
      UpsertsAre(lower, rows, doc, tag, paths[..|paths| - 1], epoch, m);
      LastTopic(lower, paths, m.path);
    }
  }

  /** A remote write that comes back in its own epoch adds exactly its document under each of its
      topics and exactly its tags; in any other, or failed, it adds nothing. */
  lemma FinishWriteIs(lower: string -> string, s: State, captured: nat, remote: Remote, tag: string,
          keys: seq<string>, paths: seq<string>)
    ensures var after := Next(lower, s, FinishWrite(captured, remote, tag, keys, paths));
      var adds := remote.Stored? && s.epoch == captured;
      && after.epoch == s.epoch
      && (forall m :: m in after.rows <==>
            m in s.rows || (adds && m.doc == remote.doc && m.tag == tag && IsTopic(lower, paths, m.path)))
      && (forall t :: t in after.tags <==> t in s.tags || (adds && t.tag == tag && t.key in keys))
  {
    if remote.Stored? && s.epoch == captured {
      forall m ensures m in Upserts(lower, s.rows, remote.doc, tag, paths, captured) <==>
          m in s.rows || (m.doc == remote.doc && m.tag == tag && IsTopic(lower, paths, m.path))
      {
        UpsertsAre(lower, s.rows, remote.doc, tag, paths, captured, m);
      }
      forall t
        ensures t in Registered(s.tags, tag, keys, captured) <==> t in s.tags || (t.tag == tag && t.key in keys)
      {
        RegisteredIs(s.tags, tag, keys, captured, t);
      }
    }
  }

  /** So whatever happened while the remote store worked, short of a reset, a document that is
      reported as written is found under every topic it was written to, and under all above. */
  lemma WrittenIsFound(lower: string -> string, s: State, events: seq<Event>, doc: string, tag: string,
          keys: seq<string>, paths: seq<string>, i: nat, p: string)
    requires i < |paths| && TagKey.Normalize(lower, paths[i]) != "other"
    requires Inside(TagKey.Normalize(lower, paths[i]), p)
    ensures var finished := Run(lower, s, events);
      OutcomeOf(finished, s.epoch, Stored(doc)) == Written ==>
        doc in Under(Next(lower, finished, FinishWrite(s.epoch, Stored(doc), tag, keys, paths)).rows, tag, p)
  {
    var finished := Run(lower, s, events);
    FinishWriteIs(lower, finished, s.epoch, Stored(doc), tag, keys, paths);
    if OutcomeOf(finished, s.epoch, Stored(doc)) == Written {
      var m := Mapping(doc, tag, TagKey.Normalize(lower, paths[i]));
      assert m in Next(lower, finished, FinishWrite(s.epoch, Stored(doc), tag, keys, paths)).rows;
    }
  }

  /** What the other blocks do to the tables: a split registers its tags in its own epoch only, a
      clean-up removes exactly the rows it names, a reset everything. */
  lemma OtherBlocksAre(lower: string -> string, s: State, captured: nat, tag: string, keys: seq<string>,
          gone: set<Mapping>)
    ensures var split := Next(lower, s, SplitTags(captured, tag, keys));
      && split.rows == s.rows && split.epoch == s.epoch
      && (forall t :: t in split.tags <==> t in s.tags || (s.epoch == captured && t.tag == tag && t.key in keys))
    ensures var cleaned := Next(lower, s, CleanUp(gone));
      && cleaned.tags == s.tags && cleaned.epoch == s.epoch
      && (forall m :: m in cleaned.rows <==> m in s.rows && m !in gone)
      && (forall m :: m in cleaned.rows ==> cleaned.rows[m] == s.rows[m])
    ensures var reset := Next(lower, s, ResetMemory);
      reset.epoch > s.epoch && reset.rows == map[] && reset.tags == map[]
  {
    forall t
      ensures t in Registered(s.tags, tag, keys, captured) <==> t in s.tags || (t.tag == tag && t.key in keys)
    {
      RegisteredIs(s.tags, tag, keys, captured, t);
    }
  }

  /** And what a write is reported as. */
  lemma OutcomeIs(s: State, captured: nat, doc: string)
    ensures OutcomeOf(s, captured, Failed) == NotWritten
    ensures OutcomeOf(s, captured, Stored(doc)) == if s.epoch == captured then Written else DeleteRemote(doc)
  {
  }
}
