/** Self-migration (`src/db/migrate.ts`): isolates that share one bundled list race to bring
    one database up to date. A batch commits a migration with its bookkeeping row or not
    at all; the bookkeeping names are unique. */
module Migrations {
  import opened Prelude

  type Name = string

  ghost predicate DistinctNames(names: seq<Name>) {
    forall i, j :: 0 <= i < j < |names| ==> names[i] != names[j]
  }

  /** The database: the names in its bookkeeping table, in the order they were committed. */
  class Database {
    var applied: seq<Name>

    constructor ()
      ensures applied == []
    {
      applied := [];
    }

    /** Fails on a name that is already there, and for reasons of its own (`fault`). */
    method Batch(name: Name, fault: bool) returns (committed: bool)
      modifies this
      ensures committed <==> !fault && name !in old(applied)
      ensures applied == if committed then old(applied) + [name] else old(applied)
    {
      committed := !fault && name !in applied;
      if committed {
        applied := applied + [name];
      }
    }

    /** One isolate with the database to itself: it resumes where the table ends, and
        stops at the first batch that fails. */
    method ApplyMigrations(list: seq<Name>, fault: Name -> bool) returns (done: bool, ran: seq<Name>)
      requires DistinctNames(list) && applied <= list
      modifies this
      ensures applied == old(applied) + ran && applied <= list
      ensures done <==> applied == list
      ensures !done ==> fault(list[|applied|])
      ensures done ==> forall name :: name in ran ==> !fault(name)
    {
      var known := set name | name in applied;
      ran := [];
      var i := 0;
      while i < |list|
        invariant 0 <= i <= |list|
        invariant applied == old(applied) + ran
        invariant applied == if i <= |old(applied)| then old(applied) else list[..i]
        invariant applied <= list
        invariant known == set name | name in old(applied)
        invariant forall name :: name in ran ==> !fault(name)
      {
        var name := list[i];
        if name in known {
          assert i < |old(applied)| by { if i >= |old(applied)| { NotAmong(list, |old(applied)|, i); } }
        } else {
          assert i >= |old(applied)|;
          NotAmong(list, i, i);
          assert applied == list[..i];
          var committed := Batch(name, fault(name));
          if !committed {
            return false, ran;
          }
          ran := ran + [name];
        }
        i := i + 1;
      }
      done := true;
    }
  }

  lemma NotAmong(list: seq<Name>, n: nat, i: nat)
    requires DistinctNames(list) && n <= i < |list|
    ensures list[i] !in list[..n]
  {
  }

  // ---------------------------------------------------------------------------
  // Any number of isolates, interleaved at every await.

  /** The `ensured` promise of an isolate: absent, pending at its read or in its loop, or
      resolved. A failure clears it. */
  datatype Isolate =
    | Unstarted
    | Reading
    | Applying(known: set<Name>, index: nat)
    | Ensured

  datatype State = State(applied: seq<Name>, isolates: map<nat, Isolate>)

  datatype Step =
    | Request(id: nat)
    | Read(id: nat, fault: bool)
    | Advance(id: nat, fault: bool)
    | Restart(id: nat)

  function IsolateOf(s: State, id: nat): Isolate {
    if id in s.isolates then s.isolates[id] else Unstarted
  }

  function With(s: State, id: nat, isolate: Isolate): State {
    s.(isolates := s.isolates[id := isolate])
  }

  function Next(list: seq<Name>, s: State, step: Step): State {
    var isolate := IsolateOf(s, step.id);
    match step
    case Request(id) => if isolate.Unstarted? then With(s, id, Reading) else s
    case Read(id, fault) =>
      if !isolate.Reading? then s
      else if fault then With(s, id, Unstarted)
      else With(s, id, Applying(set name | name in s.applied, 0))
    case Advance(id, fault) =>
      if !isolate.Applying? then s
      else if isolate.index >= |list| then With(s, id, Ensured)
      else
        var name := list[isolate.index];
        var onward := isolate.(index := isolate.index + 1);
        if name in isolate.known then With(s, id, onward)
        else if fault || name in s.applied then With(s, id, Unstarted)
        else With(s.(applied := s.applied + [name]), id, onward)
    case Restart(id) => With(s, id, Unstarted)
  }

  function Run(list: seq<Name>, s: State, steps: seq<Step>): State
    decreases |steps|
  {
    if |steps| == 0 then s else Run(list, Next(list, s, steps[0]), steps[1..])
  }

  /** The table is a prefix of the list, and nobody is ahead of it. */
  ghost predicate Consistent(list: seq<Name>, s: State) {
    && s.applied <= list
    && forall id :: id in s.isolates ==>
         match s.isolates[id]
         case Applying(known, index) => index <= |s.applied| && forall name :: name in known ==> name in s.applied
         case Ensured => s.applied == list
         case _ => true
  }

  lemma StepIsConsistent(list: seq<Name>, s: State, step: Step)
    requires DistinctNames(list) && Consistent(list, s)
    ensures Consistent(list, Next(list, s, step))
    ensures s.applied <= Next(list, s, step).applied
    ensures |Next(list, s, step).applied| <= |s.applied| + 1
  {
    var isolate := IsolateOf(s, step.id);
    if step.Advance? && isolate.Applying? && isolate.index < |list| {
      var name := list[isolate.index];
      if name in s.applied {
        var k :| 0 <= k < |s.applied| && s.applied[k] == name;
        assert list[k] == name && k == isolate.index;
      }
    }
  }

  /** Over every interleaving, with crashes and faulty batches anywhere, the migrations in
      the table are a prefix of the list in list order, so each was committed once; and
      whoever reports success has a complete database. */
  lemma {:induction false} RunIsConsistent(list: seq<Name>, s: State, steps: seq<Step>)
    requires DistinctNames(list) && Consistent(list, s)
    ensures var end := Run(list, s, steps);
      && Consistent(list, end)
      && s.applied <= end.applied
      && DistinctNames(end.applied)
      && forall id :: id in end.isolates && end.isolates[id].Ensured? ==> end.applied == list
    decreases |steps|
  {
    if |steps| > 0 {
      StepIsConsistent(list, s, steps[0]);
      RunIsConsistent(list, Next(list, s, steps[0]), steps[1..]);
    }
  }

  /** Racing past the snapshot is fatal: the isolate whose next migration someone else
      committed after its read stops there, and leaves the table as it was. */
  lemma LoserStops(list: seq<Name>, s: State, id: nat, fault: bool)
    requires DistinctNames(list) && Consistent(list, s)
    requires IsolateOf(s, id).Applying? && IsolateOf(s, id).index < |list|
    requires list[IsolateOf(s, id).index] !in IsolateOf(s, id).known
    ensures var end := Next(list, s, Advance(id, fault));
      (IsolateOf(s, id).index < |s.applied| || fault) <==> (IsolateOf(end, id).Unstarted? && end.applied == s.applied)
  {
    var i := IsolateOf(s, id).index;
    if i < |s.applied| {
      assert s.applied[i] == list[i];
    } else {
      NotAmong(list, |s.applied|, i);
      assert s.applied == list[..|s.applied|];
    }
  }

  /** `n` loop iterations of one isolate that nothing disturbs. */
  function Alone(id: nat, n: nat): seq<Step> {
    if n == 0 then [] else [Advance(id, false)] + Alone(id, n - 1)
  }

  /** What an undisturbed isolate knows: the table as read, extended only by itself. */
  ghost predicate UpToDate(list: seq<Name>, s: State, isolate: Isolate) {
    && isolate.Applying? && isolate.index <= |s.applied|
    && (forall i :: isolate.index <= i < |s.applied| ==> s.applied[i] in isolate.known)
  }

  lemma {:induction false} LoopCompletes(list: seq<Name>, s: State, id: nat)
    requires DistinctNames(list) && Consistent(list, s) && UpToDate(list, s, IsolateOf(s, id))
    ensures IsolateOf(s, id).index <= |list|
    ensures var end := Run(list, s, Alone(id, |list| - IsolateOf(s, id).index + 1));
      IsolateOf(end, id) == Ensured && end.applied == list
    decreases |list| - IsolateOf(s, id).index
  {
    var isolate := IsolateOf(s, id);
    var next := Next(list, s, Advance(id, false));
    var n := |list| - isolate.index;
    assert Alone(id, n + 1)[1..] == Alone(id, n);
    StepIsConsistent(list, s, Advance(id, false));
    if n == 0 {
      assert Run(list, next, []) == next;
    } else {
      if isolate.index == |s.applied| {
        NotAmong(list, |s.applied|, isolate.index);
        assert s.applied == list[..|s.applied|];
      }
      LoopCompletes(list, next, id);
    }
  }

  /** Progress: from any reachable state, one isolate that starts afresh and is left alone
      finishes the list, whatever the others left behind. */
  lemma RetryCompletes(list: seq<Name>, s: State, id: nat)
    requires DistinctNames(list) && Consistent(list, s)
    ensures var end := Run(list, s, [Restart(id), Request(id), Read(id, false)] + Alone(id, |list| + 1));
      IsolateOf(end, id) == Ensured && end.applied == list
  {
    var rest := Alone(id, |list| + 1);
    var s1 := Next(list, s, Restart(id));
    var s2 := Next(list, s1, Request(id));
    var s3 := Next(list, s2, Read(id, false));
    var steps := [Restart(id), Request(id), Read(id, false)] + rest;
    assert steps[1..] == [Request(id), Read(id, false)] + rest;
    assert steps[1..][1..] == [Read(id, false)] + rest;
    assert steps[1..][1..][1..] == rest;
    assert Run(list, s, steps) == Run(list, s1, steps[1..]) == Run(list, s2, steps[1..][1..]) == Run(list, s3, rest);
    StepIsConsistent(list, s, Restart(id));
    StepIsConsistent(list, s1, Request(id));
    StepIsConsistent(list, s2, Read(id, false));
    LoopCompletes(list, s3, id);
  }
}
