/** `mapWithConcurrency` (`src/brain/memory/tree.ts`): a bounded pool of workers that
    share `nextIndex` and the failure flag. A worker gives up control only while it
    awaits a mapper call; which awaiting call settles next is arbitrary. */
module WorkerPool {
  import opened Prelude

  datatype Event = Started(index: nat) | Settled(index: nat)

  // ---------------------------------------------------------------------------
  // What a trace of starts and settlements promises.

  ghost function Front(trace: seq<Event>): seq<Event>
    requires |trace| > 0
  {
    trace[..|trace| - 1]
  }

  ghost function Last(trace: seq<Event>): Event
    requires |trace| > 0
  {
    trace[|trace| - 1]
  }

  /** Calls started and not yet settled. */
  ghost function InFlight(trace: seq<Event>): set<nat> {
    if |trace| == 0 then {}
    else match Last(trace)
      case Started(i) => InFlight(Front(trace)) + {i}
      case Settled(i) => InFlight(Front(trace)) - {i}
  }

  ghost function Starts(trace: seq<Event>): nat {
    if |trace| == 0 then 0 else Starts(Front(trace)) + if Last(trace).Started? then 1 else 0
  }

  /** What the first call that failed failed with. */
  ghost function FirstFailure<R, E>(trace: seq<Event>, call: nat -> Result<R, E>): Option<E> {
    if |trace| == 0 then None
    else if FirstFailure(Front(trace), call).Some? then FirstFailure(Front(trace), call)
    else if Last(trace).Settled? && call(Last(trace).index).Err? then Some(call(Last(trace).index).error)
    else None
  }

  /** Items are claimed in order, each once; at most `limit` calls are in flight; nothing
      starts after a failure; only calls in flight settle. */
  ghost predicate Disciplined<R, E>(trace: seq<Event>, call: nat -> Result<R, E>, limit: nat) {
    |trace| == 0
    || (&& Disciplined(Front(trace), call, limit)
        && match Last(trace)
           case Started(i) =>
             && i == Starts(Front(trace))
             && FirstFailure(Front(trace), call).None?
             && |InFlight(trace)| <= limit
           case Settled(i) => i in InFlight(Front(trace)))
  }

  lemma AppendSettled<R, E>(trace: seq<Event>, call: nat -> Result<R, E>, limit: nat, index: nat)
    requires Disciplined(trace, call, limit) && index in InFlight(trace)
    ensures var after := trace + [Settled(index)];
      && Disciplined(after, call, limit)
      && InFlight(after) == InFlight(trace) - {index}
      && Starts(after) == Starts(trace)
      && FirstFailure(after, call) ==
           if FirstFailure(trace, call).None? && call(index).Err? then Some(call(index).error)
           else FirstFailure(trace, call)
  {
    var after := trace + [Settled(index)];
    assert Front(after) == trace && Last(after) == Settled(index);
  }

  lemma AppendStarted<R, E>(trace: seq<Event>, call: nat -> Result<R, E>, limit: nat)
    requires Disciplined(trace, call, limit) && FirstFailure(trace, call).None?
    requires |InFlight(trace) + {Starts(trace)}| <= limit
    ensures var after := trace + [Started(Starts(trace))];
      && Disciplined(after, call, limit)
      && InFlight(after) == InFlight(trace) + {Starts(trace)}
      && Starts(after) == Starts(trace) + 1
      && FirstFailure(after, call).None?
  {
    var after := trace + [Started(Starts(trace))];
    assert Front(after) == trace && Last(after) == Started(Starts(trace));
  }

  // ---------------------------------------------------------------------------
  // The same promises read off any two points of the trace.

  lemma {:induction false} PrefixDisciplined<R, E>(trace: seq<Event>, call: nat -> Result<R, E>, limit: nat, p: nat)
    requires Disciplined(trace, call, limit) && p <= |trace|
    ensures Disciplined(trace[..p], call, limit)
    decreases |trace|
  {
    if p == |trace| {
      assert trace[..p] == trace;
    } else {
      PrefixDisciplined(Front(trace), call, limit, p);
      assert Front(trace)[..p] == trace[..p];
    }
  }

  /** At every moment at most `limit` calls are in flight. */
  lemma {:induction false} AtMostLimitInFlight<R, E>(trace: seq<Event>, call: nat -> Result<R, E>, limit: nat, p: nat)
    requires Disciplined(trace, call, limit) && p <= |trace|
    ensures |InFlight(trace[..p])| <= limit
    decreases p
  {
    if p > 0 {
      PrefixDisciplined(trace, call, limit, p);
      AtMostLimitInFlight(trace, call, limit, p - 1);
      assert Front(trace[..p]) == trace[..p - 1];
      SubsetSize(InFlight(trace[..p - 1]) - {Last(trace[..p]).index}, InFlight(trace[..p - 1]));
    }
  }

  lemma {:induction false} StartsBelow<R, E>(trace: seq<Event>, call: nat -> Result<R, E>, limit: nat, p: nat)
    requires Disciplined(trace, call, limit) && p < |trace| && trace[p].Started?
    ensures trace[p].index < Starts(trace)
    decreases |trace|
  {
    if p < |trace| - 1 {
      StartsBelow(Front(trace), call, limit, p);
    }
  }

  /** No item is claimed twice: later starts carry larger indexes. */
  lemma ClaimedOnce<R, E>(trace: seq<Event>, call: nat -> Result<R, E>, limit: nat, p: nat, q: nat)
    requires Disciplined(trace, call, limit)
    requires p < q < |trace| && trace[p].Started? && trace[q].Started?
    ensures trace[p].index < trace[q].index
  {
    PrefixDisciplined(trace, call, limit, q + 1);
    assert Front(trace[..q + 1]) == trace[..q];
    StartsBelow(trace[..q], call, limit, p);
  }

  ghost predicate FailsAt<R, E>(trace: seq<Event>, call: nat -> Result<R, E>, p: nat)
    requires p < |trace|
  {
    trace[p].Settled? && call(trace[p].index).Err?
  }

  lemma {:induction false} FailureIsRemembered<R, E>(trace: seq<Event>, call: nat -> Result<R, E>, p: nat)
    requires p < |trace| && FailsAt(trace, call, p)
    ensures FirstFailure(trace, call).Some?
    decreases |trace|
  {
    if p < |trace| - 1 {
      FailureIsRemembered(Front(trace), call, p);
    }
  }

  /** After a failure no new item starts. */
  lemma NoStartAfterFailure<R, E>(trace: seq<Event>, call: nat -> Result<R, E>, limit: nat, p: nat, q: nat)
    requires Disciplined(trace, call, limit)
    requires p < q < |trace| && FailsAt(trace, call, p)
    ensures trace[q].Settled?
  {
    PrefixDisciplined(trace, call, limit, q + 1);
    assert Front(trace[..q + 1]) == trace[..q];
    FailureIsRemembered(trace[..q], call, p);
  }

  /** The remembered failure is that of the earliest failing settlement. */
  lemma {:induction false} FirstFailureIsEarliest<R, E>(trace: seq<Event>, call: nat -> Result<R, E>, error: E)
      returns (p: nat)
    requires FirstFailure(trace, call) == Some(error)
    ensures p < |trace| && FailsAt(trace, call, p) && call(trace[p].index) == Err(error)
    ensures forall q :: 0 <= q < p ==> !FailsAt(trace, call, q)
    decreases |trace|
  {
    if FirstFailure(Front(trace), call).Some? {
      p := FirstFailureIsEarliest(Front(trace), call, error);
      assert forall q :: 0 <= q < p ==> !FailsAt(Front(trace), call, q);
      forall q | 0 <= q < p ensures !FailsAt(trace, call, q) {
        assert !FailsAt(Front(trace), call, q);
      }
    } else {
      p := |trace| - 1;
      forall q | 0 <= q < p ensures !FailsAt(trace, call, q) {
        if FailsAt(trace, call, q) {
          FailureIsRemembered(Front(trace), call, q);
        }
      }
    }
  }

  lemma {:induction false} InFlightWasStarted<R, E>(trace: seq<Event>, call: nat -> Result<R, E>, limit: nat, i: nat)
    requires Disciplined(trace, call, limit) && i in InFlight(trace)
    ensures i < Starts(trace)
    decreases |trace|
  {
    if i in InFlight(Front(trace)) {
      InFlightWasStarted(Front(trace), call, limit, i);
    }
  }

  // ---------------------------------------------------------------------------

  /** Every claimed item whose call is over has its own value in its own place. */
  ghost predicate Stored<R, E>(results: seq<Option<R>>, call: nat -> Result<R, E>, claimed: nat, awaiting: set<nat>) {
    claimed <= |results| &&
    forall i :: 0 <= i < claimed && i !in awaiting ==> call(i).Ok? && results[i] == Some(call(i).value)
  }

  lemma StoreSettled<R, E>(results: seq<Option<R>>, call: nat -> Result<R, E>, claimed: nat,
                           awaiting: set<nat>, index: nat)
    requires Stored(results, call, claimed, awaiting) && index < claimed && call(index).Ok?
    ensures Stored(results[index := Some(call(index).value)], call, claimed, awaiting - {index})
  {
  }

  lemma StoreClaimed<R, E>(results: seq<Option<R>>, call: nat -> Result<R, E>, claimed: nat, awaiting: set<nat>)
    requires Stored(results, call, claimed, awaiting) && claimed < |results|
    ensures Stored(results, call, claimed + 1, awaiting + {claimed})
  {
  }

  /** The shared state between two turns of the workers. */
  ghost predicate Pool<R, E>(n: nat, limit: nat, call: nat -> Result<R, E>, trace: seq<Event>, awaiting: set<nat>,
                             nextIndex: nat, failure: Option<E>, results: seq<Option<R>>) {
    && |results| == n && Disciplined(trace, call, limit) && InFlight(trace) == awaiting
    && Starts(trace) == (if nextIndex < n then nextIndex else n)
    && failure == FirstFailure(trace, call)
    && (failure.None? ==> Stored(results, call, Starts(trace), awaiting))
    && (limit == 0 ==> trace == [])
  }

  lemma SettleOne<R, E>(n: nat, limit: nat, call: nat -> Result<R, E>, trace: seq<Event>, awaiting: set<nat>,
                        nextIndex: nat, failure: Option<E>, results: seq<Option<R>>, index: nat)
    requires Pool(n, limit, call, trace, awaiting, nextIndex, failure, results) && index in awaiting
    ensures index < n && index < Starts(trace) && Starts(trace + [Settled(index)]) == Starts(trace)
    ensures Pool(n, limit, call, trace + [Settled(index)], awaiting - {index}, nextIndex,
                 if failure.None? && call(index).Err? then Some(call(index).error) else failure,
                 if call(index).Ok? then results[index := Some(call(index).value)] else results)
  {
    InFlightWasStarted(trace, call, limit, index);
    AppendSettled(trace, call, limit, index);
    if failure.None? && call(index).Ok? {
      StoreSettled(results, call, Starts(trace), awaiting, index);
    }
  }

  lemma ClaimOne<R, E>(n: nat, limit: nat, call: nat -> Result<R, E>, trace: seq<Event>, awaiting: set<nat>,
                       nextIndex: nat, failure: Option<E>, results: seq<Option<R>>)
    requires Pool(n, limit, call, trace, awaiting, nextIndex, failure, results)
    requires failure.None? && nextIndex < n && |awaiting| < limit
    ensures |awaiting + {nextIndex}| == |awaiting| + 1 && Starts(trace + [Started(nextIndex)]) == Starts(trace) + 1
    ensures Pool(n, limit, call, trace + [Started(nextIndex)], awaiting + {nextIndex}, nextIndex + 1, failure, results)
  {
    if nextIndex in awaiting {
      InFlightWasStarted(trace, call, limit, nextIndex);
    }
    AppendStarted(trace, call, limit);
    StoreClaimed(results, call, nextIndex, awaiting);
  }

  /** One awaiting call settles: its value is stored, or the first failure is remembered. */
  method Settle<R, E>(n: nat, limit: nat, call: nat -> Result<R, E>, awaiting: set<nat>, ghost nextIndex: nat,
                      failed: bool, failure: Option<E>, results: seq<Option<R>>, ghost trace: seq<Event>)
      returns (awaiting': set<nat>, failed': bool, failure': Option<E>, results': seq<Option<R>>,
              ghost trace': seq<Event>)
    requires Pool(n, limit, call, trace, awaiting, nextIndex, failure, results) && awaiting != {}
        && (failed <==> failure.Some?)
    ensures Pool(n, limit, call, trace', awaiting', nextIndex, failure', results') && (failed' <==> failure'.Some?)
    ensures |awaiting'| == |awaiting| - 1 && Starts(trace') == Starts(trace) && (failed ==> failed')
  {
    var index :| index in awaiting;
    SettleOne(n, limit, call, trace, awaiting, nextIndex, failure, results, index);
    failed', failure', results' := failed, failure, results;
    match call(index) {
      case Ok(value) =>
        results' := results[index := Some(value)];
      case Err(error) =>
        if !failed { failure' := Some(error); }
        failed' := true;
    }
    trace' := trace + [Settled(index)];
    awaiting' := awaiting - {index};
  }

  /** `call(i)` is how the mapper's promise for `items[i]` settles; `idle` workers have
      not run yet, the others sit in `awaiting` or are finished. A hole (`None`) stays only
      where no call was made, which with `limit == 0` is everywhere. */
  method MapWithConcurrency<T, R, E>(items: seq<T>, limit: nat, call: nat -> Result<R, E>)
    returns (r: Result<seq<Option<R>>, E>, ghost trace: seq<Event>)
    ensures Disciplined(trace, call, limit)
    ensures InFlight(trace) == {} && Starts(trace) <= |items|
    ensures r.Err? <==> FirstFailure(trace, call).Some?
    ensures r.Err? ==> FirstFailure(trace, call) == Some(r.error)
    ensures r.Ok? ==> |r.value| == |items|
    ensures r.Ok? && limit >= 1 ==> Starts(trace) == |items|
    ensures r.Ok? && limit >= 1 ==>
              forall i :: 0 <= i < |items| ==> call(i).Ok? && r.value[i] == Some(call(i).value)
    ensures limit == 0 ==> trace == []
  {
    var results: seq<Option<R>> := seq(|items|, _ => None);
    var nextIndex := 0;
    var failed := false;
    var failure: Option<E> := None;
    var width := if limit < |items| then limit else |items|;
    var idle := width;
    var awaiting: set<nat> := {};
    trace := [];
    while idle > 0 || awaiting != {}
      invariant 0 <= idle && idle + |awaiting| <= width && Starts(trace) <= |items|
      invariant Pool(|items|, limit, call, trace, awaiting, nextIndex, failure, results)
      invariant failed <==> failure.Some?
      invariant !failed && nextIndex < |items| ==> idle + |awaiting| == width
      decreases |items| - Starts(trace), idle + |awaiting|
    {
      if {
        case idle > 0 =>
          idle := idle - 1;
        case awaiting != {} =>
          awaiting, failed, failure, results, trace :=
            Settle(|items|, limit, call, awaiting, nextIndex, failed, failure, results, trace);
      }
      // The worker is back at the top of `run`.
      if !failed {
        var index := nextIndex;
        nextIndex := nextIndex + 1;
        if index < |items| {
          ClaimOne(|items|, limit, call, trace, awaiting, index, failure, results);
          trace := trace + [Started(index)];
          awaiting := awaiting + {index};
        }
      }
    }
    if failed {
      r := Err(failure.value);
    } else {
      r := Ok(results);
    }
  }
}
