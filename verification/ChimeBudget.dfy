/** Unsolicited replies (`src/brain/slack/chime-budget.ts`): one counter row per channel,
    against the history of the replies it allowed. */
module ChimeBudget {
  import opened Prelude

  const HOUR_MS := 3_600_000
  const ABSOLUTE_MAX_PER_HOUR := 12
  const SUMMONS_MAX_PER_HOUR := 4
  const GENERAL_MAX_PER_HOUR := 6
  const LOW_MAX_PER_HOUR := 2
  const NORMAL_MIN_INTERVAL_MS := 180_000
  const LOW_QUIET_INTERVAL_MS := 900_000

  datatype Priority = Summons | Urgent | Normal | Low

  datatype Request = Request(priority: Priority, now: nat, lastActivity: Option<int>, urgentFinding: bool)

  datatype Row = Row(bucket: nat, total: nat, summons: nat, general: nat, low: nat,
                     lastReplyAt: nat, lastNormalReplyAt: nat)

  datatype Refusal = MinInterval | PriorityAllowance | Ceiling

  function Bucket(now: nat): nat { now / HOUR_MS }

  function EmptyRow(now: nat): Row { Row(Bucket(now), 0, 0, 0, 0, 0, 0) }

  /** The counters restart with the hour; the timestamps are carried over. */
  function Current(row: Row, now: nat): Row {
    if row.bucket == Bucket(now) then row
    else EmptyRow(now).(lastReplyAt := row.lastReplyAt, lastNormalReplyAt := row.lastNormalReplyAt)
  }

  function Evaluate(row: Row, request: Request): Result<Row, Refusal> {
    var state := Current(row, request.now);
    var counted := state.(total := state.total + 1, lastReplyAt := request.now);
    if state.total >= ABSOLUTE_MAX_PER_HOUR then Err(Ceiling)
    else match request.priority
      case Summons =>
        if state.summons >= SUMMONS_MAX_PER_HOUR then Err(PriorityAllowance)
        else Ok(counted.(summons := state.summons + 1))
      case Urgent =>
        if request.urgentFinding then Ok(counted)
        else if state.general >= GENERAL_MAX_PER_HOUR then Err(PriorityAllowance)
        else Ok(counted.(general := state.general + 1))
      case Normal =>
        if state.lastNormalReplyAt > 0 && request.now - state.lastNormalReplyAt < NORMAL_MIN_INTERVAL_MS
        then Err(MinInterval)
        else if state.general >= GENERAL_MAX_PER_HOUR then Err(PriorityAllowance)
        else Ok(counted.(general := state.general + 1, lastNormalReplyAt := request.now))
      case Low =>
        if request.lastActivity.Some? && request.now - request.lastActivity.value < LOW_QUIET_INTERVAL_MS
        then Err(MinInterval)
        else if state.low >= LOW_MAX_PER_HOUR then Err(PriorityAllowance)
        else Ok(counted.(low := state.low + 1))
  }

  /** The table of one agent, updated in place by `reserveChimeAnswer`. */
  class Budget {
    var rows: map<string, Row>

    constructor ()
      ensures rows == map[]
    {
      rows := map[];
    }

    method Reserve(channel: string, request: Request) returns (r: Result<Row, Refusal>)
      modifies this
      ensures r == Evaluate(RowOf(old(rows), channel, request.now), request)
      ensures r.Err? ==> rows == old(rows)
      ensures r.Ok? ==> rows == old(rows)[channel := r.value]
    {
      var state := if channel in rows then rows[channel] else EmptyRow(request.now);
      r := Evaluate(state, request);
      if r.Ok? {
        rows := rows[channel := r.value];
      }
    }
  }

  function RowOf(rows: map<string, Row>, channel: string, now: nat): Row {
    if channel in rows then rows[channel] else EmptyRow(now)
  }

  // ---------------------------------------------------------------------------
  // The history of allowed replies, and the policy stated on it.

  datatype Kind = SummonsReply | GeneralReply | LowReply | Finding

  datatype Reply = Reply(at: nat, kind: Kind, normal: bool)

  function KindOf(request: Request): Kind {
    match request.priority
    case Summons => SummonsReply
    case Urgent => if request.urgentFinding then Finding else GeneralReply
    case Normal => GeneralReply
    case Low => LowReply
  }

  function ReplyTo(request: Request): Reply {
    Reply(request.now, KindOf(request), request.priority == Normal)
  }

  function CountKind(history: seq<Reply>, bucket: nat, kind: Kind): nat {
    if |history| == 0 then 0
    else
      var last := history[|history| - 1];
      CountKind(history[..|history| - 1], bucket, kind)
        + if Bucket(last.at) == bucket && last.kind == kind then 1 else 0
  }

  function CountAll(history: seq<Reply>, bucket: nat): nat {
    if |history| == 0 then 0
    else CountAll(history[..|history| - 1], bucket) + if Bucket(history[|history| - 1].at) == bucket then 1 else 0
  }

  /** 0 when there was none, as in the row. */
  function LastNormalAt(history: seq<Reply>): nat {
    if |history| == 0 then 0
    else if history[|history| - 1].normal then history[|history| - 1].at
    else LastNormalAt(history[..|history| - 1])
  }

  function Allowance(kind: Kind): nat {
    match kind
    case SummonsReply => SUMMONS_MAX_PER_HOUR
    case GeneralReply => GENERAL_MAX_PER_HOUR
    case LowReply => LOW_MAX_PER_HOUR
    case Finding => ABSOLUTE_MAX_PER_HOUR
  }

  /** The policy, without any row: caps of the clock hour, three minutes between normal
      replies, fifteen quiet minutes before a low one. */
  predicate Permitted(history: seq<Reply>, request: Request) {
    var bucket, kind := Bucket(request.now), KindOf(request);
    && CountAll(history, bucket) < ABSOLUTE_MAX_PER_HOUR
    && (kind != Finding ==> CountKind(history, bucket, kind) < Allowance(kind))
    && (request.priority == Normal && LastNormalAt(history) > 0 ==>
          request.now - LastNormalAt(history) >= NORMAL_MIN_INTERVAL_MS)
    && (request.priority == Low && request.lastActivity.Some? ==>
          request.now - request.lastActivity.value >= LOW_QUIET_INTERVAL_MS)
  }

  /** The row summarises the history. */
  ghost predicate Summarises(row: Row, history: seq<Reply>) {
    && row.total == CountAll(history, row.bucket)
    && row.summons == CountKind(history, row.bucket, SummonsReply)
    && row.general == CountKind(history, row.bucket, GeneralReply)
    && row.low == CountKind(history, row.bucket, LowReply)
    && row.lastNormalReplyAt == LastNormalAt(history)
    && (forall i :: 0 <= i < |history| ==> Bucket(history[i].at) <= row.bucket)
    && row.lastReplyAt == if |history| == 0 then 0 else history[|history| - 1].at
  }

  lemma {:induction false} NothingLater(history: seq<Reply>, bucket: nat)
    requires forall i :: 0 <= i < |history| ==> Bucket(history[i].at) < bucket
    ensures CountAll(history, bucket) == 0
    ensures forall kind :: CountKind(history, bucket, kind) == 0
  {
    if |history| > 0 {
      NothingLater(history[..|history| - 1], bucket);
    }
  }

  lemma CurrentSummarises(row: Row, history: seq<Reply>, now: nat)
    requires Summarises(row, history) && row.bucket <= Bucket(now)
    ensures Summarises(Current(row, now), history)
  {
    if row.bucket < Bucket(now) {
      NothingLater(history, Bucket(now));
    }
  }

  lemma AppendReply(history: seq<Reply>, reply: Reply)
    ensures forall b :: CountAll(history + [reply], b) == CountAll(history, b) + if Bucket(reply.at) == b then 1 else 0
    ensures forall b, k :: CountKind(history + [reply], b, k)
                        == CountKind(history, b, k) + if Bucket(reply.at) == b && reply.kind == k then 1 else 0
    ensures LastNormalAt(history + [reply]) == if reply.normal then reply.at else LastNormalAt(history)
  {
    assert (history + [reply])[..|history|] == history;
  }

  /** Judged by the row alone, a reply goes out exactly when the policy on the whole
      history permits it, and the new row summarises the longer history. */
  lemma RowRefinesHistory(row: Row, history: seq<Reply>, request: Request)
    requires Summarises(row, history) && row.bucket <= Bucket(request.now)
    ensures Evaluate(row, request).Ok? <==> Permitted(history, request)
    ensures Evaluate(row, request).Ok? ==>
              && Summarises(Evaluate(row, request).value, history + [ReplyTo(request)])
              && Evaluate(row, request).value.bucket == Bucket(request.now)
  {
    CurrentSummarises(row, history, request.now);
    AppendReply(history, ReplyTo(request));
  }

  /** A normal reply too soon after another, or a low one into a conversation that is not quiet. */
  predicate TooSoon(history: seq<Reply>, request: Request) {
    match request.priority
    case Normal => LastNormalAt(history) > 0 && request.now < LastNormalAt(history) + NORMAL_MIN_INTERVAL_MS
    case Low => request.lastActivity.Some? && request.now < request.lastActivity.value + LOW_QUIET_INTERVAL_MS
    case _ => false
  }

  /** Why a reply is held back, read off the history: the ceiling of the hour first, then the
      interval, then the allowance of its kind. */
  lemma RefusalNamesReason(row: Row, history: seq<Reply>, request: Request)
    requires Summarises(row, history) && row.bucket <= Bucket(request.now)
    ensures var r := Evaluate(row, request);
      var bucket, kind := Bucket(request.now), KindOf(request);
      && (r == Err(Ceiling) <==> CountAll(history, bucket) >= ABSOLUTE_MAX_PER_HOUR)
      && (r == Err(MinInterval) <==>
            CountAll(history, bucket) < ABSOLUTE_MAX_PER_HOUR && TooSoon(history, request))
      && (r == Err(PriorityAllowance) <==>
            CountAll(history, bucket) < ABSOLUTE_MAX_PER_HOUR && !TooSoon(history, request)
            && kind != Finding && CountKind(history, bucket, kind) >= Allowance(kind))
  {
    CurrentSummarises(row, history, request.now);
  }

  // ---------------------------------------------------------------------------
  // What any run of requests leaves behind.

  ghost predicate WithinBudget(history: seq<Reply>) {
    && (forall b :: CountAll(history, b) <= ABSOLUTE_MAX_PER_HOUR)
    && (forall b, k :: CountKind(history, b, k) <= Allowance(k))
    && (forall i, j :: 0 <= i < j < |history| ==> history[i].at <= history[j].at)
    && (forall i, j :: 0 <= i < j < |history| && history[i].normal && history[j].normal && history[i].at > 0 ==>
          history[j].at - history[i].at >= NORMAL_MIN_INTERVAL_MS)
  }

  lemma {:induction false} KindsAddUp(history: seq<Reply>, bucket: nat)
    ensures CountAll(history, bucket)
         == CountKind(history, bucket, SummonsReply) + CountKind(history, bucket, GeneralReply)
          + CountKind(history, bucket, LowReply) + CountKind(history, bucket, Finding)
  {
    if |history| > 0 {
      KindsAddUp(history[..|history| - 1], bucket);
    }
  }

  lemma {:induction false} LastNormalIsLatest(history: seq<Reply>)
    requires forall i, j :: 0 <= i < j < |history| ==> history[i].at <= history[j].at
    ensures forall i :: 0 <= i < |history| && history[i].normal ==> history[i].at <= LastNormalAt(history)
  {
    if |history| > 0 && !history[|history| - 1].normal {
      LastNormalIsLatest(history[..|history| - 1]);
      assert forall i :: 0 <= i < |history| - 1 ==> history[i] == history[..|history| - 1][i];
    }
  }

  lemma PermittedKeepsBudget(history: seq<Reply>, request: Request)
    requires WithinBudget(history) && Permitted(history, request)
    requires forall i :: 0 <= i < |history| ==> history[i].at <= request.now
    ensures WithinBudget(history + [ReplyTo(request)])
  {
    AppendReply(history, ReplyTo(request));
    KindsAddUp(history, Bucket(request.now));
    LastNormalIsLatest(history);
  }

  /** Serves requests one after the other from a channel without a row. */
  function Serve(row: Option<Row>, history: seq<Reply>, requests: seq<Request>): (Option<Row>, seq<Reply>)
    decreases |requests|
  {
    if |requests| == 0 then (row, history)
    else
      var request := requests[0];
      var decision := Evaluate(if row.Some? then row.value else EmptyRow(request.now), request);
      if decision.Ok? then Serve(Some(decision.value), history + [ReplyTo(request)], requests[1..])
      else Serve(row, history, requests[1..])
  }

  ghost predicate ClockForward(requests: seq<Request>, from: nat) {
    |requests| == 0 || (from <= requests[0].now && ClockForward(requests[1..], requests[0].now))
  }

  /** The row, when there is one, summarises the history, which is within budget and no later
      than the clock. */
  ghost predicate Kept(row: Option<Row>, history: seq<Reply>, now: nat) {
    && WithinBudget(history)
    && (forall i :: 0 <= i < |history| ==> history[i].at <= now)
    && (if row.Some? then Summarises(row.value, history) && row.value.bucket <= Bucket(now) else history == [])
  }

  lemma RefusedKeeps(row: Option<Row>, history: seq<Reply>, from: nat, now: nat)
    requires Kept(row, history, from) && from <= now
    ensures Kept(row, history, now)
  {
  }

  lemma AllowedKeeps(row: Option<Row>, history: seq<Reply>, request: Request)
    requires Kept(row, history, request.now)
    ensures var state := if row.Some? then row.value else EmptyRow(request.now);
      Evaluate(state, request).Ok? ==>
        Kept(Some(Evaluate(state, request).value), history + [ReplyTo(request)], request.now)
  {
    var state := if row.Some? then row.value else EmptyRow(request.now);
    RowRefinesHistory(state, history, request);
    if Evaluate(state, request).Ok? {
      PermittedKeepsBudget(history, request);
    }
  }

  lemma {:induction false} BudgetHolds(row: Option<Row>, history: seq<Reply>, requests: seq<Request>, from: nat)
    requires ClockForward(requests, from) && Kept(row, history, from)
    ensures var (row', history') := Serve(row, history, requests);
      && WithinBudget(history')
      && if row'.Some? then Summarises(row'.value, history') else history' == []
    decreases |requests|
  {
    if |requests| > 0 {
      var request := requests[0];
      var state := if row.Some? then row.value else EmptyRow(request.now);
      RefusedKeeps(row, history, from, request.now);
      AllowedKeeps(row, history, request);
      if Evaluate(state, request).Ok? {
        BudgetHolds(Some(Evaluate(state, request).value), history + [ReplyTo(request)], requests[1..], request.now);
      } else {
        BudgetHolds(row, history, requests[1..], request.now);
      }
    }
  }

  /** From an empty channel, with the clock not going back, every history of allowed
      replies keeps every cap and every interval. */
  lemma EveryRunWithinBudget(requests: seq<Request>)
    requires ClockForward(requests, 0)
    ensures WithinBudget(Serve(None, [], requests).1)
  {
    BudgetHolds(None, [], requests, 0);
  }

  /** The total of an hour beyond its three counters is the number of urgent findings. */
  lemma ExcessIsFindings(row: Row, history: seq<Reply>)
    requires Summarises(row, history)
    ensures row.total - row.summons - row.general - row.low == CountKind(history, row.bucket, Finding)
  {
    KindsAddUp(history, row.bucket);
  }

  /** Without urgent findings the ceiling refuses nothing an allowance would still
      permit: 4 + 6 + 2 == 12. */
  lemma CeilingOnlyAfterAllowances(row: Row, history: seq<Reply>, request: Request)
    requires Summarises(row, history) && row.bucket <= Bucket(request.now) && WithinBudget(history)
    requires CountKind(history, Bucket(request.now), Finding) == 0
    requires Evaluate(row, request) == Err(Ceiling)
    ensures forall kind :: kind != Finding ==> CountKind(history, Bucket(request.now), kind) == Allowance(kind)
  {
    CurrentSummarises(row, history, request.now);
    var b := Bucket(request.now);
    KindsAddUp(history, b);
    assert CountKind(history, b, SummonsReply) <= 4 && CountKind(history, b, GeneralReply) <= 6
        && CountKind(history, b, LowReply) <= 2;
  }

  /** The interval is blind to a normal reply at instant 0, which the row cannot tell from
      none: the positive instant in `WithinBudget` is needed. */
  lemma IntervalBlindAtZero()
    ensures var normal := Request(Normal, 0, None, false);
      Serve(None, [], [normal, normal]).1 == [Reply(0, GeneralReply, true), Reply(0, GeneralReply, true)]
  {
    var normal := Request(Normal, 0, None, false);
    var requests := [normal, normal];
    assert requests[1..] == [normal] && requests[1..][1..] == [];
    assert [] + [ReplyTo(normal)] == [ReplyTo(normal)];
    var row := Evaluate(EmptyRow(0), normal).value;
    assert Serve(Some(row), [ReplyTo(normal)], [normal]).1 == [ReplyTo(normal)] + [ReplyTo(normal)];
  }
}
