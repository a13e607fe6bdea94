/** Sending a research draft (`src/brain/auto-research/store.ts`, `send.ts`): the status of its
    row, the calls working on it, and what Slack holds under the draft's message id. */
module DraftSending {
  import opened Prelude

  const SENDING_STALE_MS := 120000

  datatype Status = Draft | Sending | Sent | Dismissed

  datatype Row = Row(body: string, status: Status, decidedAt: Option<int>, slackTs: Option<string>,
                     channel: Option<string>, editedAt: Option<int>)

  // ---------------------------------------------------------------------------
  // The row updates.

  predicate Claimable(row: Row, now: int) {
    row.status == Draft
    || (row.status == Sending && now - (if row.decidedAt.Some? then row.decidedAt.value else 0) > SENDING_STALE_MS)
  }

  function Claimed(row: Row, now: int): Row {
    if Claimable(row, now) then row.(status := Sending, decidedAt := Some(now)) else row
  }

  function Released(row: Row): Row {
    if row.status == Sending then row.(status := Draft, decidedAt := None) else row
  }

  /** No guard on the status. */
  function Finalized(row: Row, ts: string, channel: string): Row {
    row.(status := Sent, slackTs := Some(ts), channel := Some(channel))
  }

  function DismissedAt(row: Row, now: int): Row {
    if row.status == Draft then row.(status := Dismissed, decidedAt := Some(now)) else row
  }

  /** `text` is the trimmed new body. */
  function EditedTo(row: Row, text: string, now: int): Row {
    if row.status == Draft && text != "" then row.(body := text, editedAt := Some(now)) else row
  }

  class DraftTable {
    var rows: map<string, Row>

    constructor ()
      ensures rows == map[]
    {
      rows := map[];
    }

    /** The claimed draft as it was read, or `None`. */
    method Claim(id: string, now: int) returns (draft: Option<Row>)
      modifies this
      ensures draft == if id in old(rows) && Claimable(old(rows)[id], now) then Some(old(rows)[id]) else None
      ensures rows == if id in old(rows) then old(rows)[id := Claimed(old(rows)[id], now)] else old(rows)
    {
      if id !in rows { return None; }
      var row := rows[id];
      var decided := if row.decidedAt.Some? then row.decidedAt.value else 0;
      var stale := row.status == Sending && now - decided > SENDING_STALE_MS;
      if row.status != Draft && !stale {
        assert rows[id := row] == rows;
        return None;
      }
      rows := rows[id := row.(status := Sending, decidedAt := Some(now))];
      draft := Some(row);
    }

    method Release(id: string)
      modifies this
      ensures rows == if id in old(rows) then old(rows)[id := Released(old(rows)[id])] else old(rows)
    {
      if id in rows {
        if rows[id].status == Sending {
          rows := rows[id := rows[id].(status := Draft, decidedAt := None)];
        } else {
          assert rows[id := rows[id]] == rows;
        }
      }
    }

    method Finalize(id: string, ts: string, channel: string)
      modifies this
      ensures rows == if id in old(rows) then old(rows)[id := Finalized(old(rows)[id], ts, channel)] else old(rows)
    {
      if id in rows {
        rows := rows[id := rows[id].(status := Sent, slackTs := Some(ts), channel := Some(channel))];
      }
    }

    method Dismiss(id: string, now: int) returns (dismissed: bool)
      modifies this
      ensures dismissed <==> id in old(rows) && old(rows)[id].status == Draft
      ensures rows == if id in old(rows) then old(rows)[id := DismissedAt(old(rows)[id], now)] else old(rows)
    {
      if id !in rows { return false; }
      if rows[id].status != Draft {
        assert rows[id := rows[id]] == rows;
        return false;
      }
      rows := rows[id := rows[id].(status := Dismissed, decidedAt := Some(now))];
      dismissed := true;
    }

    method Edit(id: string, text: string, now: int) returns (edited: bool)
      modifies this
      ensures edited <==> id in old(rows) && old(rows)[id].status == Draft && text != ""
      ensures rows == if id in old(rows) then old(rows)[id := EditedTo(old(rows)[id], text, now)] else old(rows)
    {
      if id !in rows { return false; }
      if rows[id].status != Draft || text == "" {
        assert rows[id := rows[id]] == rows;
        return false;
      }
      rows := rows[id := rows[id].(body := text, editedAt := Some(now))];
      edited := true;
    }
  }

  // ---------------------------------------------------------------------------
  // Calls on one draft, interleaved at their awaits.

  /** Before its claim a call checks entitlement, workspace and target; after it, it posts the
      body it claimed. A call that crashed or lost its connection leaves a post adrift, which may
      still arrive. */
  datatype Flow = Preparing | Posting(body: string) | Adrift(body: string)

  /** `delivered` is what Slack shows for the draft's message id: the first post that arrived. */
  datatype State = State(row: Row, flows: map<nat, Flow>, delivered: Option<string>)

  /** An `Answer` comes from Slack, and ends the post; with `Lose` the call fails without one. */
  datatype Step =
    | Start(flow: nat)
    | GiveUp(flow: nat)
    | ClaimStep(flow: nat, now: int)
    | Arrive(flow: nat)
    | Answer(flow: nat, ok: bool, ts: string, channel: string)
    | Lose(flow: nat)
    | Crash(flow: nat)
    | DismissStep(now: int)
    | EditStep(text: string, now: int)

  predicate IsPreparing(s: State, n: nat) {
    n in s.flows && s.flows[n].Preparing?
  }

  predicate IsPosting(s: State, n: nat) {
    n in s.flows && s.flows[n].Posting?
  }

  /** A post that may still arrive, whether or not somebody waits for its answer. */
  predicate InFlight(s: State, n: nat) {
    n in s.flows && !s.flows[n].Preparing?
  }

  function Next(s: State, step: Step): State {
    match step
    case Start(n) => if s.row.status == Draft && n !in s.flows then s.(flows := s.flows[n := Preparing]) else s
    case GiveUp(n) => if IsPreparing(s, n) then s.(flows := s.flows - {n}) else s
    case ClaimStep(n, now) =>
      if IsPreparing(s, n) then
        if Claimable(s.row, now)
        then s.(row := Claimed(s.row, now), flows := s.flows[n := Posting(s.row.body)])
        else s.(flows := s.flows - {n})
      else s
    case Arrive(n) => if InFlight(s, n) && s.delivered.None? then s.(delivered := Some(s.flows[n].body)) else s
    case Answer(n, ok, ts, channel) =>
      if IsPosting(s, n)
      then State(if ok then Finalized(s.row, ts, channel) else Released(s.row), s.flows - {n}, s.delivered)
      else s
    case Lose(n) =>
      if IsPosting(s, n) then s.(row := Released(s.row), flows := s.flows[n := Adrift(s.flows[n].body)]) else s
    case Crash(n) =>
      if IsPosting(s, n) then s.(flows := s.flows[n := Adrift(s.flows[n].body)])
      else if IsPreparing(s, n) then s.(flows := s.flows - {n})
      else s
    case DismissStep(now) => s.(row := DismissedAt(s.row, now))
    case EditStep(text, now) => s.(row := EditedTo(s.row, text, now))
  }

  function Run(s: State, steps: seq<Step>): State
    decreases |steps|
  {
    if |steps| == 0 then s else Run(Next(s, steps[0]), steps[1..])
  }

  // ---------------------------------------------------------------------------
  // What a caller hopes for, and exactly which steps disappoint it.

  /** One call posts at a time; whatever was posted or is shown is the recorded body; Slack shows
      nothing for a draft that waits or was dismissed, and something for one that is sent. */
  datatype Promise = OnePoster | OneBody | ShownAsRecorded

  ghost predicate Keeps(promise: Promise, s: State) {
    match promise
    case OnePoster => forall m, n :: IsPosting(s, m) && IsPosting(s, n) ==> m == n
    case OneBody =>
      && (forall n :: InFlight(s, n) ==> s.flows[n].body == s.row.body)
      && (s.delivered.Some? ==> s.delivered.value == s.row.body)
    case ShownAsRecorded =>
      && (s.row.status in {Draft, Dismissed} ==> s.delivered.None?)
      && (s.row.status == Sent ==> s.delivered.Some?)
  }

  /** A claim that succeeds while another call posts. */
  ghost predicate ClaimsBesideAnother(s: State, step: Step) {
    step.ClaimStep? && IsPreparing(s, step.flow) && Claimable(s.row, step.now) && exists n :: IsPosting(s, n)
  }

  /** An edit of a draft that Slack already shows, or of which a post may still arrive. */
  ghost predicate EditsPosted(s: State, step: Step) {
    && step.EditStep? && s.row.status == Draft && step.text != "" && step.text != s.row.body
    && (s.delivered.Some? || exists n :: InFlight(s, n))
  }

  /** A first arrival for a draft that waits or was dismissed, a failure after an arrival, or a
      success without one. */
  predicate ShowsOtherwise(s: State, step: Step) {
    match step
    case Arrive(n) => InFlight(s, n) && s.delivered.None? && s.row.status in {Draft, Dismissed}
    case Answer(n, ok, _, _) =>
      IsPosting(s, n) && if ok then s.delivered.None? else s.row.status == Sending && s.delivered.Some?
    case Lose(n) => IsPosting(s, n) && s.row.status == Sending && s.delivered.Some?
    case _ => false
  }

  ghost predicate Breaks(promise: Promise, s: State, step: Step) {
    match promise
    case OnePoster => ClaimsBesideAnother(s, step)
    case OneBody => EditsPosted(s, step)
    case ShownAsRecorded => ShowsOtherwise(s, step)
  }

  lemma SecondPosterIff(s: State, step: Step)
    requires Keeps(OnePoster, s)
    ensures Keeps(OnePoster, Next(s, step)) <==> !ClaimsBesideAnother(s, step)
  {
    var after := Next(s, step);
    if ClaimsBesideAnother(s, step) {
      var n :| IsPosting(s, n);
      assert IsPosting(after, n) && IsPosting(after, step.flow) && n != step.flow;
    } else {
      forall m, n | IsPosting(after, m) && IsPosting(after, n) ensures m == n {
        assert (IsPosting(s, m) || m == step.flow) && (IsPosting(s, n) || n == step.flow);
      }
    }
  }

  lemma BodiesPartIff(s: State, step: Step)
    requires Keeps(OneBody, s)
    ensures Keeps(OneBody, Next(s, step)) <==> !EditsPosted(s, step)
  {
    var after := Next(s, step);
    if EditsPosted(s, step) {
      assert after.flows == s.flows && after.row.body == step.text;
      if s.delivered.None? {
        var n :| InFlight(s, n);
        assert InFlight(after, n);
      }
    } else {
      forall n | InFlight(after, n) ensures after.flows[n].body == after.row.body {
        assert InFlight(s, n) || (step.ClaimStep? && step.flow == n);
      }
    }
  }

  lemma ShownOtherwiseIff(s: State, step: Step)
    requires Keeps(ShownAsRecorded, s)
    ensures Keeps(ShownAsRecorded, Next(s, step)) <==> !ShowsOtherwise(s, step)
  {
  }

  ghost predicate AlwaysKeeps(promise: Promise, s: State, steps: seq<Step>)
    decreases |steps|
  {
    Keeps(promise, s) && (|steps| == 0 || AlwaysKeeps(promise, Next(s, steps[0]), steps[1..]))
  }

  ghost predicate NeverBreaks(promise: Promise, s: State, steps: seq<Step>)
    decreases |steps|
  {
    |steps| == 0 || (!Breaks(promise, s, steps[0]) && NeverBreaks(promise, Next(s, steps[0]), steps[1..]))
  }

  /** Over every run, with takeovers, crashes, late arrivals and answers of any kind: each promise
      holds throughout exactly when none of its breaking steps is taken. */
  lemma {:induction false} KeptIff(promise: Promise, s: State, steps: seq<Step>)
    requires Keeps(promise, s)
    ensures AlwaysKeeps(promise, s, steps) <==> NeverBreaks(promise, s, steps)
    decreases |steps|
  {
    if |steps| > 0 {
      match promise {
        case OnePoster => SecondPosterIff(s, steps[0]);
        case OneBody => BodiesPartIff(s, steps[0]);
        case ShownAsRecorded => ShownOtherwiseIff(s, steps[0]);
      }
      if !Breaks(promise, s, steps[0]) {
        KeptIff(promise, Next(s, steps[0]), steps[1..]);
      }
    }
  }

  // ---------------------------------------------------------------------------
  // All of it, under what the callers may expect.

  /** A claim is taken over only from a call that is gone; every other call hears from Slack, where
      success means that a post arrived, and failure that none did and none is adrift. */
  ghost predicate Faithful(s: State, step: Step) {
    && !ClaimsBesideAnother(s, step)
    && (step.Lose? ==> !IsPosting(s, step.flow))
    && (step.Answer? && IsPosting(s, step.flow) ==>
          if step.ok then s.delivered.Some?
          else s.delivered.None? && forall n :: InFlight(s, n) ==> n == step.flow)
  }

  ghost predicate AllFaithful(s: State, steps: seq<Step>)
    decreases |steps|
  {
    |steps| == 0 || (Faithful(s, steps[0]) && AllFaithful(Next(s, steps[0]), steps[1..]))
  }

  ghost predicate Sound(s: State) {
    && (forall promise :: Keeps(promise, s))
    && (forall n :: IsPosting(s, n) ==> s.row.status == Sending)
    && (forall n :: InFlight(s, n) ==> s.row.status in {Sending, Sent})
  }

  ghost predicate Over(row: Row) {
    row.status == Sent || row.status == Dismissed
  }

  lemma FlightsMatchStatus(s: State, step: Step)
    requires Sound(s) && Faithful(s, step)
    ensures var after := Next(s, step);
      && (forall n :: IsPosting(after, n) ==> after.row.status == Sending)
      && (forall n :: InFlight(after, n) ==> after.row.status in {Sending, Sent})
  {
    assert Keeps(OnePoster, s);
    var after := Next(s, step);
    forall n | InFlight(after, n)
      ensures after.row.status in {Sending, Sent} && (IsPosting(after, n) ==> after.row.status == Sending)
    {
      if !(step.ClaimStep? && step.flow == n) {
        assert InFlight(s, n) && (IsPosting(after, n) ==> IsPosting(s, n));
        assert step.Answer? && IsPosting(s, step.flow) ==> step.flow != n && !IsPosting(s, n);
      }
    }
  }

  lemma StepIsSound(s: State, step: Step)
    requires Sound(s) && Faithful(s, step)
    ensures Sound(Next(s, step))
    ensures Over(s.row) ==> Next(s, step).row == s.row && Next(s, step).delivered == s.delivered
  {
    assert Keeps(OnePoster, s) && Keeps(OneBody, s) && Keeps(ShownAsRecorded, s);
    SecondPosterIff(s, step);
    BodiesPartIff(s, step);
    ShownOtherwiseIff(s, step);
    FlightsMatchStatus(s, step);
    forall promise ensures Keeps(promise, Next(s, step)) {
      assert !Breaks(promise, s, step);
    }
  }

  /** With faithful answers, and takeovers only of claims whose caller is gone: one call posts at a
      time, a sent draft shows in Slack exactly the body its row records, nothing reaches Slack
      for a draft still waiting or dismissed, and sent and dismissed are final. */
  lemma {:induction false} RunIsSound(s: State, steps: seq<Step>)
    requires Sound(s) && AllFaithful(s, steps)
    ensures Sound(Run(s, steps))
    ensures Over(s.row) ==> Run(s, steps).row == s.row && Run(s, steps).delivered == s.delivered
    decreases |steps|
  {
    if |steps| > 0 {
      StepIsSound(s, steps[0]);
      RunIsSound(Next(s, steps[0]), steps[1..]);
    }
  }

  lemma RunCons(s: State, a: Step, rest: seq<Step>)
    ensures Run(s, [a] + rest) == Run(Next(s, a), rest)
  {
    assert ([a] + rest)[1..] == rest;
  }

  lemma RunFour(s: State, a: Step, b: Step, c: Step, d: Step)
    ensures Run(s, [a, b, c, d]) == Next(Next(Next(Next(s, a), b), c), d)
  {
    assert [a, b, c, d] == [a] + ([b] + ([c] + ([d] + [])));
    RunCons(s, a, [b] + ([c] + ([d] + [])));
    RunCons(Next(s, a), b, [c] + ([d] + []));
    RunCons(Next(Next(s, a), b), c, [d] + []);
    RunCons(Next(Next(Next(s, a), b), c), d, []);
  }

  function Fresh(): State {
    State(Row("text", Draft, None, None, None, None), map[], None)
  }

  /** Both calls passed the look at the status; the second takes the claim over after two minutes. */
  const BOTH_CLAIM := [Start(0), Start(1), ClaimStep(0, 0), ClaimStep(1, 120001)]

  lemma BothPost()
    ensures Run(Fresh(), BOTH_CLAIM) ==
            State(Fresh().row.(status := Sending, decidedAt := Some(120001)),
                  map[0 := Posting("text"), 1 := Posting("text")], None)
  {
    RunFour(Fresh(), Start(0), Start(1), ClaimStep(0, 0), ClaimStep(1, 120001));
    assert Run(Fresh(), BOTH_CLAIM).flows == map[0 := Posting("text"), 1 := Posting("text")];
  }

  // ---------------------------------------------------------------------------
  // What a slow answer does to a dismissed draft.

  ghost predicate Untouched(s: State) {
    s.row.status == Dismissed && forall n :: !IsPosting(s, n)
  }

  lemma {:induction false} UntouchedStays(s: State, steps: seq<Step>)
    requires Untouched(s)
    ensures Run(s, steps).row == s.row
    decreases |steps|
  {
    if |steps| > 0 {
      var next := Next(s, steps[0]);
      assert next.row == s.row;
      forall n ensures !IsPosting(next, n) {
        assert n in next.flows && next.flows[n].Posting? ==> IsPosting(s, n);
      }
      UntouchedStays(next, steps[1..]);
    }
  }

  /** Dismissing is final exactly when no call is posting at that moment: an answer that comes
      later finalises the row without looking at its status. */
  lemma DismissedMovesIff(s: State)
    requires s.row.status == Dismissed
    ensures (exists steps: seq<Step> :: Run(s, steps).row != s.row) <==> (exists n :: IsPosting(s, n))
  {
    if n :| IsPosting(s, n) {
      var answer := Answer(n, true, "", "");
      RunCons(s, answer, []);
      assert [answer] + [] == [answer];
      assert Run(s, [answer]).row.status == Sent;
    } else {
      forall steps: seq<Step> ensures Run(s, steps).row == s.row {
        UntouchedStays(s, steps);
      }
    }
  }

  /** A draft can be dismissed while a call posts: its claim was taken over after two minutes, the
      first call's failure released the draft, an admin dismisses it, and the second call's success
      marks the dismissed draft as sent. */
  lemma DismissedThenSent()
    ensures var before := Run(Run(Fresh(), BOTH_CLAIM),
                              [Arrive(1), Answer(0, false, "", ""), DismissStep(120002), Crash(2)]);
      before.row.status == Dismissed && Next(before, Answer(1, true, "ts", "C")).row.status == Sent
  {
    BothPost();
    RunFour(Run(Fresh(), BOTH_CLAIM), Arrive(1), Answer(0, false, "", ""), DismissStep(120002), Crash(2));
  }

  // ---------------------------------------------------------------------------
  // How the bodies come to differ.

  /** The post arrived but its answer was lost: the draft is released and edited, and the retry,
      which Slack recognises by its id, records the edited text as sent while the first text is
      what Slack shows. */
  lemma EditedAfterLostAnswer()
    ensures var after := Run(Run(Fresh(), [Start(0), ClaimStep(0, 0), Arrive(0), Lose(0)]),
                             [EditStep("other", 1), Start(1), ClaimStep(1, 2), Answer(1, true, "ts", "C")]);
      after.row.status == Sent && after.row.body == "other" && after.delivered == Some("text")
  {
    var s := Fresh();
    RunFour(s, Start(0), ClaimStep(0, 0), Arrive(0), Lose(0));
    var mid := Run(s, [Start(0), ClaimStep(0, 0), Arrive(0), Lose(0)]);
    RunFour(mid, EditStep("other", 1), Start(1), ClaimStep(1, 2), Answer(1, true, "ts", "C"));
  }

  /** Nothing has arrived yet when the draft is edited, but a second call posts the old text. */
  lemma EditedBesideAnother()
    ensures var after := Run(Run(Fresh(), BOTH_CLAIM),
                             [Answer(0, false, "", ""), EditStep("other", 120002), Arrive(1),
                              Answer(1, true, "ts", "C")]);
      after.row.status == Sent && after.row.body == "other" && after.delivered == Some("text")
  {
    BothPost();
    RunFour(Run(Fresh(), BOTH_CLAIM),
            Answer(0, false, "", ""), EditStep("other", 120002), Arrive(1), Answer(1, true, "ts", "C"));
  }

  // ---------------------------------------------------------------------------
  // A claim left behind by a crash.

  lemma {:induction false} ParkedStays(s: State, steps: seq<Step>)
    requires s.row.status == Sending && forall n :: n in s.flows ==> s.flows[n].Adrift?
    ensures Run(s, steps).row == s.row
    decreases |steps|
  {
    if |steps| > 0 {
      var next := Next(s, steps[0]);
      assert next.row == s.row && next.flows == s.flows;
      ParkedStays(next, steps[1..]);
    }
  }

  /** The store lets a stale claim be retaken, but a send looks at the status first and refuses
      anything but a draft. So a draft parked in `sending`, with nobody posting, ever changes again
      exactly when some call that passed that look before the claim is still preparing. */
  lemma ParkedMovesIff(s: State)
    requires s.row.status == Sending && forall n :: !IsPosting(s, n)
    ensures (exists steps: seq<Step> :: Run(s, steps).row != s.row) <==> (exists n :: IsPreparing(s, n))
  {
    if n :| IsPreparing(s, n) {
      var since := if s.row.decidedAt.Some? then s.row.decidedAt.value else 0;
      var claim := ClaimStep(n, since + SENDING_STALE_MS + 1);
      RunCons(s, claim, []);
      assert [claim] + [] == [claim];
      assert Run(s, [claim]).row.decidedAt != s.row.decidedAt;
    } else {
      forall n | n in s.flows ensures s.flows[n].Adrift? {
        assert !IsPosting(s, n) && !IsPreparing(s, n);
      }
      forall steps: seq<Step> ensures Run(s, steps).row == s.row {
        ParkedStays(s, steps);
      }
    }
  }

  // ---------------------------------------------------------------------------
  // What is recorded.

  /** The last success that a posting call reported in a run: its timestamp and channel. */
  function LastSuccess(s: State, steps: seq<Step>): Option<(string, string)>
    decreases |steps|
  {
    if |steps| == 0 then None
    else
      var later := LastSuccess(Next(s, steps[0]), steps[1..]);
      if later.Some? then later
      else if steps[0].Answer? && IsPosting(s, steps[0].flow) && steps[0].ok
      then Some((steps[0].ts, steps[0].channel))
      else None
  }

  /** A row is sent exactly when it was or some call reported success, and it names the message of
      the last success and the channel it went to. */
  lemma {:induction false} SentRecordsLastSuccess(s: State, steps: seq<Step>)
    ensures var row := Run(s, steps).row;
      var last := LastSuccess(s, steps);
      && (row.status == Sent <==> s.row.status == Sent || last.Some?)
      && (last.Some? ==> row.slackTs == Some(last.value.0) && row.channel == Some(last.value.1))
      && (last.None? ==> row.slackTs == s.row.slackTs && row.channel == s.row.channel)
    decreases |steps|
  {
    if |steps| > 0 {
      SentRecordsLastSuccess(Next(s, steps[0]), steps[1..]);
    }
  }

  /** A preparing call gets the draft exactly when it waits, or was parked in `sending` for more than
      two minutes; it then posts the text of that moment. */
  lemma ClaimWinsIff(s: State, n: nat, now: int)
    requires IsPreparing(s, n)
    ensures var next := Next(s, ClaimStep(n, now));
      var since := if s.row.decidedAt.Some? then s.row.decidedAt.value else 0;
      && (IsPosting(next, n) <==> s.row.status == Draft || (s.row.status == Sending && now > since + 120_000))
      && (IsPosting(next, n) ==>
            next.flows[n].body == s.row.body && next.row == s.row.(status := Sending, decidedAt := Some(now)))
      && (!IsPosting(next, n) ==> next.row == s.row && n !in next.flows)
  {
  }

  /** A failure gives a draft in `sending` back, as it was before the claim. */
  lemma FailureReleases(s: State, n: nat, ts: string, channel: string)
    requires IsPosting(s, n)
    ensures var row := if s.row.status == Sending then s.row.(status := Draft, decidedAt := None) else s.row;
      Next(s, Answer(n, false, ts, channel)).row == row && Next(s, Lose(n)).row == row
  {
  }

  /** Only a draft is dismissed, and only a draft is edited, and never to nothing. */
  lemma AdminBlocksAre(s: State, text: string, now: int)
    ensures Next(s, DismissStep(now)).row ==
            if s.row.status == Draft then s.row.(status := Dismissed, decidedAt := Some(now)) else s.row
    ensures Next(s, EditStep(text, now)).row ==
            if s.row.status == Draft && text != "" then s.row.(body := text, editedAt := Some(now)) else s.row
  {
  }
}
