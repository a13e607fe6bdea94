/** Who belongs to which private channel, and what a turn may read because of it
    (`src/brain/slack/channel-membership.ts`, `src/brain/memory/read-scope.ts`). Every fetch is an
    await: joins, leaves and other reconciliations are handled between the blocks of one. */
module ChannelMembership {
  import opened Prelude

  datatype Membership = Membership(channel: string, user: string)

  type Rows = set<Membership>

  /** A reconciliation under way: its private channels, and how many have been rewritten. */
  datatype Reconciliation = Reconciliation(channels: seq<string>, next: nat)

  datatype State = State(rows: Rows, running: map<nat, Reconciliation>)

  /** One block each. A `members` is what Slack answered to a fetch, however long before. */
  datatype Step =
    | Join(channel: string, user: string)
    | Leave(channel: string, user: string)
    | BotJoin(channel: string, members: seq<string>)
    | BotLeave(channel: string)
    | DirectoryFetched(id: nat, channels: seq<string>)
    | RewriteNext(id: nat, members: seq<string>)
    | Prune(id: nat)

  // ---------------------------------------------------------------------------
  // The blocks.

  function Others(rows: Rows, channel: string): Rows {
    set m | m in rows && m.channel != channel
  }

  function Of(rows: Rows, channel: string): Rows {
    set m | m in rows && m.channel == channel
  }

  function Listed(channel: string, members: seq<string>): Rows {
    if |members| == 0 then {}
    else Listed(channel, members[..|members| - 1]) + {Membership(channel, members[|members| - 1])}
  }

  /** The channel's rows become the snapshot; an empty snapshot is a failed fetch. */
  function Rewritten(rows: Rows, channel: string, members: seq<string>): Rows {
    if members == [] then rows else Others(rows, channel) + Listed(channel, members)
  }

  predicate RewritesNow(s: State, id: nat) {
    id in s.running && s.running[id].next < |s.running[id].channels|
  }

  predicate PrunesNow(s: State, id: nat) {
    id in s.running && s.running[id].next >= |s.running[id].channels|
  }

  function Next(s: State, step: Step): State {
    match step
    case Join(channel, user) => s.(rows := s.rows + {Membership(channel, user)})
    case Leave(channel, user) => s.(rows := s.rows - {Membership(channel, user)})
    case BotJoin(channel, members) => s.(rows := Rewritten(s.rows, channel, members))
    case BotLeave(channel) => s.(rows := Others(s.rows, channel))
    case DirectoryFetched(id, channels) =>
      if id in s.running then s else s.(running := s.running[id := Reconciliation(channels, 0)])
    case RewriteNext(id, members) =>
      if !RewritesNow(s, id) then s
      else
        var r := s.running[id];
        State(Rewritten(s.rows, r.channels[r.next], members), s.running[id := r.(next := r.next + 1)])
    case Prune(id) =>
      if !PrunesNow(s, id) then s
      else
        var keep := s.running[id].channels;
        State((set m | m in s.rows && m.channel in keep), s.running - {id})
  }

  lemma {:induction false} ListedHas(channel: string, members: seq<string>, m: Membership)
    ensures m in Listed(channel, members) <==> m.channel == channel && m.user in members
  {
    if |members| > 0 {
      ListedHas(channel, members[..|members| - 1], m);
      assert members == members[..|members| - 1] + [members[|members| - 1]];
    }
  }

  class Table {
    var state: State

    constructor ()
      ensures state == State({}, map[])
    {
      state := State({}, map[]);
    }

    method Backfill(channel: string, members: seq<string>) returns (count: nat)
      modifies this
      ensures state == old(state).(rows := Rewritten(old(state).rows, channel, members))
      ensures count == |members|
    {
      if |members| == 0 { return 0; }
      var rows := state.rows;
      var existing := Of(rows, channel);
      while existing != {}
        invariant existing <= Of(state.rows, channel) && existing <= rows <= state.rows
        invariant forall m :: m in state.rows && m !in existing ==>
          (m in rows <==> m.channel != channel || m.user in members)
        invariant state == old(state)
        decreases |existing|
      {
        var m :| m in existing;
        existing := existing - {m};
        if m.user !in members {
          rows := rows - {m};
        }
      }
      var i := 0;
      ghost var kept := rows;
      while i < |members|
        invariant 0 <= i <= |members| && rows == kept + Listed(channel, members[..i])
        invariant state == old(state)
      {
        assert members[..i + 1][..i] == members[..i];
        rows := rows + {Membership(channel, members[i])};
        i := i + 1;
      }
      assert members[..i] == members;
      forall m ensures m in rows <==> m in Rewritten(state.rows, channel, members) {
        ListedHas(channel, members, m);
      }
      state := state.(rows := rows);
      count := |members|;
    }

    /** The last block of a join or leave event; `isPrivate` and `members` are Slack's answers. */
    method OnEvent(isJoin: bool, channel: string, user: string, isPrivate: Option<bool>, isBot: bool,
            members: seq<string>)
      modifies this
      ensures isPrivate != Some(true) ==> state == old(state)
      ensures isPrivate == Some(true) ==> state == Next(old(state),
                if isJoin then if isBot then BotJoin(channel, members) else Join(channel, user)
                else if isBot then BotLeave(channel) else Leave(channel, user))
    {
      if isPrivate != Some(true) { return; }
      if !isJoin {
        if isBot {
          state := state.(rows := Others(state.rows, channel));
        } else {
          state := state.(rows := state.rows - {Membership(channel, user)});
        }
      } else if isBot {
        var _ := Backfill(channel, members);
      } else {
        state := state.(rows := state.rows + {Membership(channel, user)});
      }
    }

    /** One turn of the loop over the directory, once its fetch has come back. */
    method RewriteNextChannel(id: nat, members: seq<string>)
      requires RewritesNow(state, id)
      modifies this
      ensures state == Next(old(state), RewriteNext(id, members))
    {
      var r := state.running[id];
      var _ := Backfill(r.channels[r.next], members);
      state := state.(running := state.running[id := r.(next := r.next + 1)]);
    }

    /** After the loop: channels that are not in the directory lose their rows. */
    method PruneChannels(id: nat)
      requires PrunesNow(state, id)
      modifies this
      ensures state == Next(old(state), Prune(id))
    {
      var keep := state.running[id].channels;
      var rows := state.rows;
      var known := set m | m in rows :: m.channel;
      while known != {}
        invariant state == old(state)
        invariant forall m :: m in rows <==> m in state.rows && (m.channel in keep || m.channel in known)
        decreases |known|
      {
        var channel :| channel in known;
        known := known - {channel};
        if channel !in keep {
          rows := Others(rows, channel);
        }
      }
      state := State(rows, state.running - {id});
    }
  }

  // ---------------------------------------------------------------------------
  // Over any run: the last word on a membership.

  /** What a step decides about a membership, if it decides anything. */
  function Verdict(s: State, step: Step, m: Membership): Option<bool> {
    match step
    case Join(channel, user) => if m == Membership(channel, user) then Some(true) else None
    case Leave(channel, user) => if m == Membership(channel, user) then Some(false) else None
    case BotJoin(channel, members) => if m.channel == channel && members != [] then Some(m.user in members) else None
    case BotLeave(channel) => if m.channel == channel then Some(false) else None
    case DirectoryFetched(_, _) => None
    case RewriteNext(id, members) =>
      if RewritesNow(s, id) && m.channel == s.running[id].channels[s.running[id].next] && members != []
      then Some(m.user in members) else None
    case Prune(id) => if PrunesNow(s, id) && m.channel !in s.running[id].channels then Some(false) else None
  }

  lemma RewrittenHas(rows: Rows, channel: string, members: seq<string>, m: Membership)
    ensures m in Rewritten(rows, channel, members) <==>
      if m.channel == channel && members != [] then m.user in members else m in rows
  {
    ListedHas(channel, members, m);
  }

  lemma VerdictDecides(s: State, step: Step, m: Membership)
    ensures m in Next(s, step).rows <==>
      if Verdict(s, step, m).Some? then Verdict(s, step, m).value else m in s.rows
  {
    match step
    case BotJoin(channel, members) => RewrittenHas(s.rows, channel, members, m);
    case RewriteNext(id, members) =>
      if RewritesNow(s, id) {
        RewrittenHas(s.rows, s.running[id].channels[s.running[id].next], members, m);
      }
    case _ =>
  }

  /** What each event does to a membership. */
  lemma EventsAre(s: State, channel: string, user: string, members: seq<string>, m: Membership)
    ensures m in Next(s, Join(channel, user)).rows <==> m in s.rows || m == Membership(channel, user)
    ensures m in Next(s, Leave(channel, user)).rows <==> m in s.rows && m != Membership(channel, user)
    ensures m in Next(s, BotLeave(channel)).rows <==> m in s.rows && m.channel != channel
    ensures m in Next(s, BotJoin(channel, members)).rows <==>
            if m.channel == channel && members != [] then m.user in members else m in s.rows
  {
    RewrittenHas(s.rows, channel, members, m);
  }

  /** What each block of a reconciliation does: the fetched directory is gone through in order, one
      rewrite a channel, and the prune at its end keeps the channels that it names. */
  lemma ReconciliationIs(s: State, id: nat, channels: seq<string>, members: seq<string>, m: Membership)
    ensures var fetched := Next(s, DirectoryFetched(id, channels));
      && fetched.rows == s.rows && id in fetched.running
      && (id !in s.running ==> fetched.running[id] == Reconciliation(channels, 0))
    ensures id in s.running ==>
      var r := s.running[id];
      if r.next < |r.channels| then
        var after := Next(s, RewriteNext(id, members));
        && Next(s, Prune(id)) == s
        && (m in after.rows <==>
              if m.channel == r.channels[r.next] && members != [] then m.user in members else m in s.rows)
        && after.running == s.running[id := Reconciliation(r.channels, r.next + 1)]
      else
        && Next(s, RewriteNext(id, members)) == s
        && (m in Next(s, Prune(id)).rows <==> m in s.rows && m.channel in r.channels)
        && id !in Next(s, Prune(id)).running
  {
    if RewritesNow(s, id) {
      RewrittenHas(s.rows, s.running[id].channels[s.running[id].next], members, m);
    }
  }

  function Run(s: State, steps: seq<Step>): State {
    if |steps| == 0 then s else Next(Run(s, steps[..|steps| - 1]), steps[|steps| - 1])
  }

  /** What the run as a whole decides: its last verdict. */
  function LastVerdict(s: State, steps: seq<Step>, m: Membership): Option<bool> {
    if |steps| == 0 then None
    else
      var front := steps[..|steps| - 1];
      var last := Verdict(Run(s, front), steps[|steps| - 1], m);
      if last.Some? then last else LastVerdict(s, front, m)
  }

  lemma {:induction false} LastVerdictDecides(s: State, steps: seq<Step>, m: Membership)
    ensures m in Run(s, steps).rows <==>
      if LastVerdict(s, steps, m).Some? then LastVerdict(s, steps, m).value else m in s.rows
  {
    if |steps| > 0 {
      var front := steps[..|steps| - 1];
      LastVerdictDecides(s, front, m);
      VerdictDecides(Run(s, front), steps[|steps| - 1], m);
    }
  }

  lemma {:induction false} RunConcat(s: State, a: seq<Step>, b: seq<Step>)
    ensures Run(s, a + b) == Run(Run(s, a), b)
    decreases |b|
  {
    if |b| == 0 {
      assert a + b == a;
    } else {
      var front := b[..|b| - 1];
      RunConcat(s, a, front);
      assert (a + b)[..|a + b| - 1] == a + front;
    }
  }

  /** A person whose joining has been handled is listed until something decides against them. */
  lemma {:induction false} JoinedStaysListed(s: State, m: Membership, steps: seq<Step>)
    requires var joined := Next(s, Join(m.channel, m.user));
      forall i :: 0 <= i < |steps| ==> Verdict(Run(joined, steps[..i]), steps[i], m) != Some(false)
    ensures m in Run(Next(s, Join(m.channel, m.user)), steps).rows
    decreases |steps|
  {
    if |steps| > 0 {
      var joined := Next(s, Join(m.channel, m.user));
      var n := |steps| - 1;
      var front := steps[..n];
      assert forall i :: 0 <= i < n ==> front[i] == steps[i] && front[..i] == steps[..i];
      JoinedStaysListed(s, m, front);
      VerdictDecides(Run(joined, front), steps[n], m);
    }
  }

  // ---------------------------------------------------------------------------
  // Reconciliations.

  /** The steps of reconciliation `id` inside a run: its channels in order, one rewrite each. */
  ghost predicate RewroteUpTo(s: State, steps: seq<Step>, id: nat, channels: seq<string>) {
    id in Run(s, steps).running ==>
      var r := Run(s, steps).running[id];
      && r.channels == channels && r.next <= |channels|
      && forall k :: 0 <= k < r.next ==> RewriteOf(s, steps, id, channels, k)
  }

  /** Some step of the run rewrote the `k`-th channel. */
  ghost predicate RewriteOf(s: State, steps: seq<Step>, id: nat, channels: seq<string>, k: nat) {
    exists i :: 0 <= i < |steps| && RewritesAt(s, steps, i, id, channels, k)
  }

  ghost predicate RewritesAt(s: State, steps: seq<Step>, i: nat, id: nat, channels: seq<string>, k: nat)
    requires i < |steps|
  {
    && steps[i].RewriteNext? && steps[i].id == id
    && id in Run(s, steps[..i]).running && Run(s, steps[..i]).running[id] == Reconciliation(channels, k)
  }

  ghost predicate Undisturbed(steps: seq<Step>, id: nat) {
    forall i :: 0 <= i < |steps| ==> !(steps[i].Prune? && steps[i].id == id)
  }

  lemma RewriteOfExtends(s: State, steps: seq<Step>, step: Step, id: nat, channels: seq<string>, k: nat)
    requires RewriteOf(s, steps, id, channels, k)
    ensures RewriteOf(s, steps + [step], id, channels, k)
  {
    var longer := steps + [step];
    var i :| 0 <= i < |steps| && RewritesAt(s, steps, i, id, channels, k);
    assert longer[..i] == steps[..i] && longer[i] == steps[i];
    assert RewritesAt(s, longer, i, id, channels, k);
  }

  /** While a reconciliation runs, every channel it has passed was rewritten by a step of its own. */
  lemma {:induction false} PassedWereRewritten(s: State, steps: seq<Step>, id: nat, channels: seq<string>)
    requires id in s.running && s.running[id] == Reconciliation(channels, 0) && Undisturbed(steps, id)
    ensures id in Run(s, steps).running && RewroteUpTo(s, steps, id, channels)
  {
    if |steps| > 0 {
      var front := steps[..|steps| - 1];
      var last := steps[|steps| - 1];
      assert steps == front + [last];
      PassedWereRewritten(s, front, id, channels);
      var before := Run(s, front).running[id];
      forall k | 0 <= k < Run(s, steps).running[id].next ensures RewriteOf(s, steps, id, channels, k) {
        if k < before.next {
          RewriteOfExtends(s, front, last, id, channels, k);
        } else {
          assert steps[..|front|] == front;
          assert RewritesAt(s, steps, |front|, id, channels, k);
        }
      }
    }
  }

  /** A whole reconciliation with anything else in between: `mid` is what happened from the moment
      its directory came to the moment it prunes. */
  ghost predicate Reconciles(s: State, id: nat, channels: seq<string>, mid: seq<Step>) {
    && id !in s.running && Undisturbed(mid, id)
    && PrunesNow(Run(Next(s, DirectoryFetched(id, channels)), mid), id)
  }

  function Pruned(s: State, id: nat, channels: seq<string>, mid: seq<Step>): State {
    Next(Run(Next(s, DirectoryFetched(id, channels)), mid), Prune(id))
  }

  /** At the prune, a channel of the directory was rewritten by the reconciliation at some step `i`,
      and holds the snapshot of that rewrite changed by the events handled since: a person is
      listed as the last such event says, else as the snapshot says, and where the fetch failed as
      before. */
  lemma KeptChannelAtPrune(s: State, id: nat, channels: seq<string>, mid: seq<Step>, m: Membership) returns (i: nat)
    requires Reconciles(s, id, channels, mid) && m.channel in channels
    ensures var fetched := Next(s, DirectoryFetched(id, channels));
      && i < |mid| && mid[i].RewriteNext? && mid[i].id == id
      && RewritesNow(Run(fetched, mid[..i]), id)
      && var at := Run(fetched, mid[..i]);
         var since := LastVerdict(Next(at, mid[i]), mid[i + 1..], m);
         && at.running[id].channels[at.running[id].next] == m.channel
         && (m in Pruned(s, id, channels, mid).rows <==>
               if since.Some? then since.value
               else if mid[i].members != [] then m.user in mid[i].members
               else m in at.rows)
  {
    var fetched := Next(s, DirectoryFetched(id, channels));
    PassedWereRewritten(fetched, mid, id, channels);
    var k :| 0 <= k < |channels| && channels[k] == m.channel;
    assert RewriteOf(fetched, mid, id, channels, k);
    i :| 0 <= i < |mid| && RewritesAt(fetched, mid, i, id, channels, k);
    var at := Run(fetched, mid[..i]);
    SplitAt(fetched, mid, i);
    LastVerdictDecides(Next(at, mid[i]), mid[i + 1..], m);
    VerdictDecides(at, mid[i], m);
    VerdictDecides(Run(fetched, mid), Prune(id), m);
  }

  lemma SplitAt(s: State, steps: seq<Step>, i: nat)
    requires i < |steps|
    ensures Run(s, steps) == Run(Next(Run(s, steps[..i]), steps[i]), steps[i + 1..])
  {
    assert steps == steps[..i + 1] + steps[i + 1..];
    RunConcat(s, steps[..i + 1], steps[i + 1..]);
    assert steps[..i + 1][..i] == steps[..i];
  }

  /** Whatever was joined, backfilled or rewritten while a reconciliation ran: after its prune a
      channel has rows exactly if it had them and its directory, fetched at the start, holds it.
      A channel the bot joined in between is purged. */
  lemma PrunedIff(s: State, id: nat, channels: seq<string>, mid: seq<Step>, channel: string)
    requires Reconciles(s, id, channels, mid)
    ensures var before := Run(Next(s, DirectoryFetched(id, channels)), mid);
      Of(Pruned(s, id, channels, mid).rows, channel) ==
      if channel in channels then Of(before.rows, channel) else {}
  {
    PassedWereRewritten(Next(s, DirectoryFetched(id, channels)), mid, id, channels);
  }

  ghost predicate OnlyRewrites(mid: seq<Step>, id: nat) {
    forall i :: 0 <= i < |mid| ==> mid[i].RewriteNext? && mid[i].id == id && mid[i].members != []
  }

  /** With nothing handled in between, and every fetch answered, the reconciled rows of a channel in
      the directory are the members of its one rewrite. */
  lemma QuietReconciliation(s: State, id: nat, channels: seq<string>, mid: seq<Step>, m: Membership) returns (i: nat)
    requires Reconciles(s, id, channels, mid) && OnlyRewrites(mid, id) && m.channel in channels
    requires forall a, b :: 0 <= a < b < |channels| ==> channels[a] != channels[b]
    ensures var fetched := Next(s, DirectoryFetched(id, channels));
      && i < |mid| && RewritesNow(Run(fetched, mid[..i]), id)
      && var at := Run(fetched, mid[..i]);
         at.running[id].channels[at.running[id].next] == m.channel
         && (m in Pruned(s, id, channels, mid).rows <==> m.user in mid[i].members)
  {
    i := KeptChannelAtPrune(s, id, channels, mid, m);
    var fetched := Next(s, DirectoryFetched(id, channels));
    var at := Run(fetched, mid[..i]);
    PassedWereRewritten(fetched, mid[..i], id, channels);
    var rest := mid[i + 1..];
    assert forall j :: 0 <= j < |rest| ==> rest[j] == mid[i + 1 + j];
    RewrittenOnce(Next(at, mid[i]), rest, id, channels, at.running[id].next, m);
  }

  lemma {:induction false} RewrittenOnce(s: State, steps: seq<Step>, id: nat, channels: seq<string>, k: nat,
          m: Membership)
    requires OnlyRewrites(steps, id) && id in s.running
    requires s.running[id].channels == channels && k < s.running[id].next && k < |channels| && channels[k] == m.channel
    requires forall a, b :: 0 <= a < b < |channels| ==> channels[a] != channels[b]
    ensures LastVerdict(s, steps, m) == None
    ensures id in Run(s, steps).running && Run(s, steps).running[id].channels == channels
        && k < Run(s, steps).running[id].next
  {
    if |steps| > 0 {
      var front := steps[..|steps| - 1];
      RewrittenOnce(s, front, id, channels, k, m);
      var last := steps[|steps| - 1];
      assert last.RewriteNext? && last.id == id;
      var r := Run(s, front).running[id];
      assert r.next < |channels| ==> channels[r.next] != channels[k];
    }
  }

  // ---------------------------------------------------------------------------
  // People who have left.

  /** A rewrite of the channel, by a reconciliation or by the bot's own joining, whose snapshot still
      has the person. */
  ghost predicate StillInSnapshot(s: State, step: Step, m: Membership) {
    (step.BotJoin? || step.RewriteNext?) && Verdict(s, step, m) == Some(true)
  }

  /** After such a rewrite at `i` nothing has decided against the person. */
  ghost predicate Revived(s: State, steps: seq<Step>, m: Membership) {
    exists i :: 0 <= i < |steps| && RevivedAt(s, steps, m, i)
  }

  ghost predicate RevivedAt(s: State, steps: seq<Step>, m: Membership, i: nat)
    requires i < |steps|
  {
    && StillInSnapshot(Run(s, steps[..i]), steps[i], m)
    && forall j :: i < j < |steps| ==> Verdict(Run(s, steps[..j]), steps[j], m) != Some(false)
  }

  ghost predicate NeverJoins(steps: seq<Step>, m: Membership) {
    forall i :: 0 <= i < |steps| ==> steps[i] != Join(m.channel, m.user)
  }

  lemma {:induction false} RevivedIff(s: State, steps: seq<Step>, m: Membership)
    requires m !in s.rows && NeverJoins(steps, m)
    ensures m in Run(s, steps).rows <==> Revived(s, steps, m)
  {
    if |steps| > 0 {
      var front := steps[..|steps| - 1];
      var last := steps[|steps| - 1];
      var before := Run(s, front);
      RevivedIff(s, front, m);
      VerdictDecides(before, last, m);
      RevivedStep(s, steps, m);
    }
  }

  lemma RevivedStep(s: State, steps: seq<Step>, m: Membership)
    requires |steps| > 0 && NeverJoins(steps, m)
    ensures var front := steps[..|steps| - 1];
      var verdict := Verdict(Run(s, front), steps[|steps| - 1], m);
      Revived(s, steps, m) <==> if verdict.Some? then verdict.value else Revived(s, front, m)
  {
    var front := steps[..|steps| - 1];
    var n := |front|;
    forall i | 0 <= i < n
      ensures RevivedAt(s, steps, m, i) <==>
          RevivedAt(s, front, m, i) && Verdict(Run(s, front), steps[n], m) != Some(false)
    {
      RevivedBefore(s, front, steps[n], m, i);
      assert steps == front + [steps[n]];
    }
    if Verdict(Run(s, front), steps[n], m) == Some(true) {
      assert RevivedAt(s, steps, m, n);
    } else if Revived(s, steps, m) {
      var i :| 0 <= i < |steps| && RevivedAt(s, steps, m, i);
      assert i < n;
    }
  }

  /** One more step neither makes nor breaks an earlier revival, unless it decides against it. */
  lemma RevivedBefore(s: State, front: seq<Step>, last: Step, m: Membership, i: nat)
    requires i < |front|
    ensures RevivedAt(s, front + [last], m, i) <==>
            RevivedAt(s, front, m, i) && Verdict(Run(s, front), last, m) != Some(false)
  {
    var steps := front + [last];
    forall j | 0 <= j < |front| ensures steps[..j] == front[..j] && steps[j] == front[j] {
    }
    assert steps[..|front|] == front;
  }

  /** Someone whose departure has been handled, and who has not joined again, is listed exactly when
      a later rewrite of the channel still had them in its snapshot and nothing after it decided
      otherwise. */
  lemma DepartedListedIff(s: State, m: Membership, steps: seq<Step>)
    requires NeverJoins(steps, m)
    ensures m in Run(Next(s, Leave(m.channel, m.user)), steps).rows <==>
            Revived(Next(s, Leave(m.channel, m.user)), steps, m)
  {
    RevivedIff(Next(s, Leave(m.channel, m.user)), steps, m);
  }

  // ---------------------------------------------------------------------------
  // Reading.

  datatype Scope =
    | SharedScope
    | Dm(userId: Option<string>, slackUser: Option<string>)
    | PrivateChannel(channel: string)

  function ChannelTag(channel: string): string {
    "slack_channel_" + channel
  }

  /** The tag a scope writes to; `shared` is the team's tag, `own` a person's. */
  function WriteTag(shared: string, own: string -> string, scope: Option<Scope>): Option<string> {
    if scope.None? then Some(shared)
    else
      match scope.value
      case SharedScope => Some(shared)
      case Dm(userId, _) => if userId.Some? then Some(own(userId.value)) else None
      case PrivateChannel(channel) => Some(ChannelTag(channel))
  }

  function ChannelsOf(rows: Rows, user: string): set<string> {
    set m | m in rows && m.user == user :: m.channel
  }

  method ResolveReadTags(rows: Rows, shared: string, own: string -> string, scope: Option<Scope>,
          override: Option<seq<string>>)
      returns (tags: set<string>)
    ensures override.Some? ==> forall t :: t in tags <==> t in override.value
    ensures override.None? ==> forall t :: t in tags <==>
      || t == shared
      || WriteTag(shared, own, scope) == Some(t)
      || (scope.Some? && scope.value.Dm? && scope.value.slackUser.Some?
          && exists c :: c in ChannelsOf(rows, scope.value.slackUser.value) && t == ChannelTag(c))
  {
    if override.Some? {
      return set t | t in override.value;
    }
    tags := {shared};
    var scopeTag := WriteTag(shared, own, scope);
    if scopeTag.Some? {
      tags := tags + {scopeTag.value};
    }
    if scope.Some? && scope.value.Dm? && scope.value.slackUser.Some? {
      var channels := ChannelsOf(rows, scope.value.slackUser.value);
      tags := tags + set c | c in channels :: ChannelTag(c);
    }
  }

  lemma ChannelTagsDiffer(a: string, b: string)
    ensures ChannelTag(a) == ChannelTag(b) <==> a == b
  {
    var n := |"slack_channel_"|;
    assert ChannelTag(a)[n..] == a && ChannelTag(b)[n..] == b;
  }

  /** The memory of a private channel is read in that channel, and in the direct messages of those
      the table lists for it, and nowhere else. */
  lemma ChannelReadIff(rows: Rows, shared: string, own: string -> string, scope: Option<Scope>, tags: set<string>,
          channel: string)
    requires shared != ChannelTag(channel) && forall user :: own(user) != ChannelTag(channel)
    requires forall t :: t in tags <==>
      || t == shared
      || WriteTag(shared, own, scope) == Some(t)
      || (scope.Some? && scope.value.Dm? && scope.value.slackUser.Some?
          && exists c :: c in ChannelsOf(rows, scope.value.slackUser.value) && t == ChannelTag(c))
    ensures ChannelTag(channel) in tags <==>
      && scope.Some?
      && (scope.value == PrivateChannel(channel)
          || (scope.value.Dm? && scope.value.slackUser.Some?
               && Membership(channel, scope.value.slackUser.value) in rows))
  {
    forall c ensures ChannelTag(c) == ChannelTag(channel) <==> c == channel {
      ChannelTagsDiffer(c, channel);
    }
  }
}
