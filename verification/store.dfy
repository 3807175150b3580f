/**
 * The poll store: the four tables (polls, options, votes, insights) as
 * sequences of rows in insertion order, the lookups the request handlers
 * run against them, and the invariant every reachable store satisfies.
 *
 * Row identifiers are SQLite `INTEGER PRIMARY KEY` values; rows are never
 * deleted, so the k-th row of a table carries identifier k + 1.
 */
module Store {
  import opened Base

  /** An opaque voter token or creator secret (a UUID string in the source). */
  type Token = string

  /** Times are whole seconds on one clock. */
  type Time = int

  datatype PollRow = PollRow(
    id: nat,
    question: string,
    expiry: Time,
    hideResults: bool,
    creatorSecret: Token,       // "" stands for a NULL or empty column: both deny access
    createdAt: Time,
    insightsGenerated: bool)

  datatype OptionRow = OptionRow(id: nat, pollId: nat, text: string)

  datatype VoteRow = VoteRow(
    id: nat,
    pollId: nat,
    optionId: nat,
    token: Token,
    deviceHash: string,
    ip: string,
    createdAt: Time)

  datatype InsightRow = InsightRow(id: nat, pollId: nat, text: string, createdAt: Time)

  datatype Store = Store(
    polls: seq<PollRow>,
    options: seq<OptionRow>,
    votes: seq<VoteRow>,
    insights: seq<InsightRow>)

  const EmptyStore := Store([], [], [], [])

  /** `SELECT ... FROM polls WHERE id=?`: the first poll row with that id. */
  function FindPoll(polls: seq<PollRow>, id: nat): (r: Option<PollRow>)
    ensures r.Some? ==> r.value in polls && r.value.id == id
    ensures r.None? <==> forall k :: 0 <= k < |polls| ==> polls[k].id != id
  {
    if |polls| == 0 then None
    else if polls[0].id == id then Some(polls[0])
    else
      var r := FindPoll(polls[1..], id);
      assert forall k :: 1 <= k < |polls| ==> polls[k] == polls[1..][k - 1];
      r
  }

  /** `SELECT id, text FROM options WHERE poll_id=?`, in row order. */
  function OptionsOf(options: seq<OptionRow>, pollId: nat): (r: seq<OptionRow>)
    ensures |r| <= |options|
    ensures forall o :: o in r <==> o in options && o.pollId == pollId
  {
    if |options| == 0 then []
    else
      var rest := OptionsOf(options[1..], pollId);
      assert forall o :: o in options <==> o == options[0] || o in options[1..];
      if options[0].pollId == pollId then [options[0]] + rest else rest
  }

  /** `SELECT 1 FROM options WHERE id=? AND poll_id=?` finds a row. */
  predicate OwnsOption(options: seq<OptionRow>, pollId: nat, optionId: nat) {
    exists k :: 0 <= k < |options| && options[k].id == optionId && options[k].pollId == pollId
  }

  /** `datetime.now() > expiry`: a poll is open up to and including its expiry instant. */
  predicate Expired(poll: PollRow, now: Time) {
    now > poll.expiry
  }

  /** `SELECT COUNT(*) FROM votes WHERE option_id=?` */
  function CountOptionVotes(votes: seq<VoteRow>, optionId: nat): (c: nat)
    ensures c <= |votes|
    ensures c == 0 <==> forall k :: 0 <= k < |votes| ==> votes[k].optionId != optionId
  {
    if |votes| == 0 then 0
    else CountOptionVotes(votes[..|votes| - 1], optionId) + (if votes[|votes| - 1].optionId == optionId then 1 else 0)
  }

  /** `SELECT COUNT(*) FROM votes WHERE poll_id=?` */
  function CountPollVotes(votes: seq<VoteRow>, pollId: nat): (c: nat)
    ensures c <= |votes|
    ensures c == 0 <==> forall k :: 0 <= k < |votes| ==> votes[k].pollId != pollId
  {
    if |votes| == 0 then 0
    else CountPollVotes(votes[..|votes| - 1], pollId) + (if votes[|votes| - 1].pollId == pollId then 1 else 0)
  }

  /** Number of insight rows of a poll. */
  function CountInsights(insights: seq<InsightRow>, pollId: nat): nat {
    if |insights| == 0 then 0
    else CountInsights(insights[..|insights| - 1], pollId) + (if insights[|insights| - 1].pollId == pollId then 1 else 0)
  }

  /** `SELECT option_id FROM votes WHERE poll_id=? AND vote_token=?`: the first such vote. */
  function VoteByToken(votes: seq<VoteRow>, pollId: nat, token: Token): (r: Option<VoteRow>)
    ensures r.Some? ==> r.value in votes && r.value.pollId == pollId && r.value.token == token
    ensures r.None? <==> forall k :: 0 <= k < |votes| ==> !(votes[k].pollId == pollId && votes[k].token == token)
  {
    if |votes| == 0 then None
    else if votes[0].pollId == pollId && votes[0].token == token then Some(votes[0])
    else
      var r := VoteByToken(votes[1..], pollId, token);
      assert forall k :: 1 <= k < |votes| ==> votes[k] == votes[1..][k - 1];
      r
  }

  /** Vote `i` names an existing option, and that option belongs to the vote's poll. */
  ghost predicate VoteWellFormed(st: Store, i: nat)
    requires i < |st.votes|
  {
    var v := st.votes[i];
    && v.id == i + 1
    && 1 <= v.optionId <= |st.options|
    && st.options[v.optionId - 1].pollId == v.pollId
  }

  /** At most one vote per (poll, voter token): the central integrity invariant. */
  ghost predicate OneVotePerToken(votes: seq<VoteRow>) {
    forall i, j :: 0 <= i < j < |votes| && votes[i].pollId == votes[j].pollId ==> votes[i].token != votes[j].token
  }

  /** Poll, option and insight identifiers are the row positions plus one. */
  ghost predicate IdsDense(st: Store) {
    && (forall i :: 0 <= i < |st.polls| ==> st.polls[i].id == i + 1)
    && (forall i :: 0 <= i < |st.options| ==> st.options[i].id == i + 1)
    && (forall i :: 0 <= i < |st.insights| ==> st.insights[i].id == i + 1)
  }

  /** Every option and insight row belongs to a stored poll. */
  ghost predicate RefsInRange(st: Store) {
    && (forall i :: 0 <= i < |st.options| ==> 1 <= st.options[i].pollId <= |st.polls|)
    && (forall i :: 0 <= i < |st.insights| ==> 1 <= st.insights[i].pollId <= |st.polls|)
  }

  /** Every poll has between two and four options. */
  ghost predicate OptionCounts(st: Store) {
    forall i :: 0 <= i < |st.polls| ==> 2 <= |OptionsOf(st.options, st.polls[i].id)| <= 4
  }

  /** One insight row for a poll exactly when its flag is set, none otherwise. */
  ghost predicate InsightFlags(st: Store) {
    forall i :: 0 <= i < |st.polls| ==>
      CountInsights(st.insights, st.polls[i].id) == if st.polls[i].insightsGenerated then 1 else 0
  }

  /** The invariant of every store the handlers can produce from the empty one. */
  ghost predicate Valid(st: Store) {
    && IdsDense(st)
    && RefsInRange(st)
    && OptionCounts(st)
    && (forall i :: 0 <= i < |st.votes| ==> VoteWellFormed(st, i))
    && OneVotePerToken(st.votes)
    && InsightFlags(st)
  }

  /** Votes stay well formed when the options table only grows at its end. */
  lemma VotesSurviveGrowth(st: Store, st': Store)
    requires forall i :: 0 <= i < |st.votes| ==> VoteWellFormed(st, i)
    requires st'.votes == st.votes
    requires |st.options| <= |st'.options| && forall i :: 0 <= i < |st.options| ==> st'.options[i] == st.options[i]
    ensures forall i :: 0 <= i < |st'.votes| ==> VoteWellFormed(st', i)
  {
    forall i | 0 <= i < |st'.votes| ensures VoteWellFormed(st', i) {
      assert VoteWellFormed(st, i);
    }
  }

  lemma EmptyStoreValid()
    ensures Valid(EmptyStore)
  {
  }

  // ----- Facts about the queries, used when tables grow -----

  lemma {:induction false} OptionsOfAppend(a: seq<OptionRow>, b: seq<OptionRow>, pollId: nat)
    ensures OptionsOf(a + b, pollId) == OptionsOf(a, pollId) + OptionsOf(b, pollId)
    decreases |a|
  {
    if |a| > 0 {
      assert (a + b)[1..] == a[1..] + b;
      OptionsOfAppend(a[1..], b, pollId);
    } else {
      assert a + b == b;
    }
  }

  lemma {:induction false} OptionsOfNone(options: seq<OptionRow>, pollId: nat)
    requires forall k :: 0 <= k < |options| ==> options[k].pollId != pollId
    ensures OptionsOf(options, pollId) == []
    decreases |options|
  {
    if |options| > 0 {
      OptionsOfNone(options[1..], pollId);
    }
  }

  lemma {:induction false} OptionsOfAll(options: seq<OptionRow>, pollId: nat)
    requires forall k :: 0 <= k < |options| ==> options[k].pollId == pollId
    ensures OptionsOf(options, pollId) == options
    decreases |options|
  {
    if |options| > 0 {
      OptionsOfAll(options[1..], pollId);
    }
  }

  lemma {:induction false} CountInsightsNone(insights: seq<InsightRow>, pollId: nat)
    requires forall k :: 0 <= k < |insights| ==> insights[k].pollId != pollId
    ensures CountInsights(insights, pollId) == 0
    decreases |insights|
  {
    if |insights| > 0 {
      CountInsightsNone(insights[..|insights| - 1], pollId);
    }
  }

  lemma CountInsightsAppend(insights: seq<InsightRow>, row: InsightRow, pollId: nat)
    ensures CountInsights(insights + [row], pollId)
      == CountInsights(insights, pollId) + (if row.pollId == pollId then 1 else 0)
  {
    assert (insights + [row])[..|insights|] == insights;
  }

  lemma CountPollVotesAppend(votes: seq<VoteRow>, v: VoteRow, pollId: nat)
    ensures CountPollVotes(votes + [v], pollId) == CountPollVotes(votes, pollId) + (if v.pollId == pollId then 1 else 0)
  {
    assert (votes + [v])[..|votes|] == votes;
  }
}
