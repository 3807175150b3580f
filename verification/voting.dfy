/**
 * Casting a vote (`poll_view`): the expiry check, the already-voted gate
 * on (poll, voter token), the option-ownership check, the one appended
 * vote row, and the step that generates a poll's insight once, when the
 * vote count first reaches the threshold.
 */
module Voting {
  import opened Base
  import opened Store
  import opened Results
  import opened Insights

  /**
   * A request to the poll page. `cookie` is the `vote_token` cookie;
   * `option` is the submitted option id, None when the field is missing or
   * empty (a value that is not a number never names an option and can be
   * written as 0); `deviceHash` is the hash the handler computes.
   */
  datatype VoteRequest = VoteRequest(
    isPost: bool,
    cookie: Option<Token>,
    option: Option<nat>,
    deviceHash: string,
    ip: string)

  datatype VoteOutcome =
    | PollNotFound                                       // 404
    | RedirectToResults                                  // the poll has expired
    | ShowPoll(hasVoted: bool, userChoice: Option<nat>)  // the voting page
    | NoOptionSelected                                   // 400
    | InvalidOption                                      // 400
    | Recorded(cookie: Token)                            // redirect to results, setting the cookie
    | ServerError                                        // a database error escaped the handler

  datatype VoteStep = VoteStep(store: Store, outcome: VoteOutcome)

  /** Some vote of this poll carries this token. */
  predicate HasVoted(votes: seq<VoteRow>, pollId: nat, token: Token) {
    exists k :: 0 <= k < |votes| && votes[k].pollId == pollId && votes[k].token == token
  }

  /** No vote at all carries this token: what a fresh UUID guarantees. */
  predicate FreshToken(votes: seq<VoteRow>, token: Token) {
    forall k :: 0 <= k < |votes| ==> votes[k].token != token
  }

  /**
   * The option this browser already chose on the poll, if its cookie is
   * present, non-empty and matches a vote of the poll.
   */
  function PriorChoice(votes: seq<VoteRow>, pollId: nat, cookie: Option<Token>): (r: Option<nat>)
    ensures r.Some? <==> cookie.Some? && cookie.value != [] && HasVoted(votes, pollId, cookie.value)
    ensures r.Some? ==> exists k :: 0 <= k < |votes| && votes[k].pollId == pollId
                                 && votes[k].token == cookie.value && votes[k].optionId == r.value
  {
    match cookie
    case None => None
    case Some(t) =>
      if t == [] then None
      else match VoteByToken(votes, pollId, t)
        case None => None
        case Some(v) => Some(v.optionId)
  }

  /** The poll exists and has not expired: the handler gets past its first two checks. */
  predicate Open(st: Store, pollId: nat, now: Time) {
    FindPoll(st.polls, pollId).Some? && !Expired(FindPoll(st.polls, pollId).value, now)
  }

  /** A POST from a browser whose cookie matches no vote of the poll. */
  predicate FirstPost(st: Store, pollId: nat, req: VoteRequest) {
    req.isPost && PriorChoice(st.votes, pollId, req.cookie).None?
  }

  /** Everything a POST needs for its vote to be recorded. */
  predicate VoteAdmitted(st: Store, pollId: nat, req: VoteRequest, now: Time) {
    && Open(st, pollId, now)
    && FirstPost(st, pollId, req)
    && req.option.Some?
    && OwnsOption(st.options, pollId, req.option.value)
  }

  /** `UPDATE polls SET insights_generated=1 WHERE id=?` */
  function SetInsightsFlag(polls: seq<PollRow>, pollId: nat): (r: seq<PollRow>)
    ensures |r| == |polls|
    ensures forall k :: 0 <= k < |polls| ==>
      r[k] == if polls[k].id == pollId then polls[k].(insightsGenerated := true) else polls[k]
  {
    seq(|polls|, k requires 0 <= k < |polls| =>
      if polls[k].id == pollId then polls[k].(insightsGenerated := true) else polls[k])
  }

  /**
   * Looked up by id, the flagged poll now reads as flagged, and every other
   * poll reads as before.
   */
  lemma {:induction false} SetInsightsFlagTargets(polls: seq<PollRow>, pollId: nat, id: nat)
    ensures FindPoll(SetInsightsFlag(polls, pollId), id) ==
      if id == pollId && FindPoll(polls, id).Some? then Some(FindPoll(polls, id).value.(insightsGenerated := true))
      else FindPoll(polls, id)
    decreases |polls|
  {
    if |polls| > 0 {
      assert SetInsightsFlag(polls, pollId)[1..] == SetInsightsFlag(polls[1..], pollId);
      SetInsightsFlagTargets(polls[1..], pollId, id);
    }
  }

  /** `app.py` (with socket.io) and `app_vercel.py` (serverless). */
  datatype Copy = WithSocket | Serverless

  /**
   * The store `poll_results` reads during the insight step. `app.py` reads
   * through the request's connection after committing the vote, so it sees
   * the vote (`after`). `app_vercel.py` opens a second connection while the
   * vote is still uncommitted on the first, so it sees the store as it was
   * before the vote (`before`).
   */
  function ResultsView(copy: Copy, before: Store, after: Store): Store {
    match copy
    case WithSocket => after
    case Serverless => before
  }

  /**
   * The step run after a vote is appended to `st`: when the poll has at
   * least `InsightThreshold` votes in `st` and its flag (`generated`) is
   * unset, compute the results as `seen` holds them, and, when those give
   * an insight, store its text and set the flag.
   */
  function InsightStep(st: Store, seen: Store, pollId: nat, generated: bool, now: Time, round: Rounding): (r: Store)
    requires IsTenthsRounding(round)
    ensures r.votes == st.votes && r.options == st.options
    ensures var res := PollResults(seen, pollId, round);
      r == st <==> CountPollVotes(st.votes, pollId) < InsightThreshold || generated || res.total < InsightThreshold
    ensures r != st ==>
      var res := PollResults(seen, pollId, round);
      && r.polls == SetInsightsFlag(st.polls, pollId)
      && r.insights == st.insights + [InsightRow(|st.insights| + 1, pollId, InsightText(GenerateInsights(res.rows, res.total).value), now)]
  {
    if CountPollVotes(st.votes, pollId) < InsightThreshold || generated then st
    else
      var res := PollResults(seen, pollId, round);
      // `if insight_text:` -- a present insight always has at least one clause
      match GenerateInsights(res.rows, res.total)
      case None => st
      case Some(cs) =>
        var r := st.(insights := st.insights + [InsightRow(|st.insights| + 1, pollId, InsightText(cs), now)],
                     polls := SetInsightsFlag(st.polls, pollId));
        assert |r.insights| != |st.insights|;
        r
  }

  /** The insight step changes a poll only by setting the flag of `pollId`, and adds at most one insight, for `pollId`. */
  lemma InsightStepFrame(st: Store, seen: Store, pollId: nat, generated: bool, now: Time, round: Rounding)
    requires IsTenthsRounding(round)
    ensures var r := InsightStep(st, seen, pollId, generated, now, round);
      && |r.polls| == |st.polls|
      && (forall k :: 0 <= k < |st.polls| ==>
        || r.polls[k] == st.polls[k]
        || (st.polls[k].id == pollId && r.polls[k] == st.polls[k].(insightsGenerated := true)))
      && (r.insights == st.insights || (
        && !generated
        && CountPollVotes(st.votes, pollId) >= InsightThreshold
        && |r.insights| == |st.insights| + 1 && r.insights[..|st.insights|] == st.insights
        && r.insights[|st.insights|].pollId == pollId))
  {
    var r := InsightStep(st, seen, pollId, generated, now, round);
    if r != st {
      assert r.insights[..|st.insights|] == st.insights;
    }
  }

  /** An unflagged poll at the threshold whose results reach it gets its insight row and its flag. */
  lemma InsightStored(st: Store, seen: Store, pollId: nat, now: Time, round: Rounding)
    requires IsTenthsRounding(round)
    requires CountPollVotes(st.votes, pollId) >= InsightThreshold
    requires PollResults(seen, pollId, round).total >= InsightThreshold
    ensures var res := PollResults(seen, pollId, round);
      InsightStep(st, seen, pollId, false, now, round)
        == st.(insights := st.insights + [InsightRow(|st.insights| + 1, pollId, InsightText(GenerateInsights(res.rows, res.total).value), now)],
               polls := SetInsightsFlag(st.polls, pollId))
  {
  }

  /**
   * `poll_view` for one request at time `now`, as `copy` handles it;
   * `freshToken` is the token minted for a new vote.
   */
  function CastVote(copy: Copy, st: Store, pollId: nat, req: VoteRequest, now: Time, freshToken: Token, round: Rounding): (r: VoteStep)
    requires IsTenthsRounding(round)
    ensures r.outcome == PollNotFound <==> FindPoll(st.polls, pollId).None?
    ensures r.outcome == RedirectToResults <==>
      FindPoll(st.polls, pollId).Some? && Expired(FindPoll(st.polls, pollId).value, now)
    ensures r.outcome.ShowPoll? <==> Open(st, pollId, now) && !FirstPost(st, pollId, req)
    ensures r.outcome.ShowPoll? ==>
      && r.outcome.userChoice == PriorChoice(st.votes, pollId, req.cookie)
      && r.outcome.hasVoted == r.outcome.userChoice.Some?
    ensures r.outcome == NoOptionSelected <==> Open(st, pollId, now) && FirstPost(st, pollId, req) && req.option.None?
    ensures r.outcome == InvalidOption <==>
      Open(st, pollId, now) && FirstPost(st, pollId, req) && req.option.Some? && !OwnsOption(st.options, pollId, req.option.value)
    ensures r.outcome.Recorded? <==> VoteAdmitted(st, pollId, req, now)
    ensures r.outcome != ServerError
    ensures !r.outcome.Recorded? ==> r.store == st
    ensures r.outcome.Recorded? ==>
      && r.outcome.cookie == freshToken
      && r.store.votes == st.votes + [VoteRow(|st.votes| + 1, pollId, req.option.value, freshToken, req.deviceHash, req.ip, now)]
  {
    match FindPoll(st.polls, pollId)
    case None => VoteStep(st, PollNotFound)
    case Some(poll) =>
      if Expired(poll, now) then VoteStep(st, RedirectToResults)
      else
        var prior := PriorChoice(st.votes, pollId, req.cookie);
        if !req.isPost || prior.Some? then VoteStep(st, ShowPoll(prior.Some?, prior))
        else match req.option
          case None => VoteStep(st, NoOptionSelected)
          case Some(o) =>
            if !OwnsOption(st.options, pollId, o) then VoteStep(st, InvalidOption)
            else
              var v := VoteRow(|st.votes| + 1, pollId, o, freshToken, req.deviceHash, req.ip, now);
              var voted := st.(votes := st.votes + [v]);
              VoteStep(InsightStep(voted, ResultsView(copy, st, voted), pollId, poll.insightsGenerated, now, round),
                       Recorded(freshToken))
  }

  /**
   * What else a vote changes: the options never, a poll row only by setting
   * the voted poll's flag, and the insights only by one row for the voted
   * poll, when it was unflagged and has reached the threshold.
   */
  lemma CastVoteFrame(copy: Copy, st: Store, pollId: nat, req: VoteRequest, now: Time, freshToken: Token, round: Rounding)
    requires IsTenthsRounding(round)
    ensures var r := CastVote(copy, st, pollId, req, now, freshToken, round);
      && r.store.options == st.options
      && |r.store.polls| == |st.polls|
      && (forall k :: 0 <= k < |st.polls| ==>
        || r.store.polls[k] == st.polls[k]
        || (st.polls[k].id == pollId && r.store.polls[k] == st.polls[k].(insightsGenerated := true)))
      && (r.store.insights == st.insights || (
        && r.outcome.Recorded?
        && !FindPoll(st.polls, pollId).value.insightsGenerated
        && CountPollVotes(r.store.votes, pollId) >= InsightThreshold
        && |r.store.insights| == |st.insights| + 1 && r.store.insights[..|st.insights|] == st.insights
        && r.store.insights[|st.insights|].pollId == pollId))
  {
    var r := CastVote(copy, st, pollId, req, now, freshToken, round);
    if VoteAdmitted(st, pollId, req, now) {
      var v := VoteRow(|st.votes| + 1, pollId, req.option.value, freshToken, req.deviceHash, req.ip, now);
      var voted := st.(votes := st.votes + [v]);
      var generated := FindPoll(st.polls, pollId).value.insightsGenerated;
      assert r.store == InsightStep(voted, ResultsView(copy, st, voted), pollId, generated, now, round) by {
        RecordedStore(copy, st, pollId, req, now, freshToken, round);
      }
      InsightStepFrame(voted, ResultsView(copy, st, voted), pollId, generated, now, round);
    } else {
      assert r.store == st;
    }
  }

  // ----- Where the two copies differ -----

  /**
   * The stored outcome of a vote when the insight step's queries raise a
   * database error (`insightStepFails`). `app.py` commits the vote before
   * the insight step and swallows that error, and the uncommitted insight
   * row and flag are discarded when the request's connection closes;
   * `app_vercel.py` commits vote and insight together, so the error loses
   * the vote as well.
   */
  function CommitVote(copy: Copy, st: Store, pollId: nat, req: VoteRequest, now: Time, freshToken: Token,
                      round: Rounding, insightStepFails: bool): (r: VoteStep)
    requires IsTenthsRounding(round)
    ensures var plain := CastVote(copy, st, pollId, req, now, freshToken, round);
      var fails := insightStepFails && plain.outcome.Recorded? && CountPollVotes(plain.store.votes, pollId) >= InsightThreshold;
      && (!fails ==> r == plain)
      && (fails && copy == WithSocket ==>
            && r.outcome == plain.outcome && r.store.votes == plain.store.votes
            && r.store.polls == st.polls && r.store.insights == st.insights && r.store.options == st.options)
      && (fails && copy == Serverless ==> r == VoteStep(st, ServerError))
  {
    var plain := CastVote(copy, st, pollId, req, now, freshToken, round);
    var reached := CountPollVotes(plain.store.votes, pollId) >= InsightThreshold;
    if !insightStepFails || !plain.outcome.Recorded? || !reached then plain
    else match copy
      case WithSocket => VoteStep(st.(votes := plain.store.votes), plain.outcome)
      case Serverless => VoteStep(st, ServerError)
  }

  /**
   * With a fresh token, a vote keeps the store valid whether or not the
   * insight step fails, in either copy.
   */
  lemma CommitVotePreservesValid(copy: Copy, st: Store, pollId: nat, req: VoteRequest, now: Time, freshToken: Token,
                                 round: Rounding, insightStepFails: bool)
    requires Valid(st) && IsTenthsRounding(round)
    requires FreshToken(st.votes, freshToken)
    ensures Valid(CommitVote(copy, st, pollId, req, now, freshToken, round, insightStepFails).store)
  {
    var plain := CastVote(copy, st, pollId, req, now, freshToken, round);
    var r := CommitVote(copy, st, pollId, req, now, freshToken, round, insightStepFails);
    if r == plain {
      CastVotePreservesValid(copy, st, pollId, req, now, freshToken, round);
    } else if copy == WithSocket {
      var o := req.option.value;
      var v := VoteRow(|st.votes| + 1, pollId, o, freshToken, req.deviceHash, req.ip, now);
      assert r.store == st.(votes := st.votes + [v]);
      AdmittedOptionRow(st, pollId, o);
      AppendVotePreservesValid(st, v);
    }
  }

  /** When the insight step fails, the vote survives in `app.py` and is lost in `app_vercel.py`. */
  lemma CommitOrderDiffers(st: Store, pollId: nat, req: VoteRequest, now: Time, freshToken: Token, round: Rounding)
    requires IsTenthsRounding(round)
    requires VoteAdmitted(st, pollId, req, now)
    requires CountPollVotes(st.votes, pollId) + 1 >= InsightThreshold
    ensures CommitVote(WithSocket, st, pollId, req, now, freshToken, round, true).store.votes == st.votes + [VoteRow(|st.votes| + 1, pollId, req.option.value, freshToken, req.deviceHash, req.ip, now)]
    ensures CommitVote(Serverless, st, pollId, req, now, freshToken, round, true) == VoteStep(st, ServerError)
  {
    var v := VoteRow(|st.votes| + 1, pollId, req.option.value, freshToken, req.deviceHash, req.ip, now);
    CountPollVotesAppend(st.votes, v, pollId);
    RecordedStore(WithSocket, st, pollId, req, now, freshToken, round);
    RecordedStore(Serverless, st, pollId, req, now, freshToken, round);
  }

  // ----- The store invariant -----

  lemma AppendVotePreservesValid(st: Store, v: VoteRow)
    requires Valid(st)
    requires v.id == |st.votes| + 1
    requires 1 <= v.optionId <= |st.options| && st.options[v.optionId - 1].pollId == v.pollId
    requires FreshToken(st.votes, v.token)
    ensures Valid(st.(votes := st.votes + [v]))
  {
    var st' := st.(votes := st.votes + [v]);
    forall i | 0 <= i < |st'.votes| ensures VoteWellFormed(st', i) {
      if i < |st.votes| {
        assert VoteWellFormed(st, i);
      }
    }
  }

  /** The row an admitted option id names belongs to the poll. */
  lemma AdmittedOptionRow(st: Store, pollId: nat, optionId: nat)
    requires IdsDense(st)
    requires OwnsOption(st.options, pollId, optionId)
    ensures 1 <= optionId <= |st.options| && st.options[optionId - 1].pollId == pollId
  {
  }

  /** Setting a poll's flag while appending its one insight row keeps the flags and rows in step. */
  lemma FlagWithInsightKeepsFlags(st: Store, row: InsightRow)
    requires InsightFlags(st)
    requires IdsDense(st) && 1 <= row.pollId <= |st.polls|
    requires !st.polls[row.pollId - 1].insightsGenerated
    ensures InsightFlags(st.(insights := st.insights + [row], polls := SetInsightsFlag(st.polls, row.pollId)))
  {
    var r := st.(insights := st.insights + [row], polls := SetInsightsFlag(st.polls, row.pollId));
    forall i | 0 <= i < |r.polls|
      ensures CountInsights(r.insights, r.polls[i].id) == if r.polls[i].insightsGenerated then 1 else 0
    {
      CountInsightsAppend(st.insights, row, st.polls[i].id);
    }
  }

  /** Storing one insight row for an unflagged poll and flagging it keeps the store valid. */
  lemma AddInsightPreservesValid(st: Store, row: InsightRow)
    requires Valid(st)
    requires row.id == |st.insights| + 1 && 1 <= row.pollId <= |st.polls|
    requires !st.polls[row.pollId - 1].insightsGenerated
    ensures Valid(st.(insights := st.insights + [row], polls := SetInsightsFlag(st.polls, row.pollId)))
  {
    var r := st.(insights := st.insights + [row], polls := SetInsightsFlag(st.polls, row.pollId));
    FlagWithInsightKeepsFlags(st, row);
    assert forall i :: 0 <= i < |st.polls| ==> r.polls[i].id == st.polls[i].id;
    forall i | 0 <= i < |r.votes| ensures VoteWellFormed(r, i) {
      assert VoteWellFormed(st, i);
    }
  }

  lemma InsightStepPreservesValid(st: Store, seen: Store, pollId: nat, now: Time, round: Rounding)
    requires Valid(st) && IsTenthsRounding(round)
    requires FindPoll(st.polls, pollId).Some?
    ensures Valid(InsightStep(st, seen, pollId, FindPoll(st.polls, pollId).value.insightsGenerated, now, round))
  {
    var poll := FindPoll(st.polls, pollId).value;
    var r := InsightStep(st, seen, pollId, poll.insightsGenerated, now, round);
    if r != st {
      var p :| 0 <= p < |st.polls| && st.polls[p] == poll;
      AddInsightPreservesValid(st, r.insights[|st.insights|]);
    }
  }

  /**
   * With a fresh token, casting a vote keeps the store valid: in particular
   * at most one vote per (poll, token), and at most one insight per poll.
   */
  lemma CastVotePreservesValid(copy: Copy, st: Store, pollId: nat, req: VoteRequest, now: Time, freshToken: Token, round: Rounding)
    requires Valid(st) && IsTenthsRounding(round)
    requires FreshToken(st.votes, freshToken)
    ensures Valid(CastVote(copy, st, pollId, req, now, freshToken, round).store)
  {
    var r := CastVote(copy, st, pollId, req, now, freshToken, round);
    if VoteAdmitted(st, pollId, req, now) {
      var o := req.option.value;
      AdmittedOptionRow(st, pollId, o);
      var v := VoteRow(|st.votes| + 1, pollId, o, freshToken, req.deviceHash, req.ip, now);
      var voted := st.(votes := st.votes + [v]);
      AppendVotePreservesValid(st, v);
      var generated := FindPoll(st.polls, pollId).value.insightsGenerated;
      assert r.store == InsightStep(voted, ResultsView(copy, st, voted), pollId, generated, now, round) by {
        RecordedStore(copy, st, pollId, req, now, freshToken, round);
      }
      InsightStepPreservesValid(voted, ResultsView(copy, st, voted), pollId, now, round);
    } else {
      assert r.store == st;
    }
  }

  /** An admitted vote appends its row and then runs the insight step with the poll's flag. */
  lemma RecordedStore(copy: Copy, st: Store, pollId: nat, req: VoteRequest, now: Time, freshToken: Token, round: Rounding)
    requires IsTenthsRounding(round)
    requires VoteAdmitted(st, pollId, req, now)
    ensures var v := VoteRow(|st.votes| + 1, pollId, req.option.value, freshToken, req.deviceHash, req.ip, now);
      var voted := st.(votes := st.votes + [v]);
      CastVote(copy, st, pollId, req, now, freshToken, round).store
        == InsightStep(voted, ResultsView(copy, st, voted), pollId, FindPoll(st.polls, pollId).value.insightsGenerated, now, round)
  {
  }

  /**
   * In `app.py`, the vote that brings an unflagged poll to the threshold
   * stores the insight of the results that count it, and sets the flag.
   */
  lemma InsightOnThreshold(st: Store, pollId: nat, req: VoteRequest, now: Time, freshToken: Token, round: Rounding)
    requires Valid(st) && IsTenthsRounding(round)
    requires FreshToken(st.votes, freshToken)
    requires VoteAdmitted(st, pollId, req, now)
    requires !FindPoll(st.polls, pollId).value.insightsGenerated
    requires CountPollVotes(st.votes, pollId) + 1 >= InsightThreshold
    ensures var v := VoteRow(|st.votes| + 1, pollId, req.option.value, freshToken, req.deviceHash, req.ip, now);
      var res := PollResults(st.(votes := st.votes + [v]), pollId, round);
      var r := CastVote(WithSocket, st, pollId, req, now, freshToken, round).store;
      && res.total == CountPollVotes(st.votes, pollId) + 1
      && r.insights == st.insights + [InsightRow(|st.insights| + 1, pollId, InsightText(GenerateInsights(res.rows, res.total).value), now)]
      && r.polls == SetInsightsFlag(st.polls, pollId)
  {
    var o := req.option.value;
    AdmittedOptionRow(st, pollId, o);
    var v := VoteRow(|st.votes| + 1, pollId, o, freshToken, req.deviceHash, req.ip, now);
    var voted := st.(votes := st.votes + [v]);
    AppendVotePreservesValid(st, v);
    CountPollVotesAppend(st.votes, v, pollId);
    Conservation(voted, pollId, round);
    RecordedStore(WithSocket, st, pollId, req, now, freshToken, round);
  }

  /**
   * In `app_vercel.py`, the vote that brings an unflagged poll to exactly
   * the threshold stores no insight and leaves the flag unset: the results
   * it reads do not yet count that vote. `app.py` stores one.
   */
  lemma ServerlessMissesThreshold(st: Store, pollId: nat, req: VoteRequest, now: Time, freshToken: Token, round: Rounding)
    requires Valid(st) && IsTenthsRounding(round)
    requires FreshToken(st.votes, freshToken)
    requires VoteAdmitted(st, pollId, req, now)
    requires !FindPoll(st.polls, pollId).value.insightsGenerated
    requires CountPollVotes(st.votes, pollId) + 1 == InsightThreshold
    ensures var r := CastVote(Serverless, st, pollId, req, now, freshToken, round);
      r.outcome.Recorded? && r.store.insights == st.insights && r.store.polls == st.polls
    ensures |CastVote(WithSocket, st, pollId, req, now, freshToken, round).store.insights| == |st.insights| + 1
  {
    RecordedStore(Serverless, st, pollId, req, now, freshToken, round);
    Conservation(st, pollId, round);
    InsightOnThreshold(st, pollId, req, now, freshToken, round);
  }

  /**
   * In `app_vercel.py`, once a poll has reached the threshold, the next vote
   * on the unflagged poll stores the insight of the results before that
   * vote, and sets the flag.
   */
  lemma ServerlessInsightLags(st: Store, pollId: nat, req: VoteRequest, now: Time, freshToken: Token, round: Rounding)
    requires Valid(st) && IsTenthsRounding(round)
    requires VoteAdmitted(st, pollId, req, now)
    requires !FindPoll(st.polls, pollId).value.insightsGenerated
    requires CountPollVotes(st.votes, pollId) >= InsightThreshold
    ensures var res := PollResults(st, pollId, round);
      var r := CastVote(Serverless, st, pollId, req, now, freshToken, round).store;
      && res.total == CountPollVotes(st.votes, pollId)
      && r.insights == st.insights + [InsightRow(|st.insights| + 1, pollId, InsightText(GenerateInsights(res.rows, res.total).value), now)]
      && r.polls == SetInsightsFlag(st.polls, pollId)
  {
    var v := VoteRow(|st.votes| + 1, pollId, req.option.value, freshToken, req.deviceHash, req.ip, now);
    var voted := st.(votes := st.votes + [v]);
    assert CastVote(Serverless, st, pollId, req, now, freshToken, round).store == InsightStep(voted, st, pollId, false, now, round) by {
      RecordedStore(Serverless, st, pollId, req, now, freshToken, round);
    }
    assert CountPollVotes(voted.votes, pollId) >= InsightThreshold by {
      CountPollVotesAppend(st.votes, v, pollId);
    }
    assert PollResults(st, pollId, round).total == CountPollVotes(st.votes, pollId) by {
      Conservation(st, pollId, round);
    }
    InsightStored(voted, st, pollId, now, round);
  }

  // ----- The voter cookie -----

  /** After a recorded vote the poll is still found, and the returned token finds that vote. */
  lemma VoteFindsItself(copy: Copy, st: Store, pollId: nat, req: VoteRequest, now: Time, token: Token, round: Rounding)
    requires IsTenthsRounding(round)
    requires FreshToken(st.votes, token) && token != []
    requires VoteAdmitted(st, pollId, req, now)
    ensures var st1 := CastVote(copy, st, pollId, req, now, token, round).store;
      FindPoll(st1.polls, pollId).Some? && PriorChoice(st1.votes, pollId, Some(token)) == Some(req.option.value)
  {
    var v := VoteRow(|st.votes| + 1, pollId, req.option.value, token, req.deviceHash, req.ip, now);
    var st1 := CastVote(copy, st, pollId, req, now, token, round).store;
    assert FindPoll(st1.polls, pollId).Some? by {
      RecordedStore(copy, st, pollId, req, now, token, round);
      SetInsightsFlagTargets(st.polls, pollId, pollId);
    }
    assert st1.votes == st.votes + [v];
    OnlyVoteOfToken(st.votes, v);
  }

  /** Voting again with the cookie a vote returned changes nothing. */
  lemma RevoteIsNoop(copy: Copy, st: Store, pollId: nat, req: VoteRequest, now: Time, token: Token,
                     again: VoteRequest, later: Time, token2: Token, round: Rounding)
    requires IsTenthsRounding(round)
    requires FreshToken(st.votes, token) && token != []
    requires VoteAdmitted(st, pollId, req, now)
    requires again.cookie == Some(token)
    ensures var st1 := CastVote(copy, st, pollId, req, now, token, round).store;
      var r := CastVote(copy, st1, pollId, again, later, token2, round);
      && r.store == st1
      && (r.outcome == RedirectToResults || r.outcome == ShowPoll(true, Some(req.option.value)))
  {
    var st1 := CastVote(copy, st, pollId, req, now, token, round).store;
    VoteFindsItself(copy, st, pollId, req, now, token, round);
    PriorVoteShown(copy, st1, pollId, again, later, token2, round);
  }

  /** Rows that differ at most in their flags keep every lookup by id successful. */
  lemma SamePollIds(polls: seq<PollRow>, polls': seq<PollRow>, pollId: nat)
    requires |polls'| == |polls|
    requires forall k :: 0 <= k < |polls| ==> polls'[k].id == polls[k].id
    requires FindPoll(polls, pollId).Some?
    ensures FindPoll(polls', pollId).Some?
  {
  }

  /** A token no earlier vote carries finds exactly the vote appended with it. */
  lemma OnlyVoteOfToken(votes: seq<VoteRow>, v: VoteRow)
    requires FreshToken(votes, v.token) && v.token != []
    ensures PriorChoice(votes + [v], v.pollId, Some(v.token)) == Some(v.optionId)
  {
    var all := votes + [v];
    assert all[|votes|] == v;
    assert forall k :: 0 <= k < |all| && all[k].token == v.token ==> all[k] == v;
  }

  /** A request whose cookie matches a vote of the poll changes nothing and is shown that vote. */
  lemma PriorVoteShown(copy: Copy, st: Store, pollId: nat, req: VoteRequest, now: Time, token: Token, round: Rounding)
    requires IsTenthsRounding(round)
    requires FindPoll(st.polls, pollId).Some?
    requires PriorChoice(st.votes, pollId, req.cookie).Some?
    ensures var r := CastVote(copy, st, pollId, req, now, token, round);
      && r.store == st
      && (r.outcome == RedirectToResults || r.outcome == ShowPoll(true, PriorChoice(st.votes, pollId, req.cookie)))
  {
  }

  /**
   * The cookie holds only the latest token: after voting on one poll, the
   * browser no longer counts as having voted on any other poll, whatever
   * it did there before.
   */
  lemma CookieCoversOnePoll(copy: Copy, st: Store, pollId: nat, req: VoteRequest, now: Time, token: Token, round: Rounding, other: nat)
    requires IsTenthsRounding(round)
    requires FreshToken(st.votes, token)
    requires CastVote(copy, st, pollId, req, now, token, round).outcome.Recorded?
    requires other != pollId
    ensures PriorChoice(CastVote(copy, st, pollId, req, now, token, round).store.votes, other, Some(token)).None?
  {
  }
}
