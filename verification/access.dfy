/**
 * The creator-secret checks: the share page reveals the dashboard link,
 * and the creator dashboard opens, only to a request carrying the poll's
 * non-empty creator secret.
 */
module Access {
  import opened Base
  import opened Store
  import opened Creation
  import opened Results
  import opened Voting

  /** The dashboard's answer: the page for the poll, 403 or 404. */
  datatype DashboardAccess = Granted(poll: PollRow) | Forbidden | NotFound

  /** The poll's secret is set and equals the supplied one. */
  predicate SecretMatches(poll: PollRow, secret: Token) {
    poll.creatorSecret != [] && poll.creatorSecret == secret
  }

  /**
   * `creator_dashboard`'s gate. A missing poll is a 404 in `app.py` and
   * falls into the 403 branch in `app_vercel.py`.
   */
  function Dashboard(copy: Copy, polls: seq<PollRow>, pollId: nat, secret: Token): (a: DashboardAccess)
    ensures a.Granted? <==> FindPoll(polls, pollId).Some? && SecretMatches(FindPoll(polls, pollId).value, secret)
    ensures a.Granted? ==> a.poll.id == pollId && a.poll in polls
    ensures a == NotFound <==> copy == WithSocket && FindPoll(polls, pollId).None?
  {
    match FindPoll(polls, pollId)
    case None => if copy == WithSocket then NotFound else Forbidden
    case Some(p) => if p.creatorSecret == [] || p.creatorSecret != secret then Forbidden else Granted(p)
  }

  /** The two copies answer differently exactly when the poll does not exist. */
  lemma DashboardCopiesDiffer(polls: seq<PollRow>, pollId: nat, secret: Token)
    ensures Dashboard(WithSocket, polls, pollId, secret) != Dashboard(Serverless, polls, pollId, secret)
        <==> FindPoll(polls, pollId).None?
  {
  }

  /** What the share page shows: whether the viewer is the creator, and the dashboard link's secret. */
  datatype SharePage = SharePage(isCreator: bool, creatorLink: Option<Token>)

  /** `share_poll` with the optional `secret` query argument; None is the 404. */
  function Share(polls: seq<PollRow>, pollId: nat, secret: Option<Token>): (r: Option<SharePage>)
    ensures r.None? <==> FindPoll(polls, pollId).None?
    ensures r.Some? ==>
      && (r.value.isCreator <==> secret.Some? && SecretMatches(FindPoll(polls, pollId).value, secret.value))
      && (r.value.creatorLink.Some? <==> r.value.isCreator)
      && (r.value.creatorLink.Some? ==> r.value.creatorLink.value == FindPoll(polls, pollId).value.creatorSecret)
  {
    match FindPoll(polls, pollId)
    case None => None
    case Some(p) =>
      var isCreator := secret.Some? && secret.value != [] && p.creatorSecret != [] && secret.value == p.creatorSecret;
      Some(SharePage(isCreator, if isCreator then Some(p.creatorSecret) else None))
  }

  /** The share page offers the dashboard link exactly to those the dashboard admits. */
  lemma ShareLinkOpensDashboard(copy: Copy, polls: seq<PollRow>, pollId: nat, secret: Token)
    requires FindPoll(polls, pollId).Some?
    ensures Share(polls, pollId, Some(secret)).value.isCreator <==> Dashboard(copy, polls, pollId, secret).Granted?
  {
  }

  /** The poll row a creation appends is the one a lookup of its id finds. */
  lemma NewPollFound(st: Store, question: string, options: seq<string>, hideResults: bool, now: Time, secret: Token)
    requires IdsDense(st)
    ensures var polls := AddPoll(st, question, options, hideResults, now, secret).polls;
      FindPoll(polls, |st.polls| + 1) == Some(polls[|st.polls|])
  {
    var polls := AddPoll(st, question, options, hideResults, now, secret).polls;
    assert forall k :: 0 <= k < |st.polls| ==> polls[k] == st.polls[k];
  }

  /** The holder of a poll's non-empty secret gets the link and the dashboard; nobody else does. */
  lemma SecretHolderAdmitted(copy: Copy, polls: seq<PollRow>, pollId: nat, secret: Token, other: Token)
    requires FindPoll(polls, pollId).Some? && FindPoll(polls, pollId).value.creatorSecret == secret
    requires secret != [] && other != secret
    ensures Share(polls, pollId, Some(secret)) == Some(SharePage(true, Some(secret)))
    ensures Dashboard(copy, polls, pollId, secret).Granted?
    ensures Dashboard(copy, polls, pollId, other) == Forbidden
  {
  }

  /**
   * After a poll is created with a non-empty secret, the redirect to the
   * share page with that secret shows the dashboard link, the dashboard
   * opens with it, and it stays shut to every other secret.
   */
  lemma CreatorOwnsNewPoll(st: Store, form: CreateForm, now: Time, secret: Token, copy: Copy, other: Token)
    requires Valid(st)
    requires secret != [] && other != secret
    requires CreatePoll(st, form, now, secret).outcome.Created?
    ensures var r := CreatePoll(st, form, now, secret);
      && Share(r.store.polls, r.outcome.pollId, Some(secret)) == Some(SharePage(true, Some(secret)))
      && Dashboard(copy, r.store.polls, r.outcome.pollId, secret).Granted?
      && Dashboard(copy, r.store.polls, r.outcome.pollId, other) == Forbidden
  {
    var c := CheckForm(form);
    var polls := AddPoll(st, c.question, c.options, form.hideResults, now, secret).polls;
    NewPollFound(st, c.question, c.options, form.hideResults, now, secret);
    SecretHolderAdmitted(copy, polls, |st.polls| + 1, secret, other);
  }

  /**
   * A poll created at `now` takes votes for 24 hours: its page redirects to
   * the results exactly when the request comes later than that.
   */
  lemma NewPollOpenForADay(st: Store, form: CreateForm, now: Time, secret: Token,
                           copy: Copy, req: VoteRequest, t: Time, token: Token, round: Rounding)
    requires Valid(st) && IsTenthsRounding(round)
    requires CreatePoll(st, form, now, secret).outcome.Created?
    ensures var r := CreatePoll(st, form, now, secret);
      (CastVote(copy, r.store, r.outcome.pollId, req, t, token, round).outcome == RedirectToResults
       <==> t > now + PollLifetime)
  {
    var c := CheckForm(form);
    NewPollFound(st, c.question, c.options, form.hideResults, now, secret);
  }
}
