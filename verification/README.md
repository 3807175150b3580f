# Poll app core, modelled in Dafny

A model of the logic of a small Flask polling app. The app exists as two
near-identical copies: `app.py`, which has socket.io, and `app_vercel.py`,
which is serverless. The model covers one shared version of both copies:

- **Option auto-splitting.** A question such as `Tea|Coffee` becomes its
  answer options. It is split on the first delimiter, in the fixed order
  `|`, `;`, ` vs `, ` VS `, ` or `, ` OR `, that gives 2 to 4 non-empty
  stripped parts.
- **Results aggregation.** For each option of a poll, in query order, the
  model gives the vote count and the share of the total. Shares are whole
  tenths of a percent (70.0% is 700). The rounding is a parameter,
  constrained to lie within half a tenth of the exact share. This leaves
  Python's float tie-breaking open.
- **Insight generation.** From 20 votes on, the insight is a list of
  clauses in a fixed order:
  - a margin clause (clear winner / moderate lead / close race);
  - a participation clause;
  - a distribution clause from the gap between the top two shares.

  The stored text joins the clauses with ` • `.
- **The poll store.** The state is four tables of rows: polls, options,
  votes and insights. The handlers are state transitions on it:
  - poll creation, with its validation;
  - vote casting, with these steps:
    1. the expiry check;
    2. the already-voted gate on (poll, cookie token);
    3. the option-ownership check;
    4. appending the vote;
    5. generating the insight once.
  - the creator-secret checks of the share page and the creator dashboard.
- **The invariant `Store.Valid`.** It holds for the empty store and is
  preserved by every handler:
  - identifiers are dense;
  - every row references a stored poll;
  - every poll has 2 to 4 options;
  - every vote names an option of its own poll;
  - there is at most one vote per (poll, token);
  - an insight row exists exactly when the poll's flag is set.

The model has no clock, no randomness and no database. Time is an integer
parameter (`now`). The fresh vote token and the creator secret are
parameters. The device hash and the client address are opaque strings.

The two copies differ in three places, and `Copy = WithSocket | Serverless`
selects the behaviour:

- **Commit order.** `app.py` commits the vote before the insight step and
  swallows a database error raised in that step. `app_vercel.py` commits
  both together, so such an error loses the vote too. `Voting.CommitVote`
  models both.
- **What the insight step reads.** `app.py` keeps one connection per
  request and commits the vote before the insight step, so the results it
  summarises count the new vote. `app_vercel.py` opens a new connection in
  `poll_results` while the vote is still uncommitted on the handler's
  connection, so the results it summarises do not count that vote.
  `Voting.ResultsView` picks the store the results are read from. See
  "## Findings".
- **Dashboard for a missing poll.** `app.py` answers 404 and
  `app_vercel.py` answers 403. `Access.Dashboard` models both.

Every successful vote sets the `vote_token` cookie to a new token. A
browser's cookie therefore only covers the poll it voted on last.
`Voting.CookieCoversOnePoll` states this. The stored device hash is never
consulted by the already-voted gate.

Files:

| file | module | contents |
|---|---|---|
| `base.dfy` | `Base` | `Option`, distance |
| `text.dfy` | `Text` | Python's `str.strip`, `in` and `str.split` on strings |
| `autosplit.dfy` | `AutoSplit` | `auto_split_options` |
| `store.dfy` | `Store` | the four tables, their queries, the invariant |
| `results.dfy` | `Results` | `poll_results` and the rounding contract |
| `insights.dfy` | `Insights` | `generate_insights`: winner, stable sort, clauses, text |
| `creation.dfy` | `Creation` | `create_poll` |
| `voting.dfy` | `Voting` | `poll_view`: the vote, the insight step, the commit order |
| `access.dfy` | `Access` | `share_poll` and `creator_dashboard` |

## Model

| member | source | states |
|---|---|---|
| Text.Strip | app.py:91 | the result has no leading or trailing whitespace, using Python's full `isspace` set; it is empty exactly when the input is all whitespace |
| Text.StripRemovesPadding | app.py:91 | stripping whitespace padding around a stripped core gives back exactly that core |
| Text.StripIdempotent | app.py:91 | stripping twice is stripping once |
| Text.Split | app.py:91 | `str.split(d)`: joining the parts with `d` gives the input back; no part contains `d`; the scan cuts at the leftmost occurrence, so no occurrence of `d` starts inside any part but the last; there are at least 2 parts exactly when `d in s` |
| Text.SplitJoin | app.py:141 | `d.join` is undone by `split(d)` for parts in which `d` neither occurs nor starts, except that it may start inside the last one |
| Text.IndexOf | app.py:91 | the first occurrence of `d` at or after a position, or none at all |
| AutoSplit.AutoSplitOptions | app.py:86-94 | None exactly when no delimiter yields 2 to 4 parts; otherwise 2 to 4 non-empty stripped parts, from the first delimiter in list order that yields |
| AutoSplit.CleanedMembers | app.py:91 | a part is kept exactly when it is the non-empty stripped form of some piece of the split |
| AutoSplit.CleanedAppend | app.py:91 | the comprehension keeps order and repeats: cleaning two runs of pieces in sequence is cleaning each and concatenating |
| AutoSplit.CleanedOne | app.py:91 | one piece contributes its stripped form when that is non-empty, and nothing otherwise |
| AutoSplit.PresenceTestRedundant | app.py:90-92 | the `d in question` test changes nothing: an absent delimiter never yields 2 to 4 parts |
| AutoSplit.NoDelimiterNoSplit | app.py:88-94 | a question containing none of the delimiters gives None |
| AutoSplit.SplitOnVersus | app.py:88-93 | a question with neither a pipe nor a semicolon, on which ` vs ` yields, is split on ` vs ` |
| AutoSplit.PythonVsJavaScript | test_deployment.py:23 | `Test poll - Python vs JavaScript?` gives `Test poll - Python` and `JavaScript?` |
| AutoSplit.TeaCoffee | app.py:86-94 | `Tea`, a pipe, `Coffee` gives `Tea` and `Coffee`, split on the first delimiter |
| Store.FindPoll | app_vercel.py:182-186 | the lookup by id finds a stored row with that id, or none when no row has it |
| Store.OptionsOf | app_vercel.py:117 | the options of a poll are exactly the stored option rows naming that poll, no more rows than stored |
| Store.OptionsOfAppend | app_vercel.py:117 | the query keeps row order: the options of two runs of rows are those of each, in sequence |
| Store.CountOptionVotes | app_vercel.py:122 | the count of an option's votes is at most the number of votes, and is 0 exactly when no vote names the option |
| Store.CountPollVotes | app_vercel.py:220 | the count of a poll's votes is at most the number of votes, and is 0 exactly when no vote names the poll |
| Store.CountPollVotesAppend | app_vercel.py:220 | appending a vote raises its poll's count by one and leaves other polls' counts alone |
| Store.VoteByToken | app_vercel.py:199-203 | the vote lookup by (poll, token) finds a matching vote, or none when no vote matches |
| Store.EmptyStoreValid | app_vercel.py:21-57 | the empty database satisfies the store invariant |
| Results.PollResults | app.py:143-160 | one line per option of the poll in query order, with its text, id and count; the total is the sum of the counts; every share is 0 when the total is 0; otherwise every share is within half a tenth of the exact share and at most 100.0% |
| Results.HalfUpIsTenthsRounding | app.py:157 | rounding half up to one decimal is one of the allowed roundings |
| Results.RoundingExamples | app.py:157 | every allowed rounding gives 0% and 100.0% at the extremes, 70.0% and 30.0% for 7 and 3 out of 10, and 33.3% for 1 out of 3 |
| Results.Conservation | app.py:150-153 | in a valid store, the total of a poll's results is the number of votes cast on that poll |
| Insights.WinnerIndex | app.py:113 | `max(..., key=count)`: the first index holding the largest count |
| Insights.SortByCount | app.py:133 | the sort is a permutation of the lines, in descending order of count |
| Insights.SortHeadIsWinner | app.py:113-135 | the head of the descending sort is the line that `max` picks as the winner |
| Insights.TopGapFromWinner | app.py:133-135 | the gap is measured from the winner to a second line that counts at least as much as every other line |
| Insights.GenerateInsights | app.py:107-141 | None exactly when the total is below 20; otherwise 1 to 3 clauses in strict margin, participation, distribution order, with the margin clause about the winner and its share |
| Insights.MarginBands | app.py:119-124 | clear winner exactly above 60.0%, close race exactly below 35.0%, moderate lead from 35.0% to 60.0% inclusive |
| Insights.MarginAtSixty | app.py:119-124 | a winner at exactly 60.0% has a moderate lead |
| Insights.MarginAtThirtyFive | app.py:119-124 | a winner at exactly 35.0% has a moderate lead |
| Insights.ParticipationBands | app.py:127-130 | a participation clause exactly from 30 votes; high engagement exactly from 50; good participation exactly from 30 to 49; each cites the total |
| Insights.DistributionBands | app.py:133-139 | very competitive exactly with 2 or more options and a gap below 10.0; decisive exactly with 2 or more options and a gap above 30.0 |
| Insights.TeaCoffeeInsight | app.py:107-141 | Tea 14 and Coffee 6 give a clear winner `Tea` at 70.0% and a decisive outcome, with no participation clause |
| Insights.NatTextRoundTrip | app.py:128 | the decimal rendering of a number reads back as that number |
| Insights.ClauseMentions | app.py:119-130 | a margin clause names the winning option and prints its share; a participation clause prints the vote total |
| Insights.InsightText | app.py:141 | the joined text is non-empty exactly when there is at least one clause |
| Insights.SeventyPercentInsightText | app.py:120 | a clear win at 70.0% followed by a decisive outcome is stored as the two clause texts joined by ` • `, with the share printed as `70.0` |
| Creation.ClampOptionCount | app_vercel.py:146-150 | the field count lies in [2, 4], is 2 when the request is absent or not an integer, and is otherwise the value in [2, 4] nearest to the request |
| Creation.NonBlank | app_vercel.py:152-155 | keeps exactly the non-empty values, no more values than given |
| Creation.NonBlankOne | app_vercel.py:154-155 | one value is kept exactly when it is non-empty |
| Creation.NonBlankAppend | app_vercel.py:151-155 | the filter keeps order and repeats: filtering two runs of values in sequence is filtering each and concatenating |
| Creation.ManualOptions | app_vercel.py:151-155 | the options are exactly the non-empty stripped `option1`..`optionN` values, at most N of them, each non-empty and stripped |
| Creation.ManualOptionsStep | app_vercel.py:151-155 | reading field `option<n+1>` appends its stripped value when that is non-empty, and changes nothing otherwise |
| Creation.RepeatedFieldKept | app_vercel.py:151-155 | two fields with the same text give that option twice |
| Creation.ChooseOptions | app_vercel.py:142-155 | an auto-split result takes precedence; otherwise the manual options with the clamped count |
| Creation.CheckForm | app_vercel.py:139-160 | accepted exactly when a question is present, there are 2 to 4 options and the stripped question has 1 to 120 characters; the option count is checked before the length; the error names the failed check |
| Creation.AddPoll | app_vercel.py:162-172 | appends one poll row with the next id, expiry 24 hours after `now` and the secret; appends one option row per option, in order, with consecutive ids; leaves votes and insights alone |
| Creation.CreatePoll | app_vercel.py:136-174 | a refused form leaves the store unchanged with the refusal; an accepted one adds the poll and answers with its id and secret |
| Creation.CreatePreservesValid | app_vercel.py:157-172 | creation keeps the store valid; a rejection stores nothing; the new poll's options, read back in query order, are exactly the chosen texts |
| Creation.AddPollPreservesValid | app_vercel.py:165-172 | storing a poll with 2 to 4 options keeps the store valid |
| Voting.PriorChoice | app_vercel.py:195-203 | the browser has voted exactly when its cookie is non-empty and matches a vote of this poll; the choice is that vote's option |
| Voting.SetInsightsFlagTargets | app_vercel.py:232 | after the update, a lookup of the voted poll finds it flagged, and a lookup of any other id finds what it found before |
| Voting.InsightStep | app_vercel.py:219-232 | the store is left alone exactly when the poll has fewer than 20 votes, or is flagged, or the results read have a total below 20; otherwise the flag is set and one row is appended holding the text of the insight of those results; votes and options never change |
| Voting.InsightStepFrame | app_vercel.py:219-232 | the insight step changes a poll only by setting the voted poll's flag, and adds at most one insight, for that poll, only when it was unflagged at 20 votes |
| Voting.InsightStored | app_vercel.py:219-232 | an unflagged poll at 20 votes whose results read have a total of at least 20 gets exactly the insight row of those results and its flag |
| Voting.CastVote | app_vercel.py:178-239 | 404 exactly for a missing poll; redirect exactly for an expired one; the page exactly for a GET or a browser that already voted, showing the prior choice; "No option selected" exactly for a first POST without an option; "Invalid option" exactly for a first POST naming an option that is not the poll's; a vote is recorded exactly when it is admitted; otherwise the store is unchanged; a recorded vote appends one row with the poll, option, fresh token, hash, address and time, and returns the token as the cookie |
| Voting.CastVoteFrame | app_vercel.py:215-232 | a vote never changes the options; it changes a poll only by setting the voted poll's flag; it changes the insights only by one row for the voted poll, when that poll was unflagged and has reached 20 votes |
| Voting.CastVotePreservesValid | app_vercel.py:205-232 | with a fresh token, a vote keeps the store valid, including at most one vote per (poll, token) and one insight per flagged poll |
| Voting.InsightOnThreshold | app.py:246-260 | in `app.py`, the vote that brings an unflagged poll to 20 sets the flag and stores the insight of results whose total counts that vote |
| Voting.ServerlessMissesThreshold | app_vercel.py:220-232 | in `app_vercel.py`, the vote that brings an unflagged poll to exactly 20 stores no insight and leaves the flag unset, while `app.py` stores one |
| Voting.ServerlessInsightLags | app_vercel.py:220-232 | in `app_vercel.py`, a vote on an unflagged poll that already has 20 or more votes stores the insight of the results before that vote |
| Voting.VoteFindsItself | app_vercel.py:195-218 | after a recorded vote the poll is still found, and the returned token finds that vote's option |
| Voting.RevoteIsNoop | app_vercel.py:195-205 | coming back with the cookie a vote returned changes nothing, and the page shows that vote's option |
| Voting.CookieCoversOnePoll | app_vercel.py:238 | the token a vote returns matches no vote of any other poll |
| Voting.CommitVote | app.py:237-263 | the insight step fails only for a recorded vote at 20 or more votes; then `app.py` keeps the vote and its answer but stores no insight and leaves every flag as it was (the uncommitted insight is discarded when the connection closes), and `app_vercel.py` answers with a server error and an unchanged store; otherwise each copy answers as its own `CastVote` does |
| Voting.CommitVotePreservesValid | app.py:237-263 | with a fresh token, a vote keeps the store valid in either copy, whether or not the insight step fails |
| Voting.CommitOrderDiffers | app.py:240-260 | a vote that reaches the threshold while the insight step fails is stored by `app.py` and lost by `app_vercel.py` |
| Access.Dashboard | app_vercel.py:338-346 | granted exactly when the poll exists with a non-empty secret equal to the supplied one; a missing poll is 404 exactly in `app.py` |
| Access.DashboardCopiesDiffer | app.py:381-385 | the two copies give different answers exactly when the poll does not exist |
| Access.Share | app_vercel.py:314-336 | 404 exactly for a missing poll; the viewer is the creator exactly when the supplied secret matches the non-empty stored one; the dashboard link is shown exactly then and carries the stored secret |
| Access.ShareLinkOpensDashboard | app_vercel.py:325-328 | the share page offers the dashboard link exactly to the requests the dashboard admits |
| Access.SecretHolderAdmitted | app_vercel.py:344-346 | the holder of the secret gets the link and the dashboard; any other secret is refused |
| Access.NewPollOpenForADay | app_vercel.py:189-190 | a new poll's page redirects to the results exactly when the request comes more than 24 hours after its creation |
| Access.CreatorOwnsNewPoll | app_vercel.py:163-174 | after a creation, the secret in the redirect opens the share link and the dashboard of the new poll, and no other secret does |

## Left out

- HTTP layer: routing, templates, redirects and cookie attributes are not modelled. The cookie token and the form fields are inputs.
- Database plumbing is not modelled: connections, schema creation, the `ALTER TABLE` migrations and the `OperationalError` fallbacks. The one exception is `Voting.CommitVote`, which models a failing insight step as a boolean.
- `uuid` tokens and secrets are parameters. Their freshness is a precondition of the lemmas that need it.
- The MD5 device hash and the client address are opaque strings that are stored and never interpreted.
- The clock and ISO timestamp parsing are replaced by integer time. The expiry is `now + 86400` seconds.
- socket.io events, QR code images, the dashboard's vote timeline and the `og_description` text are transport or presentation, and are not modelled.
- `results_view` and `api_results` only render `poll_results` and the latest insight. `poll_results` is modelled; the two views are not.
- Concurrency is not modelled: the model is sequential, so the check-then-insert races on votes and on the insight flag do not arise.
- A submitted option id is modelled as a number or absent. A value that is not a number matches no option, like an unknown id.
- `Results.PollResults`: the rounding is any function within half a tenth, not Python's float `round`. Which way a tie goes is not stated.
- `Insights.DistributionBands`: the gap is computed exactly in tenths. Python subtracts two rounded floats, which could differ by float error right at a 10.0 or 30.0 gap.
- `Insights.SortByCount`: stability (equal counts keep their order) is part of the definition but not stated as a separate property. The head of the sort is proved to be the first maximum, which is what the distribution clause needs.
- `Insights.InsightText`: Python's float formatting is modelled only for shares in tenths (`70.0`, `33.3`, `100.0`).
- `Voting.SetInsightsFlag` has no row of its own: its contract only restates the update, and `Voting.SetInsightsFlagTargets` states what the update means for lookups.
- `Text.Strip`: whitespace is Python's `str.isspace` set of code points. Other Unicode handling is not modelled.

## Findings

| source | as written | input that shows it | evidently intended | confidence | as-written member | corrected member |
|---|---|---|---|---|---|---|
| app_vercel.py:16-19, 114-115, 216-234 | `poll_results` opens its own connection while the vote is still uncommitted on the handler's, so the insight step summarises the votes before this one | an unflagged poll with 19 votes gets its 20th vote: the count on the handler's connection is 20, but the results read total 19, so no insight is stored and the flag stays unset; the next vote stores an insight of the first 20 votes only | as in `app.py`, the 20th vote stores the insight of all 20 votes | medium, not executed | Voting.ServerlessMissesThreshold | Voting.InsightOnThreshold |
