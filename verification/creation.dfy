/**
 * Poll creation: the options come from auto-splitting the question, or
 * else from the numbered option fields; a poll is stored only with 2 to 4
 * options and a question of 1 to 120 characters.
 */
module Creation {
  import opened Base
  import opened Text
  import opened AutoSplit
  import opened Store

  const MinOptions: nat := 2
  const MaxOptions: nat := 4
  const MaxQuestionLength: nat := 120

  /** A poll stays open for 24 hours after creation. */
  const PollLifetime: int := 24 * 60 * 60

  /**
   * The creation form. `numOptions` is None when the field is absent or
   * not an integer; `optionFields` maps i to the field `option<i>`.
   */
  datatype CreateForm = CreateForm(
    question: Option<string>,
    hideResults: bool,
    numOptions: Option<int>,
    optionFields: map<nat, string>)

  datatype CreateError = MissingQuestion | OptionCountOutOfRange | QuestionLengthOutOfRange

  datatype CreateOutcome = Created(pollId: nat, secret: Token) | Rejected(error: CreateError)

  datatype CreateStep = CreateStep(store: Store, outcome: CreateOutcome)

  /** The requested number of option fields, clamped to [2, 4]; 2 when absent or not a number. */
  function ClampOptionCount(requested: Option<int>): (n: nat)
    ensures MinOptions <= n <= MaxOptions
    ensures requested.None? ==> n == 2
    ensures requested.Some? ==>
      forall m :: MinOptions <= m <= MaxOptions ==> Dist(n, requested.value) <= Dist(m, requested.value)
  {
    match requested
    case None => 2
    case Some(k) => if k < MinOptions then MinOptions else if k > MaxOptions then MaxOptions else k
  }

  /** `request.form.get(f"option{i}") or ""` */
  function FieldValue(fields: map<nat, string>, i: nat): string {
    if i in fields then fields[i] else []
  }

  /** The stripped values of the fields `option1` .. `option<n>`. */
  function FieldValues(fields: map<nat, string>, n: nat): (vs: seq<string>)
    ensures |vs| == n
    ensures forall k :: 0 <= k < n ==> IsStripped(vs[k])
  {
    seq(n, k requires 0 <= k < n => Strip(FieldValue(fields, k + 1)))
  }

  /** The non-blank values, in their original order. */
  function NonBlank(values: seq<string>): (opts: seq<string>)
    ensures |opts| <= |values|
    ensures forall x :: x in opts <==> x in values && x != []
  {
    if values == [] then []
    else
      var prev := NonBlank(values[..|values| - 1]);
      var v := values[|values| - 1];
      assert values == values[..|values| - 1] + [v];
      if v == [] then prev else prev + [v]
  }

  /** The stripped non-empty values of `option1` .. `option<n>`, in order. */
  function ManualOptions(fields: map<nat, string>, n: nat): (opts: seq<string>)
    ensures |opts| <= n
    ensures forall x :: x in opts <==> x in FieldValues(fields, n) && x != []
    ensures forall k :: 0 <= k < |opts| ==> opts[k] != [] && IsStripped(opts[k])
  {
    var vs := FieldValues(fields, n);
    var opts := NonBlank(vs);
    forall k | 0 <= k < |opts| ensures opts[k] != [] && IsStripped(opts[k]) {
      assert opts[k] in opts;
      var j :| 0 <= j < |vs| && vs[j] == opts[k];
    }
    opts
  }

  /** A single value is kept exactly when it is not blank. */
  lemma NonBlankOne(x: string)
    ensures NonBlank([x]) == if x == [] then [] else [x]
  {
    assert [x][..0] == [];
  }

  /**
   * The filter keeps order and multiplicity: filtering two runs of values
   * one after the other is filtering each run, in order.
   */
  lemma {:induction false} NonBlankAppend(a: seq<string>, b: seq<string>)
    ensures NonBlank(a + b) == NonBlank(a) + NonBlank(b)
    decreases |b|
  {
    if b == [] {
      assert a + b == a;
    } else {
      var init := b[..|b| - 1];
      assert (a + b)[..|a + b| - 1] == a + init;
      assert (a + b)[|a + b| - 1] == b[|b| - 1];
      NonBlankAppend(a, init);
    }
  }

  /** No option fields, no manual options. */
  lemma ManualOptionsNone(fields: map<nat, string>)
    ensures ManualOptions(fields, 0) == []
  {
  }

  /**
   * Reading one more field appends its stripped value when that is
   * non-empty, and changes nothing otherwise.
   */
  lemma ManualOptionsStep(fields: map<nat, string>, n: nat)
    ensures var v := Strip(FieldValue(fields, n + 1));
      ManualOptions(fields, n + 1) == ManualOptions(fields, n) + (if v == [] then [] else [v])
  {
    var vs := FieldValues(fields, n + 1);
    assert vs[..n] == FieldValues(fields, n);
    assert vs == vs[..n] + [vs[n]];
    NonBlankAppend(vs[..n], [vs[n]]);
    NonBlankOne(vs[n]);
  }

  /** Two fields with the same text give that option twice. */
  lemma RepeatedFieldKept(fields: map<nat, string>, x: string)
    requires 1 in fields && 2 in fields && fields[1] == x && fields[2] == x
    requires x != [] && IsStripped(x)
    ensures ManualOptions(fields, 2) == [x, x]
  {
    StripStripped(x);
    ManualOptionsNone(fields);
    ManualOptionsStep(fields, 0);
    ManualOptionsStep(fields, 1);
  }

  /** The options a creation request asks for: the auto-split ones take precedence. */
  function ChooseOptions(question: string, form: CreateForm): (opts: seq<string>)
    ensures forall k :: 0 <= k < |opts| ==> opts[k] != [] && IsStripped(opts[k])
    ensures AutoSplitOptions(question).Some? ==> opts == AutoSplitOptions(question).value
    ensures AutoSplitOptions(question).None? ==> opts == ManualOptions(form.optionFields, ClampOptionCount(form.numOptions))
  {
    match AutoSplitOptions(question)
    case Some(parts) => parts
    case None => ManualOptions(form.optionFields, ClampOptionCount(form.numOptions))
  }

  /** The validated content of a creation form, or why it was refused. */
  datatype Checked = Accepted(question: string, options: seq<string>) | Refused(error: CreateError)

  /**
   * The checks `create_poll` makes, in its order: a question must be
   * present, then the option count is checked before the question length.
   */
  function CheckForm(form: CreateForm): (c: Checked)
    ensures c.Accepted? <==>
      && form.question.Some?
      && MinOptions <= |ChooseOptions(Strip(form.question.value), form)| <= MaxOptions
      && 1 <= |Strip(form.question.value)| <= MaxQuestionLength
    ensures c.Accepted? ==>
      c.question == Strip(form.question.value) && c.options == ChooseOptions(c.question, form)
    ensures c.Refused? ==>
      && (c.error == MissingQuestion <==> form.question.None?)
      && (c.error == OptionCountOutOfRange <==>
            form.question.Some? && !(MinOptions <= |ChooseOptions(Strip(form.question.value), form)| <= MaxOptions))
  {
    match form.question
    case None => Refused(MissingQuestion)
    case Some(raw) =>
      var q := Strip(raw);
      var opts := ChooseOptions(q, form);
      if !(MinOptions <= |opts| <= MaxOptions) then Refused(OptionCountOutOfRange)
      else if |q| == 0 || |q| > MaxQuestionLength then Refused(QuestionLengthOutOfRange)
      else Accepted(q, opts)
  }

  /** Option rows for a new poll, with consecutive identifiers from `firstId`. */
  function NewOptionRows(texts: seq<string>, pollId: nat, firstId: nat): (rows: seq<OptionRow>)
    ensures |rows| == |texts|
    ensures forall k :: 0 <= k < |rows| ==> rows[k].id == firstId + k && rows[k].pollId == pollId && rows[k].text == texts[k]
  {
    seq(|texts|, k requires 0 <= k < |texts| => OptionRow(firstId + k, pollId, texts[k]))
  }

  /** The poll row and option rows inserted in one transaction. */
  function AddPoll(st: Store, question: string, options: seq<string>, hideResults: bool, now: Time, secret: Token): (r: Store)
    ensures |r.polls| == |st.polls| + 1 && r.polls[..|st.polls|] == st.polls
    ensures r.polls[|st.polls|] == PollRow(|st.polls| + 1, question, now + PollLifetime, hideResults, secret, now, false)
    ensures |r.options| == |st.options| + |options| && r.options[..|st.options|] == st.options
    ensures forall k :: 0 <= k < |options| ==>
      r.options[|st.options| + k] == OptionRow(|st.options| + k + 1, |st.polls| + 1, options[k])
    ensures r.votes == st.votes && r.insights == st.insights
  {
    var id := |st.polls| + 1;
    var poll := PollRow(id, question, now + PollLifetime, hideResults, secret, now, false);
    st.(polls := st.polls + [poll], options := st.options + NewOptionRows(options, id, |st.options| + 1))
  }

  /**
   * `create_poll` on POST: validate, then store the poll and its options
   * together. `secret` is the freshly minted creator secret.
   */
  function CreatePoll(st: Store, form: CreateForm, now: Time, secret: Token): (r: CreateStep)
    ensures CheckForm(form).Refused? ==> r == CreateStep(st, Rejected(CheckForm(form).error))
    ensures CheckForm(form).Accepted? ==>
      var c := CheckForm(form);
      r == CreateStep(AddPoll(st, c.question, c.options, form.hideResults, now, secret), Created(|st.polls| + 1, secret))
  {
    match CheckForm(form)
    case Refused(e) => CreateStep(st, Rejected(e))
    case Accepted(q, opts) =>
      CreateStep(AddPoll(st, q, opts, form.hideResults, now, secret), Created(|st.polls| + 1, secret))
  }

  /** Appending rows that all belong to a new poll leaves an existing poll's options alone. */
  lemma OptionsOfOtherPoll(prior: seq<OptionRow>, added: seq<OptionRow>, newId: nat, pollId: nat)
    requires forall k :: 0 <= k < |added| ==> added[k].pollId == newId
    requires pollId != newId
    ensures OptionsOf(prior + added, pollId) == OptionsOf(prior, pollId)
  {
    OptionsOfAppend(prior, added, pollId);
    OptionsOfNone(added, pollId);
  }

  /** Appending rows for a poll no earlier row mentions gives that poll exactly those rows. */
  lemma OptionsOfNewPoll(prior: seq<OptionRow>, added: seq<OptionRow>, newId: nat)
    requires forall k :: 0 <= k < |added| ==> added[k].pollId == newId
    requires forall k :: 0 <= k < |prior| ==> prior[k].pollId != newId
    ensures OptionsOf(prior + added, newId) == added
  {
    OptionsOfAppend(prior, added, newId);
    OptionsOfNone(prior, newId);
    OptionsOfAll(added, newId);
  }

  lemma AddPollKeepsOptionCounts(st: Store, question: string, options: seq<string>, hideResults: bool, now: Time, secret: Token)
    requires IdsDense(st) && RefsInRange(st) && OptionCounts(st)
    requires MinOptions <= |options| <= MaxOptions
    ensures OptionCounts(AddPoll(st, question, options, hideResults, now, secret))
    ensures OptionsOf(AddPoll(st, question, options, hideResults, now, secret).options, |st.polls| + 1)
         == NewOptionRows(options, |st.polls| + 1, |st.options| + 1)
  {
    var st' := AddPoll(st, question, options, hideResults, now, secret);
    var id := |st.polls| + 1;
    var added := NewOptionRows(options, id, |st.options| + 1);
    assert st'.options == st.options + added;
    OptionsOfNewPoll(st.options, added, id);
    forall i | 0 <= i < |st'.polls|
      ensures 2 <= |OptionsOf(st'.options, st'.polls[i].id)| <= 4
    {
      if i < |st.polls| {
        assert st'.polls[i] == st.polls[i];
        OptionsOfOtherPoll(st.options, added, id, i + 1);
      }
    }
  }

  lemma AddPollPreservesValid(st: Store, question: string, options: seq<string>, hideResults: bool, now: Time, secret: Token)
    requires Valid(st)
    requires MinOptions <= |options| <= MaxOptions
    ensures Valid(AddPoll(st, question, options, hideResults, now, secret))
  {
    var st' := AddPoll(st, question, options, hideResults, now, secret);
    AddPollKeepsOptionCounts(st, question, options, hideResults, now, secret);
    AddPollKeepsInsightFlags(st, question, options, hideResults, now, secret);
    assert forall i :: 0 <= i < |st.options| ==> st'.options[i] == st.options[i];
    VotesSurviveGrowth(st, st');
  }

  lemma AddPollKeepsInsightFlags(st: Store, question: string, options: seq<string>, hideResults: bool, now: Time, secret: Token)
    requires RefsInRange(st) && InsightFlags(st)
    ensures InsightFlags(AddPoll(st, question, options, hideResults, now, secret))
  {
    var st' := AddPoll(st, question, options, hideResults, now, secret);
    assert forall i :: 0 <= i < |st.polls| ==> st'.polls[i] == st.polls[i];
    CountInsightsNone(st.insights, |st.polls| + 1);
  }

  /**
   * Creation keeps the store valid; a refused form changes nothing; and
   * the new poll's options, read back in query order, are exactly the
   * chosen texts.
   */
  lemma CreatePreservesValid(st: Store, form: CreateForm, now: Time, secret: Token)
    requires Valid(st)
    ensures var r := CreatePoll(st, form, now, secret);
      && Valid(r.store)
      && (r.outcome.Rejected? ==> r.store == st)
      && (r.outcome.Created? ==>
            var opts := OptionsOf(r.store.options, r.outcome.pollId);
            var texts := CheckForm(form).options;
            |opts| == |texts| && forall k :: 0 <= k < |opts| ==> opts[k].text == texts[k])
  {
    var c := CheckForm(form);
    var r := CreatePoll(st, form, now, secret);
    if c.Accepted? {
      var st' := AddPoll(st, c.question, c.options, form.hideResults, now, secret);
      assert r == CreateStep(st', Created(|st.polls| + 1, secret));
      AddPollPreservesValid(st, c.question, c.options, form.hideResults, now, secret);
      AddPollKeepsOptionCounts(st, c.question, c.options, form.hideResults, now, secret);
      var rows := NewOptionRows(c.options, |st.polls| + 1, |st.options| + 1);
      assert OptionsOf(r.store.options, r.outcome.pollId) == rows;
      assert forall k :: 0 <= k < |rows| ==> rows[k].text == c.options[k];
    } else {
      assert r.store == st;
    }
  }
}
