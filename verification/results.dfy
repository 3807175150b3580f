/**
 * Results aggregation: for one poll, the options in query order with their
 * vote counts, the total, and each option's share of the total rounded to
 * one decimal place. Shares are kept as whole tenths of a percent
 * (70.0% is 700), so no floating point is needed.
 */
module Results {
  import opened Base
  import opened Store

  /** One result line: option text, its vote count, its id, and its share in tenths of a percent. */
  datatype ResultRow = ResultRow(text: string, count: nat, optionId: nat, pct: nat)

  /** What the aggregation returns: the lines and the total vote count. */
  datatype Tally = Tally(rows: seq<ResultRow>, total: nat)

  /** A rounding of `count * 100 / total` to tenths of a percent. */
  type Rounding = (nat, nat) -> nat

  /** `p` tenths is within half a tenth of the exact share, that is `|p/1000 - count/total| <= 1/2000`. */
  predicate WithinHalfTenth(p: nat, count: nat, total: nat) {
    2 * Dist(p * total, 1000 * count) <= total
  }

  /**
   * A rounding to one decimal place: never more than half a tenth away from
   * the exact share. Which way a tie goes is deliberately left open.
   */
  ghost predicate IsTenthsRounding(round: Rounding) {
    forall c: nat, t: nat :: 0 < t && c <= t ==> WithinHalfTenth(round(c, t), c, t)
  }

  /** Rounding half up: one of the roundings the description above allows. */
  function HalfUp(count: nat, total: nat): nat {
    if total == 0 then 0 else (2000 * count + total) / (2 * total)
  }

  lemma HalfUpIsTenthsRounding()
    ensures IsTenthsRounding(HalfUp)
  {
    forall c: nat, t: nat | 0 < t && c <= t ensures WithinHalfTenth(HalfUp(c, t), c, t) {
      var n, m := 2000 * c + t, 2 * t;
      var q, r := n / m, n % m;
      assert m * q + r == n;
      assert 0 <= r < m;
      assert m * q == 2 * (q * t);
      assert 2 * (q * t) - 2000 * c == t - r;
    }
  }

  lemma MulMonotone(a: nat, b: nat, t: nat)
    requires a <= b
    ensures a * t <= b * t
  {
  }

  /** A share rounded to tenths never exceeds 100.0%. */
  lemma PercentAtMost1000(p: nat, c: nat, t: nat)
    requires 0 < t && c <= t && WithinHalfTenth(p, c, t)
    ensures p <= 1000
  {
    if p > 1000 {
      MulMonotone(1001, p, t);
    }
  }

  /**
   * Any allowed rounding gives 0.0% for no votes and 100.0% for all of
   * them, and reproduces the figures 70.0/30.0 for counts 7 and 3, and
   * 33.3 for each of three single votes.
   */
  lemma RoundingExamples(round: Rounding)
    requires IsTenthsRounding(round)
    ensures forall t: nat :: 0 < t ==> round(0, t) == 0 && round(t, t) == 1000
    ensures round(7, 10) == 700 && round(3, 10) == 300
    ensures round(1, 3) == 333
  {
    forall t: nat | 0 < t ensures round(0, t) == 0 && round(t, t) == 1000 {
      var z, f := round(0, t), round(t, t);
      assert WithinHalfTenth(z, 0, t);
      if z > 0 { MulMonotone(1, z, t); }
      assert WithinHalfTenth(f, t, t);
      if f > 1000 { MulMonotone(1001, f, t); }
      if f < 1000 { MulMonotone(f, 999, t); }
    }
    assert WithinHalfTenth(round(7, 10), 7, 10);
    assert WithinHalfTenth(round(3, 10), 3, 10);
    assert WithinHalfTenth(round(1, 3), 1, 3);
  }

  function SumCounts(rows: seq<ResultRow>): nat {
    if |rows| == 0 then 0 else rows[0].count + SumCounts(rows[1..])
  }

  lemma CountAtMostSum(rows: seq<ResultRow>, k: nat)
    requires k < |rows|
    ensures rows[k].count <= SumCounts(rows)
  {
    if k > 0 {
      CountAtMostSum(rows[1..], k - 1);
    }
  }

  /** The counting half of the aggregation: one line per option, shares not yet computed. */
  function CountRows(opts: seq<OptionRow>, votes: seq<VoteRow>): (rows: seq<ResultRow>)
    ensures |rows| == |opts|
  {
    seq(|opts|, k requires 0 <= k < |opts| => ResultRow(opts[k].text, CountOptionVotes(votes, opts[k].id), opts[k].id, 0))
  }

  /** The share half: every line's percentage from its count and the total. */
  function WithPercent(rows: seq<ResultRow>, total: nat, round: Rounding): (r: seq<ResultRow>)
    ensures |r| == |rows|
  {
    seq(|rows|, k requires 0 <= k < |rows| => rows[k].(pct := if total > 0 then round(rows[k].count, total) else 0))
  }

  /**
   * `poll_results`: the options of the poll in query order, each with its
   * vote count and rounded share, and the total of the counts.
   */
  function PollResults(st: Store, pollId: nat, round: Rounding): (res: Tally)
    requires IsTenthsRounding(round)
    ensures |res.rows| == |OptionsOf(st.options, pollId)|
    ensures forall k :: 0 <= k < |res.rows| ==>
      var o := OptionsOf(st.options, pollId)[k];
      res.rows[k].text == o.text && res.rows[k].optionId == o.id
        && res.rows[k].count == CountOptionVotes(st.votes, o.id)
    ensures res.total == SumCounts(res.rows)
    ensures res.total > 0 ==> |res.rows| > 0
    ensures res.total == 0 ==> forall k :: 0 <= k < |res.rows| ==> res.rows[k].pct == 0
    ensures res.total > 0 ==> forall k :: 0 <= k < |res.rows| ==>
      WithinHalfTenth(res.rows[k].pct, res.rows[k].count, res.total) && res.rows[k].pct <= 1000
  {
    var counted := CountRows(OptionsOf(st.options, pollId), st.votes);
    var total := SumCounts(counted);
    var rows := WithPercent(counted, total, round);
    assert SumCounts(rows) == total by { SumIgnoresPercent(counted, total, round); }
    forall k | 0 <= k < |rows| && total > 0
      ensures WithinHalfTenth(rows[k].pct, rows[k].count, total) && rows[k].pct <= 1000
    {
      CountAtMostSum(counted, k);
      PercentAtMost1000(rows[k].pct, rows[k].count, total);
    }
    Tally(rows, total)
  }

  lemma {:induction false} SumIgnoresPercent(rows: seq<ResultRow>, total: nat, round: Rounding)
    ensures SumCounts(WithPercent(rows, total, round)) == SumCounts(rows)
    decreases |rows|
  {
    if |rows| > 0 {
      assert WithPercent(rows, total, round)[1..] == WithPercent(rows[1..], total, round);
      SumIgnoresPercent(rows[1..], total, round);
    }
  }

  // ----- Conservation: the total is the number of vote rows of the poll -----

  predicate HasId(opts: seq<OptionRow>, id: nat) {
    exists k :: 0 <= k < |opts| && opts[k].id == id
  }

  ghost predicate IncreasingIds(opts: seq<OptionRow>) {
    forall i, j :: 0 <= i < j < |opts| ==> opts[i].id < opts[j].id
  }

  /** Sum over the options of their vote counts. */
  function OptionTotal(opts: seq<OptionRow>, votes: seq<VoteRow>): nat {
    if |opts| == 0 then 0 else CountOptionVotes(votes, opts[0].id) + OptionTotal(opts[1..], votes)
  }

  lemma {:induction false} CountRowsSum(opts: seq<OptionRow>, votes: seq<VoteRow>)
    ensures SumCounts(CountRows(opts, votes)) == OptionTotal(opts, votes)
    decreases |opts|
  {
    if |opts| > 0 {
      assert CountRows(opts, votes)[1..] == CountRows(opts[1..], votes);
      CountRowsSum(opts[1..], votes);
    }
  }

  /** One more vote adds one to the option total exactly when it names one of the options. */
  lemma {:induction false} OptionTotalAppend(opts: seq<OptionRow>, votes: seq<VoteRow>, v: VoteRow)
    requires IncreasingIds(opts)
    ensures OptionTotal(opts, votes + [v]) == OptionTotal(opts, votes) + (if HasId(opts, v.optionId) then 1 else 0)
    decreases |opts|
  {
    assert (votes + [v])[..|votes|] == votes;
    if |opts| > 0 {
      OptionTotalAppend(opts[1..], votes, v);
      if opts[0].id == v.optionId {
        assert !HasId(opts[1..], v.optionId) by {
          forall k | 0 <= k < |opts[1..]| ensures opts[1..][k].id != v.optionId {
            assert opts[1..][k] == opts[k + 1];
          }
        }
      } else {
        assert HasId(opts, v.optionId) <==> HasId(opts[1..], v.optionId) by {
          if HasId(opts, v.optionId) {
            var k :| 0 <= k < |opts| && opts[k].id == v.optionId;
            assert opts[1..][k - 1] == opts[k];
          }
          if HasId(opts[1..], v.optionId) {
            var k :| 0 <= k < |opts[1..]| && opts[1..][k].id == v.optionId;
            assert opts[k + 1] == opts[1..][k];
          }
        }
      }
    }
  }

  /**
   * When exactly the votes of poll `p` name one of `opts`, the counts of
   * `opts` add up to the number of votes of `p`.
   */
  lemma {:induction false} OptionTotalIsPollCount(opts: seq<OptionRow>, votes: seq<VoteRow>, p: nat)
    requires IncreasingIds(opts)
    requires forall k :: 0 <= k < |votes| ==> (votes[k].pollId == p <==> HasId(opts, votes[k].optionId))
    ensures OptionTotal(opts, votes) == CountPollVotes(votes, p)
    decreases |votes|
  {
    if |votes| == 0 {
      if |opts| > 0 {
        OptionTotalNoVotes(opts);
      }
    } else {
      var init, v := votes[..|votes| - 1], votes[|votes| - 1];
      assert votes == init + [v];
      OptionTotalIsPollCount(opts, init, p);
      OptionTotalAppend(opts, init, v);
    }
  }

  lemma {:induction false} OptionTotalNoVotes(opts: seq<OptionRow>)
    ensures OptionTotal(opts, []) == 0
    decreases |opts|
  {
    if |opts| > 0 {
      OptionTotalNoVotes(opts[1..]);
    }
  }

  /** Filtering keeps identifiers increasing. */
  lemma {:induction false} OptionsOfIncreasing(options: seq<OptionRow>, pollId: nat)
    requires IncreasingIds(options)
    ensures IncreasingIds(OptionsOf(options, pollId))
    decreases |options|
  {
    if |options| > 0 {
      var rest := OptionsOf(options[1..], pollId);
      OptionsOfIncreasing(options[1..], pollId);
      forall o | o in rest ensures options[0].id < o.id {
        assert o in options[1..];
        var j :| 0 <= j < |options[1..]| && options[1..][j] == o;
        assert options[j + 1] == o;
      }
    }
  }

  /** In a valid store, a vote belongs to a poll exactly when its option is one of the poll's options. */
  lemma VotesFollowOptions(st: Store, pollId: nat)
    requires Valid(st)
    ensures var opts := OptionsOf(st.options, pollId);
      forall k :: 0 <= k < |st.votes| ==> (st.votes[k].pollId == pollId <==> HasId(opts, st.votes[k].optionId))
  {
    var opts := OptionsOf(st.options, pollId);
    forall k | 0 <= k < |st.votes|
      ensures st.votes[k].pollId == pollId <==> HasId(opts, st.votes[k].optionId)
    {
      var v := st.votes[k];
      assert VoteWellFormed(st, k);
      var o := st.options[v.optionId - 1];
      if v.pollId == pollId {
        assert o in opts;
        var j :| 0 <= j < |opts| && opts[j] == o;
      }
      if HasId(opts, v.optionId) {
        var j :| 0 <= j < |opts| && opts[j].id == v.optionId;
        assert opts[j] in st.options;
        var i :| 0 <= i < |st.options| && st.options[i] == opts[j];
      }
    }
  }

  /**
   * Conservation: in a valid store the total reported for a poll is the
   * number of vote rows recorded for it.
   */
  lemma Conservation(st: Store, pollId: nat, round: Rounding)
    requires Valid(st) && IsTenthsRounding(round)
    ensures PollResults(st, pollId, round).total == CountPollVotes(st.votes, pollId)
  {
    var opts := OptionsOf(st.options, pollId);
    OptionsOfIncreasing(st.options, pollId);
    VotesFollowOptions(st, pollId);
    OptionTotalIsPollCount(opts, st.votes, pollId);
    CountRowsSum(opts, st.votes);
    SumIgnoresPercent(CountRows(opts, st.votes), SumCounts(CountRows(opts, st.votes)), round);
  }
}
