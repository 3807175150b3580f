/**
 * Insight generation: once a poll has at least 20 votes, a short summary
 * made of up to three clauses — how clear the lead is, how many took
 * part, and how far apart the top two options are.
 */
module Insights {
  import opened Base
  import opened Text
  import opened Results

  /** No insight below this many votes. */
  const InsightThreshold: nat := 20

  /** The clauses of an insight; shares are in tenths of a percent. */
  datatype Clause =
    | ClearWinner(winner: string, pct: nat)
    | CloseRace(winner: string, pct: nat)
    | ModerateLead(winner: string, pct: nat)
    | HighEngagement(total: nat)
    | GoodParticipation(total: nat)
    | VeryCompetitive
    | DecisiveOutcome
  {
    /** Position of the clause's kind in an insight: margin, participation, distribution. */
    function Rank(): nat {
      match this
      case ClearWinner(_, _) => 0
      case CloseRace(_, _) => 0
      case ModerateLead(_, _) => 0
      case HighEngagement(_) => 1
      case GoodParticipation(_) => 1
      case VeryCompetitive => 2
      case DecisiveOutcome => 2
    }
  }

  /**
   * `max(results, key=count)`: the index of the first line with the
   * largest count, found by one left-to-right scan.
   */
  function WinnerIndex(rows: seq<ResultRow>): (w: nat)
    requires |rows| > 0
    ensures w < |rows|
    ensures forall k :: 0 <= k < |rows| ==> rows[k].count <= rows[w].count
    ensures forall k :: 0 <= k < w ==> rows[k].count < rows[w].count
  {
    if |rows| == 1 then 0
    else
      var w := WinnerIndex(rows[..|rows| - 1]);
      if rows[|rows| - 1].count > rows[w].count then |rows| - 1 else w
  }

  ghost predicate DescendingByCount(s: seq<ResultRow>) {
    forall i, j :: 0 <= i < j < |s| ==> s[i].count >= s[j].count
  }

  /** Puts `x` in front of the first line whose count does not exceed its own. */
  function InsertByCount(x: ResultRow, s: seq<ResultRow>): (r: seq<ResultRow>)
    requires DescendingByCount(s)
    ensures |r| == |s| + 1
    ensures multiset(r) == multiset(s) + multiset{x}
    ensures DescendingByCount(r)
  {
    if |s| == 0 || s[0].count <= x.count then [x] + s
    else
      var tail := InsertByCount(x, s[1..]);
      assert s == [s[0]] + s[1..];
      HeadBoundsTail(s[0], x, s[1..], tail);
      ConsDescending(s[0], tail);
      [s[0]] + tail
  }

  /** A line at least as large as every line of a descending list can go in front of it. */
  lemma ConsDescending(head: ResultRow, tail: seq<ResultRow>)
    requires DescendingByCount(tail)
    requires forall j :: 0 <= j < |tail| ==> tail[j].count <= head.count
    ensures DescendingByCount([head] + tail)
  {
    var r := [head] + tail;
    assert forall i :: 0 < i < |r| ==> r[i] == tail[i - 1];
  }

  /** A line at least as large as `x` and as every line of `s` bounds every line of an arrangement of `s` and `x`. */
  lemma HeadBoundsTail(head: ResultRow, x: ResultRow, s: seq<ResultRow>, tail: seq<ResultRow>)
    requires x.count <= head.count
    requires forall i :: 0 <= i < |s| ==> s[i].count <= head.count
    requires multiset(tail) == multiset(s) + multiset{x}
    ensures forall j :: 0 <= j < |tail| ==> tail[j].count <= head.count
  {
    forall j | 0 <= j < |tail| ensures tail[j].count <= head.count {
      var y := tail[j];
      assert y in multiset(tail);
      if y != x {
        assert y in multiset(s);
        var i :| 0 <= i < |s| && s[i] == y;
      }
    }
  }

  /**
   * `sorted(results, key=count, reverse=True)`: a stable sort, largest
   * count first; lines with equal counts keep their order.
   */
  function SortByCount(rows: seq<ResultRow>): (r: seq<ResultRow>)
    ensures |r| == |rows|
    ensures multiset(r) == multiset(rows)
    ensures DescendingByCount(r)
  {
    if |rows| == 0 then []
    else
      assert rows == [rows[0]] + rows[1..];
      InsertByCount(rows[0], SortByCount(rows[1..]))
  }

  /** `i` is the first index holding the largest count. */
  ghost predicate IsFirstMax(rows: seq<ResultRow>, i: nat) {
    && i < |rows|
    && (forall k :: 0 <= k < |rows| ==> rows[k].count <= rows[i].count)
    && (forall k :: 0 <= k < i ==> rows[k].count < rows[i].count)
  }

  /** The sorted list starts with the line `max` picks as the winner. */
  lemma SortHeadIsWinner(rows: seq<ResultRow>)
    requires |rows| > 0
    ensures SortByCount(rows)[0] == rows[WinnerIndex(rows)]
  {
    var i := SortHeadIsFirstMax(rows);
  }

  /** The head of the sort of a non-empty list is its first line or the head of the sort of the rest, whichever counts more (the first line on a tie). */
  lemma SortHead(rows: seq<ResultRow>)
    requires |rows| > 1
    ensures var s := SortByCount(rows[1..]);
      SortByCount(rows)[0] == if s[0].count <= rows[0].count then rows[0] else s[0]
  {
    var s := SortByCount(rows[1..]);
    assert SortByCount(rows) == InsertByCount(rows[0], s);
  }

  /** The first index with the largest count of `rows`, given that of `rows[1..]`. */
  lemma FirstMaxStep(rows: seq<ResultRow>, j: nat) returns (i: nat)
    requires |rows| > 1 && IsFirstMax(rows[1..], j)
    ensures IsFirstMax(rows, i)
    ensures i == if rows[j + 1].count <= rows[0].count then 0 else j + 1
  {
    var rest := rows[1..];
    assert forall k :: 0 < k < |rows| ==> rows[k] == rest[k - 1];
    i := if rows[j + 1].count <= rows[0].count then 0 else j + 1;
  }

  lemma {:induction false} SortHeadIsFirstMax(rows: seq<ResultRow>) returns (i: nat)
    requires |rows| > 0
    ensures IsFirstMax(rows, i) && SortByCount(rows)[0] == rows[i]
    decreases |rows|
  {
    if |rows| == 1 {
      i := 0;
    } else {
      var j := SortHeadIsFirstMax(rows[1..]);
      assert rows[1..][j] == rows[j + 1];
      SortHead(rows);
      i := FirstMaxStep(rows, j);
    }
  }

  /** The margin clause, from the winner's share. */
  function Margin(winner: ResultRow): Clause {
    if winner.pct > 600 then ClearWinner(winner.text, winner.pct)
    else if winner.pct < 350 then CloseRace(winner.text, winner.pct)
    else ModerateLead(winner.text, winner.pct)
  }

  /** The participation clause, from the total. */
  function Participation(total: nat): Option<Clause> {
    if total >= 50 then Some(HighEngagement(total))
    else if total >= 30 then Some(GoodParticipation(total))
    else None
  }

  /** Difference of the top two shares after the stable sort by count. */
  function TopGap(rows: seq<ResultRow>): int
    requires |rows| >= 2
  {
    var sorted := SortByCount(rows);
    sorted[0].pct - sorted[1].pct
  }

  /** The distribution clause, from the gap between the top two shares. */
  function Distribution(rows: seq<ResultRow>): Option<Clause> {
    if |rows| < 2 then None
    else if TopGap(rows) < 100 then Some(VeryCompetitive)
    else if TopGap(rows) > 300 then Some(DecisiveOutcome)
    else None
  }

  function OptionToSeq<T>(o: Option<T>): seq<T> {
    match o
    case None => []
    case Some(v) => [v]
  }

  /**
   * `generate_insights`: no insight below the threshold; otherwise the
   * margin clause, then the participation and distribution clauses when
   * they apply.
   */
  function GenerateInsights(rows: seq<ResultRow>, total: nat): (r: Option<seq<Clause>>)
    requires total >= InsightThreshold ==> |rows| > 0
    ensures r.None? <==> total < InsightThreshold
    ensures r.Some? ==> 1 <= |r.value| <= 3
    ensures r.Some? ==> forall i, j :: 0 <= i < j < |r.value| ==> r.value[i].Rank() < r.value[j].Rank()
    ensures r.Some? ==>
      && r.value[0].Rank() == 0
      && r.value[0].winner == rows[WinnerIndex(rows)].text
      && r.value[0].pct == rows[WinnerIndex(rows)].pct
  {
    if total < InsightThreshold then None
    else
      var winner := rows[WinnerIndex(rows)];
      Some([Margin(winner)] + OptionToSeq(Participation(total)) + OptionToSeq(Distribution(rows)))
  }

  /**
   * The margin clause bands: above 60.0% a clear winner, below 35.0% a close
   * race, and from 35.0% to 60.0% inclusive a moderate lead.
   */
  lemma MarginBands(rows: seq<ResultRow>, total: nat)
    requires total >= InsightThreshold && |rows| > 0
    ensures var cs := GenerateInsights(rows, total).value;
      var p := rows[WinnerIndex(rows)].pct;
      && (cs[0].ClearWinner? <==> p > 600)
      && (cs[0].CloseRace? <==> p < 350)
      && (cs[0].ModerateLead? <==> 350 <= p <= 600)
  {
  }

  /** The participation clause: present from 30 votes, "high engagement" from 50, citing the total. */
  lemma ParticipationBands(rows: seq<ResultRow>, total: nat)
    requires total >= InsightThreshold && |rows| > 0
    ensures var cs := GenerateInsights(rows, total).value;
      && ((exists i :: 0 <= i < |cs| && cs[i].Rank() == 1) <==> total >= 30)
      && ((exists i :: 0 <= i < |cs| && cs[i] == HighEngagement(total)) <==> total >= 50)
      && ((exists i :: 0 <= i < |cs| && cs[i] == GoodParticipation(total)) <==> 30 <= total < 50)
  {
    var cs := GenerateInsights(rows, total).value;
    if total >= 30 {
      assert cs[1].Rank() == 1;
    } else {
      assert cs == [cs[0]] + OptionToSeq(Distribution(rows));
    }
  }

  /** The distribution clause: "very competitive" below a 10.0-point gap, "decisive" above 30.0. */
  lemma DistributionBands(rows: seq<ResultRow>, total: nat)
    requires total >= InsightThreshold && |rows| > 0
    ensures var cs := GenerateInsights(rows, total).value;
      && ((exists i :: 0 <= i < |cs| && cs[i] == VeryCompetitive) <==> |rows| >= 2 && TopGap(rows) < 100)
      && ((exists i :: 0 <= i < |cs| && cs[i] == DecisiveOutcome) <==> |rows| >= 2 && TopGap(rows) > 300)
  {
    var cs := GenerateInsights(rows, total).value;
    var m := [cs[0]] + OptionToSeq(Participation(total));
    assert cs == m + OptionToSeq(Distribution(rows));
    assert forall i :: 0 <= i < |m| ==> m[i].Rank() < 2;
    if Distribution(rows).Some? {
      assert cs[|cs| - 1] == Distribution(rows).value;
    }
  }

  /**
   * The gap is measured from the winner to the runner-up: the sorted list
   * starts with the winner, and its second line has the largest count
   * among all the other lines.
   */
  lemma TopGapFromWinner(rows: seq<ResultRow>)
    requires |rows| >= 2
    ensures var sorted := SortByCount(rows);
      var w := WinnerIndex(rows);
      && TopGap(rows) == rows[w].pct - sorted[1].pct
      && forall k :: 0 <= k < |rows| && k != w ==> rows[k].count <= sorted[1].count
  {
    var sorted := SortByCount(rows);
    var w := WinnerIndex(rows);
    SortHeadIsWinner(rows);
    forall k | 0 <= k < |rows| && k != w ensures rows[k].count <= sorted[1].count {
      var j := OtherLineAfterHead(rows, sorted, w, k);
    }
  }

  /** Past its head, an arrangement of `rows` headed by `rows[w]` holds the other lines. */
  lemma TailIsRest(rows: seq<ResultRow>, sorted: seq<ResultRow>, w: nat)
    requires |rows| == |sorted| && multiset(sorted) == multiset(rows)
    requires w < |rows| && sorted[0] == rows[w]
    ensures multiset(sorted[1..]) == multiset(rows[..w] + rows[w + 1..])
  {
    var before, after := rows[..w], rows[w + 1..];
    assert sorted == [sorted[0]] + sorted[1..];
    assert multiset(sorted) == multiset{rows[w]} + multiset(sorted[1..]);
    assert rows == before + ([rows[w]] + after);
    assert multiset(rows) == multiset(before) + (multiset{rows[w]} + multiset(after));
    var lhs, rhs := multiset(sorted[1..]), multiset(before) + multiset(after);
    assert multiset(sorted) == lhs + multiset{rows[w]};
    assert multiset(rows) == rhs + multiset{rows[w]};
    assert forall y :: lhs[y] == rhs[y] by {
      forall y ensures lhs[y] == rhs[y] {
        assert (lhs + multiset{rows[w]})[y] == (rhs + multiset{rows[w]})[y];
      }
    }
    assert multiset(before + after) == rhs;
  }

  /** Every line other than the head of the sort appears after the head. */
  lemma OtherLineAfterHead(rows: seq<ResultRow>, sorted: seq<ResultRow>, w: nat, k: nat) returns (j: nat)
    requires |rows| == |sorted| && multiset(sorted) == multiset(rows)
    requires w < |rows| && k < |rows| && k != w && sorted[0] == rows[w]
    ensures 1 <= j < |sorted| && sorted[j] == rows[k]
  {
    TailIsRest(rows, sorted, w);
    var rest := rows[..w] + rows[w + 1..];
    var i := if k < w then k else k - 1;
    assert rest[i] == rows[k];
    assert rows[k] in multiset(rest);
    assert rows[k] in multiset(sorted[1..]);
    var t :| 0 <= t < |sorted[1..]| && sorted[1..][t] == rows[k];
    j := t + 1;
  }

  /** A winner at exactly 60.0% has a moderate lead, not a clear win. */
  lemma MarginAtSixty(rows: seq<ResultRow>)
    requires rows == [ResultRow("A", 12, 1, 600), ResultRow("B", 8, 2, 400)]
    ensures GenerateInsights(rows, 20).value[0] == ModerateLead("A", 600)
  {
    assert rows[..1] == [rows[0]];
    assert WinnerIndex(rows) == 0;
  }

  /** A winner at exactly 35.0% has a moderate lead, not a close race. */
  lemma MarginAtThirtyFive(rows: seq<ResultRow>)
    requires rows == [ResultRow("A", 7, 1, 350), ResultRow("B", 7, 2, 350), ResultRow("C", 6, 3, 300)]
    ensures GenerateInsights(rows, 20).value[0] == ModerateLead("A", 350)
  {
    assert rows[..1] == [rows[0]];
    assert rows[..2] == [rows[0], rows[1]];
    assert WinnerIndex(rows[..2]) == 0;
    assert WinnerIndex(rows) == 0;
  }

  /** Tea 14, Coffee 6: a clear winner at 70.0%, participation too low to mention, a decisive gap. */
  lemma TeaCoffeeInsight()
    ensures GenerateInsights([ResultRow("Tea", 14, 1, 700), ResultRow("Coffee", 6, 2, 300)], 20)
      == Some([ClearWinner("Tea", 700), DecisiveOutcome])
  {
    var rows := [ResultRow("Tea", 14, 1, 700), ResultRow("Coffee", 6, 2, 300)];
    assert rows[1..] == [rows[1]];
    assert rows[..1] == [rows[0]];
    assert WinnerIndex(rows[..1]) == 0;
    assert WinnerIndex(rows) == 0;
    assert SortByCount(rows[1..]) == [rows[1]];
    assert SortByCount(rows) == rows;
    assert TopGap(rows) == 400;
    assert Margin(rows[0]) == ClearWinner("Tea", 700);
    assert Participation(20) == None;
    assert Distribution(rows) == Some(DecisiveOutcome);
    var cs := [Margin(rows[0])] + OptionToSeq(Participation(20)) + OptionToSeq(Distribution(rows));
    assert cs == [ClearWinner("Tea", 700), DecisiveOutcome];
    assert GenerateInsights(rows, 20) == Some(cs);
  }

  // ----- Rendering -----

  function DigitChar(d: nat): char
    requires d < 10
  {
    (48 + d) as char
  }

  /** Decimal digits of `n`, as Python's `str(n)`. */
  function NatText(n: nat): (s: string)
    ensures |s| >= 1
    ensures forall k :: 0 <= k < |s| ==> '0' <= s[k] <= '9'
  {
    if n < 10 then [DigitChar(n)] else NatText(n / 10) + [DigitChar(n % 10)]
  }

  /** The value of a string of decimal digits. */
  function DigitsValue(s: string): nat
    requires forall k :: 0 <= k < |s| ==> '0' <= s[k] <= '9'
  {
    if |s| == 0 then 0 else 10 * DigitsValue(s[..|s| - 1]) + (s[|s| - 1] as int - 48)
  }

  /** Rendering a count and reading it back gives the count. */
  lemma {:induction false} NatTextRoundTrip(n: nat)
    ensures DigitsValue(NatText(n)) == n
  {
    if n >= 10 {
      NatTextRoundTrip(n / 10);
      var s := NatText(n);
      assert s[..|s| - 1] == NatText(n / 10);
    }
  }

  /** A share in tenths as Python prints the rounded float: "70.0", "33.3", "100.0". */
  function PercentText(p: nat): string {
    NatText(p / 10) + "." + [DigitChar(p % 10)]
  }

  function ClauseText(c: Clause): (s: string)
    ensures |s| > 0
  {
    match c
    case ClearWinner(w, p) => "Clear winner: '" + w + "' dominates with " + PercentText(p) + "% of votes"
    case CloseRace(w, p) => "Close race: No clear consensus, '" + w + "' leads narrowly at " + PercentText(p) + "%"
    case ModerateLead(w, p) => "Moderate lead: '" + w + "' has a solid lead with " + PercentText(p) + "% of votes"
    case HighEngagement(t) => "High engagement: " + NatText(t) + " participants shows strong interest"
    case GoodParticipation(t) => "Good participation: " + NatText(t) + " votes collected"
    case VeryCompetitive => "Very competitive: Top options are neck-and-neck"
    case DecisiveOutcome => "Decisive outcome: Clear preference established"
  }

  /** A string occurs in any string built around it. */
  lemma ContainsMiddle(a: string, x: string, b: string)
    ensures Contains(a + x + b, x)
  {
    var s := a + x + b;
    assert s[|a|..|a| + |x|] == x;
    assert OccursAt(s, x, |a|);
  }

  /** A text shaped `a + w + b + p + c` mentions both `w` and `p`. */
  lemma MentionsBoth(s: string, a: string, w: string, b: string, p: string, c: string)
    requires s == a + w + b + p + c
    ensures Contains(s, w) && Contains(s, p)
  {
    assert s == a + w + (b + p + c);
    ContainsMiddle(a, w, b + p + c);
    assert s == (a + w + b) + p + c;
    ContainsMiddle(a + w + b, p, c);
  }

  /**
   * What a clause reports: a margin clause names the winning option and
   * prints its share to one decimal; a participation clause prints the
   * vote total.
   */
  lemma ClauseMentions(c: Clause)
    ensures c.Rank() == 0 ==> Contains(ClauseText(c), c.winner) && Contains(ClauseText(c), PercentText(c.pct))
    ensures c.HighEngagement? || c.GoodParticipation? ==> Contains(ClauseText(c), NatText(c.total))
  {
    match c
    case ClearWinner(w, p) =>
      MentionsBoth(ClauseText(c), "Clear winner: '", w, "' dominates with ", PercentText(p), "% of votes");
    case CloseRace(w, p) =>
      MentionsBoth(ClauseText(c), "Close race: No clear consensus, '", w, "' leads narrowly at ", PercentText(p), "%");
    case ModerateLead(w, p) =>
      MentionsBoth(ClauseText(c), "Moderate lead: '", w, "' has a solid lead with ", PercentText(p), "% of votes");
    case HighEngagement(t) =>
      ContainsMiddle("High engagement: ", NatText(t), " participants shows strong interest");
    case GoodParticipation(t) =>
      ContainsMiddle("Good participation: ", NatText(t), " votes collected");
    case VeryCompetitive =>
    case DecisiveOutcome =>
  }

  const ClauseSeparator := " \U{2022} "

  /** The stored insight text: the clause texts joined by " • ". */
  function InsightText(cs: seq<Clause>): (s: string)
    ensures |s| > 0 <==> |cs| > 0
  {
    var texts := seq(|cs|, i requires 0 <= i < |cs| => ClauseText(cs[i]));
    JoinNonEmpty(texts, ClauseSeparator);
    Join(texts, ClauseSeparator)
  }

  lemma JoinNonEmpty(parts: seq<string>, sep: string)
    requires forall i :: 0 <= i < |parts| ==> |parts[i]| > 0
    ensures |Join(parts, sep)| > 0 <==> |parts| > 0
  {
  }

  /** 70.0% is printed as "70.0". */
  lemma SeventyPercentText(p: nat)
    requires p == 700
    ensures PercentText(p) == "70" + "." + "0"
  {
    assert NatText(7) == [DigitChar(7)] == "7";
    assert NatText(70) == NatText(7) + [DigitChar(0)] == "70";
  }

  /** A clear win with 70.0% prints its share as "70.0". */
  lemma SeventyPercentClause(c: Clause, w: string)
    requires c == ClearWinner(w, 700)
    ensures ClauseText(c) == "Clear winner: '" + w + "' dominates with " + "70.0" + "% of votes"
  {
    SeventyPercentText(c.pct);
    assert "70" + "." + "0" == "70.0";
  }

  /** The stored text of a clear 70% win followed by the decisive-outcome clause. */
  lemma SeventyPercentInsightText(cs: seq<Clause>, w: string)
    requires cs == [ClearWinner(w, 700), DecisiveOutcome]
    ensures InsightText(cs)
      == ("Clear winner: '" + w + "' dominates with " + "70.0" + "% of votes")
        + ClauseSeparator + "Decisive outcome: Clear preference established"
  {
    SeventyPercentClause(cs[0], w);
    var texts := seq(|cs|, i requires 0 <= i < |cs| => ClauseText(cs[i]));
    var a, b := texts[0], texts[1];
    assert texts == [a, b];
    assert texts[1..] == [b];
    assert Join(texts, ClauseSeparator) == a + ClauseSeparator + b;
  }

}
