/**
 * Option auto-splitting: a question such as "Tea | Coffee" or
 * "Python vs JavaScript?" is turned into its answer options by splitting
 * on the first of a fixed list of delimiters that produces 2 to 4
 * non-empty parts.
 */
module AutoSplit {
  import opened Base
  import opened Text

  /** The delimiters, in the order they are tried. */
  const Delimiters: seq<string> := ["|", ";", " vs ", " VS ", " or ", " OR "]

  /** The stripped pieces, with the ones that strip to nothing dropped. */
  function Cleaned(pieces: seq<string>): (parts: seq<string>)
    ensures |parts| <= |pieces|
    ensures forall k :: 0 <= k < |parts| ==> parts[k] != [] && IsStripped(parts[k])
  {
    if |pieces| == 0 then []
    else
      var p := Strip(pieces[0]);
      (if p == [] then [] else [p]) + Cleaned(pieces[1..])
  }

  /** A value is kept exactly when it is the non-empty stripped form of some piece. */
  lemma {:induction false} CleanedMembers(pieces: seq<string>, x: string)
    ensures x in Cleaned(pieces) <==> x != [] && exists k :: 0 <= k < |pieces| && Strip(pieces[k]) == x
    decreases |pieces|
  {
    if |pieces| > 0 {
      CleanedMembers(pieces[1..], x);
      assert forall k :: 1 <= k < |pieces| ==> pieces[k] == pieces[1..][k - 1];
      if x != [] && exists k :: 0 <= k < |pieces| && Strip(pieces[k]) == x {
        var k :| 0 <= k < |pieces| && Strip(pieces[k]) == x;
        if k > 0 {
          assert Strip(pieces[1..][k - 1]) == x;
        }
      }
    }
  }

  /** One piece is kept, stripped, unless it strips to nothing. */
  lemma CleanedOne(x: string)
    ensures Cleaned([x]) == if Strip(x) == [] then [] else [Strip(x)]
  {
    assert [x][1..] == [];
  }

  /**
   * The comprehension keeps order and multiplicity: cleaning two runs of
   * pieces one after the other is cleaning each run, in order.
   */
  lemma {:induction false} CleanedAppend(a: seq<string>, b: seq<string>)
    ensures Cleaned(a + b) == Cleaned(a) + Cleaned(b)
    decreases |a|
  {
    if |a| == 0 {
      assert a + b == b;
    } else {
      assert (a + b)[0] == a[0];
      assert (a + b)[1..] == a[1..] + b;
      CleanedAppend(a[1..], b);
    }
  }

  /** The candidate options obtained by splitting `q` on `d`. */
  function PartsOn(q: string, d: string): seq<string>
    requires |d| > 0
  {
    Cleaned(Split(q, d))
  }

  /** Delimiter `d` is present in `q` and splitting on it gives 2 to 4 options. */
  predicate Yields(q: string, d: string) {
    |d| > 0 && Contains(q, d) && 2 <= |PartsOn(q, d)| <= 4
  }

  /** The index of the first true flag in `flags[k..]`, or `|flags|` when there is none. */
  function FirstTrue(flags: seq<bool>, k: nat): (j: nat)
    requires k <= |flags|
    ensures k <= j <= |flags|
    ensures j < |flags| ==> flags[j]
    ensures forall i :: k <= i < j ==> !flags[i]
    decreases |flags| - k
  {
    if k == |flags| || flags[k] then k else FirstTrue(flags, k + 1)
  }

  /** For each delimiter, in order, whether it yields on `q`. */
  function YieldFlags(q: string): (flags: seq<bool>)
    ensures |flags| == |Delimiters|
    ensures forall j :: 0 <= j < |flags| ==> flags[j] == Yields(q, Delimiters[j])
  {
    seq(|Delimiters|, j requires 0 <= j < |Delimiters| => Yields(q, Delimiters[j]))
  }

  /**
   * The options auto-split from question `q`, or None when no delimiter
   * yields 2 to 4 non-empty parts.
   */
  function AutoSplitOptions(q: string): (r: Option<seq<string>>)
    ensures r.Some? ==> 2 <= |r.value| <= 4
    ensures r.Some? ==> forall k :: 0 <= k < |r.value| ==> r.value[k] != [] && IsStripped(r.value[k])
    ensures r.None? <==> forall j :: 0 <= j < |Delimiters| ==> !Yields(q, Delimiters[j])
    ensures r.Some? ==>
      exists j :: 0 <= j < |Delimiters| && Yields(q, Delimiters[j]) && r.value == PartsOn(q, Delimiters[j])
        && forall i :: 0 <= i < j ==> !Yields(q, Delimiters[i])
  {
    var flags := YieldFlags(q);
    var j := FirstTrue(flags, 0);
    if j == |Delimiters| then None
    else
      assert flags[j] && forall i :: 0 <= i < j ==> !flags[i];
      Some(PartsOn(q, Delimiters[j]))
  }

  /** A question that contains none of the delimiters is never split. */
  lemma NoDelimiterNoSplit(q: string)
    requires forall j :: 0 <= j < |Delimiters| ==> !Contains(q, Delimiters[j])
    ensures AutoSplitOptions(q) == None
  {
  }

  /**
   * The presence test in front of the split changes nothing: a delimiter
   * that is absent splits the question into one piece, never into 2 to 4.
   */
  lemma PresenceTestRedundant(q: string, d: string)
    requires |d| > 0
    ensures Yields(q, d) <==> 2 <= |PartsOn(q, d)| <= 4
  {
    if !Contains(q, d) {
      assert |Split(q, d)| == 1;
    }
  }

  /** A string missing one of the characters of `d` does not contain `d`. */
  lemma MissingCharNotContained(s: string, d: string, i: nat)
    requires i < |d| && d[i] !in s
    ensures !Contains(s, d)
  {
  }

  /** Stripping leaves a stripped string as it is. */
  lemma StripStripped(x: string)
    requires IsStripped(x)
    ensures Strip(x) == x
  {
    StripRemovesPadding([], x, []);
    assert [] + x + [] == x;
  }

  /** A delimiter absent from the question is skipped. */
  lemma AbsentNeverYields(q: string, d: string)
    requires !Contains(q, d)
    ensures !Yields(q, d)
  {
  }

  /** The stripped pieces of two already-stripped non-empty strings are those strings. */
  lemma CleanedPair(x: string, y: string)
    requires x != [] && y != [] && IsStripped(x) && IsStripped(y)
    ensures Cleaned([x, y]) == [x, y]
  {
    StripStripped(x);
    StripStripped(y);
    assert [x, y][1..] == [y];
  }

  // ----- Example questions -----

  /**
   * `a + d + b`, where `d` first occurs right after `a` and not at all in
   * `b`, splits on `d` into the stripped non-empty `a` and `b`.
   */
  lemma SplitPair(a: string, d: string, b: string)
    requires |d| > 0 && !Contains(b, d)
    requires forall k: nat :: k < |a| ==> !OccursAt(a + d + b, d, k)
    requires a != [] && b != [] && IsStripped(a) && IsStripped(b)
    ensures PartsOn(a + d + b, d) == [a, b]
    ensures Contains(a + d + b, d)
  {
    SplitFirst(a, d, b);
    SplitAbsent(b, d);
    CleanedPair(a, b);
    var s := a + d + b;
    assert s[|a|..|a| + |d|] == d;
    assert OccursAt(s, d, |a|);
  }

  /** "Tea|Coffee" is cut at its "|" into "Tea" and "Coffee". */
  lemma TeaCoffeeParts(q: string)
    requires q == "Tea" + "|" + "Coffee"
    ensures PartsOn(q, "|") == ["Tea", "Coffee"]
    ensures Contains(q, "|")
  {
    var a, d, b := "Tea", "|", "Coffee";
    MissingCharNotContained(b, d, 0);
    forall k: nat | k < |a| ensures !OccursAt(q, d, k) {
      assert q[k] == a[k];
    }
    SplitPair(a, d, b);
  }

  /** "Tea|Coffee" splits on the first delimiter into "Tea" and "Coffee". */
  lemma TeaCoffee(q: string)
    requires q == "Tea" + "|" + "Coffee"
    ensures AutoSplitOptions(q) == Some(["Tea", "Coffee"])
  {
    TeaCoffeeParts(q);
    FirstDelimiters();
    var flags := YieldFlags(q);
    assert flags[0];
  }

  /** In the smoke-test question, " vs " occurs nowhere before the end of "Test poll - Python". */
  lemma NoEarlyVersus(q: string)
    requires q == "Test poll - Python" + " vs " + "JavaScript?"
    ensures forall k: nat :: k < |"Test poll - Python"| ==> !OccursAt(q, " vs ", k)
  {
    var a, d := "Test poll - Python", " vs ";
    forall k: nat | k < |a| ensures !OccursAt(q, d, k) {
      if k + 1 < |a| {
        assert q[k + 1] == a[k + 1] != d[1];
      } else {
        assert q[k] == a[|a| - 1] != d[0];
      }
    }
  }

  /** The question of the deployment smoke test splits on " vs ". */
  lemma PythonVsJavaScriptParts(q: string)
    requires q == "Test poll - Python" + " vs " + "JavaScript?"
    ensures PartsOn(q, " vs ") == ["Test poll - Python", "JavaScript?"]
    ensures Contains(q, " vs ")
  {
    var a, d, b := "Test poll - Python", " vs ", "JavaScript?";
    MissingCharNotContained(b, d, 0);
    NoEarlyVersus(q);
    SplitPair(a, d, b);
  }

  /** The smoke-test question has neither "|" nor ";". */
  lemma PythonVsJavaScriptNoPunctuation(q: string)
    requires q == "Test poll - Python" + " vs " + "JavaScript?"
    ensures !Contains(q, "|") && !Contains(q, ";")
  {
    var a, d, b := "Test poll - Python", " vs ", "JavaScript?";
    assert '|' !in a && '|' !in d && '|' !in b;
    assert ';' !in a && ';' !in d && ';' !in b;
    MissingCharNotContained(q, "|", 0);
    MissingCharNotContained(q, ";", 0);
  }

  lemma FirstDelimiters()
    ensures |Delimiters| == 6 && Delimiters[0] == "|" && Delimiters[1] == ";" && Delimiters[2] == " vs "
  {
  }

  /** A question without "|" and ";" on which " vs " yields is split on " vs ". */
  lemma SplitOnVersus(q: string)
    requires !Contains(q, "|") && !Contains(q, ";") && Yields(q, " vs ")
    ensures AutoSplitOptions(q) == Some(PartsOn(q, " vs "))
  {
    FirstDelimiters();
    AbsentNeverYields(q, "|");
    AbsentNeverYields(q, ";");
    var flags := YieldFlags(q);
    assert !flags[0] && !flags[1] && flags[2];
    assert FirstTrue(flags, 2) == 2;
    assert FirstTrue(flags, 1) == 2;
    assert FirstTrue(flags, 0) == 2;
  }

  /**
   * "Test poll - Python vs JavaScript?" is split on " vs " into
   * "Test poll - Python" and "JavaScript?".
   */
  lemma PythonVsJavaScript(q: string)
    requires q == "Test poll - Python" + " vs " + "JavaScript?"
    ensures AutoSplitOptions(q) == Some(["Test poll - Python", "JavaScript?"])
  {
    PythonVsJavaScriptNoPunctuation(q);
    PythonVsJavaScriptParts(q);
    SplitOnVersus(q);
  }
}
