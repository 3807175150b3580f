/**
 * The string primitives the poll code relies on, written to behave like
 * Python's `str.isspace`, `str.strip`, `sub in s`, `str.split(sep)` and
 * `sep.join(parts)`, on strings of Unicode code points.
 */
module Text {
  import opened Base

  /** The characters for which Python's `str.isspace()` holds, i.e. those `strip()` removes. */
  predicate IsSpace(c: char) {
    var n := c as int;
    || (9 <= n <= 13) || (28 <= n <= 32)
    || n == 0x85 || n == 0xA0 || n == 0x1680
    || (0x2000 <= n <= 0x200A)
    || n == 0x2028 || n == 0x2029 || n == 0x202F || n == 0x205F || n == 0x3000
  }

  predicate AllSpace(s: string) {
    forall k :: 0 <= k < |s| ==> IsSpace(s[k])
  }

  /** Empty, or starting and ending with a non-whitespace character. */
  predicate IsStripped(s: string) {
    s == [] || (!IsSpace(s[0]) && !IsSpace(s[|s| - 1]))
  }

  /** Length of the whitespace run at the start of `s`. */
  function LeadingSpace(s: string): (n: nat)
    ensures n <= |s|
    ensures AllSpace(s[..n])
    ensures n < |s| ==> !IsSpace(s[n])
  {
    if |s| == 0 || !IsSpace(s[0]) then 0
    else
      var m := LeadingSpace(s[1..]);
      assert forall k :: 1 <= k < 1 + m ==> s[k] == s[1..][..m][k - 1];
      1 + m
  }

  /** Length of the whitespace run at the end of `s`. */
  function TrailingSpace(s: string): (n: nat)
    ensures n <= |s|
    ensures AllSpace(s[|s| - n..])
    ensures n < |s| ==> !IsSpace(s[|s| - n - 1])
  {
    if |s| == 0 || !IsSpace(s[|s| - 1]) then 0
    else
      var init := s[..|s| - 1];
      var m := TrailingSpace(init);
      assert forall k :: |s| - 1 - m <= k < |s| - 1 ==> s[k] == init[|init| - m..][k - (|s| - 1 - m)];
      1 + m
  }

  /** Python's `s.strip()`: `s` without its leading and trailing whitespace. */
  function Strip(s: string): (r: string)
    ensures IsStripped(r)
    ensures |r| <= |s|
    ensures r == [] <==> AllSpace(s)
  {
    var i := LeadingSpace(s);
    var rest := s[i..];
    var j := |rest| - TrailingSpace(rest);
    assert rest[..j] == [] ==> AllSpace(s) by {
      if rest[..j] == [] {
        assert s == s[..i] + rest[j..];
      }
    }
    rest[..j]
  }

  /** The whitespace run at the start of `s` is exactly `m` long. */
  lemma {:induction false} LeadingSpaceIs(s: string, m: nat)
    requires m <= |s| && AllSpace(s[..m]) && (m < |s| ==> !IsSpace(s[m]))
    ensures LeadingSpace(s) == m
    decreases m
  {
    if m > 0 {
      assert s[..m][0] == s[0];
      assert s[1..][..m - 1] == s[..m][1..];
      LeadingSpaceIs(s[1..], m - 1);
    }
  }

  /** The whitespace run at the end of `s` is exactly `m` long. */
  lemma {:induction false} TrailingSpaceIs(s: string, m: nat)
    requires m <= |s| && AllSpace(s[|s| - m..]) && (m < |s| ==> !IsSpace(s[|s| - m - 1]))
    ensures TrailingSpace(s) == m
    decreases m
  {
    if m > 0 {
      var init := s[..|s| - 1];
      assert s[|s| - m..][m - 1] == s[|s| - 1];
      assert IsSpace(s[|s| - 1]);
      var tail := init[|init| - (m - 1)..];
      assert AllSpace(tail) by {
        forall k | 0 <= k < |tail| ensures IsSpace(tail[k]) {
          assert tail[k] == s[|s| - m..][k];
        }
      }
      if m - 1 < |init| {
        assert init[|init| - m] == s[|s| - m - 1];
      }
      TrailingSpaceIs(init, m - 1);
    }
  }

  /**
   * Strip removes exactly the whitespace padding: whatever whitespace is put
   * around an already-stripped string, stripping gives that string back.
   */
  lemma StripRemovesPadding(lead: string, core: string, trail: string)
    requires AllSpace(lead) && AllSpace(trail) && IsStripped(core)
    ensures Strip(lead + core + trail) == core
  {
    var s := lead + core + trail;
    if core == [] {
      assert s == lead + trail;
      assert AllSpace(s) by {
        forall k | 0 <= k < |s| ensures IsSpace(s[k]) {
          if k < |lead| { assert s[k] == lead[k]; } else { assert s[k] == trail[k - |lead|]; }
        }
      }
    } else {
      assert s[..|lead|] == lead;
      assert s[|lead|] == core[0];
      LeadingSpaceIs(s, |lead|);
      var rest := s[|lead|..];
      assert rest == core + trail;
      assert rest[|rest| - |trail|..] == trail;
      assert rest[|rest| - |trail| - 1] == core[|core| - 1];
      TrailingSpaceIs(rest, |trail|);
      assert rest[..|rest| - |trail|] == core;
    }
  }

  /** Stripping twice is stripping once. */
  lemma StripIdempotent(s: string)
    ensures Strip(Strip(s)) == Strip(s)
  {
    StripRemovesPadding([], Strip(s), []);
    assert [] + Strip(s) + [] == Strip(s);
  }

  /** `d` occurs in `s` starting at index `i`. */
  predicate OccursAt(s: string, d: string, i: nat) {
    i + |d| <= |s| && s[i..i + |d|] == d
  }

  /** Python's `d in s`. */
  predicate Contains(s: string, d: string) {
    exists i: nat | i <= |s| :: OccursAt(s, d, i)
  }

  /** The first occurrence of the non-empty `d` in `s` at or after `from`. */
  function IndexOf(s: string, d: string, from: nat): (r: Option<nat>)
    requires |d| > 0
    ensures r.Some? ==> from <= r.value && OccursAt(s, d, r.value)
    ensures r.Some? ==> forall k: nat :: from <= k < r.value ==> !OccursAt(s, d, k)
    ensures r.None? ==> forall k: nat :: from <= k ==> !OccursAt(s, d, k)
    decreases |s| - from
  {
    if from + |d| > |s| then None
    else if s[from..from + |d|] == d then Some(from)
    else IndexOf(s, d, from + 1)
  }

  /** Python's `sep.join(parts)`. */
  function Join(parts: seq<string>, sep: string): string
  {
    if |parts| == 0 then []
    else if |parts| == 1 then parts[0]
    else parts[0] + sep + Join(parts[1..], sep)
  }

  /**
   * Python's `s.split(sep)` for a non-empty separator: cut `s` at every
   * occurrence of `sep`, scanning left to right without overlaps.
   */
  function Split(s: string, sep: string): (parts: seq<string>)
    requires |sep| > 0
    ensures |parts| >= 1
    ensures Join(parts, sep) == s
    ensures forall k :: 0 <= k < |parts| ==> !Contains(parts[k], sep)
    ensures forall k :: 0 <= k < |parts| - 1 ==> !StartsInside(parts[k], sep)
    ensures |parts| >= 2 <==> Contains(s, sep)
    decreases |s|
  {
    match IndexOf(s, sep, 0)
    case None => [s]
    case Some(i) =>
      var head := s[..i];
      var tail := Split(s[i + |sep|..], sep);
      FirstCut(s, sep, i);
      var parts := [head] + tail;
      assert forall k :: 1 <= k < |parts| ==> parts[k] == tail[k - 1];
      assert Join(parts, sep) == s by {
        assert parts[1..] == tail;
        assert s == head + s[i..i + |sep|] + s[i + |sep|..];
      }
      assert Contains(s, sep) by {
        assert OccursAt(s, sep, i);
      }
      parts
  }

  /**
   * An occurrence of `sep` starts inside `part`, possibly running on past
   * its end: then a left-to-right scan would have cut `part` short.
   */
  predicate StartsInside(part: string, sep: string)
    requires |sep| > 0
  {
    Contains(part + sep[..|sep| - 1], sep)
  }

  /** An occurrence inside a prefix of `s` is an occurrence in `s`, ending within the prefix. */
  lemma OccursInPrefix(s: string, t: string, sep: string, k: nat)
    requires |t| <= |s| && t == s[..|t|]
    requires OccursAt(t, sep, k)
    ensures OccursAt(s, sep, k) && k + |sep| <= |t|
  {
    assert t[k..k + |sep|] == s[k..k + |sep|];
  }

  /** Cutting at the first occurrence of `sep` leaves a piece in which no occurrence starts. */
  lemma FirstCut(s: string, sep: string, i: nat)
    requires |sep| > 0 && OccursAt(s, sep, i)
    requires forall k: nat :: k < i ==> !OccursAt(s, sep, k)
    ensures !StartsInside(s[..i], sep) && !Contains(s[..i], sep)
  {
    var h := s[..i] + sep[..|sep| - 1];
    assert h == s[..i + |sep| - 1];
    forall k: nat | k <= |h| && OccursAt(h, sep, k) ensures OccursAt(s, sep, k) && k < i {
      OccursInPrefix(s, h, sep, k);
    }
    var head := s[..i];
    forall k: nat | k <= |head| && OccursAt(head, sep, k) ensures OccursAt(s, sep, k) && k < i {
      OccursInPrefix(s, head, sep, k);
    }
  }

  /** A string without `d` is split into itself alone. */
  lemma SplitAbsent(s: string, d: string)
    requires |d| > 0 && !Contains(s, d)
    ensures Split(s, d) == [s]
  {
  }

  /** When the first occurrence of `d` in `a + d + b` is the one after `a`, the first piece is `a`. */
  lemma SplitFirst(a: string, d: string, b: string)
    requires |d| > 0
    requires forall k: nat :: k < |a| ==> !OccursAt(a + d + b, d, k)
    ensures Split(a + d + b, d) == [a] + Split(b, d)
  {
    var s := a + d + b;
    assert s[|a|..|a| + |d|] == d;
    assert OccursAt(s, d, |a|);
    var r := IndexOf(s, d, 0);
    assert r == Some(|a|);
    assert s[..|a|] == a;
    assert s[|a| + |d|..] == b;
  }

  /**
   * Joining loses nothing: parts that hold no separator, and in which no
   * separator starts except the last, split back into themselves.
   */
  lemma {:induction false} SplitJoin(parts: seq<string>, sep: string)
    requires |sep| > 0 && |parts| >= 1
    requires forall k :: 0 <= k < |parts| ==> !Contains(parts[k], sep)
    requires forall k :: 0 <= k < |parts| - 1 ==> !StartsInside(parts[k], sep)
    ensures Split(Join(parts, sep), sep) == parts
    decreases |parts|
  {
    if |parts| == 1 {
      SplitAbsent(parts[0], sep);
    } else {
      var a, rest := parts[0], parts[1..];
      var b := Join(rest, sep);
      var h := a + sep[..|sep| - 1];
      forall k: nat | k < |a| && OccursAt(a + sep + b, sep, k) ensures OccursAt(h, sep, k) {
        assert (a + sep + b)[k..k + |sep|] == h[k..k + |sep|];
      }
      SplitFirst(a, sep, b);
      assert forall k :: 0 <= k < |rest| ==> rest[k] == parts[k + 1];
      SplitJoin(rest, sep);
      assert parts == [a] + rest;
    }
  }
}
