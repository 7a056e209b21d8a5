/**
 * The Kotlin standard-library string operations the icon compiler relies on:
 * ASCII lower-casing, substring search, `substringBefore`, `replace` and
 * `joinToString`.
 */
module Strings {
  import opened Wrappers

  /** `Char.lowercase()` restricted to ASCII letters; every other character is kept. */
  function LowerChar(c: char): char {
    if 'A' <= c <= 'Z' then (c as int + 32) as char else c
  }

  /** `String.lowercase()` for ASCII text. */
  function Lower(s: string): (r: string)
    ensures |r| == |s|
    ensures forall i :: 0 <= i < |s| ==> r[i] == LowerChar(s[i])
  {
    seq(|s|, i requires 0 <= i < |s| => LowerChar(s[i]))
  }

  /**
   * Regrouping a concatenation. Called where a builder's text is compared with a nested
   * specification, so that the solver sees this one instance rather than searching for it.
   */
  lemma AppendAssoc<T>(a: seq<T>, b: seq<T>, c: seq<T>)
    ensures (a + b) + c == a + (b + c)
  {
  }

  /** `p` occurs in `s` starting at index `i`. */
  predicate OccursAt(s: string, p: string, i: int) {
    0 <= i && i + |p| <= |s| && s[i..i + |p|] == p
  }

  lemma OccursShift(s: string, p: string, j: int)
    requires |s| > 0 && 0 <= j
    ensures OccursAt(s[1..], p, j) <==> OccursAt(s, p, j + 1)
  {
    if j + 1 + |p| <= |s| {
      assert s[1..][j..j + |p|] == s[j + 1..j + 1 + |p|];
    }
  }

  /** `String.indexOf(p)`: the first index at which `p` occurs, or None (Kotlin's -1). */
  function IndexOf(s: string, p: string): (r: Option<nat>)
    ensures r.Some? ==> OccursAt(s, p, r.value)
    ensures r.Some? ==> forall j :: 0 <= j < r.value ==> !OccursAt(s, p, j)
    ensures r.None? ==> forall j :: !OccursAt(s, p, j)
    decreases |s|
  {
    if |s| < |p| then None
    else if s[..|p|] == p then Some(0)
    else
      var rest := IndexOf(s[1..], p);
      assert forall j :: 1 <= j ==> (OccursAt(s, p, j) <==> OccursAt(s[1..], p, j - 1)) by {
        forall j | 1 <= j ensures OccursAt(s, p, j) <==> OccursAt(s[1..], p, j - 1) {
          OccursShift(s, p, j - 1);
        }
      }
      match rest
      case Some(i) => Some(i + 1)
      case None => None
  }

  /** `String.contains` for a literal pattern. */
  function Contains(s: string, p: string): (r: bool)
    ensures r <==> exists i :: OccursAt(s, p, i)
  {
    IndexOf(s, p).Some?
  }

  /** `String.substringBefore(d)`: the text before the first `d`, or all of `s` when there is none. */
  function SubstringBefore(s: string, d: string): (r: string)
    ensures |r| <= |s| && r == s[..|r|]
    ensures r == s <==> !Contains(s, d) || (|d| == 0 && s == [])
    ensures r != s ==> OccursAt(s, d, |r|)
    ensures forall j :: 0 <= j < |r| ==> !OccursAt(s, d, j)
  {
    match IndexOf(s, d)
    case None => s
    case Some(i) => s[..i]
  }

  /**
   * `String.replace(pat, rep)`: scans from the left and replaces each
   * non-overlapping occurrence of `pat`, resuming after it.
   */
  function ReplaceAll(s: string, pat: string, rep: string): string
    requires |pat| > 0
    decreases |s|
  {
    if |s| < |pat| then s
    else if s[..|pat|] == pat then rep + ReplaceAll(s[|pat|..], pat, rep)
    else [s[0]] + ReplaceAll(s[1..], pat, rep)
  }

  lemma {:induction false} ReplaceAllLength(s: string, pat: string, rep: string)
    requires |pat| > 0 && |rep| == |pat|
    ensures |ReplaceAll(s, pat, rep)| == |s|
    decreases |s|
  {
    if |s| < |pat| {
    } else if s[..|pat|] == pat {
      ReplaceAllLength(s[|pat|..], pat, rep);
    } else {
      ReplaceAllLength(s[1..], pat, rep);
    }
  }

  lemma {:induction false} ReplaceAllNoop(s: string, pat: string, rep: string)
    requires |pat| > 0
    requires forall i :: !OccursAt(s, pat, i)
    ensures ReplaceAll(s, pat, rep) == s
    decreases |s|
  {
    if |s| < |pat| {
    } else {
      assert !OccursAt(s, pat, 0);
      forall i | 0 <= i ensures !OccursAt(s[1..], pat, i) {
        OccursShift(s, pat, i);
      }
      ReplaceAllNoop(s[1..], pat, rep);
      assert [s[0]] + s[1..] == s;
    }
  }

  /**
   * What makes replacement exhaustive: both strings have the same length and
   * the same first character, which appears nowhere else in either of them,
   * and they differ.
   */
  predicate Replaceable(pat: string, rep: string) {
    |pat| > 0 && |rep| == |pat| && rep != pat && rep[0] == pat[0] &&
    forall k :: 1 <= k < |pat| ==> pat[k] != pat[0] && rep[k] != pat[0]
  }

  lemma ReplaceAtMatch(s: string, pat: string, rep: string)
    requires |pat| > 0 && OccursAt(s, pat, 0)
    ensures ReplaceAll(s, pat, rep) == rep + ReplaceAll(s[|pat|..], pat, rep)
  {
    assert s[..|pat|] == pat;
  }

  lemma ReplaceAtMismatch(s: string, pat: string, rep: string)
    requires |pat| > 0 && |pat| <= |s| && !OccursAt(s, pat, 0)
    ensures ReplaceAll(s, pat, rep) == [s[0]] + ReplaceAll(s[1..], pat, rep)
  {
  }

  /** An occurrence past a prefix `a` is an occurrence in the rest `b`. */
  lemma OccursAfter(a: string, b: string, p: string, i: int)
    requires i >= |a|
    ensures OccursAt(a + b, p, i) <==> OccursAt(b, p, i - |a|)
  {
    if OccursAt(a + b, p, i) || OccursAt(b, p, i - |a|) {
      assert (a + b)[i..i + |p|] == b[i - |a|..i - |a| + |p|];
    }
  }

  lemma OccursFirst(s: string, p: string, i: int)
    requires OccursAt(s, p, i) && |p| > 0
    ensures s[i] == p[0]
  {
    assert s[i..i + |p|][0] == s[i];
  }

  lemma ReplaceHead(t: string, pat: string, rep: string)
    requires |pat| > 0 && |rep| == |pat| && OccursAt(t, pat, 0)
    ensures |ReplaceAll(t, pat, rep)| > 0 && ReplaceAll(t, pat, rep)[0] == rep[0]
  {
    ReplaceAtMatch(t, pat, rep);
  }

  /** A replaced prefix free of `pat[0]` went through untouched. */
  lemma {:induction false} ReplaceKeepsLead(t: string, pat: string, rep: string, k: nat)
    requires Replaceable(pat, rep)
    requires k <= |t|
    requires |ReplaceAll(t, pat, rep)| == |t|
    requires forall i :: 0 <= i < k ==> ReplaceAll(t, pat, rep)[i] != pat[0]
    ensures ReplaceAll(t, pat, rep)[..k] == t[..k]
    decreases |t|
  {
    var r := ReplaceAll(t, pat, rep);
    if OccursAt(t, pat, 0) {
      ReplaceHead(t, pat, rep);
    }
    if k == 0 || |t| < |pat| {
    } else if OccursAt(t, pat, 0) {
      assert false;
    } else {
      ReplaceAtMismatch(t, pat, rep);
      ReplaceAllLength(t[1..], pat, rep);
      var r' := ReplaceAll(t[1..], pat, rep);
      forall i | 0 <= i < k - 1 ensures r'[i] != pat[0] {
        assert r'[i] == r[i + 1];
      }
      ReplaceKeepsLead(t[1..], pat, rep, k - 1);
      assert r[..k] == [t[0]] + r'[..k - 1];
      assert t[..k] == [t[0]] + t[1..][..k - 1];
    }
  }

  /** No occurrence of `pat` starts at the head of a replacement result. */
  lemma NoOccurrenceAtHead(s: string, pat: string, rep: string)
    requires Replaceable(pat, rep)
    ensures !OccursAt(ReplaceAll(s, pat, rep), pat, 0)
  {
    var n := |pat|;
    var r := ReplaceAll(s, pat, rep);
    ReplaceAllLength(s, pat, rep);
    if |s| < n {
    } else if OccursAt(s, pat, 0) {
      ReplaceAtMatch(s, pat, rep);
      assert r[..n] == rep;
    } else if OccursAt(r, pat, 0) {
      ReplaceAtMismatch(s, pat, rep);
      ReplaceAllLength(s[1..], pat, rep);
      var r' := ReplaceAll(s[1..], pat, rep);
      assert r[..n] == pat;
      forall j | 0 <= j < n - 1 ensures r'[j] != pat[0] {
        assert r'[j] == r[j + 1] == pat[j + 1];
      }
      ReplaceKeepsLead(s[1..], pat, rep, n - 1);
    }
  }

  /** After replacement no occurrence of `pat` is left. */
  lemma {:induction false} ReplaceAllRemoves(s: string, pat: string, rep: string)
    requires Replaceable(pat, rep)
    ensures forall i :: !OccursAt(ReplaceAll(s, pat, rep), pat, i)
    decreases |s|
  {
    var n := |pat|;
    var r := ReplaceAll(s, pat, rep);
    NoOccurrenceAtHead(s, pat, rep);
    if |s| < n {
    } else if OccursAt(s, pat, 0) {
      ReplaceAtMatch(s, pat, rep);
      ReplaceAllRemoves(s[n..], pat, rep);
      forall i | 0 < i ensures !OccursAt(r, pat, i) {
        if i >= n {
          OccursAfter(rep, ReplaceAll(s[n..], pat, rep), pat, i);
        } else if OccursAt(r, pat, i) {
          OccursFirst(r, pat, i);
        }
      }
    } else {
      ReplaceAtMismatch(s, pat, rep);
      ReplaceAllRemoves(s[1..], pat, rep);
      forall i | 0 < i ensures !OccursAt(r, pat, i) {
        OccursAfter([s[0]], ReplaceAll(s[1..], pat, rep), pat, i);
      }
    }
  }

  /** Every occurrence of `pat` in the input reads `rep` at the same place in the output. */
  lemma {:induction false} ReplacedAt(s: string, pat: string, rep: string, i: int)
    requires Replaceable(pat, rep)
    requires OccursAt(s, pat, i)
    ensures OccursAt(ReplaceAll(s, pat, rep), rep, i)
    decreases |s|
  {
    var n := |pat|;
    if OccursAt(s, pat, 0) {
      ReplaceAtMatch(s, pat, rep);
      var r' := ReplaceAll(s[n..], pat, rep);
      if i == 0 {
        assert (rep + r')[0..0 + |rep|] == rep;
      } else if i < n {
        OccursFirst(s, pat, i);
      } else {
        OccursAfter(s[..n], s[n..], pat, i);
        assert s[..n] + s[n..] == s;
        ReplacedAt(s[n..], pat, rep, i - n);
        OccursAfter(rep, r', rep, i);
      }
    } else {
      ReplaceAtMismatch(s, pat, rep);
      OccursShift(s, pat, i - 1);
      ReplacedAt(s[1..], pat, rep, i - 1);
      OccursAfter([s[0]], ReplaceAll(s[1..], pat, rep), rep, i);
    }
  }

  /** A character that no occurrence of `pat` covers is copied unchanged. */
  lemma {:induction false} KeptAt(s: string, pat: string, rep: string, i: int)
    requires Replaceable(pat, rep)
    requires 0 <= i < |s|
    requires forall j :: j <= i < j + |pat| ==> !OccursAt(s, pat, j)
    ensures |ReplaceAll(s, pat, rep)| == |s| && ReplaceAll(s, pat, rep)[i] == s[i]
    decreases |s|
  {
    var n := |pat|;
    ReplaceAllLength(s, pat, rep);
    if |s| < n {
    } else if OccursAt(s, pat, 0) {
      ReplaceAtMatch(s, pat, rep);
      ReplaceAllLength(s[n..], pat, rep);
      forall j | j <= i - n < j + n ensures !OccursAt(s[n..], pat, j) {
        if 0 <= j {
          OccursAfter(s[..n], s[n..], pat, j + n);
          assert s[..n] + s[n..] == s;
        }
      }
      KeptAt(s[n..], pat, rep, i - n);
    } else if i > 0 {
      ReplaceAtMismatch(s, pat, rep);
      ReplaceAllLength(s[1..], pat, rep);
      forall j | j <= i - 1 < j + n ensures !OccursAt(s[1..], pat, j) {
        if 0 <= j { OccursShift(s, pat, j); }
      }
      KeptAt(s[1..], pat, rep, i - 1);
    } else {
      ReplaceAtMismatch(s, pat, rep);
    }
  }

  /** `joinToString(sep)`: the elements in order, with `sep` between neighbours. */
  function Join(xs: seq<string>, sep: string): string
    decreases |xs|
  {
    if |xs| == 0 then ""
    else if |xs| == 1 then xs[0]
    else xs[0] + sep + Join(xs[1..], sep)
  }

  lemma {:induction false} JoinSnoc(xs: seq<string>, x: string, sep: string)
    requires |xs| > 0
    ensures Join(xs + [x], sep) == Join(xs, sep) + sep + x
    decreases |xs|
  {
    if |xs| == 1 {
      assert (xs + [x])[1..] == [x];
    } else {
      assert (xs + [x])[1..] == xs[1..] + [x];
      JoinSnoc(xs[1..], x, sep);
    }
  }

  /** A join ends with its last element: there is no trailing separator. */
  lemma JoinEndsWithLast(xs: seq<string>, sep: string)
    requires |xs| > 0
    ensures var r := Join(xs, sep); var x := xs[|xs| - 1];
      |x| <= |r| && r[|r| - |x|..] == x
  {
    if |xs| > 1 {
      var n := |xs| - 1;
      assert xs[..n] + [xs[n]] == xs;
      JoinSnoc(xs[..n], xs[n], sep);
    }
  }
}
