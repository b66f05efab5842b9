/**
 * Whitespace handling used by the analysis handler: `String.prototype.trim`,
 * `split(/\s+/)` and, as an independent reference, the number of maximal runs
 * of non-whitespace characters (the words of a string).
 */
module Whitespace {

  /** ECMAScript WhiteSpace or LineTerminator: the set matched by `\s` and removed by `trim`. */
  predicate IsSpace(c: char) {
    || c == '\t' || c == '\n' || c == '\U{000B}' || c == '\U{000C}' || c == '\r' || c == ' '
    || c == '\U{00A0}' || c == '\U{1680}' || ('\U{2000}' <= c <= '\U{200A}')
    || c == '\U{2028}' || c == '\U{2029}' || c == '\U{202F}' || c == '\U{205F}'
    || c == '\U{3000}' || c == '\U{FEFF}'
  }

  predicate AllSpace(s: string) {
    forall i :: 0 <= i < |s| ==> IsSpace(s[i])
  }

  predicate NoSpace(s: string) {
    forall i :: 0 <= i < |s| ==> !IsSpace(s[i])
  }

  /** Length of the longest prefix of `s` that holds no whitespace. */
  function WordSpan(s: string): (n: nat)
    ensures n <= |s|
    ensures forall i :: 0 <= i < n ==> !IsSpace(s[i])
    ensures n < |s| ==> IsSpace(s[n])
  {
    if s == [] || IsSpace(s[0]) then 0 else 1 + WordSpan(s[1..])
  }

  /** Length of the longest prefix of `s` that is all whitespace. */
  function SpaceSpan(s: string): (n: nat)
    ensures n <= |s|
    ensures forall i :: 0 <= i < n ==> IsSpace(s[i])
    ensures n < |s| ==> !IsSpace(s[n])
  {
    if s == [] || !IsSpace(s[0]) then 0 else 1 + SpaceSpan(s[1..])
  }

  /** Length of the longest suffix of `s` that is all whitespace. */
  function TrailingSpaceSpan(s: string): (n: nat)
    ensures n <= |s|
    ensures forall i :: |s| - n <= i < |s| ==> IsSpace(s[i])
    ensures n < |s| ==> !IsSpace(s[|s| - n - 1])
  {
    if s == [] || !IsSpace(s[|s| - 1]) then 0 else 1 + TrailingSpaceSpan(s[..|s| - 1])
  }

  /** `s.trim()`: leading whitespace is removed, then trailing whitespace. */
  function Trim(s: string): (t: string)
    ensures |t| <= |s|
    ensures t == [] <==> AllSpace(s)
    ensures t != [] ==> !IsSpace(t[0]) && !IsSpace(t[|t| - 1])
  {
    var u := s[SpaceSpan(s)..];
    u[..|u| - TrailingSpaceSpan(u)]
  }

  lemma LeadingSpace(s: string)
    ensures AllSpace(s[..SpaceSpan(s)])
  {
    var lead := s[..SpaceSpan(s)];
    forall k | 0 <= k < |lead| ensures IsSpace(lead[k]) {
      assert lead[k] == s[k];
    }
  }

  lemma LeadingWord(s: string)
    ensures NoSpace(s[..WordSpan(s)])
  {
    var word := s[..WordSpan(s)];
    forall k | 0 <= k < |word| ensures !IsSpace(word[k]) {
      assert word[k] == s[k];
    }
  }

  lemma TrailingSpace(u: string)
    ensures AllSpace(u[|u| - TrailingSpaceSpan(u)..])
  {
    var j := |u| - TrailingSpaceSpan(u);
    var trail := u[j..];
    forall k | 0 <= k < |trail| ensures IsSpace(trail[k]) {
      assert trail[k] == u[j + k];
    }
  }

  /** Trim removes whitespace only: what it drops before and after the result is all whitespace. */
  lemma TrimDropsOnlySpace(s: string) returns (lead: string, trail: string)
    ensures s == lead + Trim(s) + trail
    ensures AllSpace(lead) && AllSpace(trail)
  {
    var i := SpaceSpan(s);
    var u := s[i..];
    var j := |u| - TrailingSpaceSpan(u);
    lead, trail := s[..i], u[j..];
    LeadingSpace(s);
    TrailingSpace(u);
    CutInThree(s, i, j);
  }

  lemma CutInThree(s: string, i: nat, j: nat)
    requires i <= |s| && j <= |s| - i
    ensures s == s[..i] + s[i..][..j] + s[i..][j..]
  {
    var u := s[i..];
    assert u == u[..j] + u[j..];
    assert s == s[..i] + u;
  }

  /**
   * `s.split(/\s+/)`: the pieces between the maximal whitespace runs, scanning
   * from the left. Leading (trailing) whitespace gives an empty first (last)
   * piece, and the empty string gives one empty piece.
   */
  function SplitOnSpaceRuns(s: string): (pieces: seq<string>)
    ensures |pieces| >= 1
    ensures s == [] ==> pieces == [[]]
    ensures forall k :: 0 <= k < |pieces| ==> NoSpace(pieces[k])
    ensures s != [] && !IsSpace(s[0]) ==> pieces[0] != []
    ensures forall k :: 0 < k < |pieces| - 1 ==> pieces[k] != []
    decreases |s|
  {
    var n := WordSpan(s);
    if n == |s| then [s]
    else
      var rest := s[n..];
      [s[..n]] + SplitOnSpaceRuns(rest[SpaceSpan(rest)..])
  }

  /** The pieces with the gaps between them: `pieces[0] + gaps[0] + pieces[1] + ...`. */
  function Interleave(pieces: seq<string>, gaps: seq<string>): string
    requires |pieces| >= 1 && |gaps| == |pieces| - 1
    decreases |gaps|
  {
    if gaps == [] then pieces[0] else pieces[0] + gaps[0] + Interleave(pieces[1..], gaps[1..])
  }

  /**
   * Splitting cuts exactly at the maximal whitespace runs: the input is the
   * pieces with a non-empty whitespace run between each pair of neighbours.
   * Together with `SplitOnSpaceRuns`' own guarantees (no piece holds
   * whitespace, every middle piece is non-empty) this makes each middle piece
   * one maximal run.
   */
  lemma {:induction false} SplitRebuilds(s: string) returns (gaps: seq<string>)
    ensures |gaps| == |SplitOnSpaceRuns(s)| - 1
    ensures forall k :: 0 <= k < |gaps| ==> gaps[k] != [] && AllSpace(gaps[k])
    ensures s == Interleave(SplitOnSpaceRuns(s), gaps)
    decreases |s|
  {
    var n := WordSpan(s);
    if n == |s| {
      gaps := [];
    } else {
      var rest := s[n..];
      var m := SpaceSpan(rest);
      var next := rest[m..];
      assert m >= 1;
      var later := SplitRebuilds(next);
      LeadingSpace(rest);
      CutInThree(s, n, m);
      var gap := rest[..m];
      gaps := [gap] + later;
      var pieces := SplitOnSpaceRuns(s);
      assert pieces == [s[..n]] + SplitOnSpaceRuns(next);
      assert pieces[1..] == SplitOnSpaceRuns(next);
      forall k | 0 <= k < |gaps| ensures gaps[k] != [] && AllSpace(gaps[k]) {
        if k > 0 {
          assert gaps[k] == later[k - 1];
        }
      }
      assert Interleave(pieces, gaps) == pieces[0] + gap + Interleave(pieces[1..], later);
    }
  }

  /** `s` with every whitespace character removed. */
  function Squeeze(s: string): (r: string)
    ensures NoSpace(r) && |r| <= |s|
  {
    if s == [] then [] else (if IsSpace(s[0]) then [] else [s[0]]) + Squeeze(s[1..])
  }

  function Flatten(pieces: seq<string>): string {
    if pieces == [] then [] else pieces[0] + Flatten(pieces[1..])
  }

  lemma {:induction false} SqueezeAppend(a: string, b: string)
    ensures Squeeze(a + b) == Squeeze(a) + Squeeze(b)
    decreases |a|
  {
    if a == [] {
      assert a + b == b;
    } else {
      assert (a + b)[1..] == a[1..] + b;
      SqueezeAppend(a[1..], b);
    }
  }

  lemma {:induction false} SqueezeNoSpace(s: string)
    requires NoSpace(s)
    ensures Squeeze(s) == s
    decreases |s|
  {
    if s != [] {
      SqueezeNoSpace(s[1..]);
    }
  }

  lemma {:induction false} SqueezeAllSpace(s: string)
    requires AllSpace(s)
    ensures Squeeze(s) == []
    decreases |s|
  {
    if s != [] {
      SqueezeAllSpace(s[1..]);
    }
  }

  /** Splitting loses nothing but whitespace: the pieces, put back together, are `s` without its whitespace. */
  lemma {:induction false} SplitKeepsNonSpace(s: string)
    ensures Flatten(SplitOnSpaceRuns(s)) == Squeeze(s)
    decreases |s|
  {
    var n := WordSpan(s);
    if n == |s| {
      SqueezeNoSpace(s);
      assert Flatten([s]) == s + Flatten([]);
    } else {
      var rest := s[n..];
      var next := rest[SpaceSpan(rest)..];
      SplitKeepsNonSpace(next);
      SqueezeFirstWord(s);
      var pieces := SplitOnSpaceRuns(s);
      assert pieces[1..] == SplitOnSpaceRuns(next);
    }
  }

  lemma SqueezeAroundGap(word: string, gap: string, next: string)
    requires NoSpace(word) && AllSpace(gap)
    ensures Squeeze(word + gap + next) == word + Squeeze(next)
  {
    var tail := gap + next;
    assert Squeeze(tail) == Squeeze(next) by {
      SqueezeAppend(gap, next);
      SqueezeAllSpace(gap);
    }
    assert Squeeze(word + tail) == word + Squeeze(tail) by {
      SqueezeAppend(word, tail);
      SqueezeNoSpace(word);
    }
    assert word + gap + next == word + tail;
  }

  lemma {:induction false} SqueezeFirstWord(s: string)
    requires WordSpan(s) < |s|
    ensures var rest := s[WordSpan(s)..];
      Squeeze(s) == s[..WordSpan(s)] + Squeeze(rest[SpaceSpan(rest)..])
  {
    var n := WordSpan(s);
    var rest := s[n..];
    var m := SpaceSpan(rest);
    var word, gap, next := s[..n], rest[..m], rest[m..];
    LeadingWord(s);
    LeadingSpace(rest);
    CutInThree(s, n, m);
    assert s == word + gap + next;
    SqueezeAroundGap(word, gap, next);
    assert Squeeze(s) == word + Squeeze(next);
  }

  /**
   * Number of positions of `s` where a word starts: a non-whitespace character
   * that is first or follows whitespace. `afterSpace` says whether the
   * position before `s` counts as whitespace.
   */
  function WordStarts(s: string, afterSpace: bool): nat
  {
    if s == [] then 0
    else (if afterSpace && !IsSpace(s[0]) then 1 else 0) + WordStarts(s[1..], IsSpace(s[0]))
  }

  /** Number of maximal runs of non-whitespace characters in `s`. */
  function RunCount(s: string): nat {
    WordStarts(s, true)
  }

  lemma {:induction false} WordStartsAfterWord(w: string, t: string, afterSpace: bool)
    requires w != [] && NoSpace(w)
    ensures WordStarts(w + t, afterSpace) == (if afterSpace then 1 else 0) + WordStarts(t, false)
    decreases |w|
  {
    assert (w + t)[1..] == w[1..] + t;
    if |w| > 1 {
      WordStartsAfterWord(w[1..], t, false);
    }
  }

  lemma {:induction false} WordStartsAfterSpace(sp: string, t: string, afterSpace: bool)
    requires sp != [] && AllSpace(sp)
    ensures WordStarts(sp + t, afterSpace) == WordStarts(t, true)
    decreases |sp|
  {
    assert (sp + t)[1..] == sp[1..] + t;
    if |sp| > 1 {
      WordStartsAfterSpace(sp[1..], t, true);
    }
  }

  lemma {:induction false} WordStartsBeforeSpace(t: string, sp: string, afterSpace: bool)
    requires AllSpace(sp)
    ensures WordStarts(t + sp, afterSpace) == WordStarts(t, afterSpace)
    decreases |t|
  {
    if t == [] {
      assert t + sp == sp;
      AllSpaceHasNoStarts(sp, afterSpace);
    } else {
      assert (t + sp)[1..] == t[1..] + sp;
      WordStartsBeforeSpace(t[1..], sp, IsSpace(t[0]));
    }
  }

  lemma {:induction false} AllSpaceHasNoStarts(sp: string, afterSpace: bool)
    requires AllSpace(sp)
    ensures WordStarts(sp, afterSpace) == 0
    decreases |sp|
  {
    if sp != [] {
      AllSpaceHasNoStarts(sp[1..], true);
    }
  }

  /** Equal start counts for both flags carry over to any common prefix. */
  lemma {:induction false} WordStartsCommonPrefix(a: string, x: string, y: string, afterSpace: bool)
    requires WordStarts(x, true) == WordStarts(y, true)
    requires WordStarts(x, false) == WordStarts(y, false)
    ensures WordStarts(a + x, afterSpace) == WordStarts(a + y, afterSpace)
    decreases |a|
  {
    if a == [] {
      assert a + x == x && a + y == y;
    } else {
      assert (a + x)[1..] == a[1..] + x;
      assert (a + y)[1..] == a[1..] + y;
      WordStartsCommonPrefix(a[1..], x, y, IsSpace(a[0]));
    }
  }

  /** Splitting a string with no surrounding whitespace yields exactly one piece per word. */
  lemma {:induction false} SplitCountsRuns(s: string)
    requires s != [] && !IsSpace(s[0]) && !IsSpace(s[|s| - 1])
    ensures |SplitOnSpaceRuns(s)| == RunCount(s)
    decreases |s|
  {
    var n := WordSpan(s);
    if n == |s| {
      assert s == s + [];
      WordStartsAfterWord(s, [], true);
    } else {
      var rest := s[n..];
      var m := SpaceSpan(rest);
      var next := rest[m..];
      assert m >= 1;
      assert next[|next| - 1] == s[|s| - 1];
      SplitCountsRuns(next);
      LeadingWord(s);
      LeadingSpace(rest);
      CutInThree(s, n, m);
      RunCountAroundGap(s[..n], rest[..m], next);
    }
  }

  lemma RunCountAroundGap(word: string, gap: string, next: string)
    requires word != [] && NoSpace(word) && gap != [] && AllSpace(gap)
    ensures RunCount(word + gap + next) == 1 + RunCount(next)
  {
    var tail := gap + next;
    assert word + gap + next == word + tail;
    WordStartsAfterWord(word, tail, true);
    WordStartsAfterSpace(gap, next, false);
  }

  /** Padding a string with whitespace on either side does not change its runs. */
  lemma RunCountIgnoresPadding(lead: string, s: string, trail: string)
    requires AllSpace(lead) && AllSpace(trail)
    ensures RunCount(lead + s + trail) == RunCount(s)
  {
    WordStartsBeforeSpace(lead + s, trail, true);
    if lead == [] {
      assert lead + s == s;
    } else {
      WordStartsAfterSpace(lead, s, true);
    }
  }

  /** Replacing one non-empty whitespace run with another does not change the runs. */
  lemma RunCountIgnoresRunLength(a: string, sp1: string, sp2: string, b: string)
    requires sp1 != [] && AllSpace(sp1) && sp2 != [] && AllSpace(sp2)
    ensures RunCount(a + sp1 + b) == RunCount(a + sp2 + b)
  {
    WordStartsAfterSpace(sp1, b, true);
    WordStartsAfterSpace(sp1, b, false);
    WordStartsAfterSpace(sp2, b, true);
    WordStartsAfterSpace(sp2, b, false);
    WordStartsCommonPrefix(a, sp1 + b, sp2 + b, true);
    assert a + sp1 + b == a + (sp1 + b);
    assert a + sp2 + b == a + (sp2 + b);
  }

}
