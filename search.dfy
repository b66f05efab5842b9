/**
 * Case-insensitive substring search, as a regular expression without the
 * `u` flag and with the `i` flag performs it for ASCII patterns. Without `u`,
 * no non-ASCII character folds onto an ASCII one, so comparing characters
 * after ASCII lower-casing is exact when the pattern is ASCII. `Lower` does
 * not model the folding of non-ASCII letters among themselves, which no
 * ASCII pattern can observe.
 *
 * The scanning functions carry no postconditions of their own, so that they
 * can be evaluated on concrete strings; the lemmas below tie each of them to
 * the declarative `MatchesAt`.
 */
module Search {

  /** ASCII lower-casing; every other character is left alone. */
  function Lower(c: char): char {
    if 'A' <= c <= 'Z' then (c as int - 'A' as int + 'a' as int) as char else c
  }

  /** `a` and `b` are equal up to ASCII case. */
  predicate EqualIgnoringCase(a: string, b: string) {
    |a| == |b| && forall j :: 0 <= j < |a| ==> Lower(a[j]) == Lower(b[j])
  }

  /** `pattern` occurs in `s` at index `i`, ignoring ASCII case. */
  predicate MatchesAt(s: string, pattern: string, i: int) {
    0 <= i && i + |pattern| <= |s| && EqualIgnoringCase(s[i..i + |pattern|], pattern)
  }

  /** Compares `pattern` with the start of `s`, character by character. */
  function StartsWithIgnoringCase(s: string, pattern: string): bool {
    if pattern == [] then true
    else if s == [] then false
    else Lower(s[0]) == Lower(pattern[0]) && StartsWithIgnoringCase(s[1..], pattern[1..])
  }

  /** Tries `pattern` at each index of `s`, from the left. */
  function Occurs(s: string, pattern: string): bool
    decreases |s|
  {
    if |s| < |pattern| then false
    else StartsWithIgnoringCase(s, pattern) || Occurs(s[1..], pattern)
  }

  /** An alternation of keywords: tries each keyword in turn. */
  function OccursAny(s: string, keywords: seq<string>): bool {
    if keywords == [] then false
    else Occurs(s, keywords[0]) || OccursAny(s, keywords[1..])
  }

  lemma {:induction false} StartsWithMatches(s: string, pattern: string)
    ensures StartsWithIgnoringCase(s, pattern) <==> MatchesAt(s, pattern, 0)
    decreases |pattern|
  {
    if pattern != [] && s != [] {
      StartsWithMatches(s[1..], pattern[1..]);
      if |pattern| <= |s| {
        var a, b := s[..|pattern|], s[1..][..|pattern| - 1];
        assert b == a[1..];
        if EqualIgnoringCase(b, pattern[1..]) && Lower(s[0]) == Lower(pattern[0]) {
          forall j | 0 <= j < |a| ensures Lower(a[j]) == Lower(pattern[j]) {
            if j > 0 {
              assert a[j] == b[j - 1] && pattern[j] == pattern[1..][j - 1];
            }
          }
        }
        if EqualIgnoringCase(a, pattern) {
          forall j | 0 <= j < |b| ensures Lower(b[j]) == Lower(pattern[1..][j]) {
            assert b[j] == a[j + 1] && pattern[1..][j] == pattern[j + 1];
          }
        }
      }
    }
  }

  /** Moving the window one character to the right. */
  lemma ShiftMatch(s: string, pattern: string, i: nat)
    requires s != []
    ensures MatchesAt(s[1..], pattern, i) <==> MatchesAt(s, pattern, i + 1)
  {
    if i + |pattern| <= |s| - 1 {
      assert s[1..][i..i + |pattern|] == s[i + 1..i + 1 + |pattern|];
    }
  }

  /** The scan finds `pattern` exactly when it occurs somewhere in `s`, ignoring ASCII case. */
  lemma {:induction false} OccursMatches(s: string, pattern: string)
    ensures Occurs(s, pattern) <==> exists i :: MatchesAt(s, pattern, i)
    decreases |s|
  {
    if |s| >= |pattern| {
      StartsWithMatches(s, pattern);
    }
    if |s| >= |pattern| && s != [] {
      OccursMatches(s[1..], pattern);
      if Occurs(s[1..], pattern) {
        var i :| MatchesAt(s[1..], pattern, i);
        ShiftMatch(s, pattern, i);
      }
      if i :| MatchesAt(s, pattern, i) && i > 0 {
        ShiftMatch(s, pattern, i - 1);
      }
    }
  }

  /** The alternation holds exactly when some keyword occurs somewhere in `s`, ignoring ASCII case. */
  lemma {:induction false} OccursAnyMatches(s: string, keywords: seq<string>)
    ensures OccursAny(s, keywords) <==> exists k, i :: 0 <= k < |keywords| && MatchesAt(s, keywords[k], i)
    decreases |keywords|
  {
    if keywords != [] {
      OccursMatches(s, keywords[0]);
      OccursAnyMatches(s, keywords[1..]);
      if k, i :| 0 <= k < |keywords| && MatchesAt(s, keywords[k], i) {
        if k > 0 {
          assert keywords[1..][k - 1] == keywords[k];
        }
      }
      if OccursAny(s, keywords[1..]) {
        var k, i :| 0 <= k < |keywords| - 1 && MatchesAt(s, keywords[1..][k], i);
        assert keywords[1..][k] == keywords[k + 1];
      }
    }
  }
}
