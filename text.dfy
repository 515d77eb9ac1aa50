/**
 * String scanning shared by the regular-expression validators.
 *
 * Each validator pattern has two readings here: a ghost predicate that states
 * the language of the pattern (there is a split of the string into the parts
 * the pattern names), and an executable predicate that decides it by a single
 * scan. A lemma shows the two agree.
 */
module Text {

  /** Every character of `s` is in the class `p`. */
  predicate AllIn(s: string, p: char -> bool)
  {
    forall i :: 0 <= i < |s| ==> p(s[i])
  }

  /** `^[p]+$`: one or more characters of the class `p` and nothing else. */
  predicate NonEmptyRun(s: string, p: char -> bool)
  {
    |s| > 0 && AllIn(s, p)
  }

  /** The number of copies of `c` that end `s`. */
  function TrailingCount(s: string, c: char): (n: nat)
    ensures n <= |s|
    ensures forall i :: |s| - n <= i < |s| ==> s[i] == c
    ensures n < |s| ==> s[|s| - n - 1] != c
  {
    if |s| == 0 || s[|s| - 1] != c then 0
    else TrailingCount(s[..|s| - 1], c) + 1
  }

  /** The position of the first `c` in `s`, or `|s|` when there is none. */
  function IndexOf(s: string, c: char): (k: nat)
    ensures k <= |s|
    ensures k < |s| ==> s[k] == c
    ensures forall i :: 0 <= i < k ==> s[i] != c
  {
    if |s| == 0 then 0
    else if s[0] == c then 0
    else IndexOf(s[1..], c) + 1
  }

  /** The language of `^[p]+={0,2}$`. */
  ghost predicate PaddedRun(s: string, p: char -> bool)
  {
    exists k ::
      1 <= k <= |s| && |s| - k <= 2 && AllIn(s[..k], p) &&
      forall i :: k <= i < |s| ==> s[i] == '='
  }

  /** Decides `^[p]+={0,2}$` by stripping the trailing `=` first. */
  predicate MatchesPadded(s: string, p: char -> bool)
  {
    var n := TrailingCount(s, '=');
    n <= 2 && n < |s| && AllIn(s[..|s| - n], p)
  }

  /** The scan decides the pattern's language, given `=` is not in the class. */
  lemma MatchesPaddedIsPattern(s: string, p: char -> bool)
    requires !p('=')
    ensures MatchesPadded(s, p) <==> PaddedRun(s, p)
  {
    var n := TrailingCount(s, '=');
    if MatchesPadded(s, p) {
      var k := |s| - n;
      assert 1 <= k <= |s| && |s| - k <= 2 && AllIn(s[..k], p);
    }
    if PaddedRun(s, p) {
      var k :| 1 <= k <= |s| && |s| - k <= 2 && AllIn(s[..k], p) &&
               forall i :: k <= i < |s| ==> s[i] == '=';
      assert p(s[..k][k - 1]);
      assert n == |s| - k;
    }
  }

  /** The language of `^[hrp]+1[data]+$`. */
  ghost predicate SeparatedRun(s: string, hrp: char -> bool, data: char -> bool)
  {
    exists k ::
      1 <= k && k + 1 < |s| && s[k] == '1' &&
      AllIn(s[..k], hrp) && AllIn(s[k + 1..], data)
  }

  /** Decides `^[hrp]+1[data]+$` by splitting at the first `1`. */
  predicate MatchesSeparated(s: string, hrp: char -> bool, data: char -> bool)
  {
    var k := IndexOf(s, '1');
    1 <= k && k + 1 < |s| && AllIn(s[..k], hrp) && AllIn(s[k + 1..], data)
  }

  /** The scan decides the pattern's language, given `1` is not in the first class. */
  lemma MatchesSeparatedIsPattern(s: string, hrp: char -> bool, data: char -> bool)
    requires !hrp('1')
    ensures MatchesSeparated(s, hrp, data) <==> SeparatedRun(s, hrp, data)
  {
    var k := IndexOf(s, '1');
    if MatchesSeparated(s, hrp, data) {
      assert s[k] == '1';
    }
    if SeparatedRun(s, hrp, data) {
      var j :| 1 <= j && j + 1 < |s| && s[j] == '1' &&
               AllIn(s[..j], hrp) && AllIn(s[j + 1..], data);
      forall i | 0 <= i < j
        ensures s[i] != '1'
      {
        assert hrp(s[..j][i]);
      }
      IndexOfFirst(s, '1', j);
    }
  }

  /** A position holding `c` with no `c` before it is the first `c`. */
  lemma {:induction false} IndexOfFirst(s: string, c: char, j: nat)
    requires j < |s| && s[j] == c
    requires forall i :: 0 <= i < j ==> s[i] != c
    ensures IndexOf(s, c) == j
  {
    if j > 0 {
      assert s[0] != c;
      IndexOfFirst(s[1..], c, j - 1);
    }
  }
}
