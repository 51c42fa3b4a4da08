/** The wildcard matcher used by every selector and suppression pattern.

  `Matches` is the meaning of a pattern: `?` stands for one character, `*` for any run of
  characters, every other character for itself. `Scan` is the state machine of the matcher, which
  remembers only the last `*` it met and tests the literal branch before the `*` branch.
  The matcher never accepts wrongly; it is complete exactly when a `*` of the pattern
  cannot be mistaken for a `*` of the text. */
module Glob {

  /** The text from position i on is one of those that the pattern from position j on stands for. */
  ghost predicate MatchesFrom(s: string, i: nat, pat: string, j: nat)
    requires i <= |s| && j <= |pat|
    decreases |pat| - j
  {
    if j == |pat| then i == |s|
    else
      var next := j + 1;
      if pat[j] == '*' then exists k: nat :: i <= k <= |s| && MatchesFrom(s, k, pat, next)
      else i < |s| && (pat[j] == '?' || pat[j] == s[i]) && MatchesFrom(s, i + 1, pat, next)
  }

  ghost predicate Matches(s: string, pat: string) {
    MatchesFrom(s, 0, pat, 0)
  }

  /** The matcher's variables are in range: `star` is -1 or the last `*` stepped over, and `retry`
    is the text position from which that star was last extended. */
  predicate InRange(s: string, pat: string, si: nat, pi: nat, star: int, retry: nat) {
    && retry <= si <= |s|
    && -1 <= star < pi <= |pat|
    && (star >= 0 ==> pat[star] == '*')
  }

  predicate OnlyStars(pat: string, pi: nat)
    requires pi <= |pat|
  {
    forall i :: pi <= i < |pat| ==> pat[i] == '*'
  }

  function Scan(s: string, pat: string, si: nat, pi: nat, star: int, retry: nat): bool
    requires InRange(s, pat, si, pi, star, retry)
    decreases |pat| - star, |s| - retry, |s| - si
  {
    if si < |s| then
      if pi < |pat| && (pat[pi] == '?' || pat[pi] == s[si]) then Scan(s, pat, si + 1, pi + 1, star, retry)
      else if pi < |pat| && pat[pi] == '*' then Scan(s, pat, si, pi + 1, pi, si)
      else if star >= 0 then Scan(s, pat, retry + 1, star + 1, star, retry + 1)
      else false
    else OnlyStars(pat, pi)
  }

  function Accepts(s: string, pat: string): bool {
    Scan(s, pat, 0, 0, -1, 0)
  }

  // ---------------------------------------------------------------- soundness

  /** Some extension of the remembered star, beyond the one being tried, matches. */
  ghost predicate LaterRetry(s: string, pat: string, star: int, retry: nat)
    requires -1 <= star < |pat|
  {
    var behind := star + 1;
    star >= 0 && exists j: nat :: retry < j <= |s| && MatchesFrom(s, j, pat, behind)
  }

  lemma {:induction false} StarsMatchTheEnd(s: string, pat: string, pi: nat)
    requires pi <= |pat|
    ensures MatchesFrom(s, |s|, pat, pi) <==> OnlyStars(pat, pi)
    decreases |pat| - pi
  {
    if pi < |pat| {
      StarsMatchTheEnd(s, pat, pi + 1);
    }
  }

  lemma {:induction false} ScanIsSound(s: string, pat: string, si: nat, pi: nat, star: int, retry: nat)
    requires InRange(s, pat, si, pi, star, retry)
    requires Scan(s, pat, si, pi, star, retry)
    ensures MatchesFrom(s, si, pat, pi) || LaterRetry(s, pat, star, retry)
    decreases |pat| - star, |s| - retry, |s| - si
  {
    if si < |s| {
      if pi < |pat| && (pat[pi] == '?' || pat[pi] == s[si]) {
        ScanIsSound(s, pat, si + 1, pi + 1, star, retry);
      } else if pi < |pat| && pat[pi] == '*' {
        ScanIsSound(s, pat, si, pi + 1, pi, si);
      } else {
        ScanIsSound(s, pat, retry + 1, star + 1, star, retry + 1);
      }
    } else {
      StarsMatchTheEnd(s, pat, pi);
    }
  }

  /** The matcher accepts only what the pattern means, whatever the text contains. */
  lemma AcceptsIsSound(s: string, pat: string)
    ensures Accepts(s, pat) ==> Matches(s, pat)
  {
    if Accepts(s, pat) {
      ScanIsSound(s, pat, 0, 0, -1, 0);
    }
  }

  // ------------------------------------------------------------- completeness

  /** Since the last star the matcher has only stepped over single characters. */
  ghost predicate InStep(pat: string, si: nat, pi: nat, star: int, retry: nat)
    requires -1 <= star < pi <= |pat|
  {
    star >= 0 ==> si - retry == pi - star - 1 && forall x :: star < x < pi ==> pat[x] != '*'
  }

  lemma {:induction false} SkipLiterals(s: string, i: nat, pat: string, j: nat, n: nat)
    requires i <= |s| && j + n <= |pat| && MatchesFrom(s, i, pat, j)
    requires forall x :: j <= x < j + n ==> pat[x] != '*'
    ensures i + n <= |s| && MatchesFrom(s, i + n, pat, j + n)
    decreases n
  {
    if n > 0 {
      SkipLiterals(s, i + 1, pat, j + 1, n - 1);
    }
  }

  /** A later retry that would succeed survives a newer star: retrying only the last star loses nothing. */
  lemma RetryMovesToNewStar(s: string, pat: string, si: nat, pi: nat, star: int, retry: nat)
    requires InRange(s, pat, si, pi, star, retry) && InStep(pat, si, pi, star, retry)
    requires LaterRetry(s, pat, star, retry)
    ensures si < |s|
    ensures pi < |pat| && pat[pi] == '*' ==> LaterRetry(s, pat, pi, si)
  {
    var j: nat :| retry < j <= |s| && MatchesFrom(s, j, pat, star + 1);
    SkipLiterals(s, j, pat, star + 1, si - retry);
    if pi < |pat| && pat[pi] == '*' {
      var at, next := j + (si - retry), pi + 1;
      var k: nat :| at <= k <= |s| && MatchesFrom(s, k, pat, next);
    }
  }

  lemma {:induction false} ScanIsComplete(s: string, pat: string, si: nat, pi: nat, star: int, retry: nat)
    requires '*' !in s || '*' !in pat
    requires InRange(s, pat, si, pi, star, retry) && InStep(pat, si, pi, star, retry)
    requires MatchesFrom(s, si, pat, pi) || LaterRetry(s, pat, star, retry)
    ensures Scan(s, pat, si, pi, star, retry)
    decreases |pat| - star, |s| - retry, |s| - si
  {
    if LaterRetry(s, pat, star, retry) {
      RetryMovesToNewStar(s, pat, si, pi, star, retry);
    }
    if si < |s| {
      if pi < |pat| && (pat[pi] == '?' || pat[pi] == s[si]) {
        assert s[si] in s && pat[pi] in pat;
        ScanIsComplete(s, pat, si + 1, pi + 1, star, retry);
      } else if pi < |pat| && pat[pi] == '*' {
        ScanIsComplete(s, pat, si, pi + 1, pi, si);
      } else {
        ScanIsComplete(s, pat, retry + 1, star + 1, star, retry + 1);
      }
    } else {
      StarsMatchTheEnd(s, pat, pi);
    }
  }

  lemma AcceptsIsComplete(s: string, pat: string)
    requires '*' !in s || '*' !in pat
    ensures Accepts(s, pat) <==> Matches(s, pat)
  {
    AcceptsIsSound(s, pat);
    if Matches(s, pat) {
      ScanIsComplete(s, pat, 0, 0, -1, 0);
    }
  }

  // ---------------------------------------------- where completeness fails

  /** With no star remembered, and none ahead that the text does not cover literally, the matcher
    walks both strings in lock step and so needs equal lengths. */
  lemma {:induction false} LockStepFails(s: string, pat: string, i: nat)
    requires i <= |s| && i <= |pat| && |s| != |pat|
    requires forall j :: i <= j < |pat| && pat[j] == '*' ==> j < |s| && s[j] == '*'
    ensures !Scan(s, pat, i, i, -1, 0)
    decreases |s| - i
  {
    if i < |s| && i < |pat| && (pat[i] == '?' || pat[i] == s[i]) {
      LockStepFails(s, pat, i + 1);
    } else if i == |s| {
      assert pat[i] != '*';
    }
  }

  /** A stretch of the text that is spelled out in the pattern matches it. */
  lemma {:induction false} SpelledOutMatches(s: string, i: nat, pat: string, j: nat, n: nat)
    requires i + n <= |s| && j + n <= |pat|
    requires s[i..i + n] == pat[j..j + n]
    requires MatchesFrom(s, i + n, pat, j + n)
    ensures MatchesFrom(s, i, pat, j)
    decreases n
  {
    if n > 0 {
      assert s[i] == s[i..i + n][0] && pat[j] == pat[j..j + n][0];
      assert s[i + 1..i + n] == s[i..i + n][1..] && pat[j + 1..j + n] == pat[j..j + n][1..];
      SpelledOutMatches(s, i + 1, pat, j + 1, n - 1);
    }
  }

  function LastStar(s: string): (k: nat)
    requires '*' in s
    ensures k < |s| && s[k] == '*' && forall i :: k < i < |s| ==> s[i] != '*'
  {
    if s[|s| - 1] == '*' then |s| - 1 else LastStar(s[..|s| - 1])
  }

  /** A text with a star, and the pattern made of it by writing a `?` behind its last star:
    the pattern means the text, but the matcher refuses it. */
  lemma StarInTextIsMissed(s: string)
    requires '*' in s
    ensures exists pat :: Matches(s, pat) && !Accepts(s, pat)
  {
    var k := LastStar(s);
    var pat := s[..k + 1] + "?" + s[k + 1..];
    assert MatchesFrom(s, |s|, pat, |pat|);
    SpelledOutMatches(s, k + 1, pat, k + 2, |s| - k - 1);
    assert MatchesFrom(s, k + 1, pat, k + 2);
    assert MatchesFrom(s, k, pat, k + 1);
    assert MatchesFrom(s, k, pat, k);
    SpelledOutMatches(s, 0, pat, 0, k);
    LockStepFails(s, pat, 0);
    assert Matches(s, pat) && !Accepts(s, pat);
  }

  /** A pattern with a star, and the text made of it by writing one more character behind its last star:
    the pattern means the text, but the matcher refuses it. */
  lemma StarInPatternIsMissed(pat: string)
    requires '*' in pat
    ensures exists s :: Matches(s, pat) && !Accepts(s, pat)
  {
    var k := LastStar(pat);
    var s := pat[..k + 1] + "y" + pat[k + 1..];
    assert MatchesFrom(s, |s|, pat, |pat|);
    SpelledOutMatches(s, k + 2, pat, k + 1, |pat| - k - 1);
    assert MatchesFrom(s, k + 2, pat, k + 1);
    assert MatchesFrom(s, k, pat, k);
    SpelledOutMatches(s, 0, pat, 0, k);
    LockStepFails(s, pat, 0);
    assert Matches(s, pat) && !Accepts(s, pat);
  }

  /** The texts on which the matcher agrees with the meaning of every pattern are exactly those
    without a literal `*`. */
  lemma ExactForText(s: string)
    ensures (forall pat :: Accepts(s, pat) == Matches(s, pat)) <==> '*' !in s
  {
    if '*' in s {
      StarInTextIsMissed(s);
    } else {
      forall pat ensures Accepts(s, pat) == Matches(s, pat) { AcceptsIsComplete(s, pat); }
    }
  }

  /** The patterns on which the matcher agrees with their meaning for every text are exactly those
    without a `*`. */
  lemma ExactForPattern(pat: string)
    ensures (forall s :: Accepts(s, pat) == Matches(s, pat)) <==> '*' !in pat
  {
    if '*' in pat {
      StarInPatternIsMissed(pat);
    } else {
      forall s ensures Accepts(s, pat) == Matches(s, pat) { AcceptsIsComplete(s, pat); }
    }
  }

  // --------------------------------------------------- what a pattern means

  /** How far the first star reaches. */
  lemma StarReaches(s: string, i: nat, pat: string, j: nat, next: nat) returns (k: nat)
    requires i <= |s| && j < |pat| && pat[j] == '*' && next == j + 1 && MatchesFrom(s, i, pat, j)
    ensures i <= k <= |s| && MatchesFrom(s, k, pat, next)
  {
    k :| i <= k <= |s| && MatchesFrom(s, k, pat, next);
  }

  lemma {:induction false} MatchesShift(s: string, i: nat, di: nat, pat: string, j: nat, dj: nat)
    requires i + di <= |s| && j + dj <= |pat|
    ensures MatchesFrom(s, i + di, pat, j + dj) <==> MatchesFrom(s[i..], di, pat[j..], dj)
    decreases |pat| - dj
  {
    var t, p := s[i..], pat[j..];
    if dj < |p| {
      var next, next' := j + dj + 1, dj + 1;
      assert p[dj] == pat[j + dj];
      if pat[j + dj] == '*' {
        forall k: nat | di <= k <= |t| ensures MatchesFrom(s, i + k, pat, next) <==> MatchesFrom(t, k, p, next') {
          MatchesShift(s, i, k, pat, j, dj + 1);
        }
        if MatchesFrom(s, i + di, pat, j + dj) {
          var k := StarReaches(s, i + di, pat, j + dj, next);
          assert MatchesFrom(s, i + (k - i), pat, next) && MatchesFrom(t, k - i, p, next');
        }
        if MatchesFrom(t, di, p, dj) {
          var k := StarReaches(t, di, p, dj, next');
          assert MatchesFrom(s, i + k, pat, next);
        }
      } else if i + di < |s| {
        assert t[di] == s[i + di];
        MatchesShift(s, i, di + 1, pat, j, dj + 1);
      }
    }
  }

  lemma FromSuffix(s: string, i: nat, pat: string, j: nat)
    requires i <= |s| && j <= |pat|
    ensures MatchesFrom(s, i, pat, j) <==> Matches(s[i..], pat[j..])
  {
    MatchesShift(s, i, 0, pat, j, 0);
  }

  lemma EmptyPattern(s: string)
    ensures Matches(s, "") <==> s == ""
  {
  }

  lemma FirstChar(s: string, c: char, pat: string)
    requires c != '*'
    ensures Matches(s, [c] + pat) <==> s != "" && (c == '?' || s[0] == c) && Matches(s[1..], pat)
  {
    var p := [c] + pat;
    assert p[1..] == pat;
    if s != "" { FromSuffix(s, 1, p, 1); }
  }

  lemma WholeMatch(s: string, pat: string)
    ensures Matches(s, pat) <==> MatchesFrom(s, 0, pat, 0)
  {
  }
  // -------------------------------------------------------------- the matcher

  lemma FirstStar(s: string, pat: string)
    ensures Matches(s, "*" + pat) <==> exists k: nat :: k <= |s| && Matches(s[k..], pat)
  {
    hide Matches;
    var p, next := "*" + pat, 1;
    assert p[1..] == pat;
    forall k: nat | k <= |s| ensures MatchesFrom(s, k, p, next) <==> Matches(s[k..], pat) { FromSuffix(s, k, p, 1); }
    assert Matches(s, p) <==> MatchesFrom(s, 0, p, 0) by { WholeMatch(s, p); }
  }

  /** The empty pattern stands for the empty text; a first `?` for one character, whatever it is; a first `*` for any
    number of characters; any other first character for itself. */
  lemma PatternMeans(s: string, c: char, pat: string)
    ensures Matches(s, "") <==> s == ""
    ensures Matches(s, "?" + pat) <==> s != "" && Matches(s[1..], pat)
    ensures Matches(s, "*" + pat) <==> exists k: nat :: k <= |s| && Matches(s[k..], pat)
    ensures c != '?' && c != '*' ==> (Matches(s, [c] + pat) <==> s != "" && s[0] == c && Matches(s[1..], pat))
  {
    hide MatchesFrom;
    FirstChar(s, '?', pat);
    FirstStar(s, pat);
    if c != '*' { FirstChar(s, c, pat); }
    EmptyPattern(s);
  }

  /** The matcher itself. */
  method MatchGlob(s: string, pat: string) returns (ok: bool)
    ensures ok == Accepts(s, pat)
    ensures ok ==> Matches(s, pat)
    ensures '*' !in s || '*' !in pat ==> ok == Matches(s, pat)
  {
    var si, pi, star, retry := 0, 0, -1, 0;
    AcceptsIsSound(s, pat);
    if '*' !in s || '*' !in pat { AcceptsIsComplete(s, pat); }
    while si < |s|
      invariant InRange(s, pat, si, pi, star, retry)
      invariant Scan(s, pat, si, pi, star, retry) == Accepts(s, pat)
      decreases |pat| - star, |s| - retry, |s| - si
    {
      if pi < |pat| && (pat[pi] == '?' || pat[pi] == s[si]) {
        si, pi := si + 1, pi + 1;
      } else if pi < |pat| && pat[pi] == '*' {
        star, pi, retry := pi, pi + 1, si;
      } else if star >= 0 {
        retry := retry + 1;
        pi, si := star + 1, retry;
      } else {
        return false;
      }
    }
    ghost var rest := pi;
    while pi < |pat| && pat[pi] == '*'
      invariant rest <= pi <= |pat|
      invariant forall i :: rest <= i < pi ==> pat[i] == '*'
    {
      pi := pi + 1;
    }
    ok := pi == |pat|;
  }
}
