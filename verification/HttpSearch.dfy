/** Substring search, exact and case-insensitive, and how its result depends on the text. */
module HttpSearch {

  function ToLower(c: char): char {
    if 'A' <= c <= 'Z' then c - 'A' + 'a' else c
  }

  predicate Same(a: char, b: char, fold: bool) {
    if fold then ToLower(a) == ToLower(b) else a == b
  }

  predicate MatchAt(s: string, pat: string, i: int, fold: bool) {
    0 <= i && i + |pat| <= |s| && forall j :: 0 <= j < |pat| ==> Same(s[i + j], pat[j], fold)
  }

  function FindFrom(s: string, pat: string, fold: bool, from: nat): (k: int)
    requires from <= |s|
    ensures -1 <= k && (k >= 0 ==> k + |pat| <= |s|)
    decreases |s| - from
  {
    if MatchAt(s, pat, from, fold) then from
    else if from == |s| then -1
    else FindFrom(s, pat, fold, from + 1)
  }

  /** The first position of pat in s, or -1. */
  function Find(s: string, pat: string, fold: bool): (k: int)
    ensures -1 <= k && (k >= 0 ==> k + |pat| <= |s|)
  {
    FindFrom(s, pat, fold, 0)
  }

  ghost predicate NoMatch(s: string, pat: string, from: int, to: int, fold: bool) {
    forall i :: from <= i < to ==> !MatchAt(s, pat, i, fold)
  }

  lemma {:induction false} FindFromSpec(s: string, pat: string, fold: bool, from: nat)
    requires from <= |s|
    ensures var k := FindFrom(s, pat, fold, from);
            if k >= 0 then from <= k && MatchAt(s, pat, k, fold) && NoMatch(s, pat, from, k, fold)
            else NoMatch(s, pat, from, |s| + 1, fold)
    decreases |s| - from
  {
    if !MatchAt(s, pat, from, fold) && from < |s| {
      FindFromSpec(s, pat, fold, from + 1);
    }
  }

  /** The result is the first match, and -1 means that there is none. */
  lemma FindSpec(s: string, pat: string, fold: bool)
    ensures var k := Find(s, pat, fold);
            if k >= 0 then MatchAt(s, pat, k, fold) && NoMatch(s, pat, 0, k, fold)
            else NoMatch(s, pat, 0, |s| + 1, fold)
  {
    FindFromSpec(s, pat, fold, 0);
  }

  /** A match lies in the text before position n, so it is there in every text with the same start. */
  lemma MatchInPrefix(p: string, s: string, pat: string, i: int, fold: bool)
    requires p <= s && i + |pat| <= |p|
    ensures MatchAt(p, pat, i, fold) <==> MatchAt(s, pat, i, fold)
  {
    if 0 <= i {
      assert forall j :: 0 <= j < |pat| ==> Same(p[i + j], pat[j], fold) == Same(s[i + j], pat[j], fold);
    }
  }

  /** First-occurrence stability: once it is inside the text, appending does not change the result. */
  lemma FindStable(p: string, s: string, pat: string, fold: bool)
    requires p <= s && 0 <= Find(s, pat, fold)
    ensures Find(p, pat, fold) == if Find(s, pat, fold) + |pat| <= |p| then Find(s, pat, fold) else -1
  {
    var k, m := Find(s, pat, fold), Find(p, pat, fold);
    FindSpec(s, pat, fold);
    FindSpec(p, pat, fold);
    if m >= 0 {
      MatchInPrefix(p, s, pat, m, fold);
      assert !(m < k);
    }
    if k + |pat| <= |p| {
      MatchInPrefix(p, s, pat, k, fold);
    }
  }

  /** What is found once stays found. */
  lemma FindGrows(p: string, s: string, pat: string, fold: bool)
    requires p <= s && 0 <= Find(p, pat, fold)
    ensures Find(s, pat, fold) == Find(p, pat, fold)
  {
    var k := Find(p, pat, fold);
    FindSpec(p, pat, fold);
    FindSpec(s, pat, fold);
    MatchInPrefix(p, s, pat, k, fold);
    assert Find(s, pat, fold) >= 0;
    FindStable(p, s, pat, fold);
  }

  lemma FindIs(s: string, pat: string, fold: bool, k: nat)
    requires MatchAt(s, pat, k, fold) && NoMatch(s, pat, 0, k, fold)
    ensures Find(s, pat, fold) == k
  {
    FindSpec(s, pat, fold);
  }

  /** Dropping a prefix shifts a match. */
  lemma MatchShift(a: string, b: string, pat: string, i: int, fold: bool)
    requires i >= |a|
    ensures MatchAt(a + b, pat, i, fold) <==> MatchAt(b, pat, i - |a|, fold)
  {
    var s := a + b;
    if i + |pat| <= |s| {
      assert forall j :: 0 <= j < |pat| ==> Same(s[i + j], pat[j], fold) == Same(b[i - |a| + j], pat[j], fold);
    }
  }

  // ---------- Upper and lower case ----------

  /** The same character, or the two cases of one letter of the alphabet. */
  predicate Related(a: char, b: char) {
    || a == b
    || ('A' <= a <= 'Z' && b as int == a as int + 32)
    || ('A' <= b <= 'Z' && a as int == b as int + 32)
  }

  /** The case-insensitive search takes exactly the cases of one letter for the same. */
  lemma SameIff(a: char, b: char)
    ensures Same(a, b, true) <==> Related(a, b)
    ensures Same(a, b, false) <==> a == b
  {
  }

  /** Two texts that differ in the case of letters only. */
  ghost predicate RelatedTexts(s: string, s': string) {
    |s'| == |s| && forall i :: 0 <= i < |s| ==> Related(s[i], s'[i])
  }

  predicate IsLetter(c: char) {
    'A' <= c <= 'Z' || 'a' <= c <= 'z'
  }

  lemma RelatedMatch(s: string, s': string, pat: string, i: int, fold: bool)
    requires RelatedTexts(s, s') && (fold || forall j :: 0 <= j < |pat| ==> !IsLetter(pat[j]))
    ensures MatchAt(s, pat, i, fold) <==> MatchAt(s', pat, i, fold)
  {
    if 0 <= i && i + |pat| <= |s| {
      forall j | 0 <= j < |pat|
        ensures Same(s[i + j], pat[j], fold) <==> Same(s'[i + j], pat[j], fold)
      {
        assert Related(s[i + j], s'[i + j]);
      }
    }
  }

  /**
   The case of letters in the text makes no difference to a case-insensitive search, nor to
   an exact search for a text without letters.
   */
  lemma {:induction false} FindFromRelated(s: string, s': string, pat: string, fold: bool, from: nat)
    requires RelatedTexts(s, s') && (fold || forall j :: 0 <= j < |pat| ==> !IsLetter(pat[j])) && from <= |s|
    ensures FindFrom(s', pat, fold, from) == FindFrom(s, pat, fold, from)
    decreases |s| - from
  {
    RelatedMatch(s, s', pat, from, fold);
    if from < |s| {
      FindFromRelated(s, s', pat, fold, from + 1);
    }
  }

  lemma FindRelated(s: string, s': string, pat: string, fold: bool)
    requires RelatedTexts(s, s') && (fold || forall j :: 0 <= j < |pat| ==> !IsLetter(pat[j]))
    ensures Find(s', pat, fold) == Find(s, pat, fold)
  {
    FindFromRelated(s, s', pat, fold, 0);
  }

  lemma RelatedAppend(a: string, a': string, b: string, b': string)
    requires RelatedTexts(a, a') && RelatedTexts(b, b')
    ensures RelatedTexts(a + b, a' + b')
  {
    forall i | 0 <= i < |a + b|
      ensures Related((a + b)[i], (a' + b')[i])
    {
      assert i < |a| ==> Related(a[i], a'[i]);
      assert i >= |a| ==> Related(b[i - |a|], b'[i - |a|]);
    }
  }
}
