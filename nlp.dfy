/**
 * The AI service's keyword matcher: `normalize_text`, `extract_skills` over
 * the skill catalogue, and `calculate_match`.
 */
module Nlp {
  import opened Ascii
  import opened PyText
  import opened StringOrder
  import Skills
  import Arith

  /**
   * `normalize_text`: lower-case, blank every character outside
   * `[a-z0-9+]` and whitespace, and collapse whitespace runs into one space.
   * Unlike `clean_text` it does not strip the ends.
   */
  function NormalizeText(text: string): (r: string)
    ensures |r| <= |text|
    ensures TokensAndSpaces(r)
    ensures NoDoubleSpace(r)
    ensures Tokens(r) == Tokens(Lower(text))
  {
    var blanked := BlankDisallowed(Lower(text));
    var r := Collapse(blanked);
    RewritesKeepTokens(Lower(text));
    CollapseKeepsTokens(blanked);
    r
  }

  /**
   * `\w` as the `re` module sees it, restricted to ASCII: every text this
   * predicate is asked about has been normalised to ASCII first.
   */
  predicate IsWordChar(c: char) {
    IsLower(c) || IsUpper(c) || '0' <= c <= '9' || c == '_'
  }

  /** `\b` holds at position `k` of `t`: a word character on exactly one side. */
  predicate AtBoundary(t: string, k: int)
    requires 0 <= k <= |t|
  {
    (0 < k && IsWordChar(t[k - 1])) != (k < |t| && IsWordChar(t[k]))
  }

  /** `re.search(r"\b" + re.escape(p) + r"\b", t)` finds a match. */
  predicate OccursAsWord(p: string, t: string) {
    exists i :: 0 <= i && i + |p| <= |t| && t[i..i + |p|] == p && AtBoundary(t, i) && AtBoundary(t, i + |p|)
  }

  /** The catalogue skills whose lower-case form occurs as a word in `t`. */
  function Detected(t: string): set<string> {
    set s | s in Skills.SKILLS && OccursAsWord(Lower(s), t)
  }

  /**
   * What `extract_skills(text)` returns: nothing for the empty text,
   * otherwise the detected catalogue skills in ascending order, each once.
   */
  function ExtractedSkills(text: string): (r: seq<string>)
    ensures text == "" ==> r == []
    ensures StrictlyAscending(r)
    ensures forall s :: s in r ==> s in Skills.SKILLS
    ensures forall s :: s in r <==>
      text != "" && s in Skills.SKILLS && OccursAsWord(Lower(s), NormalizeText(text))
  {
    if text == "" then [] else Sorted(Detected(NormalizeText(text)))
  }

  /**
   * `extract_skills`: scans the catalogue in order, adding every skill found
   * in the normalised text to a set, and returns the set sorted.
   */
  method ExtractSkills(text: string) returns (skills: seq<string>)
    ensures skills == ExtractedSkills(text)
  {
    if text == "" {
      return [];
    }
    var t := NormalizeText(text);
    var found: set<string> := {};
    for i := 0 to |Skills.SKILLS|
      invariant found == DetectedAmong(Skills.SKILLS[..i], t)
    {
      var skill := Skills.SKILLS[i];
      var skillLower := Lower(skill);
      DetectedAmongStep(Skills.SKILLS[..i], skill, t);
      PrefixStep(Skills.SKILLS, i);
      if OccursAsWord(skillLower, t) {
        found := found + {skill};
      }
    }
    PrefixStep(Skills.SKILLS, |Skills.SKILLS|);
    DetectedAmongCatalogue(text, t);
    skills := Sorted(found);
  }

  /** Growing a prefix by one element, and the full prefix. */
  lemma PrefixStep<T>(xs: seq<T>, i: nat)
    requires i <= |xs|
    ensures i < |xs| ==> xs[..i + 1] == xs[..i] + [xs[i]]
    ensures xs[..|xs|] == xs
  {
  }

  /** Scanning the whole catalogue detects what `ExtractedSkills` sorts. */
  lemma DetectedAmongCatalogue(text: string, t: string)
    requires text != "" && t == NormalizeText(text)
    ensures ExtractedSkills(text) == Sorted(DetectedAmong(Skills.SKILLS, t))
  {
    assert DetectedAmong(Skills.SKILLS, t) == Detected(t);
  }

  /** The entries of `xs` whose lower-case form occurs as a word in `t`. */
  function DetectedAmong(xs: seq<string>, t: string): set<string> {
    set s | s in xs && OccursAsWord(Lower(s), t)
  }

  /** Scanning one more catalogue entry adds it exactly when it occurs. */
  lemma DetectedAmongStep(xs: seq<string>, x: string, t: string)
    ensures DetectedAmong(xs + [x], t)
         == DetectedAmong(xs, t) + (if OccursAsWord(Lower(x), t) then {x} else {})
  {
  }

  /**
   * The catalogue entry "scikit-learn" is never reported: normalisation
   * turns every '-' into a space, so the entry cannot occur in the text.
   */
  lemma ScikitLearnNeverReported(text: string)
    ensures "scikit-learn" !in ExtractedSkills(text)
  {
    var p := "scikit-learn";
    assert p[6] == '-';
    assert HasNoUpper(p);
    LowerFixesLowercase(p);
    if text != "" {
      OnlyTokenCharsOccur(p, 6, NormalizeText(text));
    }
  }

  /**
   * `\b` needs a word character on exactly one side, and '+' is not one:
   * "c++" is matched only where a letter, digit or '_' follows it directly,
   * and "c" is matched in front of "++".
   */
  lemma PlusPlusNeedsWordCharAfter()
    ensures !OccursAsWord("c++", "c++")
    ensures !OccursAsWord("c++", "c++ dev")
    ensures OccursAsWord("c++", "c++17")
    ensures OccursAsWord("c", "c++")
  {
    var t := "c++17";
    assert t[0..3] == "c++" && AtBoundary(t, 0) && AtBoundary(t, 3);
    var u := "c++";
    assert u[0..1] == "c" && AtBoundary(u, 0) && AtBoundary(u, 1);
    var v := "c++ dev";
    assert !AtBoundary(v, 3);
    assert forall i :: 0 < i < |v| ==> v[i] != 'c';
  }

  /**
   * A normalised text and the same text with its leading and trailing
   * spaces cut off hold the same catalogue skills.
   */
  lemma DetectedInTrimmed(n: string, i: int, j: int)
    requires TokensAndSpaces(n) && 0 <= i <= j <= |n|
    requires forall k :: 0 <= k < i ==> IsSpace(n[k])
    requires forall k :: j <= k < |n| ==> IsSpace(n[k])
    ensures Detected(n) == Detected(n[i..j])
  {
    Skills.CatalogueIsLowercase();
    forall s | s in Skills.SKILLS
      ensures OccursAsWord(Lower(s), n) <==> OccursAsWord(Lower(s), n[i..j])
    {
      LowerFixesLowercase(s);
      OccursInTrimmed(s, n, i, j);
    }
  }

  /** No catalogue skill occurs in the empty text. */
  lemma NothingDetectedInEmpty()
    ensures Detected("") == {}
  {
    Skills.CatalogueIsLowercase();
  }

  /**
   * A pattern that neither starts nor ends with a space occurs as a word in
   * a text iff it occurs as a word in the text with its leading and
   * trailing spaces cut off.
   */
  lemma OccursInTrimmed(p: string, s: string, i: int, j: int)
    requires p != [] && p[0] != ' ' && p[|p| - 1] != ' '
    requires 0 <= i <= j <= |s|
    requires forall k :: 0 <= k < i ==> s[k] == ' '
    requires forall k :: j <= k < |s| ==> s[k] == ' '
    ensures OccursAsWord(p, s) <==> OccursAsWord(p, s[i..j])
  {
    if OccursAsWord(p, s) {
      var m :| 0 <= m && m + |p| <= |s| && s[m..m + |p|] == p && AtBoundary(s, m) && AtBoundary(s, m + |p|);
      OccurrenceInTrimmed(p, s, i, j, m);
    }
    var t := s[i..j];
    if OccursAsWord(p, t) {
      var m :| 0 <= m && m + |p| <= |t| && t[m..m + |p|] == p && AtBoundary(t, m) && AtBoundary(t, m + |p|);
      OccurrenceFromTrimmed(p, s, i, j, m);
    }
  }

  /** An occurrence in the part between the spaces cut off is one in the whole text. */
  lemma OccurrenceFromTrimmed(p: string, s: string, i: int, j: int, m: int)
    requires 0 <= i <= j <= |s|
    requires forall k :: 0 <= k < i ==> s[k] == ' '
    requires forall k :: j <= k < |s| ==> s[k] == ' '
    requires 0 <= m && m + |p| <= j - i && s[i..j][m..m + |p|] == p
    requires AtBoundary(s[i..j], m) && AtBoundary(s[i..j], m + |p|)
    ensures OccursAsWord(p, s)
  {
    BoundaryTrim(s, i, j, i + m);
    BoundaryTrim(s, i, j, i + m + |p|);
    SliceOfSlice(s, i, j, m, m + |p|);
  }

  /** An occurrence in the text lies inside the part between the spaces cut off. */
  lemma OccurrenceInTrimmed(p: string, s: string, i: int, j: int, m: int)
    requires p != [] && p[0] != ' ' && p[|p| - 1] != ' '
    requires 0 <= i <= j <= |s|
    requires forall k :: 0 <= k < i ==> s[k] == ' '
    requires forall k :: j <= k < |s| ==> s[k] == ' '
    requires 0 <= m && m + |p| <= |s| && s[m..m + |p|] == p && AtBoundary(s, m) && AtBoundary(s, m + |p|)
    ensures OccursAsWord(p, s[i..j])
  {
    OccurrenceWithin(p, s, i, j, m);
    BoundaryTrim(s, i, j, m);
    BoundaryTrim(s, i, j, m + |p|);
    SliceOfSlice(s, i, j, m - i, m - i + |p|);
  }

  /** A word that neither starts nor ends with a space lies between the spaces cut off. */
  lemma OccurrenceWithin(p: string, s: string, i: int, j: int, m: int)
    requires p != [] && p[0] != ' ' && p[|p| - 1] != ' '
    requires 0 <= i <= j <= |s|
    requires forall k :: 0 <= k < i ==> s[k] == ' '
    requires forall k :: j <= k < |s| ==> s[k] == ' '
    requires 0 <= m && m + |p| <= |s| && s[m..m + |p|] == p
    ensures i <= m && m + |p| <= j
  {
    assert s[m] == s[m..m + |p|][0];
    assert s[m + |p| - 1] == s[m..m + |p|][|p| - 1];
  }

  /** A slice of a slice is a slice of the whole. */
  lemma SliceOfSlice(s: string, i: int, j: int, a: int, b: int)
    requires 0 <= i <= j <= |s| && 0 <= a <= b <= j - i
    ensures s[i..j][a..b] == s[i + a..i + b]
  {
    var inner, outer := s[i..j][a..b], s[i + a..i + b];
    assert forall k :: 0 <= k < |inner| ==> inner[k] == outer[k];
  }

  /** Cutting spaces off both ends of a text keeps the word boundaries of what is left. */
  lemma BoundaryTrim(s: string, i: int, j: int, k: int)
    requires 0 <= i <= k <= j <= |s|
    requires forall k :: 0 <= k < i ==> s[k] == ' '
    requires forall k :: j <= k < |s| ==> s[k] == ' '
    ensures AtBoundary(s, k) == AtBoundary(s[i..j], k - i)
  {
    var t := s[i..j];
    if k - i > 0 { assert t[k - i - 1] == s[k - 1]; }
    if k - i < |t| { assert t[k - i] == s[k]; }
  }

  /** A pattern with a character outside `[a-z0-9+ ]` never occurs in a normalised text. */
  lemma OnlyTokenCharsOccur(p: string, k: nat, t: string)
    requires k < |p| && !IsTokenChar(p[k]) && p[k] != ' '
    requires TokensAndSpaces(t)
    ensures !OccursAsWord(p, t)
  {
  }

  /** The outcome of `calculate_match`; `matched` and `missing` are Python sets. */
  datatype Match = Match(matched: set<string>, missing: set<string>, percentage: int)

  /** `set(map(str.lower, xs))` */
  function LowerSet(xs: seq<string>): set<string> {
    set x | x in xs :: Lower(x)
  }

  /**
   * `set(map(str.lower, xs))` holds no capitals, and two lists that differ
   * only in letter case give the same set.
   */
  lemma LowerSetIgnoresCase(xs: seq<string>, ys: seq<string>)
    requires |xs| == |ys| && forall i :: 0 <= i < |xs| ==> Lower(xs[i]) == Lower(ys[i])
    ensures forall x :: x in LowerSet(xs) ==> HasNoUpper(x)
    ensures LowerSet(xs) == LowerSet(ys)
  {
    forall x | x in LowerSet(xs)
      ensures x in LowerSet(ys)
    {
      var y :| y in xs && Lower(y) == x;
      var i :| 0 <= i < |xs| && xs[i] == y;
      assert ys[i] in ys;
    }
    forall x | x in LowerSet(ys)
      ensures x in LowerSet(xs)
    {
      var y :| y in ys && Lower(y) == x;
      var i :| 0 <= i < |ys| && ys[i] == y;
      assert xs[i] in xs;
    }
  }

  /**
   * `calculate_match`: compares the two skill lists case-insensitively. The
   * source computes `int((len(matched) / len(job_set)) * 100)` in floating
   * point; this is the exact floor of `100 * |matched| / |job|`.
   */
  function CalculateMatch(resumeSkills: seq<string>, jobSkills: seq<string>): (m: Match)
    ensures var resume, job := LowerSet(resumeSkills), LowerSet(jobSkills);
      && (forall s :: s in m.matched <==> s in job && s in resume)
      && (forall s :: s in m.missing <==> s in job && s !in resume)
      && m.matched !! m.missing
      && m.matched + m.missing == job
      && (job == {} ==> m.percentage == 0)
      && (job != {} ==> m.percentage == 100 * |m.matched| / |job|)
      && 0 <= m.percentage <= 100
      && (m.percentage == 100 <==> job != {} && m.missing == {})
  {
    var resume, job := LowerSet(resumeSkills), LowerSet(jobSkills);
    if job == {} then
      Match({}, {}, 0)
    else
      var matched, missing := resume * job, job - resume;
      PercentageBounds(matched, job);
      Match(matched, missing, 100 * |matched| / |job|)
  }

  /** The share of a non-empty set held by a subset, in whole percent, is 100 only for the whole set. */
  lemma PercentageBounds(part: set<string>, whole: set<string>)
    requires part <= whole && whole != {}
    ensures 0 <= 100 * |part| / |whole| <= 100
    ensures 100 * |part| / |whole| == 100 <==> part == whole
  {
    SubsetNoLarger(part, whole);
    if part != whole {
      var x :| x in whole && x !in part;
      SubsetNoLarger(part, whole - {x});
    }
    WholePercent(|part|, |whole|);
  }

  /** `100 * a / n` for `0 <= a <= n` lies in 0..100 and reaches 100 only at `a == n`. */
  lemma WholePercent(a: int, n: int)
    requires 0 <= a <= n && 0 < n
    ensures 0 <= 100 * a / n <= 100
    ensures 100 * a / n == 100 <==> a == n
  {
    var q := 100 * a / n;
    Arith.DivBounds(100 * a, n);
    if a == n {
      Arith.MulCancel(n, 100);
      assert 100 * a == n * 100;
    } else if q >= 100 {
      Arith.MulMono(n, 100, q);
    }
    if q < 0 {
      Arith.MulMono(n, q, -1);
    }
  }

  lemma SubsetNoLarger(a: set<string>, b: set<string>)
    requires a <= b
    ensures |a| <= |b|
  {
    assert b == a + (b - a);
  }
}
