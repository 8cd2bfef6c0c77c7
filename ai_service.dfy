/** `analyze_resume`, the AI service's one endpoint: clean, extract, match. */
module AiService {
  import opened Wrappers
  import opened Ascii
  import opened PyText
  import opened StringOrder
  import Skills
  import Utils
  import Nlp

  /** The request body; a request without `job_description` carries "". */
  datatype AnalyzeRequest = AnalyzeRequest(resumeText: string, jobDescription: string)

  /** The response body; `missing_skills` is built from a Python set, so its order is not modelled. */
  datatype AnalyzeResponse = AnalyzeResponse(extractedSkills: seq<string>, missingSkills: set<string>, matchPercentage: int)

  /** The catalogue skills occurring as whole words in `text`, as a set. */
  function SkillsIn(text: string): set<string> {
    set s | s in Skills.SKILLS && Nlp.OccursAsWord(s, text)
  }

  /**
   * `analyze_resume`: both texts are cleaned, the catalogue skills are
   * extracted from each, and the resume skills are matched against the job
   * skills.
   */
  function AnalyzeResume(req: AnalyzeRequest): (r: AnalyzeResponse)
    ensures var resumeText := Utils.CleanText(Some(req.resumeText));
            var jobText := Utils.CleanText(Some(req.jobDescription));
      && StrictlyAscending(r.extractedSkills)
      && r.extractedSkills == Nlp.ExtractedSkills(req.resumeText)
      && (forall s :: s in r.extractedSkills <==> s in Skills.SKILLS && Nlp.OccursAsWord(s, resumeText))
      && (forall s :: s in r.missingSkills <==>
            s in Skills.SKILLS && Nlp.OccursAsWord(s, jobText) && s !in r.extractedSkills)
      && 0 <= r.matchPercentage <= 100
      && ((forall s :: s in Skills.SKILLS ==> !Nlp.OccursAsWord(s, jobText)) ==>
            r.matchPercentage == 0 && r.missingSkills == {})
    ensures var job := SkillsIn(Utils.CleanText(Some(req.jobDescription)));
      job != {} ==> r.matchPercentage == 100 * |job * set s | s in r.extractedSkills| / |job|
  {
    var resumeText := Utils.CleanText(Some(req.resumeText));
    var jobText := Utils.CleanText(Some(req.jobDescription));
    var resumeSkills := Nlp.ExtractedSkills(resumeText);
    var m := Nlp.CalculateMatch(resumeSkills, Nlp.ExtractedSkills(jobText));
    ResponseFacts(resumeText, jobText);
    PercentageOfCleanTexts(resumeText, jobText);
    CleaningKeepsSkills(req.resumeText);
    AnalyzeResponse(resumeSkills, m.missing, m.percentage)
  }

  /** The facts about the composed response, for two cleaned texts. */
  lemma ResponseFacts(resumeText: string, jobText: string)
    requires Utils.IsClean(resumeText) && Utils.IsClean(jobText)
    ensures var resumeSkills := Nlp.ExtractedSkills(resumeText);
            var m := Nlp.CalculateMatch(resumeSkills, Nlp.ExtractedSkills(jobText));
      && (forall s :: s in resumeSkills <==> s in Skills.SKILLS && Nlp.OccursAsWord(s, resumeText))
      && (forall s :: s in m.missing <==>
            s in Skills.SKILLS && Nlp.OccursAsWord(s, jobText) && s !in resumeSkills)
      && ((forall s :: s in Skills.SKILLS ==> !Nlp.OccursAsWord(s, jobText)) ==>
            m.percentage == 0 && m.missing == {})
  {
    SkillsOfCleanText(resumeText);
    MissingOfCleanTexts(resumeText, jobText);
    if forall s :: s in Skills.SKILLS ==> !Nlp.OccursAsWord(s, jobText) {
      NoJobSkills(Nlp.ExtractedSkills(resumeText), jobText);
    }
  }

  /** For two cleaned texts, the missing skills are the job's skills absent from the resume. */
  lemma MissingOfCleanTexts(resumeText: string, jobText: string)
    requires Utils.IsClean(resumeText) && Utils.IsClean(jobText)
    ensures var resumeSkills := Nlp.ExtractedSkills(resumeText);
            var m := Nlp.CalculateMatch(resumeSkills, Nlp.ExtractedSkills(jobText));
      forall s :: s in m.missing <==>
        s in Skills.SKILLS && Nlp.OccursAsWord(s, jobText) && s !in resumeSkills
  {
    var resumeSkills := Nlp.ExtractedSkills(resumeText);
    var jobSkills := Nlp.ExtractedSkills(jobText);
    SkillsOfCleanText(resumeText);
    SkillsOfCleanText(jobText);
    CatalogueSkillsLowerToThemselves(resumeSkills);
    CatalogueSkillsLowerToThemselves(jobSkills);
  }

  /**
   * For two cleaned texts, the match percentage is the whole-percent share of
   * the job's skills that the resume also has.
   */
  lemma PercentageOfCleanTexts(resumeText: string, jobText: string)
    requires Utils.IsClean(resumeText) && Utils.IsClean(jobText)
    ensures var resumeSkills := Nlp.ExtractedSkills(resumeText);
            var m := Nlp.CalculateMatch(resumeSkills, Nlp.ExtractedSkills(jobText));
            var job := SkillsIn(jobText);
      job != {} ==> m.percentage == 100 * |job * set s | s in resumeSkills| / |job|
  {
    var resumeSkills := Nlp.ExtractedSkills(resumeText);
    SkillsOfCleanText(resumeText);
    CatalogueSkillsLowerToThemselves(resumeSkills);
    JobSetOfCleanText(jobText);
    MatchOfSets(resumeSkills, Nlp.ExtractedSkills(jobText), (set s | s in resumeSkills), SkillsIn(jobText));
  }

  /** On a cleaned text, the lower-cased extracted skills are the skills occurring in it. */
  lemma JobSetOfCleanText(jobText: string)
    requires Utils.IsClean(jobText)
    ensures Nlp.LowerSet(Nlp.ExtractedSkills(jobText)) == SkillsIn(jobText)
  {
    var jobSkills := Nlp.ExtractedSkills(jobText);
    SkillsOfCleanText(jobText);
    CatalogueSkillsLowerToThemselves(jobSkills);
  }

  /** `calculate_match` scores the share of the job's skill set that the resume's set also holds. */
  lemma MatchOfSets(resumeSkills: seq<string>, jobSkills: seq<string>, resume: set<string>, job: set<string>)
    requires Nlp.LowerSet(resumeSkills) == resume && Nlp.LowerSet(jobSkills) == job
    ensures job != {} ==> Nlp.CalculateMatch(resumeSkills, jobSkills).percentage == 100 * |job * resume| / |job|
  {
    var m := Nlp.CalculateMatch(resumeSkills, jobSkills);
    assert m.matched == job * resume;
  }

  /** A cleaned job text with no catalogue skill in it scores 0 and misses nothing. */
  lemma NoJobSkills(resumeSkills: seq<string>, jobText: string)
    requires Utils.IsClean(jobText)
    requires forall s :: s in Skills.SKILLS ==> !Nlp.OccursAsWord(s, jobText)
    ensures var m := Nlp.CalculateMatch(resumeSkills, Nlp.ExtractedSkills(jobText));
      m.percentage == 0 && m.missing == {}
  {
    var jobSkills := Nlp.ExtractedSkills(jobText);
    SkillsOfCleanText(jobText);
    assert Nlp.LowerSet(jobSkills) == {};
  }

  /** The default empty job description yields no missing skills and a score of 0. */
  lemma NoJobDescriptionScoresZero(resumeText: string)
    ensures AnalyzeResume(AnalyzeRequest(resumeText, "")).matchPercentage == 0
    ensures AnalyzeResume(AnalyzeRequest(resumeText, "")).missingSkills == {}
  {
  }

  /**
   * Cleaning a text before extracting its skills, as `analyze_resume` does,
   * finds exactly the skills extraction finds in the raw text: no skill
   * written in the resume is lost to the cleaning.
   */
  lemma CleaningKeepsSkills(t: string)
    ensures Nlp.ExtractedSkills(Utils.CleanText(Some(t))) == Nlp.ExtractedSkills(t)
  {
    if t != "" {
      var c := Utils.CleanText(Some(t));
      var n := Nlp.NormalizeText(t);
      CleanIsStrippedNormal(t);
      var i, j :| && 0 <= i <= j <= |n| && c == n[i..j]
                  && (forall k :: 0 <= k < i ==> IsSpace(n[k]))
                  && (forall k :: j <= k < |n| ==> IsSpace(n[k]));
      Nlp.DetectedInTrimmed(n, i, j);
      if c == "" {
        Nlp.NothingDetectedInEmpty();
        assert Nlp.ExtractedSkills(t) == Sorted({});
      } else {
        NormalizeFixesClean(c);
      }
    }
  }

  /** `clean_text` is `normalize_text` followed by `strip`. */
  lemma CleanIsStrippedNormal(t: string)
    requires t != ""
    ensures Utils.CleanText(Some(t)) == Strip(Nlp.NormalizeText(t))
  {
    var l := Lower(t);
    var x := BlankDisallowed(ReplaceNewlinesAndTabs(l));
    var y := BlankDisallowed(l);
    CollapseSamePattern(x, y);
    Utils.CleanTextUnfold(t);
  }

  /** Normalising a cleaned text changes nothing. */
  lemma NormalizeFixesClean(t: string)
    requires Utils.IsClean(t)
    ensures Nlp.NormalizeText(t) == t
  {
    LowerFixesLowercase(t);
    assert BlankDisallowed(t) == t;
    CollapseFixesSingleSpaces(t);
  }

  /** On a cleaned text, a skill is extracted iff it occurs there as a word. */
  lemma SkillsOfCleanText(t: string)
    requires Utils.IsClean(t)
    ensures forall s :: s in Nlp.ExtractedSkills(t) <==> s in Skills.SKILLS && Nlp.OccursAsWord(s, t)
  {
    NormalizeFixesClean(t);
    Skills.CatalogueIsLowercase();
    forall s | s in Skills.SKILLS
      ensures Lower(s) == s
    {
      LowerFixesLowercase(s);
    }
  }

  /** Lower-casing a list of catalogue skills gives the set of its entries. */
  lemma CatalogueSkillsLowerToThemselves(xs: seq<string>)
    requires forall s :: s in xs ==> s in Skills.SKILLS
    ensures Nlp.LowerSet(xs) == set s | s in xs
  {
    Skills.CatalogueIsLowercase();
    forall s | s in xs
      ensures Lower(s) == s
    {
      LowerFixesLowercase(s);
    }
  }
}
