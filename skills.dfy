/** The AI service's skill catalogue. */
module Skills {
  import Ascii

  const LANGUAGES: seq<string> := ["python", "java", "javascript", "c", "c++"]
  const FRONTEND: seq<string> := ["react", "html", "css"]
  const BACKEND: seq<string> := ["node", "express", "django", "flask", "fastapi"]
  const DATABASES: seq<string> := ["mongodb", "mysql", "postgresql", "sql"]
  const DEVOPS: seq<string> := ["docker", "git", "github", "linux", "aws"]
  const AI_AND_DATA: seq<string> :=
    ["machine learning", "deep learning", "nlp", "scikit-learn", "pandas", "numpy"]
  const TESTING: seq<string> :=
    ["manual testing", "automation testing", "selenium", "pytest", "unit testing"]
  const SOFT_SKILLS: seq<string> :=
    ["communication", "teamwork", "problem solving", "leadership", "time management"]

  /** The catalogue, in its source order. */
  const SKILLS: seq<string> :=
    LANGUAGES + FRONTEND + BACKEND + DATABASES + DEVOPS + AI_AND_DATA + TESTING + SOFT_SKILLS

  /**
   * A well-formed entry: non-empty, without capitals, and neither starting
   * nor ending with a space.
   */
  predicate IsEntry(s: string) {
    s != [] && Ascii.HasNoUpper(s) && s[0] != ' ' && s[|s| - 1] != ' '
  }

  /** Every entry of a group is well formed. */
  predicate LowercaseEntries(group: seq<string>) {
    forall i :: 0 <= i < |group| ==> IsEntry(group[i])
  }

  lemma LanguagesLowercase() ensures LowercaseEntries(LANGUAGES) {}
  lemma FrontendLowercase() ensures LowercaseEntries(FRONTEND) {}
  lemma BackendLowercase() ensures LowercaseEntries(BACKEND) {}
  lemma DatabasesLowercase() ensures LowercaseEntries(DATABASES) {}
  lemma DevopsLowercase() ensures LowercaseEntries(DEVOPS) {}
  lemma AiAndDataLowercase() ensures LowercaseEntries(AI_AND_DATA) {}
  lemma TestingLowercase() ensures LowercaseEntries(TESTING) {}
  lemma SoftSkillsLowercase() ensures LowercaseEntries(SOFT_SKILLS) {}

  lemma ConcatLowercase(a: seq<string>, b: seq<string>)
    requires LowercaseEntries(a) && LowercaseEntries(b)
    ensures LowercaseEntries(a + b)
  {
    forall i | 0 <= i < |a + b|
      ensures IsEntry((a + b)[i])
    {
      if i >= |a| {
        assert (a + b)[i] == b[i - |a|];
      }
    }
  }

  /**
   * Every catalogue entry is a non-empty lower-case string, as the
   * catalogue's comment asks, with no space at either end.
   */
  lemma CatalogueIsLowercase()
    ensures |SKILLS| == 38
    ensures forall s :: s in SKILLS ==> IsEntry(s)
  {
    LanguagesLowercase();
    FrontendLowercase();
    BackendLowercase();
    DatabasesLowercase();
    DevopsLowercase();
    AiAndDataLowercase();
    TestingLowercase();
    SoftSkillsLowercase();
    ConcatLowercase(LANGUAGES, FRONTEND);
    ConcatLowercase(LANGUAGES + FRONTEND, BACKEND);
    ConcatLowercase(LANGUAGES + FRONTEND + BACKEND, DATABASES);
    ConcatLowercase(LANGUAGES + FRONTEND + BACKEND + DATABASES, DEVOPS);
    ConcatLowercase(LANGUAGES + FRONTEND + BACKEND + DATABASES + DEVOPS, AI_AND_DATA);
    ConcatLowercase(LANGUAGES + FRONTEND + BACKEND + DATABASES + DEVOPS + AI_AND_DATA, TESTING);
    ConcatLowercase(LANGUAGES + FRONTEND + BACKEND + DATABASES + DEVOPS + AI_AND_DATA + TESTING, SOFT_SKILLS);
    forall s | s in SKILLS
      ensures IsEntry(s)
    {
      var i :| 0 <= i < |SKILLS| && SKILLS[i] == s;
    }
  }
}
