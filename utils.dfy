/** `clean_text`, the AI service's text cleaner. */
module Utils {
  import opened Wrappers
  import opened Ascii
  import opened PyText

  /**
   * What `clean_text` guarantees of its result: only `[a-z0-9+]` and plain
   * spaces, no space at either end and never two spaces in a row.
   */
  predicate IsClean(s: string) {
    && TokensAndSpaces(s)
    && SingleSpaced(s)
    && (s == [] || (s[0] != ' ' && s[|s| - 1] != ' '))
  }

  /**
   * `clean_text(text)`: lower-case, turn newlines and tabs into spaces, blank
   * every character outside `[a-z0-9+]` and whitespace, collapse whitespace
   * runs into one space and strip. `None` stands for Python's `None`. Every
   * letter, digit and '+' of the text survives, lower-cased and in order.
   */
  function CleanText(text: Option<string>): (r: string)
    ensures text == None || text == Some("") ==> r == ""
    ensures IsClean(r)
    ensures text.Some? ==> Tokens(r) == Tokens(Lower(text.value))
  {
    match text
    case None => ""
    case Some(t) =>
      if t == "" then ""
      else
        var replaced := ReplaceNewlinesAndTabs(Lower(t));
        var blanked := BlankDisallowed(replaced);
        var collapsed := Collapse(blanked);
        var r := Strip(collapsed);
        RewritesKeepTokens(Lower(t));
        RewritesKeepTokens(replaced);
        CollapseKeepsTokens(blanked);
        StripKeepsTokens(collapsed);
        r
  }

  /** A clean text is its own cleaning. */
  lemma CleanTextFixesClean(s: string)
    requires IsClean(s)
    ensures CleanText(Some(s)) == s
  {
    if s != "" {
      LowerFixesLowercase(s);
      assert ReplaceNewlinesAndTabs(s) == s;
      assert BlankDisallowed(s) == s;
      CollapseFixesSingleSpaces(s);
      StripFixesTrimmed(s);
    }
  }

  /** Cleaning twice is cleaning once. */
  lemma CleanTextIdempotent(text: Option<string>)
    ensures CleanText(Some(CleanText(text))) == CleanText(text)
  {
    CleanTextFixesClean(CleanText(text));
  }

  /** The character rewrites before `Collapse` leave clean pieces and a separator alone. */
  lemma RewritesKeepJoin(a: string, c: char, b: string)
    requires TokensAndSpaces(a) && TokensAndSpaces(b) && IsSpace(c)
    ensures BlankDisallowed(ReplaceNewlinesAndTabs(Lower(a + [c] + b)))
         == a + [if c == '\n' || c == '\t' then ' ' else c] + b
  {
    var s := a + [c] + b;
    var s' := a + [if c == '\n' || c == '\t' then ' ' else c] + b;
    assert forall i :: 0 <= i < |s| ==> s[i] == (if i < |a| then a[i] else if i == |a| then c else b[i - |a| - 1]);
    assert forall i :: 0 <= i < |s| ==> s'[i] == (if i < |a| then a[i] else if i == |a| then s'[|a|] else b[i - |a| - 1]);
    assert HasNoUpper(s);
    LowerFixesLowercase(s);
    assert ReplaceNewlinesAndTabs(s) == s';
    assert BlankDisallowed(s') == s';
  }

  /**
   * Two cleaned pieces of text separated by a newline, a tab or any other
   * whitespace character come out as the two pieces separated by one space.
   */
  lemma CleanTextSeparatesLines(a: string, c: char, b: string)
    requires IsClean(a) && IsClean(b) && a != [] && b != []
    requires IsSpace(c)
    ensures CleanText(Some(a + [c] + b)) == a + " " + b
  {
    CleanTextUnfold(a + [c] + b);
    PipelineSeparatesLines(a, c, b);
  }

  /** The rewrites of `clean_text` applied to two clean pieces around a whitespace character. */
  lemma PipelineSeparatesLines(a: string, c: char, b: string)
    requires IsClean(a) && IsClean(b) && a != [] && b != []
    requires IsSpace(c)
    ensures Strip(Collapse(BlankDisallowed(ReplaceNewlinesAndTabs(Lower(a + [c] + b))))) == a + " " + b
  {
    var c' := if c == '\n' || c == '\t' then ' ' else c;
    var joined := a + " " + b;
    assert IsTokenChar(a[0]) && IsTokenChar(a[|a| - 1]);
    assert IsTokenChar(b[0]) && IsTokenChar(b[|b| - 1]);
    RewritesKeepJoin(a, c, b);
    var blanked := BlankDisallowed(ReplaceNewlinesAndTabs(Lower(a + [c] + b)));
    assert blanked == a + [c'] + b;
    CollapseJoin(a, c', b);
    assert Collapse(blanked) == joined;
    assert joined[0] == a[0] && joined[|joined| - 1] == b[|b| - 1];
    StripFixesTrimmed(joined);
  }

  /** `CleanText` of a non-empty text, one rewrite after the other. */
  lemma CleanTextUnfold(t: string)
    requires t != ""
    ensures CleanText(Some(t)) == Strip(Collapse(BlankDisallowed(ReplaceNewlinesAndTabs(Lower(t)))))
  {
  }
}
