/**
 * The Python string rewrites that the AI service's text cleaning is built
 * from: the whitespace class `\s` (the characters `str.isspace()` accepts),
 * `re.sub(r"[^a-z0-9+\s]", " ", t)`, `re.sub(r"\s+", " ", t)` and
 * `str.strip()`.
 */
module PyText {
  import opened Ascii

  /** `\s` in a `str` pattern, and what `str.strip()` removes. */
  predicate IsSpace(c: char) {
    || c == ' '
    || '\t' <= c <= '\r'
    || '\U{1C}' <= c <= '\U{1F}'
    || c == '\U{85}' || c == '\U{A0}' || c == '\U{1680}'
    || '\U{2000}' <= c <= '\U{200A}'
    || c == '\U{2028}' || c == '\U{2029}' || c == '\U{202F}' || c == '\U{205F}' || c == '\U{3000}'
  }

  /** The class `[a-z0-9+]`. */
  predicate IsTokenChar(c: char) {
    IsLower(c) || '0' <= c <= '9' || c == '+'
  }

  /** No two adjacent characters are both whitespace. */
  predicate NoDoubleSpace(s: string) {
    forall i, j :: 0 <= i < |s| && 0 <= j < |s| && j == i + 1 ==> !(IsSpace(s[i]) && IsSpace(s[j]))
  }

  /** Every character is in `[a-z0-9+]` or is whitespace. */
  predicate TokensOrWhitespace(s: string) {
    forall i :: 0 <= i < |s| ==> IsTokenChar(s[i]) || IsSpace(s[i])
  }

  /** Every character is in `[a-z0-9+]` or is the plain space. */
  predicate TokensAndSpaces(s: string) {
    forall i :: 0 <= i < |s| ==> IsTokenChar(s[i]) || s[i] == ' '
  }

  /** `s.replace("\n", " ").replace("\t", " ")` */
  function ReplaceNewlinesAndTabs(s: string): (r: string)
    ensures |r| == |s|
    ensures forall i :: 0 <= i < |s| ==> r[i] != '\n' && r[i] != '\t'
    ensures forall i :: 0 <= i < |s| ==> (IsSpace(r[i]) <==> IsSpace(s[i]))
    ensures forall i :: 0 <= i < |s| ==> r[i] == if s[i] == '\n' || s[i] == '\t' then ' ' else s[i]
  {
    seq(|s|, i requires 0 <= i < |s| => if s[i] == '\n' || s[i] == '\t' then ' ' else s[i])
  }

  /** `re.sub(r"[^a-z0-9+\s]", " ", s)` */
  function BlankDisallowed(s: string): (r: string)
    ensures |r| == |s|
    ensures TokensOrWhitespace(r)
    ensures forall i :: 0 <= i < |r| ==> (IsTokenChar(s[i]) ==> r[i] == s[i])
    ensures forall i :: 0 <= i < |r| ==> (IsSpace(s[i]) ==> r[i] == s[i])
    ensures forall i :: 0 <= i < |r| ==> (!IsTokenChar(s[i]) && !IsSpace(s[i]) ==> r[i] == ' ')
  {
    seq(|s|, i requires 0 <= i < |s| => if IsTokenChar(s[i]) || IsSpace(s[i]) then s[i] else ' ')
  }

  /** The suffix of `s` that follows its leading whitespace: `s.lstrip()`. */
  function DropSpaces(s: string): (r: string)
    ensures |r| <= |s|
    ensures r == [] || !IsSpace(r[0])
    ensures s != [] && IsSpace(s[0]) ==> |r| < |s|
  {
    if s != [] && IsSpace(s[0]) then DropSpaces(s[1..]) else s
  }

  /** `DropSpaces` removes a prefix, and that prefix is all whitespace. */
  lemma {:induction false} DropSpacesIsSuffix(s: string)
    ensures DropSpaces(s) == s[|s| - |DropSpaces(s)|..]
    ensures forall k :: 0 <= k < |s| - |DropSpaces(s)| ==> IsSpace(s[k])
    decreases |s|
  {
    if s != [] && IsSpace(s[0]) {
      DropSpacesIsSuffix(s[1..]);
      assert s[1..][|s| - 1 - |DropSpaces(s)|..] == s[|s| - |DropSpaces(s)|..];
      assert forall k :: 1 <= k < |s| - |DropSpaces(s)| ==> s[k] == s[1..][k - 1];
    }
  }

  /** The prefix of `s` that precedes its trailing whitespace: `s.rstrip()`. */
  function DropTrailingSpaces(s: string): (r: string)
    ensures |r| <= |s| && r == s[..|r|]
    ensures r == [] || !IsSpace(r[|r| - 1])
    ensures forall k :: |r| <= k < |s| ==> IsSpace(s[k])
  {
    if s != [] && IsSpace(s[|s| - 1]) then DropTrailingSpaces(s[..|s| - 1]) else s
  }

  /**
   * `re.sub(r"\s+", " ", s)`: every maximal run of whitespace becomes one
   * plain space, and nothing else changes.
   */
  function Collapse(s: string): (r: string)
    ensures |r| <= |s|
    ensures r == [] <==> s == []
    ensures r != [] ==> (IsSpace(r[0]) <==> IsSpace(s[0]))
    ensures SingleSpaced(r)
    ensures TokensOrWhitespace(s) ==> TokensAndSpaces(r)
    decreases |s|
  {
    if s == [] then []
    else if IsSpace(s[0]) then
      var t := DropSpaces(s);
      assert TokensOrWhitespace(s) ==> TokensOrWhitespace(t) by {
        DropSpacesIsSuffix(s);
        assert forall i :: 0 <= i < |t| ==> t[i] == s[|s| - |t| + i];
      }
      [' '] + Collapse(t)
    else
      assert TokensOrWhitespace(s) ==> TokensOrWhitespace(s[1..]) by {
        assert forall i :: 0 <= i < |s| - 1 ==> s[1..][i] == s[i + 1];
      }
      [s[0]] + Collapse(s[1..])
  }

  /**
   * `s.strip()`: the slice of `s` left after removing whitespace from both
   * ends; what is removed is whitespace only, and what is left neither
   * starts nor ends with whitespace.
   */
  function Strip(s: string): (r: string)
    ensures r == [] || (!IsSpace(r[0]) && !IsSpace(r[|r| - 1]))
    ensures exists i, j ::
              && 0 <= i <= j <= |s| && r == s[i..j]
              && (forall k :: 0 <= k < i ==> IsSpace(s[k]))
              && (forall k :: j <= k < |s| ==> IsSpace(s[k]))
    ensures |r| <= |s|
    ensures TokensAndSpaces(s) ==> TokensAndSpaces(r)
    ensures SingleSpaced(s) ==> SingleSpaced(r)
  {
    StrippedIsSlice(s);
    DropTrailingSpaces(DropSpaces(s))
  }

  /** What `lstrip` and then `rstrip` leave is the slice of `s` between its whitespace ends. */
  lemma StrippedIsSlice(s: string)
    ensures var i, r := |s| - |DropSpaces(s)|, DropTrailingSpaces(DropSpaces(s));
      && 0 <= i <= i + |r| <= |s| && r == s[i..i + |r|]
      && (forall k :: 0 <= k < |r| ==> r[k] == s[i + k])
      && (forall k :: 0 <= k < i ==> IsSpace(s[k]))
      && (forall k :: i + |r| <= k < |s| ==> IsSpace(s[k]))
  {
    var tail := DropSpaces(s);
    DropSpacesIsSuffix(s);
    var r := DropTrailingSpaces(tail);
    var i := |s| - |tail|;
    assert tail == s[i..];
    assert r == tail[..|r|];
    assert r == s[i..i + |r|];
    forall k | i + |r| <= k < |s|
      ensures IsSpace(s[k])
    {
      assert s[k] == tail[k - i];
    }
  }

  /** A text whose whitespace is plain single spaces is left alone by `Collapse`. */
  lemma {:induction false} CollapseFixesSingleSpaces(s: string)
    requires SingleSpaced(s)
    ensures Collapse(s) == s
    decreases |s|
  {
    if s != [] {
      if IsSpace(s[0]) {
        assert DropSpaces(s) == s[1..] by {
          assert s[1..] == [] || !IsSpace(s[1..][0]);
        }
      }
      SingleSpacedTail(s);
      CollapseFixesSingleSpaces(s[1..]);
    }
  }

  /** How `Collapse` treats the first character of a text. */
  lemma {:induction false} CollapseCons(x: char, t: string)
    requires IsSpace(x) ==> t == [] || !IsSpace(t[0])
    ensures Collapse([x] + t) == [if IsSpace(x) then ' ' else x] + Collapse(t)
  {
    var s := [x] + t;
    assert s[1..] == t;
    if IsSpace(x) {
      assert DropSpaces(t) == t;
      assert DropSpaces(s) == t;
    }
  }

  /** Every whitespace character is a plain space and none is next to another. */
  predicate SingleSpaced(s: string) {
    && (forall i :: 0 <= i < |s| ==> IsSpace(s[i]) ==> s[i] == ' ')
    && NoDoubleSpace(s)
  }

  lemma SingleSpacedTail(s: string)
    requires s != [] && SingleSpaced(s)
    ensures SingleSpaced(s[1..])
  {
    assert forall i :: 0 <= i < |s| - 1 ==> s[1..][i] == s[i + 1];
  }

  /** The first character of a single-spaced text that does not end in whitespace survives `Collapse`. */
  lemma CollapseHead(a: string, t: string)
    requires a != [] && SingleSpaced(a) && !IsSpace(a[|a| - 1])
    ensures Collapse(a + t) == [a[0]] + Collapse(a[1..] + t)
  {
    var tail := a[1..] + t;
    assert a + t == [a[0]] + tail;
    if IsSpace(a[0]) {
      assert |a| >= 2 && !IsSpace(a[1]);
      assert tail[0] == a[1];
    }
    CollapseCons(a[0], tail);
  }

  /**
   * A single-spaced text that does not end in whitespace passes through
   * `Collapse` unchanged in front of whatever follows it.
   */
  lemma {:induction false} CollapseAppend(a: string, t: string)
    requires SingleSpaced(a) && (a == [] || !IsSpace(a[|a| - 1]))
    ensures Collapse(a + t) == a + Collapse(t)
    decreases |a|
  {
    if a == [] {
      assert a + t == t;
    } else {
      SingleSpacedTail(a);
      CollapseAppend(a[1..], t);
      CollapseAppendStep(a, t);
    }
  }

  /** One step of `CollapseAppend`: from the tail of `a` to all of `a`. */
  lemma CollapseAppendStep(a: string, t: string)
    requires a != [] && SingleSpaced(a) && !IsSpace(a[|a| - 1])
    requires Collapse(a[1..] + t) == a[1..] + Collapse(t)
    ensures Collapse(a + t) == a + Collapse(t)
  {
    var c := Collapse(t);
    var head := [a[0]];
    CollapseHead(a, t);
    assert Collapse(a + t) == head + (a[1..] + c);
    assert head + (a[1..] + c) == (head + a[1..]) + c;
    assert head + a[1..] == a;
  }

  /**
   * Two texts without whitespace at the edges joined by one whitespace
   * character collapse to the two texts joined by one plain space.
   */
  lemma CollapseJoin(a: string, c: char, b: string)
    requires a != [] && b != [] && SingleSpaced(a) && SingleSpaced(b)
    requires !IsSpace(a[|a| - 1]) && !IsSpace(b[0]) && IsSpace(c)
    ensures Collapse(a + [c] + b) == a + [' '] + b
  {
    var t := [c] + b;
    assert a + [c] + b == a + t;
    CollapseAppend(a, t);
    CollapseSpaceThen(c, b);
    assert a + ([' '] + b) == a + [' '] + b;
  }

  /** A whitespace character in front of a single-spaced text becomes one plain space. */
  lemma CollapseSpaceThen(c: char, b: string)
    requires IsSpace(c) && SingleSpaced(b) && (b == [] || !IsSpace(b[0]))
    ensures Collapse([c] + b) == [' '] + b
  {
    CollapseCons(c, b);
    CollapseFixesSingleSpaces(b);
  }

  /**
   * The characters of `s` in `[a-z0-9+]`, in order: what the text cleaning
   * keeps of a text, besides the spaces between them.
   */
  function Tokens(s: string): (r: string)
    ensures |r| <= |s|
    ensures forall i :: 0 <= i < |r| ==> IsTokenChar(r[i])
  {
    if s == [] then [] else (if IsTokenChar(s[0]) then [s[0]] else []) + Tokens(s[1..])
  }

  lemma {:induction false} TokensAppend(a: string, b: string)
    ensures Tokens(a + b) == Tokens(a) + Tokens(b)
    decreases |a|
  {
    if a == [] {
      assert a + b == b;
    } else {
      assert (a + b)[1..] == a[1..] + b;
      TokensAppend(a[1..], b);
    }
  }

  /** Whitespace holds no token. */
  lemma {:induction false} SpacesHaveNoTokens(s: string)
    requires forall k :: 0 <= k < |s| ==> IsSpace(s[k])
    ensures Tokens(s) == []
    decreases |s|
  {
    if s != [] {
      assert forall k :: 0 <= k < |s| - 1 ==> s[1..][k] == s[k + 1];
      SpacesHaveNoTokens(s[1..]);
    }
  }

  /** Two texts that agree wherever either holds a token character have the same tokens. */
  lemma {:induction false} TokensAgree(x: string, y: string)
    requires |x| == |y|
    requires forall i :: 0 <= i < |x| && (IsTokenChar(x[i]) || IsTokenChar(y[i])) ==> x[i] == y[i]
    ensures Tokens(x) == Tokens(y)
    decreases |x|
  {
    if x != [] {
      assert forall i :: 0 <= i < |x| - 1 ==> x[1..][i] == x[i + 1] && y[1..][i] == y[i + 1];
      TokensAgree(x[1..], y[1..]);
    }
  }

  /** The character rewrites before the whitespace collapse keep every token. */
  lemma RewritesKeepTokens(s: string)
    ensures Tokens(ReplaceNewlinesAndTabs(s)) == Tokens(s)
    ensures Tokens(BlankDisallowed(s)) == Tokens(s)
  {
    TokensAgree(ReplaceNewlinesAndTabs(s), s);
    TokensAgree(BlankDisallowed(s), s);
  }

  /** `Collapse` keeps every token, in order. */
  lemma {:induction false} CollapseKeepsTokens(s: string)
    ensures Tokens(Collapse(s)) == Tokens(s)
    decreases |s|
  {
    if s != [] {
      if IsSpace(s[0]) {
        var t := DropSpaces(s);
        var n := |s| - |t|;
        DropSpacesIsSuffix(s);
        CollapseKeepsTokens(t);
        TokensAppend([' '], Collapse(t));
        SpacesHaveNoTokens([' ']);
        assert s == s[..n] + t;
        TokensAppend(s[..n], t);
        SpacesHaveNoTokens(s[..n]);
      } else {
        CollapseKeepsTokens(s[1..]);
        TokensAppend([s[0]], Collapse(s[1..]));
        assert s == [s[0]] + s[1..];
        TokensAppend([s[0]], s[1..]);
        assert [s[0]][1..] == [];
      }
    }
  }

  /** `Strip` keeps every token, in order. */
  lemma StripKeepsTokens(s: string)
    ensures Tokens(Strip(s)) == Tokens(s)
  {
    StrippedIsSlice(s);
    var i := |s| - |DropSpaces(s)|;
    TokensBetweenSpaces(s, i, i + |Strip(s)|);
  }

  /** Cutting whitespace off both ends of a text keeps its tokens. */
  lemma TokensBetweenSpaces(s: string, i: int, j: int)
    requires 0 <= i <= j <= |s|
    requires forall k :: 0 <= k < i ==> IsSpace(s[k])
    requires forall k :: j <= k < |s| ==> IsSpace(s[k])
    ensures Tokens(s[i..j]) == Tokens(s)
  {
    var t := s[..j];
    assert forall k :: 0 <= k < i ==> t[k] == s[k];
    TokensWithoutLeadingSpaces(t, i);
    TokensWithoutTrailingSpaces(s, j);
    assert t[i..] == s[i..j];
  }

  /** Leading whitespace holds no token. */
  lemma {:induction false} TokensWithoutLeadingSpaces(s: string, i: int)
    requires 0 <= i <= |s|
    requires forall k :: 0 <= k < i ==> IsSpace(s[k])
    ensures Tokens(s[i..]) == Tokens(s)
    decreases i
  {
    if i > 0 {
      var t := s[1..];
      assert forall k :: 0 <= k < i - 1 ==> t[k] == s[k + 1];
      TokensWithoutLeadingSpaces(t, i - 1);
      assert t[i - 1..] == s[i..];
    }
  }

  /** Trailing whitespace holds no token. */
  lemma TokensWithoutTrailingSpaces(s: string, j: int)
    requires 0 <= j <= |s|
    requires forall k :: j <= k < |s| ==> IsSpace(s[k])
    ensures Tokens(s[..j]) == Tokens(s)
  {
    var front, back := s[..j], s[j..];
    assert s == front + back;
    TokensAppend(front, back);
    assert forall k :: 0 <= k < |back| ==> back[k] == s[j + k];
    SpacesHaveNoTokens(back);
  }

  /** `DropSpaces` of two texts with the same whitespace positions removes as much from each. */
  lemma {:induction false} DropSpacesSamePattern(x: string, y: string)
    requires |x| == |y|
    requires forall i :: 0 <= i < |x| ==> (IsSpace(x[i]) <==> IsSpace(y[i]))
    ensures |DropSpaces(x)| == |DropSpaces(y)|
    decreases |x|
  {
    if x != [] && IsSpace(x[0]) {
      assert forall i :: 0 <= i < |x| - 1 ==> x[1..][i] == x[i + 1] && y[1..][i] == y[i + 1];
      DropSpacesSamePattern(x[1..], y[1..]);
    }
  }

  /**
   * `Collapse` depends only on where the whitespace is and on the other
   * characters: which whitespace characters they are does not matter.
   */
  lemma {:induction false} CollapseSamePattern(x: string, y: string)
    requires |x| == |y|
    requires forall i :: 0 <= i < |x| ==> (IsSpace(x[i]) <==> IsSpace(y[i]))
    requires forall i :: 0 <= i < |x| && !IsSpace(x[i]) ==> x[i] == y[i]
    ensures Collapse(x) == Collapse(y)
    decreases |x|
  {
    if x != [] {
      if IsSpace(x[0]) {
        DropSpacesSamePattern(x, y);
        DropSpacesIsSuffix(x);
        DropSpacesIsSuffix(y);
        var n := |x| - |DropSpaces(x)|;
        assert forall i :: 0 <= i < |x| - n ==> x[n..][i] == x[n + i] && y[n..][i] == y[n + i];
        CollapseSamePattern(x[n..], y[n..]);
      } else {
        assert forall i :: 0 <= i < |x| - 1 ==> x[1..][i] == x[i + 1] && y[1..][i] == y[i + 1];
        CollapseSamePattern(x[1..], y[1..]);
      }
    }
  }

  lemma StripFixesTrimmed(s: string)
    requires s == [] || (!IsSpace(s[0]) && !IsSpace(s[|s| - 1]))
    ensures Strip(s) == s
  {
  }
}
