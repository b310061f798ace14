/** String handling of the study assistant: Python's whitespace test, str.strip(),
    str.split(), sep.join(...), and StudyAssistant.clean_text, which normalises the
    text before it is split into sentences. */
module Text {

  /** The characters for which Python's str.isspace() holds, as inclusive ranges;
      they are also the class that `\s` matches in a str pattern. */
  const WhitespaceRanges: seq<(char, char)> := [
    ('\t', '\r'), ('\U{1C}', ' '), ('\U{85}', '\U{85}'), ('\U{A0}', '\U{A0}'),
    ('\U{1680}', '\U{1680}'), ('\U{2000}', '\U{200A}'), ('\U{2028}', '\U{2029}'),
    ('\U{202F}', '\U{202F}'), ('\U{205F}', '\U{205F}'), ('\U{3000}', '\U{3000}')
  ]

  predicate InRanges(c: char, ranges: seq<(char, char)>) {
    ranges != [] && ((ranges[0].0 <= c <= ranges[0].1) || InRanges(c, ranges[1..]))
  }

  /** Python's str.isspace() on one character. */
  predicate IsSpace(c: char) {
    InRanges(c, WhitespaceRanges)
  }

  /** The sentence marks clean_text respaces, the class `[.!?]`. */
  predicate IsPunct(c: char)
    ensures IsPunct(c) ==> !IsSpace(c)
  {
    c == '.' || c == '!' || c == '?'
  }

  lemma PlainSpaceIsSpace()
    ensures IsSpace(' ')
  {
  }

  /** The non-whitespace characters of s, in order. */
  function Visible(s: string): string {
    if s == [] then [] else (if IsSpace(s[0]) then [] else [s[0]]) + Visible(s[1..])
  }

  lemma {:induction false} VisibleAppend(a: string, b: string)
    ensures Visible(a + b) == Visible(a) + Visible(b)
  {
    if a == [] {
      assert a + b == b;
    } else {
      assert (a + b)[1..] == a[1..] + b;
      VisibleAppend(a[1..], b);
    }
  }

  /** s without its leading whitespace, as str.lstrip() leaves it. */
  function LStrip(s: string): (r: string)
    ensures |r| <= |s| && r == s[|s| - |r|..]
    ensures r == [] || !IsSpace(r[0])
  {
    if s != [] && IsSpace(s[0]) then LStrip(s[1..]) else s
  }

  /** lstrip() removes only whitespace... */
  lemma {:induction false} LStripSpaces(s: string)
    ensures forall i :: 0 <= i < |s| - |LStrip(s)| ==> IsSpace(s[i])
  {
    if s != [] && IsSpace(s[0]) {
      LStripSpaces(s[1..]);
      forall i | 1 <= i < |s| - |LStrip(s)| ensures IsSpace(s[i]) {
        assert s[i] == s[1..][i - 1];
      }
    }
  }

  /** ...so nothing visible is lost. */
  lemma {:induction false} LStripVisible(s: string)
    ensures Visible(LStrip(s)) == Visible(s)
  {
    if s != [] && IsSpace(s[0]) {
      LStripVisible(s[1..]);
    }
  }

  /** s without its trailing whitespace, as str.rstrip() leaves it. */
  function RStrip(s: string): (r: string)
    ensures |r| <= |s| && r == s[..|r|]
    ensures r == [] || !IsSpace(r[|r| - 1])
  {
    if s != [] && IsSpace(s[|s| - 1]) then RStrip(s[..|s| - 1]) else s
  }

  /** rstrip() removes only whitespace... */
  lemma {:induction false} RStripSpaces(s: string)
    ensures forall i :: |RStrip(s)| <= i < |s| ==> IsSpace(s[i])
  {
    if s != [] && IsSpace(s[|s| - 1]) {
      var p := s[..|s| - 1];
      RStripSpaces(p);
      forall i | |RStrip(s)| <= i < |s| - 1 ensures IsSpace(s[i]) {
        assert s[i] == p[i];
      }
    }
  }

  /** ...so nothing visible is lost. */
  lemma {:induction false} RStripVisible(s: string)
    ensures Visible(RStrip(s)) == Visible(s)
  {
    if s != [] && IsSpace(s[|s| - 1]) {
      var p := s[..|s| - 1];
      RStripVisible(p);
      assert s == p + [s[|s| - 1]];
      VisibleAppend(p, [s[|s| - 1]]);
      assert Visible([s[|s| - 1]]) == [];
    }
  }

  /** str.strip(): no whitespace at either end, nothing visible lost. */
  function Strip(s: string): (r: string)
    ensures r == [] || (!IsSpace(r[0]) && !IsSpace(r[|r| - 1]))
    ensures Visible(r) == Visible(s)
    ensures r == [] <==> Visible(s) == []
  {
    LStripVisible(s);
    RStripVisible(LStrip(s));
    RStripKeepsStart(LStrip(s));
    StrippedVisible(RStrip(LStrip(s)));
    RStrip(LStrip(s))
  }

  /** rstrip() of a text that starts with a visible character keeps that start. */
  lemma RStripKeepsStart(x: string)
    requires x == [] || !IsSpace(x[0])
    ensures var r := RStrip(x); r == [] || r[0] == x[0]
  {
  }

  /** A text with no whitespace at either end is empty exactly when nothing in it
      is visible. */
  lemma StrippedVisible(r: string)
    requires r == [] || !IsSpace(r[0])
    ensures r == [] <==> Visible(r) == []
  {
  }

  // ---------------------------------------------------------------------------
  // clean_text, pass by pass (app.py:177-185)
  // ---------------------------------------------------------------------------

  // What clean_text promises, stated over positions.

  /** Every whitespace character is a plain space. */
  ghost predicate OnlyPlainSpace(s: string) {
    forall i :: 0 <= i < |s| && IsSpace(s[i]) ==> s[i] == ' '
  }

  /** No two whitespace characters are adjacent. */
  ghost predicate NoDoubleSpace(s: string) {
    forall i, j :: 0 <= i && j == i + 1 && j < |s| ==> !(IsSpace(s[i]) && IsSpace(s[j]))
  }

  /** Every sentence mark that is not last is followed by a plain space. */
  ghost predicate PunctThenSpace(s: string) {
    forall i, j :: 0 <= i && j == i + 1 && j < |s| && IsPunct(s[i]) ==> s[j] == ' '
  }

  /** A space between a character and a sentence mark has a sentence mark before it:
      a space comes before a mark only inside a run of marks ("a. . ."). */
  ghost predicate SpaceBeforePunctOnlyInRun(s: string) {
    forall h, i, j :: 0 <= h && i == h + 1 && j == i + 1 && j < |s| && s[i] == ' ' && IsPunct(s[j]) ==> IsPunct(s[h])
  }

  // The same properties one step at a time, which is how the passes build them.

  predicate PlainSpaces(s: string) {
    s == [] || ((IsSpace(s[0]) ==> s[0] == ' ') && PlainSpaces(s[1..]))
  }

  predicate SingleSpaces(s: string) {
    |s| < 2 || (!(IsSpace(s[0]) && IsSpace(s[1])) && SingleSpaces(s[1..]))
  }

  /** No whitespace character right before a sentence mark. */
  predicate UnspacedMarks(s: string) {
    |s| < 2 || (!(IsSpace(s[0]) && IsPunct(s[1])) && UnspacedMarks(s[1..]))
  }

  predicate SpacedMarks(s: string) {
    |s| < 2 || ((IsPunct(s[0]) ==> s[1] == ' ') && SpacedMarks(s[1..]))
  }

  predicate SpacesInMarkRuns(s: string) {
    |s| < 3 || ((s[1] == ' ' && IsPunct(s[2]) ==> IsPunct(s[0])) && SpacesInMarkRuns(s[1..]))
  }

  lemma {:induction false} ShapesOfLStrip(s: string)
    ensures PlainSpaces(s) ==> PlainSpaces(LStrip(s))
    ensures SingleSpaces(s) ==> SingleSpaces(LStrip(s))
    ensures UnspacedMarks(s) ==> UnspacedMarks(LStrip(s))
    ensures SpacedMarks(s) ==> SpacedMarks(LStrip(s))
    ensures SpacesInMarkRuns(s) ==> SpacesInMarkRuns(LStrip(s))
  {
    if s != [] && IsSpace(s[0]) {
      assert LStrip(s) == LStrip(s[1..]);
      ShapesOfLStrip(s[1..]);
    } else {
      assert LStrip(s) == s;
    }
  }

  lemma {:induction false} ShapesOfDropLast(s: string)
    requires s != []
    ensures PlainSpaces(s) ==> PlainSpaces(s[..|s| - 1])
    ensures SingleSpaces(s) ==> SingleSpaces(s[..|s| - 1])
    ensures SpacedMarks(s) ==> SpacedMarks(s[..|s| - 1])
    ensures SpacesInMarkRuns(s) ==> SpacesInMarkRuns(s[..|s| - 1])
  {
    if |s| > 1 {
      ShapesOfDropLast(s[1..]);
      assert s[..|s| - 1][1..] == s[1..][..|s| - 2];
    }
  }

  lemma {:induction false} ShapesOfRStrip(s: string)
    ensures PlainSpaces(s) ==> PlainSpaces(RStrip(s))
    ensures SingleSpaces(s) ==> SingleSpaces(RStrip(s))
    ensures SpacedMarks(s) ==> SpacedMarks(RStrip(s))
    ensures SpacesInMarkRuns(s) ==> SpacesInMarkRuns(RStrip(s))
  {
    if s != [] && IsSpace(s[|s| - 1]) {
      ShapesOfDropLast(s);
      ShapesOfRStrip(s[..|s| - 1]);
    }
  }

  lemma {:induction false} PlainSpacesAt(s: string)
    requires PlainSpaces(s)
    ensures OnlyPlainSpace(s)
  {
    if s != [] {
      PlainSpacesAt(s[1..]);
      forall i | 0 < i < |s| ensures s[i] == s[1..][i - 1] { }
    }
  }

  lemma {:induction false} SingleSpacesAt(s: string)
    requires SingleSpaces(s)
    ensures NoDoubleSpace(s)
  {
    if |s| >= 2 {
      SingleSpacesAt(s[1..]);
      forall i, j | 0 < i && j == i + 1 && j < |s|
        ensures s[i] == s[1..][i - 1] && s[j] == s[1..][j - 1]
      { }
    }
  }

  lemma {:induction false} SpacedMarksAt(s: string)
    requires SpacedMarks(s)
    ensures PunctThenSpace(s)
  {
    if |s| >= 2 {
      SpacedMarksAt(s[1..]);
      forall i, j | 0 < i && j == i + 1 && j < |s|
        ensures s[i] == s[1..][i - 1] && s[j] == s[1..][j - 1]
      { }
    }
  }

  lemma {:induction false} SpacesInMarkRunsAt(s: string)
    requires SpacesInMarkRuns(s)
    ensures SpaceBeforePunctOnlyInRun(s)
  {
    if |s| >= 3 {
      SpacesInMarkRunsAt(s[1..]);
      forall h, i, j | 0 < h && i == h + 1 && j == i + 1 && j < |s|
        ensures s[h] == s[1..][h - 1] && s[i] == s[1..][i - 1] && s[j] == s[1..][j - 1]
      { }
    }
  }

  /** Pass 1, `re.sub(r'\s+', ' ', s)`: every maximal whitespace run becomes one space. */
  function CollapseSpace(s: string): (r: string)
    ensures Visible(r) == Visible(s)
    ensures r == [] <==> s == []
    ensures s != [] ==> (IsSpace(r[0]) <==> IsSpace(s[0]))
    decreases |s|
  {
    if s == [] then []
    else if IsSpace(s[0]) then
      var r := " " + CollapseSpace(LStrip(s[1..]));
      LStripVisible(s[1..]);
      assert r[1..] == CollapseSpace(LStrip(s[1..]));
      r
    else
      var r := [s[0]] + CollapseSpace(s[1..]);
      assert r[1..] == CollapseSpace(s[1..]);
      r
  }

  lemma {:induction false} CollapseSpaceShape(s: string)
    ensures PlainSpaces(CollapseSpace(s)) && SingleSpaces(CollapseSpace(s))
    decreases |s|
  {
    if s != [] {
      var t := if IsSpace(s[0]) then LStrip(s[1..]) else s[1..];
      CollapseSpaceShape(t);
      var r := CollapseSpace(s);
      assert r[1..] == CollapseSpace(t);
    }
  }

  /** Whether the first non-whitespace character of t exists and is a sentence mark. */
  predicate PunctAfterSpaces(t: string) {
    var u := LStrip(t);
    u != [] && IsPunct(u[0])
  }

  /** Pass 2, `re.sub(r'\s+([.!?])', r'\1', s)`: every maximal whitespace run that
      is followed by a sentence mark is deleted; a whitespace character goes
      exactly when the text from it on, past its run, reaches a mark. */
  function UnspacePunct(s: string): (r: string)
    ensures Visible(r) == Visible(s)
    ensures s != [] && !IsSpace(s[0]) ==> r != [] && r[0] == s[0]
  {
    if s == [] then []
    else if IsSpace(s[0]) && PunctAfterSpaces(s) then UnspacePunct(s[1..])
    else
      var r := [s[0]] + UnspacePunct(s[1..]);
      assert r[1..] == UnspacePunct(s[1..]);
      r
  }

  lemma {:induction false} UnspacePunctShape(s: string)
    requires PlainSpaces(s) && SingleSpaces(s)
    ensures var r := UnspacePunct(s);
      PlainSpaces(r) && SingleSpaces(r) && UnspacedMarks(r)
  {
    if s != [] {
      UnspacePunctShape(s[1..]);
      var x := UnspacePunct(s[1..]);
      if !(IsSpace(s[0]) && PunctAfterSpaces(s)) {
        var r := UnspacePunct(s);
        assert r[0] == s[0] && r[1..] == x;
        if IsSpace(s[0]) && |s| > 1 {
          assert LStrip(s) == LStrip(s[1..]) == s[1..];
        }
      }
    }
  }

  lemma VisibleCons(c: char, x: string)
    ensures Visible([c] + x) == (if IsSpace(c) then [] else [c]) + Visible(x)
  {
    assert ([c] + x)[1..] == x;
  }

  /** Pass 3, `re.sub(r'([.!?])\s*', r'\1 ', s)`: every sentence mark is followed by
      exactly one space, which replaces the whitespace that followed it. */
  function SpaceAfterPunct(s: string): (r: string)
    ensures s != [] ==> r != [] && r[0] == s[0]
    decreases |s|
  {
    if s == [] then []
    else if IsPunct(s[0]) then [s[0]] + ([' '] + SpaceAfterPunct(LStrip(s[1..])))
    else [s[0]] + SpaceAfterPunct(s[1..])
  }

  /** Respacing after the marks keeps every visible character, in order. */
  lemma {:induction false} SpaceAfterPunctVisible(s: string)
    ensures Visible(SpaceAfterPunct(s)) == Visible(s)
    decreases |s|
  {
    if s != [] {
      if IsPunct(s[0]) {
        SpaceAfterPunctVisible(LStrip(s[1..]));
        VisibleStepMark(s);
      } else {
        SpaceAfterPunctVisible(s[1..]);
        VisibleStepOther(s);
      }
    }
  }

  lemma VisibleStepMark(s: string)
    requires s != [] && IsPunct(s[0])
    requires Visible(SpaceAfterPunct(LStrip(s[1..]))) == Visible(LStrip(s[1..]))
    ensures Visible(SpaceAfterPunct(s)) == Visible(s)
  {
    var x := SpaceAfterPunct(LStrip(s[1..]));
    SpaceAfterMarkStep(s);
    VisibleMarkThen(s[0], x);
    VisibleStep(s);
    LStripVisible(s[1..]);
  }

  lemma SpaceAfterMarkStep(s: string)
    requires s != [] && IsPunct(s[0])
    ensures SpaceAfterPunct(s) == [s[0]] + ([' '] + SpaceAfterPunct(LStrip(s[1..])))
  {
  }

  lemma VisibleMarkThen(c: char, x: string)
    requires !IsSpace(c)
    ensures Visible([c] + ([' '] + x)) == [c] + Visible(x)
  {
    PlainSpaceIsSpace();
    VisibleCons(' ', x);
    VisibleCons(c, [' '] + x);
  }

  lemma VisibleStepOther(s: string)
    requires s != [] && !IsPunct(s[0])
    requires Visible(SpaceAfterPunct(s[1..])) == Visible(s[1..])
    ensures Visible(SpaceAfterPunct(s)) == Visible(s)
  {
    VisibleCons(s[0], SpaceAfterPunct(s[1..]));
    assert s == [s[0]] + s[1..];
    VisibleCons(s[0], s[1..]);
  }

  // How each shape predicate reads on a text with one more character in front.

  lemma PlainSpacesCons(c: char, x: string)
    ensures PlainSpaces([c] + x) == ((IsSpace(c) ==> c == ' ') && PlainSpaces(x))
  {
    assert ([c] + x)[1..] == x;
  }

  lemma SingleSpacesCons(c: char, x: string)
    ensures SingleSpaces([c] + x) == (x == [] || (!(IsSpace(c) && IsSpace(x[0])) && SingleSpaces(x)))
  {
    assert ([c] + x)[1..] == x;
  }

  lemma SpacedMarksCons(c: char, x: string)
    ensures SpacedMarks([c] + x) == (x == [] || ((IsPunct(c) ==> x[0] == ' ') && SpacedMarks(x)))
  {
    assert ([c] + x)[1..] == x;
  }

  lemma SpacesInMarkRunsCons(c: char, x: string)
    ensures SpacesInMarkRuns([c] + x) == (|x| < 2 || ((x[0] == ' ' && IsPunct(x[1]) ==> IsPunct(c)) && SpacesInMarkRuns(x)))
  {
    assert ([c] + x)[1..] == x;
  }

  lemma ShapeAfterMark(c: char, x: string)
    requires IsPunct(c) && PlainSpaces(x) && SingleSpaces(x) && SpacedMarks(x)
    requires x == [] || !IsSpace(x[0])
    ensures var r := [c] + ([' '] + x);
      PlainSpaces(r) && SingleSpaces(r) && SpacedMarks(r)
  {
    var y := [' '] + x;
    PlainSpacesCons(' ', x);
    SingleSpacesCons(' ', x);
    SpacedMarksCons(' ', x);
    PlainSpacesCons(c, y);
    SingleSpacesCons(c, y);
    SpacedMarksCons(c, y);
  }

  lemma ShapeAfterOther(c: char, x: string)
    requires !IsPunct(c) && PlainSpaces(x) && SingleSpaces(x) && SpacedMarks(x)
    requires IsSpace(c) ==> c == ' ' && (x == [] || !IsSpace(x[0]))
    ensures var r := [c] + x;
      PlainSpaces(r) && SingleSpaces(r) && SpacedMarks(r)
  {
    PlainSpacesCons(c, x);
    SingleSpacesCons(c, x);
    SpacedMarksCons(c, x);
  }

  lemma {:induction false} SpaceAfterPunctShape(s: string)
    requires PlainSpaces(s) && SingleSpaces(s) && UnspacedMarks(s)
    ensures var r := SpaceAfterPunct(s);
      PlainSpaces(r) && SingleSpaces(r) && SpacedMarks(r)
    decreases |s|
  {
    if s != [] {
      if IsPunct(s[0]) {
        ShapesOfLStrip(s[1..]);
        SpaceAfterPunctShape(LStrip(s[1..]));
        ShapeStepMark(s);
      } else {
        SpaceAfterPunctShape(s[1..]);
        ShapeStepOther(s);
      }
    }
  }

  lemma ShapeStepMark(s: string)
    requires s != [] && IsPunct(s[0])
    requires var x := SpaceAfterPunct(LStrip(s[1..]));
      PlainSpaces(x) && SingleSpaces(x) && SpacedMarks(x)
    ensures var r := SpaceAfterPunct(s);
      PlainSpaces(r) && SingleSpaces(r) && SpacedMarks(r)
  {
    ShapeAfterMark(s[0], SpaceAfterPunct(LStrip(s[1..])));
  }

  lemma ShapeStepOther(s: string)
    requires s != [] && !IsPunct(s[0]) && PlainSpaces(s) && SingleSpaces(s)
    requires var x := SpaceAfterPunct(s[1..]);
      PlainSpaces(x) && SingleSpaces(x) && SpacedMarks(x)
    ensures var r := SpaceAfterPunct(s);
      PlainSpaces(r) && SingleSpaces(r) && SpacedMarks(r)
  {
    ShapeAfterOther(s[0], SpaceAfterPunct(s[1..]));
  }

  lemma RunsAfterMark(c: char, x: string)
    requires IsPunct(c) && SpacesInMarkRuns(x)
    requires x == [] || x[0] != ' '
    ensures SpacesInMarkRuns([c] + ([' '] + x))
  {
    var y := [' '] + x;
    SpacesInMarkRunsCons(' ', x);
    SpacesInMarkRunsCons(c, y);
  }

  lemma RunsAfterOther(c: char, x: string)
    requires !IsPunct(c) && SpacesInMarkRuns(x)
    requires |x| >= 2 && x[0] == ' ' ==> !IsPunct(x[1])
    ensures SpacesInMarkRuns([c] + x)
  {
    SpacesInMarkRunsCons(c, x);
  }

  lemma SecondAfterOther(s: string)
    requires |s| > 1 && !IsPunct(s[0])
    ensures |SpaceAfterPunct(s)| > 1 && SpaceAfterPunct(s)[0] == s[0] && SpaceAfterPunct(s)[1] == s[1]
  {
    assert SpaceAfterPunct(s) == [s[0]] + SpaceAfterPunct(s[1..]);
  }

  lemma {:induction false} SpaceAfterPunctRuns(s: string)
    requires UnspacedMarks(s)
    ensures SpacesInMarkRuns(SpaceAfterPunct(s))
    decreases |s|
  {
    if s != [] {
      if IsPunct(s[0]) {
        ShapesOfLStrip(s[1..]);
        SpaceAfterPunctRuns(LStrip(s[1..]));
        RunsStepMark(s);
      } else {
        SpaceAfterPunctRuns(s[1..]);
        RunsStepOther(s);
      }
    }
  }

  lemma RunsStepMark(s: string)
    requires s != [] && IsPunct(s[0]) && SpacesInMarkRuns(SpaceAfterPunct(LStrip(s[1..])))
    ensures SpacesInMarkRuns(SpaceAfterPunct(s))
  {
    PlainSpaceIsSpace();
    RunsAfterMark(s[0], SpaceAfterPunct(LStrip(s[1..])));
  }

  lemma RunsStepOther(s: string)
    requires s != [] && !IsPunct(s[0]) && UnspacedMarks(s) && SpacesInMarkRuns(SpaceAfterPunct(s[1..]))
    ensures SpacesInMarkRuns(SpaceAfterPunct(s))
  {
    if |s| > 2 && s[1] == ' ' {
      SecondAfterOther(s[1..]);
      PlainSpaceIsSpace();
      assert UnspacedMarks(s[1..]);
    }
    RunsAfterOther(s[0], SpaceAfterPunct(s[1..]));
  }

  // ---------------------------------------------------------------------------
  // Where clean_text leaves whitespace, over the visible characters
  // ---------------------------------------------------------------------------

  /** For each visible character of s, whether whitespace follows it directly. */
  function Gaps(s: string): (g: seq<bool>)
    ensures |g| == |Visible(s)|
  {
    if s == [] then []
    else if IsSpace(s[0]) then Gaps(s[1..])
    else [|s| > 1 && IsSpace(s[1])] + Gaps(s[1..])
  }

  lemma GapsCons(c: char, x: string)
    ensures Gaps([c] + x) == if IsSpace(c) then Gaps(x) else [x != [] && IsSpace(x[0])] + Gaps(x)
  {
    assert ([c] + x)[1..] == x;
  }

  /** lstrip() changes no gap. */
  lemma {:induction false} GapsLStrip(t: string)
    ensures Gaps(LStrip(t)) == Gaps(t)
  {
    if t != [] && IsSpace(t[0]) {
      GapsLStrip(t[1..]);
    }
  }

  /** Pass 1 changes no gap: a whitespace run shrinks to one space but stays. */
  lemma {:induction false} CollapseSpaceGaps(s: string)
    ensures Gaps(CollapseSpace(s)) == Gaps(s)
    decreases |s|
  {
    if s != [] {
      if IsSpace(s[0]) {
        var t := LStrip(s[1..]);
        CollapseSpaceGaps(t);
        GapsLStrip(s[1..]);
        PlainSpaceIsSpace();
        GapsCons(' ', CollapseSpace(t));
      } else {
        CollapseSpaceGaps(s[1..]);
        GapsCons(s[0], CollapseSpace(s[1..]));
      }
    }
  }

  /** The gaps after pass 2: a gap closes when a sentence mark comes next. */
  function UnspacedGaps(v: string, g: seq<bool>): (h: seq<bool>)
    requires |v| == |g|
    ensures |h| == |g|
  {
    if g == [] then [] else [g[0] && !(|v| > 1 && IsPunct(v[1]))] + UnspacedGaps(v[1..], g[1..])
  }

  lemma UnspacedGapsCons(c: char, v: string, h: bool, g: seq<bool>)
    requires |v| == |g|
    ensures UnspacedGaps([c] + v, [h] + g) == [h && !(v != [] && IsPunct(v[0]))] + UnspacedGaps(v, g)
  {
    assert ([c] + v)[1..] == v && ([h] + g)[1..] == g;
  }

  lemma {:induction false} UnspacedGapsAt(v: string, g: seq<bool>, k: nat)
    requires |v| == |g| && k < |g|
    ensures UnspacedGaps(v, g)[k] == (g[k] && !(k + 1 < |v| && IsPunct(v[k + 1])))
  {
    if k > 0 {
      UnspacedGapsAt(v[1..], g[1..], k - 1);
    }
  }

  /** The first non-whitespace character of t is a mark exactly when the first
      visible character is. */
  lemma PunctAfterSpacesVisible(t: string)
    ensures PunctAfterSpaces(t) <==> Visible(t) != [] && IsPunct(Visible(t)[0])
  {
    LStripVisible(t);
    var u := LStrip(t);
    if u != [] {
      assert u == [u[0]] + u[1..];
      VisibleCons(u[0], u[1..]);
    }
  }

  /** Pass 2 on a text that starts with whitespace keeps that whitespace in front
      exactly when no sentence mark follows the run. */
  lemma {:induction false} UnspaceHead(x: string)
    requires x != [] && IsSpace(x[0])
    ensures (UnspacePunct(x) != [] && IsSpace(UnspacePunct(x)[0])) <==> !PunctAfterSpaces(x)
    decreases |x|
  {
    if PunctAfterSpaces(x) {
      assert LStrip(x) == LStrip(x[1..]);
      if IsSpace(x[1]) {
        UnspaceHead(x[1..]);
      }
    }
  }

  /** Pass 2 closes exactly the gaps before sentence marks. */
  lemma {:induction false} UnspacePunctGaps(s: string)
    ensures Gaps(UnspacePunct(s)) == UnspacedGaps(Visible(s), Gaps(s))
  {
    if s != [] {
      var x := s[1..];
      UnspacePunctGaps(x);
      if !IsSpace(s[0]) {
        UnspaceStepOther(s);
      } else {
        assert Visible(s) == Visible(x) && Gaps(s) == Gaps(x);
        if !PunctAfterSpaces(s) {
          assert UnspacePunct(s) == [s[0]] + UnspacePunct(x);
          GapsCons(s[0], UnspacePunct(x));
        }
      }
    }
  }

  lemma UnspaceStepOther(s: string)
    requires s != [] && !IsSpace(s[0])
    requires Gaps(UnspacePunct(s[1..])) == UnspacedGaps(Visible(s[1..]), Gaps(s[1..]))
    ensures Gaps(UnspacePunct(s)) == UnspacedGaps(Visible(s), Gaps(s))
  {
    var x := s[1..];
    assert s == [s[0]] + x;
    GapsCons(s[0], UnspacePunct(x));
    GapsCons(s[0], x);
    VisibleCons(s[0], x);
    if x != [] && IsSpace(x[0]) {
      UnspaceHead(x);
    }
    PunctAfterSpacesVisible(x);
    UnspacedGapsCons(s[0], Visible(x), x != [] && IsSpace(x[0]), Gaps(x));
  }

  /** The gaps after pass 3: every sentence mark gets a gap. */
  function SpacedGaps(v: string, g: seq<bool>): (h: seq<bool>)
    requires |v| == |g|
    ensures |h| == |g|
  {
    if g == [] then [] else [g[0] || IsPunct(v[0])] + SpacedGaps(v[1..], g[1..])
  }

  lemma SpacedGapsCons(c: char, v: string, h: bool, g: seq<bool>)
    requires |v| == |g|
    ensures SpacedGaps([c] + v, [h] + g) == [h || IsPunct(c)] + SpacedGaps(v, g)
  {
    assert ([c] + v)[1..] == v && ([h] + g)[1..] == g;
  }

  lemma {:induction false} SpacedGapsAt(v: string, g: seq<bool>, k: nat)
    requires |v| == |g| && k < |g|
    ensures SpacedGaps(v, g)[k] == (g[k] || IsPunct(v[k]))
  {
    if k > 0 {
      SpacedGapsAt(v[1..], g[1..], k - 1);
    }
  }

  /** Pass 3 opens a gap after every sentence mark and changes no other gap. */
  lemma {:induction false} SpaceAfterPunctGaps(s: string)
    ensures Gaps(SpaceAfterPunct(s)) == SpacedGaps(Visible(s), Gaps(s))
    decreases |s|
  {
    if s != [] {
      var x := s[1..];
      if IsPunct(s[0]) {
        SpaceAfterPunctGaps(LStrip(x));
        GapsLStrip(x);
        LStripVisible(x);
        MarkGapsLeft(s);
        SpacedGapsRight(s);
      } else if IsSpace(s[0]) {
        SpaceAfterPunctGaps(x);
        SpaceGapsLeft(s);
        SpaceGapsRight(s);
      } else {
        SpaceAfterPunctGaps(x);
        OtherGapsLeft(s);
        SpacedGapsRight(s);
      }
    }
  }

  lemma SpaceThenGaps(c: char, x: string)
    requires IsSpace(c)
    ensures Gaps([c] + x) == Gaps(x) && Visible([c] + x) == Visible(x)
  {
    assert ([c] + x)[1..] == x;
  }

  lemma VisibleThenGaps(c: char, x: string)
    requires !IsSpace(c)
    ensures Gaps([c] + x) == [x != [] && IsSpace(x[0])] + Gaps(x)
    ensures Visible([c] + x) == [c] + Visible(x)
  {
    assert ([c] + x)[1..] == x;
  }

  lemma MarkGapsLeft(s: string)
    requires s != [] && IsPunct(s[0])
    ensures Gaps(SpaceAfterPunct(s)) == [true] + Gaps(SpaceAfterPunct(LStrip(s[1..])))
  {
    var y := SpaceAfterPunct(LStrip(s[1..]));
    SpaceAfterMarkStep(s);
    PlainSpaceIsSpace();
    SpaceThenGaps(' ', y);
    VisibleThenGaps(s[0], [' '] + y);
  }

  lemma OtherGapsLeft(s: string)
    requires s != [] && !IsPunct(s[0]) && !IsSpace(s[0])
    ensures Gaps(SpaceAfterPunct(s)) == [|s| > 1 && IsSpace(s[1])] + Gaps(SpaceAfterPunct(s[1..]))
  {
    var y := SpaceAfterPunct(s[1..]);
    assert SpaceAfterPunct(s) == [s[0]] + y;
    VisibleThenGaps(s[0], y);
  }

  lemma SpaceGapsLeft(s: string)
    requires s != [] && IsSpace(s[0])
    ensures Gaps(SpaceAfterPunct(s)) == Gaps(SpaceAfterPunct(s[1..]))
  {
    var y := SpaceAfterPunct(s[1..]);
    assert SpaceAfterPunct(s) == [s[0]] + y;
    SpaceThenGaps(s[0], y);
  }

  lemma SpacedGapsRight(s: string)
    requires s != [] && !IsSpace(s[0])
    ensures SpacedGaps(Visible(s), Gaps(s))
      == [(|s| > 1 && IsSpace(s[1])) || IsPunct(s[0])] + SpacedGaps(Visible(s[1..]), Gaps(s[1..]))
  {
    var x := s[1..];
    assert s == [s[0]] + x;
    VisibleThenGaps(s[0], x);
    SpacedGapsCons(s[0], Visible(x), x != [] && IsSpace(x[0]), Gaps(x));
  }

  lemma SpaceGapsRight(s: string)
    requires s != [] && IsSpace(s[0])
    ensures SpacedGaps(Visible(s), Gaps(s)) == SpacedGaps(Visible(s[1..]), Gaps(s[1..]))
  {
    assert s == [s[0]] + s[1..];
    SpaceThenGaps(s[0], s[1..]);
  }

  /** Two gap lists that agree everywhere but at the last visible character. */
  ghost predicate SameInnerGaps(g: seq<bool>, h: seq<bool>) {
    |g| == |h| && forall k :: 0 <= k < |g| - 1 ==> g[k] == h[k]
  }

  /** Dropping a trailing whitespace character changes at most the last gap. */
  lemma {:induction false} GapsDropTrailingSpace(t: string)
    requires t != [] && IsSpace(t[|t| - 1])
    ensures SameInnerGaps(Gaps(t[..|t| - 1]), Gaps(t))
    decreases |t|
  {
    if |t| > 1 {
      var x := t[1..];
      var p := t[..|t| - 1];
      assert p == [t[0]] + x[..|x| - 1];
      assert x[|x| - 1] == t[|t| - 1];
      GapsDropTrailingSpace(x);
      assert t == [t[0]] + x;
      GapsCons(t[0], x);
      GapsCons(t[0], x[..|x| - 1]);
    }
  }

  /** rstrip() changes at most the last gap. */
  lemma {:induction false} GapsRStrip(t: string)
    ensures SameInnerGaps(Gaps(RStrip(t)), Gaps(t))
  {
    if t != [] && IsSpace(t[|t| - 1]) {
      GapsRStrip(t[..|t| - 1]);
      GapsDropTrailingSpace(t);
    }
  }

  /** Between two visible characters, clean_text leaves whitespace after every
      sentence mark, and otherwise exactly where the text had whitespace and no
      sentence mark comes next. */
  ghost predicate Respaced(s: string, r: string) {
    && |Gaps(r)| == |Visible(s)|
    && forall k :: 0 <= k < |Visible(s)| - 1 ==>
         (Gaps(r)[k] <==> IsPunct(Visible(s)[k]) || (Gaps(s)[k] && !IsPunct(Visible(s)[k + 1])))
  }

  /** The three passes and strip() leave the gaps Respaced describes. */
  lemma CleanTextGaps(s: string)
    ensures Respaced(s, Strip(SpaceAfterPunct(UnspacePunct(CollapseSpace(s)))))
  {
    var c := SpaceAfterPunct(UnspacePunct(CollapseSpace(s)));
    PassesGaps(s);
    StripGaps(c);
    RespacedFrom(s, Strip(c), c);
  }

  /** The gaps after the three passes, before strip(). */
  lemma PassesGaps(s: string)
    ensures var c := SpaceAfterPunct(UnspacePunct(CollapseSpace(s)));
      Gaps(c) == SpacedGaps(Visible(s), UnspacedGaps(Visible(s), Gaps(s)))
  {
    var a := CollapseSpace(s);
    var b := UnspacePunct(a);
    CollapseSpaceGaps(s);
    UnspacePunctGaps(a);
    SpaceAfterPunctGaps(b);
  }

  /** strip() changes at most the last gap. */
  lemma StripGaps(c: string)
    ensures SameInnerGaps(Gaps(Strip(c)), Gaps(c))
  {
    GapsLStrip(c);
    GapsRStrip(LStrip(c));
  }

  lemma RespacedFrom(s: string, r: string, c: string)
    requires SameInnerGaps(Gaps(r), Gaps(c))
    requires Gaps(c) == SpacedGaps(Visible(s), UnspacedGaps(Visible(s), Gaps(s)))
    ensures Respaced(s, r)
  {
    var v, g := Visible(s), Gaps(s);
    var u := UnspacedGaps(v, g);
    UnspacedGapsAll(v, g);
    SpacedGapsAll(v, u);
    InnerSpacing(v, g, u, Gaps(c), Gaps(r));
  }

  lemma UnspacedGapsAll(v: string, g: seq<bool>)
    requires |v| == |g|
    ensures forall k :: 0 <= k < |g| ==> UnspacedGaps(v, g)[k] == (g[k] && !(k + 1 < |v| && IsPunct(v[k + 1])))
  {
    forall k | 0 <= k < |g| ensures UnspacedGaps(v, g)[k] == (g[k] && !(k + 1 < |v| && IsPunct(v[k + 1]))) {
      UnspacedGapsAt(v, g, k);
    }
  }

  lemma SpacedGapsAll(v: string, g: seq<bool>)
    requires |v| == |g|
    ensures forall k :: 0 <= k < |g| ==> SpacedGaps(v, g)[k] == (g[k] || IsPunct(v[k]))
  {
    forall k | 0 <= k < |g| ensures SpacedGaps(v, g)[k] == (g[k] || IsPunct(v[k])) {
      SpacedGapsAt(v, g, k);
    }
  }

  /** The pass-2 then pass-3 gap rules, read at every inner position. */
  lemma InnerSpacing(v: string, g: seq<bool>, u: seq<bool>, e: seq<bool>, h: seq<bool>)
    requires |v| == |g| == |u| == |e| && SameInnerGaps(h, e)
    requires forall k :: 0 <= k < |u| ==> u[k] == (g[k] && !(k + 1 < |v| && IsPunct(v[k + 1])))
    requires forall k :: 0 <= k < |e| ==> e[k] == (u[k] || IsPunct(v[k]))
    ensures |h| == |v|
    ensures forall k :: 0 <= k < |v| - 1 ==> (h[k] <==> IsPunct(v[k]) || (g[k] && !IsPunct(v[k + 1])))
  {
  }

  /** StudyAssistant.clean_text: the three substitutions, then strip(). The result
      keeps every visible character of s in order, has no whitespace at either end,
      uses only plain spaces, never two in a row, and puts exactly one space after
      every '.', '!' and '?' that is not last. A space comes before such a mark only
      inside a run of marks ("Wait..." becomes "Wait. . ."). */
  function CleanText(s: string): (r: string)
    ensures Visible(r) == Visible(s)
    ensures r == [] <==> Visible(s) == []
    ensures r == [] || (!IsSpace(r[0]) && !IsSpace(r[|r| - 1]))
    ensures OnlyPlainSpace(r) && NoDoubleSpace(r)
    ensures PunctThenSpace(r) && SpaceBeforePunctOnlyInRun(r)
    ensures Respaced(s, r)
  {
    CleanTextGaps(s);
    var a := CollapseSpace(s);
    CollapseSpaceShape(s);
    var b := UnspacePunct(a);
    UnspacePunctShape(a);
    var c := SpaceAfterPunct(b);
    SpaceAfterPunctVisible(b);
    SpaceAfterPunctShape(b);
    SpaceAfterPunctRuns(b);
    ShapesOfLStrip(c);
    ShapesOfRStrip(LStrip(c));
    var r := Strip(c);
    PlainSpacesAt(r);
    SingleSpacesAt(r);
    SpacedMarksAt(r);
    SpacesInMarkRunsAt(r);
    r
  }

  // ---------------------------------------------------------------------------
  // str.split() and sep.join(...)
  // ---------------------------------------------------------------------------

  /** Index of the first whitespace character of s, or |s| when there is none. */
  function WordEnd(s: string): (k: nat)
    ensures k <= |s| && (k < |s| ==> IsSpace(s[k]))
  {
    if s == [] || IsSpace(s[0]) then 0 else 1 + WordEnd(s[1..])
  }

  /** No whitespace comes before WordEnd(s). */
  lemma {:induction false} WordEndFacts(s: string)
    ensures forall i :: 0 <= i < WordEnd(s) ==> !IsSpace(s[i])
  {
    if s != [] && !IsSpace(s[0]) {
      WordEndFacts(s[1..]);
      forall i | 1 <= i < WordEnd(s) ensures !IsSpace(s[i]) {
        assert s[i] == s[1..][i - 1];
      }
    }
  }

  /** A word as str.split() yields it: non-empty, with no whitespace inside. */
  predicate IsWord(w: string) {
    w != [] && WordEnd(w) == |w|
  }

  lemma {:induction false} WordEndOfPrefix(t: string)
    ensures WordEnd(t[..WordEnd(t)]) == WordEnd(t)
  {
    if t != [] && !IsSpace(t[0]) {
      var k := WordEnd(t);
      WordEndOfPrefix(t[1..]);
      assert t[..k][1..] == t[1..][..k - 1];
    }
  }

  lemma {:induction false} VisibleOfWord(w: string)
    requires WordEnd(w) == |w|
    ensures Visible(w) == w
  {
    if w != [] {
      VisibleOfWord(w[1..]);
      assert w == [w[0]] + w[1..];
    }
  }

  /** The characters of all parts, in order. */
  function Concat(parts: seq<string>): string {
    if parts == [] then [] else parts[0] + Concat(parts[1..])
  }

  /** Every element of ws is a word. */
  predicate AllWords(ws: seq<string>) {
    ws == [] || (IsWord(ws[0]) && AllWords(ws[1..]))
  }

  /** str.split() with no separator: the maximal runs of non-whitespace characters. */
  function Words(s: string): seq<string>
    decreases |s|
  {
    var t := LStrip(s);
    if t == [] then [] else [t[..WordEnd(t)]] + Words(t[WordEnd(t)..])
  }

  /** Every piece str.split() yields is a word, and together they hold exactly the
      visible characters of s, in order. */
  lemma {:induction false} WordsOfText(s: string)
    ensures AllWords(Words(s))
    ensures Concat(Words(s)) == Visible(s)
    decreases |s|
  {
    var t := LStrip(s);
    LStripVisible(s);
    if t != [] {
      var k := WordEnd(t);
      FirstWord(t);
      WordsOfText(t[k..]);
      var ws := Words(s);
      assert ws == [t[..k]] + Words(t[k..]);
      assert ws[0] == t[..k] && ws[1..] == Words(t[k..]);
      assert Concat(ws) == t[..k] + Concat(Words(t[k..]));
    }
  }

  /** The first word of a text that starts with a visible character. */
  lemma FirstWord(t: string)
    requires t != [] && !IsSpace(t[0])
    ensures IsWord(t[..WordEnd(t)])
    ensures Visible(t) == t[..WordEnd(t)] + Visible(t[WordEnd(t)..])
  {
    WordEndOfPrefix(t);
    VisibleAtWordEnd(t);
  }

  lemma {:induction false} VisibleAtWordEnd(t: string)
    ensures Visible(t) == t[..WordEnd(t)] + Visible(t[WordEnd(t)..])
  {
    if t != [] && !IsSpace(t[0]) {
      var u := t[1..];
      VisibleAtWordEnd(u);
      WordEndStep(t);
      VisibleStep(t);
      var j := WordEnd(u);
      SplitAfterFirst(t, j);
      assert [t[0]] + (u[..j] + Visible(u[j..])) == ([t[0]] + u[..j]) + Visible(u[j..]);
    }
  }

  /** WordEnd of a text that starts with a visible character, one step in. */
  lemma WordEndStep(t: string)
    requires t != [] && !IsSpace(t[0])
    ensures WordEnd(t) == WordEnd(t[1..]) + 1
  {
  }

  /** Visible of a text that starts with a visible character, one step in. */
  lemma VisibleStep(t: string)
    requires t != [] && !IsSpace(t[0])
    ensures Visible(t) == [t[0]] + Visible(t[1..])
  {
  }

  /** Cutting t after j + 1 characters, seen from t[1..]. */
  lemma SplitAfterFirst(t: string, j: nat)
    requires j < |t|
    ensures [t[0]] + t[1..][..j] == t[..j + 1]
    ensures t[1..][j..] == t[j + 1..]
  {
  }

  /** sep.join(parts). */
  function Join(sep: string, parts: seq<string>): string {
    if parts == [] then []
    else if |parts| == 1 then parts[0]
    else parts[0] + sep + Join(sep, parts[1..])
  }

  lemma {:induction false} WordEndOfWord(w: string, rest: string)
    requires WordEnd(w) == |w|
    requires rest == [] || IsSpace(rest[0])
    ensures WordEnd(w + rest) == |w|
  {
    if w == [] {
      assert w + rest == rest;
    } else {
      assert (w + rest)[1..] == w[1..] + rest;
      WordEndOfWord(w[1..], rest);
    }
  }

  lemma WordsOfWordThen(w: string, rest: string)
    requires IsWord(w)
    requires rest == [] || IsSpace(rest[0])
    ensures Words(w + rest) == [w] + Words(rest)
  {
    var s := w + rest;
    WordStart(w);
    assert s[0] == w[0];
    WordEndOfWord(w, rest);
    WordsOfVisibleStart(s);
    assert s[..|w|] == w && s[|w|..] == rest;
  }

  /** A word starts with a visible character. */
  lemma WordStart(w: string)
    requires IsWord(w)
    ensures !IsSpace(w[0])
  {
  }

  /** str.split() on a text that starts with a visible character: its first word,
      then the split of the rest. */
  lemma WordsOfVisibleStart(s: string)
    requires s != [] && !IsSpace(s[0])
    ensures Words(s) == [s[..WordEnd(s)]] + Words(s[WordEnd(s)..])
  {
    assert LStrip(s) == s;
  }

  lemma WordsOfSpaceThen(j: string)
    ensures Words(" " + j) == Words(j)
  {
    assert (" " + j)[1..] == j;
    PlainSpaceIsSpace();
    assert LStrip(" " + j) == LStrip(j);
  }

  /** sep.join of two or more parts, first part split off. */
  lemma JoinStep(ws: seq<string>)
    requires |ws| > 1
    ensures Join(" ", ws) == ws[0] + (" " + Join(" ", ws[1..]))
  {
  }

  /** Splitting words joined by single spaces gives the words back. */
  lemma {:induction false} WordsOfJoin(ws: seq<string>)
    requires AllWords(ws)
    ensures Words(Join(" ", ws)) == ws
  {
    if |ws| == 1 {
      WordsOfOneWord(ws[0]);
      HeadThenTail(ws);
    } else if |ws| > 1 {
      WordsOfJoin(ws[1..]);
      WordsOfJoinStep(ws);
    }
  }

  lemma WordsOfOneWord(w: string)
    requires IsWord(w)
    ensures Words(w) == [w]
  {
    assert w + [] == w;
    WordsOfWordThen(w, []);
  }

  lemma WordsOfJoinStep(ws: seq<string>)
    requires |ws| > 1 && AllWords(ws)
    requires Words(Join(" ", ws[1..])) == ws[1..]
    ensures Words(Join(" ", ws)) == ws
  {
    var j := Join(" ", ws[1..]);
    JoinStep(ws);
    PlainSpaceIsSpace();
    WordsOfWordThen(ws[0], " " + j);
    WordsOfSpaceThen(j);
    HeadThenTail(ws);
  }

  lemma HeadThenTail<T>(xs: seq<T>)
    requires xs != []
    ensures [xs[0]] + xs[1..] == xs
  {
  }
}
