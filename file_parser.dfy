/**
 * The text clean-up of the file parser service: the two regular-expression
 * replacements and the trim of `cleanExtractedText`, and the minimum-length
 * guard the PDF and DOCX extractors apply before cleaning. The extraction
 * libraries themselves are not modelled: what they read out is an input.
 */
module FileParser {
  import opened Text
  import opened Wrappers

  /** The length of the run of white space that `s` starts with. */
  function SpaceRun(s: string): (n: nat)
    ensures n <= |s|
    ensures n < |s| ==> !IsSpace(s[n])
    ensures s != [] && IsSpace(s[0]) ==> n >= 1
    decreases |s|
  {
    if s != [] && IsSpace(s[0]) then 1 + SpaceRun(s[1..]) else 0
  }

  lemma {:induction false} SpaceRunIsSpace(s: string)
    ensures AllSpace(s[..SpaceRun(s)])
    decreases |s|
  {
    if s != [] && IsSpace(s[0]) {
      SpaceRunIsSpace(s[1..]);
      assert s[..SpaceRun(s)] == [s[0]] + s[1..][..SpaceRun(s[1..])];
    }
  }

  /** `s.replace(/\s+/g, ' ')`: every maximal run of white space becomes one space. */
  function CollapseSpace(s: string): (r: string)
    ensures r == [] <==> s == []
    ensures r != [] ==> (IsSpace(r[0]) <==> IsSpace(s[0]))
    decreases |s|
  {
    if s == [] then []
    else if IsSpace(s[0]) then [' '] + CollapseSpace(s[SpaceRun(s)..])
    else [s[0]] + CollapseSpace(s[1..])
  }

  /**
   * `s.replace(/\n\s*\n/g, '\n')`: from a line break, the greedy `\s*` gives
   * back characters until a second line break follows, so a match ends at
   * the last line break of the white-space run; the whole match becomes one
   * line break.
   */
  function CollapseBlankLines(s: string): (r: string)
    decreases |s|
  {
    if s == [] then []
    else if s[0] == '\n' then
      var n := SpaceRun(s[1..]);
      var q := LastIndexOf(s[1..1 + n], '\n');
      if q >= 0 then ['\n'] + CollapseBlankLines(s[q + 2..])
      else [s[0]] + CollapseBlankLines(s[1..])
    else [s[0]] + CollapseBlankLines(s[1..])
  }

  /** Every white-space character is a plain space and is followed by a character that is not white space. */
  predicate SingleSpaced(s: string) {
    forall k :: 0 <= k < |s| && IsSpace(s[k]) ==> s[k] == ' ' && (k + 1 < |s| ==> !IsSpace(s[k + 1]))
  }

  /** The characters of `s` that are not white space, in order. */
  function Ink(s: string): string
    decreases |s|
  {
    if s == [] then [] else (if IsSpace(s[0]) then [] else [s[0]]) + Ink(s[1..])
  }

  lemma {:induction false} InkConcat(a: string, b: string)
    ensures Ink(a + b) == Ink(a) + Ink(b)
    decreases |a|
  {
    if a == [] {
      assert a + b == b;
    } else {
      assert (a + b)[0] == a[0];
      assert (a + b)[1..] == a[1..] + b;
      InkConcat(a[1..], b);
    }
  }

  lemma {:induction false} InkOfSpace(s: string)
    requires AllSpace(s)
    ensures Ink(s) == []
    decreases |s|
  {
    if s != [] {
      InkOfSpace(s[1..]);
    }
  }

  /** Collapsing changes nothing but the white space. */
  lemma {:induction false} CollapseSpaceInk(s: string)
    ensures Ink(CollapseSpace(s)) == Ink(s)
    decreases |s|
  {
    if s != [] {
      if IsSpace(s[0]) {
        var n := SpaceRun(s);
        CollapseSpaceInk(s[n..]);
        SpaceRunIsSpace(s);
        assert s == s[..n] + s[n..];
        InkConcat(s[..n], s[n..]);
        InkOfSpace(s[..n]);
        assert ([' '] + CollapseSpace(s[n..]))[1..] == CollapseSpace(s[n..]);
      } else {
        CollapseSpaceInk(s[1..]);
        assert ([s[0]] + CollapseSpace(s[1..]))[1..] == CollapseSpace(s[1..]);
      }
    }
  }

  /** After collapsing, white space only ever appears as single plain spaces. */
  lemma {:induction false} CollapseSpaceSingle(s: string)
    ensures SingleSpaced(CollapseSpace(s))
    decreases |s|
  {
    if s != [] {
      var r := CollapseSpace(s);
      if IsSpace(s[0]) {
        var t := s[SpaceRun(s)..];
        CollapseSpaceSingle(t);
        assert r == [' '] + CollapseSpace(t);
        assert forall k :: 1 <= k < |r| ==> r[k] == CollapseSpace(t)[k - 1];
      } else {
        CollapseSpaceSingle(s[1..]);
        assert r == [s[0]] + CollapseSpace(s[1..]);
        assert forall k :: 1 <= k < |r| ==> r[k] == CollapseSpace(s[1..])[k - 1];
      }
    }
  }

  /** Text that is already single-spaced is left alone by the collapse. */
  lemma {:induction false} CollapseSpaceOfSingle(s: string)
    requires SingleSpaced(s)
    ensures CollapseSpace(s) == s
    decreases |s|
  {
    if s != [] {
      assert SingleSpaced(s[1..]) by {
        assert forall k :: 0 <= k < |s| - 1 ==> s[1..][k] == s[k + 1];
      }
      CollapseSpaceOfSingle(s[1..]);
      if IsSpace(s[0]) {
        assert SpaceRun(s[1..]) == 0;
      }
    }
  }

  /** Without line breaks the second replacement has nothing to match. */
  lemma {:induction false} CollapseBlankLinesWithoutBreak(s: string)
    requires '\n' !in s
    ensures CollapseBlankLines(s) == s
    decreases |s|
  {
    if s != [] {
      CollapseBlankLinesWithoutBreak(s[1..]);
    }
  }

  lemma SingleSpacedHasNoBreak(s: string)
    requires SingleSpaced(s)
    ensures '\n' !in s
  {
    if '\n' in s {
      var k :| 0 <= k < |s| && s[k] == '\n';
      assert IsSpace(s[k]);
    }
  }

  /** The second replacement of `cleanExtractedText` never changes anything: the first leaves no line break. */
  lemma SecondReplaceIsNoop(s: string)
    ensures CollapseBlankLines(CollapseSpace(s)) == CollapseSpace(s)
  {
    CollapseSpaceSingle(s);
    SingleSpacedHasNoBreak(CollapseSpace(s));
    CollapseBlankLinesWithoutBreak(CollapseSpace(s));
  }

  lemma SliceSingleSpaced(s: string, i: nat, j: nat)
    requires i <= j <= |s| && SingleSpaced(s)
    ensures SingleSpaced(s[i..j])
  {
    assert forall k :: 0 <= k < j - i ==> s[i..j][k] == s[i + k];
  }

  /** Trimming removes white space only. */
  lemma InkOfTrim(s: string)
    ensures Ink(Trim(s)) == Ink(s)
  {
    var i, j := TrimBounds(s);
    var a, m, b := s[..i], s[i..j], s[j..];
    assert s == a + m + b;
    InkConcat(a + m, b);
    InkConcat(a, m);
    InkOfSpace(a);
    InkOfSpace(b);
  }

  lemma TrimSingleSpaced(s: string)
    requires SingleSpaced(s)
    ensures SingleSpaced(Trim(s))
  {
    var i, j := TrimBounds(s);
    SliceSingleSpaced(s, i, j);
  }

  /**
   * `cleanExtractedText`: the result is trimmed, holds no line break and no
   * two adjacent white-space characters, and keeps every other character in
   * order.
   */
  function CleanExtractedText(text: string): (r: string)
    ensures r == Trim(CollapseSpace(text))
    ensures IsTrimmed(r) && SingleSpaced(r) && '\n' !in r
    ensures Ink(r) == Ink(text)
  {
    var collapsed := CollapseSpace(text);
    SecondReplaceIsNoop(text);
    CollapseSpaceSingle(text);
    CollapseSpaceInk(text);
    TrimSingleSpaced(collapsed);
    InkOfTrim(collapsed);
    SingleSpacedHasNoBreak(Trim(collapsed));
    Trim(CollapseBlankLines(collapsed))
  }

  /** Cleaning twice gives what cleaning once gave. */
  lemma CleanIdempotent(text: string)
    ensures CleanExtractedText(CleanExtractedText(text)) == CleanExtractedText(text)
  {
    var c := CleanExtractedText(text);
    CollapseSpaceOfSingle(c);
    CollapseBlankLinesWithoutBreak(c);
    TrimOfTrimmed(c);
  }

  /** The smallest trimmed length an extraction accepts. */
  const MinTextLength: nat := 10

  /**
   * `extractPDFText` and `extractDOCXText` after the library call: `raw` is
   * the text the library read out, or `None` when it threw. The trimmed text
   * must hold at least ten characters, checked before cleaning.
   */
  function ExtractText(raw: Option<string>): (r: Option<string>)
    ensures r.Some? <==> raw.Some? && |Trim(raw.value)| >= MinTextLength
    ensures r.Some? ==> r.value == CleanExtractedText(Trim(raw.value))
    ensures r.Some? ==> IsTrimmed(r.value) && SingleSpaced(r.value) && Ink(r.value) == Ink(Trim(raw.value))
  {
    match raw
    case None => None
    case Some(text) =>
      var t := Trim(text);
      if t == [] || |t| < MinTextLength then None else Some(CleanExtractedText(t))
  }

  lemma {:induction false} SpaceRunOfPadded(ws: string, t: string)
    requires AllSpace(ws) && (t == [] || !IsSpace(t[0]))
    ensures SpaceRun(ws + t) == |ws|
    decreases |ws|
  {
    var s := ws + t;
    if ws == [] {
      assert s == t;
    } else {
      assert s[0] == ws[0] && IsSpace(ws[0]);
      assert s[1..] == ws[1..] + t;
      assert AllSpace(ws[1..]) by {
        forall k | 0 <= k < |ws[1..]| ensures IsSpace(ws[1..][k]) {
          assert ws[1..][k] == ws[k + 1];
        }
      }
      SpaceRunOfPadded(ws[1..], t);
      assert SpaceRun(s) == 1 + SpaceRun(s[1..]);
    }
  }

  /** A text ending in a visible character starts with a white-space run that stops inside it. */
  lemma {:induction false} SpaceRunWithin(a: string, x: string)
    requires a != [] && !IsSpace(a[|a| - 1])
    ensures SpaceRun(a + x) == SpaceRun(a) < |a|
    decreases |a|
  {
    assert (a + x)[0] == a[0];
    if IsSpace(a[0]) {
      assert (a + x)[1..] == a[1..] + x;
      SpaceRunWithin(a[1..], x);
    }
  }

  /** Collapsing keeps a visible last character last. */
  lemma {:induction false} CollapseSpaceLast(s: string)
    requires s != [] && !IsSpace(s[|s| - 1])
    ensures CollapseSpace(s) != [] && CollapseSpace(s)[|CollapseSpace(s)| - 1] == s[|s| - 1]
    decreases |s|
  {
    if IsSpace(s[0]) {
      var n := SpaceRun(s);
      SpaceRunWithin(s, []);
      assert s + [] == s;
      CollapseSpaceLast(s[n..]);
    } else if |s| > 1 {
      CollapseSpaceLast(s[1..]);
    }
  }

  /** One unfolding of the collapse at a visible first character. */
  lemma CollapseSpaceAtInk(s: string)
    requires s != [] && !IsSpace(s[0])
    ensures CollapseSpace(s) == [s[0]] + CollapseSpace(s[1..])
  {
  }

  /** One unfolding of the collapse at a leading white-space run. */
  lemma CollapseSpaceAtSpace(s: string)
    requires s != [] && IsSpace(s[0])
    ensures CollapseSpace(s) == [' '] + CollapseSpace(s[SpaceRun(s)..])
  {
  }

  /** A head in front of a space-joined pair regroups onto the pair's left part. */
  lemma JoinRegroup(h: string, whole: string, tail: string, rest: string, right: string, left: string)
    requires whole == h + tail && tail == rest + [' '] + right && left == h + rest
    ensures whole == left + [' '] + right
  {
  }

  /** The gap with nothing before it: the run is the text's leading white space. */
  lemma CollapseLeadingGap(ws: string, b: string)
    requires ws != [] && AllSpace(ws)
    requires b == [] || !IsSpace(b[0])
    ensures CollapseSpace(ws + b) == [' '] + CollapseSpace(b)
  {
    var s := ws + b;
    SpaceRunOfPadded(ws, b);
    assert s[0] == ws[0] && s[|ws|..] == b;
    CollapseSpaceAtSpace(s);
  }

  /** Before a gap, the leading white-space run of text ending in a visible character stays inside that text. */
  lemma GapRunInside(a: string, ws: string, b: string)
    requires a != [] && !IsSpace(a[|a| - 1])
    ensures var s, n := a + ws + b, SpaceRun(a);
            s[0] == a[0] && SpaceRun(s) == n < |a| && s[n..] == a[n..] + ws + b
  {
    var x := ws + b;
    ConcatAssoc(a, ws, b);
    SpaceRunWithin(a, x);
    SliceOfConcat(a, x, SpaceRun(a));
    ConcatAssoc(a[SpaceRun(a)..], ws, b);
  }

  lemma ConcatAssoc(a: string, b: string, c: string)
    ensures a + b + c == a + (b + c)
  {
  }

  lemma SliceOfConcat(a: string, x: string, n: nat)
    requires n <= |a|
    ensures (a + x)[n..] == a[n..] + x
    ensures a != [] ==> (a + x)[0] == a[0]
  {
  }

  /** One collapsing step in front of a gap: a leading run of `a` stays clear of `ws`. */
  lemma CollapseGapStepSpace(a: string, ws: string, b: string)
    requires a != [] && IsSpace(a[0]) && !IsSpace(a[|a| - 1])
    requires CollapseSpace(a[SpaceRun(a)..] + ws + b) == CollapseSpace(a[SpaceRun(a)..]) + [' '] + CollapseSpace(b)
    ensures CollapseSpace(a + ws + b) == CollapseSpace(a) + [' '] + CollapseSpace(b)
  {
    var n := SpaceRun(a);
    GapRunInside(a, ws, b);
    CollapseSpaceAtSpace(a + ws + b);
    CollapseSpaceAtSpace(a);
    JoinRegroup([' '], CollapseSpace(a + ws + b), CollapseSpace(a[n..] + ws + b),
                CollapseSpace(a[n..]), CollapseSpace(b), CollapseSpace(a));
  }

  /** One collapsing step in front of a gap: a visible first character of `a` is kept. */
  lemma CollapseGapStepInk(a: string, ws: string, b: string)
    requires a != [] && !IsSpace(a[0])
    requires CollapseSpace(a[1..] + ws + b) == CollapseSpace(a[1..]) + [' '] + CollapseSpace(b)
    ensures CollapseSpace(a + ws + b) == CollapseSpace(a) + [' '] + CollapseSpace(b)
  {
    ConcatAssoc(a, ws, b);
    SliceOfConcat(a, ws + b, 1);
    ConcatAssoc(a[1..], ws, b);
    CollapseSpaceAtInk(a + ws + b);
    CollapseSpaceAtInk(a);
    JoinRegroup([a[0]], CollapseSpace(a + ws + b), CollapseSpace(a[1..] + ws + b),
                CollapseSpace(a[1..]), CollapseSpace(b), CollapseSpace(a));
  }

  /**
   * Every run of white space becomes exactly one space: a gap between text
   * that ends in a visible character (or nothing) and text that starts with
   * one (or nothing) collapses to `' '`, and each side is collapsed on its own.
   */
  lemma {:induction false} CollapseSpaceGap(a: string, ws: string, b: string)
    requires a == [] || !IsSpace(a[|a| - 1])
    requires ws != [] && AllSpace(ws)
    requires b == [] || !IsSpace(b[0])
    ensures CollapseSpace(a + ws + b) == CollapseSpace(a) + [' '] + CollapseSpace(b)
    decreases |a|
  {
    if a == [] {
      assert a + ws + b == ws + b;
      CollapseLeadingGap(ws, b);
    } else if IsSpace(a[0]) {
      SpaceRunWithin(a, []);
      assert a + [] == a;
      CollapseSpaceGap(a[SpaceRun(a)..], ws, b);
      CollapseGapStepSpace(a, ws, b);
    } else {
      CollapseSpaceGap(a[1..], ws, b);
      CollapseGapStepInk(a, ws, b);
    }
  }

  /** Cleaning two trimmed pieces around a gap keeps them apart by exactly one space. */
  lemma CleanAtGap(a: string, ws: string, b: string)
    requires a != [] && b != [] && IsTrimmed(a) && IsTrimmed(b)
    requires ws != [] && AllSpace(ws)
    ensures CleanExtractedText(a + ws + b) == CleanExtractedText(a) + " " + CleanExtractedText(b)
  {
    CollapseSpaceGap(a, ws, b);
    var ca, cb := CollapseSpace(a), CollapseSpace(b);
    CollapseSpaceLast(a);
    CollapseSpaceLast(b);
    TrimOfTrimmed(ca);
    TrimOfTrimmed(cb);
    var joined := ca + " " + cb;
    assert joined[0] == ca[0] && joined[|joined| - 1] == cb[|cb| - 1];
    TrimOfTrimmed(joined);
  }

  /** A gap of white space between two visible characters collapses to one space. */
  lemma CollapseGap(a: char, ws: string, b: char)
    requires !IsSpace(a) && !IsSpace(b) && ws != [] && AllSpace(ws)
    ensures CollapseSpace([a] + ws + [b]) == [a, ' ', b]
  {
    CollapseSpaceGap([a], ws, [b]);
    assert CollapseSpace([a]) == [a] + CollapseSpace([]);
    assert CollapseSpace([b]) == [b] + CollapseSpace([]);
  }

  lemma CleanGap(a: char, ws: string, b: char)
    requires !IsSpace(a) && !IsSpace(b) && ws != [] && AllSpace(ws)
    ensures CleanExtractedText([a] + ws + [b]) == [a, ' ', b]
  {
    CollapseGap(a, ws, b);
    var c := [a, ' ', b];
    assert '\n' !in c by {
      assert !IsSpace(c[0]) && !IsSpace(c[2]);
    }
    CollapseBlankLinesWithoutBreak(c);
    TrimOfTrimmed(c);
  }

  /**
   * The guard is applied before cleaning, so an accepted text can clean down
   * to fewer than ten characters: two visible characters around a gap of at
   * least eight white-space characters become three characters.
   */
  lemma AcceptedCanCleanShort(a: char, ws: string, b: char)
    requires !IsSpace(a) && !IsSpace(b) && |ws| >= 8 && AllSpace(ws)
    ensures ExtractText(Some([a] + ws + [b])) == Some([a, ' ', b])
  {
    var raw := [a] + ws + [b];
    assert raw[0] == a && raw[|raw| - 1] == b;
    TrimOfTrimmed(raw);
    CleanGap(a, ws, b);
  }
}
