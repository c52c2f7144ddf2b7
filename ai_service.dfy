/**
 * The AI service's deterministic logic: the fallbacks, the JSON clean-up of a
 * model reply, the validation and shaping of an analysis, the clean-up and
 * quality gates applied to an optimized resume, and the line-based fallback
 * extraction of structured resume data. The generative model itself is not
 * modelled: what it answered is an input (`Completion`), and `JSON.parse` is
 * a parameter that either yields a value or fails.
 */
module AiService {
  import opened Text
  import opened Js
  import opened Seqs
  import opened Wrappers

  /** What a call to the generative model produced. */
  datatype Completion =
    | Unconfigured         // no API key, so no client was created
    | Failed               // the call threw
    | Answered(text: string)  // `response.text`; an empty or missing text is `Answered("")`

  predicate HasText(c: Completion) {
    c.Answered? && c.text != []
  }

  // ----- cleanJSON -----

  const Fence: string := "```"
  const JsonFence: string := "```json"

  predicate StartsWithIgnoringCase(s: string, p: string) {
    |p| <= |s| && ToLower(s[..|p|]) == p
  }

  /** `s.replace(/p/gi, "")` for a lower-case literal `p`. */
  function RemoveAllIgnoringCase(s: string, p: string): (r: string)
    requires p != []
    ensures |r| <= |s|
    decreases |s|
  {
    if StartsWithIgnoringCase(s, p) then RemoveAllIgnoringCase(s[|p|..], p)
    else if s == [] then []
    else [s[0]] + RemoveAllIgnoringCase(s[1..], p)
  }

  /** The two fence removals of `cleanJSON`: no three backticks survive them. */
  function StripFences(text: string): (r: string)
    ensures !Contains(r, Fence)
  {
    var t := RemoveAllIgnoringCase(text, JsonFence);
    assert Fence == Repeat('`', 3);
    RemoveAllRepeated(t, '`', 3);
    RemoveAll(t, Fence)
  }

  /**
   * The second step of `cleanJSON`: the span from the first `{` to the last
   * `}`, or, when every `}` comes first, the text between them as
   * `substring` swaps its bounds; with either brace missing, the text as it is.
   */
  function BraceSpan(t: string): (r: string)
    ensures !Contains(t, Fence) ==> !Contains(r, Fence)
  {
    var start, end := IndexOf(t, '{'), LastIndexOf(t, '}');
    if start >= 0 && end >= 0 then
      var r := Substring(t, start, end + 1);
      assert r == if start <= end then t[start..end + 1] else t[end + 1..start];
      assert !Contains(t, Fence) ==> !Contains(r, Fence) by {
        if Contains(r, Fence) {
          if start <= end {
            ContainsSlice(t, start, end + 1, Fence);
          } else {
            ContainsSlice(t, end + 1, start, Fence);
          }
        }
      }
      r
    else
      t
  }

  /** `cleanJSON`: strip the fences, then keep the brace span. */
  function CleanJSON(text: string): (r: string)
    ensures !Contains(r, Fence)
  {
    BraceSpan(StripFences(text))
  }

  /** Without an opening or a closing brace the stripped text comes back unchanged. */
  lemma CleanJSONWithoutBraces(text: string)
    requires var t := StripFences(text); '{' !in t || '}' !in t
    ensures CleanJSON(text) == StripFences(text)
  {
  }

  /**
   * With the braces in order the result is the widest brace-delimited span:
   * it opens with the first `{` and closes with the last `}`.
   */
  lemma CleanJSONSpan(text: string)
    requires var t := StripFences(text); 0 <= IndexOf(t, '{') <= LastIndexOf(t, '}')
    ensures var t, r := StripFences(text), CleanJSON(text);
            var start, end := IndexOf(t, '{'), LastIndexOf(t, '}');
            && r == t[start..end + 1]
            && r[0] == '{' && r[|r| - 1] == '}'
            && '{' !in t[..start] && '}' !in t[end + 1..]
  {
    var t := StripFences(text);
    var start, end := IndexOf(t, '{'), LastIndexOf(t, '}');
    var r := t[start..end + 1];
    assert BraceSpan(t) == r;
    assert r[0] == t[start] && r[|r| - 1] == t[end];
  }

  /**
   * When every `}` comes before the first `{`, `substring` swaps its bounds
   * and the text between the last `}` and the first `{` comes back: it holds
   * no brace at all.
   */
  lemma CleanJSONReversed(text: string)
    requires var t := StripFences(text); 0 <= LastIndexOf(t, '}') < IndexOf(t, '{')
    ensures var t, r := StripFences(text), CleanJSON(text);
            && r == t[LastIndexOf(t, '}') + 1..IndexOf(t, '{')]
            && '{' !in r && '}' !in r
  {
    var t := StripFences(text);
    var start, end := IndexOf(t, '{'), LastIndexOf(t, '}');
    assert BraceSpan(t) == t[end + 1..start];
    NoBraceBetween(t, start, end);
  }

  /** The text after the last `}` and before the first `{` holds neither brace. */
  lemma NoBraceBetween(t: string, start: int, end: int)
    requires 0 <= end < start <= |t|
    requires '{' !in t[..start] && '}' !in t[end + 1..]
    ensures '{' !in t[end + 1..start] && '}' !in t[end + 1..start]
  {
    var r := t[end + 1..start];
    forall k | 0 <= k < |r|
      ensures r[k] != '{' && r[k] != '}'
    {
      assert r[k] == t[..start][end + 1 + k];
      assert r[k] == t[end + 1..][k];
    }
  }

  // ----- analyzeResumeForJob -----

  datatype Analysis = Analysis(
    matchScore: real,
    strengths: Json,
    suggestions: Json,
    missingKeywords: Json,
    sectionsToImprove: Json)

  /** `isValid`: a truthy value whose `matchScore` is a number and whose `suggestions` is an array. */
  predicate IsValid(analysis: Json) {
    Truthy(analysis) && Get(analysis, "matchScore").Num? && Get(analysis, "suggestions").Arr?
  }

  function StrList(items: seq<string>): (r: Json)
    ensures r.Arr? && |r.items| == |items|
  {
    Arr(seq(|items|, k requires 0 <= k < |items| => Str(items[k])))
  }

  /** `getFallbackAnalysis` */
  function FallbackAnalysis(): (r: Analysis)
    ensures r.matchScore == 0.0
    ensures HasPositiveLength(r.strengths) && HasPositiveLength(r.suggestions)
    ensures r.missingKeywords == Arr([]) && r.sectionsToImprove == Arr([])
  {
    Analysis(0.0, StrList(["Resume structure is clear"]), StrList(["AI temporarily unavailable"]), Arr([]), Arr([]))
  }

  /** `JSON.parse(cleanJSON(text.trim()))`, or `None` when the call is not reached or throws. */
  function ParsedReply(c: Completion, parse: string -> Option<Json>): Option<Json> {
    if HasText(c) then parse(CleanJSON(Trim(c.text))) else None
  }

  /**
   * Shaping of a valid analysis: a list whose `length` is not above zero is
   * replaced by a one-sentence default, and a falsy keyword or section list
   * by an empty array; anything else is kept as the reply gave it.
   */
  function ShapeAnalysis(v: Json): (r: Analysis)
    requires IsValid(v)
    ensures r.matchScore == Get(v, "matchScore").x
    ensures HasPositiveLength(r.strengths) && HasPositiveLength(r.suggestions)
    ensures Truthy(r.missingKeywords) && Truthy(r.sectionsToImprove)
    ensures HasPositiveLength(Get(v, "strengths")) ==> r.strengths == Get(v, "strengths")
    ensures !HasPositiveLength(Get(v, "strengths")) ==> r.strengths == StrList(["Resume has relevant experience"])
    ensures HasPositiveLength(Get(v, "suggestions")) ==> r.suggestions == Get(v, "suggestions")
    ensures !HasPositiveLength(Get(v, "suggestions")) ==> r.suggestions == StrList(["Resume is well-structured"])
    ensures Truthy(Get(v, "missingKeywords")) ==> r.missingKeywords == Get(v, "missingKeywords")
    ensures !Truthy(Get(v, "missingKeywords")) ==> r.missingKeywords == Arr([])
    ensures Truthy(Get(v, "sectionsToImprove")) ==> r.sectionsToImprove == Get(v, "sectionsToImprove")
    ensures !Truthy(Get(v, "sectionsToImprove")) ==> r.sectionsToImprove == Arr([])
  {
    Analysis(
      Or(Get(v, "matchScore"), Num(0.0)).x,
      if HasPositiveLength(Get(v, "strengths")) then Get(v, "strengths") else StrList(["Resume has relevant experience"]),
      if HasPositiveLength(Get(v, "suggestions")) then Get(v, "suggestions") else StrList(["Resume is well-structured"]),
      Or(Get(v, "missingKeywords"), Arr([])),
      Or(Get(v, "sectionsToImprove"), Arr([])))
  }

  /**
   * `analyzeResumeForJob`: every failure (no client, a throwing call, no text,
   * unparsable or invalid JSON) gives the fallback; a valid reply keeps its
   * score and its non-empty lists.
   */
  function AnalyzeResumeForJob(c: Completion, parse: string -> Option<Json>): (r: Analysis)
    ensures HasPositiveLength(r.strengths) && HasPositiveLength(r.suggestions)
    ensures Truthy(r.missingKeywords) && Truthy(r.sectionsToImprove)
    ensures var p := ParsedReply(c, parse);
            !(p.Some? && IsValid(p.value)) ==> r == FallbackAnalysis()
    ensures var p := ParsedReply(c, parse);
            p.Some? && IsValid(p.value) ==>
              && r.matchScore == Get(p.value, "matchScore").x
              && (HasPositiveLength(Get(p.value, "strengths")) ==> r.strengths == Get(p.value, "strengths"))
              && (HasPositiveLength(Get(p.value, "suggestions")) ==> r.suggestions == Get(p.value, "suggestions"))
              && (Truthy(Get(p.value, "missingKeywords")) ==> r.missingKeywords == Get(p.value, "missingKeywords"))
              && (Truthy(Get(p.value, "sectionsToImprove")) ==> r.sectionsToImprove == Get(p.value, "sectionsToImprove"))
    ensures var p := ParsedReply(c, parse);
            p.Some? && IsValid(p.value) ==>
              && (!HasPositiveLength(Get(p.value, "strengths")) ==> r.strengths == StrList(["Resume has relevant experience"]))
              && (!HasPositiveLength(Get(p.value, "suggestions")) ==> r.suggestions == StrList(["Resume is well-structured"]))
              && (!Truthy(Get(p.value, "missingKeywords")) ==> r.missingKeywords == Arr([]))
              && (!Truthy(Get(p.value, "sectionsToImprove")) ==> r.sectionsToImprove == Arr([]))
  {
    match ParsedReply(c, parse)
    case None => FallbackAnalysis()
    case Some(v) => if IsValid(v) then ShapeAnalysis(v) else FallbackAnalysis()
  }

  /**
   * `strengths?.length > 0` converts the `length` to a number: a reply whose
   * `strengths` is an object with the text "2" as its `length`, or a
   * one-element array holding 1, keeps it; "-2" or "two" gets the default.
   */
  lemma ShapeReadsLengthAsNumber(len: Json)
    requires len in {Str("2"), Arr([Num(1.0)]), Str("-2"), Str("two")}
    ensures var x := Obj(map["length" := len]);
            var v := Obj(map["matchScore" := Num(1.0), "suggestions" := Arr([Str("x")]), "strengths" := x]);
            ShapeAnalysis(v).strengths == if len in {Str("2"), Arr([Num(1.0)])} then x
                                          else StrList(["Resume has relevant experience"])
  {
    NumericTexts();
    var x := Obj(map["length" := len]);
    assert OptGet(x, "length") == len;
  }

  /** A valid analysis is always an object. */
  lemma ValidIsObject(v: Json)
    requires IsValid(v)
    ensures v.Obj?
  {
  }

  // ----- generateResumeOptimization -----

  datatype Optimization = Optimization(optimizedContent: string, success: bool)

  /** `getFallbackOptimization`: the original text, flagged as not optimized. */
  function FallbackOptimization(content: string): (r: Optimization)
    ensures !r.success && r.optimizedContent == content
  {
    Optimization(content, false)
  }

  const Bold: string := "**"
  const NullMarker: string := "| null"
  const TbdMarker: string := "| TBD"

  /**
   * Trim, remove every three backticks, remove every double asterisk, trim.
   * No `**` is left; a fence can be re-formed (see `StripMarkupCanLeaveFence`).
   */
  function StripMarkup(text: string): (r: string)
    ensures IsTrimmed(r) && |r| <= |text|
    ensures !Contains(r, Bold)
  {
    var t := RemoveAll(RemoveAll(Trim(text), Fence), Bold);
    assert Bold == Repeat('*', 2);
    RemoveAllRepeated(RemoveAll(Trim(text), Fence), '*', 2);
    assert !Contains(Trim(t), Bold) by {
      if Contains(Trim(t), Bold) {
        TrimContains(t, Bold);
      }
    }
    Trim(t)
  }

  /** Removing the asterisks between backticks joins them into a fence. */
  lemma StripMarkupCanLeaveFence()
    ensures StripMarkup(FenceSample) == Fence
  {
    var s := FenceSample;
    TrimOfTrimmed(s);
    SampleHasNoFence();
    RemoveAllAbsent(s, Fence);
    SampleLosesBold();
    TrimOfTrimmed(Fence);
  }

  /** A reply in which only the removal of `**` creates a fence. */
  const FenceSample: string := "`**``"

  lemma SampleHasNoFence()
    ensures !Contains(FenceSample, Fence)
  {
    var s := FenceSample;
    ShortNotContains(s[3..], Fence);
    MismatchNotStart(s[2..], Fence, 0);
    assert s[2..][1..] == s[3..];
    MismatchNotStart(s[1..], Fence, 0);
    assert s[1..][1..] == s[2..];
    MismatchNotStart(s, Fence, 1);
  }

  lemma ShortNotContains(s: string, p: string)
    requires |s| < |p|
    ensures !Contains(s, p)
    decreases |s|
  {
    if s != [] {
      ShortNotContains(s[1..], p);
    }
  }

  lemma SampleLosesBold()
    ensures RemoveAll(FenceSample, Bold) == Fence
  {
    var s := FenceSample;
    var tail: string := "``";
    assert s[3..] == tail;
    assert !StartsWith(tail, Bold) && !StartsWith(tail[1..], Bold);
    assert RemoveAll(tail, Bold) == tail;
    assert s[1..][..2] == Bold && s[1..][2..] == tail;
    MismatchNotStart(s, Bold, 0);
    assert RemoveAll(s, Bold) == [s[0]] + RemoveAll(s[1..], Bold);
  }

  predicate HasPlaceholder(line: string) {
    Contains(line, NullMarker) || Contains(line, TbdMarker)
  }

  /** Lines of `s` avoid a pattern `s` avoids, when the pattern has no line break. */
  lemma LinesAvoid(s: string, p: string)
    requires '\n' !in p && !Contains(s, p)
    ensures forall line :: line in Split(s, '\n') ==> !Contains(line, p)
  {
    var parts := Split(s, '\n');
    forall k | 0 <= k < |parts|
      ensures !Contains(parts[k], p)
    {
      if Contains(parts[k], p) {
        SplitPartContains(s, '\n', k, p);
      }
    }
  }

  /** Joining lines that avoid a pattern without a line break gives text that avoids it. */
  lemma JoinAvoids(lines: seq<string>, p: string)
    requires p != [] && '\n' !in p
    requires forall k :: 0 <= k < |lines| ==> !Contains(lines[k], p)
    ensures !Contains(Join(lines, '\n'), p)
  {
    if Contains(Join(lines, '\n'), p) {
      JoinContains(lines, '\n', p);
    }
  }

  function NotPlaceholder(line: string): bool {
    !HasPlaceholder(line)
  }

  /** Step 1: when a placeholder appears, drop every line that holds one. */
  function DropPlaceholderLines(s: string): (r: string)
    ensures !Contains(r, NullMarker) && !Contains(r, TbdMarker)
    ensures !HasPlaceholder(s) ==> r == s
  {
    if HasPlaceholder(s) then
      var kept := Filter(NotPlaceholder, Split(s, '\n'));
      JoinAvoids(kept, NullMarker);
      JoinAvoids(kept, TbdMarker);
      Join(kept, '\n')
    else
      s
  }

  /** Dropping whole lines cannot create a pattern without a line break. */
  lemma DropPlaceholderLinesAvoids(s: string, p: string)
    requires p != [] && '\n' !in p && !Contains(s, p)
    ensures !Contains(DropPlaceholderLines(s), p)
  {
    if HasPlaceholder(s) {
      var kept := Filter(NotPlaceholder, Split(s, '\n'));
      LinesAvoid(s, p);
      JoinAvoids(kept, p);
    }
  }

  /** The lines the filter keeps are the placeholder-free ones, in their original order. */
  lemma DropPlaceholderLinesKeepsOthers(s: string)
    requires HasPlaceholder(s)
    ensures exists kept: seq<string> ::
              && Subsequence(kept, Split(s, '\n'))
              && DropPlaceholderLines(s) == Join(kept, '\n')
              && (forall k :: 0 <= k < |kept| ==> !HasPlaceholder(kept[k]))
              && (forall k :: 0 <= k < |Split(s, '\n')| && !HasPlaceholder(Split(s, '\n')[k]) ==> Split(s, '\n')[k] in kept)
  {
    var kept := Filter(NotPlaceholder, Split(s, '\n'));
    FilterIsSubsequence(NotPlaceholder, Split(s, '\n'));
    assert DropPlaceholderLines(s) == Join(kept, '\n');
  }

  const CompanyWords: seq<string> := ["pvt", "ltd", "inc", "corp", "company", "technologies", "solutions"]

  /** `\w` */
  predicate IsWordChar(c: char) {
    ('a' <= c <= 'z') || ('A' <= c <= 'Z') || ('0' <= c <= '9') || c == '_'
  }

  /** `w` occurs at `i`, ignoring ASCII case, with a word boundary on both sides. */
  predicate WordAt(s: string, w: string, i: nat) {
    && i + |w| <= |s|
    && ToLower(s[i..i + |w|]) == w
    && (i == 0 || !IsWordChar(s[i - 1]))
    && (i + |w| == |s| || !IsWordChar(s[i + |w|]))
  }

  /** One of `words` occurs as a word at `i`. */
  predicate WordAtAny(s: string, i: nat, words: seq<string>)
    decreases |words|
  {
    words != [] && (WordAt(s, words[0], i) || WordAtAny(s, i, words[1..]))
  }

  /** One of `words` occurs as a word at `i` or later. */
  predicate WordFrom(s: string, i: nat, words: seq<string>)
    decreases |s| - i
  {
    i <= |s| && (WordAtAny(s, i, words) || WordFrom(s, i + 1, words))
  }

  /** `/\b(pvt|ltd|inc|corp|company|technologies|solutions)\b/i.test(s)`, scanning left to right. */
  predicate MentionsCompany(s: string) {
    WordFrom(s, 0, CompanyWords)
  }

  lemma {:induction false} WordAtAnyIff(s: string, i: nat, words: seq<string>)
    ensures WordAtAny(s, i, words) <==> exists w :: w in words && WordAt(s, w, i)
    decreases |words|
  {
    if words != [] {
      WordAtAnyIff(s, i, words[1..]);
      assert forall w :: w in words <==> w == words[0] || w in words[1..];
    }
  }

  lemma {:induction false} WordFromIff(s: string, i: nat, words: seq<string>)
    ensures WordFrom(s, i, words) <==> exists w, j :: w in words && i <= j <= |s| && WordAt(s, w, j)
    decreases |s| - i
  {
    WordAtAnyIff(s, i, words);
    if i <= |s| {
      WordFromIff(s, i + 1, words);
      if exists w, j :: w in words && i <= j <= |s| && WordAt(s, w, j) {
        var w, j :| w in words && i <= j <= |s| && WordAt(s, w, j);
        if j > i {
          assert i + 1 <= j;
        }
      }
    }
  }

  /** The scan finds a company word exactly when one occurs somewhere as a whole word. */
  lemma MentionsCompanyIff(s: string)
    ensures MentionsCompany(s) <==> exists w, i :: w in CompanyWords && 0 <= i <= |s| && WordAt(s, w, i)
  {
    WordFromIff(s, 0, CompanyWords);
  }

  /** Some needle occurs in `s`. */
  predicate ContainsAny(s: string, needles: seq<string>)
    decreases |needles|
  {
    needles != [] && (Contains(s, needles[0]) || ContainsAny(s, needles[1..]))
  }

  const FakeSectionWords: seq<string> := ["current focus", "goals", "learning path"]
  const SectionMarkers: seq<string> := ["professional experience", "current focus", "work experience"]

  /** `/current focus|goals|learning path/i.test(s)` */
  predicate MentionsFakeSection(s: string) {
    ContainsAny(ToLower(s), FakeSectionWords)
  }

  /** A line that opens a section to skip: its lower-cased text names one of the markers. */
  predicate IsSectionMarker(line: string) {
    ContainsAny(ToLower(line), SectionMarkers)
  }

  /** `[A-Z\s]*` */
  predicate UpperOrSpace(t: string)
    decreases |t|
  {
    t == [] || ((('A' <= t[0] <= 'Z') || IsSpace(t[0])) && UpperOrSpace(t[1..]))
  }

  /** `/^[A-Z\s]{2,}$/` on the trimmed line, which must also be longer than three characters. */
  predicate IsHeading(line: string) {
    var t := Trim(line);
    |t| >= 2 && UpperOrSpace(t) && |t| > 3
  }

  /**
   * The lines the section filter keeps, for any marker and heading tests: a
   * marker line is dropped and starts skipping, a heading ends skipping, and
   * other lines are kept unless skipping.
   */
  function FilterSections(isMarker: string -> bool, isHeading: string -> bool, lines: seq<string>, skip: bool)
    : seq<string>
    decreases |lines|
  {
    if lines == [] then []
    else
      var line := lines[0];
      if isMarker(line) then FilterSections(isMarker, isHeading, lines[1..], true)
      else
        var skip' := if isHeading(line) then false else skip;
        (if skip' then [] else [line]) + FilterSections(isMarker, isHeading, lines[1..], skip')
  }

  /** The filter with the marker and heading tests of `generateResumeOptimization`. */
  function KeptLines(lines: seq<string>): seq<string> {
    FilterSections(IsSectionMarker, IsHeading, lines, false)
  }

  /** The filter's state after a line: markers start skipping, headings end it. */
  function NextSkip(isMarker: string -> bool, isHeading: string -> bool, line: string, skip: bool): bool {
    if isMarker(line) then true else if isHeading(line) then false else skip
  }

  /** What the filter does with the first line. */
  lemma FilterSectionsUnfold(isMarker: string -> bool, isHeading: string -> bool, lines: seq<string>, skip: bool)
    requires lines != []
    ensures var skip' := NextSkip(isMarker, isHeading, lines[0], skip);
            FilterSections(isMarker, isHeading, lines, skip)
            == (if skip' then [] else [lines[0]]) + FilterSections(isMarker, isHeading, lines[1..], skip')
  {
  }

  /** One step of the filter at position `i`. */
  lemma FilterSectionsStep(isMarker: string -> bool, isHeading: string -> bool, lines: seq<string>, i: nat, skip: bool)
    requires i < |lines|
    ensures var skip' := NextSkip(isMarker, isHeading, lines[i], skip);
            FilterSections(isMarker, isHeading, lines[i..], skip)
            == (if skip' then [] else [lines[i]]) + FilterSections(isMarker, isHeading, lines[i + 1..], skip')
  {
    assert lines[i..][0] == lines[i] && lines[i..][1..] == lines[i + 1..];
    FilterSectionsUnfold(isMarker, isHeading, lines[i..], skip);
  }

  /** Moving past line `i` while keeping it or not, as the filter does, leaves the overall result unchanged. */
  lemma FilterSectionsAdvance(isMarker: string -> bool, isHeading: string -> bool, lines: seq<string>, i: nat,
                              skip: bool, kept: seq<string>)
    requires i < |lines|
    ensures var skip' := NextSkip(isMarker, isHeading, lines[i], skip);
            kept + FilterSections(isMarker, isHeading, lines[i..], skip)
            == (kept + (if skip' then [] else [lines[i]])) + FilterSections(isMarker, isHeading, lines[i + 1..], skip')
  {
    var skip' := NextSkip(isMarker, isHeading, lines[i], skip);
    var here: seq<string> := if skip' then [] else [lines[i]];
    var rest := FilterSections(isMarker, isHeading, lines[i + 1..], skip');
    FilterSectionsStep(isMarker, isHeading, lines, i, skip);
    assert kept + (here + rest) == (kept + here) + rest;
  }

  /** The section filter's loop, for any marker and heading tests. */
  method SkipFakeSections(isMarker: string -> bool, isHeading: string -> bool, lines: seq<string>)
    returns (cleaned: seq<string>)
    ensures cleaned == FilterSections(isMarker, isHeading, lines, false)
  {
    cleaned := [];
    var skip := false;
    var i := 0;
    while i < |lines|
      invariant 0 <= i <= |lines|
      invariant cleaned + FilterSections(isMarker, isHeading, lines[i..], skip) == FilterSections(isMarker, isHeading, lines, false)
    {
      var line := lines[i];
      ghost var skipped, kept := skip, cleaned;
      if isMarker(line) {
        skip := true;
      } else {
        if isHeading(line) {
          skip := false;
        }
        if !skip {
          cleaned := cleaned + [line];
        }
      }
      assert skip == NextSkip(isMarker, isHeading, line, skipped);
      assert cleaned == kept + (if skip then [] else [line]);
      FilterSectionsAdvance(isMarker, isHeading, lines, i, skipped, kept);
      i := i + 1;
    }
    assert lines[i..] == [];
  }

  /** Every kept line comes from the input and is not a marker. */
  lemma {:induction false} FilterSectionsDropsMarkers(isMarker: string -> bool, isHeading: string -> bool, lines: seq<string>, skip: bool)
    ensures forall line :: line in FilterSections(isMarker, isHeading, lines, skip) ==> line in lines && !isMarker(line)
    decreases |lines|
  {
    if lines != [] {
      var skip' := NextSkip(isMarker, isHeading, lines[0], skip);
      FilterSectionsUnfold(isMarker, isHeading, lines, skip);
      FilterSectionsDropsMarkers(isMarker, isHeading, lines[1..], skip');
      assert forall line :: line in lines[1..] ==> line in lines;
    }
  }

  /** The kept lines appear in the input, in the same order. */
  lemma {:induction false} FilterSectionsSubsequence(isMarker: string -> bool, isHeading: string -> bool, lines: seq<string>, skip: bool)
    ensures Subsequence(FilterSections(isMarker, isHeading, lines, skip), lines)
    decreases |lines|
  {
    if lines != [] {
      var skip' := NextSkip(isMarker, isHeading, lines[0], skip);
      var r := FilterSections(isMarker, isHeading, lines, skip);
      var rest := FilterSections(isMarker, isHeading, lines[1..], skip');
      FilterSectionsUnfold(isMarker, isHeading, lines, skip);
      FilterSectionsSubsequence(isMarker, isHeading, lines[1..], skip');
      if skip' {
        assert r == rest;
        SubsequenceOfTail(r, lines);
      } else {
        assert r == [lines[0]] + rest;
        assert r[0] == lines[0] && r[1..] == rest;
      }
    }
  }

  lemma SubsequenceOfTail<T>(xs: seq<T>, ys: seq<T>)
    requires ys != [] && Subsequence(xs, ys[1..])
    ensures Subsequence(xs, ys)
  {
  }

  /** A heading that is not itself a marker is always kept. */
  lemma {:induction false} FilterSectionsKeepsHeadings(isMarker: string -> bool, isHeading: string -> bool, lines: seq<string>, skip: bool, k: nat)
    requires k < |lines| && isHeading(lines[k]) && !isMarker(lines[k])
    ensures lines[k] in FilterSections(isMarker, isHeading, lines, skip)
    decreases |lines|
  {
    FilterSectionsUnfold(isMarker, isHeading, lines, skip);
    if k > 0 {
      assert lines[1..][k - 1] == lines[k];
      FilterSectionsKeepsHeadings(isMarker, isHeading, lines[1..], NextSkip(isMarker, isHeading, lines[0], skip), k - 1);
    }
  }

  /** Without a marker line nothing is skipped. */
  lemma {:induction false} FilterSectionsWithoutMarkers(isMarker: string -> bool, isHeading: string -> bool, lines: seq<string>)
    requires forall k :: 0 <= k < |lines| ==> !isMarker(lines[k])
    ensures FilterSections(isMarker, isHeading, lines, false) == lines
    decreases |lines|
  {
    if lines != [] {
      FilterSectionsUnfold(isMarker, isHeading, lines, false);
      FilterSectionsWithoutMarkers(isMarker, isHeading, lines[1..]);
    }
  }

  /** The section filter cannot bring back a pattern without a line break that the text avoids. */
  lemma KeptLinesAvoid(o: string, p: string)
    requires p != [] && '\n' !in p
    ensures !Contains(o, p) ==> !Contains(Join(KeptLines(Split(o, '\n')), '\n'), p)
  {
    if !Contains(o, p) {
      var kept := KeptLines(Split(o, '\n'));
      FilterSectionsDropsMarkers(IsSectionMarker, IsHeading, Split(o, '\n'), false);
      LinesAvoid(o, p);
      assert forall k :: 0 <= k < |kept| ==> kept[k] in kept;
      JoinAvoids(kept, p);
    }
  }

  /** Step 2's filter applied to a text: split into lines, drop the skipped ones, join. */
  function FilterFakeSections(o: string): (r: string)
    ensures !Contains(o, Bold) ==> !Contains(r, Bold)
    ensures !Contains(o, NullMarker) ==> !Contains(r, NullMarker)
    ensures !Contains(o, TbdMarker) ==> !Contains(r, TbdMarker)
  {
    KeptLinesAvoid(o, Bold);
    KeptLinesAvoid(o, NullMarker);
    KeptLinesAvoid(o, TbdMarker);
    Join(KeptLines(Split(o, '\n')), '\n')
  }

  /** Step 2 runs only when the reply names a company the original does not and mentions a "current focus"-like section. */
  predicate FilterApplies(resumeContent: string, o: string) {
    !MentionsCompany(resumeContent) && MentionsCompany(o) && MentionsFakeSection(o)
  }

  /** Steps 1 and 2 of the post-processing, applied to the stripped reply. */
  function Postprocess(resumeContent: string, text: string): (r: string)
    ensures !Contains(r, Bold) && !Contains(r, NullMarker) && !Contains(r, TbdMarker)
  {
    var o := DropPlaceholderLines(StripMarkup(text));
    DropPlaceholderLinesAvoids(StripMarkup(text), Bold);
    if FilterApplies(resumeContent, o) then FilterFakeSections(o) else o
  }

  /** `optimized.length < resumeContent.length * 0.4`, in exact arithmetic. */
  predicate TooShort(optimized: string, original: string) {
    5 * |optimized| < 2 * |original|
  }

  /**
   * `generateResumeOptimization`: the original text, unoptimized, on any
   * failure; otherwise the post-processed reply, which is at least 40% of
   * the original's length, has at least three lines and holds no `**` and no
   * placeholder.
   */
  function Optimize(resumeContent: string, c: Completion): (r: Optimization)
    ensures !r.success ==> r == FallbackOptimization(resumeContent)
    ensures r.success ==> HasText(c) && r.optimizedContent == Postprocess(resumeContent, c.text)
    ensures r.success ==>
              && 5 * |r.optimizedContent| >= 2 * |resumeContent|
              && |Split(r.optimizedContent, '\n')| >= 3
              && !Contains(r.optimizedContent, Bold)
              && !Contains(r.optimizedContent, NullMarker)
              && !Contains(r.optimizedContent, TbdMarker)
    ensures (HasText(c) && !TooShort(Postprocess(resumeContent, c.text), resumeContent)
             && |Split(Postprocess(resumeContent, c.text), '\n')| >= 3) ==> r.success
  {
    if !HasText(c) then FallbackOptimization(resumeContent)
    else
      var o := Postprocess(resumeContent, c.text);
      if TooShort(o, resumeContent) then FallbackOptimization(resumeContent)
      else if |Split(o, '\n')| < 3 then FallbackOptimization(resumeContent)
      else Optimization(o, true)
  }

  /** `generateResumeOptimization`, with the section filter run as its `for` loop. */
  method GenerateResumeOptimization(resumeContent: string, c: Completion) returns (r: Optimization)
    ensures r == Optimize(resumeContent, c)
  {
    if !HasText(c) {
      return FallbackOptimization(resumeContent);
    }
    var optimized := DropPlaceholderLines(StripMarkup(c.text));
    if !MentionsCompany(resumeContent) && MentionsCompany(optimized) {
      if MentionsFakeSection(optimized) {
        var cleaned := SkipFakeSections(IsSectionMarker, IsHeading, Split(optimized, '\n'));
        optimized := Join(cleaned, '\n');
      }
    }
    assert optimized == Postprocess(resumeContent, c.text);
    if TooShort(optimized, resumeContent) {
      return FallbackOptimization(resumeContent);
    }
    if |Split(optimized, '\n')| < 3 {
      return FallbackOptimization(resumeContent);
    }
    return Optimization(optimized, true);
  }

  // ----- getFallbackJSON -----

  /**
   * The contact fields hold what `line.match(...)` returned, not its text:
   * `null` before any hit, then the match array, whose one element is the
   * matched text (the patterns have no groups).
   */
  datatype PersonalInfo = PersonalInfo(
    name: string,
    email: Json,
    phone: Json,
    linkedin: Option<string>,
    github: Option<string>,
    twitter: Option<string>,
    portfolio: Option<string>,
    location: Option<string>)

  datatype StructuredResume = StructuredResume(
    personalInfo: PersonalInfo,
    summary: string,
    skills: map<string, Json>,
    experience: seq<Json>,
    projects: seq<Json>,
    education: seq<Json>,
    certifications: seq<Json>,
    languages: seq<Json>)

  function NotBlank(line: string): bool {
    Trim(line) != []
  }

  /** `content.split('\n').filter(l => l.trim())` */
  function NonBlankLines(content: string): (r: seq<string>)
    ensures forall k :: 0 <= k < |r| ==> Trim(r[k]) != []
  {
    Filter(NotBlank, Split(content, '\n'))
  }

  /**
   * What the scan gets from one line: the match of `m` on the trimmed line,
   * which for the e-mail must first contain an `@`. `m` stands for
   * `line.match(/[\w.-]+@[\w.-]+\.\w+/)` (e-mail) or
   * `line.match(/\d{3}[-.\s]?\d{3}[-.\s]?\d{4}/)` (phone).
   */
  function Probe(m: string -> Option<string>, needsAt: bool, line: string): Option<string> {
    var t := Trim(line);
    if !needsAt || '@' in t then m(t) else None
  }

  /** What a scan that keeps its first hit settles on. */
  function FirstMatch(m: string -> Option<string>, needsAt: bool, lines: seq<string>): Option<string>
    decreases |lines|
  {
    if lines == [] then None
    else
      var prev := FirstMatch(m, needsAt, lines[..|lines| - 1]);
      if prev.Some? then prev else Probe(m, needsAt, lines[|lines| - 1])
  }

  /** The scan finds nothing only when no line yields a match, and otherwise reports the first line's match. */
  lemma {:induction false} FirstMatchIsFirst(m: string -> Option<string>, needsAt: bool, lines: seq<string>)
    ensures var r := FirstMatch(m, needsAt, lines);
            && (r.None? <==> forall k :: 0 <= k < |lines| ==> Probe(m, needsAt, lines[k]).None?)
            && (r.Some? ==> exists k :: 0 <= k < |lines| && r == Probe(m, needsAt, lines[k])
                                        && forall j :: 0 <= j < k ==> Probe(m, needsAt, lines[j]).None?)
    decreases |lines|
  {
    if lines != [] {
      var init := lines[..|lines| - 1];
      FirstMatchIsFirst(m, needsAt, init);
      assert forall k :: 0 <= k < |init| ==> init[k] == lines[k];
    }
  }

  /** Scanning one more line changes the outcome only if nothing was found yet. */
  lemma FirstMatchStep(m: string -> Option<string>, needsAt: bool, lines: seq<string>, i: nat)
    requires i < |lines|
    ensures FirstMatch(m, needsAt, lines[..i + 1])
            == (var prev := FirstMatch(m, needsAt, lines[..i]); if prev.Some? then prev else Probe(m, needsAt, lines[i]))
  {
    assert lines[..i + 1][..i] == lines[..i];
  }

  /** The value `email = match` or `phone = match` leaves: `null` without a hit, else the match array. */
  function MatchValue(hit: Option<string>): (v: Json)
    ensures hit.None? <==> v == Null
    ensures hit.Some? ==> v.Arr? && v.items == [Str(hit.value)]
  {
    if hit.Some? then Arr([Str(hit.value)]) else Null
  }

  /** The first five non-blank lines, the only ones the fallback reads. */
  function HeadLines(content: string): (r: seq<string>)
    ensures |r| <= 5
    ensures forall k :: 0 <= k < |r| ==> Trim(r[k]) != []
  {
    var lines := NonBlankLines(content);
    lines[..Min(5, |lines|)]
  }

  const DefaultName: string := "Resume"

  /**
   * The name the fallback settles on: the first line, trimmed, when it is
   * shorter than 60 characters, else "Resume". Never empty, since blank
   * lines were filtered out.
   */
  function FallbackName(lines: seq<string>): (r: string)
    requires lines == [] || Trim(lines[0]) != []
    ensures r != [] && IsTrimmed(r) && |r| < 60
  {
    if lines != [] && |Trim(lines[0])| < 60 then Trim(lines[0]) else DefaultName
  }

  /** The loop of `getFallbackJSON` over the head lines: the name, the first e-mail and the first phone. */
  method ScanHead(head: seq<string>, emailMatch: string -> Option<string>, phoneMatch: string -> Option<string>)
    returns (name: string, email: Option<string>, phone: Option<string>)
    requires head == [] || Trim(head[0]) != []
    ensures name == FallbackName(head)
    ensures email == FirstMatch(emailMatch, true, head)
    ensures phone == FirstMatch(phoneMatch, false, head)
  {
    name := DefaultName;
    email := None;
    phone := None;
    var i := 0;
    while i < |head|
      invariant 0 <= i <= |head|
      invariant name == if i == 0 then DefaultName else FallbackName(head)
      invariant email == FirstMatch(emailMatch, true, head[..i])
      invariant phone == FirstMatch(phoneMatch, false, head[..i])
    {
      FirstMatchStep(emailMatch, true, head, i);
      FirstMatchStep(phoneMatch, false, head, i);
      var line := Trim(head[i]);
      if i == 0 && |line| < 60 {
        name := line;
      }
      if email.None? {
        email := Probe(emailMatch, true, head[i]);
      }
      if phone.None? {
        phone := Probe(phoneMatch, false, head[i]);
      }
      i := i + 1;
    }
    assert head[..i] == head;
  }

  /**
   * `getFallbackJSON`: the name is the first non-blank line, trimmed, when it
   * is shorter than 60 characters, else "Resume"; e-mail and phone are the
   * match arrays of the first hits in the first five non-blank lines; the summary is the first 300 characters;
   * everything else is empty.
   */
  method FallbackJSON(content: string, emailMatch: string -> Option<string>, phoneMatch: string -> Option<string>)
    returns (r: StructuredResume)
    ensures var head := HeadLines(content);
            && r.personalInfo.name == FallbackName(head)
            && r.personalInfo.email == MatchValue(FirstMatch(emailMatch, true, head))
            && r.personalInfo.phone == MatchValue(FirstMatch(phoneMatch, false, head))
    ensures r.summary == Prefix(content, 300)
    ensures r.personalInfo.linkedin.None? && r.personalInfo.github.None? && r.personalInfo.twitter.None?
            && r.personalInfo.portfolio.None? && r.personalInfo.location.None?
    ensures r.skills == map[] && r.experience == [] && r.projects == [] && r.education == []
            && r.certifications == [] && r.languages == []
  {
    var name, email, phone := ScanHead(HeadLines(content), emailMatch, phoneMatch);
    var info := PersonalInfo(name, MatchValue(email), MatchValue(phone), None, None, None, None, None);
    r := StructuredResume(info, Prefix(content, 300), map[], [], [], [], [], []);
  }
}
