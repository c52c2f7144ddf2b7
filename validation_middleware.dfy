/**
 * The request-body rules the API applies before its handlers run. Each
 * field is `None` when the body lacks it; a missing field reads as the
 * empty string. `trim()` is both a check step and a sanitiser: the handler
 * receives the trimmed value.
 */
module ValidationMiddleware {
  import opened Text
  import opened Wrappers
  import ResumeModel

  /** A field's value as the rules see it: a missing field is `''`. */
  function Given(v: Option<string>): string {
    if v.Some? then v.value else []
  }

  /** A presentation selector, U+FE0E or U+FE0F, which `isLength` does not count. */
  predicate IsSelector(c: char) {
    c == '\U{FE0E}' || c == '\U{FE0F}'
  }

  predicate NoSelector(s: string) {
    forall i :: 0 <= i < |s| ==> !IsSelector(s[i])
  }

  /**
   * The length `isLength` measures: the code points of the text, less the
   * presentation selectors among them.
   */
  function IsLengthCount(s: string): (n: nat)
    ensures n <= |s|
    ensures n == |s| <==> NoSelector(s)
  {
    if s == [] then 0
    else
      var n := (if IsSelector(s[0]) then 0 else 1) + IsLengthCount(s[1..]);
      assert NoSelector(s) <==> !IsSelector(s[0]) && NoSelector(s[1..]) by {
        assert forall i :: 0 < i < |s| ==> s[i] == s[1..][i - 1];
      }
      n
  }

  /** The count of a joined text is the sum of the counts. */
  lemma {:induction false} IsLengthCountConcat(a: string, b: string)
    ensures IsLengthCount(a + b) == IsLengthCount(a) + IsLengthCount(b)
    decreases |a|
  {
    if a == [] {
      assert a + b == b;
    } else {
      assert (a + b)[0] == a[0] && (a + b)[1..] == a[1..] + b;
      IsLengthCountConcat(a[1..], b);
    }
  }

  /** A selector after selector-free text that starts visibly adds nothing to the count, and nothing to trim. */
  lemma SelectorAfterText(t: string)
    requires t != [] && !IsSpace(t[0]) && NoSelector(t)
    ensures IsLengthCount(t + ['\U{FE0F}']) == |t|
    ensures Trim(t + ['\U{FE0F}']) == t + ['\U{FE0F}']
  {
    var sel := ['\U{FE0F}'];
    assert IsLengthCount(sel) == 0 by {
      assert sel[1..] == [];
    }
    IsLengthCountConcat(t, sel);
    var s := t + sel;
    assert s[0] == t[0] && s[|s| - 1] == '\U{FE0F}';
    TrimOfTrimmed(s);
  }

  /** Nine letters and a presentation selector are nine characters to `isLength`. */
  lemma SelectorIsNotCounted()
    ensures IsLengthCount("abcdefghi\U{FE0F}") == 9
    ensures !TrimmedLengthIn(Some("abcdefghi\U{FE0F}"), 10, 10000)
  {
    var letters := "abcdefghi";
    assert NoSelector(letters);
    SelectorAfterText(letters);
    assert letters + ['\U{FE0F}'] == "abcdefghi\U{FE0F}";
  }

  /** `isLength({ min, max })` */
  predicate LengthIn(s: string, min: nat, max: nat) {
    min <= IsLengthCount(s) <= max
  }

  /** `trim().isLength({ min, max })` */
  predicate TrimmedLengthIn(v: Option<string>, min: nat, max: nat) {
    LengthIn(Trim(Given(v)), min, max)
  }

  /** `optional().trim().isLength({ min, max })`: a missing field passes. */
  predicate OptionalTrimmedLengthIn(v: Option<string>, min: nat, max: nat) {
    v.None? || TrimmedLengthIn(v, min, max)
  }

  /** What the `trim()` sanitiser leaves in the body. */
  function Sanitize(v: Option<string>): (r: Option<string>)
    ensures r.None? <==> v.None?
    ensures r.Some? ==> r.value == Trim(v.value)
  {
    if v.Some? then Some(Trim(v.value)) else None
  }

  lemma SanitizeIdempotent(v: Option<string>)
    ensures Sanitize(Sanitize(v)) == Sanitize(v)
  {
    if v.Some? {
      TrimIdempotent(v.value);
    }
  }

  datatype RegistrationBody = RegistrationBody(
    firstname: Option<string>, lastname: Option<string>, email: Option<string>, password: Option<string>)

  /**
   * `validateUserRegistration`: names of 2 to 30 characters once trimmed,
   * an email the email check accepts, a password of 8 to 50 characters (not
   * trimmed).
   */
  predicate RegistrationValid(b: RegistrationBody, isEmail: string -> bool) {
    && TrimmedLengthIn(b.firstname, 2, 30)
    && TrimmedLengthIn(b.lastname, 2, 30)
    && isEmail(Given(b.email))
    && LengthIn(Given(b.password), 8, 50)
  }

  datatype LoginBody = LoginBody(email: Option<string>, password: Option<string>)

  /** `validateUserLogin`: an email the email check accepts and a non-empty password. */
  predicate LoginValid(b: LoginBody, isEmail: string -> bool) {
    isEmail(Given(b.email)) && Given(b.password) != []
  }

  const JobStatuses: seq<string> := ["saved", "applied", "interviewing", "offer", "rejected"]

  datatype JobBody = JobBody(
    title: Option<string>, company: Option<string>, link: Option<string>,
    description: Option<string>, location: Option<string>, status: Option<string>)

  /** `validateJob`: every field optional; a given field must meet its rule. */
  predicate JobValid(b: JobBody, isUrl: string -> bool) {
    && OptionalTrimmedLengthIn(b.title, 2, 100)
    && OptionalTrimmedLengthIn(b.company, 2, 100)
    && (b.link.None? || isUrl(b.link.value))
    && OptionalTrimmedLengthIn(b.description, 10, 5000)
    && OptionalTrimmedLengthIn(b.location, 0, 100)
    && (b.status.None? || b.status.value in JobStatuses)
  }

  datatype ResumeTextBody = ResumeTextBody(title: Option<string>, content: Option<string>)

  /** `validateResumeText`: a title of 2 to 100 and content of 10 to 10000 characters, once trimmed. */
  predicate ResumeTextValid(b: ResumeTextBody) {
    TrimmedLengthIn(b.title, 2, 100) && TrimmedLengthIn(b.content, 10, 10000)
  }

  /** `validateResumeFile`: the title only. */
  predicate ResumeFileValid(title: Option<string>) {
    TrimmedLengthIn(title, 2, 100)
  }

  /** `validateResumeAnalysis`: a job description of 10 to 5000 characters once trimmed. */
  predicate AnalysisValid(jobDescription: Option<string>) {
    TrimmedLengthIn(jobDescription, 10, 5000)
  }

  predicate IsHexDigit(c: char) {
    '0' <= c <= '9' || 'a' <= c <= 'f' || 'A' <= c <= 'F'
  }

  /** One or more hexadecimal digits. */
  predicate HexDigits(s: string) {
    s != [] && forall k :: 0 <= k < |s| ==> IsHexDigit(s[k])
  }

  /** `isHexadecimal`: hexadecimal digits, optionally after `0x` or `0h` in either case. */
  predicate IsHexadecimal(s: string) {
    || HexDigits(s)
    || (|s| > 2 && s[0] == '0' && s[1] in "xXhH" && HexDigits(s[2..]))
  }

  /** `isMongoId`: hexadecimal in that sense, and twenty-four characters long, prefix included. */
  predicate IsMongoId(s: string) {
    IsHexadecimal(s) && |s| == 24
  }

  /** Twenty-four hexadecimal digits pass, and so do twenty-two behind a `0x` or `0h` prefix. */
  lemma MongoIdForms(digits: string, p: char)
    requires HexDigits(digits) && p in "xXhH"
    ensures |digits| == 24 ==> IsMongoId(digits)
    ensures |digits| == 22 ==> IsMongoId(['0', p] + digits)
    ensures |digits| != 22 ==> !IsMongoId(['0', p] + digits)
  {
    assert (['0', p] + digits)[2..] == digits;
    assert !IsHexDigit(p);
  }

  datatype NoteBody = NoteBody(jobId: Option<string>, title: Option<string>, content: Option<string>)

  /** `validateNote`: a job id, a title of 2 to 100 and content of 1 to 5000 characters, once trimmed. */
  predicate NoteValid(b: NoteBody) {
    IsMongoId(Given(b.jobId)) && TrimmedLengthIn(b.title, 2, 100) && TrimmedLengthIn(b.content, 1, 5000)
  }

  /** `validateNoteUpdate`: both fields optional. */
  predicate NoteUpdateValid(title: Option<string>, content: Option<string>) {
    OptionalTrimmedLengthIn(title, 2, 100) && OptionalTrimmedLengthIn(content, 1, 5000)
  }

  /** `isBoolean`, on the value as text. */
  predicate UserStatusValid(isActive: Option<string>) {
    Given(isActive) in ["true", "false", "1", "0"]
  }

  // ----- what the rules guarantee -----

  /** An empty job body is accepted: every job field is optional. */
  lemma EmptyJobAccepted(isUrl: string -> bool)
    ensures JobValid(JobBody(None, None, None, None, None, None), isUrl)
  {
  }

  /** Alone in a body, a status is accepted exactly when it is one of the five job states. */
  lemma JobStatusAccepted(status: string, isUrl: string -> bool)
    ensures JobValid(JobBody(None, None, None, None, None, Some(status)), isUrl)
            <==> status == "saved" || status == "applied" || status == "interviewing"
                 || status == "offer" || status == "rejected"
  {
  }

  /** A note must have content, while an empty note update is accepted. */
  lemma NoteContentRequiredOnCreateOnly(jobId: Option<string>, title: Option<string>)
    ensures !NoteValid(NoteBody(jobId, title, None))
    ensures NoteUpdateValid(None, None)
  {
  }

  /**
   * A text resume body the rules accept, once sanitised, always passes the
   * schema's `required` checks, and the title is stored as the handler
   * received it.
   */
  lemma AcceptedTextResumeIsStored(b: ResumeTextBody, id: ResumeModel.Id, user: ResumeModel.Id, h: ResumeModel.Hash)
    requires ResumeTextValid(b)
    ensures var title, content := Given(Sanitize(b.title)), Given(Sanitize(b.content));
            var r := ResumeModel.NewResume(id, user, title, content, h, ResumeModel.TextType, None);
            r.Some? && r.value.title == title && r.value.content == content
  {
    var title := Given(Sanitize(b.title));
    TrimIdempotent(Given(b.title));
    assert Trim(title) == title;
  }

  /** White space around the fields does not change whether a text resume body is accepted. */
  lemma ResumeTextIgnoresPadding(ws: string, title: string, content: string, ws': string)
    requires AllSpace(ws) && AllSpace(ws')
    ensures ResumeTextValid(ResumeTextBody(Some(ws + title + ws'), Some(ws + content + ws')))
            == ResumeTextValid(ResumeTextBody(Some(title), Some(content)))
  {
    TrimOfPadded(ws, title, ws');
    TrimOfPadded(ws, content, ws');
  }
}
