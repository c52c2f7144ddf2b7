/**
 * The client's display helpers that compute on text: initials, truncation,
 * and the checks of a chosen file's type and size.
 */
module Formatters {
  import opened Text
  import opened Wrappers

  /** A user's `fullname`; a part that is `None` is absent and defaults to `''`. */
  datatype FullName = FullName(firstname: Option<string>, lastname: Option<string>)

  function OrEmpty(v: Option<string>): string {
    if v.Some? then v.value else []
  }

  /** `s.charAt(0)`: the first character, or `''`. */
  function FirstChar(s: string): (r: string)
    ensures |r| == if s == [] then 0 else 1
    ensures s != [] ==> r == [s[0]]
  {
    if s == [] then [] else [s[0]]
  }

  /**
   * `getInitials`: 'U' without a name; otherwise the first letters of the
   * first and last names, upper-cased, an empty part giving nothing.
   */
  function GetInitials(fullname: Option<FullName>): (r: string)
    ensures fullname.None? ==> r == "U"
    ensures fullname.Some? ==>
              var f, l := OrEmpty(fullname.value.firstname), OrEmpty(fullname.value.lastname);
              && |r| == |FirstChar(f)| + |FirstChar(l)|
              && (f != [] ==> r[0] == UpperChar(f[0]))
              && (l != [] ==> r[|r| - 1] == UpperChar(l[0]))
  {
    match fullname
    case None => "U"
    case Some(n) =>
      var f, l := OrEmpty(n.firstname), OrEmpty(n.lastname);
      var s := FirstChar(f) + FirstChar(l);
      assert f != [] ==> s[0] == f[0];
      assert l != [] ==> s[|s| - 1] == l[0];
      ToUpper(s)
  }

  /** With both names given, the initials are one upper-cased letter of each. */
  lemma InitialsOfBothNames(first: string, last: string)
    requires first != [] && last != []
    ensures GetInitials(Some(FullName(Some(first), Some(last)))) == [UpperChar(first[0]), UpperChar(last[0])]
  {
  }

  /** A name object whose parts are empty gives no initials at all, not the 'U' of a missing name. */
  lemma EmptyNamesGiveNothing(first: Option<string>, last: Option<string>)
    requires OrEmpty(first) == [] && OrEmpty(last) == []
    ensures GetInitials(Some(FullName(first, last))) == []
  {
  }

  const DefaultMaxLength := 150
  const Ellipsis := "..."

  /**
   * `truncateText(text, maxLength)`: short or empty text is returned as it
   * is; longer text is cut to its first `maxLength` characters, trimmed,
   * and ended with "...". Only white space of the cut is dropped.
   */
  function TruncateText(text: string, maxLength: int): (r: string)
    ensures text == [] || |text| <= maxLength ==> r == text
    ensures text != [] && |text| > maxLength ==>
              var cut := Clamp(maxLength, |text|);
              exists i, j :: 0 <= i <= j <= cut && r == text[i..j] + Ellipsis && IsTrimmed(text[i..j])
                             && AllSpace(text[..i]) && AllSpace(text[j..cut])
  {
    if text == [] || |text| <= maxLength then text
    else
      var cut := Substring(text, 0, maxLength);
      assert cut == text[..Clamp(maxLength, |text|)];
      TrimIsPiece(cut);
      var i, j :| 0 <= i <= j <= |cut| && Trim(cut) == cut[i..j] && AllSpace(cut[..i]) && AllSpace(cut[j..]);
      assert cut[i..j] == text[i..j] && cut[..i] == text[..i] && cut[j..] == text[j..Clamp(maxLength, |text|)];
      Trim(cut) + Ellipsis
  }

  /** What `trim()` keeps is a piece of the text with only white space around it. */
  lemma TrimIsPiece(s: string)
    ensures exists i, j :: 0 <= i <= j <= |s| && Trim(s) == s[i..j] && AllSpace(s[..i]) && AllSpace(s[j..])
  {
    var i, j := TrimBounds(s);
  }

  /**
   * The contract pins the result: any trimmed piece of the cut with only
   * white space around it within the cut is what `truncateText` returns.
   */
  lemma TruncateTextIsDetermined(text: string, maxLength: int, i: nat, j: nat)
    requires text != [] && |text| > maxLength
    requires i <= j <= Clamp(maxLength, |text|)
    requires IsTrimmed(text[i..j]) && AllSpace(text[..i]) && AllSpace(text[j..Clamp(maxLength, |text|)])
    ensures TruncateText(text, maxLength) == text[i..j] + Ellipsis
  {
    var cut := text[..Clamp(maxLength, |text|)];
    assert cut[i..j] == text[i..j];
    assert cut[..i] == text[..i];
    assert cut[j..] == text[j..Clamp(maxLength, |text|)];
    TrimUnique(cut, i, j);
    assert Substring(text, 0, maxLength) == cut;
  }

  /** `truncateText(text)`: the default length of 150. */
  function TruncateDefault(text: string): (r: string)
    ensures r == TruncateText(text, DefaultMaxLength)
    ensures |text| > DefaultMaxLength ==> 3 <= |r| <= DefaultMaxLength + 3 && r[|r| - 3..] == Ellipsis
  {
    TruncateText(text, DefaultMaxLength)
  }

  /** `validateFileType`: the file's type is one of the allowed types. */
  predicate ValidateFileType(fileType: string, allowedTypes: seq<string>) {
    fileType in allowedTypes
  }

  /** `validateFileSize`: at most the limit. */
  predicate ValidateFileSize(size: int, maxSize: int) {
    size <= maxSize
  }

  /** The resume upload limits of the client. */
  const PdfType: string := "application/pdf"
  const DocxType: string := "application/vnd.openxmlformats-officedocument.wordprocessingml.document"
  const ResumeAllowedTypes: seq<string> := [PdfType, DocxType]
  const ResumeMaxSize: int := 5 * 1024 * 1024

  /** A resume file passes the client's checks exactly when it is a PDF or DOCX of at most 5 MiB. */
  lemma ResumeFileChecks(fileType: string, size: int)
    ensures ValidateFileType(fileType, ResumeAllowedTypes) && ValidateFileSize(size, ResumeMaxSize)
            <==> (fileType == PdfType || fileType == DocxType) && size <= 5242880
  {
  }
}
