/**
 * The resume document as the database schema declares it: the record shape,
 * the `type` enumeration, the entries of the analysis and optimisation
 * histories, and what the schema itself does when a record is created (the
 * `trim` setter on the title and the `required` checks).
 */
module ResumeModel {
  import opened Text
  import opened Js
  import opened Wrappers

  /** A hex SHA-256 digest. */
  type Hash = string

  /** An ObjectId: a user's or a resume's. */
  type Id = nat

  /** `type: { enum: ['text', 'file'], required: true }` */
  datatype ResumeType = TextType | FileType

  function TypeName(t: ResumeType): string {
    match t
    case TextType => "text"
    case FileType => "file"
  }

  /** The enum check: a stored `type` is exactly "text" or "file". */
  function ParseType(s: string): (r: Option<ResumeType>)
    ensures r.Some? <==> s == "text" || s == "file"
    ensures r.Some? ==> TypeName(r.value) == s
  {
    if s == "text" then Some(TextType) else if s == "file" then Some(FileType) else None
  }

  lemma ParseTypeName(t: ResumeType)
    ensures ParseType(TypeName(t)) == Some(t)
  {
  }

  /** `fileName`, `fileSize` and `mimeType`, set only on resumes made from an upload. */
  datatype FileInfo = FileInfo(fileName: string, fileSize: int, mimeType: string)

  /**
   * An `aiAnalyses` entry. The string lists hold whatever the analysis
   * produced; `createdAt` is the time of the request.
   */
  datatype AnalysisEntry = AnalysisEntry(
    jobDescription: string,
    jobDescHash: Hash,
    jobTitle: string,
    matchScore: real,
    strengths: Json,
    suggestions: Json,
    missingKeywords: Json,
    sectionsToImprove: Json,
    createdAt: int)

  /**
   * Mongoose's cast of one value to a `String` path: `null` and `undefined`
   * stay as they are, an object with a non-empty string `_id` is taken as
   * that id, other scalars become their text, and an array or any other
   * object is refused.
   */
  predicate CastsToString(v: Json) {
    match v
    case Arr(_) => false
    case Obj(fields) => "_id" in fields && fields["_id"].Str? && fields["_id"].s != []
    case _ => true
  }

  /** The cast of a `[String]` path: a value that is not an array is cast as a one-element array of it. */
  predicate CastsToStrings(v: Json) {
    if v.Arr? then forall i :: 0 <= i < |v.items| ==> CastsToString(v.items[i]) else CastsToString(v)
  }

  /** Whether the schema accepts an analysis entry: each of its four lists casts to `[String]`. */
  predicate EntryCasts(e: AnalysisEntry) {
    CastsToStrings(e.strengths) && CastsToStrings(e.suggestions)
    && CastsToStrings(e.missingKeywords) && CastsToStrings(e.sectionsToImprove)
  }

  /** A list of texts always casts; a list holding an object without an id, or a nested list, never does. */
  lemma StringListCasts(items: seq<Json>, k: nat)
    requires k < |items|
    ensures (forall i :: 0 <= i < |items| ==> items[i].Str?) ==> CastsToStrings(Arr(items))
    ensures items[k].Arr? || (items[k].Obj? && "_id" !in items[k].fields) ==> !CastsToStrings(Arr(items))
  {
  }

  /** An AI reply that suggests `[{"tip": "x"}]` gives an entry the schema refuses. */
  lemma ObjectSuggestionIsRefused(e: AnalysisEntry)
    requires e.suggestions == Arr([Obj(map["tip" := Str("x")])])
    ensures !EntryCasts(e)
  {
    assert !CastsToString(e.suggestions.items[0]);
  }

  /** An `optimizations` entry; no handler of the controller writes one. */
  datatype OptimizationEntry = OptimizationEntry(
    analysisId: Option<Id>,
    jobDescription: string,
    jobDescHash: Hash,
    jobTitle: string,
    originalContent: string,
    optimizedContent: string,
    appliedSuggestions: seq<string>,
    createdAt: int)

  datatype Resume = Resume(
    id: Id,
    user: Id,
    title: string,
    content: string,
    contentHash: Hash,
    kind: ResumeType,
    file: Option<FileInfo>,
    aiAnalyses: seq<AnalysisEntry>,
    optimizations: seq<OptimizationEntry>)

  /**
   * The `required` checks plus the `trim` setter, as a create runs them: the
   * title is stored trimmed and must not be empty after trimming, the
   * content must not be empty. Array paths start empty.
   */
  function NewResume(id: Id, user: Id, title: string, content: string, contentHash: Hash,
                     kind: ResumeType, file: Option<FileInfo>): (r: Option<Resume>)
    ensures r.Some? <==> Trim(title) != [] && content != []
    ensures r.Some? ==> && r.value.id == id && r.value.user == user
                        && r.value.title == Trim(title) && IsTrimmed(r.value.title)
                        && r.value.content == content && r.value.contentHash == contentHash
                        && r.value.kind == kind && r.value.file == file
                        && r.value.aiAnalyses == [] && r.value.optimizations == []
  {
    var t := Trim(title);
    if t == [] || content == [] then None
    else Some(Resume(id, user, t, content, contentHash, kind, file, [], []))
  }
}
