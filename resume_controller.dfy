/**
 * The resume controller: content-hash deduplication when a resume is created
 * from text or from an uploaded file, owner-scoped lookup, update and delete,
 * and the per-resume cache of AI analyses keyed by the hash of the job
 * description. The database collection is the sequence `resumes` of a
 * `ResumeStore`, in insertion order; SHA-256 is a function the store is
 * given; the AI reply is an argument of the analysis handler.
 */
module ResumeController {
  import opened Text
  import opened Js
  import opened Seqs
  import opened Wrappers
  import opened ResumeModel
  import AiService
  import FileParser
  import ValidationMiddleware

  /** `trim().toLowerCase()`, the normal form both hashes are taken of. */
  function Normalize(s: string): (r: string)
    ensures |r| <= |s| && IsTrimmed(r)
  {
    ToLowerTrimmed(Trim(s));
    ToLower(Trim(s))
  }

  /** `generateContentHash` */
  function ContentHash(sha256: string -> Hash, content: string): Hash {
    sha256(Normalize(content))
  }

  lemma ToLowerIdempotent(s: string)
    ensures ToLower(ToLower(s)) == ToLower(s)
  {
  }

  /** The normal form is a fixed point of normalising. */
  lemma NormalizeIdempotent(s: string)
    ensures Normalize(Normalize(s)) == Normalize(s)
  {
    TrimToLower(Trim(s));
    TrimIdempotent(s);
    ToLowerIdempotent(Trim(s));
  }

  /**
   * Contents that differ only in surrounding white space or in the case of
   * their letters get the same hash, whatever the digest function.
   */
  lemma SameHashUpToPaddingAndCase(sha256: string -> Hash, ws: string, s: string, ws': string)
    requires AllSpace(ws) && AllSpace(ws')
    ensures ContentHash(sha256, ws + s + ws') == ContentHash(sha256, s)
    ensures ContentHash(sha256, ToLower(s)) == ContentHash(sha256, s)
  {
    TrimOfPadded(ws, s, ws');
    TrimToLower(s);
    ToLowerIdempotent(Trim(s));
  }

  // ----- the collection -----

  predicate Owns(r: Resume, id: Id, user: Id) {
    r.id == id && r.user == user
  }

  /** `findOne({ _id: id, user })`: the position of the match, or -1. */
  function FindOwned(rs: seq<Resume>, id: Id, user: Id): (k: int)
    ensures -1 <= k < |rs|
    ensures k >= 0 ==> Owns(rs[k], id, user)
    ensures k < 0 <==> forall j :: 0 <= j < |rs| ==> !Owns(rs[j], id, user)
    decreases |rs|
  {
    if rs == [] then -1
    else if Owns(rs[0], id, user) then 0
    else
      var k := FindOwned(rs[1..], id, user);
      if k < 0 then -1 else k + 1
  }

  predicate SameContent(r: Resume, user: Id, h: Hash) {
    r.user == user && r.contentHash == h
  }

  /** `findOne({ user, contentHash })`, in insertion order: the first match, or -1. */
  function FindDuplicate(rs: seq<Resume>, user: Id, h: Hash): (k: int)
    ensures -1 <= k < |rs|
    ensures k >= 0 ==> SameContent(rs[k], user, h) && forall j :: 0 <= j < k ==> !SameContent(rs[j], user, h)
    ensures k < 0 <==> forall j :: 0 <= j < |rs| ==> !SameContent(rs[j], user, h)
    decreases |rs|
  {
    if rs == [] then -1
    else if SameContent(rs[0], user, h) then 0
    else
      var k := FindDuplicate(rs[1..], user, h);
      assert k >= 0 ==> forall j :: 1 <= j <= k ==> rs[j] == rs[1..][j - 1];
      if k < 0 then -1 else k + 1
  }

  /** After a record with no earlier duplicate is appended, the duplicate lookup finds that record. */
  lemma FindDuplicateAppended(rs: seq<Resume>, r: Resume)
    requires FindDuplicate(rs, r.user, r.contentHash) < 0
    ensures FindDuplicate(rs + [r], r.user, r.contentHash) == |rs|
  {
    var k := FindDuplicate(rs + [r], r.user, r.contentHash);
    assert forall j :: 0 <= j < |rs| ==> (rs + [r])[j] == rs[j];
    assert (rs + [r])[|rs|] == r;
  }

  // ----- the analysis cache -----

  /** The most analyses a resume keeps. */
  const MaxAnalyses: nat := 10

  const DefaultJobTitle: string := "Job Analysis"

  /** No two entries share a job-description hash. */
  predicate DistinctHashes(entries: seq<AnalysisEntry>) {
    forall i, j :: 0 <= i < j < |entries| ==> entries[i].jobDescHash != entries[j].jobDescHash
  }

  /** `resume.aiAnalyses?.find(a => a.jobDescHash === h)` */
  function FindAnalysis(entries: seq<AnalysisEntry>, h: Hash): (r: Option<AnalysisEntry>)
    ensures r.Some? ==> r.value in entries && r.value.jobDescHash == h
    ensures r.None? ==> forall j :: 0 <= j < |entries| ==> entries[j].jobDescHash != h
    decreases |entries|
  {
    if entries == [] then None
    else if entries[0].jobDescHash == h then Some(entries[0])
    else FindAnalysis(entries[1..], h)
  }

  /** The lookup misses only when no entry has the hash, and a hit is the first entry with it. */
  lemma {:induction false} FindAnalysisIsFirst(entries: seq<AnalysisEntry>, h: Hash)
    ensures var r := FindAnalysis(entries, h);
            && (r.None? <==> forall j :: 0 <= j < |entries| ==> entries[j].jobDescHash != h)
            && (r.Some? ==> exists k :: 0 <= k < |entries| && entries[k] == r.value && r.value.jobDescHash == h
                                        && forall j :: 0 <= j < k ==> entries[j].jobDescHash != h)
    decreases |entries|
  {
    if entries != [] && entries[0].jobDescHash != h {
      var tail := entries[1..];
      FindAnalysisIsFirst(tail, h);
      assert forall j :: 1 <= j < |entries| ==> entries[j] == tail[j - 1];
      if FindAnalysis(tail, h).Some? {
        var k :| 0 <= k < |tail| && tail[k] == FindAnalysis(tail, h).value
                 && forall j :: 0 <= j < k ==> tail[j].jobDescHash != h;
        assert entries[k + 1] == tail[k];
      }
    }
  }

  /** With distinct hashes, the cache hit is the one entry that has the hash. */
  lemma FindAnalysisUnique(entries: seq<AnalysisEntry>, h: Hash, k: nat)
    requires DistinctHashes(entries) && k < |entries| && entries[k].jobDescHash == h
    ensures FindAnalysis(entries, h) == Some(entries[k])
  {
    FindAnalysisIsFirst(entries, h);
  }

  /** `unshift(newAnalysis)`, then `slice(0, 10)` when more than ten entries result. */
  function Retain(entries: seq<AnalysisEntry>, e: AnalysisEntry): (r: seq<AnalysisEntry>)
    ensures 0 < |r| <= MaxAnalyses
    ensures r[0] == e
    ensures r[1..] == entries[..Min(|entries|, MaxAnalyses - 1)]
  {
    var u := [e] + entries;
    var r := if |u| > MaxAnalyses then u[..MaxAnalyses] else u;
    assert r[1..] == entries[..Min(|entries|, MaxAnalyses - 1)];
    r
  }

  /** A new entry whose hash the history lacks keeps the hashes distinct. */
  lemma RetainDistinct(entries: seq<AnalysisEntry>, e: AnalysisEntry)
    requires DistinctHashes(entries)
    requires forall j :: 0 <= j < |entries| ==> entries[j].jobDescHash != e.jobDescHash
    ensures DistinctHashes(Retain(entries, e))
  {
    var r := Retain(entries, e);
    assert forall j :: 1 <= j < |r| ==> r[j] == entries[j - 1];
  }

  /**
   * A miss on a full history drops the oldest entry: afterwards none of the
   * kept entries has its hash, so asking again for that job description
   * misses as well.
   */
  lemma RetainDropsOldest(entries: seq<AnalysisEntry>, e: AnalysisEntry)
    requires DistinctHashes(entries) && |entries| >= MaxAnalyses
    requires forall j :: 0 <= j < |entries| ==> entries[j].jobDescHash != e.jobDescHash
    ensures FindAnalysis(Retain(entries, e), entries[MaxAnalyses - 1].jobDescHash).None?
  {
    var r := Retain(entries, e);
    assert forall j :: 1 <= j < |r| ==> r[j] == entries[j - 1];
    FindAnalysisIsFirst(r, entries[MaxAnalyses - 1].jobDescHash);
  }

  /** `req.body.jobTitle || "Job Analysis"`: `None` is a missing title. */
  function JobTitleOr(jobTitle: Option<string>): (r: string)
    ensures r == DefaultJobTitle <==> jobTitle.None? || jobTitle.value == [] || jobTitle.value == DefaultJobTitle
    ensures r != [] && (jobTitle.Some? && jobTitle.value != [] ==> r == jobTitle.value)
  {
    if jobTitle.Some? && jobTitle.value != [] then jobTitle.value else DefaultJobTitle
  }

  /**
   * The entry the analysis handler stores: the first 500 characters of the
   * job description, its hash, the title or "Job Analysis", the score
   * (`|| 0` changes no number the model holds), the suggestions and the
   * missing keywords; `strengths` and `sectionsToImprove` are not copied, so
   * they start empty.
   */
  function NewEntry(jobDescription: string, h: Hash, jobTitle: Option<string>, a: AiService.Analysis, now: int)
    : (e: AnalysisEntry)
    ensures |e.jobDescription| == Min(|jobDescription|, 500) && e.jobDescription == jobDescription[..|e.jobDescription|]
    ensures |jobDescription| <= 500 ==> e.jobDescription == jobDescription
    ensures e.jobDescHash == h && e.jobTitle == JobTitleOr(jobTitle) && e.createdAt == now
    ensures e.matchScore == a.matchScore
    ensures Truthy(a.suggestions) ==> e.suggestions == a.suggestions
    ensures Truthy(a.missingKeywords) ==> e.missingKeywords == a.missingKeywords
    ensures e.strengths == Arr([]) && e.sectionsToImprove == Arr([])
  {
    AnalysisEntry(
      Prefix(jobDescription, 500), h, JobTitleOr(jobTitle), Or(Num(a.matchScore), Num(0.0)).x,
      Arr([]), Or(a.suggestions, Arr([])), Or(a.missingKeywords, Arr([])), Arr([]), now)
  }

  /** Every analysis result carries non-empty suggestions, so the stored entry keeps them as they were. */
  lemma NewEntryKeepsSuggestions(jobDescription: string, h: Hash, jobTitle: Option<string>,
                                 c: AiService.Completion, parse: string -> Option<Json>, now: int)
    ensures var a := AiService.AnalyzeResumeForJob(c, parse);
            var e := NewEntry(jobDescription, h, jobTitle, a, now);
            e.suggestions == a.suggestions && e.missingKeywords == a.missingKeywords
  {
    var a := AiService.AnalyzeResumeForJob(c, parse);
    assert Truthy(a.suggestions) by {
      assert !Nullish(a.suggestions);
    }
  }

  // ----- well-formed records -----

  /**
   * What every stored resume satisfies: its title is trimmed, and its
   * analysis history is at most ten entries long with distinct
   * job-description hashes. The `type` and the file fields agree.
   */
  predicate WellFormed(r: Resume) {
    && r.title != [] && r.content != []
    && IsTrimmed(r.title)
    && |r.aiAnalyses| <= MaxAnalyses
    && DistinctHashes(r.aiAnalyses)
    && (r.kind == FileType <==> r.file.Some?)
  }

  /** The stored hash is that of the stored content. */
  predicate HashCurrent(sha256: string -> Hash, r: Resume) {
    r.contentHash == ContentHash(sha256, r.content)
  }

  predicate HashesCurrent(sha256: string -> Hash, rs: seq<Resume>) {
    forall k :: 0 <= k < |rs| ==> HashCurrent(sha256, rs[k])
  }

  /**
   * Every record is well formed and ids grow along the collection (each new
   * record gets the next id and goes at the end), all of them below the next
   * id to hand out.
   */
  predicate ValidStore(rs: seq<Resume>, nextId: Id)
    decreases |rs|
  {
    rs == [] ||
      var n := |rs| - 1;
      rs[n].id < nextId && WellFormed(rs[n]) && ValidStore(rs[..n], rs[n].id)
  }

  lemma {:induction false} ValidAt(rs: seq<Resume>, nextId: Id, k: nat)
    requires ValidStore(rs, nextId) && k < |rs|
    ensures rs[k].id < nextId && WellFormed(rs[k])
    decreases |rs|
  {
    var n := |rs| - 1;
    if k < n {
      ValidAt(rs[..n], rs[n].id, k);
    }
  }

  /** No two records share an id. */
  lemma {:induction false} ValidApart(rs: seq<Resume>, nextId: Id, i: nat, j: nat)
    requires ValidStore(rs, nextId) && i < j < |rs|
    ensures rs[i].id < rs[j].id
    decreases |rs|
  {
    var n := |rs| - 1;
    if j < n {
      ValidApart(rs[..n], rs[n].id, i, j);
    } else {
      ValidAt(rs[..n], rs[n].id, i);
    }
  }

  lemma ValidWeaken(rs: seq<Resume>, nextId: Id, bound: Id)
    requires ValidStore(rs, nextId) && nextId <= bound
    ensures ValidStore(rs, bound)
  {
  }

  /** `findOneAndUpdate` with the new title (through the `trim` setter), content and hash; no validators run. */
  function Revise(sha256: string -> Hash, r: Resume, title: string, content: string): (r': Resume)
    ensures WellFormed(r) && Trim(title) != [] && content != [] ==> WellFormed(r')
    ensures r'.title == Trim(title) && r'.content == content && r'.contentHash == ContentHash(sha256, content)
    ensures r'.id == r.id && r'.user == r.user && r'.kind == r.kind && r'.file == r.file
    ensures r'.aiAnalyses == r.aiAnalyses && r'.optimizations == r.optimizations
  {
    r.(title := Trim(title), content := content, contentHash := ContentHash(sha256, content))
  }

  /**
   * The `(user, contentHash)` index is not unique: updating one resume to the
   * content of another of the same owner leaves two records that the
   * duplicate check cannot tell apart.
   */
  lemma ReviseCanDuplicate(sha256: string -> Hash, a: Resume, b: Resume, title: string)
    requires HashCurrent(sha256, b) && a.user == b.user
    ensures var a' := Revise(sha256, a, title, b.content);
            a'.id == a.id && SameContent(a', b.user, b.contentHash)
  {
  }

  /** Replacing one record by a well-formed one with the same id keeps the store valid. */
  lemma {:induction false} ReplaceKeepsValid(rs: seq<Resume>, nextId: Id, k: nat, r: Resume)
    requires ValidStore(rs, nextId) && k < |rs|
    requires r.id == rs[k].id && WellFormed(r)
    ensures ValidStore(rs[k := r], nextId)
    decreases |rs|
  {
    var n := |rs| - 1;
    var rs' := rs[k := r];
    if k < n {
      ReplaceKeepsValid(rs[..n], rs[n].id, k, r);
      assert rs'[..n] == rs[..n][k := r];
    } else {
      assert rs'[..n] == rs[..n];
    }
  }

  /** Removing one record keeps the store valid. */
  lemma {:induction false} RemoveKeepsValid(rs: seq<Resume>, nextId: Id, k: nat)
    requires ValidStore(rs, nextId) && k < |rs|
    ensures ValidStore(rs[..k] + rs[k + 1..], nextId)
    decreases |rs|
  {
    var n := |rs| - 1;
    var init := rs[..n];
    var rest := rs[..k] + rs[k + 1..];
    assert rs[n].id < nextId && WellFormed(rs[n]) && ValidStore(init, rs[n].id);
    if k == n {
      assert rest == init;
      ValidWeaken(init, rs[n].id, nextId);
    } else {
      RemoveKeepsValid(init, rs[n].id, k);
      var shorter := init[..k] + init[k + 1..];
      assert rest == shorter + [rs[n]];
      assert rest[..|rest| - 1] == shorter;
      assert ValidStore(rest[..|rest| - 1], rest[|rest| - 1].id);
    }
  }

  /** Removing the record at `k` keeps every record with another id. */
  lemma RemoveKeepsOthers(rs: seq<Resume>, k: nat)
    requires k < |rs|
    ensures forall r :: r in rs && r.id != rs[k].id ==> r in rs[..k] + rs[k + 1..]
  {
    var rest := rs[..k] + rs[k + 1..];
    forall r | r in rs && r.id != rs[k].id
      ensures r in rest
    {
      var j :| 0 <= j < |rs| && rs[j] == r;
      if j < k {
        assert rest[j] == r;
      } else {
        assert rest[j - 1] == r;
      }
    }
  }

  /** In a valid store, removing the record at `k` leaves none with its id. */
  lemma RemoveDropsId(rs: seq<Resume>, nextId: Id, k: nat)
    requires ValidStore(rs, nextId) && k < |rs|
    ensures forall r :: r in rs[..k] + rs[k + 1..] ==> r in rs && r.id != rs[k].id
  {
    var rest := rs[..k] + rs[k + 1..];
    forall j | 0 <= j < |rest|
      ensures rest[j] in rs && rest[j].id != rs[k].id
    {
      if j < k {
        assert rest[j] == rs[j];
        ValidApart(rs, nextId, j, k);
      } else {
        assert rest[j] == rs[j + 1];
        ValidApart(rs, nextId, k, j + 1);
      }
    }
  }

  /** Appending a well-formed record with the next id keeps the store valid. */
  lemma AppendKeepsValid(rs: seq<Resume>, nextId: Id, r: Resume)
    requires ValidStore(rs, nextId)
    requires r.id == nextId && WellFormed(r)
    ensures ValidStore(rs + [r], nextId + 1)
  {
    assert (rs + [r])[..|rs|] == rs;
  }

  lemma ReplaceKeepsHashes(sha256: string -> Hash, rs: seq<Resume>, k: nat, r: Resume)
    requires HashesCurrent(sha256, rs) && k < |rs| && HashCurrent(sha256, r)
    ensures HashesCurrent(sha256, rs[k := r])
  {
  }

  lemma RemoveKeepsHashes(sha256: string -> Hash, rs: seq<Resume>, k: nat)
    requires HashesCurrent(sha256, rs) && k < |rs|
    ensures HashesCurrent(sha256, rs[..k] + rs[k + 1..])
  {
    var rest := rs[..k] + rs[k + 1..];
    assert forall j :: 0 <= j < |rest| ==> rest[j] == if j < k then rs[j] else rs[j + 1];
  }

  lemma AppendKeepsHashes(sha256: string -> Hash, rs: seq<Resume>, r: Resume)
    requires HashesCurrent(sha256, rs) && HashCurrent(sha256, r)
    ensures HashesCurrent(sha256, rs + [r])
  {
  }

  // ----- the handlers -----

  /** What the create handlers answer, without the HTTP envelope. */
  datatype CreateOutcome =
    | Created(resume: Resume)      // 201
    | Duplicate(existing: Resume)  // 200 with `isDuplicate: true`
    | NoFile                       // 400 "No file uploaded"
    | Unsupported                  // 400 "Only PDF and DOCX files allowed"
    | Unreadable                   // 400 "Could not extract text from file"
    | Failed                       // 500: the database rejected the record
    | Invalid                      // 400 "Validation failed": the route's validator chain refused the body

  /** What the analysis handler answers. */
  datatype AnalyzeOutcome =
    | NotFound                       // 404
    | Cached(analysis: AnalysisEntry)   // `fromCache: true`
    | Analyzed(analysis: AnalysisEntry) // `fromCache: false`
    | Rejected                       // 400 "Validation failed"
    | SaveFailed                     // 500: the schema refused the new entry, nothing was saved

  const PdfType: string := "application/pdf"
  const DocxType: string := "application/vnd.openxmlformats-officedocument.wordprocessingml.document"

  /**
   * An upload as the handler sees it: its name, size and mimetype, whether a
   * buffer or a temporary file could be read, and what the PDF or DOCX
   * library read out of it (`None` when the library threw).
   */
  datatype Upload = Upload(originalName: string, size: int, mimeType: string, readable: bool, libraryText: Option<string>)

  /**
   * The text the upload handler hashes and stores, or the reason it stops:
   * an unreadable buffer is checked before the mimetype.
   */
  function UploadText(f: Upload): (r: UploadResult)
    ensures r.Text? ==> (f.mimeType == PdfType || f.mimeType == DocxType) && f.readable
                        && Some(r.text) == FileParser.ExtractText(f.libraryText)
    ensures r == Refused(Unsupported) <==> f.readable && f.mimeType != PdfType && f.mimeType != DocxType
    ensures r.Refused? ==> r.outcome == Unsupported || r.outcome == Unreadable
  {
    if !f.readable then Refused(Unreadable)
    else if f.mimeType == PdfType || f.mimeType == DocxType then
      match FileParser.ExtractText(f.libraryText)
      case None => Refused(Unreadable)
      case Some(t) => Text(t)
    else Refused(Unsupported)
  }

  datatype UploadResult = Text(text: string) | Refused(outcome: CreateOutcome)

  class ResumeStore {
    /** `crypto.createHash('sha256')…digest('hex')`, as a function of the hashed text. */
    const sha256: string -> Hash
    /** The resume collection, in insertion order. */
    var resumes: seq<Resume>
    /** The id the next created resume receives. */
    var nextId: Id
    /** How many times the AI analyzer has been called. */
    ghost var aiCalls: nat

    predicate Valid()
      reads this
    {
      ValidStore(resumes, nextId) && HashesCurrent(sha256, resumes)
    }

    constructor (sha256: string -> Hash)
      ensures Valid() && this.sha256 == sha256
      ensures resumes == [] && nextId == 0 && aiCalls == 0
    {
      this.sha256 := sha256;
      resumes := [];
      nextId := 0;
      aiCalls := 0;
    }

    /** `getResume`: a resume is found only by its owner. */
    function GetResume(id: Id, user: Id): (r: Option<Resume>)
      reads this
      ensures r.Some? ==> r.value in resumes && Owns(r.value, id, user)
      ensures r.None? <==> forall j :: 0 <= j < |resumes| ==> !Owns(resumes[j], id, user)
    {
      var k := FindOwned(resumes, id, user);
      if k < 0 then None else Some(resumes[k])
    }

    /**
     * The part both create handlers share: an earlier resume of the owner
     * with the same hash is returned as it is; otherwise a new record is
     * added, if the schema accepts it.
     */
    method Store(user: Id, title: string, content: string, kind: ResumeType, file: Option<FileInfo>)
      returns (out: CreateOutcome)
      requires Valid() && (kind == FileType <==> file.Some?)
      modifies this
      ensures Valid() && aiCalls == old(aiCalls)
      ensures var h := ContentHash(sha256, content);
              var k := FindDuplicate(old(resumes), user, h);
              if k >= 0 then
                out == Duplicate(old(resumes)[k]) && resumes == old(resumes) && nextId == old(nextId)
              else match NewResume(old(nextId), user, title, content, h, kind, file)
                case None => out == Failed && resumes == old(resumes) && nextId == old(nextId)
                case Some(r) => && out == Created(r) && resumes == old(resumes) + [r] && nextId == old(nextId) + 1
                                && FindDuplicate(resumes, user, h) == |old(resumes)|
    {
      var h := ContentHash(sha256, content);
      var k := FindDuplicate(resumes, user, h);
      if k >= 0 {
        out := Duplicate(resumes[k]);
        return;
      }
      var made := NewResume(nextId, user, title, content, h, kind, file);
      if made.None? {
        out := Failed;
        return;
      }
      var r := made.value;
      AppendKeepsValid(resumes, nextId, r);
      AppendKeepsHashes(sha256, resumes, r);
      FindDuplicateAppended(resumes, r);
      resumes := resumes + [r];
      nextId := nextId + 1;
      out := Created(r);
    }

    /**
     * `createResumeFromText` behind `validateResumeText`: a body the chain
     * refuses changes nothing; otherwise the trimmed title and content are
     * deduplicated by the hash of the normalised content, and new records have
     * type 'text'.
     */
    method CreateFromText(user: Id, title: string, content: string) returns (out: CreateOutcome)
      requires Valid()
      modifies this
      ensures Valid() && aiCalls == old(aiCalls)
      ensures !ValidationMiddleware.ResumeTextValid(ValidationMiddleware.ResumeTextBody(Some(title), Some(content))) ==>
                out == Invalid && resumes == old(resumes) && nextId == old(nextId)
      ensures ValidationMiddleware.ResumeTextValid(ValidationMiddleware.ResumeTextBody(Some(title), Some(content))) ==>
                var h := ContentHash(sha256, Trim(content));
                var k := FindDuplicate(old(resumes), user, h);
                if k >= 0 then
                  out == Duplicate(old(resumes)[k]) && resumes == old(resumes) && nextId == old(nextId)
                else match NewResume(old(nextId), user, Trim(title), Trim(content), h, TextType, None)
                  case None => out == Failed && resumes == old(resumes) && nextId == old(nextId)
                  case Some(r) => out == Created(r) && resumes == old(resumes) + [r] && nextId == old(nextId) + 1
    {
      if !ValidationMiddleware.ResumeTextValid(ValidationMiddleware.ResumeTextBody(Some(title), Some(content))) {
        return Invalid;
      }
      out := Store(user, Trim(title), Trim(content), TextType, None);
    }

    /**
     * `createResumeFromFile` behind `validateResumeFile`: a refused title, a
     * missing file, an unreadable buffer, a mimetype other than PDF or DOCX and
     * an extraction failure change nothing, in that order; otherwise the
     * extracted text is deduplicated like text content and a new record has
     * the trimmed title, type 'file' and the file's details.
     */
    method CreateFromFile(user: Id, title: string, upload: Option<Upload>) returns (out: CreateOutcome)
      requires Valid()
      modifies this
      ensures Valid() && aiCalls == old(aiCalls)
      ensures !ValidationMiddleware.ResumeFileValid(Some(title)) ==>
                out == Invalid && resumes == old(resumes) && nextId == old(nextId)
      ensures ValidationMiddleware.ResumeFileValid(Some(title)) && upload.None? ==>
                out == NoFile && resumes == old(resumes) && nextId == old(nextId)
      ensures ValidationMiddleware.ResumeFileValid(Some(title)) && upload.Some? && UploadText(upload.value).Refused? ==>
                out == UploadText(upload.value).outcome && resumes == old(resumes) && nextId == old(nextId)
      ensures ValidationMiddleware.ResumeFileValid(Some(title)) && upload.Some? && UploadText(upload.value).Text? ==>
                var f := upload.value;
                var text := UploadText(f).text;
                var h := ContentHash(sha256, text);
                var k := FindDuplicate(old(resumes), user, h);
                if k >= 0 then
                  out == Duplicate(old(resumes)[k]) && resumes == old(resumes) && nextId == old(nextId)
                else match NewResume(old(nextId), user, Trim(title), text, h, FileType, Some(FileInfo(f.originalName, f.size, f.mimeType)))
                  case None => out == Failed && resumes == old(resumes) && nextId == old(nextId)
                  case Some(r) => out == Created(r) && resumes == old(resumes) + [r] && nextId == old(nextId) + 1
    {
      if !ValidationMiddleware.ResumeFileValid(Some(title)) {
        return Invalid;
      }
      if upload.None? {
        return NoFile;
      }
      var f := upload.value;
      var text := UploadText(f);
      if text.Refused? {
        return text.outcome;
      }
      out := Store(user, Trim(title), text.text, FileType, Some(FileInfo(f.originalName, f.size, f.mimeType)));
    }

    /**
     * `analyzeResume` behind `validateResumeAnalysis`: a refused job
     * description changes nothing; a resume the user does not own is not
     * found; a cached entry for the same normalised job description is
     * returned without calling the analyzer; otherwise the analyzer is called
     * once, and its entry goes to the front of a history kept to ten entries
     * when the schema's `[String]` casts accept it, while a refused entry
     * leaves every record as it was. Nothing but that one history changes.
     */
    method Analyze(id: Id, user: Id, jobDescription: string, jobTitle: Option<string>,
                   reply: AiService.Completion, parse: string -> Option<Json>, now: int)
      returns (out: AnalyzeOutcome)
      requires Valid()
      modifies this
      ensures Valid() && nextId == old(nextId)
      ensures !ValidationMiddleware.AnalysisValid(Some(jobDescription)) ==>
                out == Rejected && resumes == old(resumes) && aiCalls == old(aiCalls)
      ensures ValidationMiddleware.AnalysisValid(Some(jobDescription)) ==>
                var jd := Trim(jobDescription);
                var k := FindOwned(old(resumes), id, user);
                var h := sha256(Normalize(jd));
                if k < 0 then
                  out == NotFound && resumes == old(resumes) && aiCalls == old(aiCalls)
                else
                  var r := old(resumes)[k];
                  match FindAnalysis(r.aiAnalyses, h)
                  case Some(e) => out == Cached(e) && resumes == old(resumes) && aiCalls == old(aiCalls)
                  case None =>
                    var e := NewEntry(jd, h, jobTitle, AiService.AnalyzeResumeForJob(reply, parse), now);
                    && aiCalls == old(aiCalls) + 1
                    && (EntryCasts(e) ==> out == Analyzed(e) && resumes == old(resumes)[k := r.(aiAnalyses := Retain(r.aiAnalyses, e))])
                    && (!EntryCasts(e) ==> out == SaveFailed && resumes == old(resumes))
    {
      if !ValidationMiddleware.AnalysisValid(Some(jobDescription)) {
        return Rejected;
      }
      var jd := Trim(jobDescription);
      var k := FindOwned(resumes, id, user);
      if k < 0 {
        return NotFound;
      }
      var r := resumes[k];
      ValidAt(resumes, nextId, k);
      var h := sha256(Normalize(jd));
      var hit := FindAnalysis(r.aiAnalyses, h);
      if hit.Some? {
        return Cached(hit.value);
      }
      aiCalls := aiCalls + 1;
      var analysis := AiService.AnalyzeResumeForJob(reply, parse);
      var e := NewEntry(jd, h, jobTitle, analysis, now);
      if !EntryCasts(e) {
        return SaveFailed;
      }
      FindAnalysisIsFirst(r.aiAnalyses, h);
      AddEntry(k, e);
      out := Analyzed(e);
    }

    /** The `unshift` and `slice` of `analyzeResume` on the record at `k`, for an entry the history lacks. */
    method AddEntry(k: nat, e: AnalysisEntry)
      requires Valid() && k < |resumes|
      requires forall j :: 0 <= j < |resumes[k].aiAnalyses| ==> resumes[k].aiAnalyses[j].jobDescHash != e.jobDescHash
      modifies this
      ensures Valid() && nextId == old(nextId) && aiCalls == old(aiCalls)
      ensures resumes == old(resumes)[k := old(resumes)[k].(aiAnalyses := Retain(old(resumes)[k].aiAnalyses, e))]
    {
      var r := resumes[k];
      ValidAt(resumes, nextId, k);
      RetainDistinct(r.aiAnalyses, e);
      var r' := r.(aiAnalyses := Retain(r.aiAnalyses, e));
      ReplaceKeepsValid(resumes, nextId, k, r');
      ReplaceKeepsHashes(sha256, resumes, k, r');
      resumes := resumes[k := r'];
    }

    /**
     * `updateResume`: only the owner's resume changes, and its analysis
     * history is kept. The route always runs `validateResumeText` first, so
     * the title and content it receives passed that rule, and the record
     * gets the values its `trim()` sanitiser left in the body.
     */
    method Update(id: Id, user: Id, title: string, content: string) returns (out: Option<Resume>)
      requires Valid()
      requires ValidationMiddleware.ResumeTextValid(ValidationMiddleware.ResumeTextBody(Some(title), Some(content)))
      modifies this
      ensures Valid() && nextId == old(nextId) && aiCalls == old(aiCalls)
      ensures var k := FindOwned(old(resumes), id, user);
              if k < 0 then out == None && resumes == old(resumes)
              else var r := Revise(sha256, old(resumes)[k], Trim(title), Trim(content));
                   out == Some(r) && resumes == old(resumes)[k := r]
    {
      var k := FindOwned(resumes, id, user);
      if k < 0 {
        return None;
      }
      var rs := resumes;
      ValidAt(rs, nextId, k);
      var r := Revise(sha256, rs[k], Trim(title), Trim(content));
      ReplaceKeepsValid(rs, nextId, k, r);
      ReplaceKeepsHashes(sha256, rs, k, r);
      resumes := rs[k := r];
      out := Some(r);
    }

    /** `deleteResume`: exactly the owner's resume with that id is removed, the others keep their order. */
    method Delete(id: Id, user: Id) returns (found: bool)
      requires Valid()
      modifies this
      ensures Valid() && nextId == old(nextId) && aiCalls == old(aiCalls)
      ensures var k := FindOwned(old(resumes), id, user);
              found == (k >= 0)
              && resumes == if k < 0 then old(resumes) else old(resumes)[..k] + old(resumes)[k + 1..]
      ensures forall r :: r in resumes <==> r in old(resumes) && !(found && r.id == id)
    {
      var k := FindOwned(resumes, id, user);
      if k < 0 {
        return false;
      }
      RemoveKeepsValid(resumes, nextId, k);
      RemoveKeepsHashes(sha256, resumes, k);
      RemoveKeepsOthers(resumes, k);
      RemoveDropsId(resumes, nextId, k);
      resumes := resumes[..k] + resumes[k + 1..];
      found := true;
    }
  }
}
