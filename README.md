# JOB-SCRIBE core, modelled in Dafny

JOB-SCRIBE is a job-application tracker with an AI resume assistant. This
project models its core on both sides of the HTTP boundary.

The backend parts modelled are:

- **Resume controller** (`ResumeController`). It creates resumes from text or
  from an uploaded PDF/DOCX and deduplicates them per user by a hash of the
  trimmed, lower-cased content. It serves the analysis request, which answers
  from a cache keyed by the hash of the job description and otherwise calls
  the AI service and keeps the last ten analyses. It also updates and deletes
  resumes, always scoped to the owner. The create and analysis handlers
  first answer 400 when their route's validator chain refused the body, and
  then work on the values the chain trimmed. The collection is a class over a
  sequence of records, and each handler is a method. Every method keeps the
  store invariant: titles trimmed, titles and contents non-empty, at most ten
  analyses with distinct hashes, ids growing in insertion order, stored
  hashes current.
- **Resume schema** (`ResumeModel`). It covers the record shape, the `type`
  enumeration, and what a create does: the `trim` setter and the `required`
  checks. It also covers whether an analysis entry's lists pass the `[String]`
  cast.
- **AI service post-processing** (`AiService`). It models the following:
  - `cleanJSON`;
  - the validity check and defaulting of an analysis reply;
  - the optimisation clean-up pipeline: fence and `**` removal, placeholder
    lines, the fake-section loop, and the length and line-count gates;
  - the three fallback builders, with the fallback JSON's head-line scan as a
    loop.
- **File parser** (`FileParser`). It models the `\s+` and `\n\s*\n`
  replacements, the trim, and the ten-character guard of the PDF and DOCX
  extractors.
- **Resume template helpers** (`ResumeTemplate`). It models `ensureHTTPS`,
  `createLink` (with a parser for the anchor it renders, to state the round
  trip) and the dotted-path `get`.
- **Request validation** (`ValidationMiddleware`). It models every
  express-validator chain as a predicate on the request body.

The frontend parts modelled are:

- **Form validators** (`Validators`). It models `validateEmail`,
  `validatePassword`, `validateName`, `validateRequired` and the
  react-hook-form rule table.
- **Formatters** (`Formatters`). It models `getInitials`, `truncateText`, and
  the file type and size checks.
- **The Redux slices.** Each is a class whose fields are the slice state and
  whose methods are the reducers, changing the state in place as the Immer
  draft does:
  - `ResumesSlice`
  - `JobsSlice`
  - `NotesSlice`
  - `AdminSlice`
  - `AuthSlice`
  - `ThemeSlice`

  `DocList` holds what the slices share: `findIndex`/replace-first,
  `filter` by id, keeping the selected record in step with the list, and the
  object spread that merges filters and pagination.

The shared modules are:

- `Text`: JavaScript string operations, including `trim` and its white-space
  set, ASCII case mapping, `split`/`join` on a character, `substring` with
  clamping and bound swap, `indexOf`, and literal global `replace`.
- `Seqs`: `filter` and the subsequence relation.
- `Js`: a JSON-like value with JavaScript truthiness, `||`, `??`, `?.`, and the number conversion behind `v > 0`.
- `ClientServer`: lemmas comparing the frontend's checks with the backend's (password, name, resume content, upload type).
- `Wrappers`: `Option`.

Everything the code reaches outside itself becomes a parameter:

- the SHA-256 digest (a function fixed per store);
- the Gemini reply (a `Completion`) and `JSON.parse`;
- the PDF/DOCX library output (`Option<string>`, `None` when it throws);
- the `isEmail`/`isURL` checks and the regex matchers of the fallback scan;
- the clock (`now`);
- the values saved in the browser's `localStorage`.

## Model

| member | source | states |
|---|---|---|
| ResumeModel.ParseType | BACKEND/src/models/resume.model.js:10 | a `type` is accepted exactly when it is "text" or "file", and it maps back to that name |
| ResumeModel.ParseTypeName | BACKEND/src/models/resume.model.js:10 | both enum values are accepted |
| ResumeModel.NewResume | BACKEND/src/models/resume.model.js:5-45 | a create succeeds exactly when the trimmed title and the content are non-empty; the stored title is trimmed and the history arrays start empty |
| ResumeModel.StringListCasts | BACKEND/src/models/resume.model.js:40-43 | a list of texts casts to `[String]`; a list holding an array, or an object without an `_id`, does not |
| ResumeModel.ObjectSuggestionIsRefused | BACKEND/src/models/resume.model.js:40-43 | an entry whose suggestions are `[{"tip": "x"}]` is refused by the schema |
| ResumeController.Normalize | BACKEND/src/controllers/resume.controller.js:10-11 | the normal form the hash is taken of is trimmed and no longer than the input |
| ResumeController.NormalizeIdempotent | BACKEND/src/controllers/resume.controller.js:10-11 | normalising twice gives what normalising once gave |
| ResumeController.ToLowerIdempotent | BACKEND/src/controllers/resume.controller.js:11 | lower-casing is idempotent |
| ResumeController.ContentHash | BACKEND/src/controllers/resume.controller.js:10-11 | the digest of the trimmed, lower-cased content; `SameHashUpToPaddingAndCase` states what it ignores |
| ResumeController.SameHashUpToPaddingAndCase | BACKEND/src/controllers/resume.controller.js:10-11 | contents differing only by surrounding white space or letter case get the same hash, for any digest |
| ResumeController.FindOwned | BACKEND/src/controllers/resume.controller.js:142 | the lookup finds a record with that id and owner, and misses exactly when none exists |
| ResumeController.FindAnalysis | BACKEND/src/controllers/resume.controller.js:175 | a hit is an entry of the history carrying the hash; a miss means no entry carries it |
| ResumeController.FindDuplicate | BACKEND/src/controllers/resume.controller.js:30-33 | the duplicate lookup returns the first record with that owner and hash, and misses exactly when none exists |
| ResumeController.FindDuplicateAppended | BACKEND/src/controllers/resume.controller.js:30-50 | after a record with no earlier duplicate is created, the duplicate lookup finds that record |
| ResumeController.FindAnalysisIsFirst | BACKEND/src/controllers/resume.controller.js:175 | the cache misses only when no entry has the hash; a hit is the first entry with it |
| ResumeController.FindAnalysisUnique | BACKEND/src/controllers/resume.controller.js:175 | with distinct hashes, a hit is the one entry carrying the hash |
| ResumeController.Retain | BACKEND/src/controllers/resume.controller.js:200-203 | the new entry comes first, followed by the newest old entries, at most ten in all |
| ResumeController.RetainDistinct | BACKEND/src/controllers/resume.controller.js:175-203 | adding an entry after a cache miss keeps the job-description hashes distinct |
| ResumeController.RetainDropsOldest | BACKEND/src/controllers/resume.controller.js:200-203 | on a full history the oldest entry is dropped, so a second request for that description misses the cache |
| ResumeController.JobTitleOr | BACKEND/src/controllers/resume.controller.js:194 | a missing or empty title becomes "Job Analysis"; any other title is kept |
| ResumeController.NewEntry | BACKEND/src/controllers/resume.controller.js:191-199 | the entry keeps the first 500 characters of the description, the hash, the title or its default, the score and the non-empty suggestions and keywords; strengths and sections start empty |
| ResumeController.NewEntryKeepsSuggestions | BACKEND/src/controllers/resume.controller.js:188-197 | the `|| []` defaults never replace what the analyzer returned |
| ResumeController.ValidAt | BACKEND/src/controllers/resume.controller.js:43-49 | in a valid store every record is well formed and has an id below the next id |
| ResumeController.ValidApart | BACKEND/src/controllers/resume.controller.js:43-49 | in a valid store no two records share an id |
| ResumeController.ValidWeaken | BACKEND/src/controllers/resume.controller.js:43-49 | a store valid below one bound is valid below any larger one |
| ResumeController.Revise | BACKEND/src/controllers/resume.controller.js:237-245 | the update stores the trimmed title, the content and its hash; it keeps the id, owner, type, file details and histories; a record stays well formed when the trimmed title and the content are non-empty |
| ResumeController.ReviseCanDuplicate | BACKEND/src/controllers/resume.controller.js:237-245 | an update can give a resume the same owner and hash as another one, since the update runs no duplicate check |
| ResumeController.ReplaceKeepsValid | BACKEND/src/controllers/resume.controller.js:200-204 | replacing a record by a well-formed one with the same id keeps the store valid |
| ResumeController.RemoveKeepsValid | BACKEND/src/controllers/resume.controller.js:258-261 | removing a record keeps the store valid |
| ResumeController.RemoveKeepsOthers | BACKEND/src/controllers/resume.controller.js:258-261 | removing one record keeps every record with another id |
| ResumeController.RemoveDropsId | BACKEND/src/controllers/resume.controller.js:258-261 | after the removal no record carries the removed id |
| ResumeController.AppendKeepsValid | BACKEND/src/controllers/resume.controller.js:43-49 | appending a well-formed record with the next id keeps the store valid |
| ResumeController.ReplaceKeepsHashes | BACKEND/src/controllers/resume.controller.js:237-245 | a replacement whose hash is current keeps every stored hash current |
| ResumeController.RemoveKeepsHashes | BACKEND/src/controllers/resume.controller.js:258-261 | removal keeps every stored hash current |
| ResumeController.AppendKeepsHashes | BACKEND/src/controllers/resume.controller.js:43-49 | appending a record whose hash is current keeps every stored hash current |
| ResumeController.UploadText | BACKEND/src/controllers/resume.controller.js:67-94 | an unreadable buffer or failed extraction is "could not extract"; another mimetype is refused exactly when the buffer is readable and the type is neither PDF nor DOCX; otherwise the extracted, cleaned text |
| ResumeController.ResumeStore.constructor | BACKEND/src/models/resume.model.js:82 | the collection starts empty and valid |
| ResumeController.ResumeStore.GetResume | BACKEND/src/controllers/resume.controller.js:140-149 | a resume is returned only to its owner, and "not found" exactly when the user owns no resume with that id |
| ResumeController.ResumeStore.Store | BACKEND/src/controllers/resume.controller.js:28-50 | an earlier resume of the owner with the same hash is returned unchanged; otherwise the schema's record is appended with the next id and is what the duplicate check finds next; the store stays valid |
| ResumeController.ResumeStore.CreateFromText | BACKEND/src/controllers/resume.controller.js:13-55 | a body `validateResumeText` refuses answers `Invalid` and changes nothing; otherwise deduplicated creation of a 'text' resume from the trimmed title and content |
| ResumeController.ResumeStore.CreateFromFile | BACKEND/src/controllers/resume.controller.js:58-129 | a title `validateResumeFile` refuses, no file, an unreadable or unsupported upload, or an extraction failure changes nothing, checked in that order; otherwise a deduplicated 'file' resume with the trimmed title and the upload's name, size and mimetype |
| ResumeController.ResumeStore.Analyze | BACKEND/src/controllers/resume.controller.js:152-219 | a job description `validateResumeAnalysis` refuses answers `Rejected`; not found for a non-owner; a cached entry is returned without calling the analyzer; otherwise exactly one call, and the new entry for the trimmed job description heads that resume's history of at most ten when its lists cast to `[String]`, while a refused entry answers `SaveFailed` and leaves every record as it was |
| ResumeController.ResumeStore.AddEntry | BACKEND/src/controllers/resume.controller.js:200-204 | the new entry heads only that record's history, kept to ten entries by `Retain`; the store stays valid |
| ResumeController.ResumeStore.Update | BACKEND/src/controllers/resume.controller.js:222-253 | on a body that passed `validateResumeText`, only the owner's resume changes, to the record revised with the trimmed title and content the sanitiser left, and the store stays valid with non-empty titles and contents |
| ResumeController.ResumeStore.Delete | BACKEND/src/controllers/resume.controller.js:256-268 | exactly the owner's resume with that id is removed, the others keep their order, and a record remains exactly when it was there and is not the deleted one |
| AiService.RemoveAllIgnoringCase | BACKEND/src/services/ai.service.js:290 | the case-insensitive removal never lengthens the text |
| AiService.StripFences | BACKEND/src/services/ai.service.js:290 | no three backticks survive the two fence removals |
| AiService.BraceSpan | BACKEND/src/services/ai.service.js:291-293 | taking the brace span of fence-free text leaves it fence-free |
| AiService.CleanJSON | BACKEND/src/services/ai.service.js:289-294 | the cleaned reply holds no fence |
| AiService.CleanJSONWithoutBraces | BACKEND/src/services/ai.service.js:293 | with either brace missing, the fence-stripped text comes back unchanged |
| AiService.CleanJSONSpan | BACKEND/src/services/ai.service.js:291-293 | with the braces in order, the result runs from the first `{` to the last `}` |
| AiService.CleanJSONReversed | BACKEND/src/services/ai.service.js:291-293 | when every `}` precedes the first `{`, `substring` swaps its bounds and returns the text between the last `}` and the first `{`, which holds no brace |
| AiService.NoBraceBetween | BACKEND/src/services/ai.service.js:291-293 | the text after the last `}` and before the first `{` holds neither brace |
| AiService.StrList | BACKEND/src/services/ai.service.js:303-306 | a list of strings becomes an array of that length |
| AiService.FallbackAnalysis | BACKEND/src/services/ai.service.js:300-308 | the fallback has score 0, non-empty strengths and suggestions, and empty keywords and sections |
| AiService.IsValid | BACKEND/src/services/ai.service.js:296-298 | `isValid`: a truthy value whose `matchScore` is a number and whose `suggestions` is an array |
| AiService.ParsedReply | BACKEND/src/services/ai.service.js:33-36 | the reply's text, trimmed and cleaned, then parsed; nothing when the reply has no text |
| AiService.ShapeAnalysis | BACKEND/src/services/ai.service.js:40-46 | the score is the reply's; strengths and suggestions are the reply's when their `length` converts to a positive number, and otherwise ["Resume has relevant experience"] and ["Resume is well-structured"]; keywords and sections are the reply's when truthy, and otherwise `[]` |
| AiService.ShapeReadsLengthAsNumber | BACKEND/src/services/ai.service.js:41 | `strengths?.length > 0` converts the length: a `length` of "2" or `[1]` keeps the reply's strengths, and "-2" or "two" gives the default |
| Js.NumericTexts | BACKEND/src/services/ai.service.js:41 | the text "2" converts to a positive number; "-2" and "two" do not |
| Js.TextTwoIsPositive | BACKEND/src/services/ai.service.js:41 | "2" converts to a positive number |
| Js.TextMinusTwoIsNotPositive | BACKEND/src/services/ai.service.js:41 | "-2" does not convert to a positive number |
| Js.TextWordIsNotPositive | BACKEND/src/services/ai.service.js:41 | "two" converts to `NaN` |
| AiService.AnalyzeResumeForJob | BACKEND/src/services/ai.service.js:13-51 | every outcome has non-empty strengths and suggestions; every failure gives the fallback; a valid reply keeps its score, keeps each list that passes its test and puts the same four defaults as `ShapeAnalysis` in place of the others |
| AiService.ValidIsObject | BACKEND/src/services/ai.service.js:296-298 | a value passing `isValid` is an object |
| AiService.FallbackOptimization | BACKEND/src/services/ai.service.js:310-312 | the original text, marked as not optimized |
| AiService.StripMarkup | BACKEND/src/services/ai.service.js:146-150 | the stripped reply is trimmed, no longer than the reply, and holds no `**` |
| AiService.StripMarkupCanLeaveFence | BACKEND/src/services/ai.service.js:146-150 | removing `**` after the fences can form a new fence |
| AiService.SampleHasNoFence | BACKEND/src/services/ai.service.js:146-148 | the sample reply holds no fence before the removals |
| AiService.HasPlaceholder | BACKEND/src/services/ai.service.js:155-158 | a line holds `\| null` or `\| TBD` |
| AiService.ShortNotContains | BACKEND/src/services/ai.service.js:155 | a text shorter than a pattern does not contain it |
| AiService.SampleLosesBold | BACKEND/src/services/ai.service.js:149 | removing `**` from the sample leaves exactly a fence |
| AiService.LinesAvoid | BACKEND/src/services/ai.service.js:157 | the lines of a text avoid any line-break-free pattern the text avoids |
| AiService.JoinAvoids | BACKEND/src/services/ai.service.js:159 | joining lines that avoid such a pattern gives a text that avoids it |
| AiService.DropPlaceholderLines | BACKEND/src/services/ai.service.js:155-160 | the result holds neither `\| null` nor `\| TBD`, and text without them is unchanged |
| AiService.DropPlaceholderLinesAvoids | BACKEND/src/services/ai.service.js:155-160 | dropping lines cannot create a line-break-free pattern |
| AiService.DropPlaceholderLinesKeepsOthers | BACKEND/src/services/ai.service.js:157-159 | the kept lines are exactly the placeholder-free ones, in order |
| AiService.WordAtAnyIff | BACKEND/src/services/ai.service.js:163 | the alternation matches at a position exactly when one of its words does |
| AiService.WordFromIff | BACKEND/src/services/ai.service.js:163 | the scan from a position finds a word exactly when one occurs at or after it |
| AiService.MentionsCompanyIff | BACKEND/src/services/ai.service.js:163-164 | the company test holds exactly when a company word occurs as a whole word, ignoring case |
| AiService.MentionsCompany | BACKEND/src/services/ai.service.js:163-164 | the company-word test, scanning for a whole word from the start; `MentionsCompanyIff` states what it means |
| AiService.MentionsFakeSection | BACKEND/src/services/ai.service.js:170 | the case-insensitive test for "current focus", "goals" or "learning path" |
| AiService.FilterApplies | BACKEND/src/services/ai.service.js:163-170 | the section filter runs exactly when the original names no company, the reply does, and the reply mentions a fake section |
| AiService.FilterSectionsUnfold | BACKEND/src/services/ai.service.js:176-194 | what the section filter does with its first line |
| AiService.FilterSectionsStep | BACKEND/src/services/ai.service.js:176-194 | one step of the section filter at a position |
| AiService.FilterSectionsAdvance | BACKEND/src/services/ai.service.js:176-194 | keeping or skipping line `i` as the filter does leaves the overall result unchanged |
| AiService.IsHeading | BACKEND/src/services/ai.service.js:186 | the trimmed line matches `^[A-Z\s]{2,}$` and is longer than three characters |
| AiService.FilterSections | BACKEND/src/services/ai.service.js:172-196 | the lines the section filter keeps: a marker line is dropped and starts skipping, a heading stops it, other lines are kept unless skipping |
| AiService.SkipFakeSections | BACKEND/src/services/ai.service.js:172-196 | the loop produces exactly the lines the section filter keeps |
| AiService.FilterSectionsDropsMarkers | BACKEND/src/services/ai.service.js:179-184 | every kept line is an input line and not a marker |
| AiService.FilterSectionsSubsequence | BACKEND/src/services/ai.service.js:176-194 | the kept lines appear in the input in the same order |
| AiService.SubsequenceOfTail | BACKEND/src/services/ai.service.js:176-194 | a subsequence of the tail is a subsequence of the whole |
| AiService.FilterSectionsKeepsHeadings | BACKEND/src/services/ai.service.js:186-193 | a heading that is not a marker is always kept |
| AiService.FilterSectionsWithoutMarkers | BACKEND/src/services/ai.service.js:176-194 | without a marker line nothing is skipped |
| AiService.KeptLinesAvoid | BACKEND/src/services/ai.service.js:172-196 | the filter cannot bring back a line-break-free pattern |
| AiService.FilterFakeSections | BACKEND/src/services/ai.service.js:170-197 | the filtered text keeps the absence of `**` and of both placeholders |
| AiService.Postprocess | BACKEND/src/services/ai.service.js:146-198 | the post-processed reply holds no `**` and no placeholder |
| AiService.TooShort | BACKEND/src/services/ai.service.js:201 | `optimized.length < resumeContent.length * 0.4`, in exact arithmetic |
| AiService.Optimize | BACKEND/src/services/ai.service.js:53-220 | any failure gives the fallback; a success is the post-processed reply, at least 40% of the original's length, with at least three lines and no `**` or placeholder, and the converse |
| AiService.GenerateResumeOptimization | BACKEND/src/services/ai.service.js:53-220 | the method with the loop computes exactly the specified optimisation |
| AiService.NonBlankLines | BACKEND/src/services/ai.service.js:315 | only lines with visible characters are kept |
| AiService.FirstMatchIsFirst | BACKEND/src/services/ai.service.js:318-329 | the scan finds nothing only when no line matches, and otherwise reports the first matching line's match |
| AiService.FirstMatchStep | BACKEND/src/services/ai.service.js:321-328 | one more line changes the result only if nothing was found yet |
| AiService.HeadLines | BACKEND/src/services/ai.service.js:315-318 | at most five lines, none blank |
| AiService.FallbackName | BACKEND/src/services/ai.service.js:316-320 | the name is non-empty, trimmed and shorter than 60 characters |
| AiService.ScanHead | BACKEND/src/services/ai.service.js:316-329 | the loop settles on the fallback name, the first e-mail and the first phone |
| AiService.MatchValue | BACKEND/src/services/ai.service.js:321-328 | what `email = match` stores: `null` without a match, otherwise the match array whose only element is the matched text |
| AiService.FallbackJSON | BACKEND/src/services/ai.service.js:314-341 | the name from the first five non-blank lines; the e-mail and phone fields hold the match array of the first line that matches, or `null`; a 300-character summary; every link absent; every list empty |
| FileParser.SpaceRun | BACKEND/src/services/fileParser.service.js:45 | the length of the leading white-space run, which ends at a visible character or at the end |
| FileParser.SpaceRunIsSpace | BACKEND/src/services/fileParser.service.js:45 | that run is all white space |
| FileParser.CollapseSpace | BACKEND/src/services/fileParser.service.js:45 | collapsing is empty only for empty text and keeps whether the text starts with white space |
| FileParser.InkConcat | BACKEND/src/services/fileParser.service.js:43-48 | the visible characters of a concatenation are those of its parts |
| FileParser.InkOfSpace | BACKEND/src/services/fileParser.service.js:43-48 | white space has no visible characters |
| FileParser.CollapseSpaceInk | BACKEND/src/services/fileParser.service.js:45 | collapsing keeps every visible character in order |
| FileParser.CollapseSpaceSingle | BACKEND/src/services/fileParser.service.js:45 | after collapsing, white space appears only as single plain spaces |
| FileParser.CollapseSpaceOfSingle | BACKEND/src/services/fileParser.service.js:45 | single-spaced text is left alone |
| FileParser.CollapseBlankLinesWithoutBreak | BACKEND/src/services/fileParser.service.js:46 | without a line break the second replacement changes nothing |
| FileParser.SingleSpacedHasNoBreak | BACKEND/src/services/fileParser.service.js:45-46 | single-spaced text has no line break |
| FileParser.SecondReplaceIsNoop | BACKEND/src/services/fileParser.service.js:45-46 | the blank-line replacement never changes what the first replacement produced |
| FileParser.SliceSingleSpaced | BACKEND/src/services/fileParser.service.js:47 | a slice of single-spaced text is single-spaced |
| FileParser.InkOfTrim | BACKEND/src/services/fileParser.service.js:47 | trimming removes only white space |
| FileParser.TrimSingleSpaced | BACKEND/src/services/fileParser.service.js:47 | trimming keeps text single-spaced |
| FileParser.CleanExtractedText | BACKEND/src/services/fileParser.service.js:43-48 | the cleaned text is the trim of the white-space collapse; it is trimmed and single-spaced, has no line break, and keeps every visible character in order |
| FileParser.CleanIdempotent | BACKEND/src/services/fileParser.service.js:43-48 | cleaning twice gives what cleaning once gave |
| FileParser.ExtractText | BACKEND/src/services/fileParser.service.js:8-41 | extraction succeeds exactly when the library returned text whose trimmed length is at least ten; the result is the cleaning of that trimmed text, and so trimmed, single-spaced and with the same visible characters |
| FileParser.SpaceRunOfPadded | BACKEND/src/services/fileParser.service.js:45 | the run of white space before a visible character is exactly the padding |
| FileParser.CollapseGap | BACKEND/src/services/fileParser.service.js:45 | a white-space gap between two visible characters collapses to one space |
| FileParser.SpaceRunWithin | BACKEND/src/services/fileParser.service.js:45 | before text that ends in a visible character, the leading white-space run stops inside that text |
| FileParser.CollapseSpaceLast | BACKEND/src/services/fileParser.service.js:45 | collapsing keeps a visible last character last |
| FileParser.CollapseSpaceGap | BACKEND/src/services/fileParser.service.js:45 | any white-space gap between text ending in a visible character and text starting with one becomes exactly one space, and each side collapses on its own |
| FileParser.CleanAtGap | BACKEND/src/services/fileParser.service.js:43-48 | cleaning two trimmed pieces joined by any white-space gap gives the two cleaned pieces joined by one space |
| FileParser.CleanGap | BACKEND/src/services/fileParser.service.js:43-48 | cleaning such a text gives the two characters around one space |
| FileParser.AcceptedCanCleanShort | BACKEND/src/services/fileParser.service.js:14-20 | the length guard runs before cleaning, so an accepted text can clean down to three characters |
| ResumeTemplate.EnsureHttps | BACKEND/src/services/resumeTemplate.service.js:6-11 | no link for an empty URL; otherwise the URL ends the result, the result has a scheme, the URL is kept as it is exactly when it already has `http://`, `https://` or `mailto:`, and any other URL gets `https://` in front |
| ResumeTemplate.EnsureHttpsIdempotent | BACKEND/src/services/resumeTemplate.service.js:6-11 | applying it to its own result changes nothing |
| ResumeTemplate.ParseAnchor | BACKEND/src/services/resumeTemplate.service.js:16 | a parsed anchor's href holds no quote |
| ResumeTemplate.IndexOfAfter | BACKEND/src/services/resumeTemplate.service.js:16 | the first quote after a quote-free href is the closing one |
| ResumeTemplate.TailParts | BACKEND/src/services/resumeTemplate.service.js:16 | the rendered tail splits back into the caption |
| ResumeTemplate.ParseRender | BACKEND/src/services/resumeTemplate.service.js:16 | rendering an anchor with a quote-free href and parsing it gives the anchor back |
| ResumeTemplate.CreateLink | BACKEND/src/services/resumeTemplate.service.js:13-17 | no URL gives the text; otherwise an anchor to the URL as `ensureHTTPS` completes it |
| ResumeTemplate.CreateLinkRoundTrip | BACKEND/src/services/resumeTemplate.service.js:13-17 | the created link parses to the completed URL and to the text, or the URL when the text is empty |
| ResumeTemplate.LookupNullish | BACKEND/src/services/resumeTemplate.service.js:21 | a path read from `null` or `undefined` is `undefined` |
| ResumeTemplate.LookupConcat | BACKEND/src/services/resumeTemplate.service.js:21 | reading a joined path reads first the one part, then the other |
| ResumeTemplate.GetPath | BACKEND/src/services/resumeTemplate.service.js:19-25 | the value at the path when it is neither `null` nor `undefined`, and otherwise the default; nullish only when the default is |
| ResumeTemplate.GetPathKeepsFalsy | BACKEND/src/services/resumeTemplate.service.js:21 | `??` keeps falsy values that are not nullish |
| ResumeTemplate.GetPathMissingOuter | BACKEND/src/services/resumeTemplate.service.js:21 | a missing outer key gives the default instead of throwing |
| ResumeTemplate.GetPathTwoLevels | BACKEND/src/services/resumeTemplate.service.js:21 | a two-part path is two optional reads followed by `??` |
| ValidationMiddleware.Sanitize | BACKEND/src/middlewares/validation.middleware.js:7 | the `trim()` sanitiser keeps absence and trims a given value |
| ValidationMiddleware.SanitizeIdempotent | BACKEND/src/middlewares/validation.middleware.js:7 | sanitising twice gives what sanitising once gave |
| ValidationMiddleware.IsLengthCount | BACKEND/src/middlewares/validation.middleware.js:31-32 | the length `isLength` measures is at most the character count, and equals it exactly when the text holds no U+FE0E or U+FE0F |
| ValidationMiddleware.IsLengthCountConcat | BACKEND/src/middlewares/validation.middleware.js:31-32 | the measured length of a joined text is the sum of the two lengths |
| ValidationMiddleware.SelectorAfterText | BACKEND/src/middlewares/validation.middleware.js:31-32 | a U+FE0F after selector-free text that starts visibly adds nothing to the measured length and nothing to trim |
| ValidationMiddleware.SelectorIsNotCounted | BACKEND/src/middlewares/validation.middleware.js:32 | nine letters followed by U+FE0F measure nine, so they fail the 10-character content minimum |
| ValidationMiddleware.RegistrationValid | BACKEND/src/middlewares/validation.middleware.js:6-11 | `validateUserRegistration`: both names 2-30 characters once trimmed, an accepted e-mail, a password of 8-50 characters as given, lengths as `isLength` measures them (`IsLengthCount`) |
| ValidationMiddleware.LoginValid | BACKEND/src/middlewares/validation.middleware.js:14-17 | `validateUserLogin`: an accepted e-mail and a non-empty password |
| ValidationMiddleware.JobValid | BACKEND/src/middlewares/validation.middleware.js:20-27 | `validateJob`: every field optional; a given one meets its trimmed length bounds, the URL check or the five statuses, lengths as `isLength` measures them (`IsLengthCount`) |
| ValidationMiddleware.ResumeTextValid | BACKEND/src/middlewares/validation.middleware.js:30-33 | `validateResumeText`: a title of 2-100 and content of 10-10000 characters once trimmed, lengths as `isLength` measures them (`IsLengthCount`) |
| ValidationMiddleware.ResumeFileValid | BACKEND/src/middlewares/validation.middleware.js:36-38 | `validateResumeFile`: a title of 2-100 characters once trimmed, lengths as `isLength` measures them (`IsLengthCount`) |
| ValidationMiddleware.AnalysisValid | BACKEND/src/middlewares/validation.middleware.js:41-43 | `validateResumeAnalysis`: a job description of 10-5000 characters once trimmed, lengths as `isLength` measures them (`IsLengthCount`) |
| ValidationMiddleware.IsMongoId | BACKEND/src/middlewares/validation.middleware.js:47 | `isMongoId`: 24 characters that are hexadecimal digits, or hexadecimal digits behind a `0x`/`0h` prefix |
| ValidationMiddleware.MongoIdForms | BACKEND/src/middlewares/validation.middleware.js:47 | 24 hexadecimal digits pass, 22 digits behind `0x` or `0h` pass, and any other count behind the prefix fails |
| ValidationMiddleware.NoteValid | BACKEND/src/middlewares/validation.middleware.js:46-50 | `validateNote`: a Mongo id, a title of 2-100 and content of 1-5000 characters once trimmed, lengths as `isLength` measures them (`IsLengthCount`) |
| ValidationMiddleware.NoteUpdateValid | BACKEND/src/middlewares/validation.middleware.js:53-56 | `validateNoteUpdate`: title and content optional, with the same bounds when given, lengths as `isLength` measures them (`IsLengthCount`) |
| ValidationMiddleware.UserStatusValid | BACKEND/src/middlewares/validation.middleware.js:59-61 | `isBoolean` on the value as text |
| ValidationMiddleware.EmptyJobAccepted | BACKEND/src/middlewares/validation.middleware.js:20-27 | every job field is optional, so an empty body passes |
| ValidationMiddleware.JobStatusAccepted | BACKEND/src/middlewares/validation.middleware.js:26 | a body with only a status passes exactly when the status is one of the five |
| ValidationMiddleware.NoteContentRequiredOnCreateOnly | BACKEND/src/middlewares/validation.middleware.js:46-56 | a note without content fails creation, and an empty update passes |
| ClientServer.PasswordRuleAgrees | BACKEND/src/middlewares/validation.middleware.js:10 | on a password without presentation selectors, the server's 8-50 rule on the untrimmed password agrees with the client's `validatePassword` |
| ClientServer.NameRuleAgrees | BACKEND/src/middlewares/validation.middleware.js:7-8 | on a name whose trimmed text has no presentation selector, the server's trimmed 2-30 rule agrees with the client's `validateName` |
| ClientServer.SelectorSplitsNameRule | BACKEND/src/middlewares/validation.middleware.js:7-8 | the client counts U+FE0F and the server does not: "a" followed by it passes `validateName` and fails the server's name rule |
| ValidationMiddleware.AcceptedTextResumeIsStored | BACKEND/src/middlewares/validation.middleware.js:30-33 | a body that passes validation always makes a record the schema accepts |
| ValidationMiddleware.ResumeTextIgnoresPadding | BACKEND/src/middlewares/validation.middleware.js:31-32 | padding title and content with white space does not change the verdict |
| ClientServer.FormContentCanBeRefused | BACKEND/src/middlewares/validation.middleware.js:32 | a ten-character content that the form accepts can be refused by the server after trimming |
| Validators.NoSpaceSlice | FRONTEND/src/utils/validators.js:4 | a slice of space-free text is space-free |
| Validators.MatchesEmailPattern | FRONTEND/src/utils/validators.js:4 | `^[^\s@]+@[^\s@]+\.[^\s@]+$` in the pattern's own shape: a part, `@`, a part, `.`, a part, each non-empty and free of white space and `@` |
| Validators.ValidateEmail | FRONTEND/src/utils/validators.js:3-6 | `validateEmail` decided in one pass: no white space, a non-empty part before the only `@`, and a `.` after it that is neither first nor last |
| Validators.EmailFromCheck | FRONTEND/src/utils/validators.js:3-6 | text accepted by the character check matches the e-mail pattern |
| Validators.EmailToCheck | FRONTEND/src/utils/validators.js:3-6 | text matching the pattern is accepted by the character check |
| Validators.ValidateEmailIsPattern | FRONTEND/src/utils/validators.js:3-6 | `validateEmail` holds exactly when `^[^\s@]+@[^\s@]+\.[^\s@]+$` matches |
| Validators.EmailHasOneAt | FRONTEND/src/utils/validators.js:4 | an accepted e-mail has exactly one `@` |
| Validators.ValidatePassword | FRONTEND/src/utils/validators.js:9-11 | `validatePassword`: present and 8-50 characters |
| Validators.ValidateName | FRONTEND/src/utils/validators.js:14-16 | `validateName`: present and 2-30 characters once trimmed |
| Validators.ValidateRequired | FRONTEND/src/utils/validators.js:19-21 | `validateRequired`: present and non-empty once trimmed |
| Validators.ValidateRequiredIsVisible | FRONTEND/src/utils/validators.js:19-21 | a value is accepted exactly when it has a character that is not white space |
| Validators.ValidateNameIgnoresPadding | FRONTEND/src/utils/validators.js:14-16 | padding a name with white space does not change the verdict |
| Validators.CheckField | FRONTEND/src/utils/validators.js:34-96 | a value passes exactly when it is non-empty, within the rule's length bounds, matches the rule's pattern and equals the value it must equal; an empty value reports the rule's required message |
| Validators.PasswordRuleIsValidatePassword | FRONTEND/src/utils/validators.js:52-56 | the password rule passes exactly when `validatePassword` holds |
| Validators.EmailRuleIsValidateEmail | FRONTEND/src/utils/validators.js:45-51 | the e-mail rule passes exactly when `validateEmail` holds |
| Validators.ConfirmPasswordPasses | FRONTEND/src/utils/validators.js:57-60 | confirmation passes exactly when the value is non-empty and equals the password; otherwise "Passwords do not match" |
| Validators.NameRuleCountsPadding | FRONTEND/src/utils/validators.js:35-39 | the form rule counts padding that `validateName` trims away |
| Validators.LongValueReportsMaximum | FRONTEND/src/utils/validators.js:52-56 | a password over 50 characters reports the maximum message |
| Formatters.FirstChar | FRONTEND/src/utils/formatters.js:57 | `charAt(0)` is empty for empty text and is otherwise the first character |
| Formatters.GetInitials | FRONTEND/src/utils/formatters.js:53-58 | "U" without a name; otherwise the upper-cased first characters of the first and last names |
| Formatters.InitialsOfBothNames | FRONTEND/src/utils/formatters.js:53-58 | with both names given, two upper-cased initials |
| Formatters.EmptyNamesGiveNothing | FRONTEND/src/utils/formatters.js:56-57 | a name object with both parts empty gives empty initials, not "U" |
| Formatters.TruncateText | FRONTEND/src/utils/formatters.js:61-64 | short or empty text is unchanged; otherwise the first `maxLength` characters with their leading and trailing white space removed, followed by "..." |
| Formatters.TruncateTextIsDetermined | FRONTEND/src/utils/formatters.js:61-64 | any split of the cut text into padding, a trimmed piece and padding names exactly the piece `truncateText` keeps |
| Formatters.TrimIsPiece | FRONTEND/src/utils/formatters.js:63 | the trimmed text is a contiguous piece of the text with only white space before and after it |
| Formatters.TruncateDefault | FRONTEND/src/utils/formatters.js:61-64 | `truncateText` with the default of 150; a long text becomes at most 153 characters ending in "..." |
| Formatters.ValidateFileType | FRONTEND/src/utils/formatters.js:67-69 | a file passes exactly when its type is one of the allowed types |
| Formatters.ValidateFileSize | FRONTEND/src/utils/formatters.js:72-74 | a file passes exactly when its size is at most the limit |
| Formatters.ResumeFileChecks | FRONTEND/src/utils/constants.js:27-32 | a resume file passes exactly when its type is PDF or DOCX and it is at most 5 MB |
| ClientServer.ClientTypesAreServerTypes | FRONTEND/src/utils/formatters.js:67-69 | a readable upload passes the client's type check exactly when the server does not refuse its type |
| DocList.IdOf | FRONTEND/src/redux/slices/resumesSlice.js:40 | `selected?._id` is the selected record's id, or `undefined` when nothing is selected |
| DocList.FindIndex | FRONTEND/src/redux/slices/resumesSlice.js:36 | -1 exactly when no record has the id; otherwise the first position holding it |
| DocList.ReplaceFirst | FRONTEND/src/redux/slices/resumesSlice.js:36-39 | the replacement keeps the list's length |
| DocList.ReplaceFirstOnlyFirst | FRONTEND/src/redux/slices/resumesSlice.js:36-39 | the first record with the id becomes the payload; a later one with the same id is kept |
| DocList.ReplaceFirstKeepsOthers | FRONTEND/src/redux/slices/resumesSlice.js:36-39 | records with other ids are never touched |
| DocList.ReplaceFirstStores | FRONTEND/src/redux/slices/resumesSlice.js:36-39 | the payload is stored when some record has its id; otherwise the list is unchanged |
| DocList.WithoutId | FRONTEND/src/redux/slices/resumesSlice.js:45 | no kept record has the id, every kept record comes from the list, and every record with another id is kept |
| DocList.WithoutIdKeepsOrder | FRONTEND/src/redux/slices/resumesSlice.js:45 | the kept records keep their order |
| DocList.WithoutAbsentId | FRONTEND/src/redux/slices/notesSlice.js:47 | filtering out an id that no record carries changes nothing |
| DocList.WithoutPresentIdShrinks | FRONTEND/src/redux/slices/resumesSlice.js:45 | filtering out a present id shortens the list |
| DocList.WithoutUniqueIdRemovesOne | FRONTEND/src/redux/slices/notesSlice.js:47-48 | with unique ids, filtering out a present id removes exactly one record |
| DocList.Synced | FRONTEND/src/redux/slices/resumesSlice.js:40-42 | the selection becomes the payload exactly when their ids agree, and is otherwise kept |
| DocList.Cleared | FRONTEND/src/redux/slices/resumesSlice.js:46-48 | the selection is cleared exactly when it has the id, and is otherwise kept |
| DocList.UpdateKeepsSelectionListed | FRONTEND/src/redux/slices/resumesSlice.js:35-43 | when the payload has an id, an update keeps a listed selection in the list |
| DocList.UpdateWithoutIdSelects | FRONTEND/src/redux/slices/resumesSlice.js:40-42 | a payload without `_id` becomes the selection when nothing is selected, even though it is not in the list |
| DocList.DeleteKeepsSelectionListed | FRONTEND/src/redux/slices/resumesSlice.js:44-49 | a deletion keeps a listed selection listed or clears it |
| DocList.AddKeepsSelectionListed | FRONTEND/src/redux/slices/resumesSlice.js:32-34 | prepending keeps a listed selection listed |
| DocList.Spread | FRONTEND/src/redux/slices/jobsSlice.js:48-50 | the merged filters have the keys of both; the payload's values win, and the others are kept |
| DocList.SpreadIdempotent | FRONTEND/src/redux/slices/jobsSlice.js:48-50 | merging the same payload twice gives what merging once gave |
| DocList.MergePagination | FRONTEND/src/redux/slices/notesSlice.js:59-61 | each pagination key the payload gives overwrites, and the rest are kept |
| DocList.MergePaginationIsSpread | FRONTEND/src/redux/slices/notesSlice.js:59-61 | the merge is the object spread of the payload's keys over the pagination object |
| DocList.MergePaginationIdempotent | FRONTEND/src/redux/slices/notesSlice.js:59-61 | merging twice gives what merging once gave, and an empty payload changes nothing |
| ResumesSlice.ResumesState.constructor | FRONTEND/src/redux/slices/resumesSlice.js:5-13 | the initial state |
| ResumesSlice.ResumesState.SetResumes | FRONTEND/src/redux/slices/resumesSlice.js:28-31 | the list is replaced and loading ends; nothing else changes |
| ResumesSlice.ResumesState.AddResume | FRONTEND/src/redux/slices/resumesSlice.js:32-34 | the payload is at index 0 and the old list follows, shifted by one; a listed selection stays listed |
| ResumesSlice.ResumesState.UpdateResume | FRONTEND/src/redux/slices/resumesSlice.js:35-43 | only the first record with the id is replaced, and a selection with that id becomes the payload |
| ResumesSlice.ResumesState.DeleteResume | FRONTEND/src/redux/slices/resumesSlice.js:44-49 | every record with the id is removed, the others keep their order, and a matching selection is cleared |
| ResumesSlice.ResumesState.SetError | FRONTEND/src/redux/slices/resumesSlice.js:56-61 | the error is set and loading, analyzing and optimizing are all false |
| ResumesSlice.ResumesState.ClearError | FRONTEND/src/redux/slices/resumesSlice.js:62-64 | only the error changes |
| JobsSlice.JobsState.constructor | FRONTEND/src/redux/slices/jobsSlice.js:4-13 | the initial state, with empty status and search filters |
| JobsSlice.JobsState.SetJobs | FRONTEND/src/redux/slices/jobsSlice.js:22-26 | the list is replaced, and loading and the error are cleared |
| JobsSlice.JobsState.AddJob | FRONTEND/src/redux/slices/jobsSlice.js:27-29 | the payload is prepended |
| JobsSlice.JobsState.UpdateJob | FRONTEND/src/redux/slices/jobsSlice.js:30-38 | only the first job with the id is replaced, and a matching selection becomes the payload |
| JobsSlice.JobsState.DeleteJob | FRONTEND/src/redux/slices/jobsSlice.js:39-44 | every job with the id is removed in order, and a matching selection is cleared |
| JobsSlice.JobsState.SetFilters | FRONTEND/src/redux/slices/jobsSlice.js:48-50 | exactly the payload's keys are overwritten and the other filters are kept |
| JobsSlice.JobsState.SetError | FRONTEND/src/redux/slices/jobsSlice.js:51-54 | the error is set and loading ends |
| NotesSlice.TotalFor | FRONTEND/src/redux/slices/notesSlice.js:30 | the total is the count, or the page length when the count is absent or 0 |
| NotesSlice.NotesState.constructor | FRONTEND/src/redux/slices/notesSlice.js:5-19 | the initial state, page 1 of 10 with total 0 |
| NotesSlice.NotesState.SetNotes | FRONTEND/src/redux/slices/notesSlice.js:28-32 | the list is replaced, the total is set from the payload, and loading ends |
| NotesSlice.NotesState.AddNote | FRONTEND/src/redux/slices/notesSlice.js:33-36 | the payload is prepended and the total grows by exactly one |
| NotesSlice.NotesState.UpdateNote | FRONTEND/src/redux/slices/notesSlice.js:37-45 | only the first note with the id is replaced, and a matching selection becomes the payload |
| NotesSlice.NotesState.DeleteNote | FRONTEND/src/redux/slices/notesSlice.js:46-52 | the id is filtered out and the total drops by one even when nothing was removed; with unique ids and the id present, the total still counts the notes |
| NotesSlice.NotesState.SetFilters | FRONTEND/src/redux/slices/notesSlice.js:56-58 | the payload's keys are merged in and the others kept |
| NotesSlice.NotesState.SetPagination | FRONTEND/src/redux/slices/notesSlice.js:59-61 | the payload's keys are merged in and the others kept |
| NotesSlice.NotesState.SetError | FRONTEND/src/redux/slices/notesSlice.js:62-65 | the error is the payload and loading ends; the notes, selection, filters and pagination are unchanged |
| AdminSlice.MoveStatus | FRONTEND/src/redux/slices/adminSlice.js:43-49 | moves one count between active and inactive as the flag says; keeps their sum and the total |
| AdminSlice.MoveStatusUndo | FRONTEND/src/redux/slices/adminSlice.js:43-49 | a status change followed by the opposite one restores the counts |
| AdminSlice.AdminState.constructor | FRONTEND/src/redux/slices/adminSlice.js:5-20 | the initial state, page 1 of 20 with zero counts |
| AdminSlice.AdminState.SetUsers | FRONTEND/src/redux/slices/adminSlice.js:29-33 | the list and total are taken from the payload, and loading ends |
| AdminSlice.AdminState.UpdateUserStatus | FRONTEND/src/redux/slices/adminSlice.js:37-50 | the first matching user is replaced, and a count moves by the payload's `isActive` even when no user matched; the sum is kept |
| AdminSlice.AdminState.RemoveUser | FRONTEND/src/redux/slices/adminSlice.js:51-55 | the id is filtered out and both the list total and the user total drop by one |
| AdminSlice.AdminState.SetSearch | FRONTEND/src/redux/slices/adminSlice.js:56-58 | only the search changes |
| AdminSlice.AdminState.SetError | FRONTEND/src/redux/slices/adminSlice.js:62-65 | the error is set and loading ends |
| AuthSlice.SavedToken | FRONTEND/src/redux/slices/authSlice.js:7 | the saved token is used exactly when it is present and non-empty |
| AuthSlice.AuthState.constructor | FRONTEND/src/redux/slices/authSlice.js:5-11 | signed in exactly when a non-empty token was saved |
| AuthSlice.AuthState.LoginStart | FRONTEND/src/redux/slices/authSlice.js:17-20 | loading starts, the error is cleared, and the session is untouched |
| AuthSlice.AuthState.LoginSuccess | FRONTEND/src/redux/slices/authSlice.js:21-28 | signed in with the payload's user and token; loading ends and the error is cleared |
| AuthSlice.AuthState.LoginFailure | FRONTEND/src/redux/slices/authSlice.js:29-36 | signed out with no user or token, and the payload is the error |
| AuthSlice.AuthState.Logout | FRONTEND/src/redux/slices/authSlice.js:37-44 | user, token and error are null; not signed in and not loading |
| AuthSlice.AuthState.SetUser | FRONTEND/src/redux/slices/authSlice.js:45-48 | the user is set and the client counts as signed in; the token is untouched |
| AuthSlice.AuthState.ClearError | FRONTEND/src/redux/slices/authSlice.js:49-51 | only the error changes |
| ThemeSlice.InitialMode | FRONTEND/src/redux/slices/themeSlice.js:5-8 | dark when nothing, or an empty string, is saved; otherwise the saved mode |
| ThemeSlice.Toggled | FRONTEND/src/redux/slices/themeSlice.js:19 | light exactly from dark, and dark from any other mode |
| ThemeSlice.ToggleTwice | FRONTEND/src/redux/slices/themeSlice.js:18-22 | toggling twice from dark or light restores the mode |
| ThemeSlice.ToggleTwiceFromOther | FRONTEND/src/redux/slices/themeSlice.js:18-22 | from any other mode two toggles end in light |
| ThemeSlice.ThemeState.constructor | FRONTEND/src/redux/slices/themeSlice.js:10-12 | the mode starts as the initial mode |
| ThemeSlice.ThemeState.ToggleTheme | FRONTEND/src/redux/slices/themeSlice.js:18-22 | the mode moves to its toggled value, always dark or light |
| ThemeSlice.ThemeState.SetTheme | FRONTEND/src/redux/slices/themeSlice.js:23-27 | the mode is exactly the payload |

## Left out

- SHA-256 is an injected function of the normalised text. Collisions are not modelled.
- The Gemini client is not modelled, nor is the prompt text. The reply is an input (`Completion`).
- `JSON.parse` is an injected function, and so are `isEmail`, `normalizeEmail` and `isURL` of express-validator.
- `extractStructuredJSON` (ai.service.js:224-287) is not modelled beyond its fallback, `getFallbackJSON`.
- AiService.StripMarkup does not promise that no fence is left. The removal of `**` can join backticks into a new fence, and `StripMarkupCanLeaveFence` exhibits the input.
- The fallback scan's regular expressions are injected matchers, not implementations:
  - `[\w.-]+@[\w.-]+\.\w+` for the e-mail;
  - the phone pattern with `\d{3}`.

  The company-word and heading patterns are modelled in full.
- Case mapping is ASCII only: `toLowerCase`/`toUpperCase` leave other characters unchanged.
- Lengths count characters (code points), not UTF-16 code units. The server's `isLength` measures code points less the presentation selectors U+FE0E and U+FE0F, and the model follows it (`IsLengthCount`). The client's `.length` counts UTF-16 code units, which the model reads as characters.
- ClientServer.PasswordRuleAgrees and ClientServer.NameRuleAgrees state the agreement only for values without presentation selectors, because the client counts them and the server does not (`SelectorSplitsNameRule`).
- AiService.Optimize compares `length < content.length * 0.4` in exact rational arithmetic, not floating point.
- The `matchScore || 0` default does not model `NaN`.
- HTTP status codes and response envelopes collapse into outcome datatypes. A refused validator chain becomes the `Invalid` or `Rejected` outcome; the `errors` list that the 400 answer carries is not modelled.
- ResumeController.ResumeStore.Analyze models the schema's `[String]` cast only as accept or refuse (`EntryCasts`). An accepted entry keeps the JSON values the analysis gave: the model does not turn numbers and booleans into their text, and does not wrap a list-less value into a one-element array, as the cast does when it stores them. A `jobTitle` that is not a string is not modelled.
- `getResumes` (resume.controller.js:131-138) is a projection query with no logic of its own.
- The `extractedLinks` and `structuredData` fields, and the `createdAt`/`updatedAt` timestamps the schema fills in, are left out. The analysis entry's time is the `now` parameter.
- Mongoose's casting of ids and the secondary indexes are left out.
- The check-then-create race between two concurrent duplicate uploads is out of scope for this sequential model.
- The temporary-file cleanup after an upload is left out.
- `generateResumeHTML` is modelled only through its three helpers; the HTML template body is markup.
- ResumeTemplate.GetPath reads arrays and strings only through `length`. Index access such as `a.0` on an array reads as `undefined` in the model.
- `new URL` is not modelled, so `validateURL` is left out.
- `formatFileSize`, `formatDate` and `formatRelativeTime` use floating-point logarithms, wall-clock time and locales, and are left out.
- Js.GreaterThanZero reads a numeric string as an exact decimal, so a literal whose value underflows to 0 in floating point (such as "1e-400") counts as positive. An object whose own `valueOf` or `toString` makes the comparison throw is not modelled; objects convert to `NaN`.
- ResumeController.FindOwned and ResumeController.FindDuplicate read MongoDB's natural order for `findOne` as insertion order, which the database does not promise.
- Validators.CheckField assumes that react-hook-form checks `required`, `maxLength`, `minLength`, `pattern` and `validate` in that order and reports the first failure.
- The slices' `localStorage` and `document` writes are left out. The saved values are constructor inputs.
- The single-field setters are left out because they only assign their payload: `setLoading`, `setAnalyzing`, `setOptimizing`, `setSelected*`, `setCurrentAnalysis` and `setStats`. The same holds for the admin slice's `setPagination` and `clearError` and the jobs and notes slices' `clearError`.
- Redux payloads are typed by what the reducers read:
  - a record's `_id` is a string or absent;
  - `setNotes`'s count is an integer or absent (`NaN` is not modelled);
  - `setUsers`'s count is an integer;
  - a `setPagination` payload gives only `page`, `limit` or `total`.
- In notes and admin, `total += 1` on a non-number is not modelled.
- AuthSlice.AuthState.constructor conflates a missing and a `null` token.
- The client-side filter lambdas inside the list pages are left out.
