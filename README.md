# GDC compliance analyser: a Dafny model of its core

The application lets a user upload programme reports (plain text,
Markdown or PDF) about dental education. It sends them for analysis
against the General Dental Council's standards. It shows two report
cards with a read-aloud button each, or a targeted guideline report for
one selected programme, and it opens a chat about the report. A
guideline report can be exported as a PDF.

This project models the deterministic part of that core:

- `DocumentProcessor` (`utils/documentProcessor.ts`):
  - `preprocessDocument`: white-space collapsing and truncation to 10000
    characters with the `... [document truncated]` marker;
  - `processInBatches`, as a loop over fixed-size chunks. The processor is
    a function `T -> Option<R>`, where `None` is a rejected promise. The
    loop returns the fulfilled values together with a trace of
    invocations, `allSettled` barriers and pauses.
- `PdfUtils` (`pdfUtils.ts`):
  - the jsPDF document as a class holding its page count, current page and
    the drawing operations issued so far;
  - the Markdown-subset line renderer and its page-break check;
  - the header and the four sections of the guideline report;
  - the footer pass and the sanitised file name.

  The text-wrapping call `splitTextToSize` is a parameter that gives the
  number of wrapped lines for a text, a width and the font in force
  (16 bold for headings, 11 normal for bullets and body lines). The page
  size and the year are parameters.
  Each method is proved equal to a layout function. The layout functions
  carry the properties: page breaks, cursor advances, ops only appended,
  pages in order, footers.
- `App` (`App.tsx`):
  - the `App` component's state slots as the fields of class `Session`,
    with one method per handler: upload, remove, clear all, select,
    analyse, generate, send a chat message, and the read-aloud status part
    of `playAudio`;
  - the two helpers `extractTextFromPdf` and `readFileContent`.

  Remote calls (`analyzeDocuments`, `generateSpecificGuidelines`,
  `createChatSession`, `chat.sendMessage`, `generateSpeech`) are
  parameters that succeed or throw.
- `FileUpload` (`components/FileUpload.tsx`): the accept/reject partition
  of `handleFiles`, the callback and the error message.
- `ChatAssistant` (`components/ChatAssistant.tsx`): the submit guard, the
  Enter-key handler and the Send button's disable rule.
- Shared modules:
  - `Text`: JavaScript's `\s` class, `trim`, `split('\n')`, `join` and
    number rendering;
  - `Lists`: `filter` and `map`;
  - `Types`: the records of `types.ts` and the browser `File`;
  - `Common`: `Option`, and an outcome that either succeeds or throws.

## Model

| member | source | states |
|---|---|---|
| DocumentProcessor.CollapseWhitespace | utils/documentProcessor.ts:8 | the collapsed text is no longer than the input, is empty exactly when the input is, and starts with a space when the input starts with white space |
| DocumentProcessor.CollapseNormalises | utils/documentProcessor.ts:8 | after collapsing, every white-space character is a plain space and no two white-space characters are adjacent (so no newline or tab survives) |
| DocumentProcessor.CollapseKeepsText | utils/documentProcessor.ts:8 | collapsing keeps every non-white-space character, in order |
| DocumentProcessor.CollapseFixpoint | utils/documentProcessor.ts:8 | a text that is already collapsed is left unchanged |
| DocumentProcessor.CollapseIdempotent | utils/documentProcessor.ts:8 | collapsing twice is collapsing once |
| DocumentProcessor.CollapseAllSpace | utils/documentProcessor.ts:8 | a non-empty run made only of white space becomes exactly one space, never nothing |
| DocumentProcessor.CollapseConcat | utils/documentProcessor.ts:8 | collapsing a text cut outside a white-space run is collapsing each piece and joining them; with CollapseAllSpace, each maximal run becomes one space and the text between runs is kept |
| DocumentProcessor.CollapsedConcat | utils/documentProcessor.ts:8 | two collapsed texts joined without white space on both sides of the seam are collapsed |
| DocumentProcessor.PreprocessDocument | utils/documentProcessor.ts:2-19 | the empty document gives the empty string, and the output is at most 10000 plus the marker's length (10024) |
| DocumentProcessor.PreprocessCases | utils/documentProcessor.ts:14-18 | a collapsed text of at most 10000 characters is returned as is; a longer one becomes its first 10000 characters followed by `... [document truncated]` |
| DocumentProcessor.MarkerCollapsed | utils/documentProcessor.ts:15 | the truncation marker is itself collapsed and starts with a non-space |
| DocumentProcessor.PreprocessCollapsed | utils/documentProcessor.ts:2-19 | the preprocessed text is collapsed, truncated or not |
| DocumentProcessor.PreprocessIdempotent | utils/documentProcessor.ts:2-19 | preprocessing an already preprocessed document changes nothing |
| DocumentProcessor.Chunks | utils/documentProcessor.ts:53-54 | every chunk is non-empty and holds at most `batchSize` items |
| DocumentProcessor.ChunksConcat | utils/documentProcessor.ts:53-54 | the chunks, concatenated in order, are exactly the items |
| DocumentProcessor.ChunksCount | utils/documentProcessor.ts:53 | there are ceil(M/N) chunks |
| DocumentProcessor.ChunkAt | utils/documentProcessor.ts:53-54 | chunk k is `items[k*N .. min((k+1)*N, M)]` |
| DocumentProcessor.ChunkAtOffset | utils/documentProcessor.ts:53-54 | chunk k starts at the loop index after k steps of `i += batchSize` and ends at `min(i + batchSize, M)` |
| DocumentProcessor.FulfilledAppend | utils/documentProcessor.ts:59-63 | the fulfilled values of two runs of outcomes are those of the first followed by those of the second |
| DocumentProcessor.FulfilledBounds | utils/documentProcessor.ts:59-63 | there are no more results than items, and every result is the value of some fulfilled outcome |
| DocumentProcessor.FulfilledAllRejected | utils/documentProcessor.ts:59-63 | a chunk whose items all fail contributes no result |
| DocumentProcessor.FulfilledAllSucceeded | utils/documentProcessor.ts:59-63 | when every item succeeds there is one result per item |
| DocumentProcessor.Invocations | utils/documentProcessor.ts:55 | a chunk's invocations are one per item, in chunk order |
| DocumentProcessor.SettleChunk | utils/documentProcessor.ts:54-57 | settling a chunk invokes the processor once per item in order and yields its outcome list |
| DocumentProcessor.KeepFulfilled | utils/documentProcessor.ts:59-63 | the `forEach` keeps exactly the fulfilled values in outcome order |
| DocumentProcessor.ProcessInBatches | utils/documentProcessor.ts:45-72 | the results are the fulfilled outcomes of all items in input order; the trace is the chunk-by-chunk trace (invocations, barrier, a pause only when items remain); empty input gives no calls, no pause and no results |
| DocumentProcessor.ProgressStep | utils/documentProcessor.ts:53-69 | one pass of the loop body keeps the loop invariant: chunks done so far, results of the prefix, trace so far |
| DocumentProcessor.ProgressDone | utils/documentProcessor.ts:53-71 | when the loop ends the invariant gives the method's postcondition |
| DocumentProcessor.ChunksStep | utils/documentProcessor.ts:53-54 | the slice taken at index i is the next chunk |
| DocumentProcessor.OutcomesStep | utils/documentProcessor.ts:59-63 | the results of a prefix extend by those of the next slice |
| DocumentProcessor.CountsAppend | utils/documentProcessor.ts:55-68 | invocations, pauses and barriers of two traces add up |
| DocumentProcessor.InvocationsCounts | utils/documentProcessor.ts:55 | a chunk's invocations invoke exactly its items, with no pause or barrier |
| DocumentProcessor.ChunkStepsCounts | utils/documentProcessor.ts:55-57 | a chunk's steps invoke its items and hold exactly one barrier and no pause |
| DocumentProcessor.ConcatEndIsConcat | utils/documentProcessor.ts:53-54 | concatenating from the right equals concatenating from the left |
| DocumentProcessor.BatchTraceCounts | utils/documentProcessor.ts:53-69 | over a list of chunks the trace invokes their concatenation, holds one barrier per chunk and one pause fewer than chunks |
| DocumentProcessor.PausesBetweenChunks | utils/documentProcessor.ts:66-68 | every pause comes right after a barrier and right before an invocation, so never first and never last |
| DocumentProcessor.LastStepIsBarrier | utils/documentProcessor.ts:57-68 | a non-empty run ends with the last chunk's barrier, not with a pause |
| DocumentProcessor.BatchRunProperties | utils/documentProcessor.ts:45-72 | each item is invoked exactly once in input order; ceil(M/N) barriers; ceil(M/N)-1 pauses (none for empty input); no more results than items |
| DocumentProcessor.ResultsByChunk | utils/documentProcessor.ts:53-69 | the results are the per-chunk results concatenated in chunk order |
| PdfUtils.PdfDocument.constructor | pdfUtils.ts:47 | a new document has one page, is on page 1 and has drawn nothing |
| PdfUtils.PdfDocument.AddPage | pdfUtils.ts:14 | adds one page and moves to it; nothing drawn changes |
| PdfUtils.PdfDocument.SetPage | pdfUtils.ts:99 | moves to an existing page; page count and drawing unchanged |
| PdfUtils.PdfDocument.Text | pdfUtils.ts:23 | appends one text op on the current page |
| PdfUtils.PdfDocument.DrawLine | pdfUtils.ts:83 | appends one line op on the current page |
| PdfUtils.PdfDocument.TextCentered | pdfUtils.ts:64 | appends one centred text op on the current page |
| PdfUtils.Classify | pdfUtils.ts:18-40 | each trimmed line is exactly one of heading (`# `), bullet (`* ` or `- `, not a heading), body (non-empty, none of those) or blank (empty), with the two-character marker removed from heading and bullet text |
| PdfUtils.ClassifyExamples | pdfUtils.ts:19-32 | `## Scope`, `#Scope` and `• item` render as body text; `- item` is a bullet |
| PdfUtils.BlankIffAllSpace | pdfUtils.ts:32-39 | a source line renders as blank exactly when it is all white space |
| PdfUtils.LineKinds | pdfUtils.ts:8-18 | one kind per source line, classified after trimming |
| PdfUtils.RenderLineBreak | pdfUtils.ts:12-40 | before each line a page is added (and y set to 20) exactly when y > height - 20; then y advances by 7k+4 (heading), 5k+2 (bullet, body) or 5 (blank), where k is the wrapped line count at 16 bold for a heading and 11 normal otherwise |
| PdfUtils.BulletPlacement | pdfUtils.ts:28-30 | a bullet draws its glyph at `startX` and its text at `startX + 5`, wrapped to `contentWidth - 5` |
| PdfUtils.RenderAppends | pdfUtils.ts:12-41 | rendering only appends to what was drawn |
| PdfUtils.RenderPageBound | pdfUtils.ts:12-16 | rendering adds at most one page per source line |
| PdfUtils.RenderOnLastPage | pdfUtils.ts:12-41 | rendering stays on the last page and keeps ops in page order |
| PdfUtils.AppendOnPage | pdfUtils.ts:23-36 | ops drawn on the current page keep the ops in page order |
| PdfUtils.RenderWithinMargin | pdfUtils.ts:12-16 | every op the renderer draws is at y <= height - 20 or at the top margin 20 |
| PdfUtils.BreakIfPast | pdfUtils.ts:13-16 | the page-break step on the document matches its layout function |
| PdfUtils.DrawTrimmedLine | pdfUtils.ts:18-40 | the document after one trimmed line's if/else chain is the line's layout |
| PdfUtils.RenderSourceLine | pdfUtils.ts:12-40 | one pass of the loop body is the layout of one line |
| PdfUtils.RenderMarkdownToPdf | pdfUtils.ts:6-43 | the renderer's final document and returned cursor are the layout of the split, trimmed and classified lines |
| PdfUtils.Sections | pdfUtils.ts:89-92 | the report has four sections, in a fixed order |
| PdfUtils.FirstSectionStart | pdfUtils.ts:52-89 | the first op after the header is the `Executive Summary` title at y = 70 on page 1, or at the top of page 2 when the page is too short |
| PdfUtils.SectionAppends | pdfUtils.ts:72-87 | a section appends to what was drawn, beginning with its title at the cursor left by the break check |
| PdfUtils.SectionBodyOps | pdfUtils.ts:85 | the section's body only appends to what its head drew |
| PdfUtils.SectionHeadOps | pdfUtils.ts:73-84 | a section head breaks when y > height - 40, then draws the title and the rule 7 below it, across the content width |
| PdfUtils.SectionsAppend | pdfUtils.ts:89-92 | later sections only append to what earlier sections drew |
| PdfUtils.SectionsOnLastPage | pdfUtils.ts:89-92 | sections keep the document on its last page with ops in page order |
| PdfUtils.SectionOnLastPage | pdfUtils.ts:72-87 | one section keeps the document on its last page with ops in page order |
| PdfUtils.HeadOnLastPage | pdfUtils.ts:73-83 | a section head keeps the document on its last page with ops in page order |
| PdfUtils.ReportOnLastPage | pdfUtils.ts:52-95 | after layout the document is on its last page (the count the footer pass reads) with ops in page order and the three header ops first |
| PdfUtils.FooterTail | pdfUtils.ts:100 | the text after the page number starts with a space |
| PdfUtils.FooterOpsAt | pdfUtils.ts:98-102 | page i (1..N) gets one centred footer 10 above the bottom reading `Page i of N \| Copyright © YEAR DentEdTeck` |
| PdfUtils.FooterTextsDistinct | pdfUtils.ts:100 | different pages get different footer texts |
| PdfUtils.FooterNumber | pdfUtils.ts:100 | two footers with the same tail name the same page number |
| PdfUtils.RenderSectionHead | pdfUtils.ts:73-84 | the section head on the document matches its layout |
| PdfUtils.RenderSection | pdfUtils.ts:72-87 | `renderSection` on the document matches the section layout, cursor included |
| PdfUtils.StampFooters | pdfUtils.ts:95-102 | the footer pass keeps the page count, appends exactly the footer ops and ends on the last page |
| PdfUtils.RenderHeader | pdfUtils.ts:52-69 | the header draws `DentEdTeck`, the centred title and the programme line, and leaves y at 70 |
| PdfUtils.RenderSections | pdfUtils.ts:89-92 | the four `renderSection` calls match the sections layout |
| PdfUtils.GeneratePdf | pdfUtils.ts:46-105 | the final document is the report layout followed by the footer pass over its page count, and the file name is the sanitised report name |
| PdfUtils.SanitizeLength | pdfUtils.ts:104 | sanitising keeps the length, counted in UTF-16 code units as JavaScript does |
| PdfUtils.SanitizeSafe | pdfUtils.ts:104 | the sanitised name holds only `[A-Za-z0-9_]` |
| PdfUtils.SanitizeFixed | pdfUtils.ts:104 | a name is unchanged exactly when it already holds only `[A-Za-z0-9_]` |
| PdfUtils.SanitizeIdempotent | pdfUtils.ts:104 | sanitising twice is sanitising once |
| PdfUtils.SanitizeAt | pdfUtils.ts:104 | for a name without surrogate pairs, each character is kept if it is an ASCII letter or digit and becomes `_` otherwise |
| PdfUtils.ReportFileName | pdfUtils.ts:104 | the file name is `GDC_Report_` + the sanitised name + `.pdf`, of length 15 plus the name's UTF-16 length |
| PdfUtils.ReportFileNameSafe | pdfUtils.ts:104 | the file name holds only `[A-Za-z0-9_.]` |
| App.ExtractTextFromPdf | App.tsx:20-31 | the loop's text is, for each page in order, its items' `str` joined by a space (an item without `str` counts as empty) followed by a blank line |
| App.PdfTextAppend | App.tsx:24-29 | the text of two runs of pages is the text of the first followed by the text of the second |
| App.PdfTextSplit | App.tsx:24-29 | the text of the pages splits at any page boundary |
| App.PdfTextPrefix | App.tsx:24-29 | one more page appends its text and a blank line |
| App.PdfTextAround | App.tsx:24-29 | each page's text sits between the earlier pages' text and a blank line |
| App.PdfTextContainsRuns | App.tsx:27-28 | every text run of every page occurs in the extracted text |
| App.PdfTextEndsWithBlankLine | App.tsx:28 | a document with pages ends its text with `\n\n` |
| App.ReadFileContent | App.tsx:97-102 | a file whose type is `application/pdf` is read through text extraction (its failure propagates); any other file through `file.text()` |
| App.ReadAllSpec | App.tsx:118-119 | reading all files succeeds exactly when each read does, giving one text per file in order; otherwise it fails with an error of some file whose predecessors all succeeded |
| App.WithoutNameMembers | App.tsx:153 | dropping a name keeps exactly the files with another name |
| App.MergeUploadsMembers | App.tsx:70-74 | the old list is an unchanged prefix, and the appended files are exactly the incoming ones whose name is not in the old list |
| App.MergeUploadsTwice | App.tsx:70-74 | uploading the same files again changes nothing |
| App.NoneNew | App.tsx:72 | a batch whose names are all present adds nothing |
| App.MergeUploadsKeepsBatchDuplicates | App.tsx:72-73 | two files of the same name in one batch are both kept |
| App.MergeUploadsUnique | App.tsx:70-74 | uploading keeps names unique when the old list and the batch each have unique names |
| App.FilterUnique | App.tsx:72 | filtering keeps names unique |
| App.AnalysisContextHolds | App.tsx:126 | the analysis chat context starts with the `## Best Practice Recommendations` heading and contains both result fields |
| App.AnalyzeRunOutcome | App.tsx:117-136 | a run ends with no error exactly when every read, the analysis and the chat creation succeed; then the result is shown with one greeting and a chat on the `##` context; with no result there is an error and no chat or history; never a guideline report |
| App.GenerateRunOutcome | App.tsx:151-173 | a run ends with no error exactly when reading the target, reading the other files, generating and creating the chat all succeed; then the generator's report is shown with one greeting and a chat on its `##` context; with no report there is an error and no chat or history; never an analysis |
| App.AnalyzeAttempt | App.tsx:117-132 | the attempt's result is the analysis run, and the analysis is asked for with the texts of all files exactly when all reads succeed |
| App.GenerateAttempt | App.tsx:151-169 | the generation is asked for exactly when the target and the other files were read; its inputs are the target's text, the texts of the files with another name and the target's name |
| App.AfterSendTranscript | App.tsx:176-193 | a send grows the history by exactly two, keeping the old one as prefix: the user's message, then the reply or the fixed apology |
| App.SendKeepsConsistent | App.tsx:176-193 | a send keeps the session's report, chat and history consistent |
| App.WithStatus | App.tsx:204-224 | setting one card's status leaves the other card's unchanged |
| App.StartPlaybackState | App.tsx:204-206 | starting playback leaves the target loading and the other card idle |
| App.StaleCompletionBreaksExclusivity | App.tsx:195-226 | as written, a first completion that arrives after the other card started marks its card playing while the other is loading |
| App.PlaybackKeepsExclusivity | App.tsx:204-224 | with completions applied only to a loading card, start, completion and end keep at most one card busy; a completion sets playing or error by outcome |
| App.Session.constructor | App.tsx:35-52 | the initial state: no files, no selection, no results, no error, no chat, both cards idle |
| App.Session.ResetChat | App.tsx:64-67 | clears the chat and the history and nothing else |
| App.Session.FilesUploaded | App.tsx:69-79 | the files become the merged list; results, error and chat are reset; the selection is kept |
| App.Session.RemoveFile | App.tsx:81-86 | every file with that name is dropped; the selection is cleared only when it has that name; results and chat stay |
| App.Session.ClearAll | App.tsx:88-95 | no files, no selection, and results, error and chat reset |
| App.Session.SelectFile | App.tsx:294 | a listed file becomes the selection; nothing else changes |
| App.Session.ShowRun | App.tsx:111-132 | the shown results, error, chat and history become the run's, nothing else |
| App.Session.Analyze | App.tsx:104-137 | with no files only the error is set; otherwise the state shown is the analysis run, loading ends false and the progress message null |
| App.Session.GenerateSpecific | App.tsx:139-174 | with no selection only the error is set; otherwise the state shown is the guideline run on the selection, generating ends false and the progress message null |
| App.Session.SendMessage | App.tsx:176-193 | with no chat nothing changes; otherwise the history is the history after the send, and nothing else changes |
| App.Session.StartAudio | App.tsx:195-206 | without an audio context nothing changes; otherwise both cards go idle and the target loading |
| App.Session.FinishAudio | App.tsx:208-225 | the completion is applied to a card only while it is still loading |
| App.Session.AudioEnded | App.tsx:215-218 | the card that played returns to idle |
| FileUpload.Accepted | components/FileUpload.tsx:17-21 | every accepted file has type `text/plain` or `application/pdf` or a name ending in `.md` |
| FileUpload.Partition | components/FileUpload.tsx:17-22 | the rejected files are exactly the others; accepted and rejected together are a permutation of the selection |
| FileUpload.PartitionAppend | components/FileUpload.tsx:17-22 | both lists keep selection order |
| FileUpload.RejectionMessageNames | components/FileUpload.tsx:29-30 | the error message names every rejected file |
| FileUpload.DropZone.constructor | components/FileUpload.tsx:12 | no upload error at first |
| FileUpload.DropZone.HandleFiles | components/FileUpload.tsx:14-35 | no selection or an empty one does nothing; otherwise the accepted files are delivered when there are any, and the error names the rejected ones or is cleared |
| FileUpload.MixedSelection | components/FileUpload.tsx:24-31 | in a mixed selection the valid files are delivered and an error is reported |
| ChatAssistant.DisabledIffGuardFails | components/ChatAssistant.tsx:104 | the Send button is disabled exactly when the submit guard fails |
| ChatAssistant.BlankNeverSent | components/ChatAssistant.tsx:30 | a message is sent exactly when not loading and the input is not all white space |
| ChatAssistant.SentTextIsTrimmed | components/ChatAssistant.tsx:31 | the text sent is non-empty, starts and ends with a non-space, is its own trim and is no longer than the input |
| ChatAssistant.ChatInput.constructor | components/ChatAssistant.tsx:16 | the input starts empty |
| ChatAssistant.ChatInput.Change | components/ChatAssistant.tsx:95 | the input takes the typed value |
| ChatAssistant.ChatInput.Submit | components/ChatAssistant.tsx:28-34 | when the guard holds the trimmed input is sent and the input cleared; otherwise nothing is sent and the input is unchanged |
| ChatAssistant.ChatInput.KeyPress | components/ChatAssistant.tsx:36-41 | Enter without Shift submits; any other key, or Shift+Enter, sends nothing and keeps the input |
| Text.TrimShape | components/ChatAssistant.tsx:30-31 | `trim()` returns a contiguous piece of the input with only white space cut on either side |
| Text.TrimEnds | components/ChatAssistant.tsx:31 | a trimmed string is empty or starts and ends with a non-space |
| Text.TrimEmptyIffAllSpace | components/ChatAssistant.tsx:30 | `trim()` gives the empty string exactly for all-white-space input |
| Text.TrimIdempotent | pdfUtils.ts:18 | trimming twice is trimming once |
| Text.JoinSplitLines | pdfUtils.ts:8 | joining the lines of `split('\n')` with newlines gives back the text |
| Text.JoinContainsParts | components/FileUpload.tsx:29 | every part of a join occurs in the joined text |
| Text.ParseNatToString | pdfUtils.ts:100 | a number's decimal rendering parses back to the number |
| Text.NatToStringInjective | pdfUtils.ts:100 | different numbers render differently |
| Lists.FilterMembers | App.tsx:82 | an element is kept exactly when it is present and satisfies the predicate |
| Lists.FilterAppend | components/FileUpload.tsx:17-22 | filtering distributes over concatenation |
| Lists.FilterSplit | components/FileUpload.tsx:17-22 | filtering by a predicate and by its negation partitions the list as a multiset |
| Lists.FilterIdempotent | App.tsx:82 | filtering twice by the same predicate is filtering once |

## Left out

- The remote services (`analyzeDocuments`, `generateSpecificGuidelines`,
  `createChatSession`, `chat.sendMessage`, `generateSpeech`) are not part
  of this model. They are parameters that either return a value or throw.
- `extractKeySections` is not modelled. It uses regular expressions with
  lazy matching and lookahead, and `preprocessDocument` never reads its
  result.
- The jsPDF and pdf.js libraries are not modelled. Colours, line width,
  text measurement, real-valued page dimensions and `save` are left out.
  Font sizes and styles appear only as the font passed to the wrapping
  parameter; the drawing ops do not record them. Page dimensions are
  integers, and `splitTextToSize` is a parameter giving the number of
  wrapped lines.
  Pages come as lists of text items.
- Audio decoding, `AudioContext`, `resume`, `stop` and playback are
  browser APIs and are not modelled. Whether an audio context exists is a
  parameter of `App.Session.StartAudio`.
- The year in the footers is a parameter instead of
  `new Date().getFullYear()`.
- Concurrency and timers are modelled sequentially:
  - `Promise.allSettled`: the processor runs on every item of a chunk in
    order before the barrier;
  - `setTimeout`: the delay is a `Pause` step in the trace.
- App.Session.Analyze, App.Session.GenerateSpecific, App.Session.SendMessage:
  each handler is one atomic step, and every handler starts with nothing
  pending (`App.Session.Valid`). The intermediate states that React
  renders while an `await` is pending are not observable in the model:
  - the loading flags set to true;
  - the progress messages pushed by the service callbacks;
  - the history holding only the user message;
  - `isChatLoading`.

  So the model also leaves out the interleavings the page allows while a
  call is pending:
  - The analyse and generate buttons are disabled only while
    `isLoading || isGeneratingSpecific` (App.tsx:234), not while a chat
    reply is pending. A run can start during a send. The late reply then
    sets the history to the old transcript plus the reply
    (App.tsx:185, App.tsx:188). That overwrites the new run's greeting and
    pairs the old transcript with the new chat session.
  - The upload area disables its file input during a run, but its drop
    handler is still live (components/FileUpload.tsx:54-82). Files dropped
    during a run reach `handleFilesUploaded` and clear the results and the
    chat while the run is still pending.
- App.ReadAllSpec: `Promise.all` rejects with the first rejection in
  time. The model fails with the error of the first failing file in list
  order.
- DocumentProcessor.PreprocessDocument: the 10000-character budget counts
  Unicode scalar values, while JavaScript counts UTF-16 code units. They
  differ only for characters outside the Basic Multilingual Plane.
  Filename sanitising does count UTF-16 units (`Utf16Length`, and a
  supplementary character becomes `__`).
- DocumentProcessor.ProcessInBatches: the batch size is a natural number,
  and 0 is accepted only with an empty list. With items and a size of 0,
  the source's loop (`i += batchSize`) never advances and never returns.
  A negative size is not modelled at all. The source returns `[]` for it
  on an empty list, and with items it loops forever, slicing from
  negative offsets. The default arguments `batchSize = 5` and
  `delayBetweenBatches = 500` are not modelled either. The size is always
  passed, and the delay is a `Pause` step with no duration.
- The presentational components are not part of this model: the two
  report cards, the guideline card, the header and the Markdown rendering
  of chat messages.
- App.Session.SelectFile requires the file to be in the list, because the
  selection radio buttons are rendered from `files`.
- App.Session.FinishAudio follows the corrected completion rule (see
  Findings). The source's unguarded rule is `App.FinishPlaybackAsWritten`.

## Findings

| source | as written | input that shows it | evidently intended | confidence | as-written member | corrected member |
|---|---|---|---|---|---|---|
| App.tsx:204-221 | `playAudio` resets both read-aloud statuses before loading the target, but after the speech call it sets its own card's status to PLAYING unconditionally. A card's button is disabled only while that card is busy, so the other card can be started while the first is still loading. | Start the best-practices card, then start the improvement card before the first speech call returns. The first call then completes. The statuses are (PLAYING, LOADING): both cards are busy, and two audio sources can play at once. | Resetting both statuses shows that at most one card should be busy. A completion should apply only while its card is still loading. | medium, not executed | App.StaleCompletionBreaksExclusivity | App.PlaybackKeepsExclusivity |
