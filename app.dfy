/**
 * The application's session: the uploaded files, the target chosen for a
 * targeted report, the two kinds of report, the error line, the chat with
 * the assistant and the read-aloud state of the two report cards. Remote
 * calls (the analysis, the targeted report, the chat replies, speech) are
 * parameters whose outcome is given; each handler runs to completion
 * before the next one starts.
 */
module App {
  import opened Common
  import opened Text
  import opened Types
  import opened Lists

  // ---------------------------------------------------------------------
  // Reading the uploaded files
  // ---------------------------------------------------------------------

  /** `'str' in item ? item.str : ''`. */
  function ItemText(item: TextItem): string
  {
    match item
    case TextRun(s) => s
    case MarkedContent => ""
  }

  /** One page's text items joined by single spaces. */
  function PageText(page: PdfPage): string
  {
    Join(Map(page, ItemText), " ")
  }

  /** The text of a parsed PDF: each page's text followed by a blank line, page after page. */
  function PdfText(pages: seq<PdfPage>): string
  {
    if pages == [] then "" else PdfText(pages[..|pages| - 1]) + PageText(pages[|pages| - 1]) + "\n\n"
  }

  /** `extractTextFromPdf`, on the pages pdf.js produced: the loop accumulating `fullText`. */
  method ExtractTextFromPdf(pages: seq<PdfPage>) returns (fullText: string)
    ensures fullText == PdfText(pages)
  {
    fullText := "";
    var i := 0;
    while i < |pages|
      invariant 0 <= i <= |pages|
      invariant fullText == PdfText(pages[..i])
    {
      var pageText := PageText(pages[i]);
      assert pages[..i + 1][..i] == pages[..i];
      fullText := fullText + pageText + "\n\n";
      i := i + 1;
    }
    assert pages[..i] == pages;
  }

  /** The text of more pages extends the text of the first ones. */
  lemma {:induction false} PdfTextAppend(pages: seq<PdfPage>, more: seq<PdfPage>)
    ensures PdfText(pages + more) == PdfText(pages) + PdfText(more)
  {
    if more == [] {
      assert pages + more == pages;
    } else {
      var init, last := more[..|more| - 1], more[|more| - 1];
      assert PdfText(pages + more) == PdfText(pages + init) + (PageText(last) + "\n\n") by {
        var all := pages + more;
        assert all[..|all| - 1] == pages + init && all[|all| - 1] == last;
      }
      PdfTextAppend(pages, init);
      ConcatAssoc(PdfText(pages), PdfText(init), PageText(last) + "\n\n");
      ConcatAssoc(PdfText(init), PageText(last), "\n\n");
    }
  }

  /** Every text run of every page is part of the extracted text. */
  lemma PdfTextContainsRuns(pages: seq<PdfPage>, p: nat, i: nat)
    requires p < |pages| && i < |pages[p]| && pages[p][i].TextRun?
    ensures Contains(PdfText(pages), pages[p][i].str)
  {
    assert Map(pages[p], ItemText)[i] == pages[p][i].str;
    JoinContainsParts(Map(pages[p], ItemText), " ", i);
    PdfTextAround(pages, p);
    ContainsInfix(PdfText(pages[..p]), PageText(pages[p]), "\n\n" + PdfText(pages[p + 1..]), pages[p][i].str);
  }

  /** The extracted text is the text before page p, page p's text and blank line, and the text after. */
  lemma PdfTextAround(pages: seq<PdfPage>, p: nat)
    requires p < |pages|
    ensures PdfText(pages) == PdfText(pages[..p]) + PageText(pages[p]) + ("\n\n" + PdfText(pages[p + 1..]))
  {
    PdfTextPrefix(pages, p);
    PdfTextSplit(pages, p + 1);
    ConcatAssoc(PdfText(pages[..p]) + PageText(pages[p]), "\n\n", PdfText(pages[p + 1..]));
  }

  lemma PdfTextPrefix(pages: seq<PdfPage>, p: nat)
    requires p < |pages|
    ensures PdfText(pages[..p + 1]) == PdfText(pages[..p]) + PageText(pages[p]) + "\n\n"
  {
    assert pages[..p + 1][..p] == pages[..p];
  }

  lemma PdfTextSplit(pages: seq<PdfPage>, p: nat)
    requires p <= |pages|
    ensures PdfText(pages) == PdfText(pages[..p]) + PdfText(pages[p..])
  {
    assert pages == pages[..p] + pages[p..];
    PdfTextAppend(pages[..p], pages[p..]);
  }

  /** A parsed PDF with at least one page yields text ending in a blank line. */
  lemma PdfTextEndsWithBlankLine(pages: seq<PdfPage>)
    requires pages != []
    ensures EndsWith(PdfText(pages), "\n\n")
  {
  }

  /** `readFileContent`: the PDF parser is used exactly for `application/pdf`, `file.text()` otherwise. */
  function ReadFileContent(file: BrowserFile): (r: Outcome<string>)
    ensures file.mediaType == "application/pdf" && file.asPdf.Succeeded? ==> r == Succeeded(PdfText(file.asPdf.value))
    ensures file.mediaType == "application/pdf" && file.asPdf.Threw? ==> r == Threw(file.asPdf.thrown)
    ensures file.mediaType != "application/pdf" ==> r == file.asText
  {
    if file.mediaType == "application/pdf" then
      match file.asPdf
      case Succeeded(pages) => Succeeded(PdfText(pages))
      case Threw(e) => Threw(e)
    else file.asText
  }

  /**
   * `Promise.all(files.map(readFileContent))`, reading one file after
   * another: the contents of all the files, or the first failure.
   */
  function ReadAll(files: seq<BrowserFile>): Outcome<seq<string>>
  {
    if files == [] then Succeeded([])
    else
      match ReadFileContent(files[0])
      case Threw(e) => Threw(e)
      case Succeeded(c) =>
        match ReadAll(files[1..])
        case Threw(e) => Threw(e)
        case Succeeded(cs) => Succeeded([c] + cs)
  }

  /**
   * Reading all files succeeds exactly when every read does, and then yields
   * each file's content in order; otherwise it fails with the failure of the
   * first file that could not be read.
   */
  lemma {:induction false} ReadAllSpec(files: seq<BrowserFile>)
    ensures ReadAll(files).Succeeded? <==> forall i :: 0 <= i < |files| ==> ReadFileContent(files[i]).Succeeded?
    ensures ReadAll(files).Succeeded? ==>
      |ReadAll(files).value| == |files|
      && forall i :: 0 <= i < |files| ==> ReadAll(files).value[i] == ReadFileContent(files[i]).value
    ensures ReadAll(files).Threw? ==>
      exists i :: 0 <= i < |files| && ReadFileContent(files[i]) == Threw(ReadAll(files).thrown)
        && forall j :: 0 <= j < i ==> ReadFileContent(files[j]).Succeeded?
  {
    if files != [] {
      ReadAllSpec(files[1..]);
      var r := ReadAll(files);
      if ReadFileContent(files[0]).Succeeded? {
        if r.Threw? {
          var i :| 0 <= i < |files[1..]| && ReadFileContent(files[1..][i]) == Threw(r.thrown)
            && forall j :: 0 <= j < i ==> ReadFileContent(files[1..][j]).Succeeded?;
          assert forall j :: 0 <= j < i + 1 ==> ReadFileContent(files[j]).Succeeded? by {
            forall j | 0 <= j < i + 1 ensures ReadFileContent(files[j]).Succeeded? {
              if j > 0 {
                assert files[j] == files[1..][j - 1];
              }
            }
          }
          assert ReadFileContent(files[i + 1]) == Threw(r.thrown);
        } else {
          forall i | 0 <= i < |files| ensures ReadFileContent(files[i]).Succeeded? {
            if i > 0 {
              assert files[i] == files[1..][i - 1];
            }
          }
        }
      } else {
        assert ReadFileContent(files[0]) == Threw(r.thrown);
      }
    }
  }

  // ---------------------------------------------------------------------
  // The file list
  // ---------------------------------------------------------------------

  /** `files.filter(f => f.name !== name)`. */
  function WithoutName(files: seq<BrowserFile>, name: string): seq<BrowserFile>
  {
    Filter(files, (f: BrowserFile) => f.name != name)
  }

  /** Removing by name drops every file of that name and keeps every other one. */
  lemma WithoutNameMembers(files: seq<BrowserFile>, name: string, f: BrowserFile)
    ensures f in WithoutName(files, name) <==> f in files && f.name != name
    ensures |WithoutName(files, name)| <= |files|
  {
    FilterMembers(files, (g: BrowserFile) => g.name != name, f);
  }

  /**
   * `[...prevFiles, ...uniqueNewFiles]`: the incoming files whose name is not
   * already in the list are appended; names repeated within the incoming
   * batch are not checked against each other.
   */
  function MergeUploads(prev: seq<BrowserFile>, incoming: seq<BrowserFile>): seq<BrowserFile>
  {
    var existing := Names(prev);
    prev + Filter(incoming, (f: BrowserFile) => f.name !in existing)
  }

  /** The old list is kept as a prefix; a file is added exactly when it is incoming and its name is new. */
  lemma MergeUploadsMembers(prev: seq<BrowserFile>, incoming: seq<BrowserFile>, f: BrowserFile)
    ensures |prev| <= |MergeUploads(prev, incoming)| && MergeUploads(prev, incoming)[..|prev|] == prev
    ensures f in MergeUploads(prev, incoming)[|prev|..] <==> f in incoming && f.name !in Names(prev)
  {
    var existing := Names(prev);
    var added := Filter(incoming, (g: BrowserFile) => g.name !in existing);
    FilterMembers(incoming, (g: BrowserFile) => g.name !in existing, f);
    assert MergeUploads(prev, incoming)[|prev|..] == added;
  }

  /** Uploading the same batch a second time adds nothing. */
  lemma MergeUploadsTwice(prev: seq<BrowserFile>, incoming: seq<BrowserFile>)
    ensures MergeUploads(MergeUploads(prev, incoming), incoming) == MergeUploads(prev, incoming)
  {
    var once := MergeUploads(prev, incoming);
    var existing := Names(once);
    forall i | 0 <= i < |incoming| ensures incoming[i].name in existing {
      var f := incoming[i];
      if f.name in Names(prev) {
        var j :| 0 <= j < |prev| && Names(prev)[j] == f.name;
        assert once[j] == prev[j];
        assert existing[j] == f.name;
      } else {
        MergeUploadsMembers(prev, incoming, f);
        var added := once[|prev|..];
        var j :| 0 <= j < |added| && added[j] == f;
        assert once[|prev| + j] == f;
        assert existing[|prev| + j] == f.name;
      }
    }
    NoneNew(incoming, existing);
    assert once + [] == once;
  }

  lemma {:induction false} NoneNew(incoming: seq<BrowserFile>, existing: seq<string>)
    requires forall i :: 0 <= i < |incoming| ==> incoming[i].name in existing
    ensures Filter(incoming, (f: BrowserFile) => f.name !in existing) == []
  {
    if incoming != [] {
      NoneNew(incoming[1..], existing);
    }
  }

  /** Two new files with the same name in one batch are both added. */
  lemma MergeUploadsKeepsBatchDuplicates(a: BrowserFile, b: BrowserFile)
    requires a.name == b.name
    ensures MergeUploads([], [a, b]) == [a, b]
  {
    var isNew := (f: BrowserFile) => f.name !in Names([]);
    assert Names([]) == [];
    assert [a, b][1..] == [b] && [b][1..] == [];
    assert Filter([b], isNew) == [b];
    assert Filter([a, b], isNew) == [a] + Filter([b], isNew);
  }

  /**
   * Names stay unique across uploads when each batch has unique names: the
   * filter keeps only names not yet in the list.
   */
  predicate UniqueNames(files: seq<BrowserFile>)
  {
    forall i, j :: 0 <= i < j < |files| ==> files[i].name != files[j].name
  }

  lemma MergeUploadsUnique(prev: seq<BrowserFile>, incoming: seq<BrowserFile>)
    requires UniqueNames(prev) && UniqueNames(incoming)
    ensures UniqueNames(MergeUploads(prev, incoming))
  {
    var existing := Names(prev);
    var added := Filter(incoming, (f: BrowserFile) => f.name !in existing);
    FilterUnique(incoming, (f: BrowserFile) => f.name !in existing);
    var all := MergeUploads(prev, incoming);
    forall i, j | 0 <= i < j < |all| ensures all[i].name != all[j].name {
      if j >= |prev| {
        assert all[j] == added[j - |prev|];
        if i < |prev| {
          assert existing[i] == all[i].name;
        } else {
          assert all[i] == added[i - |prev|];
        }
      }
    }
  }

  lemma {:induction false} FilterUnique(s: seq<BrowserFile>, p: BrowserFile -> bool)
    requires UniqueNames(s)
    ensures UniqueNames(Filter(s, p))
  {
    if s != [] {
      FilterUnique(s[1..], p);
      var rest := Filter(s[1..], p);
      if p(s[0]) {
        forall j | 0 <= j < |rest| ensures s[0].name != rest[j].name {
          FilterMembers(s[1..], p, rest[j]);
          var k :| 0 <= k < |s[1..]| && s[1..][k] == rest[j];
          assert s[k + 1] == rest[j];
        }
        assert Filter(s, p) == [s[0]] + rest;
      }
    }
  }

  // ---------------------------------------------------------------------
  // Reports and the chat
  // ---------------------------------------------------------------------

  const NoFilesError := "Please upload at least one document to analyze."
  const NoSelectionError := "Please select a program report to generate specific guidelines."
  const AnalyzeFallback := "An unknown error occurred while processing files."
  const GenerateFallback := "An unknown error occurred while generating guidelines."
  const AnalysisGreeting := "Hello! I am your AI Compliance Assistant. Feel free to ask me any questions about the report above."
  const GuidelinesGreeting := "Hello! I am your AI Compliance Assistant. Ask me anything about the specific guidelines report above."
  const ChatApology := "Sorry, I encountered an error. Please try again."

  /** The context the chat is created with after a general analysis. */
  function AnalysisContext(r: AnalysisResult): string
  {
    "## Best Practice Recommendations\n" + r.bestPractices + "\n\n## Common Areas for Improvement\n" + r.areasForImprovement
  }

  /** The context the chat is created with after a targeted report. */
  function GuidelinesContext(r: SpecificGuidelineResult): string
  {
    "## Program Name\n" + r.programName + "\n\n## Executive Summary\n" + r.executiveSummary
    + "\n\n## Strengths\n" + r.strengths + "\n\n## Areas for Improvement\n" + r.areasForImprovement
    + "\n\n## Recommendations\n" + r.recommendations
  }

  /** The analysis context opens with its first heading and holds both sections' text. */
  lemma AnalysisContextHolds(r: AnalysisResult)
    ensures StartsWith(AnalysisContext(r), "## Best Practice Recommendations\n")
    ensures Contains(AnalysisContext(r), r.bestPractices) && Contains(AnalysisContext(r), r.areasForImprovement)
  {
    var c := AnalysisContext(r);
    var h1 := "## Best Practice Recommendations\n";
    var h2 := "\n\n## Common Areas for Improvement\n";
    assert c == h1 + r.bestPractices + h2 + r.areasForImprovement;
    assert c[|h1|..|h1| + |r.bestPractices|] == r.bestPractices;
    assert OccursAt(c, r.bestPractices, |h1|);
    var k := |h1| + |r.bestPractices| + |h2|;
    assert c[k..k + |r.areasForImprovement|] == r.areasForImprovement;
    assert OccursAt(c, r.areasForImprovement, k);
  }

  /** A chat handle: what `createChatSession` was given. */
  datatype ChatHandle = ChatHandle(context: string)

  /** What a report run leaves in the session's report, error and chat slots. */
  datatype Run = Run(
    analysis: Option<AnalysisResult>,
    guidelines: Option<SpecificGuidelineResult>,
    error: Option<string>,
    chat: Option<ChatHandle>,
    history: seq<ChatMessage>)

  /** The chat transcript: a model greeting, then user and model messages in turn. */
  predicate Transcript(h: seq<ChatMessage>)
  {
    |h| % 2 == 1 && forall i :: 0 <= i < |h| ==> h[i].role == (if i % 2 == 0 then Model else User)
  }

  /**
   * The report and chat slots agree: at most one kind of report is shown,
   * there is a transcript exactly when there is a chat, and a chat exists
   * only beside a shown report (the context it was created with is stated
   * by `AnalyzeRunOutcome` and `GenerateRunOutcome`).
   */
  predicate RunConsistent(r: Run)
  {
    && !(r.analysis.Some? && r.guidelines.Some?)
    && (r.chat.None? ==> r.history == [])
    && (r.chat.Some? ==> Transcript(r.history) && (r.analysis.Some? || r.guidelines.Some?))
  }

  function Failed(e: Thrown, fallback: string): Run
  {
    Run(None, None, Some(ErrorText(e, fallback)), None, [])
  }

  /**
   * The `try` block of `handleAnalyze` on a non-empty file list: read every
   * file, analyse the contents, show the result and create the chat; a
   * failure anywhere is caught and shown, and what was set before it stays.
   */
  function AnalyzeRun(files: seq<BrowserFile>, analyze: seq<string> -> Outcome<AnalysisResult>,
                      chatFailure: Option<Thrown>): Run
  {
    match ReadAll(files)
    case Threw(e) => Failed(e, AnalyzeFallback)
    case Succeeded(contents) =>
      match analyze(contents)
      case Threw(e) => Failed(e, AnalyzeFallback)
      case Succeeded(r) =>
        match chatFailure
        case Some(e) => Run(Some(r), None, Some(ErrorText(e, AnalyzeFallback)), None, [])
        case None => Run(Some(r), None, None, Some(ChatHandle(AnalysisContext(r))), [ChatMessage(Model, AnalysisGreeting)])
  }

  /**
   * The `try` block of `handleGenerateSpecific` for a selected file: read it,
   * read every other file (all files with a different name), generate the
   * report for the selected file's name, show it and create the chat.
   */
  function GenerateRun(files: seq<BrowserFile>, selected: BrowserFile,
                       generate: (string, seq<string>, string) -> Outcome<SpecificGuidelineResult>,
                       chatFailure: Option<Thrown>): Run
  {
    match ReadFileContent(selected)
    case Threw(e) => Failed(e, GenerateFallback)
    case Succeeded(target) =>
      match ReadAll(WithoutName(files, selected.name))
      case Threw(e) => Failed(e, GenerateFallback)
      case Succeeded(others) =>
        match generate(target, others, selected.name)
        case Threw(e) => Failed(e, GenerateFallback)
        case Succeeded(r) =>
          match chatFailure
          case Some(e) => Run(None, Some(r), Some(ErrorText(e, GenerateFallback)), None, [])
          case None => Run(None, Some(r), None, Some(ChatHandle(GuidelinesContext(r))), [ChatMessage(Model, GuidelinesGreeting)])
  }

  /**
   * An analysis run leaves the slots consistent; it ends without an error
   * exactly when every step succeeded, and then the transcript is the one
   * greeting and the chat knows the report; without a result the error is
   * set and there is no chat.
   */
  lemma AnalyzeRunOutcome(files: seq<BrowserFile>, analyze: seq<string> -> Outcome<AnalysisResult>,
                          chatFailure: Option<Thrown>)
    ensures var run := AnalyzeRun(files, analyze, chatFailure);
      && RunConsistent(run) && run.guidelines.None?
      && (run.error.None? <==>
            ReadAll(files).Succeeded? && analyze(ReadAll(files).value).Succeeded? && chatFailure.None?)
      && (run.error.None? ==>
            run.analysis == Some(analyze(ReadAll(files).value).value)
            && run.history == [ChatMessage(Model, AnalysisGreeting)]
            && run.chat == Some(ChatHandle(AnalysisContext(run.analysis.value))))
      && (run.analysis.None? ==> run.error.Some? && run.chat.None? && run.history == [])
  {
  }

  /** The same for a targeted run, whose result carries the selected file's report. */
  lemma GenerateRunOutcome(files: seq<BrowserFile>, selected: BrowserFile,
                           generate: (string, seq<string>, string) -> Outcome<SpecificGuidelineResult>,
                           chatFailure: Option<Thrown>)
    ensures var run := GenerateRun(files, selected, generate, chatFailure);
      var target := ReadFileContent(selected);
      var others := ReadAll(WithoutName(files, selected.name));
      && RunConsistent(run) && run.analysis.None?
      && (run.error.None? <==>
            target.Succeeded? && others.Succeeded?
            && generate(target.value, others.value, selected.name).Succeeded? && chatFailure.None?)
      && (run.error.None? ==>
            run.guidelines == Some(generate(target.value, others.value, selected.name).value)
            && run.history == [ChatMessage(Model, GuidelinesGreeting)]
            && run.chat == Some(ChatHandle(GuidelinesContext(run.guidelines.value))))
      && (run.guidelines.None? ==> run.error.Some? && run.chat.None? && run.history == [])
  {
  }

  /**
   * The `try`/`catch` of `handleAnalyze`, step by step: read every file,
   * call the analysis (`request` is what it was given, if it was called),
   * then show the result and open the chat; the first failure is caught and
   * becomes the error.
   */
  method AnalyzeAttempt(files: seq<BrowserFile>, analyze: seq<string> -> Outcome<AnalysisResult>,
                        chatFailure: Option<Thrown>)
    returns (run: Run, request: Option<seq<string>>)
    ensures run == AnalyzeRun(files, analyze, chatFailure) && RunConsistent(run)
    ensures request == (if ReadAll(files).Succeeded? then Some(ReadAll(files).value) else None)
  {
    request := None;
    run := Run(None, None, None, None, []);
    match ReadAll(files) {
      case Threw(e) =>
        run := run.(error := Some(ErrorText(e, AnalyzeFallback)));
      case Succeeded(fileContents) =>
        request := Some(fileContents);
        match analyze(fileContents) {
          case Threw(e) =>
            run := run.(error := Some(ErrorText(e, AnalyzeFallback)));
          case Succeeded(r) =>
            run := run.(analysis := Some(r));
            match chatFailure {
              case Some(e) =>
                run := run.(error := Some(ErrorText(e, AnalyzeFallback)));
              case None =>
                run := run.(chat := Some(ChatHandle(AnalysisContext(r))), history := [ChatMessage(Model, AnalysisGreeting)]);
            }
        }
    }
    AnalyzeRunOutcome(files, analyze, chatFailure);
  }

  /**
   * The `try`/`catch` of `handleGenerateSpecific`: read the target, then every
   * file whose name differs from the target's, call the generator with the
   * target's name (`request` is the call, if it was made), then show the
   * result and open the chat; the first failure becomes the error.
   */
  method GenerateAttempt(files: seq<BrowserFile>, selected: BrowserFile,
                         generate: (string, seq<string>, string) -> Outcome<SpecificGuidelineResult>,
                         chatFailure: Option<Thrown>)
    returns (run: Run, request: Option<GuidelinesRequest>)
    ensures run == GenerateRun(files, selected, generate, chatFailure) && RunConsistent(run)
    ensures request.Some? ==>
      request.value.programName == selected.name
      && ReadFileContent(selected) == Succeeded(request.value.target)
      && ReadAll(WithoutName(files, selected.name)) == Succeeded(request.value.others)
    ensures request.None? <==>
      ReadFileContent(selected).Threw? || ReadAll(WithoutName(files, selected.name)).Threw?
  {
    request := None;
    run := Run(None, None, None, None, []);
    match ReadFileContent(selected) {
      case Threw(e) =>
        run := run.(error := Some(ErrorText(e, GenerateFallback)));
      case Succeeded(targetContent) =>
        var otherFiles := WithoutName(files, selected.name);
        match ReadAll(otherFiles) {
          case Threw(e) =>
            run := run.(error := Some(ErrorText(e, GenerateFallback)));
          case Succeeded(otherContents) =>
            request := Some(GuidelinesRequest(targetContent, otherContents, selected.name));
            match generate(targetContent, otherContents, selected.name) {
              case Threw(e) =>
                run := run.(error := Some(ErrorText(e, GenerateFallback)));
              case Succeeded(r) =>
                run := run.(guidelines := Some(r));
                match chatFailure {
                  case Some(e) =>
                    run := run.(error := Some(ErrorText(e, GenerateFallback)));
                  case None =>
                    run := run.(chat := Some(ChatHandle(GuidelinesContext(r))), history := [ChatMessage(Model, GuidelinesGreeting)]);
                }
            }
        }
    }
    GenerateRunOutcome(files, selected, generate, chatFailure);
  }

  /** `[...updatedHistory, reply]`: the user's message, then the reply or the apology. */
  function AfterSend(history: seq<ChatMessage>, message: string, reply: Outcome<string>): (h: seq<ChatMessage>)
  {
    history + [ChatMessage(User, message),
               ChatMessage(Model, match reply case Succeeded(t) => t case Threw(_) => ChatApology)]
  }

  /**
   * Sending grows the transcript by exactly two messages, keeps the earlier
   * ones, and keeps the alternation of roles.
   */
  lemma AfterSendTranscript(history: seq<ChatMessage>, message: string, reply: Outcome<string>)
    requires Transcript(history)
    ensures var h := AfterSend(history, message, reply);
      |h| == |history| + 2 && h[..|history|] == history && Transcript(h)
      && h[|history|] == ChatMessage(User, message)
      && h[|history| + 1].text == (if reply.Succeeded? then reply.value else ChatApology)
  {
    var h := AfterSend(history, message, reply);
    forall i | 0 <= i < |h| ensures h[i].role == (if i % 2 == 0 then Model else User) {
      if i < |history| {
        assert h[i] == history[i];
      }
    }
  }

  /** The transcript after the user's message is pushed and then the reply. */
  lemma AfterSendSteps(history: seq<ChatMessage>, message: string, reply: Outcome<string>)
    ensures history + [ChatMessage(User, message)]
            + [ChatMessage(Model, match reply case Succeeded(text) => text case Threw(_) => ChatApology)]
         == AfterSend(history, message, reply)
  {
  }

  /** A reply, or the apology, keeps the report and chat slots consistent. */
  lemma SendKeepsConsistent(run: Run, message: string, reply: Outcome<string>)
    requires RunConsistent(run) && run.chat.Some?
    ensures RunConsistent(run.(history := AfterSend(run.history, message, reply)))
  {
    AfterSendTranscript(run.history, message, reply);
  }

  // ---------------------------------------------------------------------
  // Read-aloud status of the two report cards
  // ---------------------------------------------------------------------

  datatype TtsCard = BestPracticesCard | ImprovementCard

  datatype TtsPair = TtsPair(bestPractices: TtsStatus, improvement: TtsStatus)

  function StatusOf(p: TtsPair, card: TtsCard): TtsStatus
  {
    match card
    case BestPracticesCard => p.bestPractices
    case ImprovementCard => p.improvement
  }

  function WithStatus(p: TtsPair, card: TtsCard, s: TtsStatus): (r: TtsPair)
    ensures StatusOf(r, card) == s
    ensures forall c :: c != card ==> StatusOf(r, c) == StatusOf(p, c)
  {
    match card
    case BestPracticesCard => p.(bestPractices := s)
    case ImprovementCard => p.(improvement := s)
  }

  /** At most one card is loading, playing or showing an error. */
  predicate AtMostOneBusy(p: TtsPair)
  {
    p.bestPractices == Idle || p.improvement == Idle
  }

  /** The part of `playAudio` before its first `await`: both cards idle, then the target loading. */
  function StartPlayback(p: TtsPair, card: TtsCard): (r: TtsPair)
  {
    WithStatus(TtsPair(Idle, Idle), card, Loading)
  }

  /** After a start, the target is loading and the other card is idle, whatever came before. */
  lemma StartPlaybackState(p: TtsPair, card: TtsCard, other: TtsCard)
    requires other != card
    ensures StatusOf(StartPlayback(p, card), card) == Loading
    ensures StatusOf(StartPlayback(p, card), other) == Idle
    ensures AtMostOneBusy(StartPlayback(p, card))
  {
    match card
    case BestPracticesCard =>
    case ImprovementCard =>
  }

  /** The rest of `playAudio` as written: the target becomes playing on success and errored on failure. */
  function FinishPlaybackAsWritten(p: TtsPair, card: TtsCard, succeeded: bool): TtsPair
  {
    WithStatus(p, card, if succeeded then Playing else Error)
  }

  /**
   * The other card's button stays enabled while one card loads, so a second
   * start can come before the first one's speech arrives; the first
   * completion then marks its card playing while the second card is still
   * loading.
   */
  lemma StaleCompletionBreaksExclusivity()
    ensures var p1 := StartPlayback(TtsPair(Idle, Idle), BestPracticesCard);
      var p2 := StartPlayback(p1, ImprovementCard);
      var p3 := FinishPlaybackAsWritten(p2, BestPracticesCard, true);
      !AtMostOneBusy(p3) && p3 == TtsPair(Playing, Loading)
  {
  }

  /** The completion as intended: it applies only while its card is still loading. */
  function FinishPlayback(p: TtsPair, card: TtsCard, succeeded: bool): (r: TtsPair)
  {
    if StatusOf(p, card) == Loading then FinishPlaybackAsWritten(p, card, succeeded) else p
  }

  /** `source.onended`: the card that played goes back to idle. */
  function PlaybackEnded(p: TtsPair, card: TtsCard): TtsPair
  {
    WithStatus(p, card, Idle)
  }

  /**
   * With completions applied only to a loading card, every step keeps at
   * most one card busy, and a completion for a loading card leaves it
   * playing or errored as the speech call went.
   */
  lemma PlaybackKeepsExclusivity(p: TtsPair, card: TtsCard, succeeded: bool)
    requires AtMostOneBusy(p)
    ensures AtMostOneBusy(StartPlayback(p, card))
    ensures AtMostOneBusy(FinishPlayback(p, card, succeeded))
    ensures AtMostOneBusy(PlaybackEnded(p, card))
    ensures StatusOf(p, card) == Loading ==>
      StatusOf(FinishPlayback(p, card, succeeded), card) == (if succeeded then Playing else Error)
  {
    match card
    case BestPracticesCard =>
    case ImprovementCard =>
  }

  // ---------------------------------------------------------------------
  // The session
  // ---------------------------------------------------------------------

  /** The arguments of the call to `generateSpecificGuidelines`. */
  datatype GuidelinesRequest = GuidelinesRequest(target: string, others: seq<string>, programName: string)

  /** The `App` component's state slots. */
  class Session {
    var files: seq<BrowserFile>
    var selected: Option<BrowserFile>
    var analysisResult: Option<AnalysisResult>
    var specificGuidelines: Option<SpecificGuidelineResult>
    var isLoading: bool
    var isGeneratingSpecific: bool
    var error: Option<string>
    var progressMessage: Option<string>
    var tts: TtsPair
    var chatSession: Option<ChatHandle>
    var chatHistory: seq<ChatMessage>
    var isChatLoading: bool

    /** The report, error and chat slots. */
    function Report(): Run
      reads this`analysisResult, this`specificGuidelines, this`error, this`chatSession, this`chatHistory
    {
      Run(analysisResult, specificGuidelines, error, chatSession, chatHistory)
    }

    /**
     * At all times: the chosen target is one of the files, the report and
     * chat slots agree, and at most one card is busy.
     */
    ghost predicate Consistent()
      reads this`files, this`selected, this`tts
      reads this`analysisResult, this`specificGuidelines, this`error, this`chatSession, this`chatHistory
    {
      && Listed()
      && RunConsistent(Report())
      && AtMostOneBusy(tts)
    }

    /** The chosen target is one of the files. */
    ghost predicate Listed()
      reads this`files, this`selected
    {
      selected.Some? ==> selected.value in files
    }

    /** Between handlers: consistent, and nothing is loading. */
    ghost predicate Valid()
      reads this
    {
      && Consistent()
      && !isLoading && !isGeneratingSpecific && !isChatLoading && progressMessage.None?
    }

    constructor ()
      ensures Valid()
      ensures files == [] && selected == None && Report() == Run(None, None, None, None, [])
      ensures tts == TtsPair(Idle, Idle)
    {
      files, selected := [], None;
      analysisResult, specificGuidelines := None, None;
      isLoading, isGeneratingSpecific := false, false;
      error, progressMessage := None, None;
      tts := TtsPair(Idle, Idle);
      chatSession, chatHistory, isChatLoading := None, [], false;
    }

    /** `resetChat`. */
    method ResetChat()
      modifies this
      ensures chatSession == None && chatHistory == []
      ensures files == old(files) && selected == old(selected) && analysisResult == old(analysisResult)
      ensures specificGuidelines == old(specificGuidelines) && error == old(error) && tts == old(tts)
      ensures isLoading == old(isLoading) && isGeneratingSpecific == old(isGeneratingSpecific)
      ensures progressMessage == old(progressMessage) && isChatLoading == old(isChatLoading)
    {
      chatSession := None;
      chatHistory := [];
    }

    /** `handleFilesUploaded`: merge the new files in and clear the reports, the error and the chat. */
    method FilesUploaded(incoming: seq<BrowserFile>)
      requires Valid()
      modifies this
      ensures Valid()
      ensures files == MergeUploads(old(files), incoming) && selected == old(selected) && tts == old(tts)
      ensures Report() == Run(None, None, None, None, [])
    {
      if selected.Some? {
        MergeUploadsMembers(files, incoming, selected.value);
        assert MergeUploads(files, incoming)[..|files|] == files;
      }
      files := MergeUploads(files, incoming);
      analysisResult := None;
      specificGuidelines := None;
      error := None;
      ResetChat();
    }

    /** `handleRemoveFile`: drop the files of that name and clear the target if it has that name. */
    method RemoveFile(toRemove: BrowserFile)
      requires Valid()
      modifies this
      ensures Valid()
      ensures files == WithoutName(old(files), toRemove.name)
      ensures selected == if old(selected).Some? && old(selected).value.name == toRemove.name then None else old(selected)
      ensures Report() == old(Report()) && tts == old(tts)
    {
      if selected.Some? {
        WithoutNameMembers(files, toRemove.name, selected.value);
      }
      files := WithoutName(files, toRemove.name);
      if selected.Some? && selected.value.name == toRemove.name {
        selected := None;
      }
    }

    /** `handleClearAll`. */
    method ClearAll()
      requires Valid()
      modifies this
      ensures Valid()
      ensures files == [] && selected == None && Report() == Run(None, None, None, None, []) && tts == old(tts)
    {
      files := [];
      selected := None;
      analysisResult := None;
      specificGuidelines := None;
      error := None;
      ResetChat();
    }

    /** The target radio button of one of the listed files. */
    method SelectFile(f: BrowserFile)
      requires Valid() && f in files
      modifies this
      ensures Valid()
      ensures selected == Some(f) && files == old(files) && Report() == old(Report()) && tts == old(tts)
    {
      selected := Some(f);
    }

    /** Shows what a report run left in the report, error and chat slots. */
    method ShowRun(run: Run)
      requires Consistent() && RunConsistent(run)
      modifies this
      ensures Consistent() && Report() == run
      ensures files == old(files) && selected == old(selected) && tts == old(tts)
      ensures isLoading == old(isLoading) && isGeneratingSpecific == old(isGeneratingSpecific)
      ensures progressMessage == old(progressMessage) && isChatLoading == old(isChatLoading)
    {
      analysisResult, specificGuidelines, error := run.analysis, run.guidelines, run.error;
      chatSession, chatHistory := run.chat, run.history;
    }

    /**
     * `handleAnalyze`. With no files only the error is set. Otherwise the
     * reports, error and chat are cleared, the files are read and analysed
     * (`request` is what the analysis was given, if it was called), and
     * the run's outcome is shown; loading and progress end cleared.
     */
    method Analyze(analyze: seq<string> -> Outcome<AnalysisResult>, chatFailure: Option<Thrown>)
      returns (request: Option<seq<string>>)
      requires Valid()
      modifies this
      ensures Valid() && files == old(files) && selected == old(selected) && tts == old(tts)
      ensures old(files) == [] ==>
        request == None && Report() == old(Report()).(error := Some(NoFilesError))
      ensures old(files) != [] ==>
        Report() == AnalyzeRun(old(files), analyze, chatFailure)
        && request == (if ReadAll(old(files)).Succeeded? then Some(ReadAll(old(files)).value) else None)
    {
      request := None;
      if files == [] {
        error := Some(NoFilesError);
        return;
      }
      isLoading, progressMessage := true, None;
      ShowRun(Run(None, None, None, None, []));
      var run;
      run, request := AnalyzeAttempt(files, analyze, chatFailure);
      ShowRun(run);
      isLoading, progressMessage := false, None;
    }

    /**
     * `handleGenerateSpecific`. With no target only the error is set.
     * Otherwise the slots are cleared, the target and then all files of
     * other names are read, the report is generated for the target's name
     * (`request` is the call, if it was made), and the outcome is shown.
     */
    method GenerateSpecific(generate: (string, seq<string>, string) -> Outcome<SpecificGuidelineResult>,
                            chatFailure: Option<Thrown>)
      returns (request: Option<GuidelinesRequest>)
      requires Valid()
      modifies this
      ensures Valid() && files == old(files) && selected == old(selected) && tts == old(tts)
      ensures old(selected).None? ==>
        request == None && Report() == old(Report()).(error := Some(NoSelectionError))
      ensures old(selected).Some? ==>
        var target := old(selected).value;
        Report() == GenerateRun(old(files), target, generate, chatFailure)
        && (request.Some? ==>
              request.value.programName == target.name
              && ReadFileContent(target) == Succeeded(request.value.target)
              && ReadAll(WithoutName(old(files), target.name)) == Succeeded(request.value.others))
    {
      request := None;
      if selected.None? {
        error := Some(NoSelectionError);
        return;
      }
      var target := selected.value;
      isGeneratingSpecific, progressMessage := true, None;
      ShowRun(Run(None, None, None, None, []));
      var run;
      run, request := GenerateAttempt(files, target, generate, chatFailure);
      ShowRun(run);
      isGeneratingSpecific, progressMessage := false, None;
    }

    /**
     * `handleSendMessage`: nothing without a chat; otherwise the user's
     * message and then the reply, or the apology when the reply fails, are
     * appended to the transcript.
     */
    method SendMessage(message: string, reply: Outcome<string>)
      requires Valid()
      modifies this
      ensures Valid() && files == old(files) && selected == old(selected) && tts == old(tts)
      ensures old(chatSession).None? ==> Report() == old(Report())
      ensures old(chatSession).Some? ==>
        Report() == old(Report()).(history := AfterSend(old(chatHistory), message, reply))
    {
      if chatSession.None? {
        return;
      }
      SendKeepsConsistent(Report(), message, reply);
      isChatLoading := true;
      var updatedHistory := chatHistory + [ChatMessage(User, message)];
      chatHistory := updatedHistory;
      var replyText := match reply case Succeeded(text) => text case Threw(_) => ChatApology;
      chatHistory := updatedHistory + [ChatMessage(Model, replyText)];
      isChatLoading := false;
      AfterSendSteps(old(chatHistory), message, reply);
    }

    /** `playAudio` up to its first `await`; nothing happens without an audio context. */
    method StartAudio(card: TtsCard, audioAvailable: bool)
      requires Valid()
      modifies this
      ensures Valid() && files == old(files) && selected == old(selected) && Report() == old(Report())
      ensures tts == if audioAvailable then StartPlayback(old(tts), card) else old(tts)
    {
      if !audioAvailable {
        return;
      }
      tts := TtsPair(Idle, Idle);
      tts := WithStatus(tts, card, Loading);
      PlaybackKeepsExclusivity(old(tts), card, true);
    }

    /** The end of `playAudio`, once the speech call has settled, for a card still loading. */
    method FinishAudio(card: TtsCard, succeeded: bool)
      requires Valid()
      modifies this
      ensures Valid() && files == old(files) && selected == old(selected) && Report() == old(Report())
      ensures tts == FinishPlayback(old(tts), card, succeeded)
    {
      PlaybackKeepsExclusivity(tts, card, succeeded);
      if StatusOf(tts, card) == Loading {
        tts := WithStatus(tts, card, if succeeded then Playing else Error);
      }
    }

    /** `source.onended` for the card that was playing. */
    method AudioEnded(card: TtsCard)
      requires Valid()
      modifies this
      ensures Valid() && files == old(files) && selected == old(selected) && Report() == old(Report())
      ensures tts == PlaybackEnded(old(tts), card)
    {
      PlaybackKeepsExclusivity(tts, card, true);
      tts := WithStatus(tts, card, Idle);
    }
  }
}
