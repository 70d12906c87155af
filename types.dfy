/** The records shared by the components (types.ts) and the browser's `File`. */
module Types {
  import opened Common
  import opened Lists

  /** The general two-section report. */
  datatype AnalysisResult = AnalysisResult(bestPractices: string, areasForImprovement: string)

  /** The targeted report for one selected program. */
  datatype SpecificGuidelineResult = SpecificGuidelineResult(
    programName: string,
    executiveSummary: string,
    strengths: string,
    areasForImprovement: string,
    recommendations: string)

  /** Playback state of one report card's read-aloud button. */
  datatype TtsStatus = Idle | Loading | Playing | Error

  datatype Role = User | Model

  datatype ChatMessage = ChatMessage(role: Role, text: string)

  /** One entry of a pdf.js page's text content: a text item has `str`, a marked-content item has not. */
  datatype TextItem = TextRun(str: string) | MarkedContent

  type PdfPage = seq<TextItem>

  /**
   * A browser `File`: its name and declared media type, and what the two
   * ways of reading it would yield, `file.text()` and pdf.js's page-by-page
   * parse of its bytes (either may fail).
   */
  datatype BrowserFile = BrowserFile(
    name: string,
    mediaType: string,
    asText: Outcome<string>,
    asPdf: Outcome<seq<PdfPage>>)

  /** `files.map(f => f.name)`: the names of the files, in order. */
  function Names(files: seq<BrowserFile>): seq<string>
  {
    Map(files, (f: BrowserFile) => f.name)
  }
}
