/** The summarize endpoint's handler (`generateSummary`): it checks the
    upload's extension, chooses the working text, validates the request in a
    fixed order, composes the request for the text-generation service, cleans
    the generated text and maps failures to HTTP statuses.

    The service call itself is outside the model: it is a parameter
    `generate`, a total function from the composed request to the service's
    reply. A request the handler rejects never reaches `generate`, which shows
    as the response not depending on it. */
module SummarizeController {
  import opened Optional
  import opened Strings
  import opened Http
  import Cleanup

  /** An uploaded file: its original name and its contents, already decoded
      from UTF-8. */
  datatype Upload = Upload(originalName: string, contents: string)

  /** What the handler reads from a request: the `transcript` and `prompt`
      body fields and the optional uploaded file. */
  datatype Request = Request(transcript: Option<string>, prompt: Option<string>, file: Option<Upload>)

  /** The service's answer to one request: generated text, or a thrown error
      whose `response.status` may be set. */
  datatype ModelReply = Generated(text: string) | Failed(responseStatus: Option<int>)

  /** The handler either answers at once or calls the service once with the
      composed request. */
  datatype Step = Respond(response: Response) | CallModel(request: string)

  const UnsupportedFileType: string := "Unsupported file type. Only TXT allowed."
  const MissingText: string := "Please provide a TXT file or transcript text."
  const MissingPrompt: string := "Prompt is required."
  const InvalidKey: string := "Invalid Gemini API Key."
  const GenerationFailed: string := "Failed to generate summary."

  /** The fixed text before the working text in the composed request. */
  const Preamble: string :=
    "\n" +
    "You are an expert meeting and document summarizer. Your goal is to produce a **human-level, professional, and actionable summary** that reads as if written by a senior project manager, without sounding like AI-generated text.\n" +
    "\n" +
    "Content:\n"

  /** The fixed text between the working text and the user's prompt. */
  const Middle: string := "\n\nUser Instruction:\n"

  /** The fixed formatting guidelines after the user's prompt. */
  const Guidelines: string :=
    "\n" +
    "\n" +
    "Guidelines for creating the summary:\n" +
    "1. Begin with a **concise and descriptive title** including meeting date, attendees, and topic if available.\n" +
    "2. Provide **Key Highlights** in detailed bullet points. Each bullet should fully explain discussions, decisions, insights, and context, as if summarizing for someone who did not attend.\n" +
    "3. Clearly list **Responsibilities**, assigning tasks to specific individuals with deadlines where possible. Use natural, human language.\n" +
    "4. Clearly state **Action Items** with actionable next steps for each relevant participant. Include timelines if mentioned.\n" +
    "5. Maintain a **professional, natural, and narrative style**; avoid robotic, generic, or AI-like phrasing.\n" +
    "6. Emphasize important numbers, dates, deadlines, names, and other critical details naturally within sentences.\n" +
    "7. Use **plain text only**, no markdown, emojis, or formatting symbols.\n" +
    "8. Ensure every bullet and sentence provides context and reads fluidly.\n" +
    "9. Make the summary **cohesive, logically structured, and easy to read**, as if written for executive-level understanding.\n" +
    "10. Keep a **human tone**, including transitions and natural explanations, making it indistinguishable from a human-written summary.\n" +
    "\n" +
    "Generate the structured summary below based on these guidelines:\n"

  /** The upload's extension: the text after the last `.` of its name, or the
      whole name when it has no `.`, lower-cased. */
  function Extension(name: string): (ext: string)
    ensures |ext| <= |name|
    ensures ext == ToLowerAscii(name[|name| - |ext|..])
    ensures '.' !in ext
    ensures |ext| == |name| || name[|name| - |ext| - 1] == '.'
  {
    var pieces := Split(name, '.');
    SplitLastPiece(name, '.');
    var last := pieces[|pieces| - 1];
    assert '.' !in last;
    var ext := ToLowerAscii(last);
    assert forall i :: 0 <= i < |ext| ==> ext[i] != '.';
    ext
  }

  /** Only files whose extension is `txt` are accepted. */
  predicate IsTxt(name: string) {
    Extension(name) == "txt"
  }

  /** A name is accepted exactly when it is `txt`, or ends in `.txt`, in any
      mix of letter case. */
  lemma TxtExtensionIff(name: string)
    ensures IsTxt(name) <==>
      && |name| >= 3
      && ToLowerAscii(name[|name| - 3..]) == "txt"
      && (|name| == 3 || name[|name| - 4] == '.')
  {
    var n := |name|;
    var ext := Extension(name);
    if n >= 3 && ToLowerAscii(name[n - 3..]) == "txt" && (n == 3 || name[n - 4] == '.') {
      var tail := name[n - 3..];
      assert forall i :: 0 <= i < 3 ==> LowerChar(tail[i]) == "txt"[i];
      assert forall i :: n - 3 <= i < n ==> name[i] != '.' by {
        forall i | n - 3 <= i < n ensures name[i] != '.' {
          assert name[i] == tail[i - (n - 3)];
        }
      }
      assert |ext| == 3;
    }
  }

  /** The upload, if any, passes the extension check. */
  predicate FileAccepted(req: Request) {
    req.file.None? || IsTxt(req.file.value.originalName)
  }

  /** The text to summarize: the upload's contents when there is an upload,
      otherwise the trimmed transcript (`""` when the field is absent). */
  function WorkingText(req: Request): (text: string)
    ensures req.file.Some? ==> text == req.file.value.contents
    ensures req.file.None? ==> (text == "" <==> req.transcript.None? || IsBlank(req.transcript.value))
    ensures req.file.None? && text != [] ==> !IsWhitespace(text[0]) && !IsWhitespace(text[|text| - 1])
  {
    if req.file.Some? then req.file.value.contents else Trim(req.transcript.GetOr(""))
  }

  /** `!prompt?.trim()`: the prompt is absent or blank. */
  predicate PromptMissing(prompt: Option<string>) {
    prompt.None? || Trim(prompt.value) == ""
  }

  /** The request sent to the service: the fixed preamble, the working text,
      the fixed middle, the prompt as given (untrimmed) and the fixed
      guidelines. */
  function ComposeRequest(text: string, prompt: string): (r: string)
    ensures |r| == |Preamble| + |text| + |Middle| + |prompt| + |Guidelines|
    ensures r[..|Preamble|] == Preamble
    ensures r[|Preamble|..|Preamble| + |text|] == text
    ensures r[|Preamble| + |text|..|Preamble| + |text| + |Middle|] == Middle
    ensures r[|Preamble| + |text| + |Middle|..|r| - |Guidelines|] == prompt
    ensures r[|r| - |Guidelines|..] == Guidelines
  {
    Template(Preamble, text, Middle, prompt, Guidelines)
  }

  /** The template literal with its two interpolations, over arbitrary fixed parts. */
  function Template(pre: string, text: string, mid: string, prompt: string, post: string): (r: string)
    ensures |r| == |pre| + |text| + |mid| + |prompt| + |post|
    ensures r[..|pre|] == pre
    ensures r[|pre|..|pre| + |text|] == text
    ensures r[|pre| + |text|..|pre| + |text| + |mid|] == mid
    ensures r[|pre| + |text| + |mid|..|r| - |post|] == prompt
    ensures r[|r| - |post|..] == post
  {
    pre + text + mid + prompt + post
  }

  /** Everything the handler does before the service call. The checks run in
      this order: the extension, then the working text, then the prompt. */
  function Decide(req: Request): (step: Step)
    ensures step.Respond? ==> step.response.status == 400
    ensures step == Respond(Fail(400, UnsupportedFileType))
        <==> req.file.Some? && !IsTxt(req.file.value.originalName)
    ensures step == Respond(Fail(400, MissingText))
        <==> FileAccepted(req) && WorkingText(req) == ""
    ensures step == Respond(Fail(400, MissingPrompt))
        <==> FileAccepted(req) && WorkingText(req) != "" && PromptMissing(req.prompt)
    ensures step.CallModel?
        <==> FileAccepted(req) && WorkingText(req) != "" && !PromptMissing(req.prompt)
    ensures step.CallModel? ==>
        req.prompt.Some? && step.request == ComposeRequest(WorkingText(req), req.prompt.value)
  {
    if req.file.Some? && !IsTxt(req.file.value.originalName) then
      Respond(Fail(400, UnsupportedFileType))
    else
      var text := WorkingText(req);
      if text == "" then Respond(Fail(400, MissingText))
      else if PromptMissing(req.prompt) then Respond(Fail(400, MissingPrompt))
      else CallModel(ComposeRequest(text, req.prompt.value))
  }

  /** The whole handler: the checks, at most one service call, the clean-up
      of the generated text, and the mapping of a thrown error to 401 when
      its `response.status` is 401 and to 500 otherwise. */
  function GenerateSummary(req: Request, generate: string -> ModelReply): (res: Response)
    ensures res.status in {200, 400, 401, 500}
    ensures res.status == 400 <==> Decide(req).Respond?
    ensures res.status == 200
        <==> Decide(req).CallModel? && generate(Decide(req).request).Generated?
    ensures res.status == 200 ==>
        res.body == SummaryBody(Cleanup.CleanSummary(generate(Decide(req).request).text))
    ensures res.status == 401
        <==> Decide(req).CallModel? && generate(Decide(req).request) == Failed(Some(401))
    ensures res.status == 401 ==> res.body == ErrorBody(InvalidKey)
    ensures res.status == 500 ==> res.body == ErrorBody(GenerationFailed)
  {
    match Decide(req)
    case Respond(response) => response
    case CallModel(request) =>
      match generate(request)
      case Generated(text) => Response(200, SummaryBody(Cleanup.CleanSummary(text)))
      case Failed(status) =>
        if status == Some(401) then Fail(401, InvalidKey) else Fail(500, GenerationFailed)
  }

  /** A rejected request never reaches the service: the response is the same
      whatever the service would have answered. */
  lemma RejectionMakesNoCall(req: Request, generate: string -> ModelReply, other: string -> ModelReply)
    requires Decide(req).Respond?
    ensures GenerateSummary(req, generate) == GenerateSummary(req, other)
    ensures GenerateSummary(req, generate).status == 400
  {
  }

  /** An unsupported upload is rejected even when a usable transcript and
      prompt come with it: the extension is checked first. */
  lemma UnsupportedFileWins(req: Request, generate: string -> ModelReply)
    requires req.file.Some? && !IsTxt(req.file.value.originalName)
    ensures GenerateSummary(req, generate) == Fail(400, UnsupportedFileType)
  {
  }

  /** An accepted upload replaces the transcript wholesale, and its contents
      are not trimmed: they are what the composed request carries. */
  lemma UploadReplacesTranscript(req: Request)
    requires req.file.Some? && IsTxt(req.file.value.originalName)
    requires req.file.value.contents != "" && !PromptMissing(req.prompt)
    ensures Decide(req).CallModel?
    ensures Decide(req).request == ComposeRequest(req.file.value.contents, req.prompt.value)
  {
  }

  /** Missing text is reported before a missing prompt. */
  lemma TextCheckedBeforePrompt(req: Request, generate: string -> ModelReply)
    requires FileAccepted(req) && WorkingText(req) == ""
    ensures GenerateSummary(req, generate) == Fail(400, MissingText)
  {
  }
}
