/** The browser side of the main page: the guard and the form of "Generate
    Summary" (`handleGenerate`), the guard, recipient parsing and payload of
    "Send Email" (`handleSendEmail`). The HTTP calls, toasts and loading
    flag are outside the model. The lemmas at the end follow a request from the
    browser into the handler that receives it. */
module App {
  import opened Optional
  import opened Strings
  import Http
  import SummarizeController
  import EmailController

  /** A file picked in the browser: its name and its text. */
  datatype File = File(name: string, contents: string)

  /** One entry of the multipart form sent to the summarize endpoint. */
  datatype FormValue = TextValue(text: string) | FileValue(file: File)
  datatype FormEntry = FormEntry(name: string, value: FormValue)

  /** The names the form carries. */
  function FieldNames(form: seq<FormEntry>): set<string> {
    set i | 0 <= i < |form| :: form[i].name
  }

  /** `handleGenerate`: no request (`None`) unless a file is selected or the
      transcript is not blank; the form always carries the prompt, then the
      file under `pdfFile` when one is selected, else the transcript as typed. */
  function GenerateForm(file: Option<File>, transcript: string, prompt: string): (form: Option<seq<FormEntry>>)
    ensures form.None? <==> file.None? && IsBlank(transcript)
    ensures form.Some? && file.Some? ==> FieldNames(form.value) == {"prompt", "pdfFile"}
    ensures form.Some? && file.None? ==> FieldNames(form.value) == {"prompt", "transcript"}
    ensures form.Some? ==> FormEntry("prompt", TextValue(prompt)) in form.value
    ensures form.Some? && file.Some? ==> FormEntry("pdfFile", FileValue(file.value)) in form.value
    ensures form.Some? && file.None? ==> FormEntry("transcript", TextValue(transcript)) in form.value
  {
    if file.None? && Trim(transcript) == "" then None
    else
      var prompted := [FormEntry("prompt", TextValue(prompt))];
      var form :=
        if file.Some? then prompted + [FormEntry("pdfFile", FileValue(file.value))]
        else prompted + [FormEntry("transcript", TextValue(transcript))];
      assert form[0] in form && form[1] in form;
      Some(form)
  }

  /** `recipients.split(",").map(email => email.trim())`: one entry per
      comma plus one, each trimmed and comma-free. */
  function ParseRecipients(recipients: string): (emails: seq<string>)
    ensures |emails| == Count(recipients, ',') + 1
    ensures forall i :: 0 <= i < |emails| ==> ',' !in emails[i]
    ensures forall i :: 0 <= i < |emails| ==> Trim(emails[i]) == emails[i]
  {
    var pieces := Split(recipients, ',');
    var emails := seq(|pieces|, i requires 0 <= i < |pieces| => Trim(pieces[i]));
    forall i | 0 <= i < |emails|
      ensures ',' !in emails[i] && Trim(emails[i]) == emails[i]
    {
      TrimKeepsAbsence(pieces[i], ',');
      TrimTrimmed(emails[i]);
    }
    emails
  }

  /** Parsing a comma-joined list of comma-free entries gives the entries
      back, each trimmed. */
  lemma ParseJoinedRecipients(entries: seq<string>)
    requires |entries| > 0
    requires forall i :: 0 <= i < |entries| ==> ',' !in entries[i]
    ensures |ParseRecipients(Join(entries, ','))| == |entries|
    ensures forall i :: 0 <= i < |entries| ==> ParseRecipients(Join(entries, ','))[i] == Trim(entries[i])
  {
    SplitJoin(entries, ',');
  }

  /** Parsing undoes joining for entries that are already trimmed. */
  lemma ParseJoinedTrimmed(emails: seq<string>)
    requires |emails| > 0
    requires forall i :: 0 <= i < |emails| ==> ',' !in emails[i] && Trim(emails[i]) == emails[i]
    ensures ParseRecipients(Join(emails, ',')) == emails
  {
    ParseJoinedRecipients(emails);
  }

  /** Empty entries are kept: a trailing comma adds one empty entry. */
  lemma TrailingCommaKeepsEmpty(recipients: string)
    ensures ParseRecipients(recipients + ",") == ParseRecipients(recipients) + [""]
  {
    var pieces := Split(recipients, ',');
    var longer := Split(recipients + ",", ',');
    SplitAppendSeparator(recipients, ',');
    assert longer == pieces + [""];
    TrimTrimmed("");
    var e := ParseRecipients(recipients);
    var e2 := ParseRecipients(recipients + ",");
    assert |e2| == |e| + 1;
    forall i | 0 <= i < |e| ensures e2[i] == e[i] {
      assert e2[i] == Trim(longer[i]) && longer[i] == pieces[i];
    }
    assert e2[|e|] == Trim("") == "";
    assert e2 == e + [""];
  }

  /** The JSON body `handleSendEmail` posts. */
  datatype EmailPayload = EmailPayload(recipients: seq<string>, subject: string, message: string)

  /** `handleSendEmail`: no request (`None`) when the recipients or the
      summary are blank; otherwise the parsed recipients, the subject as
      typed, and the summary as the message. */
  function EmailRequest(recipients: string, subject: string, summary: string): (payload: Option<EmailPayload>)
    ensures payload.None? <==> IsBlank(recipients) || IsBlank(summary)
    ensures payload.Some? ==> payload.value.message == summary && payload.value.subject == subject
    ensures payload.Some? ==> payload.value.recipients == ParseRecipients(recipients)
    ensures payload.Some? ==> |payload.value.recipients| == Count(recipients, ',') + 1
  {
    if Trim(recipients) == "" || Trim(summary) == "" then None
    else Some(EmailPayload(ParseRecipients(recipients), subject, summary))
  }

  /** How the form arrives at the summarize handler: text entries become body
      fields and the `pdfFile` entry becomes the uploaded file. Values arrive
      as the browser put them in the form; the line-break rewriting of the
      multipart encoding is not modelled. */
  function Received(form: seq<FormEntry>): SummarizeController.Request {
    SummarizeController.Request(TextField(form, "transcript"), TextField(form, "prompt"), FileField(form))
  }

  /** The first text entry called `name`, if any. */
  function TextField(form: seq<FormEntry>, name: string): Option<string> {
    if form == [] then None
    else if form[0].name == name && form[0].value.TextValue? then Some(form[0].value.text)
    else TextField(form[1..], name)
  }

  /** The first file entry called `pdfFile`, if any. */
  function FileField(form: seq<FormEntry>): Option<SummarizeController.Upload> {
    if form == [] then None
    else if form[0].name == "pdfFile" && form[0].value.FileValue? then
      Some(SummarizeController.Upload(form[0].value.file.name, form[0].value.file.contents))
    else FileField(form[1..])
  }

  /** A transcript the browser lets through is never reported missing by the
      handler: the handler trims it the same way. */
  lemma BrowserTranscriptReachesHandler(transcript: string, prompt: string)
    requires !IsBlank(transcript)
    ensures GenerateForm(None, transcript, prompt).Some?
    ensures var req := Received(GenerateForm(None, transcript, prompt).value);
      && req.file.None?
      && SummarizeController.WorkingText(req) == Trim(transcript) != ""
      && SummarizeController.Decide(req) != SummarizeController.Respond(Http.Fail(400, SummarizeController.MissingText))
  {
    var form := GenerateForm(None, transcript, prompt).value;
    assert form == [FormEntry("prompt", TextValue(prompt)), FormEntry("transcript", TextValue(transcript))];
    assert form[1..] == [FormEntry("transcript", TextValue(transcript))];
    assert form[1..][1..] == [];
    assert TextField(form, "transcript") == Some(transcript);
    assert FileField(form[1..][1..]) == None;
    assert FileField(form[1..]) == None;
    assert "prompt" != "pdfFile";
    assert FileField(form) == None;
  }

  /** The browser does not check the prompt: a blank prompt sent with a
      transcript reaches the handler, which rejects it. */
  lemma BlankPromptReachesHandler(transcript: string, prompt: string)
    requires !IsBlank(transcript) && IsBlank(prompt)
    ensures GenerateForm(None, transcript, prompt).Some?
    ensures SummarizeController.Decide(Received(GenerateForm(None, transcript, prompt).value))
        == SummarizeController.Respond(Http.Fail(400, SummarizeController.MissingPrompt))
  {
    var form := GenerateForm(None, transcript, prompt).value;
    assert form == [FormEntry("prompt", TextValue(prompt)), FormEntry("transcript", TextValue(transcript))];
    assert form[1..] == [FormEntry("transcript", TextValue(transcript))];
    assert form[1..][1..] == [];
    assert "prompt" != "transcript" && "prompt" != "pdfFile";
    assert TextField(form, "prompt") == Some(prompt);
    assert TextField(form, "transcript") == Some(transcript);
    assert FileField(form[1..][1..]) == None;
    assert FileField(form[1..]) == None;
    assert FileField(form) == None;
    var req := Received(form);
    assert SummarizeController.WorkingText(req) != "";
    assert SummarizeController.PromptMissing(req.prompt);
  }

  /** How the payload arrives at the send-email handler. */
  function ReceivedEmail(payload: EmailPayload): EmailController.Request {
    EmailController.Request(Some(payload.recipients), Some(payload.subject), Some(payload.message))
  }

  /** Every payload the browser sends passes the handler's validation, the
      mail goes to the parsed addresses joined with commas, and splitting
      that field gives the parsed addresses back. */
  lemma BrowserEmailPassesValidation(recipients: string, subject: string, summary: string, account: string)
    requires EmailRequest(recipients, subject, summary).Some?
    ensures var req := ReceivedEmail(EmailRequest(recipients, subject, summary).value);
      && EmailController.HasRequiredFields(req)
      && EmailController.Decide(req, account).options.to == Join(ParseRecipients(recipients), ',')
      && Split(EmailController.Decide(req, account).options.to, ',') == ParseRecipients(recipients)
      && EmailController.Decide(req, account).options.text == summary
  {
    var emails := ParseRecipients(recipients);
    assert IsBlank("");
    SplitJoin(emails, ',');
  }
}
