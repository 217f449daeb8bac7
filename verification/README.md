# Meeting summarizer: request handling, clean-up and mail construction

A Dafny model of the logic core of the AI-powered meeting summarizer. The
backend has two request handlers. The frontend has the guards that decide
whether the browser sends a request at all.

- `generateSummary` (summarize endpoint). It checks the uploaded file's
  extension (only `txt` is accepted) and picks the working text: the upload
  replaces the trimmed transcript. It validates in a fixed order:
  extension, then text, then prompt. It composes the request for the
  text-generation service from a fixed template. It cleans the generated
  text: trim, then delete every `**`, every run of `#` and every `_`.
  Failures map to 400, 401 or 500.
- `sendEmail` (send-email endpoint). It validates recipients and message
  and builds the mail options: `to` is the comma-joined recipients,
  `subject` falls back to "Meeting Summary", `text` is the message, and
  `html` is the message in one paragraph with line feeds turned into `<br>`.
  Transport errors with code `EAUTH` map to 401 and all other errors to 500.
- The main page (`App.jsx`). `handleGenerate` checks for a file or a
  non-blank transcript and builds the multipart form. `handleSendEmail`
  checks that recipients and summary are non-blank, then splits the
  recipients at commas and trims each one. `AnimatedDots` has a tick
  function for its three-dot loading indicator.

Modules:

- `Optional`: an `Option` type for absent body fields.
- `Http`: the response shapes the handlers send.
- `Strings`: the JavaScript string operations the code uses: `trim`,
  `split` and `join` on one character, and ASCII `toLowerCase`. It also
  defines counting, character deletion and subsequence.
- `Cleanup`: the clean-up of the generated summary.
- `SummarizeController` and `EmailController`: the two handlers.
- `App` and `AnimatedDots`: the browser side, plus lemmas that follow a
  request from the browser into the handler that receives it.

The text-generation service and the mail transport are parameters. They are
total functions from the composed request (or the mail options) to the
outcome of the single call. Each handler is split into a `Decide` step, which
either answers at once or names the one call to make, and a finishing step.
"No call is made" therefore shows as the final response not depending on the
parameter.

Three facts about the code are worth stating up front:

- The clean-up is not idempotent: `*_*` cleans to `**`, and cleaning that
  again gives the empty string (`Cleanup.CleanupNotIdempotent`).
- The handler accepts only `txt` files. The browser's file picker still
  offers `.pdf`, `.doc` and `.docx`
  (frontend/src/components/TranscriptInput.jsx:76), its warning asks the user
  to upload a PDF (frontend/src/App.jsx:58), and the file is posted under the
  field name `pdfFile`. Any such file gets the unsupported-file-type answer.
- The HTML body escapes nothing: a `<br>` typed in a message cannot be told
  apart from a line feed (`EmailController.HtmlIsNotEscaped`).

## Model

| member | source | states |
|---|---|---|
| Strings.Trim | backend/src/controllers/summarizeController.js:21 | `trim` returns the slice left after the leading and trailing whitespace is dropped; the result is empty exactly when the input is all whitespace |
| Strings.Split | frontend/src/App.jsx:112 | `split(",")` yields one piece more than the number of commas, and no piece contains a comma |
| Strings.Join | backend/src/controllers/emailController.js:27 | `join(",")` puts one separator between neighbouring parts: joining separator-free parts gives exactly one separator fewer than there are parts |
| Strings.JoinSplit | frontend/src/App.jsx:112 | joining the pieces of a split with the separator gives the original string back |
| Strings.SplitJoin | backend/src/controllers/emailController.js:27 | splitting a non-empty list joined with a separator gives the list back when no item contains the separator |
| Strings.ToLowerAscii | backend/src/controllers/summarizeController.js:25 | lower-casing keeps the length and lower-cases each ASCII capital letter in place |
| Strings.Without | backend/src/controllers/summarizeController.js:76 | a global one-character deletion removes every occurrence of that character and nothing else; the result is a subsequence whose length drops by the count |
| Cleanup.StripBold | backend/src/controllers/summarizeController.js:76 | the global `**` deletion only deletes characters and leaves no two neighbouring stars |
| Cleanup.StripBoldRun | backend/src/controllers/summarizeController.js:76 | a maximal run of k stars at the start of the text becomes k mod 2 stars |
| Cleanup.StripBoldSplit | backend/src/controllers/summarizeController.js:76 | the `**` deletion handles the two sides of a cut separately when the cut does not fall inside a run of stars |
| Cleanup.StripBoldRunAnywhere | backend/src/controllers/summarizeController.js:76 | every maximal run of k stars, wherever it stands, becomes k mod 2 stars, and the text on each side is cleaned on its own |
| Cleanup.StripBoldDeletesStarPairs | backend/src/controllers/summarizeController.js:76 | the `**` deletion keeps every non-markup character in order and removes an even number of stars, nothing else |
| Cleanup.StripBoldKeepsPlainText | backend/src/controllers/summarizeController.js:76 | the `**` deletion keeps every character other than `*`, `#`, `_` in order |
| Cleanup.StripBoldStarCount | backend/src/controllers/summarizeController.js:76 | the `**` deletion removes an even number of stars, and the characters it removes are exactly those stars |
| Cleanup.StripRuns | backend/src/controllers/summarizeController.js:76 | deleting every maximal run of `#` leaves no `#` and never lengthens the text; its first character is kept when it is not `#` |
| Cleanup.StripRunsIsWithout | backend/src/controllers/summarizeController.js:76 | deleting every maximal run of `#` is the same as deleting every `#` |
| Cleanup.StripMarkdown | backend/src/controllers/summarizeController.js:76 | the three deletions yield a subsequence of the input with no `#` and no `_`, keeping every character other than `*`, `#`, `_` in order |
| Cleanup.BoldPhraseStripped | backend/src/controllers/summarizeController.js:76 | a bold phrase followed by plain text comes out as the phrase and the text with the markers removed |
| Cleanup.CleanSummary | backend/src/controllers/summarizeController.js:73-76 | the returned summary is a subsequence of the trimmed generated text, has no `#` or `_`, and keeps all its plain characters in order |
| Cleanup.CleanupNotIdempotent | backend/src/controllers/summarizeController.js:76 | cleaning `*_*` gives `**` and cleaning again gives the empty string, so the clean-up is not idempotent |
| SummarizeController.Extension | backend/src/controllers/summarizeController.js:25 | the extension is the lower-cased text after the last `.`, or the whole name when there is no `.`; it contains no `.` |
| SummarizeController.TxtExtensionIff | backend/src/controllers/summarizeController.js:25-28 | a file name is accepted exactly when it is `txt` or ends in `.txt`, in any letter case |
| SummarizeController.WorkingText | backend/src/controllers/summarizeController.js:21-31 | with an upload the working text is its contents unchanged; without one it is empty exactly when the transcript is absent or blank, and otherwise has no whitespace at either end |
| SummarizeController.ComposeRequest | backend/src/controllers/summarizeController.js:44-66 | the service request is the fixed preamble, the working text, the fixed middle, the untrimmed prompt and the fixed guidelines, each found verbatim at its offset |
| SummarizeController.Decide | backend/src/controllers/summarizeController.js:20-41 | each 400 message is given exactly when its check is the first to fail (extension, then text, then prompt); otherwise the service is called with the composed request |
| SummarizeController.GenerateSummary | backend/src/controllers/summarizeController.js:72-86 | 200 with the cleaned text exactly when the service answers; 401 exactly when the service fails with response status 401; 500 for every other failure; 400 exactly when the request is rejected |
| SummarizeController.RejectionMakesNoCall | backend/src/controllers/summarizeController.js:26-41 | a rejected request gets a 400 that does not depend on the service |
| SummarizeController.UnsupportedFileWins | backend/src/controllers/summarizeController.js:21-28 | an unsupported upload is rejected whatever transcript and prompt come with it |
| SummarizeController.UploadReplacesTranscript | backend/src/controllers/summarizeController.js:21-31 | an accepted non-empty upload replaces the transcript, and its contents go into the request untrimmed |
| SummarizeController.TextCheckedBeforePrompt | backend/src/controllers/summarizeController.js:35-41 | missing text is reported even when the prompt is missing too |
| EmailController.BreakLines | backend/src/controllers/emailController.js:30 | replacing each line feed by `<br>` leaves no line feed and adds three characters per line feed |
| EmailController.HtmlBody | backend/src/controllers/emailController.js:30 | the HTML body starts with `<p>`, ends with `</p>`, has no line feed and has length of the message plus three per line feed plus seven |
| EmailController.UnbreakBreakLines | backend/src/controllers/emailController.js:30 | turning each `<br>` back into a line feed recovers the message when it did not already contain `<br>` |
| EmailController.HtmlIsNotEscaped | backend/src/controllers/emailController.js:30 | for every text before and after it, a `<br>` typed in a message and a line feed in its place give the same HTML, because nothing is escaped |
| EmailController.BreakLinesAppend | backend/src/controllers/emailController.js:30 | the line-feed replacement works on the parts of a message independently |
| EmailController.FromAddress | backend/src/controllers/emailController.js:26 | the `from` field is the display name "Meeting Summarizer" followed by the configured account in angle brackets |
| EmailController.ChooseSubject | backend/src/controllers/emailController.js:28 | the subject is the given one when non-empty and "Meeting Summary" otherwise, never empty |
| EmailController.BuildMail | backend/src/controllers/emailController.js:25-31 | the mail text is the message unchanged and the subject is non-empty; the HTML has no line feed and the stated length |
| EmailController.RecipientsRoundTrip | backend/src/controllers/emailController.js:27 | splitting the `to` field at commas gives the recipients back when none contains a comma |
| EmailController.Decide | backend/src/controllers/emailController.js:10-31 | the 400 answer is given exactly when recipients or message are missing or empty; otherwise the mail options carry the sender address, the joined recipients, the chosen subject, the message and its HTML |
| EmailController.SendEmail | backend/src/controllers/emailController.js:34-50 | 200 with success exactly when the send succeeds; 401 exactly when the send fails with code `EAUTH`; 500 for any other failure; 400 exactly when validation fails |
| EmailController.MissingFieldsMakeNoSend | backend/src/controllers/emailController.js:10-14 | an invalid request gets the 400 answer whatever the transport would do |
| App.GenerateForm | frontend/src/App.jsx:56-73 | no request exactly when no file is selected and the transcript is blank; the form carries `prompt` and `pdfFile` with a file, else `prompt` and the transcript as typed |
| App.ParseRecipients | frontend/src/App.jsx:112 | one entry per comma plus one, each comma-free and already trimmed |
| App.ParseJoinedRecipients | frontend/src/App.jsx:112 | parsing a comma-joined list of comma-free entries gives each entry back trimmed |
| App.ParseJoinedTrimmed | frontend/src/App.jsx:112 | parsing undoes joining for trimmed comma-free entries |
| App.TrailingCommaKeepsEmpty | frontend/src/App.jsx:112 | a trailing comma adds one empty entry; empty entries are not filtered out |
| App.EmailRequest | frontend/src/App.jsx:102-119 | no request exactly when recipients or summary are blank; otherwise the payload carries the parsed recipient list (one entry per comma plus one), the subject verbatim and the summary as message |
| App.BrowserTranscriptReachesHandler | frontend/src/App.jsx:56-73 | a transcript the browser sends is never reported missing by the handler, which works on the transcript trimmed |
| App.BlankPromptReachesHandler | frontend/src/App.jsx:56-73 | the browser does not check the prompt: for every non-blank transcript and blank prompt the request is sent and the handler answers 400 "Prompt is required." |
| App.BrowserEmailPassesValidation | frontend/src/App.jsx:102-119 | every payload the browser sends passes the handler's validation, and the `to` field splits back into the parsed recipients |
| AnimatedDots.Tick | frontend/src/App.jsx:30 | a tick keeps the state at three characters or fewer; it empties the state exactly when it already holds three or more, and otherwise appends one bullet |
| AnimatedDots.TickBullets | frontend/src/App.jsx:30 | from k bullets a tick gives k + 1 bullets, or none after three |
| AnimatedDots.TicksCycle | frontend/src/App.jsx:26-30 | after n ticks from the empty state the indicator shows n mod 4 bullets |
| AnimatedDots.TicksBounded | frontend/src/App.jsx:26-30 | the indicator never shows more than three bullets |
| AnimatedDots.TicksPeriodic | frontend/src/App.jsx:26-30 | the indicator repeats every four ticks |
| AnimatedDots.TicksReturnToEmpty | frontend/src/App.jsx:26-30 | starting from the empty state, the indicator is empty again after every fourth tick |

## Left out

- The text-generation client (model name, API key) and the nodemailer transport are not modelled. Each is a parameter that gives the outcome of its one call.
- The `EMAIL_USER` setting used in the `from` field is a parameter; the transport's service and password configuration are left out.
- UTF-8 decoding of the uploaded buffer is not modelled: uploads carry already-decoded text. The failure branch of `extractTextFromTXT`, which converts a decoding exception into a thrown error, therefore never arises and is left out.
- Strings.ToLowerAscii: lower-cases ASCII letters only, while `toLowerCase` also maps non-ASCII capitals. The extension is only compared with `txt`, and no non-ASCII character lower-cases to `t` or `x`, so the accept-or-reject decision is the same.
- String lengths count Unicode code points, not UTF-16 code units. No branch of the modelled code depends on the difference.
- Body fields with JSON values other than strings are left out: the model types `transcript`, `prompt`, `subject` and `message` as optional strings and `recipients` as an optional list of strings. In the source such values take several paths. A truthy non-string `subject` is passed to the transport as it is, and a falsy one falls back to the default. Non-string items in `recipients` are joined as JavaScript converts them. A non-string `prompt` goes unread when an earlier check answers 400 first. Where `trim` or `replace` is called on a non-string, the source throws and answers 500.
- App.BrowserTranscriptReachesHandler: the form's text values are modelled as arriving at the handler unchanged. A browser encodes each line break in a multipart text value as CRLF, so a multi-line transcript reaches the handler with carriage returns added. The working text then equals the trimmed transcript only up to that rewrite. The transcript is still never reported missing, because the added characters are whitespace and the transcript's non-whitespace characters are unchanged.
- Logging (including the API-key log), the Express, multer and dotenv wiring, and the routes are left out as framework plumbing. The one fact used from the routes is that the upload is read from the `pdfFile` field.
- On the browser side, the HTTP calls, toasts, loading flag, colour mode, view components and the 500 ms interval timer are left out. The dots are modelled as the state after n ticks.
