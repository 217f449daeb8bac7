/** The send-email endpoint's handler (`sendEmail`): it validates the
    recipients and the message, builds the mail options and maps the mail
    transport's failures to HTTP statuses.

    The transport is outside the model: it is a parameter `send`, a total
    function from the mail options to the outcome of the one send attempt.
    The sender account (the `EMAIL_USER` setting) is a parameter too. */
module EmailController {
  import opened Optional
  import opened Strings
  import opened Http

  /** The JSON body fields the handler reads. */
  datatype Request = Request(recipients: Option<seq<string>>, subject: Option<string>, message: Option<string>)

  /** The message handed to the transport. */
  datatype MailOptions = MailOptions(from: string, to: string, subject: string, text: string, html: string)

  /** The outcome of one send attempt: delivered, or a thrown error whose
      `code` may be set. */
  datatype SendResult = Sent | SendFailed(code: Option<string>)

  /** The handler either answers at once or makes one send attempt. */
  datatype Step = Respond(response: Response) | Send(options: MailOptions)

  const DefaultSubject: string := "Meeting Summary"
  const MissingFields: string := "Recipients and message are required"
  const SentMessage: string := "Email sent successfully"
  const AuthFailed: string := "Authentication failed. Check EMAIL_USER and EMAIL_PASS (use App Password)."
  const SendFailedMessage: string := "Failed to send email"

  /** The global replacement of each line feed in `message` by `<br>`. */
  function BreakLines(message: string): (r: string)
    ensures '\n' !in r
    ensures |r| == |message| + 3 * Count(message, '\n')
    ensures message != [] ==> r != [] && r[0] == (if message[0] == '\n' then '<' else message[0])
  {
    if message == [] then []
    else (if message[0] == '\n' then "<br>" else [message[0]]) + BreakLines(message[1..])
  }

  /** The HTML part of the mail: the message in one paragraph, line feeds
      turned into `<br>`, nothing escaped. */
  function HtmlBody(message: string): (html: string)
    ensures '\n' !in html
    ensures |html| == |message| + 3 * Count(message, '\n') + 7
    ensures html[..3] == "<p>" && html[|html| - 4..] == "</p>"
  {
    "<p>" + BreakLines(message) + "</p>"
  }

  /** `s` starts with the text `<br>`. */
  predicate StartsWithBreakTag(s: string) {
    |s| >= 4 && s[0] == '<' && s[1] == 'b' && s[2] == 'r' && s[3] == '>'
  }

  /** `s` contains the text `<br>` somewhere. */
  predicate HasBreakTag(s: string)
    decreases |s|
  {
    StartsWithBreakTag(s) || (s != [] && HasBreakTag(s[1..]))
  }

  /** Reads a `<br>`-broken text back, turning each `<br>` into a line feed. */
  function UnbreakLines(h: string): string
    decreases |h|
  {
    if StartsWithBreakTag(h) then "\n" + UnbreakLines(h[4..])
    else if h == [] then []
    else [h[0]] + UnbreakLines(h[1..])
  }

  /** The line breaks lose nothing when the message does not itself contain
      `<br>`: reading them back gives the message. */
  lemma {:induction false} UnbreakBreakLines(message: string)
    requires !HasBreakTag(message)
    ensures UnbreakLines(BreakLines(message)) == message
    decreases |message|
  {
    var m := message;
    if m != [] {
      var b := BreakLines(m);
      var rest := BreakLines(m[1..]);
      UnbreakBreakLines(m[1..]);
      if m[0] == '\n' {
        assert b == "<br>" + rest;
        assert StartsWithBreakTag(b) && b[4..] == rest;
      } else {
        assert b == [m[0]] + rest;
        BreakTagComesFromMessage(m);
        assert b[1..] == rest;
      }
      assert m == [m[0]] + m[1..];
    }
  }

  /** A `<br>` at the start of the broken text that was not put there for a
      line feed was already at the start of the message. */
  lemma BreakTagComesFromMessage(m: string)
    requires m != [] && m[0] != '\n'
    ensures StartsWithBreakTag(BreakLines(m)) ==> StartsWithBreakTag(m)
  {
    var b := BreakLines(m);
    if StartsWithBreakTag(b) {
      var m1 := m[1..];
      var b1 := BreakLines(m1);
      assert b == [m[0]] + b1;
      assert b1[0] == 'b';
      assert m1[0] == 'b';
      var m2 := m1[1..];
      var b2 := BreakLines(m2);
      assert b1 == [m1[0]] + b2;
      assert b2[0] == 'r';
      var m3 := m2[1..];
      var b3 := BreakLines(m3);
      assert b2 == [m2[0]] + b3;
      assert b3[0] == '>';
      assert m[1] == m1[0] && m[2] == m2[0] && m[3] == m3[0];
    }
  }

  /** Line breaks are replaced piece by piece. */
  lemma {:induction false} BreakLinesAppend(a: string, b: string)
    ensures BreakLines(a + b) == BreakLines(a) + BreakLines(b)
    decreases |a|
  {
    if a == [] {
      assert a + b == b;
    } else {
      assert (a + b)[0] == a[0];
      assert (a + b)[1..] == a[1..] + b;
      BreakLinesAppend(a[1..], b);
    }
  }

  /** Since nothing is escaped, a `<br>` typed in a message and a line feed in
      its place give the same HTML. */
  lemma HtmlIsNotEscaped(a: string, b: string)
    ensures HtmlBody(a + "<br>" + b) == HtmlBody(a + "\n" + b)
  {
    assert BreakLines("<br>") == "<br>" by {
      assert BreakLines(">") == ">";
      assert BreakLines("r>") == "r>";
      assert BreakLines("br>") == "br>";
    }
    assert BreakLines("\n") == "<br>";
    BreakLinesAppend(a, "<br>");
    BreakLinesAppend(a + "<br>", b);
    BreakLinesAppend(a, "\n");
    BreakLinesAppend(a + "\n", b);
  }

  /** The `from` field: a fixed display name and the configured account. */
  function FromAddress(account: string): (from: string)
    ensures |from| == |account| + 23
    ensures from[..22] == "\"Meeting Summarizer\" <"
    ensures from[22..|from| - 1] == account && from[|from| - 1] == '>'
  {
    "\"Meeting Summarizer\" <" + account + ">"
  }

  /** The subject: the given one, or the default when it is absent or empty. */
  function ChooseSubject(subject: Option<string>): (s: string)
    ensures s != ""
    ensures subject.Some? && subject.value != "" ==> s == subject.value
    ensures subject.None? || subject.value == "" ==> s == DefaultSubject
  {
    if subject.None? || subject.value == "" then DefaultSubject else subject.value
  }

  /** The mail options for a validated request. */
  function BuildMail(account: string, recipients: seq<string>, subject: Option<string>, message: string): (o: MailOptions)
    ensures o.text == message
    ensures '\n' !in o.html
    ensures |o.html| == |message| + 3 * Count(message, '\n') + 7
    ensures o.subject != ""
  {
    MailOptions(FromAddress(account), Join(recipients, ','), ChooseSubject(subject), message, HtmlBody(message))
  }

  /** The `to` field lists the recipients: splitting it at the commas gives
      them back, provided none contains a comma. */
  lemma RecipientsRoundTrip(account: string, recipients: seq<string>, subject: Option<string>, message: string)
    requires |recipients| > 0
    requires forall i :: 0 <= i < |recipients| ==> ',' !in recipients[i]
    ensures Split(BuildMail(account, recipients, subject, message).to, ',') == recipients
  {
    SplitJoin(recipients, ',');
  }

  /** Validation: the recipient list must be present and non-empty and the
      message present and non-empty. */
  predicate HasRequiredFields(req: Request) {
    && req.recipients.Some? && |req.recipients.value| > 0
    && req.message.Some? && req.message.value != ""
  }

  /** Everything the handler does before the send attempt. */
  function Decide(req: Request, account: string): (step: Step)
    ensures step.Respond? <==> !HasRequiredFields(req)
    ensures step.Respond? ==> step.response == Fail(400, MissingFields)
    ensures step.Send? ==> step.options.text == req.message.value
    ensures step.Send? ==> step.options.to == Join(req.recipients.value, ',')
    ensures step.Send? ==> step.options.subject == ChooseSubject(req.subject)
    ensures step.Send? ==> step.options.html == HtmlBody(req.message.value)
    ensures step.Send? ==> step.options.from == FromAddress(account)
  {
    if !HasRequiredFields(req) then Respond(Fail(400, MissingFields))
    else Send(BuildMail(account, req.recipients.value, req.subject, req.message.value))
  }

  /** The whole handler: validation, at most one send attempt, and the
      mapping of a thrown error to 401 when its code is `EAUTH` and to 500
      otherwise. */
  function SendEmail(req: Request, account: string, send: MailOptions -> SendResult): (res: Response)
    ensures res.status in {200, 400, 401, 500}
    ensures res.status == 400 <==> !HasRequiredFields(req)
    ensures res.status == 200 <==> Decide(req, account).Send? && send(Decide(req, account).options) == Sent
    ensures res.status == 200 ==> res.body == SuccessBody(true, SentMessage)
    ensures res.status == 401
        <==> Decide(req, account).Send? && send(Decide(req, account).options) == SendFailed(Some("EAUTH"))
    ensures res.status == 401 ==> res.body == ErrorBody(AuthFailed)
    ensures res.status == 500 ==> res.body == ErrorBody(SendFailedMessage)
  {
    match Decide(req, account)
    case Respond(response) => response
    case Send(options) =>
      match send(options)
      case Sent => Response(200, SuccessBody(true, SentMessage))
      case SendFailed(code) =>
        if code == Some("EAUTH") then Fail(401, AuthFailed) else Fail(500, SendFailedMessage)
  }

  /** A request missing a required field is answered without a send attempt. */
  lemma MissingFieldsMakeNoSend(req: Request, account: string,
                                send: MailOptions -> SendResult, other: MailOptions -> SendResult)
    requires !HasRequiredFields(req)
    ensures SendEmail(req, account, send) == SendEmail(req, account, other) == Fail(400, MissingFields)
  {
  }
}
