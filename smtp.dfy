/**
 * The SMTP session of one connection as a function of its state: the state
 * machine HELO -> MAIL -> RCPT -> DATA of RFC 821 as `SmtpRequestHandler`
 * runs it, one input line (one command, or a DATA command and its body) at a
 * time. The class in module SmtpSession is proved to change its fields
 * exactly as these functions say; the lemmas here are what the session
 * promises.
 */
module Smtp {
  import opened Options
  import opened JavaText
  import opened JavaHash
  import opened Address
  import opened DataBody
  import opened Mailbox

  // ---------------------------------------------------------------------------
  // State
  // ---------------------------------------------------------------------------

  /** The command the session waits for, numbered as the field `requiredCmd` numbers it. */
  type Stage = n: nat | n <= 3

  const HELO: Stage := 0
  const MAIL: Stage := 1
  const RCPT: Stage := 2
  const DATA: Stage := 3

  /**
   * Whether the session's thread still runs the command loop: it stops on
   * EXIT (the process exits), on a null line at the end of the input, and on
   * an out-of-bounds index in the recipient check (both uncaught).
   */
  datatype Halt = Running | Exited | NullLine | IndexOutOfRange

  /** What the session is given and never changes: the accepted domain, the two host names, and which mailbox files cannot be opened. */
  datatype Config = Config(domain: string, serverName: string, peerName: string, unwritable: set<string>)

  /** The fields of the handler, the lines still to be read, the replies sent and the mailbox files. */
  datatype Snapshot = Snapshot(
    requiredCmd: Stage,
    messageText: string,
    recipients: seq<string>,
    quit: bool,
    halt: Halt,
    input: seq<string>,
    output: seq<string>,
    files: map<string, string>)

  /** Every field but the input and the replies is the same in `a` and `b`. */
  predicate SameSession(a: Snapshot, b: Snapshot)
  {
    a.requiredCmd == b.requiredCmd && a.messageText == b.messageText && a.recipients == b.recipients &&
    a.quit == b.quit && a.halt == b.halt && a.files == b.files
  }

  // ---------------------------------------------------------------------------
  // Replies
  // ---------------------------------------------------------------------------

  /** `sendResponse(code, message)` writes `code + " " + message + "\r\n"`. */
  function Reply(code: nat, message: string): string
  {
    NatToString(code) + " " + message + "\r\n"
  }

  function Say(s: Snapshot, code: nat, message: string): Snapshot
  {
    s.(output := s.output + [Reply(code, message)])
  }

  const PoliteHelo := "Polite people say HELO first"
  const HeloNeedsAddress := "HELO requires valid address"
  const SenderAlready := "sender already specified"
  const MalformedAddress := "malformed address"
  const SyntaxError := "syntax error in parameter scanning"
  const NeedMailRcpt := "need MAIL before RCPT"
  const NeedMailData := "need MAIL before DATA"
  const NeedRcptData := "need RCPT before DATA"
  const EnterMail := "enter mail, end with '.' on a line by itself"
  const Unrecognized := "unrecognized command"

  function Greeting(c: Config): string
  {
    c.serverName + " hello " + c.peerName + " pleased to meet you"
  }

  function Rejection(c: Config): string
  {
    "Recipient rejected. Only mail destined for " + c.domain + " can be delivered."
  }

  function Accepted(text: string): string
  {
    IntToString(HashCode(text)) + " mail accepted for delivery"
  }

  /** The 503 that `heloDone` sends while no HELO has been accepted. */
  function Polite(s: Snapshot): Snapshot
  {
    Say(s, 503, PoliteHelo)
  }

  // ---------------------------------------------------------------------------
  // Dispatch
  // ---------------------------------------------------------------------------

  datatype Verb = HeloVerb | MailVerb | RcptVerb | DataVerb | QuitVerb | RsetVerb | NoopVerb | ExitVerb | OtherVerb

  /** The verb of a command line: the first of the keywords its upper case starts with. */
  function Classify(cmd: string): Verb
  {
    var u := Upper(cmd);
    if StartsWith(u, "HELO") then HeloVerb
    else if StartsWith(u, "MAIL") then MailVerb
    else if StartsWith(u, "RCPT") then RcptVerb
    else if StartsWith(u, "DATA") then DataVerb
    else if StartsWith(u, "QUIT") then QuitVerb
    else if StartsWith(u, "RSET") then RsetVerb
    else if StartsWith(u, "NOOP") then NoopVerb
    else if StartsWith(u, "EXIT") then ExitVerb
    else OtherVerb
  }

  /**
   * `cmd.substring(5).split(" ")` when the line is longer than four UTF-16
   * code units (`length()` counts those), no parameters otherwise.
   */
  function Params(cmd: string): seq<string>
  {
    if |Utf16(cmd)| > 4 then Split(Substring(cmd, 5), ' ') else []
  }

  // ---------------------------------------------------------------------------
  // Commands
  // ---------------------------------------------------------------------------

  /** `parseHelo`. */
  function OnHelo(c: Config, s: Snapshot, params: seq<string>): (r: Snapshot)
    ensures r.input == s.input
  {
    if |params| > 0 then
      var t := Say(s, 250, Greeting(c));
      if s.requiredCmd == HELO then t.(requiredCmd := MAIL) else t
    else Say(s, 501, HeloNeedsAddress)
  }

  /** `parseMail`, reached once HELO has been accepted. */
  function OnMail(s: Snapshot, params: seq<string>): (r: Snapshot)
    ensures r.input == s.input
  {
    if s.requiredCmd == MAIL then
      match CheckMail(params)
      case MailAccepted(addr) => Say(s, 250, addr + " sender ok").(messageText := params[0], requiredCmd := RCPT)
      case MailMalformed => Say(s, 550, MalformedAddress)
      case MailSyntax => Say(s, 501, SyntaxError)
    else Say(s, 503, SenderAlready)
  }

  /** `parseRcpt`, reached once HELO has been accepted. */
  function OnRcpt(c: Config, s: Snapshot, params: seq<string>): (r: Snapshot)
    ensures r.input == s.input
  {
    if s.requiredCmd < RCPT then Say(s, 503, NeedMailRcpt)
    else
      match CheckRcpt(c.domain, params)
      case RcptSyntax => Say(s, 501, SyntaxError)
      case RcptMalformed => Say(s, 550, MalformedAddress)
      case RcptOutOfBounds => s.(halt := IndexOutOfRange)
      case RcptRejected => Say(s, 503, Rejection(c))
      case RcptAccepted(addr, local) =>
        var t := Say(s, 250, addr + " recipient ok").(messageText := s.messageText + "\n" + params[0]);
        if s.requiredCmd == RCPT then t.(requiredCmd := DATA, recipients := [local])
        else t.(recipients := s.recipients + [local])
  }

  /** `resetMsg`: back to waiting for MAIL with no text; the recipient list is left as it is. */
  function OnReset(s: Snapshot): Snapshot
  {
    if s.requiredCmd == HELO then Polite(s) else s.(requiredCmd := MAIL, messageText := "")
  }

  /** The file names `saveMsgData` writes: the recipient list joined by commas and split again. */
  function Targets(recipients: seq<string>): seq<string>
  {
    Split(Join(recipients, ','), ',')
  }

  /** `saveMsgData`: one append of the framed message text per target. */
  function OnSave(c: Config, s: Snapshot): Snapshot
  {
    s.(files := Deliver(s.files, Targets(s.recipients), "\n" + s.messageText + "\n", c.unwritable))
  }

  /** `parseData`, reached once HELO has been accepted: the body, its delivery, the reply and the reset. */
  function OnData(c: Config, s: Snapshot): (r: Snapshot)
    ensures |r.input| <= |s.input|
  {
    if s.requiredCmd < RCPT then Say(s, 503, NeedMailData)
    else if s.requiredCmd < DATA then Say(s, 503, NeedRcptData)
    else
      var t := Say(s, 354, EnterMail);
      match ReadBody(t.input)
      case None => t.(input := [], halt := NullLine)
      case Some(b) =>
        var text := t.messageText + b.text;
        var saved := OnSave(c, t.(input := t.input[b.used..], messageText := text));
        OnReset(Say(saved, 250, Accepted(text)))
  }

  /** What `handleCommand` does with the line `cmd` once it has been read. */
  function Execute(c: Config, t: Snapshot, cmd: string): (r: Snapshot)
    ensures |r.input| <= |t.input|
  {
    var params := Params(cmd);
    match Classify(cmd)
    case HeloVerb => OnHelo(c, t, params)
    case MailVerb => if t.requiredCmd == HELO then Polite(t) else OnMail(t, params)
    case RcptVerb => if t.requiredCmd == HELO then Polite(t) else OnRcpt(c, t, params)
    case DataVerb => if t.requiredCmd == HELO then Polite(t) else OnData(c, t)
    case QuitVerb => t.(quit := true)
    case RsetVerb => Say(OnReset(t), 250, "OK")
    case NoopVerb => Say(t, 250, "OK")
    case ExitVerb => Say(t, 999, "Exiting Application").(halt := Exited)
    case OtherVerb => Say(t, 500, Unrecognized)
  }

  /** `handleCommand`: read one line and act on it. */
  function Step(c: Config, s: Snapshot): (r: Snapshot)
    ensures |r.input| < |s.input| || (s.input == [] && r == s.(halt := NullLine))
  {
    if s.input == [] then s.(halt := NullLine)
    else Execute(c, s.(input := s.input[1..]), s.input[0])
  }

  /** After the loop: the closing reply when it ended on QUIT, nothing when the thread died. */
  function Close(c: Config, s: Snapshot): Snapshot
  {
    if s.halt == Running then Say(s, 221, c.serverName + " closing connection") else s
  }

  /** The command loop of `run`: `handleCommand` until QUIT (or until the thread stops). */
  function Serve(c: Config, s: Snapshot): Snapshot
    decreases |s.input|, if s.halt == Running then 1 else 0
  {
    if s.quit || s.halt != Running then Close(c, s) else Serve(c, Step(c, s))
  }

  /** `run`: the greeting, then the command loop. */
  function SessionRun(c: Config, s: Snapshot): Snapshot
  {
    Serve(c, Say(s, 220, c.serverName + " SMTP server ready"))
  }
}
