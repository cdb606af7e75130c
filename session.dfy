/**
 * `SmtpRequestHandler`: one connection's session object. The socket's input
 * is the queue of lines `input` that `readLine` takes from (an empty queue is
 * the null `readLine` returns at the end of the stream), its output the
 * sequence of replies written, and the mailbox directory a `MailStore`. Every
 * method is proved to change the fields exactly as the matching function of
 * module Smtp says.
 */
module SmtpSession {
  import opened Options
  import opened JavaText
  import opened JavaHash
  import opened Address
  import opened DataBody
  import opened Mailbox
  import opened Smtp

  class Session {
    const domain: string
    const serverName: string
    const peerName: string
    const store: MailStore

    var requiredCmd: Stage
    var messageText: string
    var recipients: seq<string>
    var quit: bool
    var halt: Halt
    var input: seq<string>
    var output: seq<string>

    function Cfg(): Config
    {
      Config(domain, serverName, peerName, store.unwritable)
    }

    function Abs(): Snapshot
      reads this, store
    {
      Snapshot(requiredCmd, messageText, recipients, quit, halt, input, output, store.files)
    }

    /** A new session on an accepted connection, waiting for HELO. */
    constructor (domain: string, serverName: string, peerName: string, store: MailStore, input: seq<string>)
      ensures Cfg() == Config(domain, serverName, peerName, store.unwritable) && this.store == store
      ensures Abs() == Snapshot(HELO, "", [], false, Running, input, [], store.files)
    {
      this.domain := domain;
      this.serverName := serverName;
      this.peerName := peerName;
      this.store := store;
      requiredCmd := HELO;
      messageText := "";
      recipients := [];
      quit := false;
      halt := Running;
      this.input := input;
      output := [];
    }

    /** `input.readLine()`: the next line, or `None` (null) when the input has ended. */
    method ReadLine() returns (line: Option<string>)
      modifies this
      ensures line == if old(input) == [] then None else Some(old(input)[0])
      ensures Abs() == old(Abs()).(input := if old(input) == [] then [] else old(input)[1..])
    {
      if input == [] {
        line := None;
      } else {
        line := Some(input[0]);
        input := input[1..];
      }
    }

    method SendResponse(code: nat, message: string)
      modifies this
      ensures Abs() == Say(old(Abs()), code, message)
    {
      output := output + [Reply(code, message)];
    }

    /** Whether HELO has been accepted; sends the 503 when it has not. */
    method HeloDone() returns (done: bool)
      modifies this
      ensures done == (old(requiredCmd) != HELO)
      ensures Abs() == if done then old(Abs()) else Polite(old(Abs()))
    {
      if requiredCmd == HELO {
        SendResponse(503, PoliteHelo);
      }
      done := requiredCmd > HELO;
    }

    method ParseHelo(params: seq<string>)
      modifies this
      ensures Abs() == OnHelo(Cfg(), old(Abs()), params)
    {
      if |params| > 0 {
        SendResponse(250, serverName + " hello " + peerName + " pleased to meet you");
        if requiredCmd == HELO {
          requiredCmd := MAIL;
        }
      } else {
        SendResponse(501, HeloNeedsAddress);
      }
    }

    method ParseMail(params: seq<string>)
      modifies this
      ensures Abs() == OnMail(old(Abs()), params)
    {
      if requiredCmd == MAIL {
        if |params| > 0 && StartsWith(Upper(params[0]), "FROM") {
          var addr := "";
          if |Split(params[0], ':')| > 1 {
            addr := Split(params[0], ':')[1];
          }
          if SenderPattern(addr) {
            SendResponse(250, addr + " sender ok");
            messageText := params[0];
            requiredCmd := RCPT;
          } else {
            SendResponse(550, MalformedAddress);
          }
        } else {
          SendResponse(501, SyntaxError);
        }
      } else {
        SendResponse(503, SenderAlready);
      }
    }

    method ParseRcpt(params: seq<string>)
      modifies this
      ensures Abs() == OnRcpt(Cfg(), old(Abs()), params)
    {
      if requiredCmd < RCPT {
        SendResponse(503, NeedMailRcpt);
      } else {
        CheckRecipient(params);
      }
    }

    /** The part of `parseRcpt` past the stage test: the syntax, pattern and domain checks. */
    method CheckRecipient(params: seq<string>)
      requires requiredCmd >= RCPT
      modifies this
      ensures Abs() == OnRcpt(Cfg(), old(Abs()), params)
    {
      if |params| > 0 && StartsWith(Upper(params[0]), "TO") {
        var addr := "";
        if |Split(params[0], ':')| > 1 {
          addr := Split(params[0], ':')[1];
        }
        assert addr == AddressField(params[0]);
        if RecipientPattern(addr) {
          RouteRecipient(params, addr);
        } else {
          assert CheckRcpt(domain, params) == RcptMalformed;
          SendResponse(550, MalformedAddress);
        }
      } else {
        assert CheckRcpt(domain, params) == RcptSyntax;
        SendResponse(501, SyntaxError);
      }
    }

    /** The domain check of `parseRcpt`, for an address that matched the recipient pattern. */
    method RouteRecipient(params: seq<string>, addr: string)
      requires requiredCmd >= RCPT && |params| > 0 && StartsWith(Upper(params[0]), "TO")
      requires addr == AddressField(params[0]) && RecipientPattern(addr)
      modifies this
      ensures Abs() == OnRcpt(Cfg(), old(Abs()), params)
    {
      var a := RemoveAngles(addr);
      var parts := Split(a, '@');
      if |parts| < 2 {
        assert CheckRcpt(domain, params) == RcptOutOfBounds;
        // a.split("@")[1] throws and ends the thread
        halt := IndexOutOfRange;
      } else if parts[1] == domain {
        assert CheckRcpt(domain, params) == RcptAccepted(addr, parts[0]);
        AddRecipient(params, addr, parts[0]);
      } else {
        assert CheckRcpt(domain, params) == RcptRejected;
        SendResponse(503, "Recipient rejected. Only mail destined for " + domain + " can be delivered.");
      }
    }

    /** An accepted recipient: the reply, the text, and the recipient list replaced or extended. */
    method AddRecipient(params: seq<string>, addr: string, local: string)
      requires requiredCmd >= RCPT && CheckRcpt(domain, params) == RcptAccepted(addr, local)
      modifies this
      ensures Abs() == OnRcpt(Cfg(), old(Abs()), params)
    {
      SendResponse(250, addr + " recipient ok");
      messageText := messageText + "\n" + params[0];
      if requiredCmd == RCPT {
        requiredCmd := DATA;
        recipients := [local];
      } else {
        recipients := recipients + [local];
      }
    }

    method ParseData()
      modifies this, store
      ensures Abs() == OnData(Cfg(), old(Abs()))
    {
      if requiredCmd < RCPT {
        SendResponse(503, NeedMailData);
      } else if requiredCmd < DATA {
        SendResponse(503, NeedRcptData);
      } else {
        SendResponse(354, EnterMail);
        var msg := ReadMessage();
        if msg.None? {
          // msgLine.equals(".") on a null line throws and ends the thread
          halt := NullLine;
          return;
        }
        messageText := messageText + msg.value;
        SaveMsgData();
        SendResponse(250, IntToString(HashCode(messageText)) + " mail accepted for delivery");
        ResetMsg();
      }
    }

    /**
     * The read loop of `parseData`: lines up to the first `.`, each with one
     * leading `.` removed and a newline before it; `None` when the input ends
     * first (the point where the source dereferences null).
     */
    method ReadMessage() returns (msg: Option<string>)
      modifies this
      ensures ReadBody(old(input)).None? ==> msg == None && Abs() == old(Abs()).(input := [])
      ensures ReadBody(old(input)).Some? ==>
        var b := ReadBody(old(input)).value;
        msg == Some(b.text) && Abs() == old(Abs()).(input := old(input)[b.used..])
    {
      ghost var start := input;
      ghost var k := 0;
      var text := "";
      PrependNothing(ReadBody(start));
      while true
        invariant k <= |start| && input == start[k..]
        invariant ReadBody(start) == Prepend(text, k, ReadBody(input))
        invariant requiredCmd == old(requiredCmd) && messageText == old(messageText) && recipients == old(recipients)
        invariant quit == old(quit) && halt == old(halt) && output == old(output)
        decreases |input|
      {
        if input == [] {
          msg := None;
          return;
        }
        var l := input[0];
        input := input[1..];
        if l == "." {
          assert text + "" == text;
          msg := Some(text);
          return;
        }
        ghost var raw := l;
        assert start[k..][1..] == input;
        ReadBodyStep(start[k..]);
        if StartsWith(l, ".") {
          l := l[1..];
        }
        assert l == Unstuff(raw);
        PrependLine(text, k, l, ReadBody(input));
        text := text + "\n" + l;
        k := k + 1;
      }
    }

    /** Appends the framed message text to the file of each target, in order. */
    method SaveMsgData()
      modifies store
      ensures Abs() == OnSave(Cfg(), old(Abs()))
    {
      var users := Split(Join(recipients, ','), ',');
      var text := "\n" + messageText + "\n";
      var i := 0;
      while i < |users|
        invariant 0 <= i <= |users|
        invariant store.files == Deliver(old(store.files), users[..i], text, store.unwritable)
      {
        store.Append(users[i], text);
        assert users[..i + 1][..i] == users[..i];
        i := i + 1;
      }
      assert users[..|users|] == users;
    }

    method ResetMsg()
      modifies this
      ensures Abs() == OnReset(old(Abs()))
    {
      var done := HeloDone();
      if done {
        requiredCmd := MAIL;
        messageText := "";
      }
    }

    method HandleCommand()
      modifies this, store
      ensures Abs() == Step(Cfg(), old(Abs()))
    {
      var line := ReadLine();
      if line.None? {
        // cmd.length() on a null line throws and ends the thread
        halt := NullLine;
        return;
      }
      ExecuteCommand(line.value);
    }

    /** The dispatch of `handleCommand` on the line `cmd`. */
    method ExecuteCommand(cmd: string)
      modifies this, store
      ensures Abs() == Execute(Cfg(), old(Abs()), cmd)
    {
      var params: seq<string> := [];
      if |Utf16(cmd)| > 4 {
        params := Split(Substring(cmd, 5), ' ');
      }
      assert params == Params(cmd);
      var tmp := Upper(cmd);
      if StartsWith(tmp, "HELO") {
        assert Classify(cmd) == HeloVerb;
        ParseHelo(params);
      } else if StartsWith(tmp, "MAIL") {
        assert Classify(cmd) == MailVerb;
        var done := HeloDone();
        if done { ParseMail(params); }
      } else if StartsWith(tmp, "RCPT") {
        assert Classify(cmd) == RcptVerb;
        var done := HeloDone();
        if done { ParseRcpt(params); }
      } else if StartsWith(tmp, "DATA") {
        assert Classify(cmd) == DataVerb;
        var done := HeloDone();
        if done { ParseData(); }
      } else {
        ExecuteControl(cmd, tmp);
      }
    }

    /** The commands of `handleCommand` that need no HELO: QUIT, RSET, NOOP, EXIT and the unrecognized. */
    method ExecuteControl(cmd: string, tmp: string)
      requires tmp == Upper(cmd) && Classify(cmd) in {QuitVerb, RsetVerb, NoopVerb, ExitVerb, OtherVerb}
      modifies this
      ensures Abs() == Execute(Cfg(), old(Abs()), cmd)
    {
      if StartsWith(tmp, "QUIT") {
        assert Classify(cmd) == QuitVerb;
        quit := true;
      } else if StartsWith(tmp, "RSET") {
        assert Classify(cmd) == RsetVerb;
        ResetMsg();
        SendResponse(250, "OK");
      } else {
        ExecuteReply(cmd, tmp);
      }
    }

    /** NOOP, EXIT and an unrecognized line: a reply, and the end of the process for EXIT. */
    method ExecuteReply(cmd: string, tmp: string)
      requires tmp == Upper(cmd) && Classify(cmd) in {NoopVerb, ExitVerb, OtherVerb}
      modifies this
      ensures Abs() == Execute(Cfg(), old(Abs()), cmd)
    {
      if StartsWith(tmp, "NOOP") {
        assert Classify(cmd) == NoopVerb;
        SendResponse(250, "OK");
      } else if StartsWith(tmp, "EXIT") {
        assert Classify(cmd) == ExitVerb;
        SendResponse(999, "Exiting Application");
        // client.close(); System.exit(0)
        halt := Exited;
      } else {
        assert Classify(cmd) == OtherVerb;
        SendResponse(500, Unrecognized);
      }
    }

    /** The greeting, `handleCommand` until QUIT, then the closing reply. */
    method Run()
      modifies this, store
      ensures Abs() == SessionRun(Cfg(), old(Abs()))
    {
      SendResponse(220, serverName + " SMTP server ready");
      ghost var greeted := Abs();
      while !quit && halt == Running
        invariant Serve(Cfg(), Abs()) == Serve(Cfg(), greeted)
        decreases |input|, if halt == Running then 1 else 0
      {
        HandleCommand();
      }
      if halt == Running {
        SendResponse(221, serverName + " closing connection");
      }
    }
  }
}
