/**
 * What the SMTP session promises, proved about the functions of module Smtp:
 * the verb a line is dispatched to, the effect of each command in each state,
 * the recipient list a delivery uses, the delivery itself, and the shape of
 * every reply.
 */
module SmtpProperties {
  import opened Options
  import opened JavaText
  import opened JavaHash
  import opened Address
  import opened DataBody
  import opened Mailbox
  import opened Smtp

  // ---------------------------------------------------------------------------
  // Dispatch
  // ---------------------------------------------------------------------------

  /** The keyword of each verb: four capital letters, none for an unknown verb. */
  function Keyword(v: Verb): (r: string)
    ensures |r| == (if v == OtherVerb then 0 else 4)
    ensures forall i :: 0 <= i < |r| ==> 'A' <= r[i] <= 'Z'
  {
    match v
    case HeloVerb => "HELO"
    case MailVerb => "MAIL"
    case RcptVerb => "RCPT"
    case DataVerb => "DATA"
    case QuitVerb => "QUIT"
    case RsetVerb => "RSET"
    case NoopVerb => "NOOP"
    case ExitVerb => "EXIT"
    case OtherVerb => ""
  }

  /**
   * A line is dispatched to a verb exactly when its upper case starts with
   * that verb's keyword: the keywords are four letters long and pairwise
   * different, so the order of the tests never decides anything.
   */
  lemma {:induction false} ClassifyKeyword(cmd: string, v: Verb)
    requires v != OtherVerb
    ensures Classify(cmd) == v <==> StartsWith(Upper(cmd), Keyword(v))
  {
    var u := Upper(cmd);
    if |u| >= 4 {
      var p := u[..4];
      assert StartsWith(u, Keyword(v)) <==> p == Keyword(v);
    }
  }

  /** A line starting with none of the keywords is the unrecognized one. */
  lemma ClassifyOther(cmd: string)
    ensures Classify(cmd) == OtherVerb <==>
      forall v: Verb :: v != OtherVerb ==> !StartsWith(Upper(cmd), Keyword(v))
  {
    if Classify(cmd) == OtherVerb {
      forall v: Verb | v != OtherVerb ensures !StartsWith(Upper(cmd), Keyword(v)) {
        ClassifyKeyword(cmd, v);
      }
    } else {
      ClassifyKeyword(cmd, Classify(cmd));
    }
  }

  /** The verb is recognised in any mix of cases, whatever follows it. */
  lemma ClassifyIgnoresCase(word: string, rest: string, v: Verb)
    requires v != OtherVerb && Upper(word) == Keyword(v)
    ensures Classify(word + rest) == v
  {
    UpperAppend(word, rest);
    ClassifyKeyword(word + rest, v);
  }

  /** Upper-casing a line before it is dispatched does not change its verb. */
  lemma ClassifyUpper(cmd: string)
    ensures Classify(Upper(cmd)) == Classify(cmd)
  {
    UpperIdempotent(cmd);
  }

  /** Three capitals and a character whose upper case starts with the keyword's fourth letter, then anything: that keyword's verb. */
  lemma ClassifyThreeAndOne(w: string, c: char, rest: string, v: Verb)
    requires v != OtherVerb && |w| == 3 && Keyword(v) == w + [UpperChars(c)[0]]
    requires forall i :: 0 <= i < 3 ==> 'A' <= w[i] <= 'Z'
    ensures Classify(w + [c] + rest) == v
  {
    UpperOfCapitals(w);
    UpperAppend(w, [c] + rest);
    assert ([c] + rest)[0] == c && ([c] + rest)[1..] == rest;
    assert Upper([c] + rest) == UpperChars(c) + Upper(rest);
    assert w + [c] + rest == w + ([c] + rest);
    assert Upper(w + [c] + rest)[..4] == Keyword(v);
    ClassifyKeyword(w + [c] + rest, v);
  }

  /**
   * Special casing reaches the dispatch: `ẗ` (U+1E97) upper-cases to `T` and a
   * combining diaeresis, `ẚ` (U+1E9A) to `A` and a modifier letter, so lines
   * starting `QUIẗ`, `EXIẗ`, `RSEẗ` and `DATẚ` are QUIT, EXIT, RSET and DATA.
   */
  lemma SpecialCasingDispatch(rest: string)
    ensures Classify("QUI" + "\U{1E97}" + rest) == QuitVerb && Classify("EXI" + "\U{1E97}" + rest) == ExitVerb
    ensures Classify("RSE" + "\U{1E97}" + rest) == RsetVerb && Classify("DAT" + "\U{1E9A}" + rest) == DataVerb
  {
    assert UpperChars('\U{1E97}')[0] == 'T' && UpperChars('\U{1E9A}')[0] == 'A';
    ClassifyThreeAndOne("QUI", '\U{1E97}', rest, QuitVerb);
    ClassifyThreeAndOne("EXI", '\U{1E97}', rest, ExitVerb);
    ClassifyThreeAndOne("RSE", '\U{1E97}', rest, RsetVerb);
    ClassifyThreeAndOne("DAT", '\U{1E9A}', rest, DataVerb);
  }

  /**
   * A line has no parameters when it is at most four UTF-16 code units long, or
   * when every unit after its fifth is a space (and there is at least one); a
   * line of exactly five units has one empty parameter.
   */
  lemma ParamsEmpty(cmd: string)
    ensures var u := Utf16(cmd);
      Params(cmd) == [] <==> |u| <= 4 || (|u| > 5 && forall i :: 5 <= i < |u| ==> u[i] == ' ' as int)
  {
    var u := Utf16(cmd);
    if |u| > 4 {
      var tail := Substring(cmd, 5);
      var units := Utf16(tail);
      SplitEmpty(tail, ' ');
      SpacesUnits(tail);
      SubstringUnits(cmd, 5);
      assert tail == [] <==> units == [];
      if 5 < |u| && IsLowSurrogate(u[5]) {
        assert units[0] != ' ' as int;
      } else {
        assert units == u[5..];
        assert (forall i :: 0 <= i < |units| ==> units[i] == ' ' as int) <==> (forall i :: 5 <= i < |u| ==> u[i] == ' ' as int) by {
          forall i | 5 <= i < |u| ensures u[i] == units[i - 5] { }
        }
      }
    }
  }

  /** The text `a` holds no character above U+FFFF, so `substring` counts its characters one by one. */
  lemma {:induction false} SubstringAfterBmp(a: string, b: string, n: nat)
    requires |a| <= n && forall i :: 0 <= i < |a| ==> a[i] as int < 0x1_0000
    ensures Substring(a + b, n) == Substring(b, n - |a|)
    decreases |a|
  {
    if a != [] {
      assert (a + b)[0] == a[0] && (a + b)[1..] == a[1..] + b;
      SubstringAfterBmp(a[1..], b, n - 1);
    } else {
      assert a + b == b;
    }
  }

  /**
   * A keyword directly followed by a character above U+FFFF: the fifth code
   * unit is the second half of its surrogate pair, and `substring(5)` starts
   * with that half.
   */
  lemma CutAfterKeyword(word: string, c: char, rest: string, v: Verb)
    requires |word| == 4 && v != OtherVerb && Upper(word) == Keyword(v) && c as int >= 0x1_0000
    ensures Classify(word + [c] + rest) == v
    ensures |Utf16(word + [c] + rest)| > 4 && Substring(word + [c] + rest, 5) == [LoneSurrogate] + rest
  {
    var cmd := word + [c] + rest;
    assert cmd == word + ([c] + rest);
    ClassifyIgnoresCase(word, [c] + rest, v);
    UpperBmp(word);
    SubstringAfterBmp(word, [c] + rest, 5);
    assert ([c] + rest)[0] == c && ([c] + rest)[1..] == rest;
  }

  /** `HELO`, a character above U+FFFF and a space: one parameter, half a surrogate pair, so HELO is greeted. */
  lemma SurrogateAfterHelo(c: char)
    requires c as int >= 0x1_0000
    ensures Classify("HELO" + [c] + " ") == HeloVerb && Params("HELO" + [c] + " ") == [[LoneSurrogate]]
  {
    UpperOfCapitals("HELO");
    CutAfterKeyword("HELO", c, " ", HeloVerb);
    SplitTrailingDelimiter([LoneSurrogate], ' ');
    assert [LoneSurrogate] + " " == [LoneSurrogate] + [' '];
  }

  /** `MAIL`, a character above U+FFFF, then e.g. `FROM:<a>`: the parameter starts with half a surrogate pair, so MAIL is a 501. */
  lemma SurrogateBeforeFrom(c: char, arg: string)
    requires c as int >= 0x1_0000 && ' ' !in arg
    ensures Classify("MAIL" + [c] + arg) == MailVerb && CheckMail(Params("MAIL" + [c] + arg)) == MailSyntax
  {
    UpperOfCapitals("MAIL");
    CutAfterKeyword("MAIL", c, arg, MailVerb);
    var p := [LoneSurrogate] + arg;
    assert ' ' !in p;
    assert Params("MAIL" + [c] + arg) == [p];
    LoneSurrogateNoKeyword(arg, "FROM");
  }

  /** Text after an unpaired surrogate starts with no keyword, in any case. */
  lemma LoneSurrogateNoKeyword(arg: string, keyword: string)
    requires keyword != [] && keyword[0] != LoneSurrogate
    ensures !StartsWith(Upper([LoneSurrogate] + arg), keyword)
  {
    var p := [LoneSurrogate] + arg;
    assert p[0] == LoneSurrogate && p[1..] == arg;
    assert UpperChars(LoneSurrogate) == [LoneSurrogate];
    assert Upper(p) == [LoneSurrogate] + Upper(arg);
  }

  // ---------------------------------------------------------------------------
  // Commands that change nothing but the replies
  // ---------------------------------------------------------------------------

  /** The state once the line `s.input[0]` has been read. */
  function Rest(s: Snapshot): Snapshot
    requires s.input != []
  {
    s.(input := s.input[1..])
  }

  /** NOOP replies 250 and an unrecognized line 500; neither changes anything else. */
  lemma NoopAndUnknownKeepSession(c: Config, s: Snapshot)
    requires s.input != [] && Classify(s.input[0]) in {NoopVerb, OtherVerb}
    ensures var r := Step(c, s);
      SameSession(r, s) && r.input == s.input[1..] &&
      r.output == s.output + [if Classify(s.input[0]) == NoopVerb then Reply(250, "OK") else Reply(500, Unrecognized)]
  {
  }

  /** QUIT sets the flag that ends the loop; it sends nothing itself. */
  lemma QuitSetsFlag(c: Config, s: Snapshot)
    requires s.input != [] && Classify(s.input[0]) == QuitVerb
    ensures var r := Step(c, s);
      r.quit && r.output == s.output && r.requiredCmd == s.requiredCmd && r.files == s.files && r.halt == s.halt
  {
  }

  // ---------------------------------------------------------------------------
  // HELO and the 503 gate
  // ---------------------------------------------------------------------------

  /**
   * HELO with a parameter greets the client and moves a new session on to
   * MAIL, but never moves a session back; without a parameter it is a 501.
   */
  lemma HeloOutcome(c: Config, s: Snapshot)
    requires s.input != [] && Classify(s.input[0]) == HeloVerb
    ensures var r := Step(c, s);
      var ok := Params(s.input[0]) != [];
      r.requiredCmd == (if ok && s.requiredCmd == HELO then MAIL else s.requiredCmd) &&
      r.requiredCmd >= s.requiredCmd &&
      r.output == s.output + [if ok then Reply(250, Greeting(c)) else Reply(501, HeloNeedsAddress)] &&
      r.messageText == s.messageText && r.recipients == s.recipients && r.files == s.files &&
      r.quit == s.quit && r.halt == s.halt && r.input == s.input[1..]
  {
  }

  /** Until HELO has been accepted, MAIL, RCPT and DATA only get the 503. */
  lemma PoliteBeforeHelo(c: Config, s: Snapshot)
    requires s.requiredCmd == HELO && s.input != []
    requires Classify(s.input[0]) in {MailVerb, RcptVerb, DataVerb}
    ensures Step(c, s) == Say(Rest(s), 503, PoliteHelo)
  {
  }

  /** RSET before HELO gets the 503 of the reset and then its own 250, and changes nothing else. */
  lemma RsetBeforeHelo(c: Config, s: Snapshot)
    requires s.requiredCmd == HELO && s.input != [] && Classify(s.input[0]) == RsetVerb
    ensures var r := Step(c, s);
      SameSession(r, s) && r.output == s.output + [Reply(503, PoliteHelo), Reply(250, "OK")]
  {
    assert s.output + [Reply(503, PoliteHelo)] + [Reply(250, "OK")] == s.output + [Reply(503, PoliteHelo), Reply(250, "OK")];
  }

  /** RSET after HELO goes back to waiting for MAIL with an empty text; the recipient list stays. */
  lemma RsetAfterHelo(c: Config, s: Snapshot)
    requires s.requiredCmd != HELO && s.input != [] && Classify(s.input[0]) == RsetVerb
    ensures var r := Step(c, s);
      r.requiredCmd == MAIL && r.messageText == "" && r.recipients == s.recipients && r.files == s.files &&
      r.output == s.output + [Reply(250, "OK")]
  {
  }

  /**
   * Before HELO nothing but HELO moves the session: the text, the recipients
   * and the mailboxes stay, and the stage only becomes MAIL, through a HELO
   * with a parameter.
   */
  lemma NothingBeforeHelo(c: Config, s: Snapshot)
    requires s.requiredCmd == HELO && s.input != []
    ensures var r := Step(c, s);
      r.messageText == s.messageText && r.recipients == s.recipients && r.files == s.files &&
      (r.requiredCmd == MAIL <==> Classify(s.input[0]) == HeloVerb && Params(s.input[0]) != []) &&
      (r.requiredCmd != MAIL ==> r.requiredCmd == HELO)
  {
    match Classify(s.input[0])
    case HeloVerb => HeloOutcome(c, s);
    case MailVerb => PoliteBeforeHelo(c, s);
    case RcptVerb => PoliteBeforeHelo(c, s);
    case DataVerb => PoliteBeforeHelo(c, s);
    case RsetVerb => RsetBeforeHelo(c, s);
    case NoopVerb => NoopAndUnknownKeepSession(c, s);
    case OtherVerb => NoopAndUnknownKeepSession(c, s);
    case QuitVerb =>
    case ExitVerb =>
  }

  // ---------------------------------------------------------------------------
  // MAIL and RCPT
  // ---------------------------------------------------------------------------

  /**
   * MAIL after HELO: a second sender is refused with 503; a parameter that
   * does not start with FROM is a 501 and a sender that does not match
   * `<...>` a 550, all three changing nothing else; an accepted sender starts
   * the text with the parameter and moves on to RCPT.
   */
  lemma MailOutcome(c: Config, s: Snapshot)
    requires s.requiredCmd != HELO && s.input != [] && Classify(s.input[0]) == MailVerb
    ensures var r := Step(c, s);
      var params := Params(s.input[0]);
      r.input == s.input[1..] &&
      (s.requiredCmd != MAIL ==> SameSession(r, s) && r.output == s.output + [Reply(503, SenderAlready)]) &&
      (s.requiredCmd == MAIL && CheckMail(params) == MailSyntax ==>
         SameSession(r, s) && r.output == s.output + [Reply(501, SyntaxError)]) &&
      (s.requiredCmd == MAIL && CheckMail(params) == MailMalformed ==>
         SameSession(r, s) && r.output == s.output + [Reply(550, MalformedAddress)]) &&
      (s.requiredCmd == MAIL && CheckMail(params).MailAccepted? ==>
         r.requiredCmd == RCPT && r.messageText == params[0] && r.recipients == s.recipients &&
         r.files == s.files && r.output == s.output + [Reply(250, CheckMail(params).addr + " sender ok")])
  {
  }

  /** MAIL moves the session on exactly when its sender matched in the stage that waits for it. */
  lemma MailAcceptedIff(c: Config, s: Snapshot)
    requires s.requiredCmd != HELO && s.input != [] && Classify(s.input[0]) == MailVerb
    ensures Step(c, s).requiredCmd != s.requiredCmd <==>
      s.requiredCmd == MAIL && CheckMail(Params(s.input[0])).MailAccepted?
  {
    MailOutcome(c, s);
  }

  /**
   * RCPT after HELO that is not accepted leaves the session as it was: before
   * MAIL a 503, a parameter not starting with TO a 501, an address that does
   * not match `<x...@...>` a 550, another domain a 503. An address with
   * nothing after its `@` stops the thread without a reply.
   */
  lemma RcptRejectionsKeepState(c: Config, s: Snapshot)
    requires s.requiredCmd != HELO && s.input != [] && Classify(s.input[0]) == RcptVerb
    ensures var r := Step(c, s);
      var v := CheckRcpt(c.domain, Params(s.input[0]));
      (s.requiredCmd < RCPT ==> SameSession(r, s) && r.output == s.output + [Reply(503, NeedMailRcpt)]) &&
      (s.requiredCmd >= RCPT && v == RcptSyntax ==> SameSession(r, s) && r.output == s.output + [Reply(501, SyntaxError)]) &&
      (s.requiredCmd >= RCPT && v == RcptMalformed ==> SameSession(r, s) && r.output == s.output + [Reply(550, MalformedAddress)]) &&
      (s.requiredCmd >= RCPT && v == RcptRejected ==> SameSession(r, s) && r.output == s.output + [Reply(503, Rejection(c))]) &&
      (s.requiredCmd >= RCPT && v == RcptOutOfBounds ==> r == Rest(s).(halt := IndexOutOfRange))
  {
    var r := OnRcpt(c, Rest(s), Params(s.input[0]));
    assert Step(c, s) == r;
  }

  /**
   * An accepted RCPT appends the parameter to the text and the local-part to
   * the recipients; the first one after MAIL replaces the recipient list.
   */
  lemma RcptAccepted(c: Config, s: Snapshot)
    requires s.requiredCmd >= RCPT && s.input != [] && Classify(s.input[0]) == RcptVerb
    requires CheckRcpt(c.domain, Params(s.input[0])).RcptAccepted?
    ensures var r := Step(c, s);
      var v := CheckRcpt(c.domain, Params(s.input[0]));
      r.requiredCmd == DATA &&
      r.recipients == (if s.requiredCmd == RCPT then [] else s.recipients) + [v.local] &&
      r.messageText == s.messageText + "\n" + Params(s.input[0])[0] &&
      r.output == s.output + [Reply(250, v.addr + " recipient ok")] && r.files == s.files
  {
    var r := OnRcpt(c, Rest(s), Params(s.input[0]));
    assert Step(c, s) == r;
  }

  // ---------------------------------------------------------------------------
  // The recipient list
  // ---------------------------------------------------------------------------

  /**
   * `acc` is the list of local-parts accepted since the last accepted MAIL:
   * empty until the first RCPT is accepted, and the recipient list the
   * session holds from then on.
   */
  predicate Fresh(s: Snapshot, acc: seq<string>)
  {
    (s.requiredCmd == DATA ==> s.recipients == acc && acc != []) &&
    (s.requiredCmd != DATA ==> acc == [])
  }

  /**
   * The accepted local-parts after one more line, told from the verdicts
   * alone: an accepted MAIL, a successful delivery and a RSET after HELO
   * start again; an accepted RCPT adds its local-part.
   */
  function Tracked(c: Config, s: Snapshot, acc: seq<string>): seq<string>
  {
    if s.input == [] then acc
    else
      var cmd := s.input[0];
      match Classify(cmd)
      case MailVerb =>
        if s.requiredCmd == MAIL && CheckMail(Params(cmd)).MailAccepted? then [] else acc
      case RcptVerb =>
        var v := CheckRcpt(c.domain, Params(cmd));
        if s.requiredCmd >= RCPT && v.RcptAccepted? then acc + [v.local] else acc
      case DataVerb => if s.requiredCmd == DATA && ReadBody(s.input[1..]).Some? then [] else acc
      case RsetVerb => if s.requiredCmd == HELO then acc else []
      case _ => acc
  }

  /** A new session has accepted nobody and holds no recipients that count. */
  lemma FreshAtStart(s: Snapshot)
    requires s.requiredCmd == HELO
    ensures Fresh(s, [])
  {
  }

  /** Every line keeps the recipient list equal to the local-parts accepted since the last MAIL. */
  lemma StepKeepsFresh(c: Config, s: Snapshot, acc: seq<string>)
    requires Fresh(s, acc)
    ensures Fresh(Step(c, s), Tracked(c, s, acc))
  {
    if s.input != [] {
      match Classify(s.input[0])
      case MailVerb => MailKeepsFresh(c, s, acc);
      case RcptVerb => RcptKeepsFresh(c, s, acc);
      case DataVerb => DataKeepsFresh(c, s, acc);
      case RsetVerb => OtherKeepsFresh(c, s, acc);
      case HeloVerb => OtherKeepsFresh(c, s, acc);
      case QuitVerb => OtherKeepsFresh(c, s, acc);
      case NoopVerb => OtherKeepsFresh(c, s, acc);
      case ExitVerb => OtherKeepsFresh(c, s, acc);
      case OtherVerb => OtherKeepsFresh(c, s, acc);
    }
  }

  lemma MailKeepsFresh(c: Config, s: Snapshot, acc: seq<string>)
    requires Fresh(s, acc) && s.input != [] && Classify(s.input[0]) == MailVerb
    ensures Fresh(Step(c, s), Tracked(c, s, acc))
  {
  }

  lemma RcptKeepsFresh(c: Config, s: Snapshot, acc: seq<string>)
    requires Fresh(s, acc) && s.input != [] && Classify(s.input[0]) == RcptVerb
    ensures Fresh(Step(c, s), Tracked(c, s, acc))
  {
    if s.requiredCmd != HELO {
      RcptRejectionsKeepState(c, s);
      if s.requiredCmd >= RCPT && CheckRcpt(c.domain, Params(s.input[0])).RcptAccepted? {
        RcptAccepted(c, s);
      }
    }
  }

  lemma DataKeepsFresh(c: Config, s: Snapshot, acc: seq<string>)
    requires Fresh(s, acc) && s.input != [] && Classify(s.input[0]) == DataVerb
    ensures Fresh(Step(c, s), Tracked(c, s, acc))
  {
  }

  lemma OtherKeepsFresh(c: Config, s: Snapshot, acc: seq<string>)
    requires Fresh(s, acc) && s.input != []
    requires Classify(s.input[0]) in {HeloVerb, QuitVerb, RsetVerb, NoopVerb, ExitVerb, OtherVerb}
    ensures Fresh(Step(c, s), Tracked(c, s, acc))
  {
  }

  /**
   * The file names a delivery writes are the accepted local-parts themselves
   * when none of them holds a comma and the last is not empty; otherwise the
   * comma join and split of `saveMsgData` shows through.
   */
  lemma TargetsAreRecipients(acc: seq<string>)
    requires acc != []
    requires forall i :: 0 <= i < |acc| ==> ',' !in acc[i]
    requires |acc| == 1 || acc[|acc| - 1] != ""
    ensures Targets(acc) == acc
  {
    SplitJoin(acc, ',');
  }

  /**
   * `RCPT TO:<a,b@domain>` is accepted with the local-part `a,b`, and a
   * delivery to that one recipient writes the two files `a` and `b`.
   */
  lemma CommaInLocalPart(domain: string, a: string, b: string)
    requires a != [] && b != [] && ',' !in a && ',' !in b
    requires AllDot(a + "," + b) && '@' !in a + "," + b && '<' !in a + "," + b && '>' !in a + "," + b && ':' !in a + "," + b
    requires domain != [] && AllDot(domain)
    requires '@' !in domain && '<' !in domain && '>' !in domain && ':' !in domain
    ensures var v := CheckRcpt(domain, ["TO:<" + (a + "," + b) + "@" + domain + ">"]);
      v.RcptAccepted? && v.addr == "<" + (a + "," + b) + "@" + domain + ">" && v.local == a + "," + b
    ensures Targets([a + "," + b]) == [a, b]
  {
    WellFormedRecipientAccepted(domain, a + "," + b);
    assert Join([a + "," + b], ',') == a + [','] + b;
    SplitPair(a, b, ',');
  }

  // ---------------------------------------------------------------------------
  // DATA
  // ---------------------------------------------------------------------------

  /** DATA after HELO but before an accepted sender and recipient gets one 503 and changes nothing. */
  lemma DataTooEarly(c: Config, s: Snapshot)
    requires s.requiredCmd != HELO && s.requiredCmd < DATA && s.input != [] && Classify(s.input[0]) == DataVerb
    ensures var r := Step(c, s);
      SameSession(r, s) && r.input == s.input[1..] &&
      r.output == s.output + [Reply(503, if s.requiredCmd == MAIL then NeedMailData else NeedRcptData)]
  {
  }

  /** DATA whose body never ends: the 354, then the thread stops with nothing delivered. */
  lemma DataEndOfInput(c: Config, s: Snapshot)
    requires s.requiredCmd == DATA && s.input != [] && Classify(s.input[0]) == DataVerb
    requires forall i :: 1 <= i < |s.input| ==> s.input[i] != "."
    ensures var r := Step(c, s);
      r.halt == NullLine && r.input == [] && r.files == s.files &&
      r.output == s.output + [Reply(354, EnterMail)]
  {
    var rest := s.input[1..];
    ReadBodyEnds(rest);
    assert forall i :: 0 <= i < |rest| ==> rest[i] != "." by {
      forall i | 0 <= i < |rest| ensures rest[i] == s.input[i + 1] { }
    }
  }

  /**
   * DATA with a body: the lines up to the first `.` are added to the text,
   * each unstuffed on a line of its own, and delivered to the targets of the
   * recipient list; the reply carries the hash of the text; the session is
   * back at MAIL with an empty text, and reading resumes after the terminator.
   */
  lemma DataDelivers(c: Config, s: Snapshot, n: nat)
    requires s.requiredCmd == DATA && s.input != [] && Classify(s.input[0]) == DataVerb
    requires 1 <= n < |s.input| && s.input[n] == "." && forall i :: 1 <= i < n ==> s.input[i] != "."
    ensures var text := s.messageText + Collected(s.input[1..n]);
      Step(c, s) == Snapshot(MAIL, "", s.recipients, s.quit, s.halt, s.input[n + 1..],
        s.output + [Reply(354, EnterMail), Reply(250, Accepted(text))],
        Deliver(s.files, Targets(s.recipients), "\n" + text + "\n", c.unwritable))
  {
    var t := Rest(s);
    RestTerminator(s, n);
    StepData(c, s);
    DataDone(c, t, n - 1);
  }

  /** The terminator at line `n` of the input is at line `n - 1` once the command line has been read. */
  lemma RestTerminator(s: Snapshot, n: nat)
    requires 1 <= n < |s.input| && s.input[n] == "." && forall i :: 1 <= i < n ==> s.input[i] != "."
    ensures var t := Rest(s);
      t.input[n - 1] == "." && (forall i :: 0 <= i < n - 1 ==> t.input[i] != ".") &&
      t.input[..n - 1] == s.input[1..n] && t.input[n..] == s.input[n + 1..]
  {
    var t := Rest(s);
    forall i | 0 <= i < n - 1 ensures t.input[i] != "." {
      assert t.input[i] == s.input[i + 1];
    }
    assert t.input[..n - 1] == s.input[1..n];
    assert t.input[n..] == s.input[n + 1..];
  }

  /** `parseData` in the DATA stage on an input whose first `.` is line `n`. */
  lemma DataDone(c: Config, t: Snapshot, n: nat)
    requires t.requiredCmd == DATA && n < |t.input| && t.input[n] == "."
    requires forall i :: 0 <= i < n ==> t.input[i] != "."
    ensures var r := OnData(c, t);
      var text := t.messageText + Collected(t.input[..n]);
      r.input == t.input[n + 1..] &&
      r.output == t.output + [Reply(354, EnterMail), Reply(250, Accepted(text))] &&
      r.requiredCmd == MAIL && r.messageText == "" && r.recipients == t.recipients &&
      r.halt == t.halt && r.quit == t.quit &&
      r.files == Deliver(t.files, Targets(t.recipients), "\n" + text + "\n", c.unwritable)
  {
    DataBodyStep(c, t, n);
  }

  /** DATA after HELO is `parseData` on the state after the line was read. */
  lemma StepData(c: Config, s: Snapshot)
    requires s.requiredCmd != HELO && s.input != [] && Classify(s.input[0]) == DataVerb
    ensures Step(c, s) == OnData(c, Rest(s))
  {
  }

  /**
   * What DATA does to the mailbox directory: every writable target named k
   * times gains the framed text k times at its end, and every other file
   * stays as it was.
   */
  lemma DataAppends(c: Config, s: Snapshot, n: nat, name: string)
    requires s.requiredCmd == DATA && s.input != [] && Classify(s.input[0]) == DataVerb
    requires 1 <= n < |s.input| && s.input[n] == "." && forall i :: 1 <= i < n ==> s.input[i] != "."
    ensures var f := Step(c, s).files;
      var framed := "\n" + (s.messageText + Collected(s.input[1..n])) + "\n";
      var k := Count(Targets(s.recipients), name);
      if name in c.unwritable || k == 0 then
        (name in f <==> name in s.files) && Contents(f, name) == Contents(s.files, name)
      else
        name in f && f[name] == Contents(s.files, name) + Repeat(framed, k)
  {
    DataDelivers(c, s, n);
    DeliverContents(s.files, Targets(s.recipients), "\n" + (s.messageText + Collected(s.input[1..n])) + "\n", c.unwritable, name);
  }

  /** The state after DATA whose body ends at line `n` of the input that follows it. */
  lemma DataBodyStep(c: Config, t: Snapshot, n: nat)
    requires t.requiredCmd == DATA && n < |t.input| && t.input[n] == "."
    requires forall i :: 0 <= i < n ==> t.input[i] != "."
    ensures var text := t.messageText + Collected(t.input[..n]);
      OnData(c, t) ==
        OnReset(Say(OnSave(c, Say(t, 354, EnterMail).(input := t.input[n + 1..], messageText := text)), 250, Accepted(text)))
  {
    BodyAt(t.input, n);
  }

  /** With the recipient list kept fresh, a delivery goes to the local-parts accepted since the last MAIL, and to no other file. */
  lemma DeliveryGoesToAccepted(c: Config, s: Snapshot, acc: seq<string>, n: nat)
    requires Fresh(s, acc)
    requires s.requiredCmd == DATA && s.input != [] && Classify(s.input[0]) == DataVerb
    requires 1 <= n < |s.input| && s.input[n] == "." && forall i :: 1 <= i < n ==> s.input[i] != "."
    ensures var r := Step(c, s);
      r.files == Deliver(s.files, Targets(acc), "\n" + (s.messageText + Collected(s.input[1..n])) + "\n", c.unwritable) &&
      r.files.Keys <= s.files.Keys + (set i | 0 <= i < |Targets(acc)| :: Targets(acc)[i])
  {
    var framed := "\n" + (s.messageText + Collected(s.input[1..n])) + "\n";
    DataDelivers(c, s, n);
    assert s.recipients == acc;
    assert Step(c, s).files == Deliver(s.files, Targets(acc), framed, c.unwritable);
    DeliverKeys(s.files, Targets(acc), framed, c.unwritable);
  }

  /** The number in the 250 reply to DATA reads back as the hash of the text delivered. */
  lemma AcceptedCarriesHash(text: string)
    ensures var digits := IntToString(HashCode(text));
      Accepted(text) == digits + " mail accepted for delivery" &&
      ParseInt(digits) == HashCode(text) && -Two31 <= ParseInt(digits) < Two31
  {
    ParseIntToString(HashCode(text));
  }

  // ---------------------------------------------------------------------------
  // Replies
  // ---------------------------------------------------------------------------

  /** A reply line: three digits, a space, the text, CR LF. */
  predicate WellFormedReply(line: string)
  {
    |line| >= 6 && IsDigit(line[0]) && IsDigit(line[1]) && IsDigit(line[2]) && line[3] == ' ' &&
    line[|line| - 2..] == "\r\n"
  }

  /** The replies of `b` are those of `a` followed by well-formed ones. */
  predicate Extends(a: Snapshot, b: Snapshot)
  {
    a.output <= b.output && forall i :: |a.output| <= i < |b.output| ==> WellFormedReply(b.output[i])
  }

  lemma ReplyWellFormed(code: nat, message: string)
    requires 100 <= code <= 999
    ensures WellFormedReply(Reply(code, message))
  {
    ThreeDigits(code);
    var r := Reply(code, message);
    assert r == NatToString(code) + (" " + message + "\r\n");
    assert r[|r| - 2..] == "\r\n";
  }

  lemma SayExtends(a: Snapshot, s: Snapshot, code: nat, message: string)
    requires 100 <= code <= 999 && Extends(a, s)
    ensures Extends(a, Say(s, code, message))
  {
    ReplyWellFormed(code, message);
  }

  lemma ExtendsTrans(a: Snapshot, b: Snapshot, c: Snapshot)
    requires Extends(a, b) && Extends(b, c)
    ensures Extends(a, c)
  {
  }

  lemma HeloExtends(c: Config, t: Snapshot, params: seq<string>)
    ensures Extends(t, OnHelo(c, t, params))
  {
    SayExtends(t, t, 250, Greeting(c));
    SayExtends(t, t, 501, HeloNeedsAddress);
  }

  lemma MailExtends(t: Snapshot, params: seq<string>)
    ensures Extends(t, OnMail(t, params))
  {
    SayExtends(t, t, 503, SenderAlready);
    SayExtends(t, t, 550, MalformedAddress);
    SayExtends(t, t, 501, SyntaxError);
    if CheckMail(params).MailAccepted? {
      SayExtends(t, t, 250, CheckMail(params).addr + " sender ok");
    }
  }

  lemma RcptExtends(c: Config, t: Snapshot, params: seq<string>)
    ensures Extends(t, OnRcpt(c, t, params))
  {
    SayExtends(t, t, 503, NeedMailRcpt);
    SayExtends(t, t, 501, SyntaxError);
    SayExtends(t, t, 550, MalformedAddress);
    SayExtends(t, t, 503, Rejection(c));
    var v := CheckRcpt(c.domain, params);
    if v.RcptAccepted? {
      SayExtends(t, t, 250, v.addr + " recipient ok");
    }
  }

  lemma DataExtends(c: Config, t: Snapshot)
    ensures Extends(t, OnData(c, t))
  {
    SayExtends(t, t, 503, NeedMailData);
    SayExtends(t, t, 503, NeedRcptData);
    var u := Say(t, 354, EnterMail);
    SayExtends(t, t, 354, EnterMail);
    if t.requiredCmd == DATA {
      match ReadBody(u.input)
      case None =>
      case Some(b) =>
        var text := u.messageText + b.text;
        var saved := OnSave(c, u.(input := u.input[b.used..], messageText := text));
        SayExtends(t, saved, 250, Accepted(text));
    }
  }

  lemma ResetExtends(t: Snapshot)
    ensures Extends(t, Say(OnReset(t), 250, "OK"))
  {
    SayExtends(t, t, 503, PoliteHelo);
    SayExtends(t, OnReset(t), 250, "OK");
  }

  /** Every line only appends replies, and each reply is well formed. */
  lemma StepExtends(c: Config, s: Snapshot)
    ensures Extends(s, Step(c, s))
  {
    if s.input != [] {
      var cmd := s.input[0];
      var t := Rest(s);
      var params := Params(cmd);
      SayExtends(t, t, 503, PoliteHelo);
      match Classify(cmd)
      case HeloVerb => HeloExtends(c, t, params);
      case MailVerb => MailExtends(t, params);
      case RcptVerb => RcptExtends(c, t, params);
      case DataVerb => DataExtends(c, t);
      case QuitVerb =>
      case RsetVerb => ResetExtends(t);
      case NoopVerb => SayExtends(t, t, 250, "OK");
      case ExitVerb => SayExtends(t, t, 999, "Exiting Application");
      case OtherVerb => SayExtends(t, t, 500, Unrecognized);
    }
  }

  // ---------------------------------------------------------------------------
  // The whole session
  // ---------------------------------------------------------------------------

  /**
   * The command loop ends, on QUIT or with the thread stopped; when it ended
   * on QUIT the last reply is the 221. Every reply it adds is well formed.
   */
  lemma ServeEnds(c: Config, s: Snapshot)
    ensures var r := Serve(c, s);
      (r.quit || r.halt != Running) &&
      (r.halt == Running ==> r.quit && |r.output| > 0 && r.output[|r.output| - 1] == Reply(221, c.serverName + " closing connection")) &&
      Extends(s, r)
  {
    ServeStops(c, s);
    ServeExtends(c, s);
  }

  /** The loop stops on QUIT or with the thread stopped, and after QUIT the 221 is the last reply. */
  lemma ServeStops(c: Config, s: Snapshot)
    ensures var r := Serve(c, s);
      (r.quit || r.halt != Running) &&
      (r.halt == Running ==> r.quit && |r.output| > 0 && r.output[|r.output| - 1] == Reply(221, c.serverName + " closing connection"))
  {
    var t := ServeCloses(c, s);
  }

  /** The loop's result is `Close` applied to a snapshot that has seen QUIT or whose thread stopped. */
  lemma {:induction false} ServeCloses(c: Config, s: Snapshot) returns (t: Snapshot)
    ensures Serve(c, s) == Close(c, t) && (t.quit || t.halt != Running)
    decreases |s.input|, if s.halt == Running then 1 else 0
  {
    if s.quit || s.halt != Running {
      t := s;
    } else {
      t := ServeCloses(c, Step(c, s));
    }
  }

  /** Every reply the loop adds is well formed. */
  lemma {:induction false} ServeExtends(c: Config, s: Snapshot)
    ensures Extends(s, Serve(c, s))
    decreases |s.input|, if s.halt == Running then 1 else 0
  {
    if s.quit || s.halt != Running {
      if s.halt == Running {
        SayExtends(s, s, 221, c.serverName + " closing connection");
      }
    } else {
      var next := Step(c, s);
      StepExtends(c, s);
      ServeExtends(c, next);
      ExtendsTrans(s, next, Serve(c, next));
    }
  }

  /** A session starts with the 220 greeting. */
  lemma SessionGreets(c: Config, s: Snapshot)
    ensures var r := SessionRun(c, s);
      |r.output| > |s.output| && r.output[|s.output|] == Reply(220, c.serverName + " SMTP server ready")
  {
    var g := Say(s, 220, c.serverName + " SMTP server ready");
    ServeEnds(c, g);
  }

  // ---------------------------------------------------------------------------
  // One mail transaction
  // ---------------------------------------------------------------------------

  /** The line `MAIL FROM:<u>`. */
  function MailFrom(u: string): string
  {
    "MAIL" + " " + ("FROM:<" + u + ">")
  }

  /** The line `RCPT TO:<local@domain>`. */
  function RcptTo(local: string, domain: string): string
  {
    "RCPT" + " " + ("TO:<" + local + "@" + domain + ">")
  }

  /** A keyword, one space and a parameter without spaces: the keyword's verb, with that one parameter. */
  lemma CommandLine(word: string, arg: string, v: Verb)
    requires |word| == 4 && v != OtherVerb && Upper(word) == Keyword(v) && ' ' !in arg
    ensures Classify(word + " " + arg) == v && Params(word + " " + arg) == [arg]
  {
    assert word + " " + arg == word + (" " + arg);
    ClassifyIgnoresCase(word, " " + arg, v);
    KeywordBmp(word, v);
    ParamsAfterWord(word, arg);
  }

  /** A word whose upper case is a keyword has no character above U+FFFF. */
  lemma KeywordBmp(word: string, v: Verb)
    requires v != OtherVerb && Upper(word) == Keyword(v)
    ensures forall i :: 0 <= i < |word| ==> word[i] as int < 0x1_0000
  {
    var k := Keyword(v);
    forall i | 0 <= i < |k| ensures k[i] as int < 0x1_0000 {
      assert 'A' <= k[i] <= 'Z';
    }
    UpperBmp(word);
  }

  /** Four characters below U+10000, a space and a parameter without spaces: that one parameter. */
  lemma ParamsAfterWord(word: string, arg: string)
    requires |word| == 4 && ' ' !in arg
    requires forall i :: 0 <= i < |word| ==> word[i] as int < 0x1_0000
    ensures Params(word + " " + arg) == [arg]
  {
    var cmd := word + " " + arg;
    assert forall i :: 0 <= i < 5 ==> cmd[i] as int < 0x1_0000 by {
      assert forall i :: 0 <= i < 4 ==> cmd[i] == word[i];
    }
    SubstringBmp(cmd, 5);
    assert cmd[5..] == arg;
    assert |Utf16(cmd)| > 4;
  }

  lemma MailFromLine(u: string)
    requires ' ' !in u
    ensures Classify(MailFrom(u)) == MailVerb && Params(MailFrom(u)) == ["FROM:<" + u + ">"]
  {
    var tail := "FROM:<" + u + ">";
    UpperOfCapitals("MAIL");
    assert ' ' !in tail by {
      assert tail == "FROM:<" + (u + ">");
    }
    CommandLine("MAIL", tail, MailVerb);
  }

  lemma RcptToLine(local: string, domain: string)
    requires ' ' !in local && ' ' !in domain
    ensures Classify(RcptTo(local, domain)) == RcptVerb &&
            Params(RcptTo(local, domain)) == ["TO:<" + local + "@" + domain + ">"]
  {
    var tail := "TO:<" + local + "@" + domain + ">";
    UpperOfCapitals("RCPT");
    assert ' ' !in tail by {
      assert tail == "TO:<" + (local + ("@" + (domain + ">")));
    }
    CommandLine("RCPT", tail, RcptVerb);
  }

  lemma DataLine()
    ensures Classify("DATA") == DataVerb
  {
    UpperOfCapitals("DATA");
    ClassifyIgnoresCase("DATA", "", DataVerb);
    assert "DATA" + "" == "DATA";
  }

  /** `MAIL FROM:<u>` in the stage that waits for it. */
  lemma MailFromAccepted(c: Config, s: Snapshot, u: string)
    requires s.requiredCmd == MAIL && s.input != [] && s.input[0] == MailFrom(u)
    requires AllDot(u) && ':' !in u && ' ' !in u
    ensures Step(c, s) == Say(Rest(s), 250, "<" + u + ">" + " sender ok").(messageText := "FROM:<" + u + ">", requiredCmd := RCPT)
  {
    MailFromLine(u);
    WellFormedSenderAccepted(u);
    var params := ["FROM:<" + u + ">"];
    assert Step(c, s) == Execute(c, Rest(s), MailFrom(u));
    assert Execute(c, Rest(s), MailFrom(u)) == OnMail(Rest(s), params);
  }

  /** `RCPT TO:<local@domain>` for the configured domain, as the first recipient after MAIL. */
  lemma RcptToAccepted(c: Config, s: Snapshot, local: string)
    requires s.requiredCmd == RCPT && s.input != [] && s.input[0] == RcptTo(local, c.domain)
    requires local != [] && AllDot(local)
    requires '@' !in local && '<' !in local && '>' !in local && ':' !in local && ' ' !in local
    requires c.domain != [] && AllDot(c.domain)
    requires '@' !in c.domain && '<' !in c.domain && '>' !in c.domain && ':' !in c.domain && ' ' !in c.domain
    ensures Step(c, s) ==
      Say(Rest(s), 250, "<" + local + "@" + c.domain + ">" + " recipient ok").(
        messageText := s.messageText + "\n" + ("TO:<" + local + "@" + c.domain + ">"),
        requiredCmd := DATA, recipients := [local])
  {
    RcptToLine(local, c.domain);
    WellFormedRecipientAccepted(c.domain, local);
    var params := ["TO:<" + local + "@" + c.domain + ">"];
    assert Step(c, s) == Execute(c, Rest(s), RcptTo(local, c.domain));
    assert Execute(c, Rest(s), RcptTo(local, c.domain)) == OnRcpt(c, Rest(s), params);
  }

  /** DATA with a stuffed body, for a single writable recipient. */
  lemma StuffedDataDelivered(c: Config, s: Snapshot, local: string, lines: seq<string>, rest: seq<string>)
    requires s.requiredCmd == DATA && s.recipients == [local] && local !in c.unwritable && ',' !in local && local != []
    requires s.input == ["DATA"] + Stuffed(lines) + ["."] + rest
    ensures var r := Step(c, s);
      var text := s.messageText + Text(lines);
      r.input == rest && r.requiredCmd == MAIL && r.messageText == "" && r.recipients == [local] &&
      r.files == s.files[local := Contents(s.files, local) + ("\n" + text + "\n")] &&
      r.output == s.output + [Reply(354, EnterMail), Reply(250, Accepted(text))]
  {
    DataLine();
    var n := |lines| + 1;
    StuffedInput(s.input, lines, rest);
    CollectedStuffed(lines);
    TargetsAreRecipients([local]);
    DataDelivers(c, s, n);
    var framed := "\n" + (s.messageText + Text(lines)) + "\n";
    assert Deliver(s.files, [local], framed, c.unwritable) == s.files[local := Contents(s.files, local) + framed] by {
      assert [local][..0] == [];
    }
  }

  /** The first `.` of the DATA line, the stuffed lines, `.` and the rest ends the stuffed lines. */
  lemma {:induction false} StuffedInput(input: seq<string>, lines: seq<string>, rest: seq<string>)
    requires input == ["DATA"] + Stuffed(lines) + ["."] + rest
    ensures var n := |lines| + 1;
      n < |input| && input[n] == "." && (forall i :: 1 <= i < n ==> input[i] != ".") &&
      input[1..n] == Stuffed(lines) && input[n + 1..] == rest
  {
    var n := |lines| + 1;
    assert input[n] == ".";
    forall i | 1 <= i < n ensures input[i] != "." {
      assert input[i] == Stuffed(lines)[i - 1];
      StuffedHasNoTerminator(lines, i - 1);
    }
    assert input[1..n] == Stuffed(lines);
    assert input[n + 1..] == rest;
  }

  /**
   * One transaction from a session that waits for MAIL: an accepted sender, one
   * accepted recipient of the configured domain, and a body sent with the
   * Transparency procedure. The recipient's mailbox gains the sender and
   * recipient lines and the client's text, framed by newlines, and no other
   * file changes; the four replies are 250, 250, 354 and 250; and the session
   * waits for MAIL again with the rest of the input.
   */
  lemma Transaction(c: Config, s: Snapshot, u: string, local: string, lines: seq<string>, rest: seq<string>)
    requires s.requiredCmd == MAIL
    requires AllDot(u) && ':' !in u && ' ' !in u
    requires local != [] && AllDot(local) && local !in c.unwritable
    requires '@' !in local && '<' !in local && '>' !in local && ':' !in local && ' ' !in local && ',' !in local
    requires c.domain != [] && AllDot(c.domain)
    requires '@' !in c.domain && '<' !in c.domain && '>' !in c.domain && ':' !in c.domain && ' ' !in c.domain
    requires s.input == [MailFrom(u), RcptTo(local, c.domain)] + (["DATA"] + Stuffed(lines) + ["."] + rest)
    ensures var r := Step(c, Step(c, Step(c, s)));
      var text := "FROM:<" + u + ">" + "\n" + ("TO:<" + local + "@" + c.domain + ">") + Text(lines);
      r.input == rest && r.requiredCmd == MAIL && r.messageText == "" && r.recipients == [local] &&
      r.files == s.files[local := Contents(s.files, local) + ("\n" + text + "\n")] &&
      r.output == s.output + [Reply(250, "<" + u + ">" + " sender ok"),
                              Reply(250, "<" + local + "@" + c.domain + ">" + " recipient ok"),
                              Reply(354, EnterMail), Reply(250, Accepted(text))]
  {
    var body := ["DATA"] + Stuffed(lines) + ["."] + rest;
    SenderAndRecipient(c, s, u, local, body);
    var s2 := Step(c, Step(c, s));
    StuffedDataDelivered(c, s2, local, lines, rest);
    var a := Reply(250, "<" + u + ">" + " sender ok");
    var b := Reply(250, "<" + local + "@" + c.domain + ">" + " recipient ok");
    ghost var text := s2.messageText + Text(lines);
    assert Step(c, s2).output == s.output + [a, b] + [Reply(354, EnterMail), Reply(250, Accepted(text))];
    FourReplies(s.output, a, b, Reply(354, EnterMail), Reply(250, Accepted(text)));
  }

  /** The first two commands of a transaction: an accepted sender, then one accepted recipient. */
  lemma SenderAndRecipient(c: Config, s: Snapshot, u: string, local: string, body: seq<string>)
    requires s.requiredCmd == MAIL
    requires AllDot(u) && ':' !in u && ' ' !in u
    requires local != [] && AllDot(local)
    requires '@' !in local && '<' !in local && '>' !in local && ':' !in local && ' ' !in local
    requires c.domain != [] && AllDot(c.domain)
    requires '@' !in c.domain && '<' !in c.domain && '>' !in c.domain && ':' !in c.domain && ' ' !in c.domain
    requires s.input == [MailFrom(u), RcptTo(local, c.domain)] + body
    ensures Step(c, Step(c, s)) == s.(
      requiredCmd := DATA,
      messageText := "FROM:<" + u + ">" + "\n" + ("TO:<" + local + "@" + c.domain + ">"),
      recipients := [local], input := body,
      output := s.output + [Reply(250, "<" + u + ">" + " sender ok"),
                            Reply(250, "<" + local + "@" + c.domain + ">" + " recipient ok")])
  {
    var a := Reply(250, "<" + u + ">" + " sender ok");
    var b := Reply(250, "<" + local + "@" + c.domain + ">" + " recipient ok");
    var from := "FROM:<" + u + ">";
    MailFromAccepted(c, s, u);
    var s1 := Step(c, s);
    assert s1 == s.(input := s.input[1..], output := s.output + [a], messageText := from, requiredCmd := RCPT);
    DropTwo(MailFrom(u), RcptTo(local, c.domain), body);
    RcptToAccepted(c, s1, local);
    assert s.output + [a] + [b] == s.output + [a, b];
  }

  lemma DropTwo<T>(x: T, y: T, rest: seq<T>)
    ensures ([x, y] + rest)[1..] == [y] + rest && ([y] + rest)[1..] == rest
  {
  }

  lemma FourReplies(out: seq<string>, a: string, b: string, c: string, d: string)
    ensures out + [a] + [b] + [c, d] == out + [a, b, c, d]
  {
  }
}
