# KsmtpServ SMTP session, modelled in Dafny

KsmtpServ is a small SMTP server. It accepts mail for a single configured
domain and appends each message to one file per recipient in a mailbox
directory. This project models the part that does the work: the session of one
connection, `SmtpRequestHandler`.

The session is a state machine over the field `requiredCmd`, which waits for
HELO, then MAIL, then RCPT, then DATA, as in RFC 821. Each input line is either
a command or, after DATA, a line of the message body. The model covers:

- dispatch on the upper-cased four-letter verb;
- the parameter split on spaces;
- the sender and recipient address checks, with their regular expressions;
- the accumulation of recipients;
- the body read up to a line holding only `.`, with leading dots removed;
- delivery, which appends the message to each recipient's file;
- the `250 <hash> mail accepted for delivery` reply with Java's
  `String.hashCode`;
- the reset after a delivery, RSET, NOOP, QUIT and EXIT.

The project has two layers:

- A pure specification in module `Smtp` describes the session as a value
  (`Snapshot`) and says what one line does to it (`Step`), what the command loop
  does (`Serve`) and what a whole connection does (`SessionRun`). Module
  `SmtpProperties` proves what the session promises about these functions.
- The class `SmtpSession.Session` keeps the handler's fields and its methods in
  the shape of the Java methods. Each method states its new state as the
  matching function of the old one, e.g. `ensures Abs() == Step(Cfg(), old(Abs()))`.

Supporting modules:

| module | what it models |
|---|---|
| `JavaText` | `toUpperCase`, `startsWith`, the UTF-16 code units that `length()` and `substring` count, `String.split` with a one-character delimiter (trailing empty pieces are dropped, so `" ".split(" ")` is empty), the comma join of the recipient string, and `Integer.toString` |
| `JavaHash` | `String.hashCode` over UTF-16 code units, with 32-bit wrap-around |
| `Address` | the two `matches` patterns, `split(":")[1]`, `replaceAll("[<>]", "")` and the verdicts of MAIL and RCPT |
| `DataBody` | the body read of DATA. It is the receiver's half of the Transparency procedure of section 4.5.2 of RFC 821, and is proved to invert the sender's half. |
| `Mailbox` | the mailbox directory: a map from file name to contents, written through the class `MailStore` |

### How the model represents the session

- **Input.** The socket's input is a queue of lines. An empty queue stands for
  the `null` that `readLine` returns at the end of the stream.
- **Output.** The replies sent are kept as a sequence.
- **Stopping.** Two uncaught exceptions end the thread without the closing
  221, and the model records each as a `Halt` value:
  - the `NullPointerException` on a `null` line (`NullLine`);
  - `a.split("@")[1]` on an address such as `<x@>` (`IndexOutOfRange`).

  `System.exit` after EXIT becomes `Exited`.
- **Recipients.** The source keeps the recipients in a comma-joined string. The
  model keeps them as a sequence. The names delivered to are
  `Split(Join(recipients, ','), ',')`, exactly as `saveMsgData` splits the
  string again. So a local-part containing a comma names two files
  (`CommaInLocalPart`).
- **Case.** `toUpperCase` is modelled for every character whose upper case
  holds an ASCII letter. These are `a`..`z`, U+0131 (to `I`) and U+017F (to
  `S`), and the characters that Unicode special casing expands to two or three
  characters: `ß`, the ligatures U+FB00..U+FB06, U+0149, U+01F0 and
  U+1E96..U+1E9A. So `QUIẗ` is QUIT, because `ẗ` becomes `T` followed by a
  combining diaeresis (`SpecialCasingDispatch`).
- **Length and `substring`.** `cmd.length()` and `cmd.substring(5)` count UTF-16
  code units, and so does the model (`Utf16`, `Substring`). A character above
  U+FFFF takes two units. When unit 5 is the second half of such a pair,
  `substring(5)` starts with that half on its own. A Dafny `char` cannot hold
  it, so the model writes U+FFFD in its place (`SubstringUnits`). Like the
  unpaired half, U+FFFD is neither a space nor a letter. The parameter it
  starts is never stored or echoed, and it fails the FROM and TO tests
  (`SurrogateAfterHelo`, `SurrogateBeforeFrom`).

### Behaviour of the code worth noting

- After a delivery, and after RSET, the recipient list is not cleared:
  `resetMsg` only sets `requiredCmd` and `messageText`. The next accepted RCPT
  replaces the list, because it runs in the RCPT stage. `StepKeepsFresh` proves
  that the list used by a delivery is always the one accepted since the last
  MAIL.
- The sender pattern `[<].*?[>]` also accepts `<>`.
- Parameters are split on single spaces after the fifth UTF-16 code unit,
  whatever that unit is. A line of exactly five units, such as `HELO `, has
  one empty parameter and is greeted. `HELO  ` has no parameter and gets the
  501 (`ParamsEmpty`).
- The message of the 501 is `HELO requires valid address`. The transcript kept
  in `src/Main.java` shows other wording. Its hash values do not equal
  `String.hashCode` of the text the code builds, so the model does not use them.

## Model

| member | source | states |
|---|---|---|
| JavaText.UpperChars | src/SmtpRequestHandler.java:137 | the upper case of one character, with the special-casing expansions whose result holds an ASCII letter: one to three characters, and a character above U+FFFF is kept |
| JavaText.Upper | src/SmtpRequestHandler.java:137 | `toUpperCase`, character by character; its properties are stated by UpperAppend and UpperIdempotent |
| JavaText.UpperAppend | src/SmtpRequestHandler.java:137-138 | upper-casing distributes over concatenation, so a keyword's upper case at the front of a line decides the prefix test |
| JavaText.UpperCharsFixed | src/SmtpRequestHandler.java:137 | the upper case of a character is its own upper case |
| JavaText.UpperIdempotent | src/SmtpRequestHandler.java:137 | upper-casing an upper-cased string changes nothing |
| JavaText.UpperBmp | src/SmtpRequestHandler.java:135-137 | a string whose upper case is below U+10000 is below U+10000 itself |
| JavaText.Utf16 | src/SmtpRequestHandler.java:135 | the UTF-16 code units of a string, at least one per character; their number is `length()` |
| JavaText.Substring | src/SmtpRequestHandler.java:136 | `substring(n)` by code units; its meaning is stated by SubstringUnits |
| JavaText.SubstringUnits | src/SmtpRequestHandler.java:136 | the code units of `substring(n)` are those of the string from unit n on, an unpaired low surrogate at the cut written as U+FFFD |
| JavaText.SubstringBmp | src/SmtpRequestHandler.java:136 | over characters below U+10000, `substring(n)` drops the first n characters |
| JavaText.SpacesUnits | src/SmtpRequestHandler.java:136 | a string is all spaces iff its code units are all spaces |
| JavaText.Split | src/SmtpRequestHandler.java:136 | `split` on one character; its properties are stated by SplitEmpty, SplitJoin, SplitPair and SplitTrailingDelimiter |
| JavaText.Join | src/SmtpRequestHandler.java:294-297 | the comma-joined recipient string; JoinPieces and PiecesJoin state that it inverts the split |
| JavaText.IntToString | src/SmtpRequestHandler.java:360-361 | `Integer.toString`; ParseIntToString states that it determines the int |
| JavaText.Pieces | src/SmtpRequestHandler.java:136 | the pieces of a split: at least one, none containing the delimiter |
| JavaText.DropTrailingEmpty | src/SmtpRequestHandler.java:136 | a prefix of the pieces that does not end in an empty piece, and only empty pieces were dropped |
| JavaText.JoinPieces | src/SmtpRequestHandler.java:381 | joining the pieces of a string with the delimiter gives the string back |
| JavaText.PiecesJoin | src/SmtpRequestHandler.java:381 | the pieces of a join of delimiter-free names are those names |
| JavaText.SplitJoin | src/SmtpRequestHandler.java:381 | splitting the comma join that `parseRcpt` builds at lines 294-297 gives the names back when none holds a comma and the last is not empty |
| JavaText.SplitShape | src/SmtpRequestHandler.java:237-238 | a split with two pieces or more: the string is the first piece, the delimiter, the second piece and then nothing or another delimiter |
| JavaText.SplitPair | src/SmtpRequestHandler.java:287 | `a@b` with plain non-empty `b` splits into exactly `[a, b]` |
| JavaText.SplitTrailingDelimiter | src/SmtpRequestHandler.java:287 | `a@` splits into `[a]` alone, so index 1 does not exist |
| JavaText.PiecesAllEmpty | src/SmtpRequestHandler.java:136 | all pieces are empty iff the string consists of delimiters only |
| JavaText.SplitEmpty | src/SmtpRequestHandler.java:136 | split gives no pieces iff the string is non-empty and all delimiters |
| JavaText.NatToString | src/SmtpRequestHandler.java:419 | the decimal form is non-empty digits without a leading zero |
| JavaText.ParseIntToString | src/SmtpRequestHandler.java:360-361 | the decimal form of an int reads back as the same int |
| JavaText.ThreeDigits | src/SmtpRequestHandler.java:419 | every reply code from 100 to 999 is written as three digits |
| JavaHash.ToInt32 | src/SmtpRequestHandler.java:360 | an unsigned 32-bit value read as a signed int: in the int range and congruent modulo 2^32 |
| JavaHash.HashUnits | src/SmtpRequestHandler.java:360 | the 31-multiplier hash accumulator stays within 32 unsigned bits |
| JavaHash.HashCode | src/SmtpRequestHandler.java:360 | the hash is a signed 32-bit value |
| JavaHash.HashUnitsIsPoly | src/SmtpRequestHandler.java:360 | the wrapped accumulator equals the polynomial sum of 31 powers modulo 2^32 |
| JavaHash.HashCodeIsPoly | src/SmtpRequestHandler.java:360 | `hashCode` is the polynomial hash of the UTF-16 units read as a signed int |
| Address.SenderPattern | src/SmtpRequestHandler.java:239 | `addr.matches("[<].*?[>]")`; SenderPatternLanguage states the strings it accepts |
| Address.RecipientPattern | src/SmtpRequestHandler.java:283 | `addr.matches("[<]..*?[@].*?[>]")`; RecipientPatternLanguage states the strings it accepts |
| Address.AddressField | src/SmtpRequestHandler.java:236-238 | the text after the first `:`, or empty when there is none; FieldAfterKeyword states it for `keyword:addr` |
| Address.CheckMail | src/SmtpRequestHandler.java:234-250 | the verdict of MAIL past the stage test; WellFormedSenderAccepted and BareSenderMalformed state cases |
| Address.CheckRcpt | src/SmtpRequestHandler.java:278-308 | the verdict of RCPT past the stage test; AcceptedRecipient states what an acceptance implies |
| Address.SenderPatternLanguage | src/SmtpRequestHandler.java:239 | `[<].*?[>]` matches exactly the strings `<u>` where `u` has no line terminator |
| Address.RecipientFormMatches | src/SmtpRequestHandler.java:283 | every `<x u @ v>` without line terminators matches `[<]..*?[@].*?[>]` |
| Address.RecipientPatternForm | src/SmtpRequestHandler.java:283 | a match of the recipient pattern yields its `x`, `u` and `v` |
| Address.RecipientPatternLanguage | src/SmtpRequestHandler.java:283 | the recipient pattern matches exactly the strings `<x u @ v>` without line terminators |
| Address.RemoveAngles | src/SmtpRequestHandler.java:284 | the result contains no angle bracket |
| Address.RemoveAnglesAppend | src/SmtpRequestHandler.java:284 | removing brackets distributes over concatenation |
| Address.RemoveAnglesPlain | src/SmtpRequestHandler.java:284 | a bracket-free string is left unchanged |
| Address.AcceptedRecipient | src/SmtpRequestHandler.java:278-294 | an accepted recipient starts with TO and matches the pattern; its bare address is the bracket-free local-part, `@`, the domain, then nothing or another `@` |
| Address.FieldAfterKeyword | src/SmtpRequestHandler.java:237-238 | the text after the first `:` of `keyword:addr` is `addr` |
| Address.KeywordPrefix | src/SmtpRequestHandler.java:235 | the upper case of `KEYWORD:addr` starts with the keyword |
| Address.WellFormedRecipientAccepted | src/SmtpRequestHandler.java:278-294 | `TO:<local@domain>` for the configured domain is accepted with that local-part |
| Address.WellFormedSenderAccepted | src/SmtpRequestHandler.java:234-244 | `FROM:<u>` is accepted with the address `<u>` |
| Address.BareSenderMalformed | src/SmtpRequestHandler.java:239-247 | a sender without angle brackets is malformed (550) |
| Address.EmptyDomainOutOfBounds | src/SmtpRequestHandler.java:283-287 | `TO:<local@>` passes the pattern and then fails `split("@")[1]` |
| DataBody.Unstuff | src/SmtpRequestHandler.java:349-350 | one leading `.` removed; UnstuffStuff states that it inverts stuffing |
| DataBody.Collected | src/SmtpRequestHandler.java:351 | each line after a newline; ReadBodyText states that the body text is this of the unstuffed lines |
| DataBody.UnstuffStuff | src/SmtpRequestHandler.java:349-350 | dropping a leading `.` undoes the sender's dot-stuffing, and a stuffed line is never the terminator |
| DataBody.ReadBody | src/SmtpRequestHandler.java:341-352 | a body uses at least one line and no more lines than there are |
| DataBody.ReadBodyEnds | src/SmtpRequestHandler.java:341-348 | the body ends at the first line equal to `.`; there is no body iff no line is `.` |
| DataBody.ReadBodyText | src/SmtpRequestHandler.java:341-352 | the body text is the lines before the terminator, each unstuffed after a newline |
| DataBody.BodyAt | src/SmtpRequestHandler.java:341-352 | with the first `.` at line n, the body is the first n lines unstuffed and uses n + 1 lines |
| DataBody.CollectedStuffed | src/SmtpRequestHandler.java:349-351 | unstuffing stuffed lines gives the client's text |
| DataBody.StuffedHasNoTerminator | src/SmtpRequestHandler.java:348 | no stuffed line ends the body |
| DataBody.ReadStuffedPrefix | src/SmtpRequestHandler.java:341-352 | stuffed lines read before anything else contribute their text and their count |
| DataBody.TransparencyRoundTrip | src/SmtpRequestHandler.java:341-352 | reading stuffed lines and `.` gives back the client's text and uses no input after the `.` |
| Mailbox.AppendFile | src/SmtpRequestHandler.java:385-388 | one append to one file, created empty when absent; nothing for a name that cannot be opened |
| Mailbox.Deliver | src/SmtpRequestHandler.java:382-396 | the appends in target order; DeliverContents and DeliverKeys state the result |
| Mailbox.DeliverContents | src/SmtpRequestHandler.java:379-397 | a writable file named k times among the targets gains the framed text k times at its end; every other file is as before |
| Mailbox.DeliverKeys | src/SmtpRequestHandler.java:385-386 | a delivery creates files only for target names and removes none |
| Mailbox.SuccessiveDeliveries | src/SmtpRequestHandler.java:385-388 | files are opened for append: two deliveries leave the old contents, then the first text, then the second |
| Mailbox.MailStore.Append | src/SmtpRequestHandler.java:385-395 | one append of the text to the named file, or nothing when the file cannot be opened |
| Smtp.Reply | src/SmtpRequestHandler.java:419 | `code + " " + message + "\r\n"`; ReplyWellFormed states its shape |
| Smtp.Say | src/SmtpRequestHandler.java:417-424 | one reply appended to the output, nothing else changed |
| Smtp.Classify | src/SmtpRequestHandler.java:137-159 | the verb of a line; ClassifyKeyword, ClassifyOther and ClassifyIgnoresCase state it |
| Smtp.Params | src/SmtpRequestHandler.java:134-136 | the parameters of a line; ParamsEmpty and CommandLine state them |
| Smtp.OnHelo | src/SmtpRequestHandler.java:202-213 | `parseHelo` reads no further line; HeloOutcome states its effect |
| Smtp.OnMail | src/SmtpRequestHandler.java:230-254 | `parseMail` reads no further line; MailOutcome and MailAcceptedIff state its effect |
| Smtp.OnRcpt | src/SmtpRequestHandler.java:273-310 | `parseRcpt` reads no further line; RcptRejectionsKeepState and RcptAccepted state its effect |
| Smtp.OnReset | src/SmtpRequestHandler.java:439-444 | `resetMsg`; RsetBeforeHelo and RsetAfterHelo state its effect |
| Smtp.Targets | src/SmtpRequestHandler.java:381 | the names `saveMsgData` writes; TargetsAreRecipients and CommaInLocalPart state them |
| Smtp.OnSave | src/SmtpRequestHandler.java:379-397 | `saveMsgData`; DataAppends states its effect on every file |
| Smtp.OnData | src/SmtpRequestHandler.java:329-365 | DATA never adds input lines |
| Smtp.Execute | src/SmtpRequestHandler.java:134-159 | acting on a line never adds input lines |
| Smtp.Step | src/SmtpRequestHandler.java:131-165 | each command consumes at least one line; on an empty input the thread stops with a null line |
| Smtp.Close | src/SmtpRequestHandler.java:107-108 | the 221 after QUIT, nothing when the thread stopped; ServeEnds states it |
| Smtp.Serve | src/SmtpRequestHandler.java:104-106 | `handleCommand` until QUIT or a stop; ServeEnds states that it ends and how |
| Smtp.SessionRun | src/SmtpRequestHandler.java:101-115 | `run`; SessionGreets states its first reply |
| SmtpSession.Session.constructor | src/SmtpRequestHandler.java:59-66 | a new session waits for HELO with no text, no recipients and no replies |
| SmtpSession.Session.ReadLine | src/SmtpRequestHandler.java:133 | the next line is taken off the input, or `None` at its end |
| SmtpSession.Session.SendResponse | src/SmtpRequestHandler.java:417-424 | one reply `code message CRLF` is appended to the output |
| SmtpSession.Session.HeloDone | src/SmtpRequestHandler.java:181-185 | true iff HELO has been accepted; otherwise the 503 is sent |
| SmtpSession.Session.ParseHelo | src/SmtpRequestHandler.java:202-213 | the new state is `OnHelo` of the old |
| SmtpSession.Session.ParseMail | src/SmtpRequestHandler.java:230-254 | the new state is `OnMail` of the old |
| SmtpSession.Session.ParseRcpt | src/SmtpRequestHandler.java:273-310 | the new state is `OnRcpt` of the old |
| SmtpSession.Session.CheckRecipient | src/SmtpRequestHandler.java:278-308 | past the stage test, the syntax and pattern checks give the new state `OnRcpt` of the old |
| SmtpSession.Session.RouteRecipient | src/SmtpRequestHandler.java:284-302 | for an address that matched, the split at `@` and the domain test give the new state `OnRcpt` of the old |
| SmtpSession.Session.AddRecipient | src/SmtpRequestHandler.java:288-298 | for a recipient the checks accept, the 250, the text and the recipient update give the new state `OnRcpt` of the old |
| SmtpSession.Session.ReadMessage | src/SmtpRequestHandler.java:338-352 | the loop returns the text of `ReadBody` and consumes exactly the lines it uses, or returns `None` with the input exhausted |
| SmtpSession.Session.ParseData | src/SmtpRequestHandler.java:329-365 | the new state is `OnData` of the old |
| SmtpSession.Session.SaveMsgData | src/SmtpRequestHandler.java:379-397 | the mailbox is `Deliver` of the old one over the split recipient string |
| SmtpSession.Session.ResetMsg | src/SmtpRequestHandler.java:439-444 | the new state is `OnReset` of the old |
| SmtpSession.Session.ExecuteCommand | src/SmtpRequestHandler.java:134-159 | the if-chain on the upper-cased line does what `Execute` says |
| SmtpSession.Session.ExecuteControl | src/SmtpRequestHandler.java:146-159 | QUIT and RSET, and through `ExecuteReply` the rest of the chain, do what `Execute` says |
| SmtpSession.Session.ExecuteReply | src/SmtpRequestHandler.java:151-159 | NOOP, EXIT and an unrecognized line do what `Execute` says |
| SmtpSession.Session.HandleCommand | src/SmtpRequestHandler.java:131-165 | the new state is `Step` of the old |
| SmtpSession.Session.Run | src/SmtpRequestHandler.java:101-115 | the whole connection ends in `SessionRun` of the initial state |
| SmtpProperties.Keyword | src/SmtpRequestHandler.java:138-152 | the keyword each test looks for: four capital letters |
| SmtpProperties.ClassifyKeyword | src/SmtpRequestHandler.java:137-156 | a line goes to a verb iff its upper case starts with that verb's keyword, so the order of the tests is immaterial |
| SmtpProperties.ClassifyOther | src/SmtpRequestHandler.java:157-158 | a line is unrecognized iff it starts with no keyword |
| SmtpProperties.ClassifyIgnoresCase | src/SmtpRequestHandler.java:137-138 | any mix of cases of a keyword, followed by anything, goes to that verb |
| SmtpProperties.ClassifyUpper | src/SmtpRequestHandler.java:137 | upper-casing a line first does not change its verb |
| SmtpProperties.ClassifyThreeAndOne | src/SmtpRequestHandler.java:137-156 | three capitals and a character whose upper case starts with the keyword's last letter go to that keyword's verb |
| SmtpProperties.SpecialCasingDispatch | src/SmtpRequestHandler.java:137-156 | lines starting `QUIẗ`, `EXIẗ`, `RSEẗ` and `DATẚ` are QUIT, EXIT, RSET and DATA |
| SmtpProperties.ParamsEmpty | src/SmtpRequestHandler.java:134-136 | no parameters iff the line has at most four UTF-16 code units, or only spaces (at least one) after its fifth |
| SmtpProperties.SubstringAfterBmp | src/SmtpRequestHandler.java:136 | `substring(n)` skips a leading text below U+10000 one unit per character |
| SmtpProperties.CutAfterKeyword | src/SmtpRequestHandler.java:135-138 | a keyword followed by a character above U+FFFF: that verb, and `substring(5)` starts with half a surrogate pair |
| SmtpProperties.SurrogateAfterHelo | src/SmtpRequestHandler.java:134-139 | `HELO`, a character above U+FFFF and a space has one parameter, so HELO is greeted |
| SmtpProperties.SurrogateBeforeFrom | src/SmtpRequestHandler.java:134-141 | `MAIL`, a character above U+FFFF and a parameter has a first parameter that fails the FROM test: 501 |
| SmtpProperties.LoneSurrogateNoKeyword | src/SmtpRequestHandler.java:235 | a parameter starting with an unpaired surrogate starts with no keyword in any case |
| SmtpProperties.NoopAndUnknownKeepSession | src/SmtpRequestHandler.java:151-158 | NOOP replies 250 and an unknown line 500; nothing else changes |
| SmtpProperties.QuitSetsFlag | src/SmtpRequestHandler.java:146-147 | QUIT sets the loop's flag and sends nothing |
| SmtpProperties.HeloOutcome | src/SmtpRequestHandler.java:202-213 | HELO greets and advances only from the HELO stage and never regresses; with no parameter it gives 501 |
| SmtpProperties.PoliteBeforeHelo | src/SmtpRequestHandler.java:140-145 | before HELO, MAIL, RCPT and DATA only get `503 Polite people say HELO first` |
| SmtpProperties.RsetBeforeHelo | src/SmtpRequestHandler.java:148-150 | RSET before HELO replies 503 (from `resetMsg`, lines 439-444) then 250 and changes nothing else |
| SmtpProperties.RsetAfterHelo | src/SmtpRequestHandler.java:439-444 | RSET after HELO returns to MAIL with an empty text; the recipients stay |
| SmtpProperties.NothingBeforeHelo | src/SmtpRequestHandler.java:138-159 | before HELO, text, recipients and mailboxes never change; the stage becomes MAIL iff the line is HELO with a parameter |
| SmtpProperties.MailOutcome | src/SmtpRequestHandler.java:230-254 | MAIL gives 503 for a second sender, 501 without FROM, 550 for a bad address (state unchanged), or accepts and moves to RCPT with the text seeded |
| SmtpProperties.MailAcceptedIff | src/SmtpRequestHandler.java:232-244 | MAIL changes the stage iff it is in the MAIL stage and the sender matched |
| SmtpProperties.RcptRejectionsKeepState | src/SmtpRequestHandler.java:273-310 | a rejected RCPT (503, 501, 550, or 503 for another domain) leaves the session unchanged; `<x@>` stops the thread |
| SmtpProperties.RcptAccepted | src/SmtpRequestHandler.java:287-298 | an accepted RCPT appends the parameter to the text; the first one after MAIL replaces the recipients, later ones append |
| SmtpProperties.FreshAtStart | src/SmtpRequestHandler.java:64-65 | a new session holds no recipients that count |
| SmtpProperties.StepKeepsFresh | src/SmtpRequestHandler.java:230-310 | every line keeps the recipient list equal to the local-parts accepted since the last accepted MAIL |
| SmtpProperties.TargetsAreRecipients | src/SmtpRequestHandler.java:381 | the files written are the local-parts themselves when none holds a comma and the last is not empty |
| SmtpProperties.CommaInLocalPart | src/SmtpRequestHandler.java:283-297 | `RCPT TO:<a,b@domain>` is accepted with the local-part `a,b`, and the delivery then writes files `a` and `b` |
| SmtpProperties.DataTooEarly | src/SmtpRequestHandler.java:330-333 | DATA before a sender or before a recipient gets its 503 and changes nothing |
| SmtpProperties.DataEndOfInput | src/SmtpRequestHandler.java:337-348 | a body that never ends gets the 354, then the thread stops with nothing delivered |
| SmtpProperties.DataDelivers | src/SmtpRequestHandler.java:337-365 | DATA reads up to the first `.` and leaves the input after it; the mailbox is the delivery of the framed text to the split recipient string; the replies are 354 and 250 with the hash; the session is back at MAIL with no text and the same recipients |
| SmtpProperties.DataDone | src/SmtpRequestHandler.java:337-365 | `parseData` in the DATA stage, with the first `.` at line n of its input, has the same outcome, stated on the lines after the command |
| SmtpProperties.DataAppends | src/SmtpRequestHandler.java:337-397 | after DATA, a writable target named k times has gained the framed text k times at its end; every other file is as before |
| SmtpProperties.DeliveryGoesToAccepted | src/SmtpRequestHandler.java:379-397 | with the list kept fresh, a delivery writes the local-parts accepted since MAIL and creates no other file |
| SmtpProperties.AcceptedCarriesHash | src/SmtpRequestHandler.java:360-361 | the number in the 250 reply reads back as the text's signed 32-bit hash |
| SmtpProperties.ReplyWellFormed | src/SmtpRequestHandler.java:419 | a reply is three digits, a space, the text and CRLF |
| SmtpProperties.StepExtends | src/SmtpRequestHandler.java:131-165 | a line only appends replies, each well formed |
| SmtpProperties.ServeEnds | src/SmtpRequestHandler.java:104-108 | the loop ends on QUIT or a stop; after QUIT the last reply is the 221; all replies are well formed |
| SmtpProperties.ServeCloses | src/SmtpRequestHandler.java:104-108 | the loop's result is the closing step applied to a state that has seen QUIT or whose thread stopped |
| SmtpProperties.ServeStops | src/SmtpRequestHandler.java:104-108 | the loop ends on QUIT or a stop, and after QUIT the last reply is the 221 |
| SmtpProperties.ServeExtends | src/SmtpRequestHandler.java:104-106 | the loop keeps the earlier replies and adds only well-formed ones |
| SmtpProperties.SessionGreets | src/SmtpRequestHandler.java:103 | the first reply of a session is the 220 greeting |
| SmtpProperties.MailFromLine | src/SmtpRequestHandler.java:134-141 | `MAIL FROM:<u>` goes to MAIL with the one parameter `FROM:<u>` |
| SmtpProperties.RcptToLine | src/SmtpRequestHandler.java:134-143 | `RCPT TO:<l@d>` goes to RCPT with the one parameter `TO:<l@d>` |
| SmtpProperties.DataLine | src/SmtpRequestHandler.java:144-145 | `DATA` goes to DATA |
| SmtpProperties.KeywordBmp | src/SmtpRequestHandler.java:137-152 | a word whose upper case is a keyword has no character above U+FFFF, so it is four UTF-16 units long |
| SmtpProperties.ParamsAfterWord | src/SmtpRequestHandler.java:135-136 | four BMP characters, a space and a word without spaces: that word is the one parameter |
| SmtpProperties.CommandLine | src/SmtpRequestHandler.java:134-138 | a keyword in any case, one space and a parameter without spaces goes to that keyword's verb with that one parameter |
| SmtpProperties.MailFromAccepted | src/SmtpRequestHandler.java:230-244 | a well-formed `MAIL FROM` in the MAIL stage gives 250, seeds the text and moves to RCPT |
| SmtpProperties.RcptToAccepted | src/SmtpRequestHandler.java:273-294 | a well-formed first `RCPT TO` for the domain gives 250, appends to the text and makes the local-part the only recipient |
| SmtpProperties.SenderAndRecipient | src/SmtpRequestHandler.java:230-298 | an accepted `MAIL FROM` followed by an accepted `RCPT TO` leaves the session in the DATA stage with both parameters in the text, the one local-part as recipient and the two 250 replies |
| SmtpProperties.StuffedDataDelivered | src/SmtpRequestHandler.java:329-365 | a stuffed body for one writable recipient is appended to that file alone, framed by newlines |
| SmtpProperties.Transaction | src/SmtpRequestHandler.java:131-365 | MAIL, RCPT and DATA with a stuffed body deliver the sender line, recipient line and client text to the recipient's file, change no other file, reply 250, 250, 354, 250 and return to MAIL |

## Left out

- Sockets, the thread per connection and the host-name lookup are left out. The
  server and peer names are fixed per session; `src/SmtpServer.java` and
  `src/Main.java` are not part of this model.
- The `IOException` handlers are left out: they cover reading a command
  (lines 160-164), reading the body (lines 344-347), writing a reply (lines
  420-423) and writing a file (lines 391-395). The model reads its input from a
  queue that cannot fail. A file that cannot be opened is modelled as a name in
  the store's `unwritable` set, and its delivery is skipped.
- The closing of the socket after QUIT (lines 109-114) and the `System.exit` of
  EXIT are left out. EXIT sends its 999 and stops the model.
- The `DEBUG` console output is left out. It changes no state.
- Appends to the same file from concurrent sessions are left out, because the
  model has one session.
- `DataOutputStream.writeBytes` drops the high byte of each character. Replies
  are kept as the characters the code passes to it.
- Upper: a character whose upper case holds no ASCII letter is kept as it is
  (`é` stays `é`, not `É`), because the result is only ever compared with
  ASCII keywords, and such a character fails that comparison either way. A
  Turkish, Azeri or Lithuanian default locale, which maps `i` differently, is
  not modelled.
- Substring: an unpaired surrogate that `substring(5)` leaves is written
  U+FFFD, because a Dafny `char` cannot hold a surrogate. `SubstringUnits`
  states the code units exactly.
- Mailbox.Deliver: `new File(directory, name)` resolves the name as a path.
  The model keys the map by the raw name, so it does not capture path
  resolution, aliasing or traversal: `../x` writes outside the directory,
  `a/b` into a subdirectory, and `./a`, `a/` and `a` are one file (and so are
  `A` and `a` on a case-insensitive file system). "Every other file is as
  before" and "no other file is created" hold for the names, not for the
  files on disk.
- The run loop of the model also ends when the thread stops, not only on
  `quit`. The source has no such test: there an uncaught exception ends `run`,
  and EXIT ends the process.
