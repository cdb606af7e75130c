/**
 * The address checks of the MAIL and RCPT commands: the text after the first
 * `:` of the parameter, the two regular expressions it must match, and the
 * verdict each command acts on.
 */
module Address {
  import opened JavaText

  // ---------------------------------------------------------------------------
  // The regular expressions, read as Java reads them (`matches` is a whole-string
  // match, and `.` matches anything but a line terminator)
  // ---------------------------------------------------------------------------

  predicate IsLineTerminator(c: char)
  {
    c == '\n' || c == '\r' || c == '\U{85}' || c == '\U{2028}' || c == '\U{2029}'
  }

  /** Every character of `s` is matched by the regex `.`. */
  predicate AllDot(s: string)
  {
    forall i :: 0 <= i < |s| ==> !IsLineTerminator(s[i])
  }

  /** `addr.matches("[<].*?[>]")`: a `<`, any characters, a final `>`. */
  predicate SenderPattern(addr: string)
  {
    |addr| >= 2 && addr[0] == '<' && addr[|addr| - 1] == '>' && AllDot(addr[1..|addr| - 1])
  }

  /**
   * `addr.matches("[<]..*?[@].*?[>]")`: a `<`, one character, any characters,
   * an `@`, any characters, a final `>`; so an `@` at index 2 or later and
   * before the final `>`.
   */
  predicate RecipientPattern(addr: string)
  {
    |addr| >= 4 && addr[0] == '<' && addr[|addr| - 1] == '>' && AllDot(addr[1..|addr| - 1]) &&
    exists i :: 2 <= i < |addr| - 1 && addr[i] == '@'
  }

  /** The strings the sender expression describes, written as a concatenation. */
  function SenderForm(u: string): string
  {
    "<" + u + ">"
  }

  /** The strings the recipient expression describes: `<`, x, u, `@`, v, `>`. */
  function RecipientForm(x: char, u: string, v: string): string
  {
    "<" + [x] + u + "@" + v + ">"
  }

  /** The sender check accepts exactly the language of its regular expression. */
  lemma SenderPatternLanguage(addr: string)
    ensures SenderPattern(addr) <==> exists u :: addr == SenderForm(u) && AllDot(u)
  {
    if SenderPattern(addr) {
      var u := addr[1..|addr| - 1];
      assert addr == SenderForm(u);
    }
  }

  /** Every string of the recipient language passes the recipient check. */
  lemma RecipientFormMatches(x: char, u: string, v: string)
    requires !IsLineTerminator(x) && AllDot(u) && AllDot(v)
    ensures RecipientPattern(RecipientForm(x, u, v))
  {
    var addr := RecipientForm(x, u, v);
    var inner := [x] + u + "@" + v;
    assert addr == "<" + inner + ">";
    assert addr[1..|addr| - 1] == inner;
    forall k | 0 <= k < |inner| ensures !IsLineTerminator(inner[k]) {
      if k == 0 {
      } else if k <= |u| {
        assert inner[k] == u[k - 1];
      } else if k > |u| + 1 {
        assert inner[k] == v[k - |u| - 2];
      }
    }
    assert addr[2 + |u|] == inner[1 + |u|] == '@';
  }

  /** A string cut around its second character and one more position. */
  lemma CutAround(s: string, i: int)
    requires 2 <= i < |s| - 1
    ensures s == [s[0]] + [s[1]] + s[2..i] + [s[i]] + s[i + 1..|s| - 1] + [s[|s| - 1]]
  {
    assert s == s[..1] + s[1..2] + s[2..i] + s[i..i + 1] + s[i + 1..|s| - 1] + s[|s| - 1..];
  }

  /** Every string that passes the recipient check is in the recipient language. */
  lemma RecipientPatternForm(addr: string) returns (x: char, u: string, v: string)
    requires RecipientPattern(addr)
    ensures addr == RecipientForm(x, u, v) && !IsLineTerminator(x) && AllDot(u) && AllDot(v)
  {
    var i :| 2 <= i < |addr| - 1 && addr[i] == '@';
    var inner := addr[1..|addr| - 1];
    x, u, v := addr[1], addr[2..i], addr[i + 1..|addr| - 1];
    CutAround(addr, i);
    assert addr == RecipientForm(x, u, v);
    assert inner[0] == x;
    forall k | 0 <= k < |u| ensures !IsLineTerminator(u[k]) {
      assert u[k] == inner[k + 1];
    }
    forall k | 0 <= k < |v| ensures !IsLineTerminator(v[k]) {
      assert v[k] == inner[k + i];
    }
  }

  /** The recipient check accepts exactly the language of its regular expression. */
  lemma RecipientPatternLanguage(addr: string)
    ensures RecipientPattern(addr) <==>
      exists x, u, v :: addr == RecipientForm(x, u, v) && !IsLineTerminator(x) && AllDot(u) && AllDot(v)
  {
    if RecipientPattern(addr) {
      var x, u, v := RecipientPatternForm(addr);
    }
    if exists x, u, v :: addr == RecipientForm(x, u, v) && !IsLineTerminator(x) && AllDot(u) && AllDot(v) {
      var x, u, v :| addr == RecipientForm(x, u, v) && !IsLineTerminator(x) && AllDot(u) && AllDot(v);
      RecipientFormMatches(x, u, v);
    }
  }

  // ---------------------------------------------------------------------------
  // Extracting the address
  // ---------------------------------------------------------------------------

  /** `param.split(":")[1]` when that split has a second piece, `""` otherwise. */
  function AddressField(param: string): string
  {
    var parts := Split(param, ':');
    if |parts| > 1 then parts[1] else ""
  }

  /** `s.replaceAll("[<>]", "")`. */
  function RemoveAngles(s: string): (r: string)
    ensures '<' !in r && '>' !in r
    decreases |s|
  {
    if s == [] then ""
    else (if s[0] == '<' || s[0] == '>' then "" else [s[0]]) + RemoveAngles(s[1..])
  }

  lemma {:induction false} RemoveAnglesAppend(a: string, b: string)
    ensures RemoveAngles(a + b) == RemoveAngles(a) + RemoveAngles(b)
    decreases |a|
  {
    if a != [] {
      assert (a + b)[0] == a[0];
      assert (a + b)[1..] == a[1..] + b;
      RemoveAnglesAppend(a[1..], b);
      var h := if a[0] == '<' || a[0] == '>' then "" else [a[0]];
      assert RemoveAngles(a + b) == h + RemoveAngles(a[1..] + b);
      assert RemoveAngles(a) == h + RemoveAngles(a[1..]);
    } else {
      assert a + b == b;
    }
  }

  lemma {:induction false} RemoveAnglesPlain(s: string)
    requires '<' !in s && '>' !in s
    ensures RemoveAngles(s) == s
    decreases |s|
  {
    if s != [] {
      assert '<' !in s[1..] && '>' !in s[1..];
      RemoveAnglesPlain(s[1..]);
      assert [s[0]] + s[1..] == s;
    }
  }

  // ---------------------------------------------------------------------------
  // Verdicts
  // ---------------------------------------------------------------------------

  datatype MailVerdict =
    | MailSyntax              // no parameter, or it does not start with FROM: 501
    | MailMalformed           // the address does not match: 550
    | MailAccepted(addr: string)

  datatype RcptVerdict =
    | RcptSyntax              // no parameter, or it does not start with TO: 501
    | RcptMalformed           // the address does not match: 550
    | RcptOutOfBounds         // nothing after the `@`: `split("@")[1]` throws
    | RcptRejected            // another domain: 503
    | RcptAccepted(addr: string, local: string)

  /** The checks of `parseMail` once the state allows MAIL. */
  function CheckMail(params: seq<string>): MailVerdict
  {
    if |params| > 0 && StartsWith(Upper(params[0]), "FROM") then
      var addr := AddressField(params[0]);
      if SenderPattern(addr) then MailAccepted(addr) else MailMalformed
    else MailSyntax
  }

  /** The checks of `parseRcpt` once the state allows RCPT. */
  function CheckRcpt(domain: string, params: seq<string>): RcptVerdict
  {
    if |params| > 0 && StartsWith(Upper(params[0]), "TO") then
      var addr := AddressField(params[0]);
      if RecipientPattern(addr) then
        var parts := Split(RemoveAngles(addr), '@');
        if |parts| < 2 then RcptOutOfBounds
        else if parts[1] == domain then RcptAccepted(addr, parts[0])
        else RcptRejected
      else RcptMalformed
    else RcptSyntax
  }

  /**
   * An accepted recipient is a `TO` parameter whose bracket-free address is the
   * local-part, `@`, the configured domain, and then nothing or another `@`
   * (only the piece after the first `@` is compared).
   */
  lemma AcceptedRecipient(domain: string, params: seq<string>)
    requires CheckRcpt(domain, params).RcptAccepted?
    ensures var v := CheckRcpt(domain, params);
      |params| > 0 && StartsWith(Upper(params[0]), "TO") &&
      v.addr == AddressField(params[0]) && RecipientPattern(v.addr) &&
      '@' !in v.local && '<' !in v.local && '>' !in v.local &&
      exists rest :: RemoveAngles(v.addr) == v.local + "@" + domain + rest && (rest == [] || rest[0] == '@')
  {
    var v := CheckRcpt(domain, params);
    var a := RemoveAngles(v.addr);
    SplitShape(a, '@');
    SplitChars(a, '@', 0);
  }

  /** Every character of a piece of a split occurs in the string split. */
  lemma SplitChars(s: string, d: char, i: nat)
    requires i < |Split(s, d)|
    ensures forall c :: c in Split(s, d)[i] ==> c in s
  {
    if d in s {
      PiecesChars(s, d, i);
    }
  }

  lemma {:induction false} PiecesChars(s: string, d: char, i: nat)
    requires i < |Pieces(s, d)|
    ensures forall c :: c in Pieces(s, d)[i] ==> c in s
    decreases |s|
  {
    if s != [] {
      var rest := Pieces(s[1..], d);
      if s[0] == d {
        if i > 0 {
          PiecesChars(s[1..], d, i - 1);
        }
      } else {
        PiecesChars(s[1..], d, i);
      }
    }
  }

  /** The address field of `keyword:addr` is `addr` when neither holds a colon. */
  lemma FieldAfterKeyword(keyword: string, addr: string)
    requires ':' !in keyword && ':' !in addr && addr != []
    ensures AddressField(keyword + ":" + addr) == addr
  {
    assert keyword + ":" + addr == keyword + [':'] + addr;
    SplitPair(keyword, addr, ':');
  }

  /** A keyword of capital letters at the front survives `toUpperCase`. */
  lemma KeywordPrefix(keyword: string, addr: string)
    requires forall i :: 0 <= i < |keyword| ==> 'A' <= keyword[i] <= 'Z'
    ensures StartsWith(Upper(keyword + ":" + addr), keyword)
  {
    assert keyword + ":" + addr == keyword + (":" + addr);
    UpperOfCapitals(keyword);
    UpperAppend(keyword, ":" + addr);
  }

  /** `<`, the plain text `s`, `>` loses exactly its two brackets. */
  lemma RemoveBrackets(s: string)
    requires '<' !in s && '>' !in s
    ensures RemoveAngles("<" + s + ">") == s
  {
    assert "<" + s + ">" == "<" + (s + ">");
    assert RemoveAngles("<") == [] && RemoveAngles(">") == [];
    RemoveAnglesAppend("<", s + ">");
    RemoveAnglesAppend(s, ">");
    RemoveAnglesPlain(s);
  }

  /** The plain form `TO:<local@domain>` of a recipient of this domain is accepted. */
  lemma WellFormedRecipientAccepted(domain: string, local: string)
    requires local != [] && domain != []
    requires AllDot(local) && AllDot(domain)
    requires '@' !in local && '<' !in local && '>' !in local && ':' !in local
    requires '@' !in domain && '<' !in domain && '>' !in domain && ':' !in domain
    ensures CheckRcpt(domain, ["TO:<" + local + "@" + domain + ">"]) ==
            RcptAccepted("<" + local + "@" + domain + ">", local)
  {
    var addr := "<" + local + "@" + domain + ">";
    var p := "TO:<" + local + "@" + domain + ">";
    RecipientKeyword(domain, local);
    RecipientField(domain, local);
    RecipientMatches(domain, local);
    RecipientParts(domain, local);
    assert CheckRcpt(domain, [p]) == RcptAccepted(addr, local);
  }

  /** `TO:<local@domain>` passes the keyword test. */
  lemma RecipientKeyword(domain: string, local: string)
    requires local != [] && ':' !in local && ':' !in domain
    ensures StartsWith(Upper("TO:<" + local + "@" + domain + ">"), "TO")
  {
    RecipientText(local, domain);
    KeywordPrefix("TO", "<" + local + "@" + domain + ">");
  }

  /** The address of `TO:<local@domain>` is `<local@domain>`. */
  lemma RecipientField(domain: string, local: string)
    requires local != [] && ':' !in local && ':' !in domain
    ensures AddressField("TO:<" + local + "@" + domain + ">") == "<" + local + "@" + domain + ">"
  {
    RecipientText(local, domain);
    FieldAfterKeyword("TO", "<" + local + "@" + domain + ">");
  }

  /** `<local@domain>` matches the recipient pattern. */
  lemma RecipientMatches(domain: string, local: string)
    requires local != [] && AllDot(local) && AllDot(domain) && ':' !in local && ':' !in domain
    ensures RecipientPattern("<" + local + "@" + domain + ">")
  {
    RecipientText(local, domain);
    AllDotTail(local);
    RecipientFormMatches(local[0], local[1..], domain);
  }

  /** The ways of writing `TO:<local@domain>` and its address that the checks take apart. */
  lemma RecipientText(local: string, domain: string)
    requires local != [] && ':' !in local && ':' !in domain
    ensures var addr := "<" + local + "@" + domain + ">";
      "TO:<" + local + "@" + domain + ">" == "TO" + ":" + addr &&
      addr == RecipientForm(local[0], local[1..], domain) && ':' !in addr
  {
    assert local == [local[0]] + local[1..];
    var plain := local + "@" + domain;
    assert forall k :: 0 <= k < |plain| ==> plain[k] == (if k < |local| then local[k] else if k == |local| then '@' else domain[k - |local| - 1]);
  }

  lemma AllDotTail(s: string)
    requires s != [] && AllDot(s)
    ensures AllDot(s[1..])
  {
    forall i | 0 <= i < |s| - 1 ensures !IsLineTerminator(s[1..][i]) {
      assert s[1..][i] == s[i + 1];
    }
  }

  /** Without its brackets, `<local@domain>` splits at `@` into the local-part and the domain. */
  lemma RecipientParts(domain: string, local: string)
    requires domain != []
    requires '@' !in local && '<' !in local && '>' !in local
    requires '@' !in domain && '<' !in domain && '>' !in domain
    ensures Split(RemoveAngles("<" + local + "@" + domain + ">"), '@') == [local, domain]
  {
    var plain := local + "@" + domain;
    assert "<" + local + "@" + domain + ">" == "<" + plain + ">";
    assert forall k :: 0 <= k < |plain| ==> plain[k] == (if k < |local| then local[k] else if k == |local| then '@' else domain[k - |local| - 1]);
    assert '<' !in plain && '>' !in plain;
    RemoveBrackets(plain);
    assert plain == local + ['@'] + domain;
    SplitPair(local, domain, '@');
  }

  /** The plain form `FROM:<u>` of a sender is accepted whenever `u` holds no `:` or line terminator. */
  lemma WellFormedSenderAccepted(u: string)
    requires AllDot(u) && ':' !in u
    ensures CheckMail(["FROM:<" + u + ">"]) == MailAccepted("<" + u + ">")
  {
    SenderKeyword(u);
    SenderField(u);
    SenderText(u);
  }

  /** `FROM:<u>` passes the keyword test. */
  lemma SenderKeyword(u: string)
    requires ':' !in u
    ensures StartsWith(Upper("FROM:<" + u + ">"), "FROM")
  {
    SenderText(u);
    KeywordPrefix("FROM", "<" + u + ">");
  }

  /** The address of `FROM:<u>` is `<u>`. */
  lemma SenderField(u: string)
    requires ':' !in u
    ensures AddressField("FROM:<" + u + ">") == "<" + u + ">"
  {
    SenderText(u);
    FieldAfterKeyword("FROM", "<" + u + ">");
  }

  /** The ways of writing `FROM:<u>` and its address that the checks take apart. */
  lemma SenderText(u: string)
    requires ':' !in u
    ensures var addr := "<" + u + ">";
      "FROM:<" + u + ">" == "FROM" + ":" + addr && ':' !in addr && |addr| >= 2 &&
      addr[0] == '<' && addr[|addr| - 1] == '>' && addr[1..|addr| - 1] == u
  {
  }

  /** A sender address without brackets, as in `MAIL FROM:bob@home.com`, is malformed. */
  lemma BareSenderMalformed(u: string)
    requires ':' !in u && u != [] && u[0] != '<'
    ensures CheckMail(["FROM:" + u]) == MailMalformed
  {
    BareSenderField(u);
    BareSenderKeyword(u);
  }

  lemma BareSenderField(u: string)
    requires ':' !in u && u != []
    ensures AddressField("FROM:" + u) == u
  {
    assert "FROM:" + u == "FROM" + ":" + u;
    FieldAfterKeyword("FROM", u);
  }

  lemma BareSenderKeyword(u: string)
    ensures StartsWith(Upper("FROM:" + u), "FROM")
  {
    assert "FROM:" + u == "FROM" + ":" + u;
    KeywordPrefix("FROM", u);
  }

  /** `TO:<local@>` passes the expression and then finds no second piece after the `@`. */
  lemma EmptyDomainOutOfBounds(domain: string, local: string)
    requires local != [] && AllDot(local)
    requires '@' !in local && '<' !in local && '>' !in local && ':' !in local
    ensures CheckRcpt(domain, ["TO:<" + local + "@>"]) == RcptOutOfBounds
  {
    EmptyDomainField(local);
    EmptyDomainMatches(local);
    EmptyDomainParts(local);
  }

  lemma EmptyDomainField(local: string)
    requires local != [] && ':' !in local
    ensures StartsWith(Upper("TO:<" + local + "@>"), "TO")
    ensures AddressField("TO:<" + local + "@>") == "<" + local + "@>"
  {
    var addr := "<" + local + "@>";
    EmptyDomainText(local);
    EmptyDomainKeyword(addr);
    FieldAfterKeyword("TO", addr);
  }

  lemma EmptyDomainKeyword(addr: string)
    ensures StartsWith(Upper("TO" + ":" + addr), "TO")
  {
    KeywordPrefix("TO", addr);
  }

  lemma EmptyDomainMatches(local: string)
    requires local != [] && AllDot(local) && ':' !in local
    ensures RecipientPattern("<" + local + "@>")
  {
    EmptyDomainText(local);
    AllDotTail(local);
    RecipientFormMatches(local[0], local[1..], "");
  }

  lemma EmptyDomainText(local: string)
    requires local != [] && ':' !in local
    ensures var addr := "<" + local + "@>";
      "TO:<" + local + "@>" == "TO" + ":" + addr &&
      addr == RecipientForm(local[0], local[1..], "") && ':' !in addr
  {
    assert local == [local[0]] + local[1..];
  }

  lemma EmptyDomainParts(local: string)
    requires local != [] && '@' !in local && '<' !in local && '>' !in local
    ensures Split(RemoveAngles("<" + local + "@>"), '@') == [local]
  {
    var plain := local + "@";
    assert plain == local + ['@'];
    assert "<" + local + "@>" == "<" + plain + ">";
    assert '<' !in plain && '>' !in plain;
    RemoveBrackets(plain);
    SplitTrailingDelimiter(local, '@');
  }
}
