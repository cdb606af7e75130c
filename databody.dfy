/**
 * The message body of the DATA command: the receiver's half of the
 * "Transparency" procedure of section 4.5.2 of RFC 821. A line holding only
 * `.` ends the body; a line that begins with `.` loses that one `.`; every
 * other line is kept; each kept line is preceded by a newline.
 */
module DataBody {
  import opened Options

  /** The receiver rule for one line that is not the terminator. */
  function Unstuff(line: string): string
  {
    if |line| > 0 && line[0] == '.' then line[1..] else line
  }

  /** The sender rule of the same section: a line that begins with `.` gets one more. */
  function Stuff(line: string): string
  {
    if |line| > 0 && line[0] == '.' then "." + line else line
  }

  /** The receiver undoes what the sender did, and a stuffed line is never the terminator. */
  lemma UnstuffStuff(line: string)
    ensures Unstuff(Stuff(line)) == line
    ensures Stuff(line) != "."
  {
    if |line| > 0 && line[0] == '.' {
      assert ("." + line)[1..] == line;
    }
  }

  /** What the read loop accumulates from lines that are not the terminator. */
  function Collected(lines: seq<string>): string
    decreases |lines|
  {
    if lines == [] then "" else Collected(lines[..|lines| - 1]) + "\n" + Unstuff(lines[|lines| - 1])
  }

  /** Each line's text on its own line, as the client meant it. */
  function Text(lines: seq<string>): string
    decreases |lines|
  {
    if lines == [] then "" else Text(lines[..|lines| - 1]) + "\n" + lines[|lines| - 1]
  }

  /** A finished body: its text and how many input lines it used, the terminator included. */
  datatype Body = Body(text: string, used: nat)

  /** The prefix `text` read before the rest of the body, and `used` more lines. */
  function Prepend(text: string, used: nat, r: Option<Body>): Option<Body>
  {
    match r
    case None => None
    case Some(b) => Some(Body(text + b.text, used + b.used))
  }

  /**
   * What the DATA loop reads from the input queue: `None` when the input ends
   * before a line equal to `.` (the loop then dereferences null).
   */
  function ReadBody(lines: seq<string>): (r: Option<Body>)
    ensures r.Some? ==> 1 <= r.value.used <= |lines|
    decreases |lines|
  {
    if lines == [] then None
    else if lines[0] == "." then Some(Body("", 1))
    else Prepend("\n" + Unstuff(lines[0]), 1, ReadBody(lines[1..]))
  }

  /**
   * The body ends at the first line equal to `.`, and there is no body
   * exactly when no line is `.`.
   */
  lemma {:induction false} ReadBodyEnds(lines: seq<string>)
    ensures ReadBody(lines).Some? ==>
      var n := ReadBody(lines).value.used;
      lines[n - 1] == "." && forall i :: 0 <= i < n - 1 ==> lines[i] != "."
    ensures ReadBody(lines).None? <==> forall i :: 0 <= i < |lines| ==> lines[i] != "."
    decreases |lines|
  {
    if lines != [] && lines[0] != "." {
      ReadBodyEnds(lines[1..]);
      forall i | 1 <= i < |lines| ensures lines[i] == lines[1..][i - 1] { }
    }
  }

  /** Reading one line that is not the terminator, then the rest. */
  lemma ReadBodyStep(lines: seq<string>)
    requires lines != [] && lines[0] != "."
    ensures ReadBody(lines) == Prepend("\n" + Unstuff(lines[0]), 1, ReadBody(lines[1..]))
  {
  }

  lemma PrependNothing(r: Option<Body>)
    ensures Prepend("", 0, r) == r
  {
    if r.Some? {
      assert "" + r.value.text == r.value.text;
    }
  }

  lemma PrependPrepend(a: string, m: nat, b: string, n: nat, r: Option<Body>)
    ensures Prepend(a, m, Prepend(b, n, r)) == Prepend(a + b, m + n, r)
  {
    if r.Some? {
      assert a + (b + r.value.text) == (a + b) + r.value.text;
    }
  }

  /** One more line read after the prefix `text`. */
  lemma PrependLine(text: string, used: nat, line: string, r: Option<Body>)
    ensures Prepend(text, used, Prepend("\n" + line, 1, r)) == Prepend(text + "\n" + line, used + 1, r)
  {
    PrependPrepend(text, used, "\n" + line, 1, r);
    assert text + ("\n" + line) == text + "\n" + line;
  }

  lemma CollectedCons(line: string, rest: seq<string>)
    ensures Collected([line] + rest) == "\n" + Unstuff(line) + Collected(rest)
    decreases |rest|
  {
    var all := [line] + rest;
    if rest != [] {
      assert all[..|all| - 1] == [line] + rest[..|rest| - 1];
      CollectedCons(line, rest[..|rest| - 1]);
    } else {
      assert all[..0] == [];
    }
  }

  /** The body read is the lines before the terminator, each unstuffed on a line of its own. */
  lemma {:induction false} ReadBodyText(lines: seq<string>)
    requires ReadBody(lines).Some?
    ensures ReadBody(lines).value.text == Collected(lines[..ReadBody(lines).value.used - 1])
    decreases |lines|
  {
    if lines[0] != "." {
      ReadBodyText(lines[1..]);
      var b := ReadBody(lines[1..]).value;
      assert lines[..b.used] == [lines[0]] + lines[1..][..b.used - 1];
      CollectedCons(lines[0], lines[1..][..b.used - 1]);
    } else {
      assert lines[..0] == [];
    }
  }

  /** A body whose terminator is line `n`: the first `n` lines, unstuffed, and `n + 1` lines used. */
  lemma {:induction false} BodyAt(lines: seq<string>, n: nat)
    requires n < |lines| && lines[n] == "." && forall i :: 0 <= i < n ==> lines[i] != "."
    ensures ReadBody(lines) == Some(Body(Collected(lines[..n]), n + 1))
    decreases n
  {
    if n == 0 {
      assert lines[..0] == [];
    } else {
      var tail := lines[1..];
      BodyAt(tail, n - 1);
      assert lines[..n] == [lines[0]] + tail[..n - 1];
      CollectedCons(lines[0], tail[..n - 1]);
      assert "\n" + Unstuff(lines[0]) + Collected(tail[..n - 1]) == Collected(lines[..n]);
    }
  }

  /** The sender's side of the procedure: each line stuffed. */
  function Stuffed(lines: seq<string>): (r: seq<string>)
    ensures |r| == |lines|
    decreases |lines|
  {
    if lines == [] then [] else Stuffed(lines[..|lines| - 1]) + [Stuff(lines[|lines| - 1])]
  }

  /** Unstuffing what the sender stuffed gives the client's own text. */
  lemma {:induction false} CollectedStuffed(lines: seq<string>)
    ensures Collected(Stuffed(lines)) == Text(lines)
    decreases |lines|
  {
    if lines != [] {
      var init := lines[..|lines| - 1];
      var st := Stuffed(lines);
      assert st[..|st| - 1] == Stuffed(init);
      UnstuffStuff(lines[|lines| - 1]);
      CollectedStuffed(init);
    }
  }

  /** No stuffed line is the terminator. */
  lemma StuffedHasNoTerminator(lines: seq<string>, i: nat)
    requires i < |lines|
    ensures Stuffed(lines)[i] == Stuff(lines[i]) && Stuffed(lines)[i] != "."
    decreases |lines|
  {
    UnstuffStuff(lines[i]);
    if i < |lines| - 1 {
      StuffedHasNoTerminator(lines[..|lines| - 1], i);
    }
  }

  /** Reading stuffed lines before anything else contributes their text and their count. */
  lemma {:induction false} ReadStuffedPrefix(lines: seq<string>, after: seq<string>)
    ensures ReadBody(Stuffed(lines) + after) == Prepend(Text(lines), |lines|, ReadBody(after))
    decreases |lines|
  {
    if lines == [] {
      assert Stuffed(lines) + after == after;
      match ReadBody(after) {
        case None =>
        case Some(b) => assert "" + b.text == b.text;
      }
    } else {
      var init := lines[..|lines| - 1];
      var last := lines[|lines| - 1];
      UnstuffStuff(last);
      assert Stuffed(lines) + after == Stuffed(init) + ([Stuff(last)] + after);
      ReadStuffedPrefix(init, [Stuff(last)] + after);
      assert ([Stuff(last)] + after)[1..] == after;
      ReadBodyStep([Stuff(last)] + after);
      PrependPrepend(Text(init), |init|, "\n" + last, 1, ReadBody(after));
      assert Text(init) + ("\n" + last) == Text(lines);
    }
  }

  /**
   * The round trip of the Transparency procedure: the sender stuffs each line
   * and ends with `.`; the receiver reads exactly those lines back, and uses
   * no input after the terminator.
   */
  lemma TransparencyRoundTrip(lines: seq<string>, rest: seq<string>)
    ensures ReadBody(Stuffed(lines) + ["."] + rest) == Some(Body(Text(lines), |lines| + 1))
  {
    assert Stuffed(lines) + ["."] + rest == Stuffed(lines) + (["."] + rest);
    ReadStuffedPrefix(lines, ["."] + rest);
    assert Text(lines) + "" == Text(lines);
  }
}
