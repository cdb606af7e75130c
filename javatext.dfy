/**
 * The pieces of java.lang.String that the SMTP session relies on: upper-casing
 * for the verb and keyword prefix tests, the UTF-16 code units that `length()`
 * and `substring` count, `split` on a one-character delimiter (which drops
 * trailing empty pieces), and the decimal form of an `int`.
 */
module JavaText {

  // ---------------------------------------------------------------------------
  // Upper case and prefixes
  // ---------------------------------------------------------------------------

  /**
   * The upper case of one character as `toUpperCase` writes it, for every
   * character whose upper case holds an ASCII letter: `a`..`z`; the dotless i
   * (U+0131) and the long s (U+017F), which become `I` and `S`; and the
   * characters that Unicode special casing expands into two or three (`ß` to
   * `SS`, the ligatures U+FB00..U+FB06, U+0149, U+01F0, and U+1E96..U+1E9A,
   * e.g. `ẗ` to `T` and a combining diaeresis). Every other character is kept:
   * its real upper case holds no ASCII letter, so it fails a test against an
   * ASCII keyword at that position just as the kept character does.
   */
  function UpperChars(c: char): (r: string)
    ensures 1 <= |r| <= 3
    ensures c as int >= 0x1_0000 ==> r == [c]
  {
    if 'a' <= c <= 'z' then [(c as int - 32) as char]
    else if c in SpecialUpper then SpecialUpper[c]
    else [c]
  }

  /** The characters above U+007F whose upper case holds an ASCII letter, with that upper case. */
  const SpecialUpper: map<char, string> := map[
    '\U{131}' := "I", '\U{17F}' := "S", '\U{DF}' := "SS",
    '\U{149}' := "\U{2BC}N", '\U{1F0}' := "J\U{30C}",
    '\U{1E96}' := "H\U{331}", '\U{1E97}' := "T\U{308}", '\U{1E98}' := "W\U{30A}",
    '\U{1E99}' := "Y\U{30A}", '\U{1E9A}' := "A\U{2BE}",
    '\U{FB00}' := "FF", '\U{FB01}' := "FI", '\U{FB02}' := "FL", '\U{FB03}' := "FFI",
    '\U{FB04}' := "FFL", '\U{FB05}' := "ST", '\U{FB06}' := "ST"]

  /** `s.toUpperCase()`: the upper case of each character in turn. */
  function Upper(s: string): string
    decreases |s|
  {
    if s == [] then [] else UpperChars(s[0]) + Upper(s[1..])
  }

  predicate StartsWith(s: string, prefix: string)
  {
    |prefix| <= |s| && s[..|prefix|] == prefix
  }

  /** Upper-casing works character by character, so it distributes over concatenation. */
  lemma {:induction false} UpperAppend(a: string, b: string)
    ensures Upper(a + b) == Upper(a) + Upper(b)
    decreases |a|
  {
    if a != [] {
      var h := UpperChars(a[0]);
      assert (a + b)[0] == a[0] && (a + b)[1..] == a[1..] + b;
      UpperAppend(a[1..], b);
      assert Upper(a + b) == h + (Upper(a[1..]) + Upper(b));
      assert h + (Upper(a[1..]) + Upper(b)) == (h + Upper(a[1..])) + Upper(b);
    } else {
      assert a + b == b;
    }
  }

  /** A string of characters that are their own upper case is its own upper case. */
  lemma {:induction false} UpperKept(t: string)
    requires forall i :: 0 <= i < |t| ==> UpperChars(t[i]) == [t[i]]
    ensures Upper(t) == t
    decreases |t|
  {
    if t != [] {
      UpperKept(t[1..]);
      assert t == [t[0]] + t[1..];
    }
  }

  /** A string of capital ASCII letters is its own upper case. */
  lemma UpperOfCapitals(s: string)
    requires forall i :: 0 <= i < |s| ==> 'A' <= s[i] <= 'Z'
    ensures Upper(s) == s
  {
    forall i | 0 <= i < |s| ensures UpperChars(s[i]) == [s[i]] {
      UpperCharsCapital(s[i]);
    }
    UpperKept(s);
  }

  lemma UpperCharsCapital(c: char)
    requires 'A' <= c <= 'Z'
    ensures UpperChars(c) == [c]
  {
  }

  /** The upper case of a character is its own upper case. */
  lemma UpperCharsFixed(c: char)
    ensures Upper(UpperChars(c)) == UpperChars(c)
  {
    var u := UpperChars(c);
    forall i | 0 <= i < |u| ensures UpperChars(u[i]) == [u[i]] {
      if 'a' <= c <= 'z' || c in SpecialUpper {
        if !('a' <= c <= 'z') {
          SpecialSettled(c, i);
        }
        SettledKept(u[i]);
      }
    }
    UpperKept(u);
  }

  /** The characters the special upper cases are made of: capital letters and a few marks. */
  predicate Settled(d: char)
  {
    'A' <= d <= 'Z' || d in {'\U{2BC}', '\U{2BE}', '\U{308}', '\U{30A}', '\U{30C}', '\U{331}'}
  }

  /** None of those characters is changed by upper-casing. */
  lemma SettledKept(d: char)
    requires Settled(d)
    ensures UpperChars(d) == [d]
  {
  }

  /** Every special upper case is made of such characters. */
  lemma SpecialSettled(c: char, i: nat)
    requires c in SpecialUpper && i < |SpecialUpper[c]|
    ensures Settled(SpecialUpper[c][i])
  {
  }

  /** Upper-casing twice is upper-casing once, so the verb of a line does not depend on its case. */
  lemma {:induction false} UpperIdempotent(s: string)
    ensures Upper(Upper(s)) == Upper(s)
    decreases |s|
  {
    if s != [] {
      UpperAppend(UpperChars(s[0]), Upper(s[1..]));
      UpperCharsFixed(s[0]);
      UpperIdempotent(s[1..]);
    }
  }

  /** A character above U+FFFF keeps its place in the upper case: a line whose upper case is in the BMP is in the BMP. */
  lemma {:induction false} UpperBmp(s: string)
    requires forall i :: 0 <= i < |Upper(s)| ==> Upper(s)[i] as int < 0x1_0000
    ensures forall i :: 0 <= i < |s| ==> s[i] as int < 0x1_0000
    decreases |s|
  {
    if s != [] {
      var u := Upper(s);
      assert u == UpperChars(s[0]) + Upper(s[1..]);
      assert u[0] == UpperChars(s[0])[0];
      forall i | 0 <= i < |Upper(s[1..])| ensures Upper(s[1..])[i] as int < 0x1_0000 {
        assert Upper(s[1..])[i] == u[|UpperChars(s[0])| + i];
      }
      UpperBmp(s[1..]);
      forall i | 0 <= i < |s| ensures s[i] as int < 0x1_0000 {
        if i > 0 {
          assert s[i] == s[1..][i - 1];
        }
      }
    }
  }

  // ---------------------------------------------------------------------------
  // UTF-16 code units: `length()`, `substring` and `hashCode` count these
  // ---------------------------------------------------------------------------

  /** The UTF-16 code units of one character: one unit, or a surrogate pair above U+FFFF. */
  function Utf16Char(c: char): (r: seq<int>)
    ensures |r| == 1 || |r| == 2
    ensures forall i :: 0 <= i < |r| ==> 0 <= r[i] < 0x1_0000
    ensures c as int < 0x1_0000 <==> r == [c as int]
  {
    if c as int < 0x1_0000 then [c as int]
    else
      var v := c as int - 0x1_0000;
      [0xD800 + v / 0x400, 0xDC00 + v % 0x400]
  }

  /** The UTF-16 code units of a string, whose number is Java's `length()`. */
  function Utf16(s: string): (r: seq<int>)
    ensures |r| >= |s|
    ensures forall i :: 0 <= i < |r| ==> 0 <= r[i] < 0x1_0000
    decreases |s|
  {
    if s == [] then [] else Utf16Char(s[0]) + Utf16(s[1..])
  }

  predicate IsLowSurrogate(u: int)
  {
    0xDC00 <= u < 0xE000
  }

  /**
   * Where Java's `substring` leaves the second half of a surrogate pair on its
   * own. A Dafny `char` cannot hold an unpaired surrogate, so the model writes
   * U+FFFD, which like it is neither a space nor an ASCII letter.
   */
  const LoneSurrogate: char := '\U{FFFD}'

  /**
   * `s.substring(n)`: what follows the first `n` UTF-16 code units of `s`.
   * When unit `n` is the second half of a surrogate pair, the result starts
   * with that half, written `LoneSurrogate` (see `SubstringUnits`).
   */
  function Substring(s: string, n: nat): string
    decreases |s|
  {
    if n == 0 || s == [] then s
    else if |Utf16Char(s[0])| <= n then Substring(s[1..], n - |Utf16Char(s[0])|)
    else [LoneSurrogate] + s[1..]
  }

  /** The code units of a character above U+FFFF: a high surrogate, then a low one. */
  lemma Utf16CharSurrogates(c: char)
    ensures !IsLowSurrogate(Utf16Char(c)[0])
    ensures |Utf16Char(c)| == 2 ==> IsLowSurrogate(Utf16Char(c)[1])
  {
    if c as int < 0x1_0000 {
      assert !(0xD800 <= c as int < 0xE000);
    }
  }

  /** What `substring(n)` leaves of the code units `u`: from unit `n` on, an unpaired low surrogate at the cut written as `LoneSurrogate`. */
  function UnitsFrom(u: seq<int>, n: nat): seq<int>
    requires n <= |u|
  {
    if n < |u| && IsLowSurrogate(u[n]) then [LoneSurrogate as int] + u[n + 1..] else u[n..]
  }

  /**
   * `substring(n)` in code units: the units of the result are the units of `s`
   * from `n` on, except that an unpaired low surrogate at the cut is replaced by
   * the unit of `LoneSurrogate`.
   */
  lemma {:induction false} SubstringUnits(s: string, n: nat)
    requires n <= |Utf16(s)|
    ensures Utf16(Substring(s, n)) == UnitsFrom(Utf16(s), n)
    decreases |s|
  {
    if s != [] {
      var w := Utf16Char(s[0]);
      assert Utf16(s) == w + Utf16(s[1..]);
      Utf16CharSurrogates(s[0]);
      if n == 0 {
        assert Utf16(s)[0] == w[0];
      } else if |w| <= n {
        SubstringUnits(s[1..], n - |w|);
        UnitsFromAfter(w, Utf16(s[1..]), n);
      } else {
        SubstringCut(s);
      }
    }
  }

  /** Cutting after a first piece `w` of the units is cutting the rest. */
  lemma UnitsFromAfter(w: seq<int>, rest: seq<int>, n: nat)
    requires |w| <= n <= |w| + |rest|
    ensures UnitsFrom(w + rest, n) == UnitsFrom(rest, n - |w|)
  {
    var u := w + rest;
    assert u[n..] == rest[n - |w|..];
    if n < |u| {
      assert u[n] == rest[n - |w|];
      assert u[n + 1..] == rest[n - |w| + 1..];
    }
  }

  /** `substring(1)` of a string that starts above U+FFFF cuts its surrogate pair. */
  lemma SubstringCut(s: string)
    requires s != [] && |Utf16Char(s[0])| == 2
    ensures Utf16(Substring(s, 1)) == UnitsFrom(Utf16(s), 1)
  {
    var w := Utf16Char(s[0]);
    var u := Utf16(s);
    assert u == w + Utf16(s[1..]);
    Utf16CharSurrogates(s[0]);
    assert u[1] == w[1];
    assert u[2..] == Utf16(s[1..]);
    assert Substring(s, 1) == [LoneSurrogate] + s[1..];
    assert ([LoneSurrogate] + s[1..])[1..] == s[1..];
    assert Utf16([LoneSurrogate] + s[1..]) == [LoneSurrogate as int] + Utf16(s[1..]);
  }

  /** Over characters below U+10000 one unit is one character, so `substring(n)` is `s[n..]`. */
  lemma {:induction false} SubstringBmp(s: string, n: nat)
    requires n <= |s| && forall i :: 0 <= i < n ==> s[i] as int < 0x1_0000
    ensures Substring(s, n) == s[n..]
    decreases n
  {
    if n > 0 {
      SubstringBmp(s[1..], n - 1);
    }
  }

  /** A string is all spaces exactly when its code units are. */
  lemma {:induction false} SpacesUnits(s: string)
    ensures (forall i :: 0 <= i < |s| ==> s[i] == ' ') <==>
            (forall i :: 0 <= i < |Utf16(s)| ==> Utf16(s)[i] == ' ' as int)
    decreases |s|
  {
    if s != [] {
      var t, w := s[1..], Utf16Char(s[0]);
      var u, r := Utf16(s), Utf16(s[1..]);
      SpacesUnits(t);
      SpaceUnit(s[0]);
      assert u == w + r;
      if forall i :: 0 <= i < |s| ==> s[i] == ' ' {
        forall i | 0 <= i < |t| ensures t[i] == ' ' {
          assert t[i] == s[i + 1];
        }
        forall i | 0 <= i < |u| ensures u[i] == ' ' as int {
          if i >= |w| {
            assert u[i] == r[i - |w|];
          }
        }
      }
      if forall i :: 0 <= i < |u| ==> u[i] == ' ' as int {
        forall i | 0 <= i < |w| ensures w[i] == ' ' as int {
          assert u[i] == w[i];
        }
        forall i | 0 <= i < |r| ensures r[i] == ' ' as int {
          assert u[|w| + i] == r[i];
        }
        forall i | 0 <= i < |s| ensures s[i] == ' ' {
          if i > 0 {
            assert s[i] == t[i - 1];
          }
        }
      }
    }
  }

  /** A space is one code unit 32; any other character has a unit other than 32. */
  lemma SpaceUnit(c: char)
    ensures (forall i :: 0 <= i < |Utf16Char(c)| ==> Utf16Char(c)[i] == ' ' as int) <==> c == ' '
  {
    if c as int >= 0x1_0000 {
      assert Utf16Char(c)[0] >= 0xD800;
    } else {
      assert Utf16Char(c)[0] == c as int;
    }
  }

  // ---------------------------------------------------------------------------
  // split on a one-character delimiter
  // ---------------------------------------------------------------------------

  /** The text between consecutive occurrences of `d` in `s`, empty pieces included. */
  function Pieces(s: string, d: char): (r: seq<string>)
    ensures |r| >= 1
    ensures forall i :: 0 <= i < |r| ==> d !in r[i]
    decreases |s|
  {
    if s == [] then [""]
    else
      var rest := Pieces(s[1..], d);
      if s[0] == d then [""] + rest
      else [[s[0]] + rest[0]] + rest[1..]
  }

  /** The inverse of `Pieces`: the pieces with `d` between them. */
  function Join(ps: seq<string>, d: char): string
    decreases |ps|
  {
    if |ps| == 0 then ""
    else if |ps| == 1 then ps[0]
    else ps[0] + [d] + Join(ps[1..], d)
  }

  /** The longest prefix of `ps` that does not end in an empty string. */
  function DropTrailingEmpty(ps: seq<string>): (r: seq<string>)
    ensures r <= ps
    ensures r == [] || r[|r| - 1] != ""
    ensures forall i :: |r| <= i < |ps| ==> ps[i] == ""
    decreases |ps|
  {
    if ps == [] then []
    else if ps[|ps| - 1] == "" then DropTrailingEmpty(ps[..|ps| - 1])
    else ps
  }

  /**
   * `s.split(d)` for a delimiter that is not a regular-expression
   * metacharacter: a string without `d` is returned whole (so `"".split(d)` is
   * `[""]`); otherwise the pieces between delimiters, less any trailing
   * empty ones (so `":".split(":")` is empty).
   */
  function Split(s: string, d: char): seq<string>
  {
    if d !in s then [s] else DropTrailingEmpty(Pieces(s, d))
  }

  lemma PiecesCons(c: char, s: string, d: char)
    ensures Pieces([c] + s, d) ==
      (if c == d then [""] + Pieces(s, d) else [[c] + Pieces(s, d)[0]] + Pieces(s, d)[1..])
  {
    assert ([c] + s)[1..] == s;
  }

  /** Joining the pieces of `s` gives back `s`. */
  lemma {:induction false} JoinPieces(s: string, d: char)
    ensures Join(Pieces(s, d), d) == s
    decreases |s|
  {
    if s != [] {
      var rest := Pieces(s[1..], d);
      JoinPieces(s[1..], d);
      if s[0] == d {
        assert Pieces(s, d) == [""] + rest;
        if |rest| == 1 {
          assert Join(Pieces(s, d), d) == "" + [d] + rest[0];
        } else {
          assert ([""] + rest)[1..] == rest;
        }
      } else {
        var ps := Pieces(s, d);
        assert ps == [[s[0]] + rest[0]] + rest[1..];
        if |rest| == 1 {
          assert Join(ps, d) == [s[0]] + rest[0];
        } else {
          assert ps[1..] == rest[1..];
          assert Join(rest, d) == rest[0] + [d] + Join(rest[1..], d);
        }
      }
    }
  }

  /** Splitting a join of delimiter-free pieces gives back those pieces. */
  lemma {:induction false} PiecesJoin(ps: seq<string>, d: char)
    requires |ps| >= 1
    requires forall i :: 0 <= i < |ps| ==> d !in ps[i]
    ensures Pieces(Join(ps, d), d) == ps
    decreases |ps|, |ps[0]|
  {
    if |ps| == 1 {
      PiecesOfPlain(ps[0], d);
    } else if ps[0] == "" {
      var tail := Join(ps[1..], d);
      assert Join(ps, d) == [d] + tail;
      PiecesJoin(ps[1..], d);
      PiecesCons(d, tail, d);
      assert ps == [""] + ps[1..];
    } else {
      var c := ps[0][0];
      var shorter := [ps[0][1..]] + ps[1..];
      assert shorter[1..] == ps[1..];
      assert Join(shorter, d) == ps[0][1..] + [d] + Join(ps[1..], d);
      assert Join(ps, d) == [c] + Join(shorter, d);
      PiecesJoin(shorter, d);
      PiecesCons(c, Join(shorter, d), d);
      assert [c] + ps[0][1..] == ps[0];
      assert ps == [[c] + shorter[0]] + shorter[1..];
    }
  }

  /** A string without the delimiter is a single piece. */
  lemma {:induction false} PiecesOfPlain(s: string, d: char)
    requires d !in s
    ensures Pieces(s, d) == [s]
    decreases |s|
  {
    if s != [] {
      assert d !in s[1..];
      PiecesOfPlain(s[1..], d);
      PiecesCons(s[0], s[1..], d);
      assert [s[0]] + s[1..] == s;
    }
  }

  /** The pieces of `a + [d] + b` when `a` holds no delimiter: `a`, then the pieces of `b`. */
  lemma {:induction false} PiecesAfterFirst(a: string, b: string, d: char)
    requires d !in a
    ensures Pieces(a + [d] + b, d) == [a] + Pieces(b, d)
    decreases |a|
  {
    if a == [] {
      assert a + [d] + b == [d] + b;
      PiecesCons(d, b, d);
    } else {
      assert a + [d] + b == [a[0]] + (a[1..] + [d] + b);
      assert d !in a[1..];
      PiecesAfterFirst(a[1..], b, d);
      PiecesCons(a[0], a[1..] + [d] + b, d);
      assert [a[0]] + a[1..] == a;
    }
  }

  /**
   * The round trip the recipient list depends on: joining names without the
   * delimiter and splitting again gives the names back, as long as the last
   * one is not empty (split drops trailing empty pieces) or there is only one.
   */
  lemma SplitJoin(names: seq<string>, d: char)
    requires |names| >= 1
    requires forall i :: 0 <= i < |names| ==> d !in names[i]
    requires |names| == 1 || names[|names| - 1] != ""
    ensures Split(Join(names, d), d) == names
  {
    if |names| == 1 {
    } else {
      PiecesJoin(names, d);
      var s := Join(names, d);
      assert s == names[0] + [d] + Join(names[1..], d);
      assert s[|names[0]|] == d;
    }
  }

  /**
   * What a split with at least two pieces says about the string: the first two
   * pieces are delimiter-free and `s` is the first, the delimiter, the second,
   * and then either nothing or a further delimiter and more text.
   */
  lemma SplitShape(s: string, d: char)
    requires |Split(s, d)| >= 2
    ensures d !in Split(s, d)[0] && d !in Split(s, d)[1]
    ensures exists rest :: s == Split(s, d)[0] + [d] + Split(s, d)[1] + rest && (rest == [] || rest[0] == d)
  {
    var ps := Pieces(s, d);
    JoinPieces(s, d);
    assert Split(s, d) <= ps;
    assert Split(s, d)[0] == ps[0] && Split(s, d)[1] == ps[1];
    var rest := JoinFirstTwo(ps, d);
    assert s == Split(s, d)[0] + [d] + Split(s, d)[1] + rest;
  }

  /** A join of two or more pieces: the first, the delimiter, the second, and then nothing or a delimiter and more. */
  lemma JoinFirstTwo(ps: seq<string>, d: char) returns (rest: string)
    requires |ps| >= 2
    ensures Join(ps, d) == ps[0] + [d] + ps[1] + rest && (rest == [] || rest[0] == d)
  {
    if |ps| == 2 {
      rest := [];
      assert Join(ps[1..], d) == ps[1];
    } else {
      var tail := Join(ps[2..], d);
      rest := [d] + tail;
      assert ps[1..][1..] == ps[2..];
      assert Join(ps[1..], d) == ps[1] + [d] + tail;
    }
  }

  /** A split of a string with no delimiter, and a split of one delimiter between two plain parts. */
  lemma SplitPair(a: string, b: string, d: char)
    requires d !in a && d !in b && b != ""
    ensures Split(a + [d] + b, d) == [a, b]
  {
    PiecesAfterFirst(a, b, d);
    PiecesOfPlain(b, d);
    assert (a + [d] + b)[|a|] == d;
  }

  /** Every piece is empty exactly when the string is nothing but delimiters. */
  lemma {:induction false} PiecesAllEmpty(s: string, d: char)
    ensures (forall i :: 0 <= i < |Pieces(s, d)| ==> Pieces(s, d)[i] == "") <==>
            (forall i :: 0 <= i < |s| ==> s[i] == d)
    decreases |s|
  {
    if s != [] {
      var rest := Pieces(s[1..], d);
      PiecesAllEmpty(s[1..], d);
      if s[0] == d {
        var ps := Pieces(s, d);
        assert ps == [""] + rest;
        assert (forall i :: 0 <= i < |ps| ==> ps[i] == "") <==> (forall i :: 0 <= i < |rest| ==> rest[i] == "") by {
          forall i | 0 <= i < |rest| ensures ps[i + 1] == rest[i] { }
        }
        assert (forall i :: 0 <= i < |s| ==> s[i] == d) <==> (forall i :: 0 <= i < |s[1..]| ==> s[1..][i] == d) by {
          forall i | 1 <= i < |s| ensures s[i] == s[1..][i - 1] { }
        }
      } else {
        assert Pieces(s, d)[0] == [s[0]] + rest[0];
      }
    }
  }

  /**
   * `split` returns no pieces at all exactly when the string is non-empty and
   * consists of delimiters only (`" ".split(" ")` is empty, `"".split(" ")` is not).
   */
  lemma SplitEmpty(s: string, d: char)
    ensures Split(s, d) == [] <==> s != [] && forall i :: 0 <= i < |s| ==> s[i] == d
  {
    PiecesAllEmpty(s, d);
    if d !in s && s != [] {
      assert s[0] != d;
    }
  }

  /** A trailing delimiter leaves no trailing piece. */
  lemma SplitTrailingDelimiter(a: string, d: char)
    requires d !in a && a != []
    ensures Split(a + [d], d) == [a]
  {
    PiecesAfterFirst(a, "", d);
    assert a + [d] + "" == a + [d];
    assert d in a + [d];
    assert (a + [d])[|a|] == d;
    assert Pieces("", d) == [""];
    assert Pieces(a + [d], d) == [a, ""];
    assert [a, ""][..1] == [a];
    assert DropTrailingEmpty([a, ""]) == DropTrailingEmpty([a]) == [a];
  }

  // ---------------------------------------------------------------------------
  // Decimal form of an int (`code + " "` and `hashCode() + " "`)
  // ---------------------------------------------------------------------------

  function DigitChar(n: nat): char
    requires n < 10
  {
    ('0' as int + n) as char
  }

  predicate IsDigit(c: char)
  {
    '0' <= c <= '9'
  }

  /** The decimal digits of `n`, most significant first, without leading zeros. */
  function NatToString(n: nat): (r: string)
    ensures |r| >= 1 && forall i :: 0 <= i < |r| ==> IsDigit(r[i])
    ensures n >= 10 ==> r[0] != '0'
    decreases n
  {
    if n < 10 then [DigitChar(n)] else NatToString(n / 10) + [DigitChar(n % 10)]
  }

  /** Java's `Integer.toString`: a minus sign for negative values. */
  function IntToString(i: int): string
  {
    if i < 0 then "-" + NatToString(-i) else NatToString(i)
  }

  /** The value of a string of decimal digits. */
  function ParseNat(s: string): nat
    decreases |s|
  {
    if s == [] then 0
    else ParseNat(s[..|s| - 1]) * 10 + (if IsDigit(s[|s| - 1]) then s[|s| - 1] as int - '0' as int else 0)
  }

  function ParseInt(s: string): int
  {
    if |s| > 0 && s[0] == '-' then -(ParseNat(s[1..]) as int) else ParseNat(s)
  }

  lemma {:induction false} ParseNatToString(n: nat)
    ensures ParseNat(NatToString(n)) == n
    decreases n
  {
    if n >= 10 {
      var s := NatToString(n);
      assert s[..|s| - 1] == NatToString(n / 10);
      ParseNatToString(n / 10);
    }
  }

  /** The decimal form of an int determines it: reading it back gives the same value. */
  lemma ParseIntToString(i: int)
    ensures ParseInt(IntToString(i)) == i
  {
    if i < 0 {
      ParseNatToString(-i);
      assert IntToString(i)[1..] == NatToString(-i);
    } else {
      ParseNatToString(i);
    }
  }

  /** A number from 100 to 999 is written with exactly three digits. */
  lemma ThreeDigits(n: nat)
    requires 100 <= n <= 999
    ensures |NatToString(n)| == 3
  {
    assert 10 <= n / 10 < 100;
    assert 1 <= n / 10 / 10 < 10;
    assert |NatToString(n / 10 / 10)| == 1;
    assert |NatToString(n / 10)| == 2;
  }
}
