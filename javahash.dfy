/**
 * `String.hashCode()`: over the UTF-16 code units u[0..n) of the string, the
 * value u[0]*31^(n-1) + ... + u[n-1], computed in 32-bit two's complement.
 * The session puts it in the reply that accepts a message.
 */
module JavaHash {
  import opened JavaText

  const Two32: int := 0x1_0000_0000
  const Two31: int := 0x8000_0000

  /** The unsigned 32-bit value of the accumulator after `h = 31 * h + u` over `units`. */
  function HashUnits(units: seq<int>): (h: int)
    ensures 0 <= h < Two32
    decreases |units|
  {
    if units == [] then 0
    else (31 * HashUnits(units[..|units| - 1]) + units[|units| - 1]) % Two32
  }

  /** An unsigned 32-bit value reinterpreted as a Java `int`. */
  function ToInt32(x: int): (r: int)
    requires 0 <= x < Two32
    ensures -Two31 <= r < Two31
    ensures r % Two32 == x
  {
    if x < Two31 then x else x - Two32
  }

  function HashCode(s: string): (h: int)
    ensures -Two31 <= h < Two31
  {
    ToInt32(HashUnits(Utf16(s)))
  }

  /** The polynomial the hash reduces, without wrap-around. */
  function Poly(units: seq<int>): int
    decreases |units|
  {
    if units == [] then 0 else 31 * Poly(units[..|units| - 1]) + units[|units| - 1]
  }

  lemma MulAddMod(p: int, u: int)
    ensures (31 * (p % Two32) + u) % Two32 == (31 * p + u) % Two32
  {
    var q := p / Two32;
    assert p == q * Two32 + p % Two32;
    assert 31 * p + u == (31 * (p % Two32) + u) + (31 * q) * Two32;
  }

  /** The 32-bit loop computes the polynomial modulo 2^32: the wrap-around loses nothing else. */
  lemma {:induction false} HashUnitsIsPoly(units: seq<int>)
    ensures HashUnits(units) == Poly(units) % Two32
    decreases |units|
  {
    if units != [] {
      var init := units[..|units| - 1];
      HashUnitsIsPoly(init);
      MulAddMod(Poly(init), units[|units| - 1]);
    }
  }

  /** The Java value is the polynomial over the code units, reduced into the signed 32-bit range. */
  lemma HashCodeIsPoly(s: string)
    ensures HashCode(s) % Two32 == Poly(Utf16(s)) % Two32
    ensures -Two31 <= HashCode(s) < Two31
  {
    HashUnitsIsPoly(Utf16(s));
  }
}
