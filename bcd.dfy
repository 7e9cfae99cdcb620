/**
 * bcd_to_int: the program reads a value nibble by nibble, least significant
 * first, prepends each nibble's decimal spelling to a string and parses the
 * string as a decimal integer.  Nibbles 0-9 therefore give ordinary BCD;
 * nibbles A-F are not rejected and spell two digits each ("10" .. "15").
 */
module Bcd {
  import opened Base

  predicate IsDigits(s: string)
  {
    forall i :: 0 <= i < |s| ==> '0' <= s[i] <= '9'
  }

  function DigitChar(d: nat): (c: char)
    requires d < 10
    ensures '0' <= c <= '9' && c as int - '0' as int == d
  {
    ('0' as int + d) as char
  }

  /** str(n) for a nibble n: one digit for 0..9, two digits for 10..15. */
  function NibbleDigits(n: nat): (r: string)
    requires n < 16
    ensures IsDigits(r)
    ensures |r| == if n < 10 then 1 else 2
  {
    if n < 10 then [DigitChar(n)] else ['1', DigitChar(n - 10)]
  }

  /** int(s) for a string of decimal digits. */
  function DecimalValue(s: string): nat
    requires IsDigits(s)
  {
    if s == [] then 0 else DecimalValue(s[..|s| - 1]) * 10 + (s[|s| - 1] as int - '0' as int)
  }

  /** The string bcd_to_int builds: one spelling per nibble, most significant first. */
  function BcdString(x: nat): (r: string)
    ensures IsDigits(r)
    ensures x == 0 <==> r == []
  {
    if x == 0 then [] else BcdString(x / 16) + NibbleDigits(x % 16)
  }

  /** The factor by which a nibble's spelling shifts the digits before it. */
  function NibbleShift(n: nat): nat
  {
    if n < 10 then 10 else 100
  }

  /** What bcd_to_int returns for a non-negative input, computed on numbers:
      the value of the higher nibbles shifted past the lowest nibble's
      spelling, plus that nibble. */
  function BcdValue(x: nat): nat
  {
    if x == 0 then 0 else BcdValue(x / 16) * NibbleShift(x % 16) + x % 16
  }

  /** bcd_to_int, loop for loop: negative input raises, zero returns 0,
      otherwise the nibble spellings are prepended and the string parsed. */
  method BcdToInt(x: int) returns (r: Result<nat>)
    ensures x < 0 ==> r == Err(InvalidArgument)
    ensures x >= 0 ==> r == Ok(BcdValue(x))
  {
    if x < 0 {
      return Err(InvalidArgument);
    }
    if x == 0 {
      return Ok(0);
    }
    var bcdstring: string := "";
    var y: nat := x;
    while y > 0
      invariant IsDigits(bcdstring)
      invariant BcdString(x) == BcdString(y) + bcdstring
      decreases y
    {
      var nibble := y % 16;
      BcdStringStep(y, bcdstring);
      bcdstring := NibbleDigits(nibble) + bcdstring;
      y := y / 16;
    }
    assert BcdString(x) == bcdstring;
    BcdSpelling(x);
    r := Ok(DecimalValue(bcdstring));
  }

  /** Peeling the lowest nibble off the spelled-out prefix. */
  lemma BcdStringStep(y: nat, t: string)
    requires y > 0
    ensures BcdString(y) + t == BcdString(y / 16) + (NibbleDigits(y % 16) + t)
  {
  }

  /** Parsing one more digit: the value so far is shifted by one place. */
  lemma DecimalSnoc(s: string, c: char)
    requires IsDigits(s) && '0' <= c <= '9'
    ensures IsDigits(s + [c])
    ensures DecimalValue(s + [c]) == DecimalValue(s) * 10 + (c as int - '0' as int)
  {
    assert (s + [c])[..|s|] == s;
  }

  /** Parsing digits followed by a nibble's spelling. */
  lemma DecimalNibble(s: string, n: nat)
    requires IsDigits(s) && n < 16
    ensures IsDigits(s + NibbleDigits(n))
    ensures DecimalValue(s + NibbleDigits(n)) == DecimalValue(s) * NibbleShift(n) + n
  {
    var t := NibbleDigits(n);
    if n < 10 {
      DecimalSnoc(s, t[0]);
    } else {
      DecimalSnoc(s, '1');
      DecimalSnoc(s + ['1'], t[1]);
      assert s + t == s + ['1'] + [t[1]];
    }
  }

  /** The string bcd_to_int parses has the value BcdValue gives. */
  lemma {:induction false} BcdSpelling(x: nat)
    ensures DecimalValue(BcdString(x)) == BcdValue(x)
  {
    if x > 0 {
      BcdSpelling(x / 16);
      DecimalNibble(BcdString(x / 16), x % 16);
    }
  }

  /** What bcd_to_int makes of a byte: a single nibble is its own value; two
      nibbles concatenate their spellings, so the high nibble is shifted by one
      decimal place when the low nibble is 0-9 and by two when it is A-F. */
  lemma BcdByte(b: byte)
    ensures BcdValue(b) == if b < 16 then b else (b / 16) * (if b % 16 < 10 then 10 else 100) + b % 16
  {
    if b > 0 {
      var hi := b / 16;
      assert hi < 16 && hi / 16 == 0 && hi % 16 == hi;
      assert BcdValue(hi) == hi;
    }
  }

  /** A byte whose two nibbles are decimal digits decodes to its two-digit value. */
  lemma BcdDigitsByte(b: byte)
    requires b / 16 <= 9 && b % 16 <= 9
    ensures BcdValue(b) == 10 * (b / 16) + b % 16
  {
    BcdByte(b);
  }

  lemma BcdExamples()
    ensures BcdValue(0x00) == 0
    ensures BcdValue(0x45) == 45
    ensures BcdValue(0x99) == 99
    ensures BcdValue(0xAB) == 1011
  {
    BcdDigitsByte(0x45);
    BcdDigitsByte(0x99);
    BcdByte(0xAB);
  }

  /** Packed BCD encoding of a decimal number, one decimal digit per nibble. */
  function ToBcd(n: nat): (x: nat)
    ensures n == 0 <==> x == 0
  {
    if n == 0 then 0 else ToBcd(n / 10) * 16 + n % 10
  }

  /** bcd_to_int inverts packed BCD encoding for every natural number. */
  lemma {:induction false} BcdRoundTrip(n: nat)
    ensures BcdValue(ToBcd(n)) == n
  {
    if n > 0 {
      var x := ToBcd(n);
      BcdRoundTrip(n / 10);
      assert x / 16 == ToBcd(n / 10) && x % 16 == n % 10;
    }
  }
}
