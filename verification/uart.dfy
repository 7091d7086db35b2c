/*
 * The formatting half of the serial console: hex digit encoding and
 * decoding, decimal conversion with zero padding, and the one-character
 * receive buffer. Whatever the console would send is returned as the
 * sequence of characters emitted, in order.
 */
module Uart {
  import opened Aci

  const Int32Min: int := -0x8000_0000
  const Int32Max: int := 0x7fff_ffff

  /** The lookup table of hex digits, lower case. */
  const HexVals: string := "0123456789abcdef"

  /**
   * char2hex: the value of a lower-case hex digit, 0xff for every other
   * character (upper-case digits included). It inverts the HexVals lookup.
   */
  function Char2Hex(c: char): (r: byte)
    ensures r == 0xff || r < 16
    ensures r != 0xff <==> c in HexVals
    ensures r != 0xff ==> HexVals[r] == c
  {
    if '0' <= c <= '9' then c as int - '0' as int
    else if 'a' <= c <= 'f' then c as int - 'a' as int + 10
    else 0xff
  }

  /** Decoding an encoded nibble gives the nibble back. */
  lemma Char2HexOfHexVals(d: nat)
    requires d < 16
    ensures Char2Hex(HexVals[d]) == d
  {
  }

  lemma Char2HexRejectsUpperCase(c: char)
    requires 'A' <= c <= 'F'
    ensures Char2Hex(c) == 0xff
  {
  }

  /**
   * uart_puthex: the two characters emitted for a byte, high nibble first.
   * The source takes a (signed) char and masks `c >> 4` with 0x0f, which
   * yields the high nibble of the byte for negative chars as well.
   */
  function PutHex(c: byte): (out: string)
    ensures |out| == 2
    ensures Char2Hex(out[0]) == c / 16 && Char2Hex(out[1]) == c % 16
  {
    Char2HexOfHexVals(c / 16);
    Char2HexOfHexVals(c % 16);
    [HexVals[c / 16], HexVals[c % 16]]
  }

  // ---------------------------------------------------------------------
  // Decimal conversion.

  function DigitChar(d: nat): char
    requires d < 10
  {
    ('0' as int + d) as char
  }

  function DigitValue(c: char): nat
  {
    if '0' <= c <= '9' then c as int - '0' as int else 0
  }

  /** The decimal digits of n, least significant first; none for 0. */
  function LsbDigits(n: nat): string
  {
    if n == 0 then [] else [DigitChar(n % 10)] + LsbDigits(n / 10)
  }

  /** The decimal digits of n, most significant first; none for 0. */
  function MsbDigits(n: nat): string
  {
    if n == 0 then [] else MsbDigits(n / 10) + [DigitChar(n % 10)]
  }

  /** The number a string of decimal digits denotes, most significant first. */
  function DecimalValue(s: string): nat
  {
    if s == [] then 0 else 10 * DecimalValue(s[..|s| - 1]) + DigitValue(s[|s| - 1])
  }

  function Zeros(k: nat): string
  {
    seq(k, _ => '0')
  }

  function Pow10(k: nat): nat
  {
    if k == 0 then 1 else 10 * Pow10(k - 1)
  }

  /** The leading digit is a digit, never a sign. */
  lemma {:induction false} MsbDigitsHead(n: nat)
    requires n != 0
    ensures '0' <= MsbDigits(n)[0] <= '9'
  {
    if n / 10 != 0 {
      MsbDigitsHead(n / 10);
    }
  }

  /** Both digit orders produce the same number of digits. */
  lemma {:induction false} DigitCountsAgree(n: nat)
    ensures |MsbDigits(n)| == |LsbDigits(n)|
  {
    if n != 0 {
      DigitCountsAgree(n / 10);
    }
  }

  /** Both digit orders hold the same digits, mirrored. */
  lemma {:induction false} DigitsMirrored(n: nat, k: nat)
    requires k < |LsbDigits(n)|
    ensures |MsbDigits(n)| == |LsbDigits(n)|
    ensures MsbDigits(n)[k] == LsbDigits(n)[|LsbDigits(n)| - 1 - k]
  {
    DigitCountsAgree(n);
    if k < |LsbDigits(n)| - 1 {
      DigitsMirrored(n / 10, k);
    }
  }

  /** A number below 10^k has at most k digits. */
  lemma {:induction false} DigitCountBound(n: nat, k: nat)
    requires n < Pow10(k)
    ensures |LsbDigits(n)| <= k
  {
    if n != 0 {
      DigitCountBound(n / 10, k - 1);
    }
  }

  /** A 32-bit magnitude has at most 10 digits. */
  lemma Int32DigitCount(n: nat)
    requires n <= Int32Max
    ensures |LsbDigits(n)| <= 10
  {
    assert Pow10(10) == 10_000_000_000 by {
      assert Pow10(5) == 100_000;
    }
    DigitCountBound(n, 10);
  }

  /** Reading the digits back gives the number. */
  lemma {:induction false} DecimalValueOfDigits(n: nat)
    ensures DecimalValue(MsbDigits(n)) == n
  {
    if n != 0 {
      var s := MsbDigits(n);
      assert s[..|s| - 1] == MsbDigits(n / 10);
      DecimalValueOfDigits(n / 10);
    }
  }

  /** Leading zeros do not change the value read. */
  lemma {:induction false} DecimalValueLeadingZeros(k: nat, s: string)
    ensures DecimalValue(Zeros(k) + s) == DecimalValue(s)
    decreases |s|, k
  {
    if s == [] {
      if k != 0 {
        assert (Zeros(k) + s)[..k - 1] == Zeros(k - 1) + s;
        DecimalValueLeadingZeros(k - 1, s);
      }
    } else {
      assert (Zeros(k) + s)[..|Zeros(k) + s| - 1] == Zeros(k) + s[..|s| - 1];
      DecimalValueLeadingZeros(k, s[..|s| - 1]);
    }
  }

  function Magnitude(number: int): nat
  {
    if number < 0 then -number else number
  }

  /** The number of '0' characters that pad `count` digits to `digits`. */
  function PadWidth(digits: int, count: nat): nat
  {
    if digits > count then digits - count else 0
  }

  /**
   * What uart_putint emits: '-' for a negative number, then as many '0'
   * as the digit count falls short of `digits`, then the digits of the
   * magnitude, most significant first.
   */
  function IntText(number: int, digits: int): string
  {
    var m := Magnitude(number);
    (if number < 0 then "-" else "") + Zeros(PadWidth(digits, |LsbDigits(m)|)) + MsbDigits(m)
  }

  /** The unsigned part of the text: a digit string that reads as m. */
  lemma PaddedDigits(pad: nat, m: nat)
    ensures DecimalValue(Zeros(pad) + MsbDigits(m)) == m
    ensures |Zeros(pad) + MsbDigits(m)| > 0 ==> '0' <= (Zeros(pad) + MsbDigits(m))[0] <= '9'
  {
    DecimalValueLeadingZeros(pad, MsbDigits(m));
    DecimalValueOfDigits(m);
    if pad == 0 && m != 0 {
      MsbDigitsHead(m);
    }
  }

  /** The digits emitted for a number, read back, give its magnitude. */
  lemma IntTextValue(number: int, digits: int)
    ensures var t := IntText(number, digits);
      (|t| > 0 && t[0] == '-' <==> number < 0) &&
      DecimalValue(if number < 0 then t[1..] else t) == Magnitude(number)
  {
    var m := Magnitude(number);
    var body := Zeros(PadWidth(digits, |LsbDigits(m)|)) + MsbDigits(m);
    PaddedDigits(PadWidth(digits, |LsbDigits(m)|), m);
    var t := IntText(number, digits);
    if number < 0 {
      assert t == "-" + body;
      assert t[0] == '-' && t[1..] == body;
    } else {
      assert t == body;
      assert |t| > 0 ==> t[0] != '-';
    }
  }

  lemma {:induction false} MsbDigitsAreDigits(n: nat)
    ensures forall i | 0 <= i < |MsbDigits(n)| :: '0' <= MsbDigits(n)[i] <= '9'
  {
    if n != 0 {
      MsbDigitsAreDigits(n / 10);
    }
  }

  /** A number that is not negative prints as digits alone, at least `digits` of them. */
  lemma IntTextDigits(number: int, digits: int)
    requires number >= 0
    ensures |IntText(number, digits)| >= digits
    ensures forall i | 0 <= i < |IntText(number, digits)| :: '0' <= IntText(number, digits)[i] <= '9'
  {
    var m := Magnitude(number);
    MsbDigitsAreDigits(m);
    DigitCountsAgree(m);
    var pad := PadWidth(digits, |LsbDigits(m)|);
    var t := IntText(number, digits);
    assert t == Zeros(pad) + MsbDigits(m);
    forall i | 0 <= i < |t|
      ensures '0' <= t[i] <= '9'
    {
      if i < pad {
        assert t[i] == Zeros(pad)[i];
      } else {
        assert t[i] == MsbDigits(m)[i - pad];
      }
    }
  }

  /** Sixteen with at least one digit prints "16". */
  lemma IntTextSixteen()
    ensures IntText(16, 1) == "16"
  {
    assert LsbDigits(16) == "61";
    assert MsbDigits(16) == "16";
  }

  /** Zero with at least one digit prints "0". */
  lemma IntTextZero()
    ensures IntText(0, 1) == "0" && IntText(0, 2) == "00"
  {
  }

  /** Zero with no minimum width prints nothing at all. */
  lemma IntTextZeroNoDigits()
    ensures IntText(0, 0) == ""
  {
  }

  /** One step of the conversion: peel off the least significant digit. */
  lemma LsbDigitsStep(m: nat, done: string, n: nat)
    requires n != 0 && LsbDigits(m) == done + LsbDigits(n)
    ensures n - n / 10 * 10 == n % 10
    ensures LsbDigits(m) == (done + [DigitChar(n % 10)]) + LsbDigits(n / 10)
  {
  }

  /**
   * tobuf: writes the digits of |number| into buf, least significant
   * first, and returns the digit count minus one as a uint8_t, so 255 for
   * 0. The loop stops after 10 digits; a 32-bit magnitude never has more.
   */
  method ToBuf(number: int, buf: array<char>) returns (last: int)
    requires Int32Min < number <= Int32Max
    requires buf.Length >= 10
    modifies buf
    ensures var m := if number < 0 then -number else number; var k := |LsbDigits(m)|;
      k <= 10 && last == (k - 1) % 256 && buf[..k] == LsbDigits(m)
    ensures 0 <= last < 256 && (last == 255 <==> number == 0)
    ensures var k := |LsbDigits(if number < 0 then -number else number)|;
      forall j | k <= j < buf.Length :: buf[j] == old(buf[j])
  {
    var n := number;
    if n < 0 {
      n := -n;
    }
    ghost var m := n;
    Int32DigitCount(m);
    var i := 0;
    while i < 10 && n != 0
      invariant 0 <= i <= 10 && n >= 0
      invariant LsbDigits(m) == buf[..i] + LsbDigits(n)
      invariant forall j | i <= j < buf.Length :: buf[j] == old(buf[j])
    {
      var next := n / 10;
      LsbDigitsStep(m, buf[..i], n);
      buf[i] := DigitChar(n - next * 10);
      assert buf[..i + 1] == buf[..i] + [DigitChar(n % 10)];
      n := next;
      i := i + 1;
    }
    assert LsbDigits(n) == [] by {
      if i == 10 {
        assert |LsbDigits(m)| == 10 + |LsbDigits(n)|;
      }
    }
    last := (i - 1) % 256;
  }

  /**
   * uart_putint: the characters emitted for `number` with at least
   * `digits` digits. `digits` is an int8_t that the source decrements
   * before each comparison.
   */
  method PutInt(number: int, digits: int) returns (out: string)
    requires Int32Min < number <= Int32Max
    requires -128 < digits <= 127
    ensures out == IntText(number, digits)
  {
    var buf := new char[10];
    var n := number;
    out := [];
    if n < 0 {
      out := out + ['-'];
      n := -n;
    }
    var count := ToBuf(n, buf);
    // int8_t i = tobuf(...): the uint8_t 255 becomes -1
    var i := if count < 128 then count else count - 256;
    var zeros := PadZeros(i, digits);
    var text := EmitDigits(buf, i, n);
    out := out + zeros + text;
  }

  /** The leading zeros of uart_putint: `while (i < --digits)` emits '0'. */
  method PadZeros(i: int, digits: int) returns (out: string)
    requires -1 <= i && -128 < digits <= 127
    ensures out == Zeros(PadWidth(digits, i + 1))
  {
    out := [];
    var d := digits - 1;
    while i < d
      invariant d <= digits - 1 && (d == digits - 1 || i <= d)
      invariant out == Zeros(digits - 1 - d)
    {
      out := out + ['0'];
      d := d - 1;
    }
  }

  /** The digits of uart_putint: buf[i], buf[i - 1], ..., buf[0]. */
  method EmitDigits(buf: array<char>, last: int, n: nat) returns (out: string)
    requires last == |LsbDigits(n)| - 1 && last < buf.Length
    requires buf[..last + 1] == LsbDigits(n)
    ensures out == MsbDigits(n)
  {
    ghost var digs := LsbDigits(n);
    DigitCountsAgree(n);
    out := [];
    var i := last;
    while i >= 0
      invariant -1 <= i < |digs|
      invariant out == MsbDigits(n)[..|digs| - 1 - i]
    {
      DigitsMirrored(n, |digs| - 1 - i);
      assert buf[i] == digs[i];
      assert MsbDigits(n)[..|digs| - i] == MsbDigits(n)[..|digs| - 1 - i] + [buf[i]];
      out := out + [buf[i]];
      i := i - 1;
    }
    assert MsbDigits(n)[..|digs|] == MsbDigits(n);
  }

  /**
   * The one-character receive buffer: the receive interrupt stores the
   * last character, the main loop reads it and clears it.
   */
  class Inbuf {
    var inbuf: char

    /** The static buffer starts out zero. */
    constructor ()
      ensures inbuf == 0 as char
    {
      inbuf := 0 as char;
    }

    /** The receive interrupt: the character read replaces the old one. */
    method Store(c: char)
      modifies this
      ensures inbuf == c
    {
      inbuf := c;
    }

    /** uart_get_inbuf */
    method Get() returns (c: char)
      ensures c == inbuf
    {
      c := inbuf;
    }

    /** uart_reset_inbuf: reads return 0 until the next Store. */
    method Reset()
      modifies this
      ensures inbuf == 0 as char
    {
      inbuf := 0 as char;
    }
  }
}
