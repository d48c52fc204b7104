/** The canonical serial key of an audit record: `fmt.Sprintf("%032x", cert.SerialNumber)`,
    lower-case hexadecimal, left-padded with '0' to at least 32 digits. */
module Serial {

  const Width: nat := 32

  predicate IsHexDigit(ch: char) {
    '0' <= ch <= '9' || 'a' <= ch <= 'f'
  }

  predicate IsHex(s: string) {
    forall i :: 0 <= i < |s| ==> IsHexDigit(s[i])
  }

  /** The lower-case hexadecimal digit for d. */
  function HexDigit(d: nat): (ch: char)
    requires d < 16
    ensures IsHexDigit(ch) && DigitValue(ch) == d
  {
    if d < 10 then ('0' as int + d) as char else ('a' as int + d - 10) as char
  }

  /** The value of one lower-case hexadecimal digit. */
  function DigitValue(ch: char): (v: nat)
    requires IsHexDigit(ch)
    ensures v < 16
  {
    if ch <= '9' then (ch as int - '0' as int) else (ch as int - 'a' as int) + 10
  }

  /** The digits of n in base 16, most significant first, with no leading zero ("0" for zero). */
  function Hex(n: nat): (s: string)
    ensures |s| >= 1 && IsHex(s)
    ensures n >= 16 ==> s[0] != '0'
    ensures n < 16 ==> |s| == 1
  {
    if n < 16 then [HexDigit(n)] else Hex(n / 16) + [HexDigit(n % 16)]
  }

  function Zeros(k: nat): (s: string)
    ensures |s| == k && IsHex(s)
    ensures forall i :: 0 <= i < k ==> s[i] == '0'
  {
    if k == 0 then "" else Zeros(k - 1) + "0"
  }

  /** `%032x`: zero padding up to the width; wider numbers are printed in full. */
  function FormatSerial(n: nat): (s: string)
    ensures |s| >= Width && IsHex(s)
    ensures |s| == Width || s[0] != '0'
    ensures ParseHex(s) == n
  {
    var h := Hex(n);
    ParseHexOfHex(n);
    if |h| < Width then
      ParseHexLeadingZeros(Width - |h|, h);
      Zeros(Width - |h|) + h
    else
      h
  }

  /** Reads a hexadecimal string back into the number it denotes. */
  function ParseHex(s: string): nat
    requires IsHex(s)
  {
    if s == [] then 0 else ParseHex(s[..|s| - 1]) * 16 + DigitValue(s[|s| - 1])
  }

  lemma {:induction false} ParseHexOfHex(n: nat)
    ensures ParseHex(Hex(n)) == n
  {
    if n >= 16 {
      ParseHexOfHex(n / 16);
      var s := Hex(n);
      assert s[..|s| - 1] == Hex(n / 16);
      assert DigitValue(s[|s| - 1]) == n % 16;
    }
  }

  lemma {:induction false} ParseHexLeadingZeros(k: nat, s: string)
    requires IsHex(s)
    ensures ParseHex(Zeros(k) + s) == ParseHex(s)
  {
    if s == [] {
      assert Zeros(k) + s == Zeros(k);
      ZerosParseToZero(k);
    } else {
      var t := Zeros(k) + s;
      assert t[..|t| - 1] == Zeros(k) + s[..|s| - 1];
      ParseHexLeadingZeros(k, s[..|s| - 1]);
    }
  }

  lemma {:induction false} ZerosParseToZero(k: nat)
    ensures ParseHex(Zeros(k)) == 0
  {
    if k > 0 {
      assert Zeros(k)[..k - 1] == Zeros(k - 1);
      ZerosParseToZero(k - 1);
    }
  }

  /** Two certificates share a serial key exactly when they share a serial number,
      so the aggregator's set of distinct keys counts distinct serial numbers. */
  lemma FormatSerialInjective(a: nat, b: nat)
    ensures FormatSerial(a) == FormatSerial(b) <==> a == b
  {
  }
}
