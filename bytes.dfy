/** Bytes and text: the byte type, the bytes of ASCII text, decimal rendering of integers (Python's `str(n)`
    and `len(...)` in f-strings) and the zero-padded fields of `strftime`. */
module Bytes {

  newtype byte = x: int | 0 <= x < 256

  const LF: byte := 10

  predicate IsAscii(s: string) {
    forall i :: 0 <= i < |s| ==> s[i] as int < 128
  }

  predicate NoLF(s: string) {
    forall i :: 0 <= i < |s| ==> s[i] != '\n'
  }

  /** The bytes of an ASCII string: a Python `b"..."` literal, or
      `s.encode('utf-8')` of a string whose characters are all ASCII, where
      UTF-8 gives one byte per character. */
  function AsciiBytes(s: string): (r: seq<byte>)
    requires IsAscii(s)
    ensures |r| == |s| && forall i :: 0 <= i < |s| ==> r[i] as int == s[i] as int
  {
    seq(|s|, i requires 0 <= i < |s| => s[i] as int as byte)
  }

  lemma AsciiAppend(a: string, b: string)
    requires IsAscii(a) && IsAscii(b)
    ensures IsAscii(a + b)
  {
    assert forall i :: |a| <= i < |a + b| ==> (a + b)[i] == b[i - |a|];
  }

  /** Encoding is a homomorphism: the bytes of a concatenation are the
      concatenated bytes. */
  lemma AsciiBytesAppend(a: string, b: string)
    requires IsAscii(a) && IsAscii(b)
    ensures IsAscii(a + b) && AsciiBytes(a + b) == AsciiBytes(a) + AsciiBytes(b)
  {
    AsciiAppend(a, b);
    assert forall i :: 0 <= i < |a| ==> (a + b)[i] == a[i];
    assert forall i :: |a| <= i < |a + b| ==> (a + b)[i] == b[i - |a|];
  }

  // ---------------------------------------------------------------------
  // Decimal numerals

  predicate IsDigit(c: char) { '0' <= c <= '9' }

  predicate AllDigits(s: string) {
    forall i :: 0 <= i < |s| ==> IsDigit(s[i])
  }

  lemma DigitsAscii(s: string)
    requires AllDigits(s)
    ensures IsAscii(s) && NoLF(s)
  {
    assert forall i :: 0 <= i < |s| ==> IsDigit(s[i]);
  }

  function DigitChar(d: nat): (c: char)
    requires d < 10
    ensures IsDigit(c) && c as int - '0' as int == d
  {
    ('0' as int + d) as char
  }

  /** Python `str(n)` for a non-negative integer: no sign, no leading zeros. */
  function ShowNat(n: nat): (s: string)
    ensures |s| >= 1 && AllDigits(s)
    ensures s[0] == '0' ==> n == 0
  {
    if n < 10 then [DigitChar(n)] else ShowNat(n / 10) + [DigitChar(n % 10)]
  }

  /** Value of a string of decimal digits, most significant first. */
  function DigitsValue(s: string): nat
    requires AllDigits(s)
  {
    if s == [] then 0
    else DigitsValue(s[..|s| - 1]) * 10 + (s[|s| - 1] as int - '0' as int)
  }

  /** A reader's parse of a decimal header value such as Content-Length. */
  function ParseNat(s: string): (r: Option<nat>)
    ensures r.Some? <==> s != [] && AllDigits(s)
  {
    if s != [] && AllDigits(s) then Some(DigitsValue(s)) else None
  }

  datatype Option<T> = None | Some(value: T)

  /** Rendering then parsing a decimal gives the number back. */
  lemma {:induction false} ShowNatDigitsValue(n: nat)
    ensures DigitsValue(ShowNat(n)) == n
  {
    if n >= 10 {
      var s := ShowNat(n);
      assert s[..|s| - 1] == ShowNat(n / 10);
      ShowNatDigitsValue(n / 10);
    }
  }

  lemma ParseShowNat(n: nat)
    ensures ParseNat(ShowNat(n)) == Some(n)
  {
    ShowNatDigitsValue(n);
  }

  /** Leading zeros do not change the value of a digit string. */
  lemma {:induction false} DigitsValueLeadingZeros(z: string, s: string)
    requires forall i :: 0 <= i < |z| ==> z[i] == '0'
    requires AllDigits(s)
    ensures AllDigits(z + s)
    ensures DigitsValue(z + s) == DigitsValue(s)
  {
    if s == [] {
      assert z + s == z;
      if z != [] {
        assert z[..|z| - 1] + [] == z[..|z| - 1];
        DigitsValueLeadingZeros(z[..|z| - 1], []);
      }
    } else {
      assert (z + s)[..|z + s| - 1] == z + s[..|s| - 1];
      DigitsValueLeadingZeros(z, s[..|s| - 1]);
    }
  }

  function Pow10(k: nat): (r: nat)
    ensures r >= 1
  {
    if k == 0 then 1 else 10 * Pow10(k - 1)
  }

  lemma {:induction false} ShowNatLength(n: nat, w: nat)
    requires w >= 1 && n < Pow10(w)
    ensures |ShowNat(n)| <= w
  {
    if n >= 10 {
      ShowNatLength(n / 10, w - 1);
    }
  }

  function Zeros(k: nat): (z: string)
    ensures |z| == k && forall i :: 0 <= i < k ==> z[i] == '0'
  {
    if k == 0 then [] else "0" + Zeros(k - 1)
  }

  /** `strftime`'s zero-padded numeric field of width `w` (`%02d`, `%04d`). */
  function ZeroPad(n: nat, w: nat): (s: string)
    requires w >= 1 && n < Pow10(w)
    ensures |s| == w && AllDigits(s) && DigitsValue(s) == n
  {
    ShowNatLength(n, w);
    var d := ShowNat(n);
    DigitsValueLeadingZeros(Zeros(w - |d|), d);
    ShowNatDigitsValue(n);
    Zeros(w - |d|) + d
  }
}
