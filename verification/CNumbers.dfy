/** Characters and numbers as the C library reads and prints them. */
module CNumbers {
  import opened Wrappers

  function DigitOf(c: char): nat {
    if '0' <= c <= '9' then c as int - '0' as int
    else if 'a' <= c <= 'z' then c as int - 'a' as int + 10
    else if 'A' <= c <= 'Z' then c as int - 'A' as int + 10
    else 36
  }

  /** The value of digits after others that are worth value, if all of s are
      digits. */
  function Digits(s: string, base: nat, value: nat): Option<nat> {
    if s == "" then Some(value)
    else if DigitOf(s[0]) < base then Digits(s[1..], base, value * base + DigitOf(s[0]))
    else None
  }

  /** A number without a sign; its prefix tells the base. */
  function Unsigned(d: string): Option<nat> {
    if d == "" then None
    else if |d| > 2 && d[0] == '0' && (d[1] == 'x' || d[1] == 'X') then Digits(d[2..], 16, 0)
    else if d[0] == '0' then Digits(d, 8, 0)
    else Digits(d, 10, 0)
  }

  predicate IsSpace(c: char) {
    c == ' ' || 9 as char <= c <= 13 as char
  }

  function SkipSpace(s: string): string {
    if s != "" && IsSpace(s[0]) then SkipSpace(s[1..]) else s
  }

  /** Whether there is a minus sign, and the number after it, if all of s is
      converted. An empty string counts as 0. */
  function Number(s: string): Option<(bool, nat)> {
    if s == "" then Some((false, 0))
    else
      var t := SkipSpace(s);
      var negative := t != "" && t[0] == '-';
      match Unsigned(if t != "" && (t[0] == '-' || t[0] == '+') then t[1..] else t)
      case Some(n) => Some((negative, n))
      case None => None
  }

  /** For comparing strings without regard to case. */
  function Lower(s: string): string {
    seq(|s|, i requires 0 <= i < |s| => if 'A' <= s[i] <= 'Z' then (s[i] as int + 32) as char else s[i])
  }

  const ULONG: int := 0x1_0000_0000_0000_0000
  const LONG: int := 0x8000_0000_0000_0000

  /** strtoul with base 0: what is too large becomes the largest value. */
  function Strtoul(s: string): (r: Option<nat>)
    ensures r.Some? ==> r.value < ULONG
  {
    match Number(s)
    case None => None
    case Some(x) => Some(if x.1 >= ULONG then ULONG - 1 else if x.0 then (ULONG - x.1) % ULONG else x.1)
  }

  /** strtol with base 0. */
  function Strtol(s: string): (r: Option<int>)
    ensures r.Some? ==> -LONG <= r.value < LONG
  {
    match Number(s)
    case None => None
    case Some(x) =>
      var v := if x.0 then 0 - x.1 else x.1 + 0;
      Some(if v >= LONG then LONG - 1 else if v < -LONG then -LONG else v)
  }

  // --------------------------------------------------------------- printing

  function DigitChar(d: nat): (c: char)
    requires d < 16
    ensures DigitOf(c) == d && (d < 10 ==> '0' <= c <= '9')
  {
    if d < 10 then ('0' as int + d) as char else ('a' as int + d - 10) as char
  }

  /** A number in decimal. */
  function Decimal(n: nat): (s: string)
    ensures s != "" && forall c <- s :: '0' <= c <= '9'
    ensures (s[0] == '0') <==> n == 0
  {
    if n < 10 then [DigitChar(n)] else Decimal(n / 10) + [DigitChar(n % 10)]
  }

  function SignedDecimal(v: int): string {
    if v < 0 then "-" + Decimal(-v) else Decimal(v)
  }

  lemma {:induction false} DigitsAppend(s: string, c: char, base: nat, value: nat)
    requires Digits(s, base, value).Some? && DigitOf(c) < base
    ensures Digits(s + [c], base, value) == Some(Digits(s, base, value).value * base + DigitOf(c))
  {
    if s == "" {
      assert (s + [c])[1..] == "";
    } else {
      assert (s + [c])[1..] == s[1..] + [c];
      DigitsAppend(s[1..], c, base, value * base + DigitOf(s[0]));
    }
  }

  lemma {:induction false} DigitsDecimal(n: nat)
    ensures Digits(Decimal(n), 10, 0) == Some(n)
  {
    if n < 10 {
      assert Decimal(n)[1..] == "";
    } else {
      DigitsDecimal(n / 10);
      DigitsAppend(Decimal(n / 10), DigitChar(n % 10), 10, 0);
    }
  }

  lemma UnsignedDecimal(n: nat)
    ensures Unsigned(Decimal(n)) == Some(n)
  {
    DigitsDecimal(n);
    if n == 0 {
      assert Decimal(0) == "0" && "0"[1..] == "";
    }
  }

  /** What is printed in decimal is read back. */
  lemma NumberDecimal(v: int)
    ensures Number(SignedDecimal(v)) == Some((v < 0, if v < 0 then -v else v))
  {
    var s := SignedDecimal(v);
    UnsignedDecimal(if v < 0 then -v else v);
    if v < 0 {
      assert s[1..] == Decimal(-v);
    } else {
      assert s[0] in Decimal(v);
    }
  }

  /** A byte in hexadecimal. A char that is negative is printed with its sign
      extended to 32 bits. */
  function Hex(b: nat, signed: bool): string
    requires b < 256
  {
    "0x" + (if signed && b >= 128 then Fs(6) else "") + [DigitChar(b / 16), DigitChar(b % 16)]
  }

  function Fs(n: nat): string {
    if n == 0 then "" else "f" + Fs(n - 1)
  }

  function AfterFs(n: nat, value: nat): nat {
    if n == 0 then value else AfterFs(n - 1, value * 16 + 15)
  }

  lemma {:induction false} DigitsFs(n: nat, h: string, value: nat)
    ensures Digits(Fs(n) + h, 16, value) == Digits(h, 16, AfterFs(n, value))
  {
    if n == 0 {
      assert Fs(n) + h == h;
    } else {
      assert (Fs(n) + h)[1..] == Fs(n - 1) + h;
      DigitsFs(n - 1, h, value * 16 + 15);
    }
  }

  lemma NumberHex(b: nat, signed: bool)
    requires b < 256
    ensures Number(Hex(b, signed)) == Some((false, if signed && b >= 128 then 0xffff_ff00 + b else b))
  {
    var s := Hex(b, signed);
    var h := [DigitChar(b / 16), DigitChar(b % 16)];
    assert s[2..] == (if signed && b >= 128 then Fs(6) else "") + h;
    HexDigits(b, if signed && b >= 128 then 0xff_ffff else 0);
    if signed && b >= 128 {
      DigitsFs(6, h, 0);
      assert AfterFs(6, 0) == 0xff_ffff;
    } else {
      assert "" + h == h;
      assert Unsigned(s) == Digits(h, 16, 0);
    }
    assert !IsSpace(s[0]) && s[0] == '0' && SkipSpace(s) == s;
  }

  lemma HexDigits(b: nat, value: nat)
    requires b < 256
    ensures Digits([DigitChar(b / 16), DigitChar(b % 16)], 16, value) == Some(value * 256 + b)
  {
    var q, r := b / 16, b % 16;
    var h, x := [DigitChar(q), DigitChar(r)], value * 16 + q;
    assert h[1..] == [DigitChar(r)] && h[1..][1..] == "";
    assert Digits([DigitChar(r)], 16, x) == Digits("", 16, x * 16 + r);
    assert Digits(h, 16, value) == Digits(h[1..], 16, x);
  }

  // ------------------------------------------------------ other ways to write

  lemma {:induction false} SpaceSkipped(w: string, s: string)
    requires (forall c <- w :: IsSpace(c)) && s != "" && !IsSpace(s[0])
    ensures SkipSpace(w + s) == s
  {
    if w == "" {
      assert w + s == s;
    } else {
      assert w[0] in w && forall c <- w[1..] :: c in w;
      assert (w + s)[1..] == w[1..] + s;
      SpaceSkipped(w[1..], s);
    }
  }

  /** White space and a plus sign before a number mean nothing. */
  lemma NumberSpace(w: string, n: nat)
    requires forall c <- w :: IsSpace(c)
    ensures Number(w + Decimal(n)) == Number(w + ("+" + Decimal(n))) == Some((false, n))
  {
    var d := Decimal(n);
    assert d[0] in d;
    UnsignedDecimal(n);
    SpaceSkipped(w, d);
    SpaceSkipped(w, "+" + d);
    hide SkipSpace, Unsigned, Decimal;
    assert ("+" + d)[1..] == d;
  }

  /** A number in octal. */
  function Octal(n: nat): (s: string)
    ensures s != "" && forall c <- s :: '0' <= c <= '7'
  {
    if n < 8 then [DigitChar(n)] else Octal(n / 8) + [DigitChar(n % 8)]
  }

  lemma {:induction false} DigitsOctal(n: nat)
    ensures Digits(Octal(n), 8, 0) == Some(n)
  {
    if n < 8 {
      assert Octal(n)[1..] == "";
    } else {
      DigitsOctal(n / 8);
      DigitsAppend(Octal(n / 8), DigitChar(n % 8), 8, 0);
    }
  }

  /** After a zero, digits are octal. */
  lemma NumberOctal(n: nat)
    ensures Number("0" + Octal(n)) == Some((false, n))
  {
    var o := Octal(n);
    var s := "0" + o;
    assert o[0] in o && s[1..] == o && s[1] == o[0];
    DigitsOctal(n);
    assert Digits(s, 8, 0) == Digits(o, 8, 0);
    assert SkipSpace(s) == s;
  }

  /** What does not fit a number of 64 bits becomes the largest one; a minus sign
      counts down from 2^64. */
  lemma StrtoulDecimal(v: int)
    ensures Strtoul(SignedDecimal(v))
      == Some(if v >= ULONG || v <= -ULONG then ULONG - 1 else if v < 0 then v + ULONG else v)
  {
    NumberDecimal(v);
    hide Number, SignedDecimal;
  }

  lemma StrtolDecimal(v: int)
    ensures Strtol(SignedDecimal(v)) == Some(if v >= LONG then LONG - 1 else if v < -LONG then -LONG else v)
  {
    NumberDecimal(v);
    hide Number, SignedDecimal;
  }

  /** A character that is no digit makes it no number. */
  lemma {:induction false} NoNumber(n: nat, c: char, r: string)
    requires DigitOf(c) >= 10 && c != 'x' && c != 'X'
    ensures Number(Decimal(n) + [c] + r) == None
  {
    var d := Decimal(n);
    var s := d + [c] + r;
    assert s[0] == d[0] && d[0] in d;
    assert SkipSpace(s) == s;
    if n == 0 {
      assert d == "0";
      assert s == "0" + ([c] + r);
      assert s[1..] == [c] + r;
      assert Digits(s, 8, 0) == Digits([c] + r, 8, 0);
    } else {
      assert d[0] != '0';
      NotAllDigits(d, c, r, 0);
    }
  }

  lemma {:induction false} NotAllDigits(d: string, c: char, r: string, value: nat)
    requires DigitOf(c) >= 10
    ensures Digits(d + [c] + r, 10, value) == None
    decreases |d|
  {
    var s := d + [c] + r;
    if d != "" && DigitOf(d[0]) < 10 {
      assert s[1..] == d[1..] + [c] + r;
      NotAllDigits(d[1..], c, r, value * 10 + DigitOf(d[0]));
    }
  }

  /** What numbers look like. */
  lemma Printed()
    ensures SignedDecimal(-120) == "-120" && SignedDecimal(0) == "0"
    ensures Hex(0x0a, true) == "0x0a" && Hex(200, false) == "0xc8" && Hex(200, true) == "0xffffffc8"
    ensures Lower("Az_9") == "az_9"
  {
    assert Decimal(12) == Decimal(1) + [DigitChar(2)] && Decimal(120) == Decimal(12) + [DigitChar(0)];
    assert Decimal(1) == "1" && Decimal(12) == "12";
    assert Fs(6) == "f" + Fs(5) && Fs(5) == "f" + Fs(4) && Fs(4) == "f" + Fs(3) && Fs(3) == "f" + Fs(2) && Fs(2) == "f" + Fs(1) && Fs(1) == "f" + Fs(0);
  }
}
