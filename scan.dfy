/**
 * Text scanning as the control channel uses it, in the "C" locale:
 * `std::istringstream >> int`, `>> char`, `std::getline(.., '+')` and
 * `std::stoi`.  A stream is modelled by the text it has left to read; an
 * extraction that fails leaves nothing usable behind, so it yields `None`.
 *
 * `>> int` and `std::stoi` read the same field: optional white space, an
 * optional sign and at least one decimal digit; what follows is left
 * unread.  They differ only in how they fail (a failed stream versus an
 * exception), and both fail when the value does not fit an `int`.
 *
 * The stream holds the UTF-8 bytes of the message.  Every character these
 * readers stop at or split on (white space, digits, signs, `'+'`) is ASCII,
 * and no byte of a longer UTF-8 sequence is ASCII, so reading the text
 * character by character gives the same fields as reading it byte by byte.
 * The one exception is `>> char`, which takes a single byte: see `ExtractChar`.
 */
module Scan {
  import opened Common

  /** `isspace` in the "C" locale: space, tab, newline, vertical tab, form feed, carriage return. */
  predicate IsSpace(ch: char) {
    ch == ' ' || ('\t' <= ch <= '\r')
  }

  predicate IsDigit(ch: char) {
    '0' <= ch <= '9'
  }

  function DigitValue(ch: char): nat
    requires IsDigit(ch)
  {
    ch as int - '0' as int
  }

  predicate AllDigits(s: string) {
    forall i :: 0 <= i < |s| ==> IsDigit(s[i])
  }

  /** The text left after leading white space is skipped. */
  function SkipSpaces(s: string): (t: string)
    ensures |t| <= |s| && t == s[|s| - |t|..]
    ensures t == [] || !IsSpace(t[0])
    ensures forall i :: 0 <= i < |s| - |t| ==> IsSpace(s[i])
  {
    if s != [] && IsSpace(s[0]) then SkipSpaces(s[1..]) else s
  }

  /** The number of decimal digits at the front of `s`. */
  function LeadingDigits(s: string): (n: nat)
    ensures n <= |s| && AllDigits(s[..n])
    ensures n == |s| || !IsDigit(s[n])
  {
    if s != [] && IsDigit(s[0]) then 1 + LeadingDigits(s[1..]) else 0
  }

  /** The value of a string of decimal digits, most significant first. */
  function DigitsValue(d: string): nat
    requires AllDigits(d)
  {
    if d == [] then 0 else DigitsValue(d[..|d| - 1]) * 10 + DigitValue(d[|d| - 1])
  }

  /** An integer field and the text after it. */
  datatype Scanned = Scanned(value: int, rest: string)

  /** The run of digits at the front of `u` and its value; `None` when `u` does not start with a digit. */
  function ScanMagnitude(u: string): Option<(nat, string)> {
    var n := LeadingDigits(u);
    if n == 0 then None else Some((DigitsValue(u[..n]), u[n..]))
  }

  /**
   * Reads an integer field: white space, an optional `+` or `-`, then as many
   * digits as there are.  `None` when no digit follows; the value is not yet
   * range-checked.
   */
  function ScanInteger(s: string): Option<Scanned> {
    var t := SkipSpaces(s);
    var signed := t != [] && (t[0] == '-' || t[0] == '+');
    match ScanMagnitude(if signed then t[1..] else t)
    case None => None
    case Some((m, rest)) => Some(Scanned(if signed && t[0] == '-' then -(m as int) else m, rest))
  }

  /** `stream >> int`: the integer field, provided its value fits an `int`. */
  function ExtractInt(s: string): (r: Option<Scanned>)
    ensures r.Some? ==> InInt32(r.value.value)
    ensures r.Some? <==> ScanInteger(s).Some? && InInt32(ScanInteger(s).value.value)
  {
    match ScanInteger(s)
    case Some(f) => if InInt32(f.value) then Some(f) else None
    case None => None
  }

  /** A character encoded as a single byte in UTF-8. */
  predicate IsAscii(ch: char) {
    ch < 128 as char
  }

  /**
   * `stream >> ch` for a `char`: skips white space and reads one character.
   * It reads one byte: for a non-ASCII character that is only the lead byte of
   * its encoding, and the stream then starts with a continuation byte
   * (0x80 to 0xBF), which is neither white space, a sign nor a digit.
   */
  function ExtractChar(s: string): (r: Option<(char, string)>)
    ensures r.Some? ==> !IsSpace(r.value.0)
    ensures r.None? <==> forall i :: 0 <= i < |s| ==> IsSpace(s[i])
  {
    var t := SkipSpaces(s);
    if t == [] then None else Some((t[0], t[1..]))
  }

  /** `>> char` facing a non-blank character reads exactly that character. */
  lemma {:induction false} ExtractCharFirst(ch: char, rest: string)
    requires !IsSpace(ch)
    ensures ExtractChar([ch] + rest) == Some((ch, rest))
  {
    var s := [ch] + rest;
    assert s[0] == ch && s[1..] == rest;
    assert SkipSpaces(s) == s;
  }

  /** The number of characters before the first `'+'` (all of them when there is none). */
  function FieldLength(s: string): (n: nat)
    ensures n <= |s| && '+' !in s[..n]
    ensures n < |s| ==> s[n] == '+'
  {
    if s == [] || s[0] == '+' then 0 else 1 + FieldLength(s[1..])
  }

  /**
   * `std::getline(stream, field, '+')`: the characters up to the first `'+'`
   * (which is consumed but not stored) or to the end.  It fails only when
   * nothing at all is left to read.
   */
  function GetField(s: string): (r: Option<(string, string)>)
    ensures r.None? <==> s == []
    ensures r.Some? ==> '+' !in r.value.0
    ensures r.Some? ==> s == r.value.0 + (if |r.value.0| < |s| then "+" else "") + r.value.1
  {
    if s == [] then None
    else
      var n := FieldLength(s);
      Some((s[..n], if n < |s| then s[n + 1..] else []))
  }

  /** The two `getline` calls of the key and button messages, in a row. */
  function TwoFields(s: string): Option<(string, string)> {
    match GetField(s)
    case None => None
    case Some((first, rest)) =>
      match GetField(rest)
      case None => None
      case Some((second, _)) => Some((first, second))
  }

  /** The two exceptions `std::stoi` throws. */
  datatype StoiError = InvalidArgument | OutOfRange

  datatype StoiResult = Converted(value: int) | Threw(error: StoiError)

  /** `std::stoi(s)`: the leading integer of `s`, or the exception it throws. */
  function Stoi(s: string): (r: StoiResult)
    ensures r.Converted? ==> InInt32(r.value)
    ensures r == Threw(InvalidArgument) <==> ScanInteger(s).None?
  {
    match ScanInteger(s)
    case None => Threw(InvalidArgument)
    case Some(f) => if InInt32(f.value) then Converted(f.value) else Threw(OutOfRange)
  }

  // ---------------------------------------------------------------------
  // Decimal text, as a sender writes a number, and the round trips.
  // ---------------------------------------------------------------------

  function DigitChar(d: nat): (ch: char)
    requires d < 10
    ensures IsDigit(ch) && DigitValue(ch) == d
  {
    ('0' as int + d) as char
  }

  /** The decimal digits of `n`, without leading zeros. */
  function Digits(n: nat): (d: string)
    ensures |d| >= 1 && AllDigits(d)
    decreases n
  {
    if n < 10 then [DigitChar(n)] else Digits(n / 10) + [DigitChar(n % 10)]
  }

  /** `n` written in decimal, with a leading `-` when negative. */
  function Decimal(n: int): (s: string)
    ensures s != [] && '+' !in s && !IsSpace(s[0])
  {
    if n < 0 then "-" + Digits(-n) else Digits(n)
  }

  lemma {:induction false} DigitsValueOfDigits(n: nat)
    ensures DigitsValue(Digits(n)) == n
    decreases n
  {
    if n >= 10 {
      var d := Digits(n);
      assert d[..|d| - 1] == Digits(n / 10);
      DigitsValueOfDigits(n / 10);
    }
  }

  lemma {:induction false} LeadingDigitsOfDigits(d: string, rest: string)
    requires AllDigits(d)
    requires rest == [] || !IsDigit(rest[0])
    ensures LeadingDigits(d + rest) == |d|
    decreases |d|
  {
    if d == [] {
      assert d + rest == rest;
    } else {
      assert (d + rest)[1..] == d[1..] + rest;
      LeadingDigitsOfDigits(d[1..], rest);
    }
  }

  lemma {:induction false} MagnitudeOfDigits(m: nat, rest: string)
    requires rest == [] || !IsDigit(rest[0])
    ensures ScanMagnitude(Digits(m) + rest) == Some((m, rest))
  {
    var d := Digits(m);
    DigitsValueOfDigits(m);
    LeadingDigitsOfDigits(d, rest);
    assert (d + rest)[..|d|] == d;
    assert (d + rest)[|d|..] == rest;
  }

  /** A sign written as text: `"-"` when negative, nothing otherwise. */
  function SignText(negative: bool): string {
    if negative then "-" else ""
  }

  /** The value of a run of digits under a sign. */
  function SignedValue(negative: bool, d: string): int
    requires AllDigits(d)
  {
    if negative then -(DigitsValue(d) as int) else DigitsValue(d)
  }

  /** Any run of digits followed by a non-digit, leading zeros included, is read as its value. */
  lemma {:induction false} MagnitudeOfDigitString(d: string, rest: string)
    requires d != [] && AllDigits(d)
    requires rest == [] || !IsDigit(rest[0])
    ensures ScanMagnitude(d + rest) == Some((DigitsValue(d), rest))
  {
    LeadingDigitsOfDigits(d, rest);
    assert (d + rest)[..|d|] == d;
    assert (d + rest)[|d|..] == rest;
  }

  /** `>> int` reads an optional `-` and any run of digits as their signed value, when it fits an `int`. */
  lemma {:induction false} ExtractDigitString(negative: bool, d: string, rest: string)
    requires d != [] && AllDigits(d)
    requires rest == [] || !IsDigit(rest[0])
    requires InInt32(SignedValue(negative, d))
    ensures ExtractInt(SignText(negative) + d + rest) == Some(Scanned(SignedValue(negative, d), rest))
  {
    MagnitudeOfDigitString(d, rest);
    var s := SignText(negative) + d + rest;
    if negative {
      assert s[0] == '-' && s[1..] == d + rest;
      ScanMinus(s);
    } else {
      assert s == d + rest;
      assert IsDigit(s[0]);
      ScanUnsigned(s);
    }
  }

  /** Scanning a decimal number back reads exactly that number and leaves the text after it. */
  lemma {:induction false} ScanDecimal(n: int, rest: string)
    requires rest == [] || !IsDigit(rest[0])
    ensures ScanInteger(Decimal(n) + rest) == Some(Scanned(n, rest))
  {
    if n < 0 {
      ScanNegative(n, rest);
    } else {
      ScanNonNegative(n, rest);
      assert Decimal(n) + rest == Digits(n) + rest;
    }
  }

  lemma {:induction false} ScanNegative(n: int, rest: string)
    requires n < 0
    requires rest == [] || !IsDigit(rest[0])
    ensures ScanInteger(Decimal(n) + rest) == Some(Scanned(n, rest))
  {
    var m: nat := -n;
    var s := Decimal(n) + rest;
    assert s == ['-'] + (Digits(m) + rest);
    assert s[1..] == Digits(m) + rest;
    MagnitudeOfDigits(m, rest);
    ScanMinus(s);
  }

  /** Text that starts with `-` is read as the negated number after it. */
  lemma {:induction false} ScanMinus(s: string)
    requires s != [] && s[0] == '-' && ScanMagnitude(s[1..]).Some?
    ensures ScanInteger(s) == Some(Scanned(-(ScanMagnitude(s[1..]).value.0 as int), ScanMagnitude(s[1..]).value.1))
  {
    assert !IsSpace(s[0]);
    assert SkipSpaces(s) == s;
  }

  lemma {:induction false} ScanNonNegative(m: nat, rest: string)
    requires rest == [] || !IsDigit(rest[0])
    ensures ScanInteger(Digits(m) + rest) == Some(Scanned(m, rest))
  {
    var s := Digits(m) + rest;
    assert s[0] == Digits(m)[0];
    MagnitudeOfDigits(m, rest);
    ScanUnsigned(s);
  }

  /** Text that starts with a digit is read as an unsigned number. */
  lemma {:induction false} ScanUnsigned(s: string)
    requires s != [] && IsDigit(s[0]) && ScanMagnitude(s).Some?
    ensures ScanInteger(s) == Some(Scanned(ScanMagnitude(s).value.0, ScanMagnitude(s).value.1))
  {
    assert !IsSpace(s[0]) && !(s[0] == '-' || s[0] == '+');
    assert SkipSpaces(s) == s;
  }

  /** `>> int` reads back any `int` written in decimal. */
  lemma {:induction false} ExtractDecimal(n: int, rest: string)
    requires InInt32(n)
    requires rest == [] || !IsDigit(rest[0])
    ensures ExtractInt(Decimal(n) + rest) == Some(Scanned(n, rest))
  {
    ScanDecimal(n, rest);
  }

  /** `std::stoi` reads back any `int` written in decimal. */
  lemma {:induction false} StoiDecimal(n: int)
    requires InInt32(n)
    ensures Stoi(Decimal(n)) == Converted(n)
  {
    ScanDecimal(n, []);
    assert Decimal(n) + [] == Decimal(n);
  }

  /** `getline` hands back a field that holds no `'+'` and the text after its delimiter. */
  lemma {:induction false} GetFieldSplits(field: string, rest: string)
    requires '+' !in field
    ensures GetField(field + "+" + rest) == Some((field, rest))
  {
    var s := field + "+" + rest;
    assert s[|field|] == '+';
    assert forall i :: 0 <= i < |field| ==> s[i] == field[i];
    FieldLengthStopsAtPlus(s, |field|);
    assert s[..|field|] == field;
    assert s[|field| + 1..] == rest;
  }

  /** The last field of a message runs to the end of the text. */
  lemma {:induction false} GetFieldLast(field: string)
    requires field != [] && '+' !in field
    ensures GetField(field) == Some((field, []))
  {
    assert forall i :: 0 <= i < |field| ==> field[i] != '+';
    FieldLengthStopsAtPlus(field, |field|);
  }

  lemma {:induction false} FieldLengthStopsAtPlus(s: string, n: nat)
    requires n <= |s|
    requires forall i :: 0 <= i < n ==> s[i] != '+'
    requires n == |s| || s[n] == '+'
    ensures FieldLength(s) == n
    decreases n
  {
    if n > 0 {
      FieldLengthStopsAtPlus(s[1..], n - 1);
    }
  }

  /** Two `'+'`-free fields, the second non-empty, come back out of `a + "+" + b`. */
  lemma {:induction false} TwoFieldsSplit(a: string, b: string)
    requires '+' !in a && '+' !in b && b != []
    ensures TwoFields(a + "+" + b) == Some((a, b))
  {
    GetFieldSplits(a, b);
    GetFieldLast(b);
  }
}
