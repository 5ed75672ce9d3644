/** The C library string functions the server calls, on the bytes of a buffer.
    A position past the last byte of the buffer reads as the terminating NUL. */
module CString {

  const NUL: char := '\0'
  const CR: char := '\r'
  const LF: char := '\n'

  /** The sets of bytes the library functions are called with. */
  datatype Bytes = Blank | BlankOrNul | SlashOrNul | ColonOrNul | Nul | Break {
    predicate Has(c: char) {
      match this
      case Blank => c == ' ' || c == '\t'
      case BlankOrNul => c == ' ' || c == '\t' || c == NUL
      case SlashOrNul => c == '/' || c == NUL
      case ColonOrNul => c == ':' || c == NUL
      case Nul => c == NUL
      case Break => c == CR || c == LF
    }
  }

  const INT_MAX := 0x7FFF_FFFF
  const LONG_MAX := 0x7FFF_FFFF_FFFF_FFFF

  /** The first position at or after i that holds a byte of `stop`, or the end of the buffer.
      strpbrk, strchr, strlen and strcspn are all this scan with NUL among the stops. */
  function Scan(s: seq<char>, i: nat, stop: Bytes): (k: nat)
    requires i <= |s|
    ensures i <= k <= |s|
    ensures forall j :: i <= j < k ==> !stop.Has(s[j])
    ensures k < |s| ==> stop.Has(s[k])
    decreases |s| - i
  {
    if i == |s| || stop.Has(s[i]) then i else Scan(s, i + 1, stop)
  }

  /** The first position at or after i whose byte is not in `skip` (strspn). */
  function Skip(s: seq<char>, i: nat, skip: Bytes): (k: nat)
    requires i <= |s|
    ensures i <= k <= |s|
    ensures forall j :: i <= j < k ==> skip.Has(s[j])
    ensures k < |s| ==> !skip.Has(s[k])
    decreases |s| - i
  {
    if i < |s| && skip.Has(s[i]) then Skip(s, i + 1, skip) else i
  }

  /** The C string that starts at i. */
  function Str(s: seq<char>, i: nat): (t: seq<char>)
    requires i <= |s|
  {
    s[i..Scan(s, i, Nul)]
  }

  function Lower(c: char): char {
    if 'A' <= c <= 'Z' then ((c as int) + 32) as char else c
  }

  /** strcasecmp(s, t) == 0 */
  predicate EqCI(s: seq<char>, t: seq<char>) {
    |s| == |t| && forall i :: 0 <= i < |s| ==> Lower(s[i]) == Lower(t[i])
  }

  /** strncasecmp(s, t, strlen(t)) == 0 */
  predicate HasPrefixCI(s: seq<char>, t: seq<char>) {
    |t| <= |s| && EqCI(s[..|t|], t)
  }

  predicate IsSpace(c: char) {
    c == ' ' || ('\t' <= c <= '\r')
  }

  predicate IsDigit(c: char) {
    '0' <= c <= '9'
  }

  function SkipSpace(s: seq<char>): seq<char> {
    if |s| > 0 && IsSpace(s[0]) then SkipSpace(s[1..]) else s
  }

  /** The value of the longest prefix of digits, read after `acc`. */
  function Digits(s: seq<char>, acc: nat): nat {
    if |s| > 0 && IsDigit(s[0]) then Digits(s[1..], acc * 10 + (s[0] as int - '0' as int)) else acc
  }

  function Saturate(v: int): int {
    if v > LONG_MAX then LONG_MAX else if v < -LONG_MAX - 1 then -LONG_MAX - 1 else v
  }

  /** atol: white space, an optional sign, then digits; saturates at the range of a 64-bit long. */
  function Atol(s: seq<char>): int {
    var t := SkipSpace(s);
    if |t| > 0 && t[0] == '-' then Saturate(0 - Digits(t[1..], 0))
    else if |t| > 0 && t[0] == '+' then Saturate(Digits(t[1..], 0))
    else Saturate(Digits(t, 0))
  }

  /** Conversion to a 32-bit int. */
  function ToInt32(v: int): (r: int)
    ensures -INT_MAX - 1 <= r <= INT_MAX
    ensures -INT_MAX - 1 <= v <= INT_MAX ==> r == v
    ensures (v - r) % 0x1_0000_0000 == 0
  {
    var m := v % 0x1_0000_0000;
    if m > INT_MAX then m - 0x1_0000_0000 else m
  }

  function Digit(d: nat): char
    requires d < 10
  {
    ('0' as int + d) as char
  }

  function Decimal(n: nat): seq<char> {
    if n < 10 then [Digit(n)] else Decimal(n / 10) + [Digit(n % 10)]
  }

  /** What "%d" prints. */
  function FormatInt(n: int): seq<char> {
    if n < 0 then "-" + Decimal(-n) else Decimal(n)
  }

  // ---------------------------------------------------------------- scanning

  lemma {:induction false} ScanIs(s: seq<char>, i: nat, stop: Bytes, k: nat)
    requires i <= k <= |s|
    requires forall j :: i <= j < k ==> !stop.Has(s[j])
    requires k < |s| ==> stop.Has(s[k])
    ensures Scan(s, i, stop) == k
    decreases k - i
  {
    if i < k {
      ScanIs(s, i + 1, stop, k);
    }
  }

  /** Bytes behind the stop do not matter. */
  lemma {:induction false} ScanPrefix(s: seq<char>, t: seq<char>, i: nat, stop: Bytes)
    requires i <= |s| && s <= t
    requires Scan(s, i, stop) < |s|
    ensures Scan(t, i, stop) == Scan(s, i, stop)
  {
    var k := Scan(s, i, stop);
    assert forall j :: i <= j <= k ==> t[j] == s[j];
    ScanIs(t, i, stop, k);
  }

  lemma {:induction false} ScanStopsBy(s: seq<char>, i: nat, stop: Bytes, k: nat)
    requires i <= k < |s| && stop.Has(s[k])
    ensures Scan(s, i, stop) <= k
  {
  }

  lemma {:induction false} StrPrefix(s: seq<char>, t: seq<char>, i: nat)
    requires i <= |s| && s <= t
    requires Scan(s, i, Nul) < |s|
    ensures Str(t, i) == Str(s, i)
  {
    ScanPrefix(s, t, i, Nul);
  }

  lemma {:induction false} SkipIs(s: seq<char>, i: nat, skip: Bytes, k: nat)
    requires i <= k <= |s|
    requires forall j :: i <= j < k ==> skip.Has(s[j])
    requires k < |s| ==> !skip.Has(s[k])
    ensures Skip(s, i, skip) == k
    decreases k - i
  {
    if i < k {
      SkipIs(s, i + 1, skip, k);
    }
  }

  lemma {:induction false} SkipStopsBy(s: seq<char>, i: nat, skip: Bytes, k: nat)
    requires i <= k < |s| && !skip.Has(s[k])
    ensures Skip(s, i, skip) <= k
  {
  }

  lemma {:induction false} SkipPrefix(s: seq<char>, t: seq<char>, i: nat, skip: Bytes)
    requires i <= |s| && s <= t
    requires Skip(s, i, skip) < |s|
    ensures Skip(t, i, skip) == Skip(s, i, skip)
  {
    SkipIs(t, i, skip, Skip(s, i, skip));
  }

  // ---------------------------------------------------------------- numbers

  lemma {:induction false} DigitsAppend(a: seq<char>, b: seq<char>, acc: nat)
    requires forall i :: 0 <= i < |a| ==> IsDigit(a[i])
    ensures Digits(a + b, acc) == Digits(b, Digits(a, acc))
  {
    if a == [] {
      assert a + b == b;
    } else {
      assert (a + b)[1..] == a[1..] + b;
      DigitsAppend(a[1..], b, acc * 10 + (a[0] as int - '0' as int));
    }
  }

  lemma {:induction false} DecimalRoundTrip(n: nat)
    ensures |Decimal(n)| > 0
    ensures forall i :: 0 <= i < |Decimal(n)| ==> IsDigit(Decimal(n)[i])
    ensures Digits(Decimal(n), 0) == n
  {
    if n < 10 {
      assert Decimal(n)[1..] == [];
    } else {
      var a, b := Decimal(n / 10), [Digit(n % 10)];
      DecimalRoundTrip(n / 10);
      DigitsAppend(a, b, 0);
      assert b[1..] == [];
    }
  }

  lemma {:induction false} DecimalLength(n: nat, bound: nat, digits: nat)
    requires bound == Pow10(digits) && digits > 0
    requires n < bound
    ensures |Decimal(n)| <= digits
  {
    if n >= 10 {
      DecimalLength(n / 10, bound / 10, digits - 1);
    }
  }

  function Pow10(k: nat): nat {
    if k == 0 then 1 else 10 * Pow10(k - 1)
  }

  /** "%d" followed by atol gives the number back, for every 32-bit int, in at most eleven bytes. */
  lemma {:induction false} AtolFormatInt(n: int)
    requires -INT_MAX - 1 <= n <= INT_MAX
    ensures Atol(FormatInt(n)) == n
    ensures 0 < |FormatInt(n)| <= 11
    ensures forall i :: 0 <= i < |FormatInt(n)| ==> FormatInt(n)[i] == '-' || IsDigit(FormatInt(n)[i])
  {
    var m := if n < 0 then -n else n;
    DecimalRoundTrip(m);
    assert Pow10(10) == 10000000000;
    DecimalLength(m, 10000000000, 10);
    var t := FormatInt(n);
    assert SkipSpace(t) == t;
    if n < 0 {
      assert t[1..] == Decimal(m);
    }
  }

  // ------------------------------------------------------------------ text

  /** The same byte, or the two cases of one of the 26 letters. */
  predicate SameLetter(c: char, d: char) {
    || c == d
    || ('A' <= c <= 'Z' && d as int == c as int - 'A' as int + 'a' as int)
    || ('A' <= d <= 'Z' && c as int == d as int - 'A' as int + 'a' as int)
  }

  /** The same text but for the case of letters */
  predicate Spells(s: seq<char>, t: seq<char>) {
    |s| == |t| && forall i :: 0 <= i < |s| ==> SameLetter(s[i], t[i])
  }

  /** strcasecmp compares without regard to the case of letters, and of nothing else. */
  lemma {:induction false} EqCIIff(s: seq<char>, t: seq<char>)
    ensures EqCI(s, t) <==> Spells(s, t)
  {
  }

  lemma SameLetterIff(c: char, d: char)
    ensures Lower(c) == Lower(d) <==> SameLetter(c, d)
  {
  }

  /** A prefix in any spelling */
  lemma {:induction false} PrefixCIIff(s: seq<char>, t: seq<char>)
    ensures HasPrefixCI(s, t) <==>
      |t| <= |s| && forall i :: 0 <= i < |t| ==> SameLetter(s[i], t[i])
  {
    if |t| <= |s| {
      forall i | 0 <= i < |t| ensures s[..|t|][i] == s[i] && (Lower(s[i]) == Lower(t[i]) <==> SameLetter(s[i], t[i])) {
        SameLetterIff(s[i], t[i]);
      }
    }
  }

  /** White space as isspace knows it: space, tab, line feed, vertical tab, form feed, carriage return. */
  predicate White(ws: seq<char>) {
    forall i :: 0 <= i < |ws| ==> ws[i] in [' ', '\t', '\n', 11 as char, 12 as char, '\r']
  }

  lemma {:induction false} SkipWhite(ws: seq<char>, t: seq<char>)
    requires White(ws) && (t == [] || t[0] !in [' ', '\t', '\n', 11 as char, 12 as char, '\r'])
    ensures SkipSpace(ws + t) == t
    decreases |ws|
  {
    if ws == [] {
      assert ws + t == t;
    } else {
      assert (ws + t)[1..] == ws[1..] + t;
      SkipWhite(ws[1..], t);
    }
  }

  /** What atol makes of white space, a sign, a decimal number and what follows it. */
  lemma {:induction false} AtolText(ws: seq<char>, n: nat, rest: seq<char>)
    requires White(ws) && (rest == [] || !('0' <= rest[0] <= '9'))
    ensures Atol(ws + (Decimal(n) + rest)) == Saturate(n)
    ensures Atol(ws + ("+" + (Decimal(n) + rest))) == Saturate(n)
    ensures Atol(ws + ("-" + (Decimal(n) + rest))) == Saturate(0 - n)
  {
    hide SkipSpace, Digits, Decimal, Saturate;
    NumberFirst(n, rest);
    var t := Decimal(n) + rest;
    SkipWhite(ws, t);
    SkipWhite(ws, "+" + t);
    SkipWhite(ws, "-" + t);
    assert ("+" + t)[1..] == t && ("-" + t)[1..] == t;
  }

  lemma {:induction false} NumberFirst(n: nat, rest: seq<char>)
    requires rest == [] || !('0' <= rest[0] <= '9')
    ensures var t := Decimal(n) + rest; t != [] && IsDigit(t[0]) && Digits(t, 0) == n
  {
    DecimalRoundTrip(n);
    DigitsAppend(Decimal(n), rest, 0);
    assert (Decimal(n) + rest)[0] == Decimal(n)[0];
  }

  /** A text without a number is 0. */
  lemma {:induction false} AtolNothing(ws: seq<char>, rest: seq<char>)
    requires White(ws) && (rest == [] || !('0' <= rest[0] <= '9'))
    requires rest == [] || (rest[0] !in "+- \t\n\r" && rest[0] != 11 as char && rest[0] != 12 as char)
    ensures Atol(ws + rest) == 0
  {
    SkipWhite(ws, rest);
  }

  /** A 64-bit long holds the number, or the bound it went past. */
  lemma SaturateIs(v: int)
    ensures -0x8000_0000_0000_0000 <= v < 0x8000_0000_0000_0000 ==> Saturate(v) == v
    ensures v >= 0x8000_0000_0000_0000 ==> Saturate(v) == 0x7FFF_FFFF_FFFF_FFFF
    ensures v < -0x8000_0000_0000_0000 ==> Saturate(v) == -0x8000_0000_0000_0000
  {
  }
}
