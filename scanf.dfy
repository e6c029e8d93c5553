/** The parts of the C library's formatted I/O that terminology's start-up code
    relies on: sscanf and snprintf with the `%i` conversion and ordinary
    characters, atoi and strchr. Integers are mathematical: conversions that would
    overflow an `int` in C are not modelled. */
module Scanf {
  import opened Types

  /** The index of the first occurrence of `c`, as strchr finds it. */
  function IndexOf(s: string, c: char): (i: nat)
    requires c in s
    ensures i < |s| && s[i] == c
    ensures forall j :: 0 <= j < i ==> s[j] != c
  {
    if s[0] == c then 0 else 1 + IndexOf(s[1..], c)
  }

  /** isspace() in the C locale: space, \t, \n, \v, \f and \r. */
  predicate IsSpace(c: char) { c == ' ' || '\t' <= c <= '\r' }

  /** A digit of the given base (8, 10 or 16). */
  predicate IsDigitIn(c: char, base: nat)
  {
    if base == 8 then '0' <= c <= '7'
    else if base == 10 then '0' <= c <= '9'
    else '0' <= c <= '9' || 'a' <= c <= 'f' || 'A' <= c <= 'F'
  }

  function DigitValue(c: char): nat
  {
    if '0' <= c <= '9' then c as nat - '0' as nat
    else if 'a' <= c <= 'f' then c as nat - 'a' as nat + 10
    else if 'A' <= c <= 'F' then c as nat - 'A' as nat + 10
    else 0
  }

  /** Length of the longest prefix of `s` made of white space. */
  function SpaceRun(s: string): (n: nat)
    ensures n <= |s|
    ensures n < |s| ==> !IsSpace(s[n])
  {
    if |s| > 0 && IsSpace(s[0]) then 1 + SpaceRun(s[1..]) else 0
  }

  /** Length of the longest prefix of `s` made of digits of `base`. */
  function DigitRun(s: string, base: nat): (n: nat)
    ensures n <= |s|
    ensures n < |s| ==> !IsDigitIn(s[n], base)
  {
    if |s| > 0 && IsDigitIn(s[0], base) then 1 + DigitRun(s[1..], base) else 0
  }

  /** The value of a string of digits, most significant first. */
  function DigitsValue(ds: string, base: nat): nat
  {
    if ds == [] then 0
    else DigitsValue(ds[..|ds| - 1], base) * base + DigitValue(ds[|ds| - 1])
  }

  /** Every character of `s` is a digit of `base`. */
  predicate AllDigits(s: string, base: nat)
    decreases |s|
  {
    |s| == 0 || (IsDigitIn(s[0], base) && AllDigits(s[1..], base))
  }

  lemma {:induction false} AllDigitsSnoc(s: string, c: char, base: nat)
    requires AllDigits(s, base) && IsDigitIn(c, base)
    ensures AllDigits(s + [c], base)
    decreases |s|
  {
    if |s| > 0 {
      assert (s + [c])[1..] == s[1..] + [c];
      AllDigitsSnoc(s[1..], c, base);
    } else {
      assert s + [c] == [c];
    }
  }

  /** The decimal digits of `n`, without leading zeros. */
  function DecimalDigits(n: nat): (s: string)
    ensures |s| > 0 && AllDigits(s, 10)
    ensures s[0] == '0' <==> n == 0
  {
    if n < 10 then ["0123456789"[n]]
    else
      var d := "0123456789"[n % 10];
      AllDigitsSnoc(DecimalDigits(n / 10), d, 10);
      DecimalDigits(n / 10) + [d]
  }

  /** printf's `%i`: an optional minus sign and the decimal digits. */
  function FormatInt(n: int): string
  {
    if n < 0 then "-" + DecimalDigits(-n) else DecimalDigits(n)
  }

  /** The unsigned part of a `%i` item, with strtol's base detection: "0x" or
      "0X" then hexadecimal digits, a leading "0" for octal, decimal otherwise.
      Gives the magnitude and the number of characters it takes, or None on a
      matching failure ("0x" with no hexadecimal digit after it is one, since
      it is only the beginning of an item). */
  function ScanMagnitude(u: string): (r: Option<(nat, nat)>)
    ensures r.Some? ==> 0 < r.value.1 <= |u|
  {
    if |u| >= 2 && u[0] == '0' && (u[1] == 'x' || u[1] == 'X') then
      var k := DigitRun(u[2..], 16);
      if k == 0 then None else Some((DigitsValue(u[2..2 + k], 16), 2 + k))
    else if |u| >= 1 && u[0] == '0' then
      var k := DigitRun(u, 8);
      Some((DigitsValue(u[..k], 8), k))
    else
      var k := DigitRun(u, 10);
      if k == 0 then None else Some((DigitsValue(u[..k], 10), k))
  }

  /** scanf's `%i` conversion at the start of `s`: white space is skipped, an
      optional sign is read, then the magnitude. Gives the value and the
      number of characters consumed, or None when the conversion fails. */
  function ScanInt(s: string): (r: Option<(int, nat)>)
    ensures r.Some? ==> 0 < r.value.1 <= |s|
  {
    var sp := SpaceRun(s);
    var t := s[sp..];
    var signed := |t| > 0 && (t[0] == '+' || t[0] == '-');
    var u := if signed then t[1..] else t;
    match ScanMagnitude(u)
    case None => None
    case Some((m, k)) =>
      var v: int := if signed && t[0] == '-' then -(m as int) else m;
      Some((v, sp + (if signed then 1 else 0) + k))
  }

  /** A format string broken into the directives it is made of. */
  datatype Directive = Literal(c: char) | Conversion

  /** `%i` becomes a conversion; every other character is an ordinary
      character that must match itself (none of the formats used here holds
      white space, which would match any amount of it). */
  function Directives(fmt: string): seq<Directive>
  {
    if |fmt| == 0 then []
    else if |fmt| >= 2 && fmt[0] == '%' && fmt[1] == 'i' then [Conversion] + Directives(fmt[2..])
    else [Literal(fmt[0])] + Directives(fmt[1..])
  }

  lemma DirectivesConversion(rest: string)
    ensures Directives("%i" + rest) == [Conversion] + Directives(rest)
  {
    assert ("%i" + rest)[2..] == rest;
  }

  lemma DirectivesLiteral(c: char, rest: string)
    requires c != '%'
    ensures Directives([c] + rest) == [Literal(c)] + Directives(rest)
  {
    assert ([c] + rest)[1..] == rest;
  }

  function Conversions(ds: seq<Directive>): nat
  {
    if ds == [] then 0 else (if ds[0].Conversion? then 1 else 0) + Conversions(ds[1..])
  }

  /** The values that sscanf converts, in order, before the first directive
      that fails; its return value is their number. */
  function ScanDirectives(ds: seq<Directive>, s: string): (vals: seq<int>)
    ensures |vals| <= Conversions(ds)
  {
    if ds == [] then []
    else match ds[0]
      case Literal(c) =>
        if |s| > 0 && s[0] == c then ScanDirectives(ds[1..], s[1..]) else []
      case Conversion =>
        match ScanInt(s)
        case None => []
        case Some((v, k)) => [v] + ScanDirectives(ds[1..], s[k..])
  }

  /** sscanf(s, fmt, ...): the values converted. */
  function Sscanf(fmt: string, s: string): (vals: seq<int>)
    ensures |vals| <= Conversions(Directives(fmt))
  {
    ScanDirectives(Directives(fmt), s)
  }

  /** atoi(s), that is strtol(s, NULL, 10): white space, an optional sign,
      then decimal digits; 0 when there are none. */
  function Atoi(s: string): int
  {
    var sp := SpaceRun(s);
    var t := s[sp..];
    var signed := |t| > 0 && (t[0] == '+' || t[0] == '-');
    var u := if signed then t[1..] else t;
    var m := DigitsValue(u[..DigitRun(u, 10)], 10);
    if signed && t[0] == '-' then -(m as int) else m
  }

  // ---------------------------------------------------------------------
  // Reading back what was printed

  /** What may follow a printed `%i` item so that scanning it stops exactly at
      its end: nothing, or a character that is not a decimal digit and, after
      a lone "0", not the 'x' or 'X' that would start a hexadecimal item. */
  predicate Delimits(n: int, rest: string)
  {
    rest == [] || (!IsDigitIn(rest[0], 10) && (n == 0 ==> rest[0] != 'x' && rest[0] != 'X'))
  }

  lemma {:induction false} DigitRunOfDigits(a: string, rest: string, base: nat)
    requires AllDigits(a, base)
    requires rest == [] || !IsDigitIn(rest[0], base)
    ensures DigitRun(a + rest, base) == |a|
  {
    if a != [] {
      assert (a + rest)[1..] == a[1..] + rest;
      DigitRunOfDigits(a[1..], rest, base);
    }
  }

  lemma {:induction false} DecimalDigitsValue(n: nat)
    ensures DigitsValue(DecimalDigits(n), 10) == n
  {
    if n >= 10 {
      var ds := DecimalDigits(n);
      assert ds[..|ds| - 1] == DecimalDigits(n / 10);
      DecimalDigitsValue(n / 10);
    }
  }

  /** A positive magnitude printed in decimal is read back as decimal. */
  lemma ScanMagnitudeDecimal(m: nat, rest: string)
    requires m > 0
    requires rest == [] || !IsDigitIn(rest[0], 10)
    ensures ScanMagnitude(DecimalDigits(m) + rest) == Some((m, |DecimalDigits(m)|))
    ensures IsDigitIn((DecimalDigits(m) + rest)[0], 10)
  {
    var ds := DecimalDigits(m);
    var u := ds + rest;
    assert u[0] == ds[0];
    DigitRunOfDigits(ds, rest, 10);
    assert u[..|ds|] == ds;
    DecimalDigitsValue(m);
  }

  /** `%i` on text that starts with a digit is the magnitude alone. */
  lemma ScanIntUnsigned(u: string, m: nat, k: nat)
    requires |u| > 0 && IsDigitIn(u[0], 10)
    requires ScanMagnitude(u) == Some((m, k))
    ensures ScanInt(u) == Some((m as int, k))
  {
    assert !IsSpace(u[0]);
    assert u[0..] == u;
  }

  /** `%i` on a minus sign followed by a digit is the negated magnitude. */
  lemma ScanIntNegative(s: string, u: string, m: nat, k: nat)
    requires s == "-" + u
    requires |u| > 0 && IsDigitIn(u[0], 10)
    requires ScanMagnitude(u) == Some((m, k))
    ensures ScanInt(s) == Some((-(m as int), 1 + k))
  {
    assert !IsSpace(s[0]);
    assert s[0..] == s;
    assert s[1..] == u;
  }

  /** `%i` on a plus sign followed by a digit is the magnitude. */
  lemma ScanIntPlus(s: string, u: string, m: nat, k: nat)
    requires s == "+" + u
    requires |u| > 0 && IsDigitIn(u[0], 10)
    requires ScanMagnitude(u) == Some((m, k))
    ensures ScanInt(s) == Some((m as int, 1 + k))
  {
    assert !IsSpace(s[0]);
    assert s[0..] == s;
    assert s[1..] == u;
  }

  /** A lone "0" is read as an octal item of one digit. */
  lemma ScanMagnitudeZero(rest: string)
    requires rest == [] || (!IsDigitIn(rest[0], 10) && rest[0] != 'x' && rest[0] != 'X')
    ensures ScanMagnitude("0" + rest) == Some((0, 1))
  {
    DigitRunOfDigits("0", rest, 8);
    assert ("0" + rest)[..1] == "0";
  }

  /** A negative number prints as a minus sign and its magnitude's digits. */
  lemma NegativeText(n: int, rest: string)
    requires n < 0
    ensures FormatInt(n) + rest == "-" + (DecimalDigits(-n) + rest)
    ensures |FormatInt(n)| == 1 + |DecimalDigits(-n)|
  {
    assert FormatInt(n) == "-" + DecimalDigits(-n);
  }

  lemma ScanFormattedNegative(n: int, rest: string)
    requires n < 0
    requires rest == [] || !IsDigitIn(rest[0], 10)
    ensures ScanInt(FormatInt(n) + rest) == Some((n, |FormatInt(n)|))
  {
    ScanMinusDigits(n, rest);
    NegativeText(n, rest);
  }

  /** `%i` at a minus sign and the digits of a positive magnitude. */
  lemma ScanMinusDigits(n: int, rest: string)
    requires n < 0
    requires rest == [] || !IsDigitIn(rest[0], 10)
    ensures ScanInt("-" + (DecimalDigits(-n) + rest)) == Some((n, 1 + |DecimalDigits(-n)|))
  {
    var m: nat := -n;
    var ds := DecimalDigits(m);
    ScanMagnitudeDecimal(m, rest);
    ScanIntNegative("-" + (ds + rest), ds + rest, m, |ds|);
  }

  lemma ScanFormattedPositive(n: int, rest: string)
    requires n > 0
    requires rest == [] || !IsDigitIn(rest[0], 10)
    ensures ScanInt(FormatInt(n) + rest) == Some((n, |FormatInt(n)|))
  {
    var ds := DecimalDigits(n);
    ScanMagnitudeDecimal(n, rest);
    assert (ds + rest)[0] == ds[0];
    ScanIntUnsigned(ds + rest, n, |ds|);
  }

  /** Reading `%i` at a printed `%i` gives back the printed value and stops
      right after it. */
  lemma ScanFormatted(n: int, rest: string)
    requires Delimits(n, rest)
    ensures ScanInt(FormatInt(n) + rest) == Some((n, |FormatInt(n)|))
  {
    if n < 0 {
      ScanFormattedNegative(n, rest);
    } else if n == 0 {
      assert FormatInt(n) == "0";
      ScanMagnitudeZero(rest);
      ScanIntUnsigned("0" + rest, 0, 1);
    } else {
      ScanFormattedPositive(n, rest);
    }
  }

  /** Reading `%i` at an explicit sign followed by a printed magnitude
      gives the signed value. */
  lemma ScanSigned(c: char, m: nat, rest: string)
    requires c == '+' || c == '-'
    requires rest == [] || (!IsDigitIn(rest[0], 10) && rest[0] != 'x' && rest[0] != 'X')
    ensures ScanInt([c] + FormatInt(m) + rest) ==
            Some((if c == '-' then -(m as int) else m, 1 + |FormatInt(m)|))
  {
    var ds := DecimalDigits(m);
    var u := ds + rest;
    assert FormatInt(m) == ds;
    assert [c] + FormatInt(m) + rest == [c] + u;
    if m == 0 {
      assert ds == "0";
      ScanMagnitudeZero(rest);
    } else {
      ScanMagnitudeDecimal(m, rest);
    }
    assert u[0] == ds[0];
    if c == '-' {
      ScanIntNegative([c] + FormatInt(m) + rest, u, m, |ds|);
    } else {
      ScanIntPlus([c] + FormatInt(m) + rest, u, m, |ds|);
    }
  }

  /** atoi reads back what `%i` printed. */
  lemma AtoiFormatted(n: int)
    ensures Atoi(FormatInt(n)) == n
  {
    var s := FormatInt(n);
    var m: nat := if n < 0 then -n else n;
    var ds := DecimalDigits(m);
    DigitRunOfDigits(ds, [], 10);
    assert ds + [] == ds;
    assert ds[..|ds|] == ds;
    DecimalDigitsValue(m);
    assert !IsSpace(s[0]);
    assert s[0..] == s;
    if n < 0 {
      assert s[1..] == ds;
    }
  }

  // ---------------------------------------------------------------------
  // sscanf one directive at a time

  lemma ScanConversionStep(ds: seq<Directive>, n: int, rest: string)
    requires Delimits(n, rest)
    ensures ScanDirectives([Conversion] + ds, FormatInt(n) + rest) == [n] + ScanDirectives(ds, rest)
  {
    ScanFormatted(n, rest);
    ScanConversionAt(ds, FormatInt(n) + rest, n, |FormatInt(n)|);
    assert (FormatInt(n) + rest)[|FormatInt(n)|..] == rest;
  }

  /** A conversion that succeeds contributes its value and resumes after
      the characters it consumed. */
  lemma ScanConversionAt(ds: seq<Directive>, s: string, v: int, k: nat)
    requires ScanInt(s) == Some((v, k))
    ensures ScanDirectives([Conversion] + ds, s) == [v] + ScanDirectives(ds, s[k..])
  {
    assert ([Conversion] + ds)[1..] == ds;
  }

  lemma ScanLiteralStep(ds: seq<Directive>, c: char, rest: string)
    ensures ScanDirectives([Literal(c)] + ds, [c] + rest) == ScanDirectives(ds, rest)
  {
    assert ([Literal(c)] + ds)[1..] == ds;
    assert ([c] + rest)[1..] == rest;
  }

  lemma ScanLiteralMismatch(ds: seq<Directive>, c: char, s: string)
    requires s == [] || s[0] != c
    ensures ScanDirectives([Literal(c)] + ds, s) == []
  {
  }
}
