/** The C library's decimal conversions, as the programs use them. Overflow of `long` is not modelled. */
module CText {

  predicate IsDigit(c: char) { '0' <= c <= '9' }

  /** isspace: the blank and the five control characters from tab to carriage return. */
  predicate IsSpace(c: char) { c == ' ' || 9 <= c as int <= 13 }

  function Digit(d: nat): (c: char)
    requires d < 10
    ensures IsDigit(c) && c as int - '0' as int == d
  {
    '0' + d as char
  }

  /** What the digits at the front of `s` add to a number whose leading digits are `acc`. */
  function ParseDigits(s: string, acc: nat): nat {
    if s != "" && IsDigit(s[0]) then ParseDigits(s[1..], 10 * acc + (s[0] as int - '0' as int)) else acc
  }

  function SkipSpaces(s: string): string {
    if s != "" && IsSpace(s[0]) then SkipSpaces(s[1..]) else s
  }

  /** strtol(s, NULL, 10) */
  function Strtol(s: string): int {
    var t := SkipSpaces(s);
    if t != "" && t[0] == '-' then 0 - ParseDigits(t[1..], 0) as int
    else if t != "" && t[0] == '+' then ParseDigits(t[1..], 0)
    else ParseDigits(t, 0)
  }

  /** The digits of a number that is not negative. */
  function Decimal(n: nat): (s: string)
    ensures s != "" && forall i :: 0 <= i < |s| ==> IsDigit(s[i])
  {
    if n < 10 then [Digit(n)] else Decimal(n / 10) + [Digit(n % 10)]
  }

  lemma {:induction false} ParseDecimal(n: nat, rest: string)
    ensures ParseDigits(Decimal(n) + rest, 0) == ParseDigits(rest, n)
  {
    if n < 10 {
      assert (Decimal(n) + rest)[1..] == rest;
    } else {
      var more := [Digit(n % 10)] + rest;
      assert Decimal(n) + rest == Decimal(n / 10) + more;
      ParseDecimal(n / 10, more);
      assert more[1..] == rest;
    }
  }

  /** How %d prints a number. */
  function SignedDecimal(n: int): (s: string)
    ensures s != "" && forall i :: 0 <= i < |s| ==> IsDigit(s[i]) || s[i] == '-'
  {
    if n < 0 then "-" + Decimal(-n) else Decimal(n)
  }

  /** Conversion reads back what was printed, up to the first character that is not a digit. */
  lemma StrtolDecimal(n: int, rest: string)
    requires rest == "" || !IsDigit(rest[0])
    ensures Strtol(SignedDecimal(n) + rest) == n
  {
    var s := SignedDecimal(n) + rest;
    assert s[0] == SignedDecimal(n)[0];
    if n < 0 {
      SignParsed("-", -n, rest);
      assert s == "-" + (Decimal(-n) + rest);
    } else {
      ParseDecimal(n, rest);
    }
  }

  lemma SignParsed(sign: string, n: nat, rest: string)
    requires (sign == "-" || sign == "+") && (rest == "" || !IsDigit(rest[0]))
    ensures Strtol(sign + (Decimal(n) + rest)) == if sign == "-" then -(n as int) else n
  {
    var s := sign + (Decimal(n) + rest);
    assert s[0] == sign[0] && s[1..] == Decimal(n) + rest;
    ParseDecimal(n, rest);
  }

  /** Leading white space and a plus sign make no difference. */
  lemma {:induction false} StrtolSpaced(spaces: string, n: int, rest: string)
    requires forall c :: c in spaces ==> c in " \t\n\r"
    requires rest == "" || !IsDigit(rest[0])
    ensures Strtol(spaces + (SignedDecimal(n) + rest)) == n
    ensures n >= 0 ==> Strtol(spaces + ("+" + (Decimal(n) + rest))) == n
  {
    var number := SignedDecimal(n) + rest;
    if spaces != "" {
      assert spaces[0] in spaces;
      SpaceSkipped(spaces, number);
      if n >= 0 {
        SpaceSkipped(spaces, "+" + (Decimal(n) + rest));
      }
      StrtolSpaced(spaces[1..], n, rest);
    } else {
      StrtolDecimal(n, rest);
      assert spaces + number == number;
      if n >= 0 {
        var s := "+" + (Decimal(n) + rest);
        assert spaces + s == s;
        SignParsed("+", n, rest);
      }
    }
  }

  lemma SpaceSkipped(spaces: string, s: string)
    requires spaces != "" && IsSpace(spaces[0])
    ensures Strtol(spaces + s) == Strtol(spaces[1..] + s)
  {
    assert (spaces + s)[1..] == spaces[1..] + s;
  }

  /** The characters before the first NUL. */
  function CString(s: string): string {
    if s == "" || s[0] == '\0' then "" else [s[0]] + CString(s[1..])
  }

  lemma {:induction false} CStringWhole(s: string)
    requires '\0' !in s
    ensures CString(s) == s
  {
    if s != "" {
      CStringWhole(s[1..]);
    }
  }
}
