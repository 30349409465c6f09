/** Printing an int with "%d" and reading it back with simple_strtoul(s, 0, 0). */
module Decimal {
  function Digit(d: nat): char
    requires d < 10
  {
    ['0', '1', '2', '3', '4', '5', '6', '7', '8', '9'][d]
  }

  function Digits(n: nat): (s: string)
    ensures |s| >= 1 && forall c | c in s :: '0' <= c <= '9'
  {
    if n < 10 then [Digit(n)] else Digits(n / 10) + [Digit(n % 10)]
  }

  /** What "%d" prints. */
  function Dec(v: int): (s: string)
    ensures |s| >= 1 && forall c | c in s :: c == '-' || '0' <= c <= '9'
  {
    if v < 0 then "-" + Digits(-v) else Digits(v)
  }

  /** The value of a hexadecimal digit, or 16. */
  function ValueOf(c: char): nat {
    if '0' <= c <= '9' then c as int - '0' as int
    else if 'a' <= c <= 'f' then c as int - 'a' as int + 10
    else if 'A' <= c <= 'F' then c as int - 'A' as int + 10
    else 16
  }

  /** The digit loop: it stops at the first character that is no digit of the base. */
  function Parse(s: string, base: nat, acc: nat): nat {
    if s == "" || ValueOf(s[0]) >= base then acc else Parse(s[1..], base, acc * base + ValueOf(s[0]))
  }

  predicate HexPrefix(s: string) {
    |s| >= 3 && s[0] == '0' && (s[1] == 'x' || s[1] == 'X') && ValueOf(s[2]) < 16
  }

  /** Base 0: "0x" announces hexadecimal, another leading zero octal. */
  function Strtoul(s: string): nat {
    if HexPrefix(s) then Parse(s[2..], 16, 0)
    else if s != "" && s[0] == '0' then Parse(s, 8, 0)
    else Parse(s, 10, 0)
  }

  /** An unsigned long stored in an int: 32 bits, two's complement. */
  function ToInt(n: nat): int {
    var w := n % 0x1_0000_0000;
    if w < 0x8000_0000 then w else w - 0x1_0000_0000
  }

  predicate IsInt(v: int) { -0x8000_0000 <= v < 0x8000_0000 }

  lemma {:induction false} ParseSnoc(s: string, c: char, acc: nat)
    requires '0' <= c <= '9' && forall d | d in s :: '0' <= d <= '9'
    ensures Parse(s + [c], 10, acc) == 10 * Parse(s, 10, acc) + ValueOf(c)
  {
    if s == "" {
      assert s + [c] == [c];
      assert [c][1..] == "";
    } else {
      assert (s + [c])[1..] == s[1..] + [c] && s[0] in s;
      assert forall d | d in s[1..] :: d in s;
      ParseSnoc(s[1..], c, acc * 10 + ValueOf(s[0]));
    }
  }

  lemma DigitValue(d: nat)
    requires d < 10
    ensures ValueOf(Digit(d)) == d && '0' <= Digit(d) <= '9'
  {}

  lemma {:induction false} ParseDigits(n: nat)
    ensures Parse(Digits(n), 10, 0) == n
  {
    hide Digit, ValueOf;
    DigitValue(n % 10);
    if n < 10 {
      assert Digits(n) == "" + [Digit(n)];
      ParseSnoc("", Digit(n), 0);
    } else {
      ParseDigits(n / 10);
      ParseSnoc(Digits(n / 10), Digit(n % 10), 0);
    }
  }

  lemma {:induction false} NoLeadingZero(n: nat)
    requires n > 0
    ensures Digits(n)[0] != '0'
  {
    if n >= 10 { NoLeadingZero(n / 10); }
  }

  /** Printed ints read back as themselves exactly when they are not negative; the others read as 0. */
  lemma DecRoundTrip(v: int)
    requires IsInt(v)
    ensures ToInt(Strtoul(Dec(v))) == if v >= 0 then v else 0
  {
    if v == 0 {
      assert Digits(0) == "0" && "0"[1..] == "";
    } else if v > 0 {
      NoLeadingZero(v);
      ParseDigits(v);
    }
  }

  /** Storing an unsigned long in an int keeps it modulo 2^32. */
  lemma ToIntExactly(n: nat)
    ensures IsInt(ToInt(n)) && (ToInt(n) - n) % 0x1_0000_0000 == 0
  {}

  /** One more digit, in any base. */
  lemma {:induction false} ParseNext(s: string, c: char, base: nat, acc: nat)
    requires ValueOf(c) < base && forall d | d in s :: ValueOf(d) < base
    ensures Parse(s + [c], base, acc) == Parse(s, base, acc) * base + ValueOf(c)
  {
    hide ValueOf;
    if s == "" {
      assert s + [c] == [c];
      assert [c][1..] == "";
    } else {
      assert (s + [c])[1..] == s[1..] + [c] && s[0] in s;
      assert forall d | d in s[1..] :: d in s;
      ParseNext(s[1..], c, base, acc * base + ValueOf(s[0]));
    }
  }

  /** What follows the digits does not count. */
  lemma {:induction false} ParseStops(s: string, rest: string, base: nat, acc: nat)
    requires forall d | d in s :: ValueOf(d) < base
    requires rest != "" ==> ValueOf(rest[0]) >= base
    ensures Parse(s + rest, base, acc) == Parse(s, base, acc)
  {
    hide ValueOf;
    if s == "" {
      assert s + rest == rest;
    } else {
      assert (s + rest)[1..] == s[1..] + rest && s[0] in s;
      assert forall d | d in s[1..] :: d in s;
      ParseStops(s[1..], rest, base, acc * base + ValueOf(s[0]));
    }
  }

  /** Which base a text is read in: hexadecimal behind "0x" and a digit, octal behind
      another leading zero, else decimal. */
  lemma Bases(s: string)
    ensures s != "" && ValueOf(s[0]) < 16 ==> Strtoul("0x" + s) == Strtoul("0X" + s) == Parse(s, 16, 0)
    ensures s == "" || s[0] !in "xX" ==> Strtoul("0" + s) == Parse(s, 8, 0)
    ensures s != "" && s[0] != '0' ==> Strtoul(s) == Parse(s, 10, 0)
  {
    assert ("0x" + s)[2..] == s && ("0X" + s)[2..] == s && ("0" + s)[1..] == s;
  }

  /** The digits: '0' to '9' for 0 to 9, letters of either case for 10 to 15. */
  lemma DigitValues(d: nat)
    requires d < 16
    ensures ValueOf("0123456789abcdef"[d]) == ValueOf("0123456789ABCDEF"[d]) == d
    ensures d < 10 ==> Digit(d) == "0123456789"[d]
  {}
}
