/** Positional numerals, printed without leading zeros: decimal and lower-case hexadecimal. */
module Numerals {
  import opened Base
  import opened Ordering

  predicate Radix(base: nat) {
    2 <= base <= 16
  }

  function Digit(d: nat): char
    requires d < 16
  {
    if d < 10 then (48 + d) as char else (87 + d) as char
  }

  function Print(n: nat, base: nat): (s: string)
    requires Radix(base)
    ensures |s| > 0
  {
    if n < base then [Digit(n)] else Print(n / base, base) + [Digit(n % base)]
  }

  function Dec(n: nat): string {
    Print(n, 10)
  }

  function Hex(n: nat): string {
    Print(n, 16)
  }

  /** The value of one digit, upper case included, as `from_str_radix` reads it. */
  function DigitValue(c: char, base: nat): Option<nat> {
    var v := if '0' <= c <= '9' then c as int - '0' as int
             else if 'a' <= c <= 'f' then c as int - 'a' as int + 10
             else if 'A' <= c <= 'F' then c as int - 'A' as int + 10
             else 16;
    if v < base && v < 16 then Some(v) else None
  }

  /** The value of a non-empty run of digits. */
  function DigitsValue(s: string, base: nat): Option<nat> {
    if s == [] then None
    else
      match DigitValue(s[|s| - 1], base)
      case None => None
      case Some(d) =>
        if |s| == 1 then Some(d)
        else
          match DigitsValue(s[..|s| - 1], base)
          case None => None
          case Some(v) => Some(v * base + d)
  }

  /** `from_str_radix` and `parse` for an unsigned type of the given size: one leading plus sign is
      accepted, and a value out of range is an error. */
  function ParseUnsigned(s: string, base: nat, size: nat): Option<nat> {
    var digits := if s != [] && s[0] == '+' then s[1..] else s;
    match DigitsValue(digits, base)
    case Some(v) => if v < size then Some(v) else None
    case None => None
  }

  lemma DigitRoundTrip(d: nat, base: nat)
    requires Radix(base) && d < base
    ensures DigitValue(Digit(d), base) == Some(d)
    ensures Digit(d) != '+'
  {
  }

  lemma AppendDigit(s: string, v: nat, d: nat, base: nat)
    requires Radix(base) && d < base && DigitsValue(s, base) == Some(v)
    ensures DigitsValue(s + [Digit(d)], base) == Some(v * base + d)
  {
    DigitRoundTrip(d, base);
    assert (s + [Digit(d)])[..|s|] == s;
  }

  lemma DivMod(n: nat, base: nat)
    requires base > 0
    ensures n / base * base + n % base == n
  {
  }

  predicate AllDigits(s: string, base: nat) {
    forall i :: 0 <= i < |s| ==> DigitValue(s[i], base).Some?
  }

  lemma TwiceAtMost(q: nat, base: nat)
    requires base >= 2
    ensures q * base >= 2 * q
  {
  }

  lemma QuotientSmaller(n: nat, base: nat)
    requires 2 <= base <= n
    ensures n / base < n
  {
    var q := n / base;
    DivMod(n, base);
    TwiceAtMost(q, base);
    assert 2 * q <= n;
  }

  lemma PrintUnfold(n: nat, base: nat)
    requires Radix(base)
    ensures n < base ==> Print(n, base) == [Digit(n)]
    ensures n >= base ==> Print(n, base) == Print(n / base, base) + [Digit(n % base)]
  {
  }

  lemma OneDigit(d: nat, base: nat)
    requires Radix(base) && d < base
    ensures DigitsValue([Digit(d)], base) == Some(d) && AllDigits([Digit(d)], base)
  {
    DigitRoundTrip(d, base);
  }

  lemma MoreDigits(s: string, d: nat, base: nat)
    requires Radix(base) && d < base && AllDigits(s, base)
    ensures AllDigits(s + [Digit(d)], base)
  {
    DigitRoundTrip(d, base);
    hide Digit, DigitValue;
  }

  lemma {:induction false} PrintRoundTrip(n: nat, base: nat)
    requires Radix(base)
    ensures DigitsValue(Print(n, base), base) == Some(n)
    ensures AllDigits(Print(n, base), base)
  {
    hide Digit, DigitValue, DigitsValue, AllDigits;
    PrintUnfold(n, base);
    if n < base {
      OneDigit(n, base);
    } else {
      QuotientSmaller(n, base);
      DivMod(n, base);
      hide Print;
      PrintRoundTrip(n / base, base);
      AppendDigit(Print(n / base, base), n / base, n % base, base);
      MoreDigits(Print(n / base, base), n % base, base);
    }
  }

  /** Printing and parsing within the size of the type. */
  lemma ParsePrint(n: nat, base: nat, size: nat)
    requires Radix(base) && n < size
    ensures ParseUnsigned(Print(n, base), base, size) == Some(n)
  {
    PrintRoundTrip(n, base);
    assert DigitValue('+', base).None?;
  }

  /** The digits in order. */
  lemma DigitIs(d: nat)
    requires d < 16
    ensures Digit(d) == "0123456789abcdef"[d]
  {
  }

  lemma DigitOrder(c: nat, d: nat)
    requires c < 16 && d < 16
    ensures Digit(c) < Digit(d) <==> c < d
    ensures Digit(c) == Digit(d) <==> c == d
  {
  }

  /** Decimal numerals of equal width are ordered as strings exactly as their numbers are. */
  lemma {:induction false} EqualWidthOrder(a: nat, b: nat)
    requires |Dec(a)| == |Dec(b)|
    ensures StrLt(Dec(a), Dec(b)) <==> a < b
    ensures Dec(a) == Dec(b) <==> a == b
  {
    if a < 10 {
      DigitOrder(a, b);
      LastChar([], [], Digit(a), Digit(b));
      assert [] + [Digit(a)] == Dec(a) && [] + [Digit(b)] == Dec(b);
    } else {
      EqualWidthOrder(a / 10, b / 10);
      DigitOrder(a % 10, b % 10);
      LastChar(Dec(a / 10), Dec(b / 10), Digit(a % 10), Digit(b % 10));
    }
  }

  lemma LastChar(p: string, q: string, c: char, d: char)
    requires |p| == |q|
    ensures StrLt(p + [c], q + [d]) <==> StrLt(p, q) || (p == q && c < d)
    ensures p + [c] == q + [d] <==> p == q && c == d
  {
    StrTotal();
    LexAppend(CharLt(), p, q, [c], [d]);
    assert p == (p + [c])[..|p|] && q == (q + [d])[..|q|];
    assert (p + [c])[|p|] == c && (q + [d])[|q|] == d;
  }

  /** How many decimal digits a number has. */
  function Width(n: nat): nat {
    if n < 10 then 1 else Width(n / 10) + 1
  }

  lemma {:induction false} DecWidth(n: nat)
    ensures |Dec(n)| == Width(n)
  {
    PrintUnfold(n, 10);
    if n >= 10 {
      DecWidth(n / 10);
    }
  }

  /** A number without its last `k` decimal digits. */
  function DropDigits(n: nat, k: nat): nat {
    if k == 0 then n else DropDigits(n / 10, k - 1)
  }

  /** The first digits of a numeral are the numeral of the number without its last digits. */
  lemma {:induction false} LeadingDigits(n: nat, k: nat)
    requires k < |Dec(n)|
    ensures Dec(n)[..|Dec(n)| - k] == Dec(DropDigits(n, k))
  {
    if k > 0 {
      PrintUnfold(n, 10);
      assert |Dec(n)| > 1;
      LeadingDigits(n / 10, k - 1);
      assert Dec(n) == Dec(n / 10) + [Digit(n % 10)];
      assert Dec(n)[..|Dec(n)| - k] == Dec(n / 10)[..|Dec(n / 10)| - (k - 1)];
    } else {
      assert Dec(n)[..|Dec(n)|] == Dec(n);
    }
  }
}
