// ASCII case folding and decimal printing, as used for column and table names.
module AsciiText {
  function ToLower(c: char): char {
    if 'A' <= c <= 'Z' then (c as int + 32) as char else c
  }

  // Two characters are alike exactly when they are the same, or the same letter in both cases.
  lemma SameLetter(a: char, b: char)
    ensures ToLower(a) == ToLower(b)
            <==> || a == b
                 || ('A' <= a <= 'Z' && b as int == a as int + 32)
                 || ('A' <= b <= 'Z' && a as int == b as int + 32)
  {
  }

  // str::eq_ignore_ascii_case
  predicate EqIgnoreCase(a: string, b: string) {
    |a| == |b| && forall i :: 0 <= i < |a| ==> ToLower(a[i]) == ToLower(b[i])
  }

  predicate IsDigit(c: char) {
    '0' <= c <= '9'
  }

  function Digit(d: nat): (c: char)
    requires d < 10
    ensures IsDigit(c) && c as int - '0' as int == d
  {
    ('0' as int + d) as char
  }

  // Decimal printing of a non-negative integer, without leading zeros.
  function Decimal(n: nat): (s: string)
    ensures s != "" && forall i :: 0 <= i < |s| ==> IsDigit(s[i])
  {
    if n < 10 then [Digit(n)] else Decimal(n / 10) + [Digit(n % 10)]
  }

  // Printing is positional, to base ten.
  lemma DecimalPush(n: nat, d: nat)
    requires n > 0 && d < 10
    ensures Decimal(10 * n + d) == Decimal(n) + [('0' as int + d) as char]
  {
  }

  function PrintInt(n: int): string {
    if n < 0 then "-" + Decimal(-n) else Decimal(n)
  }

  function DecimalValue(s: string): nat {
    if s == "" then 0
    else
      var c := s[|s| - 1];
      DecimalValue(s[..|s| - 1]) * 10 + if IsDigit(c) then c as int - '0' as int else 0
  }

  lemma {:induction false} DecimalRoundTrip(n: nat)
    ensures DecimalValue(Decimal(n)) == n
  {
    if n < 10 {
      assert Decimal(n)[..0] == "";
    } else {
      DecimalRoundTrip(n / 10);
      assert Decimal(n)[..|Decimal(n)| - 1] == Decimal(n / 10);
    }
  }

  // Two numbers print alike, even ignoring case, only when they are the same number.
  lemma DecimalInjective(m: nat, n: nat)
    requires EqIgnoreCase(Decimal(m), Decimal(n))
    ensures m == n
  {
    var a, b := Decimal(m), Decimal(n);
    forall i | 0 <= i < |a| ensures a[i] == b[i] {
      assert IsDigit(a[i]) && IsDigit(b[i]);
      assert ToLower(a[i]) == ToLower(b[i]);
    }
    assert a == b;
    DecimalRoundTrip(m);
    DecimalRoundTrip(n);
  }

  predicate IsInteger(s: string) {
    var digits := if s != "" && s[0] == '-' then s[1..] else s;
    digits != "" && forall i :: 0 <= i < |digits| ==> IsDigit(digits[i])
  }

  function IntegerValue(s: string): int {
    if s != "" && s[0] == '-' then -(DecimalValue(s[1..]) as int) else DecimalValue(s)
  }

  lemma IntegerRoundTrip(n: int)
    ensures IsInteger(PrintInt(n)) && IntegerValue(PrintInt(n)) == n
  {
    var m := if n < 0 then -n else n;
    DecimalRoundTrip(m);
    assert IsDigit(Decimal(m)[0]);
    assert ("-" + Decimal(m))[1..] == Decimal(m);
  }
}
