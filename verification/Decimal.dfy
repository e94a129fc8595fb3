// Decimal printing of numbers, and the number parsing of Rust's `str::parse::<u16>`, which also
// accepts one leading plus sign and any number of leading zeros.
module Decimal {
  import opened Wrappers
  import opened Ints

  function DigitChar(d: nat): char
    requires d < 10
  {
    ('0' as int + d) as char
  }

  predicate IsDigit(c: char) { '0' <= c <= '9' }

  predicate AllDigits(s: string) { forall i :: 0 <= i < |s| ==> IsDigit(s[i]) }

  function Print(n: nat): (s: string)
    ensures |s| > 0 && AllDigits(s)
  {
    if n < 10 then [DigitChar(n)] else Print(n / 10) + [DigitChar(n % 10)]
  }

  function Value(s: string): nat
    requires AllDigits(s)
  {
    if s == "" then 0
    else Value(s[..|s| - 1]) * 10 + (s[|s| - 1] as int - '0' as int)
  }

  function StripPlus(s: string): string { if |s| > 0 && s[0] == '+' then s[1..] else s }

  function ParseU16(s: string): Option<u16> {
    var digits := StripPlus(s);
    if digits == "" || !AllDigits(digits) || Value(digits) > U16_MAX then None else Some(Value(digits))
  }

  lemma {:induction false} ValueOfPrint(n: nat)
    ensures Value(Print(n)) == n
  {
    if n < 10 {
    } else {
      ValueOfPrint(n / 10);
      assert Print(n)[..|Print(n)| - 1] == Print(n / 10);
    }
  }

  function Zeros(count: nat): string { seq(count, _ => '0') }

  lemma {:induction false} DigitsAreAPaddedPrint(s: string) returns (zeros: nat)
    requires s != "" && AllDigits(s)
    ensures s == Zeros(zeros) + Print(Value(s))
  {
    var last := |s| - 1;
    if last == 0 {
      zeros := 0;
      assert Value(s[..0]) == 0;
      assert s == Zeros(0) + Print(Value(s));
    } else {
      var init := s[..last];
      zeros := DigitsAreAPaddedPrint(init);
      assert s == init + [s[last]];
      if Value(init) == 0 {
        zeros := zeros + 1;
        assert init == Zeros(zeros);
        assert Print(Value(s)) == [s[last]];
      } else {
        PrintAppends(Value(init), s[last]);
      }
    }
  }

  // One more digit on a printed number.
  lemma {:induction false} PrintAppends(n: nat, digit: char)
    requires n > 0 && IsDigit(digit)
    ensures Print(n * 10 + (digit as int - '0' as int)) == Print(n) + [digit]
  {
  }

  lemma {:induction false} ValueOfPaddedPrint(zeros: nat, n: nat)
    ensures AllDigits(Zeros(zeros) + Print(n)) && Value(Zeros(zeros) + Print(n)) == n
    decreases zeros + n
  {
    var s := Zeros(zeros) + Print(n);
    var init := s[..|s| - 1];
    if n >= 10 {
      ValueOfPaddedPrint(zeros, n / 10);
      assert init == Zeros(zeros) + Print(n / 10);
    } else if zeros > 0 {
      ValueOfPaddedPrint(zeros - 1, 0);
      assert init == Zeros(zeros - 1) + Print(0);
    }
  }

  // The accepted spellings of a number: an optional plus sign, leading zeros, its decimal print.
  function Spelling(plus: bool, zeros: nat, n: nat): string {
    (if plus then "+" else "") + Zeros(zeros) + Print(n)
  }

  // Parsing accepts exactly the spellings of the numbers that fit 16 bits.
  lemma {:induction false} ParsesExactlyTheSpellings(s: string, n: nat)
    ensures n <= U16_MAX ==>
      (ParseU16(s) == Some(n) <==> exists plus, zeros :: s == Spelling(plus, zeros, n))
    ensures n > U16_MAX ==>
      ((exists plus, zeros :: s == Spelling(plus, zeros, n)) ==> ParseU16(s) == None)
  {
    forall plus, zeros | s == Spelling(plus, zeros, n)
      ensures ParseU16(s) == if n <= U16_MAX then Some(n) else None
    {
      ValueOfPaddedPrint(zeros, n);
      var digits := Zeros(zeros) + Print(n);
      assert StripPlus(s) == digits by {
        if plus {
          assert s == "+" + digits;
        } else {
          assert s == digits && IsDigit(s[0]);
        }
      }
    }
    if n <= U16_MAX && ParseU16(s) == Some(n) {
      var digits := StripPlus(s);
      var zeros := DigitsAreAPaddedPrint(digits);
      var plus := |s| > 0 && s[0] == '+';
      assert s == Spelling(plus, zeros, n);
    }
  }

  lemma {:induction false} ParseInvertsPrint(n: u16)
    ensures ParseU16(Print(n)) == Some(n)
  {
    ValueOfPrint(n);
    assert IsDigit(Print(n)[0]);
  }
}
