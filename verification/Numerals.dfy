/** Letter and roman page numerals (app/services/docpacks.py). */
module Numerals {
  // ----- Letters -----

  predicate IsLetter(c: char) {
    'A' <= c <= 'Z'
  }

  predicate AllLetters(s: string) {
    forall i :: 0 <= i < |s| ==> IsLetter(s[i])
  }

  function LetterAt(n: nat): char
    requires n < 26
  {
    (65 + n) as char
  }

  function Letters(n: nat): string {
    if n == 0 then "" else Letters((n - 1) / 26) + [LetterAt((n - 1) % 26)]
  }

  /** Reading letters back: a number in base 26 with digits from 1 to 26. */
  function LettersValue(s: string): nat
    requires AllLetters(s)
  {
    if s == "" then 0
    else
      var n := |s| - 1;
      LettersValue(s[..n]) * 26 + (s[n] as int - 64)
  }

  function Reversed(s: string): string {
    if s == "" then "" else Reversed(s[1..]) + [s[0]]
  }

  lemma {:induction false} ReversedJoin(a: string, b: string)
    ensures Reversed(a + b) == Reversed(b) + Reversed(a)
  {
    if a == "" {
      assert a + b == b;
    } else {
      assert (a + b)[1..] == a[1..] + b;
      ReversedJoin(a[1..], b);
    }
  }

  /** `_int_to_letters`. */
  method IntToLetters(num: int) returns (s: string)
    ensures s == if num <= 0 then "" else Letters(num)
  {
    if num <= 0 {
      return "";
    }
    var out: string := "";
    var n := num;
    while n > 0
      invariant n >= 0 && Letters(n) + Reversed(out) == Letters(num)
    {
      n := n - 1;
      var c := LetterAt(n % 26);
      ReversedJoin(out, [c]);
      assert [c][1..] == "" && Reversed([c]) == [c];
      out := out + [c];
      n := n / 26;
    }
    s := Reversed(out);
  }

  lemma {:induction false} LettersAreLetters(n: nat)
    ensures AllLetters(Letters(n))
    ensures Letters(n) == "" <==> n == 0
  {
    if n > 0 {
      LettersAreLetters((n - 1) / 26);
    }
  }

  /** Reading the letters of a number gives the number. */
  lemma {:induction false} LettersReadBack(n: nat)
    ensures AllLetters(Letters(n)) && LettersValue(Letters(n)) == n
  {
    LettersAreLetters(n);
    if n > 0 {
      var rest := Letters((n - 1) / 26);
      LettersReadBack((n - 1) / 26);
      assert Letters(n)[..|rest|] == rest;
    }
  }

  /** Writing the value of any letters gives the letters: every non-empty string of A to Z is one number's. */
  lemma {:induction false} LettersWriteBack(s: string)
    requires AllLetters(s)
    ensures Letters(LettersValue(s)) == s && (s == "" <==> LettersValue(s) == 0)
  {
    if s != "" {
      var n := |s| - 1;
      var front := LettersValue(s[..n]);
      var digit := s[n] as int - 65;
      LettersWriteBack(s[..n]);
      LastDigit(front, digit);
      assert LettersValue(s) - 1 == front * 26 + digit;
      assert s == s[..n] + [s[n]];
    }
  }

  lemma LastDigit(front: nat, digit: nat)
    requires digit < 26
    ensures (front * 26 + digit) / 26 == front && (front * 26 + digit) % 26 == digit
  {
  }

  // ----- Roman numerals -----

  type Positive = n: nat | n > 0 witness 1

  const VALUES: seq<Positive> := [1000, 900, 500, 400, 100, 90, 50, 40, 10, 9, 5, 4, 1]
  const SYMBOLS: seq<string> := ["M", "CM", "D", "CD", "C", "XC", "L", "XL", "X", "IX", "V", "IV", "I"]

  /** Take the k-th value as often as it fits, then go on to the next. */
  function Greedy(n: nat, k: nat): string
    requires k <= 13
    decreases n, 13 - k
  {
    if k == 13 then ""
    else if n >= VALUES[k] then SYMBOLS[k] + Greedy(n - VALUES[k], k)
    else Greedy(n, k + 1)
  }

  function Roman(n: int): string {
    if n <= 0 then "" else Greedy(n, 0)
  }

  /** `_int_to_roman`. */
  method IntToRoman(num: int) returns (s: string)
    ensures s == Roman(num)
  {
    if num <= 0 {
      return "";
    }
    s := "";
    var n := num;
    for k := 0 to 13
      invariant n >= 0 && s + Greedy(n, k) == Greedy(num, 0)
    {
      while n >= VALUES[k]
        invariant n >= 0 && s + Greedy(n, k) == Greedy(num, 0)
      {
        assert s + (SYMBOLS[k] + Greedy(n - VALUES[k], k)) == (s + SYMBOLS[k]) + Greedy(n - VALUES[k], k);
        s := s + SYMBOLS[k];
        n := n - VALUES[k];
      }
    }
  }

  function Digit(c: char): int {
    match c
    case 'M' => 1000
    case 'D' => 500
    case 'C' => 100
    case 'L' => 50
    case 'X' => 10
    case 'V' => 5
    case 'I' => 1
    case _ => 0
  }

  /** Reading a roman numeral: a digit counts against a larger one behind it. */
  function RomanValue(s: string): int {
    if s == "" then 0
    else (if |s| > 1 && Digit(s[0]) < Digit(s[1]) then -Digit(s[0]) else Digit(s[0])) + RomanValue(s[1..])
  }

  /** One digit of this value, or a digit before a larger one that together make it. */
  predicate ReadsAs(s: string, value: nat) {
    || (|s| == 1 && Digit(s[0]) == value)
    || (|s| == 2 && Digit(s[0]) < Digit(s[1]) && Digit(s[1]) - Digit(s[0]) == value)
  }

  /** The table falls, and each symbol reads as its value and ends in a digit at least that large. */
  lemma Table(k: nat)
    requires k < 13
    ensures (k + 1 < 13 ==> VALUES[k + 1] < VALUES[k]) && VALUES[12] == 1
    ensures ReadsAs(SYMBOLS[k], VALUES[k])
  {
  }

  /** What is written from the k-th value on starts with a digit no larger than it. */
  lemma {:induction false} GreedyStart(n: nat, k: nat)
    requires k < 13
    ensures Greedy(n, k) != "" ==> Digit(Greedy(n, k)[0]) <= VALUES[k]
    decreases 13 - k
  {
    Table(k);
    if n < VALUES[k] && k + 1 < 13 {
      GreedyStart(n, k + 1);
    } else if n >= VALUES[k] {
      assert Greedy(n, k)[0] == SYMBOLS[k][0];
    }
  }

  lemma SymbolReads(s: string, rest: string, value: nat)
    requires ReadsAs(s, value)
    requires rest != "" ==> Digit(rest[0]) <= value
    ensures RomanValue(s + rest) == value + RomanValue(rest)
  {
    assert (s + rest)[|s|..] == rest;
    if |s| == 1 {
      assert (s + rest)[1..] == rest;
    } else {
      var tail := [s[1]] + rest;
      assert (s + rest)[1..] == tail && tail[1..] == rest;
      assert RomanValue(tail) == Digit(s[1]) + RomanValue(rest);
    }
  }

  lemma {:induction false} GreedyReadsBack(n: nat, k: nat)
    requires k <= 13 && (k > 0 ==> n < VALUES[k - 1])
    ensures RomanValue(Greedy(n, k)) == n
    decreases n, 13 - k
  {
    if k == 13 {
      Table(12);
    } else {
      Table(k);
      if n >= VALUES[k] {
        GreedyReadsBack(n - VALUES[k], k);
        GreedyStart(n - VALUES[k], k);
        SymbolReads(SYMBOLS[k], Greedy(n - VALUES[k], k), VALUES[k]);
      } else {
        GreedyReadsBack(n, k + 1);
      }
    }
  }

  /** Every positive number's roman numeral reads back as the number. */
  lemma RomanReadsBack(n: int)
    requires n > 0
    ensures RomanValue(Roman(n)) == n
  {
    GreedyReadsBack(n, 0);
  }

  // ----- Roman numerals place by place -----

  /** One decimal digit written with the symbols for one, five and ten of its place. */
  function Place(d: nat, one: string, five: string, ten: string): string {
    if d == 9 then one + ten
    else if d >= 5 then five + Repeated(one, d - 5)
    else if d == 4 then one + five
    else Repeated(one, d)
  }

  function Repeated(s: string, n: nat): string {
    if n == 0 then "" else s + Repeated(s, n - 1)
  }

  /** From its k-th row on the table holds nine, five, four and one of this unit. */
  ghost predicate IsPlace(k: nat, unit: nat, one: string, five: string, ten: string) {
    && k + 3 < 13 && unit > 0
    && VALUES[k] == 9 * unit && VALUES[k + 1] == 5 * unit && VALUES[k + 2] == 4 * unit && VALUES[k + 3] == unit
    && SYMBOLS[k] == one + ten && SYMBOLS[k + 1] == five && SYMBOLS[k + 2] == one + five && SYMBOLS[k + 3] == one
  }

  lemma TakenOnce(n: nat, k: nat)
    requires k < 13 && VALUES[k] <= n < 2 * VALUES[k]
    ensures Greedy(n, k) == SYMBOLS[k] + Greedy(n - VALUES[k], k + 1)
  {
  }

  lemma {:induction false} TakenOften(n: nat, k: nat, d: nat)
    requires k < 13 && d < 10 && d * VALUES[k] <= n < (d + 1) * VALUES[k]
    ensures Greedy(n, k) == Repeated(SYMBOLS[k], d) + Greedy(n - d * VALUES[k], k + 1)
    decreases d
  {
    if d == 0 {
      assert n < VALUES[k];
    } else {
      assert n >= VALUES[k];
      TakenOften(n - VALUES[k], k, d - 1);
      AddFront(SYMBOLS[k], Repeated(SYMBOLS[k], d - 1), Greedy(n - d * VALUES[k], k + 1));
    }
  }

  lemma AddFront(a: string, b: string, c: string)
    ensures a + (b + c) == (a + b) + c
  {
  }

  /** What the table's four rows for a place write is the digit of that place. */
  lemma GreedyPlace(n: nat, k: nat, d: nat, unit: nat, one: string, five: string, ten: string)
    requires IsPlace(k, unit, one, five, ten) && d < 10 && d * unit <= n < (d + 1) * unit
    ensures Greedy(n, k) == Place(d, one, five, ten) + Greedy(n - d * unit, k + 4)
  {
    if d == 9 {
      TakenOnce(n, k);
      Skipped(n - 9 * unit, k + 1, 3);
    } else {
      assert n < 9 * unit;
      Skipped(n, k, 1);
      if d >= 5 {
        FiveAndMore(n, k, d, unit, one, five, ten);
      } else {
        assert n < 5 * unit;
        Skipped(n, k + 1, 1);
        FourAndLess(n, k, d, unit, one, five, ten);
      }
    }
  }

  lemma {:induction false} Skipped(n: nat, k: nat, m: nat)
    requires k + m <= 13 && forall j :: k <= j < k + m ==> n < VALUES[j]
    ensures Greedy(n, k) == Greedy(n, k + m)
    decreases m
  {
    if m > 0 {
      Skipped(n, k + 1, m - 1);
    }
  }

  lemma FiveAndMore(n: nat, k: nat, d: nat, unit: nat, one: string, five: string, ten: string)
    requires IsPlace(k, unit, one, five, ten) && 5 <= d < 9 && d * unit <= n < (d + 1) * unit
    ensures Greedy(n, k + 1) == Place(d, one, five, ten) + Greedy(n - d * unit, k + 4)
  {
    TimesLess(d, unit);
    TakenOnce(n, k + 1);
    Skipped(n - 5 * unit, k + 2, 1);
    TakenOften(n - 5 * unit, k + 3, d - 5);
    AddFront(five, Repeated(one, d - 5), Greedy(n - d * unit, k + 4));
  }

  lemma TimesLess(d: nat, unit: nat)
    requires 5 <= d < 9
    ensures 5 * unit <= d * unit && (d + 1) * unit <= 9 * unit
    ensures d * unit - 5 * unit == (d - 5) * unit && (d + 1) * unit - 5 * unit == (d - 5 + 1) * unit
  {
  }

  lemma FourAndLess(n: nat, k: nat, d: nat, unit: nat, one: string, five: string, ten: string)
    requires IsPlace(k, unit, one, five, ten) && d <= 4 && d * unit <= n < (d + 1) * unit
    ensures Greedy(n, k + 2) == Place(d, one, five, ten) + Greedy(n - d * unit, k + 4)
  {
    if d == 4 {
      TakenOnce(n, k + 2);
      Skipped(n - 4 * unit, k + 3, 1);
    } else {
      assert n < 4 * unit;
      Skipped(n, k + 2, 1);
      TakenOften(n, k + 3, d);
    }
  }

  /** A numeral is an M for every thousand, and then its hundreds, tens and ones, each as its digit is written. */
  lemma RomanByPlaces(n: nat)
    ensures Roman(n) == Repeated("M", n / 1000) + LastPlaces(n / 100 % 10, n / 10 % 10, n % 10)
  {
    DigitsMake(n);
    FourPlaces(n, n / 1000, n / 100 % 10, n / 10 % 10, n % 10);
  }

  lemma DigitsMake(n: nat)
    ensures n == n / 1000 * 1000 + n / 100 % 10 * 100 + n / 10 % 10 * 10 + n % 10
  {
    var tens, hundreds := n / 10, n / 100;
    DividedTwice(n, tens, hundreds);
    DividedTwice(tens, hundreds, n / 1000);
  }

  lemma DividedTwice(n: nat, a: nat, b: nat)
    requires a == n / 10 && b == n / 100
    ensures a / 10 == b && n == 10 * a + n % 10 && a == 10 * b + a % 10
  {
  }

  function LastPlaces(h: nat, t: nat, o: nat): string {
    Place(h, "C", "D", "M") + (Place(t, "X", "L", "C") + Place(o, "I", "V", "X"))
  }

  lemma FourPlaces(n: nat, m: nat, h: nat, t: nat, o: nat)
    requires h < 10 && t < 10 && o < 10 && n == m * 1000 + h * 100 + t * 10 + o
    ensures Roman(n) == Repeated("M", m) + LastPlaces(h, t, o)
  {
    Thousands(n, m);
    ThreePlaces(h, t, o);
    NothingGreedy(0);
  }

  lemma {:induction false} NothingGreedy(k: nat)
    requires k <= 13
    ensures Greedy(0, k) == ""
    decreases 13 - k
  {
    if k < 13 {
      NothingGreedy(k + 1);
    }
  }

  lemma ThreePlaces(h: nat, t: nat, o: nat)
    requires h < 10 && t < 10 && o < 10
    ensures Greedy(h * 100 + t * 10 + o, 1) == LastPlaces(h, t, o)
  {
    Hundreds(h * 100 + t * 10 + o, h);
    Tens(t * 10 + o, t);
    Ones(o);
  }

  lemma Hundreds(n: nat, d: nat)
    requires d < 10 && d * 100 <= n < (d + 1) * 100
    ensures Greedy(n, 1) == Place(d, "C", "D", "M") + Greedy(n - d * 100, 5)
  {
    GreedyPlace(n, 1, d, 100, "C", "D", "M");
  }

  lemma Tens(n: nat, d: nat)
    requires d < 10 && d * 10 <= n < (d + 1) * 10
    ensures Greedy(n, 5) == Place(d, "X", "L", "C") + Greedy(n - d * 10, 9)
  {
    GreedyPlace(n, 5, d, 10, "X", "L", "C");
  }

  lemma Ones(n: nat)
    requires n < 10
    ensures Greedy(n, 9) == Place(n, "I", "V", "X")
  {
    GreedyPlace(n, 9, n, 1, "I", "V", "X");
    assert Greedy(0, 13) == "";
  }

  lemma {:induction false} Thousands(n: nat, d: nat)
    requires d == n / 1000
    ensures Greedy(n, 0) == Repeated("M", d) + Greedy(n % 1000, 1)
    decreases d
  {
    if d > 0 {
      Thousands(n - 1000, d - 1);
      AddFront("M", Repeated("M", d - 1), Greedy(n % 1000, 1));
    }
  }
}
