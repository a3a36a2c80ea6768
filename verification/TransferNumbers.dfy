/** Transfer numbers: a shared counter printed behind the current year and month. */
module TransferNumbers {
  import opened Decimals

  /** `text.slice(-2)` */
  function LastTwo(text: string): string {
    if |text| <= 2 then text else text[|text| - 2..]
  }

  function TransferNumber(year: nat, month: nat, counter: nat): string {
    "ATT-" + LastTwo(Decimal(year)) + PadStart(Decimal(month), 2) + "-" + PadStart(Decimal(counter), 4)
  }

  predicate CalendarMonth(year: nat, month: nat) {
    year >= 10 && 1 <= month <= 12
  }

  lemma MonthHasTwoDigits(month: nat)
    requires 1 <= month <= 12
    ensures |PadStart(Decimal(month), 2)| == 2
  {
    if month >= 10 {
      assert Decimal(month) == Decimal(month / 10) + [Digit(month % 10)];
      assert month / 10 == 1;
    }
  }

  lemma CounterPart(year: nat, month: nat, counter: nat)
    requires CalendarMonth(year, month)
    ensures TransferNumber(year, month, counter)[9..] == PadStart(Decimal(counter), 4)
  {
    MonthHasTwoDigits(month);
    assert |LastTwo(Decimal(year))| == 2;
  }

  /** No two counter values ever give the same transfer number, in one month or across months and years. */
  lemma TransferNumbersNeverRepeat(year: nat, month: nat, counter: nat, year': nat, month': nat, counter': nat)
    requires CalendarMonth(year, month) && CalendarMonth(year', month')
    requires TransferNumber(year, month, counter) == TransferNumber(year', month', counter')
    ensures counter == counter'
  {
    CounterPart(year, month, counter);
    CounterPart(year', month', counter');
    PaddedNumeralsDiffer(counter, counter', 4);
  }

  lemma {:induction false} LastTwoDigits(n: nat)
    requires n >= 10
    ensures |LastTwo(Decimal(n))| == 2 && AllDigits(LastTwo(Decimal(n))) && ValueOf(LastTwo(Decimal(n))) == n % 100
  {
    var text := Decimal(n);
    var tens := Decimal(n / 10);
    assert text == tens + [Digit(n % 10)];
    assert LastTwo(text) == [tens[|tens| - 1]] + [text[|text| - 1]];
    assert tens[|tens| - 1] == Digit(n / 10 % 10);
    var two := LastTwo(text);
    assert two[..1] == [Digit(n / 10 % 10)] && two[..1][..0] == "";
    assert ValueOf(two[..1]) == n / 10 % 10;
    assert n % 100 == 10 * (n / 10 % 10) + n % 10;
  }

  /** The number reads as the year's last two digits, the month and the whole counter, in this order. */
  lemma TransferNumberReadsBack(year: nat, month: nat, counter: nat)
    requires CalendarMonth(year, month)
    ensures var text := TransferNumber(year, month, counter);
            && |text| >= 13 && text[..4] == "ATT-" && text[8] == '-'
            && AllDigits(text[4..6]) && ValueOf(text[4..6]) == year % 100
            && AllDigits(text[6..8]) && ValueOf(text[6..8]) == month
            && AllDigits(text[9..]) && ValueOf(text[9..]) == counter
  {
    hide Decimal, PadStart, ValueOf, LastTwo;
    LastTwoDigits(year);
    MonthHasTwoDigits(month);
    DecimalDenotes(month);
    PaddingDenotes(Decimal(month), 2);
    DecimalDenotes(counter);
    PaddingDenotes(Decimal(counter), 4);
    var text := TransferNumber(year, month, counter);
    assert text[4..6] == LastTwo(Decimal(year));
    assert text[6..8] == PadStart(Decimal(month), 2);
    assert text[9..] == PadStart(Decimal(counter), 4);
  }
}
