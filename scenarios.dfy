/** A worked example: the account "Rent" of 1.500,00 due on 2024-03-01, entered in
    the locale format, found by a date-range filter, and totalled. */
module Scenarios {
  import opened AmountExamples
  import opened Wrappers
  import opened Digits
  import opened Amounts
  import opened Accounts
  import opened Filters

  function Rent(): Conta {
    Conta(1, "Rent", 150000, Date(2024, 3, 1), 1, 0)
  }

  function MarchRequest(): Request {
    Request(None, Given(Date(2024, 2, 1)), Given(Date(2024, 3, 31)))
  }

  /** The account entered as "1.500,00" is stored as 150000 cents, falls inside
      2024-02-01..2024-03-31, and is the whole result of that query, with total
      1.500,00. */
  lemma RentScenario()
    ensures DecimalCents(Normalize("1.500,00")) == Some(Rent().valor)
    ensures Query(MarchRequest(), [Rent()], VencimentoAsc) == [Rent()]
    ensures TotalWhere(MarchRequest(), [Rent()]) == 150000
    ensures FormatCents(TotalWhere(MarchRequest(), [Rent()])) == "1.500,00"
  {
    FormatExample();
    AmountRoundTrip(150000);
    var r := Query(MarchRequest(), [Rent()], VencimentoAsc);
    assert Matches(MarchRequest(), Rent());
    assert multiset(r) == multiset{Rent()};
    assert |r| == 1;
  }
}

/** The worked amount of the scenario, formatted. */
module AmountExamples {
  import opened Digits
  import opened Amounts

  /** 1500 is grouped as "1.500". */
  lemma GroupExample()
    ensures GroupThousands(1500) == "1.500"
  {
    assert GroupThousands(1) == "1";
    assert PadDigits(500, 3) == "500";
  }

  /** number_format(1500, 2, ',', '.') is "1.500,00". */
  lemma FormatExample()
    ensures FormatCents(150000) == "1.500,00"
  {
    GroupExample();
    assert PadDigits(0, 2) == "00";
  }
}
