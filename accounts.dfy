/** The account record ("conta"), its due date, and the status toggle of
    `changeSituation`. */
module Accounts {
  import opened Digits

  /** A calendar date, already in the canonical form the queries compare
      (the 'Y-m-d' text of Carbon::parse(...)->format('Y-m-d')). */
  datatype Date = Date(year: nat, month: nat, day: nat)

  /** The dates whose 'Y-m-d' text has the fixed width 4-2-2. */
  predicate FourDigitYear(d: Date) {
    d.year < 10000 && d.month < 100 && d.day < 100
  }

  /** Calendar order: year, then month, then day. */
  predicate DateLe(a: Date, b: Date) {
    a.year < b.year || (a.year == b.year && (a.month < b.month || (a.month == b.month && a.day <= b.day)))
  }

  /** An account: `valor` in whole cents, `situacaoContaId` the status reference,
      `createdAt` the creation timestamp used by the listing and the PDF order. */
  datatype Conta = Conta(
    id: nat,
    nome: string,
    valor: nat,
    vencimento: Date,
    situacaoContaId: int,
    createdAt: int)

  /** The new status of `changeSituation`: status 1 becomes 2, every other status
      becomes 1. */
  function ToggledSituation(id: int): (r: int)
    ensures r == 1 || r == 2
    ensures r == 2 <==> id == 1
  {
    if id == 1 then 2 else 1
  }

  /** Toggling twice gives the status back exactly for the two known ids: any third
      id is sent to 1 by the first toggle and then to 2. */
  lemma ToggleTwice(id: int)
    ensures ToggledSituation(ToggledSituation(id)) == id <==> id == 1 || id == 2
  {
  }

  /** `changeSituation` updates the status reference of the account and nothing else. */
  function ChangeSituation(c: Conta): (r: Conta)
    ensures r.situacaoContaId == ToggledSituation(c.situacaoContaId)
    ensures r.(situacaoContaId := c.situacaoContaId) == c
  {
    c.(situacaoContaId := ToggledSituation(c.situacaoContaId))
  }

  /** PHP's 'Y': the year with at least four digits. */
  function YearText(y: nat): string {
    if y < 10000 then PadDigits(y, 4) else NatToText(y)
  }

  /** The 'Y-m-d' text of a date. */
  function IsoDate(d: Date): (r: string)
    ensures FourDigitYear(d) ==> |r| == 10 && r[4] == '-' && r[7] == '-'
  {
    YearText(d.year) + "-" + PadDigits(d.month, 2) + "-" + PadDigits(d.day, 2)
  }

  /** The 'd/m/Y' text of a date, as the Word export prints due dates. */
  function BrDate(d: Date): (r: string)
    ensures FourDigitYear(d) ==> |r| == 10 && r[2] == '/' && r[5] == '/'
  {
    PadDigits(d.day, 2) + "/" + PadDigits(d.month, 2) + "/" + YearText(d.year)
  }

  /** One string is at most another in dictionary order (character by character). */
  predicate LexLe(a: string, b: string)
    decreases |a|
  {
    a == [] || (b != [] && (a[0] < b[0] || (a[0] == b[0] && LexLe(a[1..], b[1..]))))
  }

  /** Comparing two zero-padded numbers of the same width, each followed by some rest,
      compares the numbers first and the rests only on a tie. */
  lemma {:induction false} LexLePadded(x: nat, y: nat, k: nat, u: string, v: string)
    requires x < Pow10(k) && y < Pow10(k)
    ensures LexLe(PadDigits(x, k) + u, PadDigits(y, k) + v) <==> x < y || (x == y && LexLe(u, v))
  {
    if k == 0 {
      assert PadDigits(x, k) + u == u && PadDigits(y, k) + v == v;
    } else {
      var dx, dy := DigitChar(x % 10), DigitChar(y % 10);
      assert PadDigits(x, k) + u == PadDigits(x / 10, k - 1) + ([dx] + u);
      assert PadDigits(y, k) + v == PadDigits(y / 10, k - 1) + ([dy] + v);
      LexLePadded(x / 10, y / 10, k - 1, [dx] + u, [dy] + v);
      assert ([dx] + u)[1..] == u && ([dy] + v)[1..] == v;
      assert LexLe([dx] + u, [dy] + v) <==> x % 10 < y % 10 || (x % 10 == y % 10 && LexLe(u, v));
      assert x == (x / 10) * 10 + x % 10 && y == (y / 10) * 10 + y % 10;
    }
  }

  /** A common first character leaves the comparison to the rests. */
  lemma LexLeSameHead(ch: char, u: string, v: string)
    ensures LexLe([ch] + u, [ch] + v) <==> LexLe(u, v)
  {
    assert ([ch] + u)[1..] == u && ([ch] + v)[1..] == v;
  }

  /** The 'Y-m-d' text of a date with a four-digit year, as padded fields. */
  lemma IsoDateFields(d: Date)
    requires FourDigitYear(d)
    ensures IsoDate(d) == PadDigits(d.year, 4) + (['-'] + (PadDigits(d.month, 2) + (['-'] + (PadDigits(d.day, 2) + []))))
  {
  }

  /** Comparing 'Y-m-d' texts as strings, as the queries do, is calendar order for
      dates with a four-digit year. */
  lemma IsoDateOrder(a: Date, b: Date)
    requires FourDigitYear(a) && FourDigitYear(b)
    ensures DateLe(a, b) <==> LexLe(IsoDate(a), IsoDate(b))
  {
    assert Pow10(2) == 100 && Pow10(4) == 10000;
    var dayA, dayB := PadDigits(a.day, 2) + [], PadDigits(b.day, 2) + [];
    var monthA, monthB := PadDigits(a.month, 2) + (['-'] + dayA), PadDigits(b.month, 2) + (['-'] + dayB);
    IsoDateFields(a);
    IsoDateFields(b);
    LexLePadded(a.year, b.year, 4, ['-'] + monthA, ['-'] + monthB);
    LexLeSameHead('-', monthA, monthB);
    LexLePadded(a.month, b.month, 2, ['-'] + dayA, ['-'] + dayB);
    LexLeSameHead('-', dayA, dayB);
    LexLePadded(a.day, b.day, 2, [], []);
  }
}
