/** Amounts in the Brazilian locale: the input normalisation applied by `store` and
    `update` (strip every thousands '.', then turn the decimal ',' into '.'), and the
    output formatting `number_format(x, 2, ',', '.')` used by both exports, modelled on
    whole cents. */
module Amounts {
  import opened Digits
  import opened Wrappers

  /** PHP's str_replace with a one-character search string: every occurrence of
      search in s is replaced by replacement, left to right. */
  function Replace(s: string, search: char, replacement: string): (r: string)
    ensures search !in replacement ==> search !in r
  {
    if s == [] then []
    else (if s[0] == search then replacement else [s[0]]) + Replace(s[1..], search, replacement)
  }

  /** The amount text stored by `store` and `update`:
      str_replace(',', '.', str_replace('.', '', v)). */
  function Normalize(v: string): (r: string)
    ensures ',' !in r
  {
    Replace(Replace(v, '.', ""), ',', ".")
  }

  /** s with every character of drop removed, the others kept in order. */
  function Without(s: string, drop: set<char>): string {
    if s == [] then [] else (if s[0] in drop then [] else [s[0]]) + Without(s[1..], drop)
  }

  lemma {:induction false} ReplaceConcat(a: string, b: string, search: char, replacement: string)
    ensures Replace(a + b, search, replacement) == Replace(a, search, replacement) + Replace(b, search, replacement)
  {
    if a != [] {
      var head := if a[0] == search then replacement else [a[0]];
      assert (a + b)[0] == a[0] && (a + b)[1..] == a[1..] + b;
      ReplaceConcat(a[1..], b, search, replacement);
      calc {
        Replace(a + b, search, replacement);
        head + Replace(a[1..] + b, search, replacement);
        head + (Replace(a[1..], search, replacement) + Replace(b, search, replacement));
        (head + Replace(a[1..], search, replacement)) + Replace(b, search, replacement);
      }
    } else {
      assert a + b == b;
    }
  }

  /** Normalisation of a concatenation is the concatenation of the normalisations. */
  lemma NormalizeConcat(a: string, b: string)
    ensures Normalize(a + b) == Normalize(a) + Normalize(b)
  {
    ReplaceConcat(a, b, '.', "");
    ReplaceConcat(Replace(a, '.', ""), Replace(b, '.', ""), ',', ".");
  }

  /** The image of one input character under Normalize. */
  function NormalizedChar(ch: char): string {
    if ch == '.' then "" else if ch == ',' then "." else [ch]
  }

  /** Normalize works character by character. */
  lemma NormalizeStep(v: string)
    requires v != []
    ensures Normalize(v) == NormalizedChar(v[0]) + Normalize(v[1..])
  {
    var head := if v[0] == '.' then "" else [v[0]];
    assert Replace(v, '.', "") == head + Replace(v[1..], '.', "");
    ReplaceConcat(head, Replace(v[1..], '.', ""), ',', ".");
  }

  /** The number of occurrences of ch in s. */
  function Occurrences(s: string, ch: char): nat {
    if s == [] then 0 else (if s[0] == ch then 1 else 0) + Occurrences(s[1..], ch)
  }

  lemma {:induction false} OccurrencesConcat(a: string, b: string, ch: char)
    ensures Occurrences(a + b, ch) == Occurrences(a, ch) + Occurrences(b, ch)
  {
    if a != [] {
      assert (a + b)[0] == a[0] && (a + b)[1..] == a[1..] + b;
      OccurrencesConcat(a[1..], b, ch);
    } else {
      assert a + b == b;
    }
  }

  lemma {:induction false} OccurrencesAbsent(s: string, ch: char)
    requires ch !in s
    ensures Occurrences(s, ch) == 0
  {
    if s != [] {
      OccurrencesAbsent(s[1..], ch);
    }
  }

  /** The normalised amount has exactly one '.' for every ',' of the input: every '.'
      of the input is gone, and (by the contract of Normalize) no ',' is left. */
  lemma {:induction false} NormalizeSeparators(v: string)
    ensures Occurrences(Normalize(v), '.') == Occurrences(v, ',')
  {
    if v != [] {
      NormalizeStep(v);
      OccurrencesConcat(NormalizedChar(v[0]), Normalize(v[1..]), '.');
      NormalizeSeparators(v[1..]);
    }
  }

  /** Digits pass through normalisation unchanged. */
  lemma NormalizeDigits(s: string)
    requires AllDigits(s)
    ensures Normalize(s) == s
  {
    NoSeparators(s);
    ReplaceAbsent(s, '.', "");
    ReplaceAbsent(s, ',', ".");
  }

  /** A locale amount with one thousands group, such as "1.234,50", becomes its
      dot-decimal text "1234.50": the digits are kept and only the decimal separator
      is left, as a '.'. */
  lemma NormalizeLocaleAmount(lead: string, group: string, cents: string)
    requires AllDigits(lead) && AllDigits(group) && AllDigits(cents)
    ensures Normalize(lead + "." + group + "," + cents) == lead + group + "." + cents
  {
    calc {
      Normalize(lead + "." + group + "," + cents);
      { NormalizeConcat(lead + "." + group + ",", cents); }
      Normalize(lead + "." + group + ",") + Normalize(cents);
      { NormalizeConcat(lead + "." + group, ","); }
      Normalize(lead + "." + group) + Normalize(",") + Normalize(cents);
      { NormalizeConcat(lead + ".", group); NormalizeConcat(lead, "."); }
      Normalize(lead) + Normalize(".") + Normalize(group) + Normalize(",") + Normalize(cents);
      { NormalizeDigits(lead); NormalizeDigits(group); NormalizeDigits(cents); SeparatorImages(); }
      lead + "" + group + "." + cents;
      { assert lead + "" == lead; }
      lead + group + "." + cents;
    }
  }

  /** The thousands separator disappears, the decimal separator becomes '.'. */
  lemma SeparatorImages()
    ensures Normalize(".") == "" && Normalize(",") == "."
  {
    NormalizeStep(".");
    NormalizeStep(",");
  }

  /** Every character other than the separators survives normalisation, in its input
      order: in particular the digits of the amount are kept as they were. */
  lemma {:induction false} NormalizeKeepsOtherCharacters(v: string)
    ensures Without(Normalize(v), {'.'}) == Without(v, {'.', ','})
  {
    if v != [] {
      NormalizeStep(v);
      WithoutConcat(NormalizedChar(v[0]), Normalize(v[1..]), {'.'});
      NormalizeKeepsOtherCharacters(v[1..]);
    }
  }

  lemma {:induction false} WithoutConcat(a: string, b: string, drop: set<char>)
    ensures Without(a + b, drop) == Without(a, drop) + Without(b, drop)
  {
    if a != [] {
      var head := if a[0] in drop then [] else [a[0]];
      assert (a + b)[0] == a[0] && (a + b)[1..] == a[1..] + b;
      WithoutConcat(a[1..], b, drop);
      calc {
        Without(a + b, drop);
        head + Without(a[1..] + b, drop);
        head + (Without(a[1..], drop) + Without(b, drop));
        (head + Without(a[1..], drop)) + Without(b, drop);
      }
    } else {
      assert a + b == b;
    }
  }

  /** The two replacements in the other order turn the decimal ',' into '.' and then
      strip it together with the thousands separators: no separator of either kind
      survives, so "1.234,50" would become "123450", a hundred times the amount. */
  lemma {:induction false} ReversedOrderDropsDecimalPoint(v: string)
    ensures Replace(Replace(v, ',', "."), '.', "") == Without(v, {'.', ','})
  {
    if v != [] {
      var head := if v[0] == ',' then "." else [v[0]];
      assert Replace(v, ',', ".") == head + Replace(v[1..], ',', ".");
      ReplaceConcat(head, Replace(v[1..], ',', "."), '.', "");
      ReversedOrderDropsDecimalPoint(v[1..]);
    }
  }

  /** The integer part of number_format: the digits of n in groups of three, separated by '.'. */
  function GroupThousands(n: nat): (s: string)
    ensures |s| >= 1 && ',' !in s && s[0] != '.'
    decreases n
  {
    if n < 1000 then NatToText(n)
    else GroupThousands(n / 1000) + "." + PadDigits(n % 1000, 3)
  }

  /** The shape of a grouped integer: one to three leading digits, then any number of
      groups made of a '.' and exactly three digits. */
  predicate Grouped(s: string)
    decreases |s|
  {
    if |s| <= 3 then 1 <= |s| && AllDigits(s)
    else |s| >= 5 && s[|s| - 4] == '.' && AllDigits(s[|s| - 3..]) && Grouped(s[..|s| - 4])
  }

  /** GroupThousands has the grouped shape, and removing its separators gives the plain
      digits of n back. */
  lemma {:induction false} GroupThousandsCorrect(n: nat)
    ensures Grouped(GroupThousands(n))
    ensures Replace(GroupThousands(n), '.', "") == NatToText(n)
    decreases n
  {
    if n < 1000 {
      SmallGroup(n);
    } else {
      GroupThousandsCorrect(n / 1000);
      GroupedStep(n);
      StripStep(n);
    }
  }

  lemma SmallGroup(n: nat)
    requires n < 1000
    ensures Grouped(GroupThousands(n))
    ensures Replace(GroupThousands(n), '.', "") == NatToText(n)
  {
    NatToTextLength(n, 3);
    NoSeparators(NatToText(n));
    ReplaceAbsent(NatToText(n), '.', "");
  }

  lemma GroupedStep(n: nat)
    requires n >= 1000 && Grouped(GroupThousands(n / 1000))
    ensures Grouped(GroupThousands(n))
  {
    var head := GroupThousands(n / 1000);
    var tail := PadDigits(n % 1000, 3);
    var s := head + "." + tail;
    assert s[..|s| - 4] == head;
    assert s[|s| - 3..] == tail;
  }

  lemma StripStep(n: nat)
    requires n >= 1000 && Replace(GroupThousands(n / 1000), '.', "") == NatToText(n / 1000)
    ensures Replace(GroupThousands(n), '.', "") == NatToText(n)
  {
    var head := GroupThousands(n / 1000);
    var tail := PadDigits(n % 1000, 3);
    calc {
      Replace(GroupThousands(n), '.', "");
      Replace((head + ".") + tail, '.', "");
      { ReplaceConcat(head + ".", tail, '.', ""); }
      Replace(head + ".", '.', "") + Replace(tail, '.', "");
      { ReplaceConcat(head, ".", '.', ""); }
      Replace(head, '.', "") + Replace(".", '.', "") + Replace(tail, '.', "");
      { NoSeparators(tail); ReplaceAbsent(tail, '.', ""); }
      NatToText(n / 1000) + "" + tail;
      { assert NatToText(n / 1000) + "" == NatToText(n / 1000); }
      NatToText(n / 1000) + tail;
      { assert Pow10(3) == 1000;
        assert (n / 1000) * Pow10(3) + n % 1000 == n;
        NatToTextSplit(n / 1000, n % 1000, 3); }
      NatToText(n);
    }
  }

  lemma NoSeparators(s: string)
    requires AllDigits(s)
    ensures '.' !in s && ',' !in s
  {
    forall i | 0 <= i < |s| ensures s[i] != '.' && s[i] != ',' {
      assert IsDigit(s[i]);
    }
  }

  lemma {:induction false} ReplaceAbsent(s: string, search: char, replacement: string)
    requires search !in s
    ensures Replace(s, search, replacement) == s
  {
    if s != [] {
      ReplaceAbsent(s[1..], search, replacement);
      assert s == [s[0]] + s[1..];
    }
  }

  /** number_format(c / 100, 2, ',', '.') for a non-negative amount of c cents. */
  function FormatCents(c: nat): string {
    GroupThousands(c / 100) + "," + PadDigits(c % 100, 2)
  }

  /** The formatted amount is a grouped integer part, one decimal ',' and exactly two
      decimal digits. */
  lemma FormatCentsShape(c: nat)
    ensures var s := FormatCents(c);
      |s| >= 4 && s[|s| - 3] == ',' && Occurrences(s, ',') == 1 &&
      Grouped(s[..|s| - 3]) && AllDigits(s[|s| - 2..])
  {
    var head := GroupThousands(c / 100);
    var cents := PadDigits(c % 100, 2);
    var s := head + "," + cents;
    assert FormatCents(c) == s;
    GroupThousandsCorrect(c / 100);
    assert s[..|s| - 3] == head;
    assert s[|s| - 2..] == cents;
    NoSeparators(cents);
    OccurrencesAbsent(head, ',');
    OccurrencesAbsent(cents, ',');
    OccurrencesConcat(head + ",", cents, ',');
    OccurrencesConcat(head, ",", ',');
  }

  /** The canonical dot-decimal text of c cents, with no thousands separator: the form
      the amount column receives. */
  function Canonical(c: nat): string {
    NatToText(c / 100) + "." + PadDigits(c % 100, 2)
  }

  /** Reads a canonical two-decimal text ("1234.50") back as cents; None for any
      other text. */
  function DecimalCents(s: string): (r: Option<nat>)
    ensures r.Some? ==> |s| >= 4 && s[|s| - 3] == '.'
  {
    if |s| >= 4 && s[|s| - 3] == '.' && AllDigits(s[..|s| - 3]) && AllDigits(s[|s| - 2..])
    then Some(Value(s[..|s| - 3]) * 100 + Value(s[|s| - 2..]))
    else None
  }

  /** Normalising a formatted amount gives its canonical dot-decimal text. */
  lemma FormatThenNormalize(c: nat)
    ensures Normalize(FormatCents(c)) == Canonical(c)
  {
    var head := GroupThousands(c / 100);
    var whole := NatToText(c / 100);
    var cents := PadDigits(c % 100, 2);
    NoSeparators(whole);
    NoSeparators(cents);
    assert Replace(FormatCents(c), '.', "") == whole + "," + cents by {
      calc {
        Replace(FormatCents(c), '.', "");
        { assert FormatCents(c) == head + "," + cents; assert head + "," + cents == head + ("," + cents); }
        Replace(head + ("," + cents), '.', "");
        { ReplaceConcat(head, "," + cents, '.', ""); }
        Replace(head, '.', "") + Replace("," + cents, '.', "");
        { GroupThousandsCorrect(c / 100); ReplaceAbsent("," + cents, '.', ""); }
        whole + ("," + cents);
      }
    }
    calc {
      Replace(whole + "," + cents, ',', ".");
      { ReplaceConcat(whole + ",", cents, ',', "."); }
      Replace(whole + ",", ',', ".") + Replace(cents, ',', ".");
      { ReplaceConcat(whole, ",", ',', "."); }
      Replace(whole, ',', ".") + Replace(",", ',', ".") + Replace(cents, ',', ".");
      { ReplaceAbsent(whole, ',', "."); ReplaceAbsent(cents, ',', "."); }
      whole + "." + cents;
    }
  }

  /** The canonical text denotes exactly the amount it was made from. */
  lemma CanonicalReadsBack(c: nat)
    ensures DecimalCents(Canonical(c)) == Some(c)
  {
    var s := Canonical(c);
    var whole := NatToText(c / 100);
    var cents := PadDigits(c % 100, 2);
    assert s[..|s| - 3] == whole;
    assert s[|s| - 2..] == cents;
    ValueOfNatToText(c / 100);
    ValueOfPadDigits(c % 100, 2);
  }

  /** The locale round trip is exact: formatting c cents for display and normalising
      the displayed text yields a text that denotes c again, with no rounding. */
  lemma AmountRoundTrip(c: nat)
    ensures DecimalCents(Normalize(FormatCents(c))) == Some(c)
  {
    FormatThenNormalize(c);
    CanonicalReadsBack(c);
  }
}
