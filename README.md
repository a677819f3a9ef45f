# Accounts payable controller: a Dafny model

This project models the logic of the `ContaController` of a small Laravel application
that keeps a register of accounts to pay (`contas`). Each account has a name (`nome`),
an amount (`valor`), a due date (`vencimento`), a status (`situacao_conta_id`, resolved to
a status name through the `situacaoConta` relation) and a creation timestamp.

The model covers:

- **Listing filter** (`index`, `gerarPdf`, `gerarCsv`, `gerarWord`). The request's three
  optional parameters become one conjunctive predicate. `nome` filters as soon as the key
  is present, as a substring match. `data_inicio` and `data_fim` filter only when filled,
  as inclusive bounds on the due date. The model is `Filters.Matches`, `Filters.Filter`
  and `Filters.Query`. The listing and the PDF order by creation time, newest first. The
  CSV and Word exports order by due date, earliest first. The total is the sum of the
  amounts of the matching accounts.
- **Amount entry** (`store`, `update`). The amount typed in the Brazilian format
  ("1.234,50") is normalised by deleting every `.` and then turning every `,` into `.`
  (`Amounts.Normalize`). `Amounts.DecimalCents` reads the canonical decimal text
  ("1234.50") back as cents.
- **Amount output**. `number_format(x, 2, ',', '.')` is modelled on whole cents: the
  integer part grouped in thousands by `.`, then `,`, then exactly two decimals
  (`Amounts.FormatCents`).
- **Status toggle** (`changeSituation`). Status 1 becomes 2; every other status becomes 1.
- **CSV export** (`gerarCsv`). The CSV is a header record, one record per account and a
  footer holding the formatted total. The name and status cells are transcoded to
  ISO-8859-1; the others are UTF-8 text. `Reports.WriteCsv` is the writing loop and
  `Reports.GerarCsv` the whole action.
- **Word export** (`gerarWord`). The same three parts make up a table of 2000-wide cells.
  Every header and data cell is bordered. In the footer only the total cell is bordered
  (`Reports.WriteWord`, `Reports.GerarWord`).
- **PDF export** (`gerarPdf`). Only the data handed to the template is modelled
  (`Reports.PdfData`).

Modules and files:

| file | module | contents |
|---|---|---|
| wrappers.dfy | Wrappers | `Option` |
| digits.dfy | Digits | decimal text of naturals, zero-padded digit groups, the value of a digit string |
| amounts.dfy | Amounts | amount normalisation, `number_format` on cents, reading a decimal back |
| accounts.dfy | Accounts | `Date`, `Conta`, the status toggle, `Y-m-d` and `d/m/Y` date texts |
| filters.dfy | Filters | the request predicate, the filter, the two orders, the total |
| tables.dfy | Tables | `Written`: a header followed by one row per element, the reference for both export loops |
| reports.dfy | Reports | UTF-8 and ISO-8859-1 bytes, the CSV records, the Word cells, the two export methods, the PDF data |
| scenarios.dfy | Scenarios, AmountExamples | one account followed from entry to a filtered, totalled report |

Amounts are natural numbers of cents. Dates are `(year, month, day)` triples compared in
calendar order. `Accounts.IsoDateOrder` shows that this order agrees with the database's
comparison of `Y-m-d` text for four-digit years. The `situacaoConta` relation is a
`map<int, string>` from status id to status name. The export actions require that the
status of every filtered account resolves: those are the accounts whose `situacaoConta`
the loops read.

## Model

| member | source | states |
|---|---|---|
| Amounts.Normalize | app/Http/Controllers/ContaController.php:77 | the normalised amount never contains `,` |
| Amounts.GroupThousands | app/Http/Controllers/ContaController.php:244 | the integer part of `number_format`: n below 1000 as its digits, otherwise the grouped thousands, a `.` and the last three digits zero-padded; never empty, no `,`, no leading `.` |
| Amounts.FormatCents | app/Http/Controllers/ContaController.php:244 | `number_format(c / 100, 2, ',', '.')` on whole cents: the grouped integer part, `,`, and the two-digit remainder; used for each amount and for the total (lines 251, 311 and 320) |
| Amounts.NormalizeConcat | app/Http/Controllers/ContaController.php:77 | normalisation works character by character: normalising a concatenation concatenates the normalised parts |
| Amounts.NormalizeSeparators | app/Http/Controllers/ContaController.php:77 | the output has exactly as many `.` as the input has `,` (the same expression appears again in `update`, line 116) |
| Amounts.NormalizeKeepsOtherCharacters | app/Http/Controllers/ContaController.php:77 | apart from the separators, the output holds the input's characters in the input's order |
| Amounts.NormalizeLocaleAmount | app/Http/Controllers/ContaController.php:77 | for digit groups a, b and c, "a.b,c" becomes "ab.c" (so "1.234,50" becomes "1234.50") |
| Amounts.ReversedOrderDropsDecimalPoint | app/Http/Controllers/ContaController.php:77 | the order of the two replacements matters: applied the other way round they delete the decimal point as well |
| Amounts.DecimalCents | app/Http/Controllers/ContaController.php:77 | a text is read as an amount only when its third character from the end is the decimal `.` |
| Amounts.CanonicalReadsBack | app/Http/Controllers/ContaController.php:77 | the canonical decimal text of c cents reads back as c |
| Amounts.GroupThousandsCorrect | app/Http/Controllers/ContaController.php:244 | the integer part is correctly grouped in threes by `.`, and deleting the dots gives the plain decimal text of the number |
| Amounts.FormatCentsShape | app/Http/Controllers/ContaController.php:244 | the formatted amount is a grouped integer part, a single `,`, then exactly two digits |
| Amounts.FormatThenNormalize | app/Http/Controllers/ContaController.php:244 | normalising a formatted amount gives its canonical decimal text, with no thousands separator |
| Amounts.AmountRoundTrip | app/Http/Controllers/ContaController.php:244 | formatting c cents, normalising and reading back gives c again |
| Digits.ValueOfNatToText | app/Http/Controllers/ContaController.php:240 | the decimal text of an id denotes that id |
| Accounts.ToggledSituation | app/Http/Controllers/ContaController.php:184 | the new status is always 1 or 2, and it is 2 exactly when the old status is 1 |
| Accounts.ToggleTwice | app/Http/Controllers/ContaController.php:184 | toggling twice restores the status exactly when the status is 1 or 2 |
| Accounts.ChangeSituation | app/Http/Controllers/ContaController.php:183-185 | the update changes the status to the toggled one and leaves every other modelled field unchanged |
| Accounts.IsoDate | app/Http/Controllers/ContaController.php:27 | the `Y-m-d` text of a date; for a four-digit year it is ten characters with `-` at positions 4 and 7 |
| Accounts.BrDate | app/Http/Controllers/ContaController.php:309 | the `d/m/Y` text of a date; for a four-digit year it is ten characters with `/` at positions 2 and 5 |
| Accounts.IsoDateOrder | app/Http/Controllers/ContaController.php:27 | for four-digit years, comparing `Y-m-d` texts character by character is calendar order |
| Filters.Contains | app/Http/Controllers/ContaController.php:24 | `LIKE '%' . nome . '%'` as substring containment: the name starts with sub, or its tail contains it |
| Filters.ContainsAt | app/Http/Controllers/ContaController.php:24 | containment holds if and only if the searched text is the slice of the name at some index |
| Filters.Matches | app/Http/Controllers/ContaController.php:23-31 | the conjunction of the three `when` clauses: a present `nome` is contained in the name, a filled `data_inicio` is at most the due date, a filled `data_fim` at least it |
| Filters.Filter | app/Http/Controllers/ContaController.php:23-31 | the result is no longer than the store, and each kept account is in the store and matches the request |
| Filters.KeptExactly | app/Http/Controllers/ContaController.php:23-31 | an account is in the result if and only if it is in the store and matches the request |
| Filters.FilterCounts | app/Http/Controllers/ContaController.php:23-31 | a matching account keeps all its occurrences; a non-matching one keeps none |
| Filters.KeptWithinBounds | app/Http/Controllers/ContaController.php:26-31 | every kept account lies within each filled date bound (inclusive) and contains a present name |
| Filters.RelaxedKeepsMore | app/Http/Controllers/ContaController.php:23-31 | dropping the name, or leaving a date bound unfilled, removes none of the accounts the other filters keep |
| Filters.EmptyNameKeepsAll | app/Http/Controllers/ContaController.php:23-24 | a present but empty name, with no filled date, keeps the whole store |
| Filters.FilterConcat | app/Http/Controllers/ContaController.php:23-31 | the filter keeps store order: filtering a concatenation concatenates the filtered parts |
| Filters.FiltersCompose | app/Http/Controllers/ContaController.php:23-31 | the three chained `when` clauses together filter the same as the conjunction of their conditions |
| Filters.Insert | app/Http/Controllers/ContaController.php:217 | inserting into a sorted sequence keeps it sorted and adds exactly that element |
| Filters.Sort | app/Http/Controllers/ContaController.php:217 | the result is sorted and is a permutation of the input |
| Filters.Query | app/Http/Controllers/ContaController.php:207-218 | the query result is sorted in the requested order, is a permutation of the filtered store, and holds exactly the matching stored accounts |
| Filters.Total | app/Http/Controllers/ContaController.php:221 | `sum('valor')`: the sum of the amounts of a sequence of accounts |
| Filters.TotalPermutation | app/Http/Controllers/ContaController.php:221 | the sum of amounts does not depend on the order of the accounts |
| Filters.TotalOfFilter | app/Http/Controllers/ContaController.php:221 | the sum over the filtered accounts is the sum of the matching amounts of the store |
| Filters.QueryTotal | app/Http/Controllers/ContaController.php:221 | the total of a sorted query is the sum of the matching amounts of the store |
| Reports.Latin1 | app/Http/Controllers/ContaController.php:241 | the transcoding gives one byte per character |
| Reports.Latin1RoundTrip | app/Http/Controllers/ContaController.php:241 | text made of characters below U+0100 is transcoded without loss |
| Reports.AsciiUnaffected | app/Http/Controllers/ContaController.php:241 | ASCII text has the same bytes in UTF-8 and in ISO-8859-1 |
| Reports.IsoDateAscii | app/Http/Controllers/ContaController.php:242 | the due-date text is ASCII |
| Reports.FormatCentsAscii | app/Http/Controllers/ContaController.php:244 | the formatted amount is ASCII |
| Reports.CsvHeader | app/Http/Controllers/ContaController.php:230 | the header record: "id", "Nome", "Vencimento", the transcoded status label and "Valor", five fields |
| Reports.CsvHeaderAsWritten | app/Http/Controllers/ContaController.php:230 | the header is the UTF-8 bytes of "id", "Nome", "Vencimento" and "Valor" and the ISO-8859-1 bytes of the status label |
| Reports.StatusName | app/Http/Controllers/ContaController.php:243 | the name the `situacaoConta` relation gives a status id |
| Reports.CsvRow | app/Http/Controllers/ContaController.php:239-245 | an account record has five fields |
| Reports.CsvRowSingleByte | app/Http/Controllers/ContaController.php:239-245 | the id, due-date and amount fields are single-byte text, the same in either encoding |
| Reports.CsvFooter | app/Http/Controllers/ContaController.php:251 | the footer has five fields |
| Reports.ResolvedQuery | app/Http/Controllers/ContaController.php:207-218 | every account the query returns has a resolvable status when every filtered account does |
| Reports.WriteCsv | app/Http/Controllers/ContaController.php:233-254 | the loop writes the header, one record per account in the given order, then the footer |
| Reports.GerarCsv | app/Http/Controllers/ContaController.php:203-254 | the CSV is the header, one record for each account of the due-date-ordered query, then the footer with the total of the matching amounts |
| Reports.WordHeader | app/Http/Controllers/ContaController.php:296-301 | the header row has five bordered cells of width 2000 |
| Reports.WordRow | app/Http/Controllers/ContaController.php:306-311 | an account row has five bordered cells of width 2000 |
| Reports.WrittenBordered | app/Http/Controllers/ContaController.php:296-312 | every row before the footer has five bordered cells |
| Reports.WordFooter | app/Http/Controllers/ContaController.php:315-320 | the footer row: four borderless empty cells of width 2000, then the bordered formatted total |
| Reports.FootersAgree | app/Http/Controllers/ContaController.php:251 | the CSV and Word footers agree: four empty cells, then the same `number_format` text of the total |
| Reports.FooterOnlyBordersTotal | app/Http/Controllers/ContaController.php:315-320 | with fully bordered rows above it, the footer's total is the only bordered cell of the last row |
| Reports.WriteWord | app/Http/Controllers/ContaController.php:296-320 | the loop adds the header row, one row per account in the given order, then the footer row |
| Reports.GerarWord | app/Http/Controllers/ContaController.php:263-320 | the table is the header, one row for each account of the due-date-ordered query, and the footer with the total; only the four empty footer cells are borderless |
| Reports.PdfData | app/Http/Controllers/ContaController.php:151-164 | the PDF receives exactly the matching accounts, newest first (the same accounts the CSV lists), and the total of their amounts |
| Tables.WrittenLength | app/Http/Controllers/ContaController.php:233-248 | writing n rows after a header gives n + 1 records, the header first |
| Tables.WrittenAt | app/Http/Controllers/ContaController.php:236-248 | record i + 1 is the row of the i-th element |
| AmountExamples.GroupExample | app/Http/Controllers/ContaController.php:244 | 1500 is grouped as "1.500" |
| AmountExamples.FormatExample | app/Http/Controllers/ContaController.php:244 | 150000 cents is formatted as "1.500,00" |
| Scenarios.RentScenario | app/Http/Controllers/ContaController.php:77 | "1.500,00" is stored as 150000 cents; an account due on 2024-03-01 is the whole query result for 2024-02-01..2024-03-31; the total is formatted back as "1.500,00" |

## Left out

- PDF rendering: DomPDF, the Blade template and the download are external templating; only the data passed to the template is modelled.
- File handling: `tempnam`, `fopen`, `fclose`, saving the Word document, the downloads and `deleteFileAfterSend` are I/O. The ULID-based file name is randomness. `fputcsv`'s quoting and escaping rules belong to the library, so records are modelled as five byte fields before they are written with `;`.
- Persistence: route-model binding, `Conta::create`, `update` and `delete` (so `destroy` as a whole), eager loading, and `paginate(10)`/`withQueryString` are ORM and database work. The listing is modelled up to the ordered query.
- `show`, `create` and `edit` only render views with data they load; `store` and `update` are modelled through the amount normalisation they apply.
- `Carbon::parse` of arbitrary request text is not modelled: date parameters are already calendar dates, and the `Y-m-d` text the query compares is `Accounts.IsoDate`.
- The CSV due-date cell is the `Y-m-d` text of the date, because the model's date cast is not part of this source.
- SQL `LIKE`: the name filter is plain substring containment. The `%` and `_` wildcards inside a typed name, and the database collation (case and accent folding), are not modelled.
- SQL `ORDER BY` leaves the order of ties open; the model sorts with a stable insertion sort, and its contracts state only sortedness and permutation.
- Floating point: amounts, `sum` and `number_format`'s rounding work on whole cents. Negative amounts are not modelled (`valor` is a natural number).
- Amounts.DecimalCents: reads only the canonical text "digits.dd" that normalising a formatted amount produces; the database's reading of other decimal texts (one decimal, no decimal point, signs) is not modelled.
- `mb_convert_encoding` to ISO-8859-1 writes `?` for characters above U+00FF (the library's default substitute); no other substitution mode is modelled.
- Reports.StatusName: gives the empty text for a status id that does not resolve; the export methods require every account's status to resolve, so they never use that case.
- `ContaRequest` validation, logging, flash messages and redirects are framework behaviour outside this source.
- The `catch` branches of `store`, `update` and `changeSituation` (lines 84-91, 126-133, 192-199) are not modelled: a failed update leaves the record as it was, and the branch only logs, flashes and redirects. `destroy` has no such branch.
- Accounts.ChangeSituation: Eloquent's `update` also refreshes the `updated_at` timestamp; `Conta` has no timestamp other than `createdAt`, so that change is not modelled.
