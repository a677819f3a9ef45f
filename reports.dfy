/** The three exports. `gerarCsv` and `gerarWord` build a five-column table step by
    step: a header row, one row per account in the order of the query, and a footer
    row whose only filled cell is the formatted total. `gerarPdf` hands the accounts
    and their total to a template. */
module Reports {
  import opened Digits
  import opened Amounts
  import opened Accounts
  import opened Filters
  import opened Tables

  newtype byte = b: int | 0 <= b < 256

  predicate IsAscii(s: string) {
    forall i :: 0 <= i < |s| ==> s[i] as int < 128
  }

  /** The UTF-8 encoding of one character: one byte below U+0080, then two, three or
      four bytes, a lead byte followed by 6-bit continuation bytes. */
  function Utf8Char(ch: char): (r: seq<byte>)
    ensures 1 <= |r| <= 4
    ensures |r| == 1 <==> ch as int < 128
  {
    var n := ch as int;
    if n < 0x80 then [n as byte]
    else if n < 0x800 then [(0xC0 + n / 0x40) as byte, (0x80 + n % 0x40) as byte]
    else if n < 0x1_0000 then
      [(0xE0 + n / 0x1000) as byte, (0x80 + n / 0x40 % 0x40) as byte, (0x80 + n % 0x40) as byte]
    else
      [(0xF0 + n / 0x4_0000) as byte, (0x80 + n / 0x1000 % 0x40) as byte,
       (0x80 + n / 0x40 % 0x40) as byte, (0x80 + n % 0x40) as byte]
  }

  /** The bytes of a text as PHP holds it, in UTF-8: what fputcsv writes for a field
      that is not transcoded. */
  function Utf8(s: string): (r: seq<byte>)
    ensures |r| >= |s|
  {
    if s == [] then [] else Utf8Char(s[0]) + Utf8(s[1..])
  }

  /** The ISO-8859-1 byte of one character; a character outside ISO-8859-1 becomes
      '?', the default substitute of mb_convert_encoding. */
  function Latin1Byte(ch: char): byte {
    if ch as int < 256 then ch as int as byte else '?' as int as byte
  }

  /** mb_convert_encoding(s, 'ISO-8859-1', 'UTF-8'). */
  function Latin1(s: string): (r: seq<byte>)
    ensures |r| == |s|
  {
    seq(|s|, i requires 0 <= i < |s| => Latin1Byte(s[i]))
  }

  /** Reading ISO-8859-1 bytes back as characters. */
  function Latin1Decode(b: seq<byte>): (s: string)
    ensures |s| == |b|
  {
    seq(|b|, i requires 0 <= i < |b| => b[i] as int as char)
  }

  /** The transcoding loses nothing on a text made of ISO-8859-1 characters. */
  lemma Latin1RoundTrip(s: string)
    requires forall i :: 0 <= i < |s| ==> s[i] as int < 256
    ensures Latin1Decode(Latin1(s)) == s
  {
  }

  /** On a text made of ASCII characters UTF-8 and ISO-8859-1 agree, one byte per
      character: the id, date and amount fields, which are not transcoded, read the
      same as if they were. */
  lemma {:induction false} AsciiUnaffected(s: string)
    requires IsAscii(s)
    ensures Utf8(s) == Latin1(s)
  {
    if s != [] {
      AsciiUnaffected(s[1..]);
      var rest := Latin1(s[1..]);
      assert Latin1(s) == [Latin1Byte(s[0])] + rest;
    }
  }

  lemma AsciiConcat(a: string, b: string)
    requires IsAscii(a) && IsAscii(b)
    ensures IsAscii(a + b)
  {
    forall i | 0 <= i < |a + b| ensures (a + b)[i] as int < 128 {
      if i < |a| {
        assert (a + b)[i] == a[i];
      } else {
        assert (a + b)[i] == b[i - |a|];
      }
    }
  }

  lemma DigitsAscii(s: string)
    requires AllDigits(s)
    ensures IsAscii(s)
  {
    forall i | 0 <= i < |s| ensures s[i] as int < 128 {
      assert IsDigit(s[i]);
    }
  }

  lemma {:induction false} GroupThousandsAscii(n: nat)
    ensures IsAscii(GroupThousands(n))
    decreases n
  {
    if n < 1000 {
      DigitsAscii(NatToText(n));
    } else {
      GroupThousandsAscii(n / 1000);
      DigitsAscii(PadDigits(n % 1000, 3));
      AsciiConcat(GroupThousands(n / 1000), ".");
      AsciiConcat(GroupThousands(n / 1000) + ".", PadDigits(n % 1000, 3));
    }
  }

  lemma FormatCentsAscii(c: nat)
    ensures IsAscii(FormatCents(c))
  {
    GroupThousandsAscii(c / 100);
    DigitsAscii(PadDigits(c % 100, 2));
    AsciiConcat(GroupThousands(c / 100), ",");
    AsciiConcat(GroupThousands(c / 100) + ",", PadDigits(c % 100, 2));
  }

  lemma IsoDateAscii(d: Date)
    ensures IsAscii(IsoDate(d))
  {
    var year, month, day := YearText(d.year), PadDigits(d.month, 2), PadDigits(d.day, 2);
    DigitsAscii(month);
    DigitsAscii(day);
    if d.year < 10000 {
      DigitsAscii(PadDigits(d.year, 4));
    } else {
      DigitsAscii(NatToText(d.year));
    }
    AsciiConcat(year, "-");
    AsciiConcat(year + "-", month);
    AsciiConcat(year + "-" + month, "-");
    AsciiConcat(year + "-" + month + "-", day);
  }

  /** The status label of `Situação`, U+00E7 and U+00E3 written out. */
  const SituacaoLabel: string := "Situa\U{00E7}\U{00E3}o"

  /** A semicolon-separated record before fputcsv writes it: five fields of bytes. */
  type CsvRecord = seq<seq<byte>>

  /** The CSV header. Only the status label is transcoded; the four other names are
      ASCII, so their ISO-8859-1 bytes are the bytes written (CsvHeaderAsWritten). */
  function CsvHeader(): (r: CsvRecord)
    ensures |r| == 5
  {
    [Latin1("id"), Latin1("Nome"), Latin1("Vencimento"), Latin1(SituacaoLabel), Latin1("Valor")]
  }

  /** The header is the UTF-8 text of the four plain names and the transcoded label. */
  lemma CsvHeaderAsWritten()
    ensures CsvHeader() == [Utf8("id"), Utf8("Nome"), Utf8("Vencimento"), Latin1(SituacaoLabel), Utf8("Valor")]
  {
    AsciiNames("id", "Nome", "Vencimento", "Valor");
  }

  /** The four ASCII header names have the same bytes in UTF-8 and in ISO-8859-1. */
  lemma AsciiNames(id: string, nome: string, vencimento: string, valor: string)
    requires id == "id" && nome == "Nome" && vencimento == "Vencimento" && valor == "Valor"
    ensures Utf8(id) == Latin1(id) && Utf8(nome) == Latin1(nome)
    ensures Utf8(vencimento) == Latin1(vencimento) && Utf8(valor) == Latin1(valor)
  {
    AsciiUnaffected(id);
    AsciiUnaffected(nome);
    AsciiUnaffected(vencimento);
    AsciiUnaffected(valor);
  }

  /** One account as a CSV record: name and status label transcoded to ISO-8859-1,
      id, due date and amount written as they are. */
  function CsvRow(c: Conta, situacoes: map<int, string>): (r: CsvRecord)
    ensures |r| == 5
  {
    [Utf8(NatToText(c.id)), Latin1(c.nome), Utf8(IsoDate(c.vencimento)),
     Latin1(StatusName(situacoes, c.situacaoContaId)), Utf8(FormatCents(c.valor))]
  }

  /** The untranscoded fields of a record are ASCII: written as they are or transcoded,
      they are the same bytes, so the file is plain ISO-8859-1. */
  lemma CsvRowSingleByte(c: Conta, situacoes: map<int, string>)
    ensures var r := CsvRow(c, situacoes);
      r[0] == Latin1(NatToText(c.id)) && r[2] == Latin1(IsoDate(c.vencimento)) &&
      r[4] == Latin1(FormatCents(c.valor))
  {
    DigitsAscii(NatToText(c.id));
    AsciiUnaffected(NatToText(c.id));
    IsoDateAscii(c.vencimento);
    AsciiUnaffected(IsoDate(c.vencimento));
    FormatCentsAscii(c.valor);
    AsciiUnaffected(FormatCents(c.valor));
  }

  /** The name of a status, as the `situacaoConta` relation gives it; the exports
      require the status of every filtered account to resolve (Resolved), so the
      empty name is never used. */
  function StatusName(situacoes: map<int, string>, id: int): string {
    if id in situacoes then situacoes[id] else ""
  }

  /** Every account of the sequence has a status the relation resolves. */
  predicate Resolved(store: seq<Conta>, situacoes: map<int, string>) {
    forall c :: c in store ==> c.situacaoContaId in situacoes
  }

  /** The accounts a query returns are the filtered ones, so their statuses resolve
      when those of the filtered accounts do. */
  lemma ResolvedQuery(req: Request, store: seq<Conta>, o: Order, situacoes: map<int, string>)
    requires Resolved(Filter(req, store), situacoes)
    ensures Resolved(Query(req, store, o), situacoes)
  {
    var contas := Query(req, store, o);
    forall c | c in contas ensures c.situacaoContaId in situacoes {
      assert c in multiset(contas);
      assert c in Filter(req, store) by { assert c in multiset(Filter(req, store)); }
    }
  }

  /** The last CSV record: four empty fields, then the formatted total. */
  function CsvFooter(total: nat): (r: CsvRecord)
    ensures |r| == 5
  {
    [[], [], [], [], Utf8(FormatCents(total))]
  }

  /** The record of each account, as a function. */
  function CsvLine(situacoes: map<int, string>): Conta -> CsvRecord {
    c => CsvRow(c, situacoes)
  }

  /** The writing loop of `gerarCsv`: the header, one record per account in the
      order given, then the footer with the total. */
  method WriteCsv(contas: seq<Conta>, total: nat, situacoes: map<int, string>) returns (rows: seq<CsvRecord>)
    ensures rows == Written(CsvHeader(), CsvLine(situacoes), contas) + [CsvFooter(total)]
  {
    rows := [CsvHeader()];
    for i := 0 to |contas|
      invariant rows == Written(CsvHeader(), CsvLine(situacoes), contas[..i])
    {
      WrittenStep(CsvHeader(), CsvLine(situacoes), contas, i);
      rows := rows + [CsvRow(contas[i], situacoes)];
    }
    assert contas[..|contas|] == contas;
    rows := rows + [CsvFooter(total)];
  }

  /** `gerarCsv`: the records written to the file for the accounts of the query in
      due-date order, the footer carrying the total of exactly the filtered ones. */
  method GerarCsv(req: Request, store: seq<Conta>, situacoes: map<int, string>) returns (rows: seq<CsvRecord>)
    requires Resolved(Filter(req, store), situacoes)
    ensures Resolved(Query(req, store, VencimentoAsc), situacoes)
    ensures var contas := Query(req, store, VencimentoAsc);
      |rows| == |contas| + 2 &&
      rows[0] == CsvHeader() &&
      (forall i :: 0 <= i < |contas| ==> rows[i + 1] == CsvRow(contas[i], situacoes)) &&
      rows[|rows| - 1] == CsvFooter(TotalWhere(req, store))
  {
    var contas := Query(req, store, VencimentoAsc);
    ResolvedQuery(req, store, VencimentoAsc, situacoes);
    QueryTotal(req, store, VencimentoAsc);
    rows := WriteCsv(contas, Total(contas), situacoes);
    WrittenLength(CsvHeader(), CsvLine(situacoes), contas);
    forall i | 0 <= i < |contas| ensures rows[i + 1] == CsvRow(contas[i], situacoes) {
      WrittenAt(CsvHeader(), CsvLine(situacoes), contas, i);
    }
  }

  /** A Word table cell: its width in twips, its text, and whether it carries the
      black 6-point border style. */
  datatype Cell = Cell(width: nat, text: string, bordered: bool)

  const CellWidth: nat := 2000

  function Bordered(text: string): Cell {
    Cell(CellWidth, text, true)
  }

  function Borderless(text: string): Cell {
    Cell(CellWidth, text, false)
  }

  function WordHeader(): (r: seq<Cell>)
    ensures |r| == 5 && AllBordered(r)
  {
    [Bordered("id"), Bordered("Nome"), Bordered("Vencimento"), Bordered(SituacaoLabel), Bordered("Valor")]
  }

  /** One account as a table row: the due date as 'd/m/Y', no transcoding. */
  function WordRow(c: Conta, situacoes: map<int, string>): (r: seq<Cell>)
    ensures |r| == 5 && AllBordered(r)
  {
    [Bordered(NatToText(c.id)), Bordered(c.nome), Bordered(BrDate(c.vencimento)),
     Bordered(StatusName(situacoes, c.situacaoContaId)), Bordered(FormatCents(c.valor))]
  }

  predicate AllBordered(row: seq<Cell>) {
    forall j :: 0 <= j < |row| ==> row[j].width == CellWidth && row[j].bordered
  }

  /** The footer row: four borderless empty cells, then the bordered total. */
  function WordFooter(total: nat): seq<Cell> {
    [Borderless(""), Borderless(""), Borderless(""), Borderless(""), Bordered(FormatCents(total))]
  }

  /** Both exports end with the same footer: four empty cells, then the total
      formatted once by number_format. */
  lemma FootersAgree(total: nat)
    ensures CsvFooter(total)[..4] == [[], [], [], []]
    ensures forall j :: 0 <= j < 4 ==> WordFooter(total)[j].text == ""
    ensures WordFooter(total)[4].text == FormatCents(total)
    ensures CsvFooter(total)[4] == Utf8(WordFooter(total)[4].text)
  {
  }

  /** Every row of the table has five cells of the fixed width, and every cell is
      bordered except the first four of the last row. */
  predicate BorderLayout(table: seq<seq<Cell>>) {
    (forall k :: 0 <= k < |table| ==> |table[k]| == 5) &&
    forall k, j :: 0 <= k < |table| && 0 <= j < |table[k]| ==>
      table[k][j].width == CellWidth && (table[k][j].bordered <==> k < |table| - 1 || j == 4)
  }

  /** Under a body of fully bordered rows, the footer's total is the only bordered
      cell of the last row. */
  lemma FooterOnlyBordersTotal(body: seq<seq<Cell>>, total: nat)
    requires forall k :: 0 <= k < |body| ==> |body[k]| == 5 && AllBordered(body[k])
    ensures BorderLayout(body + [WordFooter(total)])
  {
    var table: seq<seq<Cell>> := body + [WordFooter(total)];
    forall k, j | 0 <= k < |table| && 0 <= j < |table[k]|
      ensures table[k][j].width == CellWidth && (table[k][j].bordered <==> k < |table| - 1 || j == 4)
    {
      if k < |body| {
        assert table[k] == body[k];
      }
    }
  }

  /** The row of each account, as a function. */
  function WordLine(situacoes: map<int, string>): Conta -> seq<Cell> {
    c => WordRow(c, situacoes)
  }

  /** Header and account rows have five bordered cells each. */
  lemma WrittenBordered(contas: seq<Conta>, situacoes: map<int, string>)
    ensures var body := Written(WordHeader(), WordLine(situacoes), contas);
      forall k :: 0 <= k < |body| ==> |body[k]| == 5 && AllBordered(body[k])
  {
    var body := Written(WordHeader(), WordLine(situacoes), contas);
    WrittenLength(WordHeader(), WordLine(situacoes), contas);
    forall k | 0 <= k < |body| ensures |body[k]| == 5 && AllBordered(body[k]) {
      if k > 0 {
        WrittenAt(WordHeader(), WordLine(situacoes), contas, k - 1);
        assert body[k] == WordRow(contas[k - 1], situacoes);
      }
    }
  }

  /** The writing loop of `gerarWord`: the header, one bordered row per account in
      the order given, then the footer. */
  method WriteWord(contas: seq<Conta>, total: nat, situacoes: map<int, string>) returns (table: seq<seq<Cell>>)
    ensures table == Written(WordHeader(), WordLine(situacoes), contas) + [WordFooter(total)]
  {
    table := [WordHeader()];
    for i := 0 to |contas|
      invariant table == Written(WordHeader(), WordLine(situacoes), contas[..i])
    {
      WrittenStep(WordHeader(), WordLine(situacoes), contas, i);
      table := table + [WordRow(contas[i], situacoes)];
    }
    assert contas[..|contas|] == contas;
    table := table + [WordFooter(total)];
  }

  /** `gerarWord`: the table for the accounts of the query in due-date order, the
      footer carrying the total of exactly the filtered ones; every cell is bordered
      except the first four of the footer. */
  method GerarWord(req: Request, store: seq<Conta>, situacoes: map<int, string>) returns (table: seq<seq<Cell>>)
    requires Resolved(Filter(req, store), situacoes)
    ensures Resolved(Query(req, store, VencimentoAsc), situacoes)
    ensures var contas := Query(req, store, VencimentoAsc);
      |table| == |contas| + 2 &&
      table[0] == WordHeader() &&
      (forall i :: 0 <= i < |contas| ==> table[i + 1] == WordRow(contas[i], situacoes)) &&
      table[|table| - 1] == WordFooter(TotalWhere(req, store))
    ensures BorderLayout(table)
  {
    var contas := Query(req, store, VencimentoAsc);
    ResolvedQuery(req, store, VencimentoAsc, situacoes);
    QueryTotal(req, store, VencimentoAsc);
    table := WriteWord(contas, Total(contas), situacoes);
    WrittenLength(WordHeader(), WordLine(situacoes), contas);
    forall i | 0 <= i < |contas| ensures table[i + 1] == WordRow(contas[i], situacoes) {
      WrittenAt(WordHeader(), WordLine(situacoes), contas, i);
    }
    WrittenBordered(contas, situacoes);
    FooterOnlyBordersTotal(Written(WordHeader(), WordLine(situacoes), contas), Total(contas));
  }

  /** The data `gerarPdf` hands to its template. */
  datatype ReportData = ReportData(contas: seq<Conta>, total: nat)

  function PdfData(req: Request, store: seq<Conta>): (d: ReportData)
    ensures Sorted(CreatedAtDesc, d.contas)
    ensures forall c :: c in d.contas <==> c in store && Matches(req, c)
    ensures multiset(d.contas) == multiset(Query(req, store, VencimentoAsc))
    ensures d.total == TotalWhere(req, store)
  {
    var contas := Query(req, store, CreatedAtDesc);
    QueryTotal(req, store, CreatedAtDesc);
    ReportData(contas, Total(contas))
  }
}
