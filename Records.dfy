/**
 * The record normalisation of normalize_coletas and normalize_entregas:
 * raw spreadsheet rows become display records whose dates carry a sentinel
 * text when they are missing, whose OS number carries one when it is blank,
 * and (for deliveries) whose route label is built with nulls as "" and every
 * whitespace run collapsed.
 */
module Records {
  import opened Wrappers
  import opened Text
  import opened Resolve

  // ---------------------------------------------------------------------------
  // Timestamps and days
  // ---------------------------------------------------------------------------

  /** A pandas timestamp: nanoseconds since 1970-01-01 00:00 (datetime64[ns]). */
  type Timestamp = int

  /** A calendar date, counted in days since 1970-01-01. */
  type Day = int

  const NanosPerDay: int := 86_400_000_000_000

  /** pd.Timestamp(d) for a date d: the first instant of that day. */
  function DayStart(d: Day): Timestamp {
    d * NanosPerDay
  }

  /** .date() of a timestamp: the day it falls on, rounding towards the past. */
  function DayOf(t: Timestamp): (d: Day)
    ensures DayStart(d) <= t < DayStart(d + 1)
  {
    t / NanosPerDay
  }

  /** Later days start later. */
  lemma DayStartMonotonic(d: Day, e: Day)
    ensures d <= e ==> DayStart(d) <= DayStart(e)
  {
    if d <= e {
      assert DayStart(e) == DayStart(d) + (e - d) * NanosPerDay;
    }
  }

  /** A timestamp lies on day d exactly when it is between that day's midnight and the next. */
  lemma DayOfIff(t: Timestamp, d: Day)
    ensures DayOf(t) == d <==> DayStart(d) <= t < DayStart(d + 1)
  {
    DayStartMonotonic(DayOf(t) + 1, d);
    DayStartMonotonic(d + 1, DayOf(t));
  }

  /** .date() is monotonic. */
  lemma DayOfMonotonic(t: Timestamp, u: Timestamp)
    requires t <= u
    ensures DayOf(t) <= DayOf(u)
  {
    DayStartMonotonic(DayOf(u) + 1, DayOf(t));
  }

  // ---------------------------------------------------------------------------
  // Cells and rows
  // ---------------------------------------------------------------------------

  /** A spreadsheet cell as pandas hands it over: its text, or null (NaN, NaT, <NA>). */
  type Cell = Option<string>

  /** A raw row: the cells of one spreadsheet line, by real column name. */
  type Row = map<string, Cell>

  /** The cell of a row in a column; a column the row lacks reads as null. */
  function Get(row: Row, col: string): Cell {
    if col in row then row[col] else None
  }

  /** fillna(""): a null cell reads as the empty text. */
  function FillNa(cell: Cell): string {
    match cell
    case None => ""
    case Some(s) => s
  }

  /**
   * pd.to_datetime(errors="coerce") on one cell: a null cell is NaT and so is
   * a text the parser rejects. parse stands for the library's date parser.
   */
  function ToDt(cell: Cell, parse: string -> Option<Timestamp>): Option<Timestamp> {
    match cell
    case None => None
    case Some(s) => parse(s)
  }

  // ---------------------------------------------------------------------------
  // Display dates
  // ---------------------------------------------------------------------------

  /** The shape of strftime("%Y-%m-%d"): four digits, '-', two digits, '-', two digits. */
  predicate IsDateText(s: string) {
    |s| == 10 && s[4] == '-' && s[7] == '-' &&
    forall i :: 0 <= i < 10 && i != 4 && i != 7 ==> '0' <= s[i] <= '9'
  }

  /** fmt formats every timestamp as a "YYYY-MM-DD" text, as strftime does. */
  ghost predicate FormatsDates(fmt: Timestamp -> string) {
    forall t :: IsDateText(fmt(t))
  }

  const NaoColetado: string := "Material não coletado"
  const NaoEntregue: string := "Não entregue"
  const SemOs: string := "Sem número de OS"

  lemma NaoColetadoNotDate()
    ensures !IsDateText(NaoColetado)
  {
  }

  lemma NaoEntregueNotDate()
    ensures !IsDateText(NaoEntregue)
  {
  }

  /**
   * dt.strftime("%Y-%m-%d").where(~dt.isna(), sentinel) on one value: the
   * formatted date when there is one, and the sentinel exactly when there is
   * none (a formatted date never looks like the sentinel).
   */
  function DateText(dt: Option<Timestamp>, fmt: Timestamp -> string, sentinel: string): (r: string)
    requires FormatsDates(fmt) && !IsDateText(sentinel)
    ensures r == sentinel <==> dt.None?
    ensures dt.Some? ==> r == fmt(dt.value)
  {
    match dt
    case None => sentinel
    case Some(t) => fmt(t)
  }

  // ---------------------------------------------------------------------------
  // OS number
  // ---------------------------------------------------------------------------

  /** The OS test of normalize_coletas: null, or empty after str.strip(). */
  predicate Blank(cell: Cell) {
    cell.None? || Strip(cell.value) == ""
  }

  /** The OS sentinel starts with a letter, so it is never blank. */
  lemma SemOsStartsWithLetter()
    ensures SemOs[0] == 'S'
  {
  }

  /**
   * The OS display: "Sem número de OS" for a null or blank OS number, the raw
   * text unchanged otherwise. The display is never blank, and it reads as the
   * sentinel exactly when the OS was blank or was already that very text.
   */
  function OsText(cell: Cell): (r: string)
    ensures Blank(cell) <==> cell.None? || AllSpace(cell.value)
    ensures Blank(cell) ==> r == SemOs
    ensures !Blank(cell) ==> r == cell.value
    ensures r == SemOs <==> Blank(cell) || cell == Some(SemOs)
    ensures !AllSpace(r)
  {
    StripEmptyIff(FillNa(cell));
    SemOsStartsWithLetter();
    if Blank(cell) then SemOs else cell.value
  }

  // ---------------------------------------------------------------------------
  // Route label
  // ---------------------------------------------------------------------------

  /** Splitting a word between whitespace gives that word alone. */
  lemma SplitPadded(pre: string, w: string, post: string)
    requires AllSpace(pre) && IsWord(w) && AllSpace(post)
    ensures Split(pre + w + post) == [w]
  {
    SplitEmptyIff(pre);
    SplitEmptyIff(post);
    SplitWord(w);
    assert post == [] || IsSpace(post[0]);
    SplitAppend(w, post);
    assert pre == [] || IsSpace(pre[|pre| - 1]);
    SplitAppend(pre, w + post);
    assert pre + w + post == pre + (w + post);
  }

  /** The separators of the label, each a single non-space character between spaces. */
  lemma SeparatorSplit(c: char, pad: string)
    requires !IsSpace(c) && AllSpace(pad)
    ensures Split(pad + [c] + pad) == [[c]]
  {
    SplitPadded(pad, [c], pad);
  }

  /** Joining a text onto a separator with whitespace at the seam splits into both parts' words. */
  lemma SplitSeam(x: string, pad: string, c: char, y: string)
    requires pad != [] && AllSpace(pad) && !IsSpace(c)
    ensures Split(x + (pad + [c] + pad) + y) == Split(x) + [[c]] + Split(y)
  {
    var sep := pad + [c] + pad;
    SeparatorSplit(c, pad);
    SplitAppend(x, sep);
    SplitAppend(x + sep, y);
  }

  const Arrow: char := '→'

  /**
   * The ORIGEM → DESTINO label of normalize_entregas: the four parts, nulls
   * as "", joined by " / ", "  →  " and " / ", then every whitespace run
   * replaced by one space and the ends stripped. It is the words of the parts
   * and of the separators joined by single spaces, so it is single-spaced
   * however the parts are spaced and whichever of them are null.
   */
  function OrigemDestino(cidadeOrigem: Cell, ufOrigem: Cell, cidadeDestino: Cell, ufDestino: Cell): (r: string)
    ensures r == Join(Split(FillNa(cidadeOrigem)) + ["/"] + Split(FillNa(ufOrigem)) + [[Arrow]] +
      Split(FillNa(cidadeDestino)) + ["/"] + Split(FillNa(ufDestino)), " ")
    ensures SingleSpaced(r)
  {
    var a, b, c, d := FillNa(cidadeOrigem), FillNa(ufOrigem), FillNa(cidadeDestino), FillNa(ufDestino);
    var s := a + " / " + b + "  →  " + c + " / " + d;
    LabelSplit(a, b, c, d);
    CollapseIsJoinSplit(s);
    var words := Split(a) + ["/"] + Split(b) + [[Arrow]] + Split(c) + ["/"] + Split(d);
    LabelWords(a, b, c, d);
    JoinSingleSpaced(words);
    Strip(ReplaceSpaceRuns(s))
  }

  /** The words of the assembled label text. */
  lemma LabelSplit(a: string, b: string, c: string, d: string)
    ensures Split(a + " / " + b + "  →  " + c + " / " + d) ==
      Split(a) + ["/"] + Split(b) + [[Arrow]] + Split(c) + ["/"] + Split(d)
  {
    var slash, arrow := " " + ['/'] + " ", "  " + [Arrow] + "  ";
    assert slash == " / " && arrow == "  →  ";
    SplitSeam(a, " ", '/', b);
    SplitSeam(a + slash + b, "  ", Arrow, c);
    SplitSeam(a + slash + b + arrow + c, " ", '/', d);
    assert ['/'] == "/";
  }

  /** Concatenating word lists gives a word list. */
  lemma AllWordsConcat(xs: seq<string>, ys: seq<string>)
    requires AllWords(xs) && AllWords(ys)
    ensures AllWords(xs + ys)
  {
    forall i | 0 <= i < |xs + ys| ensures IsWord((xs + ys)[i]) {
      if i >= |xs| {
        assert (xs + ys)[i] == ys[i - |xs|];
      }
    }
  }

  /** Every entry of the label's word list is a word. */
  lemma LabelWords(a: string, b: string, c: string, d: string)
    ensures AllWords(Split(a) + ["/"] + Split(b) + [[Arrow]] + Split(c) + ["/"] + Split(d))
  {
    var slash, arrow: seq<string> := ["/"], [[Arrow]];
    assert IsWord(slash[0]) && IsWord(arrow[0]);
    SplitWords(a);
    SplitWords(b);
    SplitWords(c);
    SplitWords(d);
    AllWordsConcat(Split(a), slash);
    AllWordsConcat(Split(a) + slash, Split(b));
    AllWordsConcat(Split(a) + slash + Split(b), arrow);
    AllWordsConcat(Split(a) + slash + Split(b) + arrow, Split(c));
    AllWordsConcat(Split(a) + slash + Split(b) + arrow + Split(c), slash);
    AllWordsConcat(Split(a) + slash + Split(b) + arrow + Split(c) + slash, Split(d));
  }

  /** The label's separators joined by single spaces. */
  lemma SeparatorsJoined()
    ensures Join(["/", [Arrow], "/"], " ") == "/ → /"
  {
    var ws: seq<string> := ["/", [Arrow], "/"];
    assert ws[1..] == [[Arrow], "/"] && ws[1..][1..] == ["/"];
    assert Join(ws[1..], " ") == [Arrow] + " " + "/";
  }

  /** A delivery with none of the four parts filled in is labelled "/ → /". */
  lemma OrigemDestinoOfNulls(cidadeOrigem: Cell, ufOrigem: Cell, cidadeDestino: Cell, ufDestino: Cell)
    requires cidadeOrigem.None? && ufOrigem.None? && cidadeDestino.None? && ufDestino.None?
    ensures OrigemDestino(cidadeOrigem, ufOrigem, cidadeDestino, ufDestino) == "/ → /"
  {
    var none: string := FillNa(cidadeOrigem);
    assert Split(none) == [];
    assert [] + ["/"] + [] + [[Arrow]] + [] + ["/"] + [] == ["/", [Arrow], "/"];
    SeparatorsJoined();
  }

  // ---------------------------------------------------------------------------
  // Column tables
  // ---------------------------------------------------------------------------

  const CidadeOrigem: string := "CIDADE_ORIGEM"
  const CidadeDestino: string := "CIDADE_DESTINO"
  const Dtm: string := "DTM"
  const EmpresaOrigem: string := "EMPRESA_ORIGEM"
  const Os: string := "OS"
  const DataColeta: string := "DATA_COLETA"
  const NivelServico: string := "NIVEL_SERVICO"
  const UfOrigem: string := "UF_ORIGEM"
  const UfDestino: string := "UF_DESTINO"
  const EmpresaDestino: string := "EMPRESA_DESTINO"
  const PrevEntrega: string := "PREV_ENTREGA"
  const DataEntrega: string := "DATA_ENTREGA"
  const Embarque: string := "EMBARQUE"
  const Cte: string := "CTE"

  const NivelServicoSpellings: seq<string> :=
    ["NIVEL DE SERVIÇO", "NÍVEL DE SERVIÇO", "NIVEL DE SERVICO", "NIVEL SERVICO"]

  /** The canonical columns of the coletas sheet and their accepted spellings. */
  const ColetasMapping: Mapping := [
    (CidadeOrigem, ["CIDADE ORIGEM"]),
    (CidadeDestino, ["CIDADE DESTINO"]),
    (Dtm, ["DTM"]),
    (EmpresaOrigem, ["EMPRESA ORIGEM"]),
    (Os, ["OS"]),
    (DataColeta, ["DATA COLETA", "DATA DE COLETA"]),
    (NivelServico, NivelServicoSpellings),
    (UfOrigem, ["UF ORIGEM"])
  ]

  /** The canonical columns of the entregas sheet and their accepted spellings. */
  const EntregasMapping: Mapping := [
    (CidadeOrigem, ["CIDADE ORIGEM"]),
    (UfOrigem, ["UF ORIGEM"]),
    (CidadeDestino, ["CIDADE DESTINO"]),
    (UfDestino, ["UF DESTINO"]),
    (Dtm, ["DTM"]),
    (NivelServico, NivelServicoSpellings),
    (EmpresaDestino, ["EMPRESA DESTINO"]),
    (PrevEntrega, ["PREVISÃO DE ENTREGA", "PREVISAO DE ENTREGA", "PREVISAO ENTREGA", "PREVISÃO ENTREGA"]),
    (DataEntrega, ["DATA DE ENTREGA", "DATA ENTREGA"]),
    (Embarque, ["EMBARQUE"]),
    (Cte, ["CTE"])
  ]

  /** The canonical names of the COLETAS table, position by position. */
  lemma ColetasNames()
    ensures ColetasMapping[0].0 == CidadeOrigem && ColetasMapping[1].0 == CidadeDestino
    ensures ColetasMapping[2].0 == Dtm && ColetasMapping[3].0 == EmpresaOrigem
    ensures ColetasMapping[4].0 == Os && ColetasMapping[5].0 == DataColeta
    ensures ColetasMapping[6].0 == NivelServico && ColetasMapping[7].0 == UfOrigem
  {
  }

  /** The canonical names of the ENTREGAS table, position by position. */
  lemma EntregasNames()
    ensures EntregasMapping[0].0 == CidadeOrigem && EntregasMapping[1].0 == UfOrigem
    ensures EntregasMapping[2].0 == CidadeDestino && EntregasMapping[3].0 == UfDestino
    ensures EntregasMapping[4].0 == Dtm && EntregasMapping[5].0 == NivelServico
    ensures EntregasMapping[6].0 == EmpresaDestino && EntregasMapping[7].0 == PrevEntrega
    ensures EntregasMapping[8].0 == DataEntrega && EntregasMapping[9].0 == Embarque
    ensures EntregasMapping[10].0 == Cte
  {
  }

  // ---------------------------------------------------------------------------
  // Coletas
  // ---------------------------------------------------------------------------

  /** One row of the normalised coletas table. */
  datatype Coleta = Coleta(
    cidadeOrigem: Cell,
    cidadeDestino: Cell,
    dtm: Cell,
    empresaOrigem: Cell,
    os: string,
    dataColeta: string,
    nivelServico: Cell,
    ufOrigem: Cell,
    dataColetaDt: Option<Timestamp>)

  /** What normalisation guarantees of a pickup: its display fields agree with its date and OS. */
  ghost predicate ColetaDisplayed(c: Coleta) {
    (c.dataColeta == NaoColetado <==> c.dataColetaDt.None?) && !AllSpace(c.os)
  }

  /** normalize_coletas on one row, given the resolved columns. */
  function NormalizeColeta(row: Row, cols: map<string, string>, parse: string -> Option<Timestamp>,
                           fmt: Timestamp -> string): (c: Coleta)
    requires Covers(cols, ColetasMapping) && FormatsDates(fmt)
    ensures (ColetasNames(); c.dataColetaDt == ToDt(Get(row, cols[DataColeta]), parse))
    ensures c.dataColeta == NaoColetado <==> c.dataColetaDt.None?
    ensures c.dataColetaDt.Some? ==> c.dataColeta == fmt(c.dataColetaDt.value)
    ensures c.os == OsText(Get(row, cols[Os]))
    ensures c.cidadeOrigem == Get(row, cols[CidadeOrigem]) && c.cidadeDestino == Get(row, cols[CidadeDestino])
    ensures c.dtm == Get(row, cols[Dtm]) && c.empresaOrigem == Get(row, cols[EmpresaOrigem])
    ensures c.nivelServico == Get(row, cols[NivelServico]) && c.ufOrigem == Get(row, cols[UfOrigem])
    ensures ColetaDisplayed(c)
  {
    ColetasNames();
    NaoColetadoNotDate();
    var dt := ToDt(Get(row, cols[DataColeta]), parse);
    Coleta(
      Get(row, cols[CidadeOrigem]),
      Get(row, cols[CidadeDestino]),
      Get(row, cols[Dtm]),
      Get(row, cols[EmpresaOrigem]),
      OsText(Get(row, cols[Os])),
      DateText(dt, fmt, NaoColetado),
      Get(row, cols[NivelServico]),
      Get(row, cols[UfOrigem]),
      dt)
  }

  /** normalize_coletas: every row normalised, in the same order. */
  function NormalizeColetas(rows: seq<Row>, cols: map<string, string>, parse: string -> Option<Timestamp>,
                            fmt: Timestamp -> string): (out: seq<Coleta>)
    requires Covers(cols, ColetasMapping) && FormatsDates(fmt)
    ensures |out| == |rows|
    ensures forall i :: 0 <= i < |rows| ==> out[i] == NormalizeColeta(rows[i], cols, parse, fmt)
    ensures forall i :: 0 <= i < |out| ==> ColetaDisplayed(out[i])
  {
    seq(|rows|, i requires 0 <= i < |rows| => NormalizeColeta(rows[i], cols, parse, fmt))
  }

  // ---------------------------------------------------------------------------
  // Entregas
  // ---------------------------------------------------------------------------

  /** One row of the normalised entregas table. */
  datatype Entrega = Entrega(
    origemDestino: string,
    dtm: Cell,
    nivelServico: Cell,
    empresaDestino: Cell,
    dataEntrega: string,
    embarque: Cell,
    cte: Cell,
    ufDestino: Cell,
    cidadeDestino: Cell,
    prevEntregaDt: Option<Timestamp>)

  /** What normalisation guarantees of a delivery: a single-spaced route label. */
  ghost predicate EntregaDisplayed(e: Entrega) {
    SingleSpaced(e.origemDestino)
  }

  /** normalize_entregas on one row, given the resolved columns. */
  function NormalizeEntrega(row: Row, cols: map<string, string>, parse: string -> Option<Timestamp>,
                            fmt: Timestamp -> string): (e: Entrega)
    requires Covers(cols, EntregasMapping) && FormatsDates(fmt)
    ensures (EntregasNames(); e.prevEntregaDt == ToDt(Get(row, cols[PrevEntrega]), parse))
    ensures e.dataEntrega == NaoEntregue <==> ToDt(Get(row, cols[DataEntrega]), parse).None?
    ensures ToDt(Get(row, cols[DataEntrega]), parse).Some? ==>
      e.dataEntrega == fmt(ToDt(Get(row, cols[DataEntrega]), parse).value)
    ensures e.origemDestino == OrigemDestino(Get(row, cols[CidadeOrigem]), Get(row, cols[UfOrigem]),
      Get(row, cols[CidadeDestino]), Get(row, cols[UfDestino]))
    ensures e.dtm == Get(row, cols[Dtm]) && e.nivelServico == Get(row, cols[NivelServico])
    ensures e.empresaDestino == Get(row, cols[EmpresaDestino])
    ensures e.embarque == Get(row, cols[Embarque]) && e.cte == Get(row, cols[Cte])
    ensures e.ufDestino == Get(row, cols[UfDestino]) && e.cidadeDestino == Get(row, cols[CidadeDestino])
    ensures EntregaDisplayed(e)
  {
    EntregasNames();
    NaoEntregueNotDate();
    Entrega(
      OrigemDestino(Get(row, cols[CidadeOrigem]), Get(row, cols[UfOrigem]),
        Get(row, cols[CidadeDestino]), Get(row, cols[UfDestino])),
      Get(row, cols[Dtm]),
      Get(row, cols[NivelServico]),
      Get(row, cols[EmpresaDestino]),
      DateText(ToDt(Get(row, cols[DataEntrega]), parse), fmt, NaoEntregue),
      Get(row, cols[Embarque]),
      Get(row, cols[Cte]),
      Get(row, cols[UfDestino]),
      Get(row, cols[CidadeDestino]),
      ToDt(Get(row, cols[PrevEntrega]), parse))
  }

  /** normalize_entregas: every row normalised, in the same order. */
  function NormalizeEntregas(rows: seq<Row>, cols: map<string, string>, parse: string -> Option<Timestamp>,
                             fmt: Timestamp -> string): (out: seq<Entrega>)
    requires Covers(cols, EntregasMapping) && FormatsDates(fmt)
    ensures |out| == |rows|
    ensures forall i :: 0 <= i < |rows| ==> out[i] == NormalizeEntrega(rows[i], cols, parse, fmt)
    ensures forall i :: 0 <= i < |out| ==> EntregaDisplayed(out[i])
  {
    seq(|rows|, i requires 0 <= i < |rows| => NormalizeEntrega(rows[i], cols, parse, fmt))
  }
}
