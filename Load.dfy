/**
 * The start of the dashboard script: the sheet check of read_excel with
 * norm_key, the two ensure_cols calls that resolve the coletas and entregas
 * columns (each stopping the page on a missing column), and the two
 * normalisations. The workbook is given as its sheet names, in workbook
 * order, and the header and rows of each sheet.
 */
module Load {
  import opened Wrappers
  import opened Keys
  import opened Resolve
  import opened Records

  /**
   * The sheet check of read_excel, with norm_key as the key: the required
   * sheets whose key no sheet has, in REQUIRED_SHEETS order, or the real
   * names of the coletas and entregas sheets.
   */
  function ReadSheets(sheetNames: seq<string>): (r: Result<(string, string), seq<string>>)
    ensures r.Failure? <==> !HasKey(Key, sheetNames, Coletas) || !HasKey(Key, sheetNames, Entregas)
    ensures r.Failure? ==> (r.error ==
      (if HasKey(Key, sheetNames, Coletas) then [] else [Coletas]) +
      (if HasKey(Key, sheetNames, Entregas) then [] else [Entregas]))
    ensures r.Success? ==>
      (LastWithKey(Key, sheetNames, Coletas, r.value.0) && LastWithKey(Key, sheetNames, Entregas, r.value.1))
  {
    RequiredSheetKeys();
    CheckSheets(Key, sheetNames)
  }

  lemma ColetasCanonDistinct()
    ensures DistinctCanon(ColetasMapping)
  {
  }

  lemma EntregasCanonDistinct()
    ensures DistinctCanon(EntregasMapping)
  {
  }

  /** One sheet of the workbook: its header row and its data rows. */
  datatype Sheet = Sheet(header: seq<string>, rows: seq<Row>)

  /** Why the page stops: missing sheets, or missing columns in one table. */
  datatype LoadError =
    | MissingSheets(sheets: seq<string>)
    | MissingColumns(context: string, columns: seq<string>)

  /**
   * Sheet check, column resolution for COLETAS, then for ENTREGAS, then the
   * two normalisations; the first check that fails stops everything after it.
   */
  method LoadTables(names: seq<string>, book: map<string, Sheet>,
                    parse: string -> Option<Timestamp>, fmt: Timestamp -> string)
    returns (r: Result<(seq<Coleta>, seq<Entrega>), LoadError>)
    requires forall i :: 0 <= i < |names| ==> names[i] in book
    requires FormatsDates(fmt)
    ensures (r.Failure? && r.error.MissingSheets?) <==> ReadSheets(names).Failure?
    ensures r.Failure? && r.error.MissingSheets? ==> r.error.sheets == ReadSheets(names).error
    ensures r.Failure? && r.error.MissingColumns? ==> (ReadSheets(names).Success? &&
      var (cn, en) := ReadSheets(names).value;
      var cmiss, emiss := MissingCanon(Key, book[cn].header, ColetasMapping), MissingCanon(Key, book[en].header, EntregasMapping);
      ((r.error.context == "COLETAS" && r.error.columns == cmiss && cmiss != []) ||
       (r.error.context == "ENTREGAS" && cmiss == [] && r.error.columns == emiss && emiss != [])))
    ensures r.Success? ==> (ReadSheets(names).Success? &&
      var (cn, en) := ReadSheets(names).value;
      MissingCanon(Key, book[cn].header, ColetasMapping) == [] &&
      MissingCanon(Key, book[en].header, EntregasMapping) == [] &&
      |r.value.0| == |book[cn].rows| && |r.value.1| == |book[en].rows| &&
      (exists cc :: Resolved(Key, book[cn].header, ColetasMapping, cc) && Covers(cc, ColetasMapping) &&
        r.value.0 == NormalizeColetas(book[cn].rows, cc, parse, fmt)) &&
      (exists ec :: Resolved(Key, book[en].header, EntregasMapping, ec) && Covers(ec, EntregasMapping) &&
        r.value.1 == NormalizeEntregas(book[en].rows, ec, parse, fmt)) &&
      (forall i :: 0 <= i < |r.value.0| ==> ColetaDisplayed(r.value.0[i])) &&
      (forall i :: 0 <= i < |r.value.1| ==> EntregaDisplayed(r.value.1[i])))
  {
    var sheets := ReadSheets(names);
    if sheets.Failure? {
      return Failure(MissingSheets(sheets.error));
    }
    var (cn, en) := sheets.value;
    LastWithKeyIn(Key, names, Coletas, cn);
    LastWithKeyIn(Key, names, Entregas, en);
    var coletasSheet, entregasSheet := book[cn], book[en];

    ColetasCanonDistinct();
    var coletasCols := EnsureCols(Key, coletasSheet.header, ColetasMapping);
    MissingCanonEmpty(Key, coletasSheet.header, ColetasMapping);
    if coletasCols.Failure? {
      return Failure(MissingColumns("COLETAS", coletasCols.error));
    }
    EntregasCanonDistinct();
    var entregasCols := EnsureCols(Key, entregasSheet.header, EntregasMapping);
    MissingCanonEmpty(Key, entregasSheet.header, EntregasMapping);
    if entregasCols.Failure? {
      return Failure(MissingColumns("ENTREGAS", entregasCols.error));
    }

    var coletas := NormalizeColetas(coletasSheet.rows, coletasCols.value, parse, fmt);
    var entregas := NormalizeEntregas(entregasSheet.rows, entregasCols.value, parse, fmt);
    return Success((coletas, entregas));
  }
}
