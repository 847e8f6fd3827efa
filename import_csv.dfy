/**
 * Validation of an uploaded spreadsheet before import (src/pages/ImportCSV.tsx, handleFileUpload):
 * empty sheet, then required columns of the first row, then rows with a blank required cell.
 * Reading the workbook is a foreign library: its result (or its failure) is a parameter.
 */
module ImportCsv {
  import opened Wrappers
  import opened Sequences
  import opened TextChecks

  /** A cell as the sheet reader yields it. */
  datatype Cell = Text(text: string) | Number(number: real) | Flag(flag: bool)

  /** A sheet row: column header to cell; an empty cell has no key at all. */
  type SheetRow = map<string, Cell>

  /** JavaScript falsiness of a cell value: "", 0 and false. */
  predicate Falsy(c: Cell)
  {
    match c
    case Text(s) => s == ""
    case Number(x) => x == 0.0
    case Flag(b) => !b
  }

  /** The negated cell test: the cell is absent or falsy. */
  predicate Blank(row: SheetRow, col: string)
  {
    col !in row || Falsy(row[col])
  }

  const RequiredColumns: seq<string> := ["description", "amount", "date", "category_name", "status"]

  /** A row the import refuses: one of the five required cells is blank. */
  predicate Incomplete(row: SheetRow)
  {
    Blank(row, "description") || Blank(row, "amount") || Blank(row, "date")
    || Blank(row, "category_name") || Blank(row, "status")
  }

  /** The columns of `cols` that are not keys of `row`, in the order of `cols`. */
  function AbsentColumns(cols: seq<string>, row: SheetRow): (r: seq<string>)
    ensures forall c :: c in r <==> c in cols && c !in row
    ensures KeepsOrder(r, cols)
  {
    if cols == [] then []
    else
      var rest := AbsentColumns(cols[1..], row);
      assert cols == [cols[0]] + cols[1..];
      assert forall c :: c in cols <==> c == cols[0] || c in cols[1..];
      if cols[0] in row then
        KeepsOrderSkip(rest, cols);
        rest
      else
        KeepsOrderCons(cols[0], rest, cols[1..]);
        [cols[0]] + rest
  }

  /** The required columns the first row has no key for, in the required order. */
  function MissingColumns(firstRow: SheetRow): seq<string>
  {
    AbsentColumns(RequiredColumns, firstRow)
  }

  /** The 1-based numbers of the incomplete rows among `sheet[from..]`, ascending. */
  function IncompleteFrom(sheet: seq<SheetRow>, from: nat): seq<nat>
    requires from <= |sheet|
    decreases |sheet| - from
  {
    if from == |sheet| then []
    else (if Incomplete(sheet[from]) then [from + 1] else []) + IncompleteFrom(sheet, from + 1)
  }

  /** The 1-based numbers of the incomplete rows, ascending. */
  function IncompleteRowNumbers(sheet: seq<SheetRow>): seq<nat>
  {
    IncompleteFrom(sheet, 0)
  }

  /** The listed numbers are exactly the incomplete rows, each once, ascending. */
  lemma {:induction false} IncompleteFromSpec(sheet: seq<SheetRow>, from: nat)
    requires from <= |sheet|
    ensures forall k :: k in IncompleteFrom(sheet, from) <==> from < k <= |sheet| && Incomplete(sheet[k - 1])
    ensures forall a, b :: 0 <= a < b < |IncompleteFrom(sheet, from)| ==>
      IncompleteFrom(sheet, from)[a] < IncompleteFrom(sheet, from)[b]
    decreases |sheet| - from
  {
    if from < |sheet| {
      IncompleteFromSpec(sheet, from + 1);
      var rest := IncompleteFrom(sheet, from + 1);
      var head := if Incomplete(sheet[from]) then [from + 1] else [];
      assert IncompleteFrom(sheet, from) == head + rest;
      forall a, b | 0 <= a < b < |head + rest|
        ensures (head + rest)[a] < (head + rest)[b]
      {
        if head != [] && a == 0 {
          assert (head + rest)[b] in rest;
        }
      }
    }
  }

  lemma IncompleteRowNumbersSpec(sheet: seq<SheetRow>)
    ensures forall k :: k in IncompleteRowNumbers(sheet) <==> 1 <= k <= |sheet| && Incomplete(sheet[k - 1])
    ensures forall a, b :: 0 <= a < b < |IncompleteRowNumbers(sheet)| ==>
      IncompleteRowNumbers(sheet)[a] < IncompleteRowNumbers(sheet)[b]
  {
    IncompleteFromSpec(sheet, 0);
  }

  /** The loop over the rows that records the 1-based number of every incomplete one. */
  method InvalidRows(sheet: seq<SheetRow>) returns (rows: seq<nat>)
    ensures rows == IncompleteRowNumbers(sheet)
  {
    rows := [];
    var index := 0;
    while index < |sheet|
      invariant 0 <= index <= |sheet|
      invariant rows + IncompleteFrom(sheet, index) == IncompleteRowNumbers(sheet)
    {
      if Incomplete(sheet[index]) {
        rows := rows + [index + 1];
      }
      assert IncompleteFrom(sheet, index) ==
        (if Incomplete(sheet[index]) then [index + 1] else []) + IncompleteFrom(sheet, index + 1);
      index := index + 1;
    }
    assert rows + [] == rows;
  }

  /** Why a sheet is refused. */
  datatype ImportError =
    | EmptySheet
    | MissingColumnsError(columns: seq<string>)
    | IncompleteRowsError(rows: seq<nat>)
    | Unreadable

  datatype Validation = Rejected(reason: ImportError) | Accepted(rows: seq<SheetRow>)

  /**
   * The checks of the reader's callback, in their order, each stopping the rest: an empty sheet
   * beats everything, missing columns (judged on the first row only, listed in the required
   * order) beat blank cells, and the blank-cell error lists exactly the incomplete rows.
   */
  function Validate(sheet: seq<SheetRow>): (r: Validation)
    ensures |sheet| == 0 <==> r == Rejected(EmptySheet)
    ensures |sheet| > 0 && (exists c :: c in RequiredColumns && c !in sheet[0]) ==>
      && r.Rejected? && r.reason.MissingColumnsError?
      && KeepsOrder(r.reason.columns, RequiredColumns)
      && (forall c :: c in r.reason.columns <==> c in RequiredColumns && c !in sheet[0])
    ensures (&& |sheet| > 0
             && (forall c :: c in RequiredColumns ==> c in sheet[0])
             && (exists i :: 0 <= i < |sheet| && Incomplete(sheet[i])))
      ==> r.Rejected? && r.reason.IncompleteRowsError?
    ensures r.Rejected? && r.reason.IncompleteRowsError? ==>
      && |sheet| > 0 && (forall c :: c in RequiredColumns ==> c in sheet[0])
      && (forall k :: k in r.reason.rows <==> 1 <= k <= |sheet| && Incomplete(sheet[k - 1]))
      && (forall a, b :: 0 <= a < b < |r.reason.rows| ==> r.reason.rows[a] < r.reason.rows[b])
    ensures r.Rejected? ==> !r.reason.Unreadable?
  {
    if |sheet| == 0 then Rejected(EmptySheet)
    else
      var missing := MissingColumns(sheet[0]);
      if |missing| > 0 then
        assert missing[0] in missing;
        Rejected(MissingColumnsError(missing))
      else
        var invalid := IncompleteRowNumbers(sheet);
        IncompleteRowNumbersSpec(sheet);
        assert forall i :: 0 <= i < |sheet| && Incomplete(sheet[i]) ==> i + 1 in invalid;
        if |invalid| > 0 then Rejected(IncompleteRowsError(invalid))
        else Accepted(sheet)
  }

  /**
   * A sheet is accepted exactly when it has a row, its first row has every required column and
   * no row has a blank required cell; an accepted sheet is imported unchanged.
   */
  lemma AcceptedIffComplete(sheet: seq<SheetRow>)
    ensures Validate(sheet).Accepted? <==>
      && |sheet| > 0
      && (forall c :: c in RequiredColumns ==> c in sheet[0])
      && (forall i :: 0 <= i < |sheet| ==> !Incomplete(sheet[i]))
    ensures Validate(sheet).Accepted? ==> Validate(sheet).rows == sheet
  {
    IncompleteRowNumbersSpec(sheet);
    if |sheet| > 0 && |MissingColumns(sheet[0])| == 0 && |IncompleteRowNumbers(sheet)| > 0 {
      var k := IncompleteRowNumbers(sheet)[0];
      assert k in IncompleteRowNumbers(sheet);
      assert Incomplete(sheet[k - 1]);
    }
    if |sheet| > 0 && |MissingColumns(sheet[0])| > 0 {
      assert MissingColumns(sheet[0])[0] in MissingColumns(sheet[0]);
    }
    if Validate(sheet).Accepted? {
      forall i | 0 <= i < |sheet| ensures !Incomplete(sheet[i]) {
        assert Incomplete(sheet[i]) ==> i + 1 in IncompleteRowNumbers(sheet);
      }
    }
  }

  // ---------------------------------------------------------------------------------------
  // The messages shown
  // ---------------------------------------------------------------------------------------

  /** The character of decimal digit `d`. */
  function DigitChar(d: nat): (c: char)
    requires d < 10
    ensures '0' <= c <= '9' && c as int - '0' as int == d
  {
    ('0' as int + d) as char
  }

  /** Decimal digits of a number, as string interpolation prints it: no leading zero. */
  function DecimalString(n: nat): (r: string)
    ensures |r| >= 1 && (r[0] == '0' ==> n == 0)
    ensures forall k :: 0 <= k < |r| ==> '0' <= r[k] <= '9'
  {
    if n < 10 then [DigitChar(n)] else DecimalString(n / 10) + [DigitChar(n % 10)]
  }

  /** The number a string of decimal digits denotes. */
  function DecimalValue(s: string): nat
  {
    if s == [] then 0
    else DecimalValue(s[..|s| - 1]) * 10 + (if '0' <= s[|s| - 1] <= '9' then s[|s| - 1] as int - '0' as int else 0)
  }

  /** Reading the printed digits back gives the number: no two counts print alike. */
  lemma {:induction false} DecimalRoundTrip(n: nat)
    ensures DecimalValue(DecimalString(n)) == n
  {
    if n >= 10 {
      DecimalRoundTrip(n / 10);
      var s := DecimalString(n);
      assert s[..|s| - 1] == DecimalString(n / 10);
    }
  }

  /** The row numbers as printed, one string per number, in order. */
  function NumbersToStrings(ns: seq<nat>): (r: seq<string>)
    ensures |r| == |ns| && forall k :: 0 <= k < |ns| ==> r[k] == DecimalString(ns[k])
  {
    if ns == [] then [] else [DecimalString(ns[0])] + NumbersToStrings(ns[1..])
  }

  function ErrorMessage(e: ImportError): string
  {
    match e
    case EmptySheet =>
      "A planilha está vazia. Por favor, adicione dados antes de importar."
    case MissingColumnsError(columns) =>
      "\U{274C} Colunas obrigatórias ausentes: " + Join(columns, ", ")
      + ". Verifique se a planilha contém todas as colunas necessárias conforme o exemplo abaixo."
    case IncompleteRowsError(rows) =>
      "⚠️ Dados incompletos encontrados nas linhas: " + Join(NumbersToStrings(rows), ", ")
      + ". Verifique se todas as células obrigatórias estão preenchidas."
    case Unreadable =>
      "\U{274C} Erro ao processar a planilha. Verifique se o arquivo está no formato correto (.xlsx ou .xls)."
  }

  /** The missing-columns message names every missing column. */
  lemma MissingColumnsNamed(columns: seq<string>)
    ensures forall c :: c in columns ==> Occurs(c, ErrorMessage(MissingColumnsError(columns)))
  {
    var prefix, suffix := "\U{274C} Colunas obrigatórias ausentes: ",
      ". Verifique se a planilha contém todas as colunas necessárias conforme o exemplo abaixo.";
    var joined := Join(columns, ", ");
    JoinShowsParts(columns, ", ");
    assert ErrorMessage(MissingColumnsError(columns)) == prefix + (joined + suffix);
    forall c | c in columns
      ensures Occurs(c, prefix + (joined + suffix))
    {
      var k :| 0 <= k < |columns| && columns[k] == c;
      OccursLeft(c, joined, suffix);
      OccursRight(c, prefix, joined + suffix);
    }
  }

  /** The incomplete-rows message prints the number of every incomplete row. */
  lemma IncompleteRowsNamed(rows: seq<nat>)
    ensures forall n :: n in rows ==> Occurs(DecimalString(n), ErrorMessage(IncompleteRowsError(rows)))
  {
    var prefix, suffix := "⚠️ Dados incompletos encontrados nas linhas: ",
      ". Verifique se todas as células obrigatórias estão preenchidas.";
    var printed := NumbersToStrings(rows);
    var joined := Join(printed, ", ");
    JoinShowsParts(printed, ", ");
    assert ErrorMessage(IncompleteRowsError(rows)) == prefix + (joined + suffix);
    forall n | n in rows
      ensures Occurs(DecimalString(n), prefix + (joined + suffix))
    {
      var k :| 0 <= k < |rows| && rows[k] == n;
      assert printed[k] == DecimalString(n);
      OccursLeft(DecimalString(n), joined, suffix);
      OccursRight(DecimalString(n), prefix, joined + suffix);
    }
  }

  function SuccessMessage(count: nat): string
  {
    "✅ Planilha carregada com sucesso! " + DecimalString(count) + " transações encontradas."
  }

  /** The success message prints the number of rows loaded, in digits that read back as that number. */
  lemma SuccessMessageCounts(count: nat)
    ensures Occurs(DecimalString(count), SuccessMessage(count))
    ensures DecimalValue(DecimalString(count)) == count
  {
    var prefix, digits, suffix := "✅ Planilha carregada com sucesso! ", DecimalString(count), " transações encontradas.";
    assert SuccessMessage(count) == prefix + (digits + suffix);
    assert Slice(digits, 0, |digits|) == digits;
    OccursLeft(digits, digits, suffix);
    OccursRight(digits, prefix, digits + suffix);
    DecimalRoundTrip(count);
  }

  /** The checks `handleFileUpload` makes, in its order, stopping at the first that fails. */
  method CheckSheet(sheetData: seq<SheetRow>) returns (verdict: Validation)
    ensures verdict == Validate(sheetData)
  {
    if |sheetData| == 0 {
      return Rejected(EmptySheet);
    }
    var missingColumns := MissingColumns(sheetData[0]);
    if |missingColumns| > 0 {
      return Rejected(MissingColumnsError(missingColumns));
    }
    var invalidRows := InvalidRows(sheetData);
    if |invalidRows| > 0 {
      return Rejected(IncompleteRowsError(invalidRows));
    }
    return Accepted(sheetData);
  }

  // ---------------------------------------------------------------------------------------
  // The page state
  // ---------------------------------------------------------------------------------------

  /**
   * How reading the chosen file ends: the reader reports an error (its load callback never
   * runs), the callback runs but reading the workbook throws, or the sheet's rows are produced.
   */
  datatype ReadResult = ReadFailed | ParseFailed | Parsed(sheet: seq<SheetRow>)

  class ImportPage {
    var data: Option<seq<SheetRow>>
    var error: Option<string>
    var success: Option<string>
    var isLoading: bool

    constructor ()
      ensures data == None && error == None && success == None && !isLoading
    {
      data, error, success, isLoading := None, None, None, false;
    }

    /** The state every refused upload ends in: the error shown, no data, loading over. */
    method ShowError(message: string)
      requires success == None
      modifies this
      ensures error == Some(message) && data == None && success == None && !isLoading
    {
      error, data, isLoading := Some(message), None, false;
    }

    /**
     * `handleFileUpload`. `fileChosen` is false when the input holds no file; `read` is how
     * reading the chosen file ends. Only the reader's load callback finishes the upload, so a
     * read error leaves the page loading, with no message; every other path ends with
     * `isLoading` false, and only an accepted sheet becomes `data`.
     */
    method HandleFileUpload(fileChosen: bool, read: ReadResult)
      modifies this
      ensures !fileChosen ==> unchanged(this)
      ensures fileChosen && read.ReadFailed? ==>
        isLoading && error == None && success == None && data == old(data)
      ensures fileChosen && !read.ReadFailed? ==> !isLoading
      ensures fileChosen && read.ParseFailed? ==>
        error == Some(ErrorMessage(Unreadable)) && data == None && success == None
      ensures fileChosen && read.Parsed? && Validate(read.sheet).Rejected? ==>
        && error == Some(ErrorMessage(Validate(read.sheet).reason))
        && data == None && success == None
      ensures fileChosen && read.Parsed? && Validate(read.sheet).Accepted? ==>
        && data == Some(read.sheet)
        && success == Some(SuccessMessage(|read.sheet|))
        && error == None
    {
      if !fileChosen {
        return;
      }
      isLoading := true;
      error := None;
      success := None;

      match read {
        case ReadFailed =>
          return;
        case ParseFailed =>
          ShowError(ErrorMessage(Unreadable));
        case Parsed(sheetData) =>
          var verdict := CheckSheet(sheetData);
          if verdict.Rejected? {
            ShowError(ErrorMessage(verdict.reason));
            return;
          }
          data := Some(sheetData);
          success := Some(SuccessMessage(|sheetData|));
          error := None;
          isLoading := false;
      }
    }
  }
}
