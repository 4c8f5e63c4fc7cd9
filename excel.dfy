/** parse_excel (app/utils.py): the column labels of the first row are matched against a
    synonym table to locate each canonical field, then the data rows are walked in order
    and every row with a usable item name and a positive price becomes one QuoteData. */
module ExcelParse {
  import opened Wrappers
  import opened Strings
  import opened Models

  /** A cell as pandas hands it over: blank (NaN), text, or a number together with the
      text str() renders it as. */
  datatype Cell = Blank | Text(text: string) | Number(value: real, shown: string)

  /** A decoded sheet: the first row supplies the column labels (pandas' default header,
      already unique), the remaining rows are data. */
  datatype Sheet = Sheet(labels: seq<string>, rows: seq<seq<Cell>>)

  /** The canonical keys of column_mapping. */
  datatype Field = ItemName | CasNo | CatNo | MakeBrand | BasePrice | GstPercent | Specifications

  /** The keys in the order the resolution loop visits them. */
  const FieldOrder: seq<Field> :=
    [ItemName, CasNo, CatNo, MakeBrand, BasePrice, GstPercent, Specifications]

  /** Every key is visited by the resolution loop. */
  lemma FieldOrderComplete()
    ensures forall f :: f in FieldOrder
  {
    forall f ensures f in FieldOrder {
      match f
      case ItemName => assert FieldOrder[0] == f;
      case CasNo => assert FieldOrder[1] == f;
      case CatNo => assert FieldOrder[2] == f;
      case MakeBrand => assert FieldOrder[3] == f;
      case BasePrice => assert FieldOrder[4] == f;
      case GstPercent => assert FieldOrder[5] == f;
      case Specifications => assert FieldOrder[6] == f;
    }
  }

  /** column_mapping: the header spellings recognised for each key. */
  function Synonyms(f: Field): seq<string> {
    match f
    case ItemName => ["Item Name", "Item", "Product Name", "Product", "Name"]
    case CasNo => ["CAS No", "CAS Number", "CAS", "CAS#"]
    case CatNo => ["Cat No", "Catalog No", "Cat Number", "Product No", "Product Number", "Cat#"]
    case MakeBrand => ["Make", "Brand", "Manufacturer", "Company"]
    case BasePrice => ["Price", "Base Price", "Cost", "Amount"]
    case GstPercent => ["GST", "GST %", "Tax", "Tax %"]
    case Specifications => ["Specifications", "Specs", "Description", "Details"]
  }

  /** The label contains, ignoring case, one of the key's synonyms. */
  predicate LabelMatches(heading: string, f: Field) {
    exists k :: 0 <= k < |Synonyms(f)| && ContainsIgnoreCase(heading, Synonyms(f)[k])
  }

  // ---------------------------------------------------------------------------
  // Column resolution

  /** The first column at or after start whose label matches the key. */
  function FirstMatchFrom(labels: seq<string>, f: Field, start: nat): (r: Option<nat>)
    requires start <= |labels|
    ensures r.Some? ==> start <= r.value < |labels| && LabelMatches(labels[r.value], f)
    ensures r.Some? ==> forall j :: start <= j < r.value ==> !LabelMatches(labels[j], f)
    ensures r.None? ==> forall j :: start <= j < |labels| ==> !LabelMatches(labels[j], f)
    decreases |labels| - start
  {
    if start == |labels| then None
    else if LabelMatches(labels[start], f) then Some(start)
    else FirstMatchFrom(labels, f, start + 1)
  }

  /** The first column, in column order, whose label matches the key. */
  function FirstMatchingColumn(labels: seq<string>, f: Field): (r: Option<nat>)
    ensures r.Some? ==> r.value < |labels| && LabelMatches(labels[r.value], f)
    ensures r.Some? ==> forall j :: 0 <= j < r.value ==> !LabelMatches(labels[j], f)
    ensures r.None? ==> forall j :: 0 <= j < |labels| ==> !LabelMatches(labels[j], f)
  {
    FirstMatchFrom(labels, f, 0)
  }

  /** actual_columns as a value: every key that some label matches, mapped to the first
      such column; a key no label matches is absent, and nothing stops two keys from
      sharing a column. */
  function ResolvedColumns(labels: seq<string>): (cols: map<Field, nat>)
    ensures forall f :: f in cols <==> exists j :: 0 <= j < |labels| && LabelMatches(labels[j], f)
    ensures forall f :: f in cols ==>
      cols[f] < |labels| && LabelMatches(labels[cols[f]], f) &&
      forall j :: 0 <= j < cols[f] ==> !LabelMatches(labels[j], f)
  {
    FieldOrderComplete();
    map f | f in FieldOrder && FirstMatchingColumn(labels, f).Some?
          :: FirstMatchingColumn(labels, f).value
  }

  /** The inner loop of the resolution: scan the columns in order and stop at the first
      whose label matches the key. */
  method FindColumn(labels: seq<string>, key: Field) returns (col: Option<nat>)
    ensures col == FirstMatchingColumn(labels, key)
  {
    col := None;
    for j := 0 to |labels|
      invariant col.None?
      invariant forall j0 :: 0 <= j0 < j ==> !LabelMatches(labels[j0], key)
    {
      if LabelMatches(labels[j], key) {
        col := Some(j);
        break;
      }
    }
    FirstMatchUnique(labels, key, col);
  }

  /** The first matching column is determined by the two properties that define it. */
  lemma FirstMatchUnique(labels: seq<string>, key: Field, col: Option<nat>)
    requires col.Some? ==> col.value < |labels| && LabelMatches(labels[col.value], key)
    requires col.Some? ==> forall j :: 0 <= j < col.value ==> !LabelMatches(labels[j], key)
    requires col.None? ==> forall j :: 0 <= j < |labels| ==> !LabelMatches(labels[j], key)
    ensures col == FirstMatchingColumn(labels, key)
  {
  }

  /** The outer loop of the resolution: every key in turn, recording the column found. */
  method ResolveColumns(labels: seq<string>) returns (cols: map<Field, nat>)
    ensures cols == ResolvedColumns(labels)
  {
    cols := map[];
    for i := 0 to |FieldOrder|
      invariant forall f :: f in cols <==> f in FieldOrder[..i] && FirstMatchingColumn(labels, f).Some?
      invariant forall f :: f in cols ==> FirstMatchingColumn(labels, f) == Some(cols[f])
    {
      var key := FieldOrder[i];
      assert FieldOrder[..i + 1] == FieldOrder[..i] + [key];
      var col := FindColumn(labels, key);
      if col.Some? {
        cols := cols[key := col.value];
      }
    }
    assert FieldOrder[..|FieldOrder|] == FieldOrder;
  }

  /** Columns are not exclusive: a "Product Number" column is both the item-name column
      (synonym "Product") and the catalog-number column (synonym "Product Number"). */
  lemma SharedColumn()
    ensures var cols := ResolvedColumns(["Product Number", "Price"]);
      ItemName in cols && CatNo in cols && cols[ItemName] == 0 && cols[CatNo] == 0
  {
    var labels := ["Product Number", "Price"];
    assert Lower("Product") <= Lower(labels[0]);
    assert ContainsIgnoreCase(labels[0], Synonyms(ItemName)[3]);
    assert LabelMatches(labels[0], ItemName);
    assert Lower("Product Number") <= Lower(labels[0]);
    assert ContainsIgnoreCase(labels[0], Synonyms(CatNo)[4]);
    assert LabelMatches(labels[0], CatNo);
  }

  // ---------------------------------------------------------------------------
  // One row

  /** The cell of a row under a column; a row shorter than the header reads as blank. */
  function CellAt(row: seq<Cell>, j: nat): Cell {
    if j < |row| then row[j] else Blank
  }

  /** str(cell): a blank cell renders as "nan". */
  function CellText(c: Cell): string {
    match c
    case Blank => "nan"
    case Text(s) => s
    case Number(_, shown) => shown
  }

  /** float(cell): NaN for a blank, the literal's value for text, None where float()
      raises (text that is not a decimal literal). */
  function CellFloat(c: Cell): Option<Float> {
    match c
    case Blank => Some(NaN)
    case Number(v, _) => Some(Finite(v))
    case Text(s) =>
      match ParseDecimal(s)
      case None => None
      case Some(v) => Some(Finite(v))
  }

  /** str(row.get(actual_columns.get(key, ...), default)): an unresolved key reads the
      default. */
  function FieldText(row: seq<Cell>, cols: map<Field, nat>, f: Field, default: string): string {
    if f in cols then CellText(CellAt(row, cols[f])) else default
  }

  /** float(row.get(actual_columns.get(key, default), default)). */
  function FieldFloat(row: seq<Cell>, cols: map<Field, nat>, f: Field, default: real): Option<Float> {
    if f in cols then CellFloat(CellAt(row, cols[f])) else Some(Finite(default))
  }

  /** Python's `s or None` for a string. */
  function BlankToNone(s: string): Option<string> {
    if s == "" then None else Some(s)
  }

  /** An item name that parse_excel skips: empty, or "nan"/"none" in any case. */
  predicate IsNoiseName(name: string) {
    name == "" || Lower(name) == "nan" || Lower(name) == "none"
  }

  /** What every admitted record's item name looks like. */
  predicate IsUsableName(name: string) {
    !IsNoiseName(name) && Trim(name) == name
  }

  /** The trimmed item name of a row. */
  function RowName(row: seq<Cell>, cols: map<Field, nat>): string {
    Trim(FieldText(row, cols, ItemName, ""))
  }

  /** `float(...) or 0.0` on the price cell; None where float() raises. */
  function RowPrice(row: seq<Cell>, cols: map<Field, nat>): Option<Float> {
    match FieldFloat(row, cols, BasePrice, 0.0)
    case None => None
    case Some(p) => Some(p.OrElse(Finite(0.0)))
  }

  /** `float(...) or 18.0` on the tax cell; None where float() raises. */
  function RowGst(row: seq<Cell>, cols: map<Field, nat>): Option<Float> {
    match FieldFloat(row, cols, GstPercent, DefaultGstPercent)
    case None => None
    case Some(g) => Some(g.OrElse(Finite(DefaultGstPercent)))
  }

  /** `str(...).strip() or None` for an optional text column. */
  function RowOptional(row: seq<Cell>, cols: map<Field, nat>, f: Field): Option<string> {
    BlankToNone(Trim(FieldText(row, cols, f, "")))
  }

  /** `str(row.get(..., 'Unknown')).strip()` for the make column. */
  function RowMake(row: seq<Cell>, cols: map<Field, nat>): string {
    Trim(FieldText(row, cols, MakeBrand, "Unknown"))
  }

  /** The body of the row loop: None when the row is skipped (noise name), when float()
      raises on its price or tax cell (the row is logged and dropped), or when its price is
      not positive. */
  function RowQuote(row: seq<Cell>, cols: map<Field, nat>): (r: Option<QuoteData>)
    ensures r.Some? ==> r.value.basePrice > 0.0
  {
    var name := RowName(row, cols);
    if IsNoiseName(name) then None
    else
      match (RowPrice(row, cols), RowGst(row, cols))
      case (Some(p), Some(g)) =>
        if p.Positive() then
          Some(QuoteData(name, RowOptional(row, cols, CasNo), RowOptional(row, cols, CatNo),
                         RowMake(row, cols), p.value, g, RowOptional(row, cols, Specifications)))
        else None
      case _ => None
  }

  /** A row is admitted exactly when its trimmed item name is not noise, its price and tax
      cells both convert and its price is positive; the record then holds that name, which
      is trimmed and usable, and that positive price. */
  lemma RowAdmittedIff(row: seq<Cell>, cols: map<Field, nat>)
    ensures RowQuote(row, cols).Some? <==>
      && !IsNoiseName(RowName(row, cols))
      && RowPrice(row, cols).Some? && RowPrice(row, cols).value.Positive()
      && RowGst(row, cols).Some?
    ensures RowQuote(row, cols).Some? ==>
      && RowQuote(row, cols).value.itemName == RowName(row, cols)
      && RowQuote(row, cols).value.basePrice == RowPrice(row, cols).value.value > 0.0
      && IsUsableName(RowQuote(row, cols).value.itemName)
  {
    TrimIdempotent(FieldText(row, cols, ItemName, ""));
  }

  /** The record's other fields come from their columns: make, tax and the three optional
      texts. */
  lemma RowFields(row: seq<Cell>, cols: map<Field, nat>)
    requires RowQuote(row, cols).Some?
    ensures var q := RowQuote(row, cols).value;
      && q.makeBrand == RowMake(row, cols) && Some(q.gstPercent) == RowGst(row, cols)
      && q.casNo == RowOptional(row, cols, CasNo) && q.catNo == RowOptional(row, cols, CatNo)
      && q.specifications == RowOptional(row, cols, Specifications)
  {
  }

  /** The tax rate is 18 % when the tax column is unresolved or its cell converts to zero,
      NaN when the cell is blank, and the cell's value otherwise. */
  lemma RowGstDefaults(row: seq<Cell>, cols: map<Field, nat>)
    ensures GstPercent !in cols ==> RowGst(row, cols) == Some(Finite(18.0))
    ensures GstPercent in cols ==>
      var c := CellAt(row, cols[GstPercent]);
      && (c.Blank? ==> RowGst(row, cols) == Some(NaN))
      && (CellFloat(c) == Some(Finite(0.0)) ==> RowGst(row, cols) == Some(Finite(18.0)))
      && (forall v :: v != 0.0 && CellFloat(c) == Some(Finite(v)) ==> RowGst(row, cols) == Some(Finite(v)))
  {
  }

  /** The brand is "Unknown" when no make column was resolved. */
  lemma RowMakeDefault(row: seq<Cell>, cols: map<Field, nat>)
    ensures MakeBrand !in cols ==> RowMake(row, cols) == "Unknown"
  {
    TrimOfTrimmed("Unknown");
  }

  /** An optional text field is None exactly when its trimmed cell text is empty, and the
      trimmed text otherwise; an unresolved column always gives None. */
  lemma RowOptionalSpec(row: seq<Cell>, cols: map<Field, nat>, f: Field)
    ensures RowOptional(row, cols, f).None? <==> Trim(FieldText(row, cols, f, "")) == ""
    ensures RowOptional(row, cols, f).Some? ==>
      RowOptional(row, cols, f).value == Trim(FieldText(row, cols, f, ""))
    ensures f !in cols ==> RowOptional(row, cols, f).None?
  {
    assert f !in cols ==> FieldText(row, cols, f, "") == "";
  }

  // ---------------------------------------------------------------------------
  // All rows

  /** The records the row loop appends, in row order. */
  function Extracted(rows: seq<seq<Cell>>, cols: map<Field, nat>): seq<QuoteData> {
    FilterMap(rows, row => RowQuote(row, cols))
  }

  /** Extraction works row by row: the records of a concatenation are the records of the
      first part followed by those of the second, so rows keep their order and a dropped
      row never stops the rows after it from being read. */
  lemma ExtractedConcat(a: seq<seq<Cell>>, b: seq<seq<Cell>>, cols: map<Field, nat>)
    ensures Extracted(a + b, cols) == Extracted(a, cols) + Extracted(b, cols)
  {
    FilterMapConcat(a, b, row => RowQuote(row, cols));
  }

  /** A single row contributes exactly the record RowQuote makes of it, or nothing. */
  lemma ExtractedSingle(row: seq<Cell>, cols: map<Field, nat>)
    ensures Extracted([row], cols) == match RowQuote(row, cols) case None => [] case Some(q) => [q]
  {
    FilterMapSingle(row, row => RowQuote(row, cols));
  }

  /** Every extracted record has a positive price and a usable, trimmed item name. */
  lemma ExtractedAdmitted(rows: seq<seq<Cell>>, cols: map<Field, nat>)
    ensures forall k :: 0 <= k < |Extracted(rows, cols)| ==>
      Extracted(rows, cols)[k].basePrice > 0.0 && IsUsableName(Extracted(rows, cols)[k].itemName)
  {
    forall k | 0 <= k < |Extracted(rows, cols)|
      ensures Extracted(rows, cols)[k].basePrice > 0.0 && IsUsableName(Extracted(rows, cols)[k].itemName)
    {
      FilterMapFrom(rows, row => RowQuote(row, cols), k);
      var i :| 0 <= i < |rows| && RowQuote(rows[i], cols) == Some(Extracted(rows, cols)[k]);
      RowAdmittedIff(rows[i], cols);
    }
  }

  /** The row loop of parse_excel. */
  method ExtractRows(rows: seq<seq<Cell>>, cols: map<Field, nat>) returns (quotes: seq<QuoteData>)
    ensures quotes == Extracted(rows, cols)
  {
    quotes := [];
    for i := 0 to |rows|
      invariant quotes == Extracted(rows[..i], cols)
    {
      assert rows[..i + 1][..i] == rows[..i];
      assert Extracted(rows[..i + 1], cols) == Extracted(rows[..i], cols) +
        (match RowQuote(rows[i], cols) case None => [] case Some(q) => [q]);
      var quote := RowQuote(rows[i], cols);
      if quote.Some? {
        quotes := quotes + [quote.value];
      }
    }
    assert rows[..|rows|] == rows;
  }

  /** What parse_excel returns for a sheet, or for a file pandas cannot read (None). */
  function ExcelQuotes(sheet: Option<Sheet>): seq<QuoteData> {
    match sheet
    case None => []
    case Some(s) => Extracted(s.rows, ResolvedColumns(s.labels))
  }

  /** parse_excel: resolve the columns, then walk the rows. */
  method ParseExcel(sheet: Option<Sheet>) returns (quotes: seq<QuoteData>)
    ensures quotes == ExcelQuotes(sheet)
    ensures forall k :: 0 <= k < |quotes| ==>
      quotes[k].basePrice > 0.0 && IsUsableName(quotes[k].itemName)
  {
    match sheet
    case None =>
      quotes := [];
    case Some(s) =>
      var cols := ResolveColumns(s.labels);
      quotes := ExtractRows(s.rows, cols);
      ExtractedAdmitted(s.rows, cols);
  }
}
