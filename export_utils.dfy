/**
 * The row encoder of `exportUtils`: one row per circuit of a comparison, the header as the
 * union of the rows' keys, the CSV text and the spreadsheet rows. The download itself is
 * not part of this model.
 */
module ExportUtils {
  import opened Wrappers
  import Text
  import opened Numbers
  import opened Circuits
  import Csv
  import Seqs

  /** The bucket a row comes from; its name is the row's `Type`. */
  datatype Bucket = AddedRow | RemovedRow | ModifiedRow

  function BucketName(b: Bucket): (r: string) {
    match b
    case AddedRow => "added"
    case RemovedRow => "removed"
    case ModifiedRow => "modified"
  }

  /** The keys an exported row object can have. */
  datatype Column =
    | TypeCol | CarrierCol | CircuitTypeCol | PurposeCol | BandwidthCol | MonthlyCostCol
    | StaticIpsCol | UploadBandwidthCol | ContractTermCol | BillingCol | UsageChargesCol
    | InstallationCostCol | ChangesCol | RowColorCol

  /** The key as the object literal spells it. */
  function ColumnName(col: Column): (r: string) {
    match col
    case TypeCol => "Type"
    case CarrierCol => "Carrier"
    case CircuitTypeCol => "Circuit Type"
    case PurposeCol => "Purpose"
    case BandwidthCol => "Bandwidth"
    case MonthlyCostCol => "Monthly Cost"
    case StaticIpsCol => "Static IPs"
    case UploadBandwidthCol => "Upload Bandwidth"
    case ContractTermCol => "Contract Term"
    case BillingCol => "Billing"
    case UsageChargesCol => "Usage Charges"
    case InstallationCostCol => "Installation Cost"
    case ChangesCol => "Changes"
    case RowColorCol => "_rowColor"
  }

  /** An exported row: keys and values in the order the object literal lists them. */
  type Row = seq<(Column, Value)>

  /** The columns of `formatCircuitForCSV`'s base object, in order. */
  const BaseColumns: seq<Column> := [
    TypeCol, CarrierCol, CircuitTypeCol, PurposeCol, BandwidthCol, MonthlyCostCol, StaticIpsCol,
    UploadBandwidthCol, ContractTermCol, BillingCol, UsageChargesCol, InstallationCostCol
  ]

  /** `String(v)`, as a template literal or `toString()` writes a value. */
  function ValueText(v: Value): (r: string) {
    match v
    case Str(s) => s
    case Num(n) => IntToString(n)
    case Bool(b) => if b then "true" else "false"
    case Null => "null"
  }

  /** The arrow of the `Changes` column, U+2192 between spaces. */
  const Arrow: string := " \U{2192} "

  /** `${d.field}: ${d.oldValue} → ${d.newValue}`, on the raw values. */
  function ChangeText(d: Difference): (r: string) {
    FieldName(d.field) + ": " + ValueText(d.oldValue) + Arrow + ValueText(d.newValue)
  }

  function ChangeTexts(ds: seq<Difference>): (r: seq<string>)
    ensures |r| == |ds| && forall i :: 0 <= i < |ds| ==> r[i] == ChangeText(ds[i])
  {
    Seqs.Map(ds, ChangeText)
  }

  /** The `Changes` cell: every difference, joined with `"; "`. */
  function ChangesCell(ds: seq<Difference>): (r: string) {
    Text.Join("; ", ChangeTexts(ds))
  }

  /** The `_rowColor` of each bucket: light green, light red, light yellow. */
  function RowColor(bucket: Bucket): (r: string)
    ensures |r| == 7 && r[0] == '#'
    ensures forall i :: 1 <= i < 7 ==> r[i] in "0123456789abcdef"
  {
    match bucket
    case AddedRow => "#e6ffe6"
    case RemovedRow => "#ffe6e6"
    case ModifiedRow => "#fff5e6"
  }

  /** The three buckets are told apart by their colours. */
  lemma RowColorsDistinct(a: Bucket, b: Bucket)
    requires a != b
    ensures RowColor(a) != RowColor(b)
  {
  }

  /** The value a row object gives a column. */
  function ColumnValue(col: Column, c: Circuit, bucket: Bucket, differences: Option<seq<Difference>>): (r: Value) {
    match col
    case TypeCol => Str(BucketName(bucket))
    case CarrierCol => Str(c.carrier)
    case CircuitTypeCol => Str(c.circuitType)
    case PurposeCol => Str(c.purpose)
    case BandwidthCol => Str(c.bandwidth)
    case MonthlyCostCol => Num(c.monthlyCost)
    case StaticIpsCol => Num(c.staticIps)
    case UploadBandwidthCol => Str(c.uploadBandwidth.GetOr(""))
    case ContractTermCol => if c.contractTerm.Some? then Num(c.contractTerm.value) else Null
    case BillingCol => Str(c.billing)
    case UsageChargesCol => Str(if c.usageCharges then "Yes" else "No")
    case InstallationCostCol => Num(c.installationCost)
    case ChangesCol => Str(ChangesCell(differences.GetOr([])))
    case RowColorCol => Str(RowColor(bucket))
  }

  /** The keys of a row: the base columns, and `Changes` on a modified row that has a difference list. */
  function RowColumns(bucket: Bucket, differences: Option<seq<Difference>>): (r: seq<Column>) {
    BaseColumns + (if bucket == ModifiedRow && differences.Some? then [ChangesCol] else [])
  }

  /** The row object with the given keys. */
  function BuildRow(cols: seq<Column>, c: Circuit, bucket: Bucket, differences: Option<seq<Difference>>): (r: Row)
    ensures |r| == |cols| && forall i :: 0 <= i < |cols| ==> r[i] == (cols[i], ColumnValue(cols[i], c, bucket, differences))
  {
    if cols == [] then []
    else BuildRow(cols[..|cols| - 1], c, bucket, differences) + [(cols[|cols| - 1], ColumnValue(cols[|cols| - 1], c, bucket, differences))]
  }

  /** `formatCircuitForCSV`. */
  function FormatCircuitRow(c: Circuit, bucket: Bucket, differences: Option<seq<Difference>>): (r: Row)
    ensures |r| == |BaseColumns| + (if bucket == ModifiedRow && differences.Some? then 1 else 0)
    ensures forall i :: 0 <= i < |BaseColumns| ==> r[i].0 == BaseColumns[i]
    ensures forall i :: 0 <= i < |r| ==> r[i].1 == ColumnValue(r[i].0, c, bucket, differences)
  {
    BuildRow(RowColumns(bucket, differences), c, bucket, differences)
  }

  /** `Object.keys(row)`. */
  function Keys(row: Row): (r: seq<Column>)
    ensures |r| == |row| && forall i :: 0 <= i < |row| ==> r[i] == row[i].0
  {
    if row == [] then [] else Keys(row[..|row| - 1]) + [row[|row| - 1].0]
  }

  /** `row[key]`: the value under the key, if the row has it. */
  function Lookup(row: Row, key: Column): (r: Option<Value>)
    ensures r.None? <==> key !in Keys(row)
    ensures r.Some? ==> (key, r.value) in row
  {
    if row == [] then None
    else if row[0].0 == key then Some(row[0].1)
    else
      assert Keys(row) == [row[0].0] + Keys(row[1..]);
      Lookup(row[1..], key)
  }

  predicate Distinct<T(==)>(s: seq<T>) {
    forall i, j :: 0 <= i < j < |s| ==> s[i] != s[j]
  }

  /** In a row with distinct keys, looking a key up finds its own entry. */
  lemma {:induction false} LookupDistinct(row: Row, i: int)
    requires Distinct(Keys(row)) && 0 <= i < |row|
    ensures Lookup(row, row[i].0) == Some(row[i].1)
  {
    if i > 0 {
      assert Keys(row[1..]) == Keys(row)[1..];
      LookupDistinct(row[1..], i - 1);
    }
  }

  lemma BuildRowKeys(cols: seq<Column>, c: Circuit, bucket: Bucket, differences: Option<seq<Difference>>)
    ensures Keys(BuildRow(cols, c, bucket, differences)) == cols
  {
  }

  lemma BuildRowLookup(cols: seq<Column>, c: Circuit, bucket: Bucket, differences: Option<seq<Difference>>, col: Column)
    requires Distinct(cols) && col in cols
    ensures Lookup(BuildRow(cols, c, bucket, differences), col) == Some(ColumnValue(col, c, bucket, differences))
  {
    var row := BuildRow(cols, c, bucket, differences);
    BuildRowKeys(cols, c, bucket, differences);
    var i :| 0 <= i < |cols| && cols[i] == col;
    LookupDistinct(row, i);
  }

  /** The position of a column in `BaseColumns`, or 12 for the others. */
  function BaseIndex(col: Column): (k: nat)
    ensures k <= |BaseColumns|
    ensures k < |BaseColumns| ==> BaseColumns[k] == col
    ensures k == |BaseColumns| ==> col !in BaseColumns
  {
    match col
    case TypeCol => 0
    case CarrierCol => 1
    case CircuitTypeCol => 2
    case PurposeCol => 3
    case BandwidthCol => 4
    case MonthlyCostCol => 5
    case StaticIpsCol => 6
    case UploadBandwidthCol => 7
    case ContractTermCol => 8
    case BillingCol => 9
    case UsageChargesCol => 10
    case InstallationCostCol => 11
    case _ => 12
  }

  lemma BaseColumnsDistinct()
    ensures Distinct(BaseColumns) && ChangesCol !in BaseColumns
  {
    assert BaseIndex(ChangesCol) == 12;
    forall i | 0 <= i < |BaseColumns| ensures BaseIndex(BaseColumns[i]) == i {
    }
  }

  lemma RowColumnsDistinct(bucket: Bucket, differences: Option<seq<Difference>>)
    ensures Distinct(RowColumns(bucket, differences))
    ensures ChangesCol in RowColumns(bucket, differences) <==> bucket == ModifiedRow && differences.Some?
  {
    BaseColumnsDistinct();
  }

  /**
   * Every row has the base columns in order, `Changes` only on a modified row with a
   * difference list; each key present holds its column's value: `Type` is the bucket name,
   * `Usage Charges` Yes or No, a missing upload bandwidth the empty string, and `Changes`
   * the raw-value text of the differences.
   */
  lemma FormatCircuitRowColumns(c: Circuit, bucket: Bucket, differences: Option<seq<Difference>>)
    ensures Keys(FormatCircuitRow(c, bucket, differences)) == RowColumns(bucket, differences)
    ensures forall col :: col in RowColumns(bucket, differences) ==>
      Lookup(FormatCircuitRow(c, bucket, differences), col) == Some(ColumnValue(col, c, bucket, differences))
    ensures Lookup(FormatCircuitRow(c, bucket, differences), ChangesCol).Some? <==> bucket == ModifiedRow && differences.Some?
  {
    var cols := RowColumns(bucket, differences);
    BuildRowKeys(cols, c, bucket, differences);
    RowColumnsDistinct(bucket, differences);
    forall col | col in cols
      ensures Lookup(BuildRow(cols, c, bucket, differences), col) == Some(ColumnValue(col, c, bucket, differences))
    {
      BuildRowLookup(cols, c, bucket, differences, col);
    }
  }

  // ---------------------------------------------------------------------------
  // Row assembly

  /** What one exported row is made from: a circuit, its bucket and, when modified, its differences. */
  datatype RowSource = RowSource(circuit: Circuit, bucket: Bucket, differences: Option<seq<Difference>>)

  function SourceRow(s: RowSource): (r: Row) {
    FormatCircuitRow(s.circuit, s.bucket, s.differences)
  }

  function BucketSources(cs: seq<Circuit>, bucket: Bucket): (r: seq<RowSource>)
    ensures |r| == |cs| && forall i :: 0 <= i < |cs| ==> r[i] == RowSource(cs[i], bucket, None)
  {
    if cs == [] then [] else BucketSources(cs[..|cs| - 1], bucket) + [RowSource(cs[|cs| - 1], bucket, None)]
  }

  function ModifiedSources(es: seq<ModifiedEntry>): (r: seq<RowSource>)
    ensures |r| == |es| && forall i :: 0 <= i < |es| ==> r[i] == RowSource(es[i].circuit, ModifiedRow, Some(es[i].differences))
  {
    if es == [] then []
    else ModifiedSources(es[..|es| - 1]) + [RowSource(es[|es| - 1].circuit, ModifiedRow, Some(es[|es| - 1].differences))]
  }

  /** The circuits behind the `rows` array: added, then removed, then modified. */
  function RowSources(comparison: Comparison): (r: seq<RowSource>) {
    BucketSources(comparison.added, AddedRow) + BucketSources(comparison.removed, RemovedRow) +
    ModifiedSources(comparison.modified)
  }

  function Rows(sources: seq<RowSource>): (r: seq<Row>)
    ensures |r| == |sources| && forall i :: 0 <= i < |sources| ==> r[i] == SourceRow(sources[i])
  {
    if sources == [] then [] else Rows(sources[..|sources| - 1]) + [SourceRow(sources[|sources| - 1])]
  }

  /** The `rows` array of `exportDifferencesAsCSV`. */
  function ExportRows(comparison: Comparison): (r: seq<Row>) {
    Rows(RowSources(comparison))
  }

  /** The bucket the `i`-th exported row comes from. */
  function RowBucket(comparison: Comparison, i: int): (r: Bucket) {
    if i < |comparison.added| then AddedRow
    else if i < |comparison.added| + |comparison.removed| then RemovedRow
    else ModifiedRow
  }

  /**
   * One row per circuit, each bucket in its own order, added first, then removed, then
   * modified; only the modified rows carry their differences.
   */
  lemma RowSourcesLayout(comparison: Comparison)
    ensures |RowSources(comparison)| == |comparison.added| + |comparison.removed| + |comparison.modified|
    ensures forall i :: 0 <= i < |comparison.added| ==>
      RowSources(comparison)[i] == RowSource(comparison.added[i], AddedRow, None)
    ensures forall i :: 0 <= i < |comparison.removed| ==>
      RowSources(comparison)[|comparison.added| + i] == RowSource(comparison.removed[i], RemovedRow, None)
    ensures forall i :: 0 <= i < |comparison.modified| ==>
      RowSources(comparison)[|comparison.added| + |comparison.removed| + i] ==
      RowSource(comparison.modified[i].circuit, ModifiedRow, Some(comparison.modified[i].differences))
    ensures forall i :: 0 <= i < |RowSources(comparison)| ==>
      RowSources(comparison)[i].bucket == RowBucket(comparison, i) &&
      (RowSources(comparison)[i].differences.Some? <==> RowSources(comparison)[i].bucket == ModifiedRow)
  {
  }

  /** The `i`-th exported row is its circuit's row object. */
  lemma ExportRowsLayout(comparison: Comparison)
    ensures |ExportRows(comparison)| == |comparison.added| + |comparison.removed| + |comparison.modified|
    ensures forall i :: 0 <= i < |ExportRows(comparison)| ==>
      ExportRows(comparison)[i] == FormatCircuitRow(RowSources(comparison)[i].circuit, RowBucket(comparison, i),
                                                    RowSources(comparison)[i].differences)
  {
    RowSourcesLayout(comparison);
  }

  // ---------------------------------------------------------------------------
  // Headers

  function FlatKeys(rows: seq<Row>): (r: seq<Column>) {
    if rows == [] then [] else FlatKeys(rows[..|rows| - 1]) + Keys(rows[|rows| - 1])
  }

  /** `Array.from(new Set(s))`: each element once, at its first position. */
  function Dedup(s: seq<Column>): (r: seq<Column>)
    ensures Distinct(r)
    ensures forall x :: x in r <==> x in s
  {
    if s == [] then []
    else
      var init := Dedup(s[..|s| - 1]);
      assert forall x :: x in s <==> x in s[..|s| - 1] || x == s[|s| - 1] by {
        assert s == s[..|s| - 1] + [s[|s| - 1]];
      }
      if s[|s| - 1] in init then init else init + [s[|s| - 1]]
  }

  /** The header: the union of every row's keys in first-seen order. */
  function Headers(rows: seq<Row>): (r: seq<Column>)
    ensures Distinct(r)
    ensures forall c :: c in r <==> c in FlatKeys(rows)
  {
    Dedup(FlatKeys(rows))
  }

  lemma {:induction false} DedupKnown(a: seq<Column>, b: seq<Column>)
    requires forall x :: x in b ==> x in a
    ensures Dedup(a + b) == Dedup(a)
    decreases |b|
  {
    if b == [] {
      assert a + b == a;
    } else {
      DedupKnown(a, b[..|b| - 1]);
      assert (a + b)[..|a + b| - 1] == a + b[..|b| - 1];
      assert b[|b| - 1] in b;
    }
  }

  lemma DedupFresh(a: seq<Column>, x: Column)
    requires x !in a
    ensures Dedup(a + [x]) == Dedup(a) + [x]
  {
    assert (a + [x])[..|a|] == a;
  }

  lemma {:induction false} DedupDistinct(s: seq<Column>)
    requires Distinct(s)
    ensures Dedup(s) == s
  {
    if s != [] {
      DedupDistinct(s[..|s| - 1]);
    }
  }

  /** Some row has the key `extra`. */
  predicate AnyHas(rows: seq<Row>, extra: Column) {
    exists i :: 0 <= i < |rows| && extra in Keys(rows[i])
  }

  /** Every row has the keys `base`, possibly followed by `extra`. */
  predicate Shaped(rows: seq<Row>, base: seq<Column>, extra: Column) {
    forall i :: 0 <= i < |rows| ==> Keys(rows[i]) == base || Keys(rows[i]) == base + [extra]
  }

  lemma ShapedPrefix(rows: seq<Row>, base: seq<Column>, extra: Column)
    requires rows != [] && Shaped(rows, base, extra)
    ensures Shaped(rows[..|rows| - 1], base, extra)
  {
    var init := rows[..|rows| - 1];
    forall i | 0 <= i < |init| ensures Keys(init[i]) == base || Keys(init[i]) == base + [extra] {
      assert init[i] == rows[i];
    }
  }

  lemma AnyHasStep(rows: seq<Row>, extra: Column)
    requires rows != []
    ensures AnyHas(rows, extra) <==> AnyHas(rows[..|rows| - 1], extra) || extra in Keys(rows[|rows| - 1])
  {
    var init := rows[..|rows| - 1];
    if AnyHas(init, extra) {
      var i :| 0 <= i < |init| && extra in Keys(init[i]);
      assert init[i] == rows[i];
    }
  }

  lemma {:induction false} FlatKeysMembers(rows: seq<Row>, base: seq<Column>, extra: Column)
    requires rows != [] && Shaped(rows, base, extra)
    ensures forall x :: x in FlatKeys(rows) <==> x in base || (AnyHas(rows, extra) && x == extra)
    decreases |rows|
  {
    var init := rows[..|rows| - 1];
    AnyHasStep(rows, extra);
    if init != [] {
      ShapedPrefix(rows, base, extra);
      FlatKeysMembers(init, base, extra);
    }
  }

  lemma HeadersOfOneRow(rows: seq<Row>, base: seq<Column>, extra: Column)
    requires |rows| == 1 && Shaped(rows, base, extra)
    requires Distinct(base) && extra !in base
    ensures Headers(rows) == base + (if AnyHas(rows, extra) then [extra] else [])
  {
    var k := Keys(rows[0]);
    assert FlatKeys(rows) == k by {
      assert FlatKeys(rows) == FlatKeys([]) + k;
    }
    AnyHasStep(rows, extra);
    DedupFresh(base, extra);
    DedupDistinct(base);
  }

  /** Adding a shaped row's keys to those of earlier shaped rows. */
  lemma DedupShapedKeys(fk: seq<Column>, k: seq<Column>, base: seq<Column>, extra: Column, seen: bool)
    requires forall x :: x in fk <==> x in base || (seen && x == extra)
    requires k == base || k == base + [extra]
    requires Dedup(fk) == base + (if seen then [extra] else [])
    requires extra !in base
    ensures Dedup(fk + k) == base + (if seen || extra in k then [extra] else [])
  {
    if k == base || seen {
      DedupKnown(fk, k);
    } else {
      assert fk + k == (fk + base) + [extra];
      DedupKnown(fk, base);
      DedupFresh(fk + base, extra);
    }
  }

  lemma {:induction false} HeadersOfShapedRows(rows: seq<Row>, base: seq<Column>, extra: Column)
    requires rows != [] && Shaped(rows, base, extra)
    requires Distinct(base) && extra !in base
    ensures Headers(rows) == base + (if AnyHas(rows, extra) then [extra] else [])
    decreases |rows|
  {
    var init := rows[..|rows| - 1];
    if init == [] {
      HeadersOfOneRow(rows, base, extra);
    } else {
      AnyHasStep(rows, extra);
      ShapedPrefix(rows, base, extra);
      HeadersOfShapedRows(init, base, extra);
      FlatKeysMembers(init, base, extra);
      assert FlatKeys(rows) == FlatKeys(init) + Keys(rows[|rows| - 1]);
      DedupShapedKeys(FlatKeys(init), Keys(rows[|rows| - 1]), base, extra, AnyHas(init, extra));
    }
  }

  /** The keys of a row are its source's columns. */
  lemma RowsKeys(sources: seq<RowSource>, i: int)
    requires 0 <= i < |sources|
    ensures Keys(Rows(sources)[i]) == RowColumns(sources[i].bucket, sources[i].differences)
  {
    FormatCircuitRowColumns(sources[i].circuit, sources[i].bucket, sources[i].differences);
  }

  /** Every row has the base columns, possibly followed by `Changes`. */
  lemma RowsShaped(sources: seq<RowSource>)
    ensures Shaped(Rows(sources), BaseColumns, ChangesCol)
  {
    forall i | 0 <= i < |sources|
      ensures Keys(Rows(sources)[i]) == BaseColumns || Keys(Rows(sources)[i]) == BaseColumns + [ChangesCol]
    {
      RowsKeys(sources, i);
    }
  }

  /** A modified source with differences gives a row with `Changes`, and only such a source does. */
  predicate Changed(s: RowSource) {
    s.bucket == ModifiedRow && s.differences.Some?
  }

  lemma RowsChanges(sources: seq<RowSource>)
    ensures AnyHas(Rows(sources), ChangesCol) <==> exists i :: 0 <= i < |sources| && Changed(sources[i])
  {
    var rows := Rows(sources);
    if AnyHas(rows, ChangesCol) {
      var i :| 0 <= i < |rows| && ChangesCol in Keys(rows[i]);
      RowsKeys(sources, i);
      RowColumnsDistinct(sources[i].bucket, sources[i].differences);
    }
    if exists i :: 0 <= i < |sources| && Changed(sources[i]) {
      var i :| 0 <= i < |sources| && Changed(sources[i]);
      RowsKeys(sources, i);
      RowColumnsDistinct(sources[i].bucket, sources[i].differences);
    }
  }

  lemma RowSourcesChanged(comparison: Comparison)
    ensures (exists i :: 0 <= i < |RowSources(comparison)| && Changed(RowSources(comparison)[i])) <==> comparison.modified != []
  {
    RowSourcesLayout(comparison);
    if comparison.modified != [] {
      assert Changed(RowSources(comparison)[|comparison.added| + |comparison.removed|]);
    }
  }

  /** Every exported row has the base columns, possibly followed by `Changes`, and `Changes` only on a modified row. */
  lemma ExportRowsShaped(comparison: Comparison)
    ensures Shaped(ExportRows(comparison), BaseColumns, ChangesCol)
    ensures AnyHas(ExportRows(comparison), ChangesCol) <==> comparison.modified != []
  {
    RowsShaped(RowSources(comparison));
    RowsChanges(RowSources(comparison));
    RowSourcesChanged(comparison);
  }

  /**
   * The exported header is the twelve base columns, starting `Type,Carrier,Circuit Type,
   * Purpose,Bandwidth`, followed by `Changes` exactly when some circuit was modified; an
   * empty comparison has an empty header.
   */
  lemma HeadersOfExport(comparison: Comparison)
    ensures ExportRows(comparison) != [] ==>
      Headers(ExportRows(comparison)) == BaseColumns + (if comparison.modified != [] then [ChangesCol] else [])
    ensures ExportRows(comparison) == [] ==> Headers(ExportRows(comparison)) == []
  {
    var rows := ExportRows(comparison);
    if rows != [] {
      ExportRowsShaped(comparison);
      BaseColumnsDistinct();
      HeadersOfShapedRows(rows, BaseColumns, ChangesCol);
    }
  }

  // ---------------------------------------------------------------------------
  // CSV text

  /** `row[header]?.toString() || ''`. */
  function CellText(row: Row, header: Column): (r: string) {
    match Lookup(row, header)
    case None => ""
    case Some(Null) => ""
    case Some(v) => ValueText(v)
  }

  /** A circuit CSV cell: quoted when it holds a comma or a double quote, bare otherwise. */
  function CircuitCell(s: string): (r: string)
    ensures !Text.Contains(s, ",") && !Text.Contains(s, "\"") ==> r == s
    ensures Text.Contains(s, ",") || Text.Contains(s, "\"") ==>
      |r| >= |s| + 2 && r[0] == '"' && r[|r| - 1] == '"'
  {
    Csv.EscapeIf(s, Text.Contains(s, ",") || Text.Contains(s, "\""))
  }

  function RowCells(headers: seq<Column>, row: Row): (r: seq<string>)
    ensures |r| == |headers| && forall i :: 0 <= i < |headers| ==> r[i] == CircuitCell(CellText(row, headers[i]))
  {
    if headers == [] then []
    else RowCells(headers[..|headers| - 1], row) + [CircuitCell(CellText(row, headers[|headers| - 1]))]
  }

  function RowLine(headers: seq<Column>, row: Row): (r: string) {
    Text.Join(",", RowCells(headers, row))
  }

  function RowLines(headers: seq<Column>, rows: seq<Row>): (r: seq<string>)
    ensures |r| == |rows| && forall i :: 0 <= i < |rows| ==> r[i] == RowLine(headers, rows[i])
  {
    Seqs.Map(rows, row => RowLine(headers, row))
  }

  function ColumnNames(cols: seq<Column>): (r: seq<string>)
    ensures |r| == |cols| && forall i :: 0 <= i < |cols| ==> r[i] == ColumnName(cols[i])
  {
    Seqs.Map(cols, ColumnName)
  }

  /** `headers.join(',')`. */
  function HeaderLine(headers: seq<Column>): (r: string) {
    Text.Join(",", ColumnNames(headers))
  }

  lemma ColumnNameNewline(col: Column)
    ensures '\n' !in ColumnName(col)
  {
  }

  lemma HeaderLineNewline(headers: seq<Column>)
    ensures '\n' !in HeaderLine(headers)
  {
    var names := ColumnNames(headers);
    forall i | 0 <= i < |names| ensures '\n' !in names[i] {
      ColumnNameNewline(headers[i]);
    }
    Text.JoinChars(",", names, '\n');
  }

  /** The header line and one line per row, joined with newlines. */
  function CsvText(rows: seq<Row>): (r: string) {
    var headers := Headers(rows);
    Text.Join("\n", [HeaderLine(headers)] + RowLines(headers, rows))
  }

  /** The text `exportDifferencesAsCSV` puts in its download. */
  function ExportCsv(comparison: Comparison): (r: string)
    ensures Text.StartsWith(r, HeaderLine(Headers(ExportRows(comparison))))
    ensures comparison == Comparison([], [], []) ==> r == ""
  {
    var headers := Headers(ExportRows(comparison));
    Text.JoinFirst("\n", [HeaderLine(headers)] + RowLines(headers, ExportRows(comparison)));
    CsvText(ExportRows(comparison))
  }

  /** A cell is quoted exactly when it holds a comma or a quote, and reading it back gives its text. */
  lemma CircuitCellQuoting(s: string)
    ensures CircuitCell(s) == if ',' in s || '"' in s then Csv.Quote(s) else s
    ensures Csv.Unescape(CircuitCell(s)) == s
  {
    Text.ContainsChar(s, ',');
    Text.ContainsChar(s, '"');
    if ',' in s || '"' in s {
      Csv.UnescapeQuote(s);
    } else {
      Csv.UnescapeBare(s);
    }
  }

  /** Quoting never brings in or drops a newline. */
  lemma CircuitCellNewline(s: string)
    ensures '\n' in CircuitCell(s) <==> '\n' in s
  {
    CircuitCellQuoting(s);
    Csv.DoubleQuotesChars(s, '\n');
  }

  lemma RowLineNewline(headers: seq<Column>, row: Row)
    requires forall h :: h in headers ==> '\n' !in CellText(row, h)
    ensures '\n' !in RowLine(headers, row)
  {
    var cells := RowCells(headers, row);
    forall i | 0 <= i < |cells| ensures '\n' !in cells[i] {
      CircuitCellNewline(CellText(row, headers[i]));
    }
    Text.JoinChars(",", cells, '\n');
  }

  /**
   * When no cell holds a newline the CSV text splits at its newlines into the header line
   * and one line per row: rows + 1 lines.
   */
  lemma ExportCsvLines(comparison: Comparison)
    requires forall r, h :: r in ExportRows(comparison) && h in Headers(ExportRows(comparison)) ==> '\n' !in CellText(r, h)
    ensures var rows := ExportRows(comparison);
      var headers := Headers(rows);
      Text.Split(ExportCsv(comparison), '\n') == [HeaderLine(headers)] + RowLines(headers, rows) &&
      |Text.Split(ExportCsv(comparison), '\n')| == |rows| + 1
  {
    var rows := ExportRows(comparison);
    var headers := Headers(rows);
    var parts := [HeaderLine(headers)] + RowLines(headers, rows);
    HeaderLineNewline(headers);
    forall i | 0 <= i < |parts| ensures '\n' !in parts[i] {
      if i > 0 {
        RowLineNewline(headers, rows[i - 1]);
      }
    }
    Text.SplitJoin(parts, '\n');
  }

  /**
   * The circuit encoder does not quote a newline, so a cell holding one splits its row
   * across lines: the text then has more than rows + 1 lines.
   */
  lemma ExportCsvNewlineSplitsRow(comparison: Comparison, k: int, h: Column)
    requires 0 <= k < |ExportRows(comparison)| && h in Headers(ExportRows(comparison))
    requires '\n' in CellText(ExportRows(comparison)[k], h)
    ensures |Text.Split(ExportCsv(comparison), '\n')| > |ExportRows(comparison)| + 1
  {
    var rows := ExportRows(comparison);
    var headers := Headers(rows);
    var parts := [HeaderLine(headers)] + RowLines(headers, rows);
    var cells := RowCells(headers, rows[k]);
    var j :| 0 <= j < |headers| && headers[j] == h;
    CircuitCellNewline(CellText(rows[k], h));
    Text.JoinKeeps(",", cells, j, '\n');
    assert parts[k + 1] == RowLine(headers, rows[k]);
    Text.CountPositive(parts[k + 1], '\n');
    Text.JoinCountAtLeast(parts, '\n', k + 1);
    Text.SplitCount(ExportCsv(comparison), '\n');
  }

  // ---------------------------------------------------------------------------
  // Spreadsheet rows

  /** A row object spread into a new one that adds `_rowColor` last. */
  function ColoredRow(s: RowSource): (r: Row) {
    SourceRow(s) + [(RowColorCol, Str(RowColor(s.bucket)))]
  }

  function ColoredRows(sources: seq<RowSource>): (r: seq<Row>)
    ensures |r| == |sources| && forall i :: 0 <= i < |sources| ==> r[i] == ColoredRow(sources[i])
  {
    if sources == [] then [] else ColoredRows(sources[..|sources| - 1]) + [ColoredRow(sources[|sources| - 1])]
  }

  /** The rows `exportDifferencesAsExcel` hands to the spreadsheet library. */
  function ExcelRows(comparison: Comparison): (r: seq<Row>)
    ensures |r| == |comparison.added| + |comparison.removed| + |comparison.modified|
    ensures forall i :: 0 <= i < |r| ==> |r[i]| >= 1 && r[i][|r[i]| - 1].0 == RowColorCol
  {
    ColoredRows(RowSources(comparison))
  }

  /** The spreadsheet rows are the CSV rows, each with its bucket's `_rowColor` added last. */
  lemma ExcelRowsExtendCsvRows(comparison: Comparison)
    ensures |ExcelRows(comparison)| == |ExportRows(comparison)|
    ensures forall i :: 0 <= i < |ExportRows(comparison)| ==>
      ExcelRows(comparison)[i] == ExportRows(comparison)[i] + [(RowColorCol, Str(RowColor(RowBucket(comparison, i))))]
  {
    RowSourcesLayout(comparison);
  }

  /**
   * `exportDifferencesAsExcel`: `library` stands for every step inside its `try` block that the
   * spreadsheet library performs: the dynamic import, building the workbook and sheet, and
   * writing the file. A failure in any of them is rethrown unchanged; otherwise the rows are
   * handed over.
   */
  function ExportExcel(comparison: Comparison, library: Result<(), string>): (r: Result<seq<Row>, string>)
    ensures r.Failure? <==> library.Failure?
    ensures r.Failure? ==> r.error == library.error
    ensures r.Success? ==> r.value == ExcelRows(comparison)
  {
    match library
    case Failure(e) => Failure(e)
    case Success(_) => Success(ExcelRows(comparison))
  }
}
