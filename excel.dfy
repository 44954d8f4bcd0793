/**
 * The location spreadsheet exchange of `excel.ts`: the CSV text `exportToExcel` builds from
 * a list of locations, and the line and field mapping of `parseLocationsCsv`. The download,
 * the `FileReader` and the promise around them are not part of this model.
 */
module Excel {
  import opened Wrappers
  import Text
  import opened Numbers
  import Seqs
  import Csv

  /** A location as the exporter reads it; an absent optional field is `None`. */
  datatype Location = Location(
    name: string,
    address: string,
    city: string,
    state: string,
    zipCode: string,
    country: string,
    criticality: string,
    siteDescription: Option<string>,
    criticalProcesses: Option<string>,
    activeUsers: Option<int>,
    numServers: Option<int>,
    numDevices: Option<int>,
    hostedApplications: Option<string>,
    companyName: Option<string>)

  /** The export header, in column order. */
  const LocationHeaders: seq<string> := [
    "Name", "Address", "City", "State", "ZIP Code", "Country", "Criticality", "Site Description",
    "Critical Processes", "Active Users", "Number of Servers", "Number of Devices",
    "Hosted Applications", "Company"
  ]

  // ---------------------------------------------------------------------------
  // Export

  /** `field || ''`, then `toString()`. */
  function TextCell(o: Option<string>): (r: string) {
    o.GetOr("")
  }

  /** `count || 0`, then `toString()`. */
  function CountCell(o: Option<int>): (r: string) {
    IntToString(o.GetOr(0))
  }

  /** The fourteen values of a location's row, before escaping. */
  function LocationValues(l: Location): (r: seq<string>)
    ensures |r| == |LocationHeaders|
  {
    [l.name, l.address, l.city, l.state, l.zipCode, l.country, l.criticality,
     TextCell(l.siteDescription), TextCell(l.criticalProcesses),
     CountCell(l.activeUsers), CountCell(l.numServers), CountCell(l.numDevices),
     TextCell(l.hostedApplications), TextCell(l.companyName)]
  }

  /** A location CSV cell: quoted when it holds a comma, a newline or a double quote. */
  function LocationCell(s: string): (r: string)
    ensures !Text.Contains(s, ",") && !Text.Contains(s, "\n") && !Text.Contains(s, "\"") ==> r == s
    ensures Text.Contains(s, ",") || Text.Contains(s, "\n") || Text.Contains(s, "\"") ==>
      |r| >= |s| + 2 && r[0] == '"' && r[|r| - 1] == '"'
  {
    Csv.EscapeIf(s, Text.Contains(s, ",") || Text.Contains(s, "\n") || Text.Contains(s, "\""))
  }

  function LocationCells(values: seq<string>): (r: seq<string>)
    ensures |r| == |values| && forall i :: 0 <= i < |values| ==> r[i] == LocationCell(values[i])
  {
    if values == [] then [] else LocationCells(values[..|values| - 1]) + [LocationCell(values[|values| - 1])]
  }

  function LocationLine(l: Location): (r: string) {
    Text.Join(",", LocationCells(LocationValues(l)))
  }

  function LocationLines(ls: seq<Location>): (r: seq<string>)
    ensures |r| == |ls| && forall i :: 0 <= i < |ls| ==> r[i] == LocationLine(ls[i])
  {
    if ls == [] then [] else LocationLines(ls[..|ls| - 1]) + [LocationLine(ls[|ls| - 1])]
  }

  /** The CSV text `exportToExcel` puts in its download: the header line, then one line per location. */
  function ExportLocationsCsv(ls: seq<Location>): (r: string)
    ensures Text.StartsWith(r, Text.Join(",", LocationHeaders))
    ensures ls == [] ==> r == Text.Join(",", LocationHeaders)
  {
    Text.JoinFirst("\n", [Text.Join(",", LocationHeaders)] + LocationLines(ls));
    Text.Join("\n", [Text.Join(",", LocationHeaders)] + LocationLines(ls))
  }

  /** A cell is quoted exactly when it holds a comma, a newline or a quote, and reading it back gives its text. */
  lemma LocationCellQuoting(s: string)
    ensures LocationCell(s) == if ',' in s || '\n' in s || '"' in s then Csv.Quote(s) else s
    ensures Csv.Unescape(LocationCell(s)) == s
  {
    Text.ContainsChar(s, ',');
    Text.ContainsChar(s, '\n');
    Text.ContainsChar(s, '"');
    if ',' in s || '\n' in s || '"' in s {
      Csv.UnescapeQuote(s);
    } else {
      Csv.UnescapeBare(s);
    }
  }

  /**
   * Every row has one cell per header; a missing optional text exports as the empty string,
   * a missing count as `0`.
   */
  lemma LocationRowShape(l: Location)
    ensures |LocationCells(LocationValues(l))| == |LocationHeaders| == 14
    ensures l.siteDescription.None? ==> LocationCells(LocationValues(l))[7] == ""
    ensures l.criticalProcesses.None? ==> LocationCells(LocationValues(l))[8] == ""
    ensures l.activeUsers.None? ==> LocationCells(LocationValues(l))[9] == "0"
    ensures l.numServers.None? ==> LocationCells(LocationValues(l))[10] == "0"
    ensures l.numDevices.None? ==> LocationCells(LocationValues(l))[11] == "0"
    ensures l.hostedApplications.None? ==> LocationCells(LocationValues(l))[12] == ""
    ensures l.companyName.None? ==> LocationCells(LocationValues(l))[13] == ""
  {
    var values := LocationValues(l);
    LocationCellQuoting("");
    LocationCellQuoting("0");
    assert IntToString(0) == "0";
  }

  // ---------------------------------------------------------------------------
  // Import

  /** The fields `parseLocationsCsv` can set on a fresh location; `None` is a field left unset. */
  datatype ParsedLocation = ParsedLocation(
    name: Option<string>,
    address: Option<string>,
    city: Option<string>,
    state: Option<string>,
    zipCode: Option<string>,
    country: Option<string>,
    criticality: Option<string>,
    siteDescription: Option<string>,
    criticalProcesses: Option<string>,
    activeUsers: Option<int>,
    numServers: Option<int>,
    numDevices: Option<int>,
    hostedApplications: Option<string>)

  /** The empty object `{}` each data line starts from. */
  const Unset := ParsedLocation(None, None, None, None, None, None, None, None, None, None, None, None, None)

  /** `values[index]`: `None` past the end of the line, where JavaScript reads `undefined`. */
  function ValueAt(values: seq<string>, index: nat): (r: Option<string>) {
    if index < |values| then Some(values[index]) else None
  }

  /** `parseInt(value) || 0`: the leading integer, or 0 when there is none. */
  function CountValue(value: Option<string>): (r: int)
    ensures value.None? ==> r == 0
    ensures value.Some? && ParseInt(value.value).None? ==> r == 0
    ensures value.Some? && ParseInt(value.value).Some? ==> r == ParseInt(value.value).value
  {
    match value
    case None => 0
    case Some(s) => ParseInt(s).GetOr(0)
  }

  /** The fields the importer's `switch` can set. */
  datatype ImportField =
    | NameField | AddressField | CityField | StateField | ZipCodeField | CountryField | CriticalityField
    | SiteDescriptionField | CriticalProcessesField | ActiveUsersField | NumServersField | NumDevicesField
    | HostedApplicationsField

  /** The `case` label a header matches, if any. */
  function HeaderField(header: string): (r: Option<ImportField>) {
    if header == "Name" then Some(NameField)
    else if header == "Address" then Some(AddressField)
    else if header == "City" then Some(CityField)
    else if header == "State" then Some(StateField)
    else if header == "ZIP Code" then Some(ZipCodeField)
    else if header == "Country" then Some(CountryField)
    else if header == "Criticality" then Some(CriticalityField)
    else if header == "Site Description" then Some(SiteDescriptionField)
    else if header == "Critical Processes" then Some(CriticalProcessesField)
    else if header == "Active Users" then Some(ActiveUsersField)
    else if header == "Number of Servers" then Some(NumServersField)
    else if header == "Number of Devices" then Some(NumDevicesField)
    else if header == "Hosted Applications" then Some(HostedApplicationsField)
    else None
  }

  /** The body of one `case`: text fields take the value, counts its leading integer or 0. */
  function SetField(location: ParsedLocation, field: ImportField, value: Option<string>): (r: ParsedLocation) {
    match field
    case NameField => location.(name := value)
    case AddressField => location.(address := value)
    case CityField => location.(city := value)
    case StateField => location.(state := value)
    case ZipCodeField => location.(zipCode := value)
    case CountryField => location.(country := value)
    case CriticalityField => location.(criticality := value)
    case SiteDescriptionField => location.(siteDescription := value)
    case CriticalProcessesField => location.(criticalProcesses := value)
    case ActiveUsersField => location.(activeUsers := Some(CountValue(value)))
    case NumServersField => location.(numServers := Some(CountValue(value)))
    case NumDevicesField => location.(numDevices := Some(CountValue(value)))
    case HostedApplicationsField => location.(hostedApplications := value)
  }

  /** One pass of the `forEach`: the field the header names takes the value; other headers change nothing. */
  function ApplyHeader(location: ParsedLocation, header: string, value: Option<string>): (r: ParsedLocation) {
    match HeaderField(header)
    case Some(field) => SetField(location, field, value)
    case None => location
  }

  /** The location after the headers from position `i` on have been applied to `location`. */
  function RecordFrom(location: ParsedLocation, headers: seq<string>, values: seq<string>, i: nat): (r: ParsedLocation)
    ensures (forall j :: i <= j < |headers| ==> HeaderField(headers[j]).None?) ==> r == location
    decreases |headers| - i
  {
    if i >= |headers| then location
    else RecordFrom(ApplyHeader(location, headers[i], ValueAt(values, i)), headers, values, i + 1)
  }

  /** One step of `RecordFrom` at a header that names a field. */
  lemma RecordFromStep(location: ParsedLocation, headers: seq<string>, values: seq<string>, i: nat)
    requires i < |headers| && HeaderField(headers[i]).Some?
    ensures RecordFrom(location, headers, values, i)
      == RecordFrom(SetField(location, HeaderField(headers[i]).value, ValueAt(values, i)), headers, values, i + 1)
  {
  }

  /** The object one data line becomes. */
  function Record(headers: seq<string>, values: seq<string>): (r: ParsedLocation)
    ensures (forall j :: 0 <= j < |headers| ==> HeaderField(headers[j]).None?) ==> r == Unset
  {
    RecordFrom(Unset, headers, values, 0)
  }

  /** The `headers.forEach` with its `switch`, filling a fresh object field by field. */
  method ParseRecord(headers: seq<string>, values: seq<string>) returns (location: ParsedLocation)
    ensures location == Record(headers, values)
  {
    location := Unset;
    var i := 0;
    while i < |headers|
      invariant 0 <= i <= |headers|
      invariant RecordFrom(location, headers, values, i) == Record(headers, values)
      decreases |headers| - i
    {
      var header := headers[i];
      var value := ValueAt(values, i);
      if header == "Name" {
        location := location.(name := value);
      } else if header == "Address" {
        location := location.(address := value);
      } else if header == "City" {
        location := location.(city := value);
      } else if header == "State" {
        location := location.(state := value);
      } else if header == "ZIP Code" {
        location := location.(zipCode := value);
      } else if header == "Country" {
        location := location.(country := value);
      } else if header == "Criticality" {
        location := location.(criticality := value);
      } else if header == "Site Description" {
        location := location.(siteDescription := value);
      } else if header == "Critical Processes" {
        location := location.(criticalProcesses := value);
      } else if header == "Active Users" {
        location := location.(activeUsers := Some(CountValue(value)));
      } else if header == "Number of Servers" {
        location := location.(numServers := Some(CountValue(value)));
      } else if header == "Number of Devices" {
        location := location.(numDevices := Some(CountValue(value)));
      } else if header == "Hosted Applications" {
        location := location.(hostedApplications := value);
      }
      i := i + 1;
    }
  }

  /** A header the `switch` does not list, the exported `Company` among them, sets nothing. */
  lemma UnknownHeaderIgnored(location: ParsedLocation, header: string, value: Option<string>)
    requires header !in LocationHeaders[..13]
    ensures ApplyHeader(location, header, value) == location
  {
    assert LocationHeaders[..13] == [
      "Name", "Address", "City", "State", "ZIP Code", "Country", "Criticality", "Site Description",
      "Critical Processes", "Active Users", "Number of Servers", "Number of Devices",
      "Hosted Applications"];
  }

  /** `s.trim()` of every piece. */
  function TrimAll(parts: seq<string>): (r: seq<string>)
    ensures |r| == |parts| && forall i :: 0 <= i < |parts| ==> r[i] == Text.Trim(parts[i])
  {
    if parts == [] then [] else TrimAll(parts[..|parts| - 1]) + [Text.Trim(parts[|parts| - 1])]
  }

  /** `lines.filter(line => line.trim())`: the lines that are not blank, in order. */
  function DataLines(lines: seq<string>): (r: seq<string>)
    ensures Seqs.IsSubsequence(r, lines)
    ensures forall line :: line in r <==> line in lines && Text.Trim(line) != ""
    ensures forall line :: multiset(r)[line] == if Text.Trim(line) != "" then multiset(lines)[line] else 0
  {
    if lines == [] then []
    else
      var init := DataLines(lines[..|lines| - 1]);
      var last := lines[|lines| - 1];
      Seqs.Snoc(lines);
      if Text.Trim(last) != "" then
        Seqs.Snoc(init + [last]);
        assert (init + [last])[..|init + [last]| - 1] == init;
        init + [last]
      else init
  }

  /** One data line: split on every comma, trim each value, then map the values by header. */
  function ParseLine(headers: seq<string>, line: string): (r: ParsedLocation)
    ensures (forall j :: 0 <= j < |headers| ==> HeaderField(headers[j]).None?) ==> r == Unset
  {
    Record(headers, TrimAll(Text.Split(line, ',')))
  }

  function ParseLines(headers: seq<string>, lines: seq<string>): (r: seq<ParsedLocation>)
    ensures |r| == |lines| && forall i :: 0 <= i < |lines| ==> r[i] == ParseLine(headers, lines[i])
  {
    Seqs.Map(lines, (line: string) => ParseLine(headers, line))
  }

  /** What the `FileReader` delivers: an error, or a load whose result may be missing. */
  datatype FileRead = ReadFailed | Loaded(result: Option<string>)

  /**
   * `parseLocationsCsv`: line 0 holds the headers, split on commas and trimmed; every
   * later line that is not blank becomes one object. A read error and a missing result reject.
   */
  function ParseLocationsCsv(read: FileRead): (r: Result<seq<ParsedLocation>, string>)
    ensures read == ReadFailed ==> r == Failure("Failed to read file")
    ensures read == Loaded(None) ==> r == Failure("Failed to parse CSV file")
    ensures read.Loaded? && read.result.Some? ==>
      r.Success? && |r.value| == |DataLines(Text.Split(read.result.value, '\n')[1..])|
  {
    match read
    case ReadFailed => Failure("Failed to read file")
    case Loaded(None) => Failure("Failed to parse CSV file")
    case Loaded(Some(text)) =>
      var lines := Text.Split(text, '\n');
      var headers := TrimAll(Text.Split(lines[0], ','));
      Success(ParseLines(headers, DataLines(lines[1..])))
  }

  // ---------------------------------------------------------------------------
  // Export, then import

  /** Text the two sides agree on: no comma, newline or quote, and no surrounding whitespace. */
  predicate PlainText(s: string) {
    ',' !in s && '\n' !in s && '"' !in s &&
    (s == [] || (!Text.IsWhitespace(s[0]) && !Text.IsWhitespace(s[|s| - 1])))
  }

  /** Every exported field is plain text. */
  predicate PlainLocation(l: Location) {
    PlainText(l.name) && PlainText(l.address) && PlainText(l.city) && PlainText(l.state) &&
    PlainText(l.zipCode) && PlainText(l.country) && PlainText(l.criticality) &&
    PlainText(TextCell(l.siteDescription)) && PlainText(TextCell(l.criticalProcesses)) &&
    PlainText(TextCell(l.hostedApplications)) && PlainText(TextCell(l.companyName))
  }

  /**
   * What importing an exported location gives back: every field as written, a missing
   * optional text as the empty string, a missing count as 0, and no company.
   */
  function Reimported(l: Location): (r: ParsedLocation) {
    ParsedLocation(
      Some(l.name), Some(l.address), Some(l.city), Some(l.state), Some(l.zipCode), Some(l.country),
      Some(l.criticality), Some(TextCell(l.siteDescription)), Some(TextCell(l.criticalProcesses)),
      Some(l.activeUsers.GetOr(0)), Some(l.numServers.GetOr(0)), Some(l.numDevices.GetOr(0)),
      Some(TextCell(l.hostedApplications)))
  }

  lemma IntToStringPlain(n: int)
    ensures PlainText(IntToString(n))
  {
    var s := IntToString(n);
    assert forall i :: 0 <= i < |s| ==> s[i] == '-' || IsDigit(s[i]);
  }

  /** A header is letters and spaces between letters. */
  predicate NameChar(c: char) {
    'A' <= c <= 'Z' || 'a' <= c <= 'z' || c == ' '
  }

  lemma NamePlain(s: string)
    requires s != [] && s[0] != ' ' && s[|s| - 1] != ' '
    requires forall i :: 0 <= i < |s| ==> NameChar(s[i])
    ensures PlainText(s)
  {
  }

  lemma HeadersPlainFirst()
    ensures forall i :: 0 <= i < 7 ==> PlainText(LocationHeaders[i])
  {
    forall i | 0 <= i < 7 ensures PlainText(LocationHeaders[i]) {
      NamePlain(LocationHeaders[i]);
    }
  }

  lemma HeadersPlainRest()
    ensures forall i :: 7 <= i < |LocationHeaders| ==> PlainText(LocationHeaders[i])
  {
    forall i | 7 <= i < |LocationHeaders| ensures PlainText(LocationHeaders[i]) {
      NamePlain(LocationHeaders[i]);
    }
  }

  /** The header line is read back as the export headers. */
  lemma HeaderLineParses()
    ensures TrimAll(Text.Split(Text.Join(",", LocationHeaders), ',')) == LocationHeaders
  {
    HeadersPlainFirst();
    HeadersPlainRest();
    PlainSplit(LocationHeaders);
  }

  lemma HeaderLineWithoutNewline()
    ensures '\n' !in Text.Join(",", LocationHeaders)
  {
    HeadersPlainFirst();
    HeadersPlainRest();
    PlainSplit(LocationHeaders);
  }

  /** No exported row line holds a newline. */
  lemma LinesWithoutNewline(ls: seq<Location>)
    requires forall i :: 0 <= i < |ls| ==> PlainLocation(ls[i])
    ensures forall i :: 0 <= i < |ls| ==> '\n' !in LocationLines(ls)[i]
  {
    forall i | 0 <= i < |ls| ensures '\n' !in LocationLines(ls)[i] {
      ValuesPlain(ls[i]);
      PlainCells(LocationValues(ls[i]));
      PlainSplit(LocationValues(ls[i]));
    }
  }

  lemma ValuesPlain(l: Location)
    requires PlainLocation(l)
    ensures forall i :: 0 <= i < |LocationValues(l)| ==> PlainText(LocationValues(l)[i])
  {
    IntToStringPlain(l.activeUsers.GetOr(0));
    IntToStringPlain(l.numServers.GetOr(0));
    IntToStringPlain(l.numDevices.GetOr(0));
  }

  lemma PlainTrimmed(s: string)
    requires PlainText(s)
    ensures Text.Trim(s) == s
  {
    Text.TrimUntouched(s);
  }

  /** Plain values are written bare, so a plain row's cells are its values. */
  lemma PlainCells(values: seq<string>)
    requires forall i :: 0 <= i < |values| ==> PlainText(values[i])
    ensures LocationCells(values) == values
  {
    forall i | 0 <= i < |values| ensures LocationCells(values)[i] == values[i] {
      LocationCellQuoting(values[i]);
    }
  }

  /** Plain pieces joined with commas split and trim back into themselves. */
  lemma PlainSplit(parts: seq<string>)
    requires |parts| >= 1 && forall i :: 0 <= i < |parts| ==> PlainText(parts[i])
    ensures TrimAll(Text.Split(Text.Join(",", parts), ',')) == parts
    ensures '\n' !in Text.Join(",", parts)
  {
    Text.SplitJoin(parts, ',');
    Text.JoinChars(",", parts, '\n');
    TrimAllPlain(parts);
  }

  lemma TrimAllPlain(parts: seq<string>)
    requires forall i :: 0 <= i < |parts| ==> PlainText(parts[i])
    ensures TrimAll(parts) == parts
  {
    forall i | 0 <= i < |parts| ensures TrimAll(parts)[i] == parts[i] {
      PlainTrimmed(parts[i]);
    }
  }

  /** An exported row line is never blank: it holds thirteen commas. */
  lemma LineNotBlank(parts: seq<string>)
    requires |parts| >= 2
    ensures Text.Trim(Text.Join(",", parts)) != ""
  {
    var line := Text.Join(",", parts);
    var head := Text.Join(",", parts[..|parts| - 1]);
    assert line == head + "," + parts[|parts| - 1];
    assert line[|head|] == ',';
    Text.TrimEmptyIffBlank(line);
  }

  /** The fields of the first thirteen export columns; `Company` has none. */
  const ExportFields: seq<ImportField> := [
    NameField, AddressField, CityField, StateField, ZipCodeField, CountryField, CriticalityField,
    SiteDescriptionField, CriticalProcessesField, ActiveUsersField, NumServersField, NumDevicesField,
    HostedApplicationsField
  ]

  /** Every export header but the last names its own field, and `Company` none. */
  lemma ExportHeaderFields()
    ensures forall k :: 0 <= k < 13 ==> HeaderField(LocationHeaders[k]) == Some(ExportFields[k])
    ensures HeaderField(LocationHeaders[13]) == None
  {
    var h := LocationHeaders;
    assert h[2][0] != h[0][0] && h[5][0] != h[1][0] && h[13][0] != h[1][0] && h[13][2] != h[5][2];
    assert h[11][10] != h[10][10];
  }

  /**
   * Under headers whose first seven name the seven required text fields, as the export's do,
   * the first seven columns set those fields.
   */
  lemma RecordOfFirstColumns(h: seq<string>, values: seq<string>)
    requires |h| >= 7 && |values| >= 7
    requires forall k :: 0 <= k < 7 ==> HeaderField(h[k]) == Some(ExportFields[k])
    ensures Record(h, values) == RecordFrom(
      Unset.(name := Some(values[0]), address := Some(values[1]), city := Some(values[2]),
             state := Some(values[3]), zipCode := Some(values[4]), country := Some(values[5]),
             criticality := Some(values[6])),
      h, values, 7)
  {
    var l0 := Unset;
    var l1 := l0.(name := Some(values[0]));
    var l2 := l1.(address := Some(values[1]));
    var l3 := l2.(city := Some(values[2]));
    var l4 := l3.(state := Some(values[3]));
    var l5 := l4.(zipCode := Some(values[4]));
    var l6 := l5.(country := Some(values[5]));
    var l7 := l6.(criticality := Some(values[6]));
    assert ExportFields[..7] == [NameField, AddressField, CityField, StateField, ZipCodeField, CountryField, CriticalityField];
    RecordFromStep(l0, h, values, 0);
    RecordFromStep(l1, h, values, 1);
    RecordFromStep(l2, h, values, 2);
    RecordFromStep(l3, h, values, 3);
    RecordFromStep(l4, h, values, 4);
    RecordFromStep(l5, h, values, 5);
    RecordFromStep(l6, h, values, 6);
  }

  /** The object a line of exactly the exported headers and at least thirteen values becomes. */
  lemma RecordOfExportHeaders(values: seq<string>)
    requires |values| >= 13
    ensures Record(LocationHeaders, values) == ParsedLocation(
      Some(values[0]), Some(values[1]), Some(values[2]), Some(values[3]), Some(values[4]), Some(values[5]),
      Some(values[6]), Some(values[7]), Some(values[8]), Some(CountValue(Some(values[9]))),
      Some(CountValue(Some(values[10]))), Some(CountValue(Some(values[11]))), Some(values[12]))
  {
    var h := LocationHeaders;
    ExportHeaderFields();
    RecordOfFirstColumns(h, values);
    var l7 := Unset.(name := Some(values[0]), address := Some(values[1]), city := Some(values[2]),
                     state := Some(values[3]), zipCode := Some(values[4]), country := Some(values[5]),
                     criticality := Some(values[6]));
    var l8 := l7.(siteDescription := Some(values[7]));
    var l9 := l8.(criticalProcesses := Some(values[8]));
    var l10 := l9.(activeUsers := Some(CountValue(Some(values[9]))));
    var l11 := l10.(numServers := Some(CountValue(Some(values[10]))));
    var l12 := l11.(numDevices := Some(CountValue(Some(values[11]))));
    var l13 := l12.(hostedApplications := Some(values[12]));
    assert RecordFrom(l7, h, values, 7) == RecordFrom(l8, h, values, 8);
    assert RecordFrom(l8, h, values, 8) == RecordFrom(l9, h, values, 9);
    assert RecordFrom(l9, h, values, 9) == RecordFrom(l10, h, values, 10);
    assert RecordFrom(l10, h, values, 10) == RecordFrom(l11, h, values, 11);
    assert RecordFrom(l11, h, values, 11) == RecordFrom(l12, h, values, 12);
    assert RecordFrom(l12, h, values, 12) == RecordFrom(l13, h, values, 13);
    assert RecordFrom(l13, h, values, 13) == RecordFrom(l13, h, values, 14);
  }

  /** A plain location's line is read back as the location it was written from. */
  lemma ParseExportedLine(l: Location)
    requires PlainLocation(l)
    ensures ParseLine(LocationHeaders, LocationLine(l)) == Reimported(l)
  {
    var values := LocationValues(l);
    ValuesPlain(l);
    PlainCells(values);
    PlainSplit(values);
    RecordOfExportHeaders(values);
    ParseIntToString(l.activeUsers.GetOr(0), "");
    ParseIntToString(l.numServers.GetOr(0), "");
    ParseIntToString(l.numDevices.GetOr(0), "");
    assert IntToString(l.activeUsers.GetOr(0)) + "" == IntToString(l.activeUsers.GetOr(0));
    assert IntToString(l.numServers.GetOr(0)) + "" == IntToString(l.numServers.GetOr(0));
    assert IntToString(l.numDevices.GetOr(0)) + "" == IntToString(l.numDevices.GetOr(0));
  }

  /** None of the exported lines is blank, so the importer keeps them all. */
  lemma {:induction false} ExportedLinesKept(ls: seq<Location>)
    ensures DataLines(LocationLines(ls)) == LocationLines(ls)
  {
    if ls != [] {
      ExportedLinesKept(ls[..|ls| - 1]);
      LineNotBlank(LocationCells(LocationValues(ls[|ls| - 1])));
    }
  }

  /** A header line and row lines without newlines split back apart at the newlines that join them. */
  lemma SplitLines(header: string, lines: seq<string>)
    requires '\n' !in header && forall i :: 0 <= i < |lines| ==> '\n' !in lines[i]
    ensures Text.Split(Text.Join("\n", [header] + lines), '\n') == [header] + lines
  {
    var parts := [header] + lines;
    forall i | 0 <= i < |parts| ensures '\n' !in parts[i] {
      if i > 0 {
        assert parts[i] == lines[i - 1];
      }
    }
    Text.SplitJoin(parts, '\n');
  }

  /** The importer reads the first line as headers and parses the non-blank lines after it. */
  lemma ParseOfLines(text: string, headerLine: string, lines: seq<string>)
    requires Text.Split(text, '\n') == [headerLine] + lines
    ensures ParseLocationsCsv(Loaded(Some(text))) ==
      Success(ParseLines(TrimAll(Text.Split(headerLine, ',')), DataLines(lines)))
  {
    assert ([headerLine] + lines)[1..] == lines;
  }

  /** Plain locations' lines parse one by one into what was written. */
  lemma ParseExportedLines(ls: seq<Location>)
    requires forall i :: 0 <= i < |ls| ==> PlainLocation(ls[i])
    ensures |ParseLines(LocationHeaders, LocationLines(ls))| == |ls|
    ensures forall i :: 0 <= i < |ls| ==> ParseLines(LocationHeaders, LocationLines(ls))[i] == Reimported(ls[i])
  {
    forall i | 0 <= i < |ls| ensures ParseLines(LocationHeaders, LocationLines(ls))[i] == Reimported(ls[i]) {
      ParseExportedLine(ls[i]);
    }
  }

  /**
   * Importing the export of plain locations gives one object per location, in order, each
   * holding what was written: the company is dropped, missing optional text comes back
   * empty and missing counts come back 0.
   */
  lemma ExportThenImport(ls: seq<Location>)
    requires forall i :: 0 <= i < |ls| ==> PlainLocation(ls[i])
    ensures ParseLocationsCsv(Loaded(Some(ExportLocationsCsv(ls)))).Success?
    ensures |ParseLocationsCsv(Loaded(Some(ExportLocationsCsv(ls)))).value| == |ls|
    ensures forall i :: 0 <= i < |ls| ==> ParseLocationsCsv(Loaded(Some(ExportLocationsCsv(ls)))).value[i] == Reimported(ls[i])
  {
    var header := Text.Join(",", LocationHeaders);
    var lines := LocationLines(ls);
    HeaderLineWithoutNewline();
    LinesWithoutNewline(ls);
    SplitLines(header, lines);
    ParseOfLines(ExportLocationsCsv(ls), header, lines);
    HeaderLineParses();
    ExportedLinesKept(ls);
    ParseExportedLines(ls);
  }
}
