/** The CSV side of the import/export service: the template, the parser and the
    import of parsed rows. */
module ImportExport {
  import opened Wrappers
  import opened Seqs
  import opened Text
  import opened Hris
  import Employees

  // ---------------------------------------------------------------------------
  // Headers

  /** The employee fields a CSV column can fill. */
  datatype CsvField = FirstName | LastName | Title | Department | Email | Phone | HireDate | Salary | Status

  /** The field a lowercased header names: the cases of the `switch` in `parseCSV`,
      three of them with an alias; any other header names nothing. */
  function FieldNamed(name: string): Option<CsvField>
  {
    match name
    case "firstname" | "first_name" => Some(FirstName)
    case "lastname" | "last_name" => Some(LastName)
    case "title" => Some(Title)
    case "department" => Some(Department)
    case "email" => Some(Email)
    case "phone" => Some(Phone)
    case "hiredate" | "hire_date" => Some(HireDate)
    case "salary" => Some(Salary)
    case "status" => Some(Status)
    case _ => None
  }

  /** The field a (trimmed) header names: the `switch` runs on `header.toLowerCase()`. */
  function FieldOf(header: string): Option<CsvField>
  {
    FieldNamed(Lower(header))
  }

  /** Header matching ignores case. */
  lemma FieldOfIgnoresCase(header: string)
    ensures FieldOf(header) == FieldOf(Lower(header))
  {
    LowerIdempotent(header);
  }

  /** The aliases name the same field as the plain names; column names the switch does
      not list, such as a team or a manager column, or a name that still has capitals,
      name nothing. */
  lemma HeaderAliases()
    ensures FieldNamed("firstname") == FieldNamed("first_name") == Some(FirstName)
    ensures FieldNamed("lastname") == FieldNamed("last_name") == Some(LastName)
    ensures FieldNamed("hiredate") == FieldNamed("hire_date") == Some(HireDate)
    ensures FieldNamed("team") == None && FieldNamed("manager_id") == None && FieldNamed("firstName") == None
  {
  }

  // ---------------------------------------------------------------------------
  // Rows

  /** The fields a data line set, with their values. */
  type CsvRecord = map<CsvField, string>

  /** The trimmed cells of a line. */
  function Cells(line: string): seq<string>
  {
    MapSeq(Split(line, ','), Trim)
  }

  /** The field each header names. */
  function HeaderFields(headers: seq<string>): (r: seq<Option<CsvField>>)
    ensures |r| == |headers| && forall i :: 0 <= i < |headers| ==> r[i] == FieldOf(headers[i])
  {
    MapSeq(headers, FieldOf)
  }

  /** Column `i` fills field `f`: its header names `f` and the line has a non-empty
      cell there (a missing trailing cell and an empty one fill nothing). */
  predicate Fills(fields: seq<Option<CsvField>>, values: seq<string>, i: int, f: CsvField)
  {
    0 <= i < |fields| && i < |values| && values[i] != "" && fields[i] == Some(f)
  }

  /** The record after the first `n` columns were visited, left to right. */
  function AssignCells(fields: seq<Option<CsvField>>, values: seq<string>, n: nat): CsvRecord
    requires n <= |fields|
  {
    if n == 0 then map[]
    else
      var rec := AssignCells(fields, values, n - 1);
      var i := n - 1;
      if i < |values| && values[i] != "" && fields[i].Some? then rec[fields[i].value := values[i]]
      else rec
  }

  /** A field is set exactly when some column fills it, and then it holds the value of
      the last column that does. */
  lemma {:induction false} AssignCellsLastWins(fields: seq<Option<CsvField>>, values: seq<string>, n: nat, f: CsvField)
    requires n <= |fields|
    ensures f in AssignCells(fields, values, n) <==> exists i :: 0 <= i < n && Fills(fields, values, i, f)
    ensures f in AssignCells(fields, values, n) ==>
      exists i :: 0 <= i < n && Fills(fields, values, i, f) && AssignCells(fields, values, n)[f] == values[i]
        && forall j :: i < j < n ==> !Fills(fields, values, j, f)
  {
    if n > 0 {
      AssignCellsLastWins(fields, values, n - 1, f);
      if Fills(fields, values, n - 1, f) {
        assert AssignCells(fields, values, n)[f] == values[n - 1];
      } else {
        assert f in AssignCells(fields, values, n) <==> f in AssignCells(fields, values, n - 1);
        if f in AssignCells(fields, values, n) {
          assert AssignCells(fields, values, n)[f] == AssignCells(fields, values, n - 1)[f];
        }
      }
    }
  }

  /** The record a data line yields. */
  function Record(headers: seq<string>, line: string): CsvRecord
  {
    AssignCells(HeaderFields(headers), Cells(line), |headers|)
  }

  /** A row is kept when the four fields without a default are set; the hire date
      becomes a `Date`, which is truthy whatever the cell said. */
  predicate Complete(rec: CsvRecord)
  {
    FirstName in rec && LastName in rec && Title in rec && HireDate in rec
  }

  /** The cell a record holds for `f`, or no key when it set none. */
  function Get(rec: CsvRecord, f: CsvField): (r: Option<string>)
    ensures r.Some? <==> f in rec
    ensures r.Some? ==> r.value == rec[f]
  {
    if f in rec then Some(rec[f]) else None
  }

  /** The same for a nullable column: a set field is never `null`. */
  function GetNullable(rec: CsvRecord, f: CsvField): (r: Option<Option<string>>)
    ensures r.Some? <==> f in rec
    ensures r.Some? ==> r.value == Some(rec[f])
  {
    if f in rec then Some(Some(rec[f])) else None
  }

  /** The partial employee a record stands for: a key for exactly each field the
      record set, holding the cell's text; a CSV row never names a manager or a team. */
  function RowPatch(rec: CsvRecord): (p: EmployeePatch)
    ensures p.firstName == Get(rec, FirstName) && p.lastName == Get(rec, LastName)
    ensures p.title == Get(rec, Title) && p.hireDate == Get(rec, HireDate) && p.status == Get(rec, Status)
    ensures p.department == GetNullable(rec, Department) && p.email == GetNullable(rec, Email)
    ensures p.phone == GetNullable(rec, Phone) && p.salary == GetNullable(rec, Salary)
    ensures p.managerId.None? && p.teamId.None?
  {
    EmployeePatch(Get(rec, FirstName), Get(rec, LastName), Get(rec, Title),
                  GetNullable(rec, Department), GetNullable(rec, Email), GetNullable(rec, Phone),
                  None, None, Get(rec, HireDate), GetNullable(rec, Salary), Get(rec, Status))
  }

  /** The rows the data lines yield, in line order. */
  function ParseRows(headers: seq<string>, lines: seq<string>): (r: seq<EmployeePatch>)
    ensures |r| <= |lines|
  {
    if lines == [] then []
    else
      var rec := Record(headers, lines[|lines| - 1]);
      ParseRows(headers, lines[..|lines| - 1]) + if Complete(rec) then [RowPatch(rec)] else []
  }

  /** One more data line adds its record when it is complete. */
  lemma ParseRowsSnoc(headers: seq<string>, lines: seq<string>, i: nat)
    requires i < |lines|
    ensures ParseRows(headers, lines[..i + 1]) == ParseRows(headers, lines[..i])
      + if Complete(Record(headers, lines[i])) then [RowPatch(Record(headers, lines[i]))] else []
  {
    assert lines[..i + 1][..i] == lines[..i];
  }

  /** The record of each data line, in line order. */
  function Records(headers: seq<string>, lines: seq<string>): (r: seq<CsvRecord>)
    ensures |r| == |lines|
  {
    if lines == [] then []
    else Records(headers, lines[..|lines| - 1]) + [Record(headers, lines[|lines| - 1])]
  }

  /** The rows are the complete records of the data lines, in order: nothing else is
      dropped and nothing reordered. */
  lemma {:induction false} ParseRowsFiltersComplete(headers: seq<string>, lines: seq<string>)
    ensures ParseRows(headers, lines) == MapSeq(Filter(Records(headers, lines), Complete), RowPatch)
  {
    if lines != [] {
      var init := lines[..|lines| - 1];
      var ri, rl := Records(headers, init), Record(headers, lines[|lines| - 1]);
      var tail := if Complete(rl) then [RowPatch(rl)] else [];
      calc {
        MapSeq(Filter(ri + [rl], Complete), RowPatch);
      == { FilterConcat(ri, [rl], Complete); }
        MapSeq(Filter(ri, Complete) + Filter([rl], Complete), RowPatch);
      == { MapSeqConcat(Filter(ri, Complete), Filter([rl], Complete), RowPatch); }
        MapSeq(Filter(ri, Complete), RowPatch) + MapSeq(Filter([rl], Complete), RowPatch);
      == { ParseRowsFiltersComplete(headers, init); }
        ParseRows(headers, init) + MapSeq(Filter([rl], Complete), RowPatch);
      == { assert MapSeq(Filter([rl], Complete), RowPatch) == tail; }
        ParseRows(headers, init) + tail;
      }
    }
  }

  /** A line `parseCSV` keeps: one whose `trim()` is not empty. */
  predicate HasText(line: string)
  {
    Trim(line) != ""
  }

  /** The lines `parseCSV` looks at: the pieces between newlines that are not blank. */
  function NonBlankLines(content: string): seq<string>
  {
    Filter(Split(content, '\n'), HasText)
  }

  /** Why `parseCSV` throws: no line is left to read the headers from. */
  datatype CsvError = NoHeaderRow

  /** `parseCSV`: the first non-blank line holds the headers, every later one is a data
      line. */
  function ParseCsvSpec(content: string): Result<seq<EmployeePatch>, CsvError>
  {
    var lines := NonBlankLines(content);
    if lines == [] then Err(NoHeaderRow)
    else Ok(ParseRows(Cells(lines[0]), lines[1..]))
  }

  /** Filtering out the blank lines leaves nothing exactly when every line is blank. */
  lemma NoTextIffBlank(pieces: seq<string>)
    ensures Filter(pieces, HasText) == [] <==> forall line :: line in pieces ==> AllSpace(line)
  {
    var lines := Filter(pieces, HasText);
    if lines == [] {
      forall line | line in pieces ensures AllSpace(line) {
        TrimEmptyIffAllSpace(line);
      }
    } else {
      TrimEmptyIffAllSpace(lines[0]);
    }
  }

  /** `parseCSV` throws exactly when every line is blank. */
  lemma ParseFailsIffBlank(content: string)
    ensures ParseCsvSpec(content).Err? <==> forall line :: line in Split(content, '\n') ==> AllSpace(line)
  {
    NoTextIffBlank(Split(content, '\n'));
  }

  // ---------------------------------------------------------------------------
  // Template

  const TemplateHeaders: seq<string> :=
    ["firstName", "lastName", "title", "department", "email", "phone", "hireDate", "salary", "status"]
  const ExampleRow: seq<string> :=
    ["John", "Doe", "Software Engineer", "Engineering", "john.doe@company.com", "555-0100", "2024-01-15", "100000", "active"]

  /** `generateCSVTemplate`: the header line and the example line, each ended by a
      newline. */
  function Template(): (s: string)
    ensures |s| > 0 && s[|s| - 1] == '\n'
  {
    Join(TemplateHeaders, ',') + "\n" + Join(ExampleRow, ',') + "\n"
  }

  /** The template's example row, as the parser returns it. */
  const ExamplePatch := EmployeePatch(
    Some("John"), Some("Doe"), Some("Software Engineer"), Some(Some("Engineering")),
    Some(Some("john.doe@company.com")), Some(Some("555-0100")), None, None,
    Some("2024-01-15"), Some(Some("100000")), Some("active"))

  /** The header line and the example line of the template. */
  const HeaderLine := Join(TemplateHeaders, ',')
  const ExampleLine := Join(ExampleRow, ',')

  /** The fields the template's headers name, column by column. */
  const TemplateFields: seq<Option<CsvField>> :=
    [Some(FirstName), Some(LastName), Some(Title), Some(Department), Some(Email), Some(Phone),
     Some(HireDate), Some(Salary), Some(Status)]

  /** A cell that neither starts nor ends with a space. */
  predicate Tight(cell: string)
  {
    cell != [] && !IsSpace(cell[0]) && !IsSpace(cell[|cell| - 1])
  }

  /** A cell that survives a round trip through a CSV line: no blanks around it and no
      comma or newline inside. */
  predicate PlainCell(cell: string)
  {
    Tight(cell) && ',' !in cell && '\n' !in cell
  }

  /** A two-line text splits into the two lines and the empty piece after the final
      newline. */
  lemma TwoLinesSplit(h: string, e: string)
    requires '\n' !in h && '\n' !in e
    ensures Split(h + "\n" + e + "\n", '\n') == [h, e, ""]
  {
    assert Join([h, e, ""], '\n') == h + "\n" + e + "\n" by {
      assert Join([e, ""], '\n') == e + "\n";
    }
    SplitJoin([h, e, ""], '\n');
  }

  /** When neither line is blank, both are kept and the final empty piece is not. */
  lemma TwoLines(h: string, e: string)
    requires '\n' !in h && '\n' !in e
    requires Tight(h) && Tight(e)
    ensures NonBlankLines(h + "\n" + e + "\n") == [h, e]
  {
    TwoLinesSplit(h, e);
    TrimEmptyIffAllSpace(h);
    TrimEmptyIffAllSpace(e);
    assert !HasText("");
    var pieces := [h, e, ""];
    assert pieces[1..] == [e, ""] && pieces[1..][1..] == [""];
    assert Filter([""], HasText) == [];
    assert Filter([e, ""], HasText) == [e];
  }

  /** A line joined from plain cells splits back into them. */
  lemma JoinedCells(cells: seq<string>)
    requires |cells| >= 1
    requires forall i :: 0 <= i < |cells| ==> PlainCell(cells[i])
    ensures Cells(Join(cells, ',')) == cells
    ensures '\n' !in Join(cells, ',') && Tight(Join(cells, ','))
  {
    NoSepInJoin(cells, ',', '\n');
    SplitJoin(cells, ',');
    TrimTightCells(cells);
    TightJoin(cells);
  }

  /** A join of tight cells is tight. */
  lemma TightJoin(cells: seq<string>)
    requires |cells| >= 1
    requires forall i :: 0 <= i < |cells| ==> Tight(cells[i])
    ensures Tight(Join(cells, ','))
  {
    JoinEnds(cells, ',');
  }

  /** A join starts with its first part's first character and ends with its last
      part's last character. */
  lemma {:induction false} JoinEnds(parts: seq<string>, sep: char)
    requires |parts| >= 1 && forall i :: 0 <= i < |parts| ==> parts[i] != []
    ensures Join(parts, sep) != []
    ensures Join(parts, sep)[0] == parts[0][0]
    ensures Join(parts, sep)[|Join(parts, sep)| - 1] == parts[|parts| - 1][|parts[|parts| - 1]| - 1]
  {
    if |parts| > 1 {
      JoinEnds(parts[1..], sep);
    }
  }

  /** A two-line CSV text built from plain cells parses with the first line as headers
      and the second as the only data line. */
  lemma TwoLineCsv(headers: seq<string>, row: seq<string>)
    requires |headers| >= 1 && |row| >= 1
    requires forall i :: 0 <= i < |headers| ==> PlainCell(headers[i])
    requires forall i :: 0 <= i < |row| ==> PlainCell(row[i])
    ensures var h, e := Join(headers, ','), Join(row, ',');
      ParseCsvSpec(h + "\n" + e + "\n") == Ok(ParseRows(headers, [e]))
  {
    var h, e := Join(headers, ','), Join(row, ',');
    JoinedCells(headers);
    JoinedCells(row);
    TwoLines(h, e);
    assert [h, e][1..] == [e];
  }

  /** Cells without surrounding blanks trim to themselves. */
  lemma TrimTightCells(cells: seq<string>)
    requires forall i :: 0 <= i < |cells| ==> Tight(cells[i])
    ensures MapSeq(cells, Trim) == cells
  {
    forall i | 0 <= i < |cells| ensures Trim(cells[i]) == cells[i] {
      TrimUnchanged(cells[i]);
    }
  }

  /** Every template header is plain. */
  lemma TemplateHeaderPlain(i: nat)
    requires i < |TemplateHeaders|
    ensures PlainCell(TemplateHeaders[i])
  {
    if i == 0 {
    } else if i == 1 {
    } else if i == 2 {
    } else if i == 3 {
    } else if i == 4 {
    } else if i == 5 {
    } else if i == 6 {
    } else if i == 7 {
    } else {
    }
  }

  /** Every cell of the example row is plain. */
  lemma ExampleCellPlain(i: nat)
    requires i < |ExampleRow|
    ensures PlainCell(ExampleRow[i])
  {
    if i == 0 {
    } else if i == 1 {
    } else if i == 2 {
    } else if i == 3 {
    } else if i == 4 {
    } else if i == 5 {
    } else if i == 6 {
    } else if i == 7 {
    } else {
    }
  }


  /** A camel-case header names the field its lowercase form names. */
  lemma CamelCaseHeader(a: string, c: char, b: string, name: string)
    requires forall x :: x in a ==> !('A' <= x <= 'Z')
    requires forall x :: x in b ==> !('A' <= x <= 'Z')
    requires a + [LowerChar(c)] + b == name
    ensures FieldOf(a + [c] + b) == FieldNamed(name)
  {
    LowerOneCapital(a, c, b);
  }

  /** A header without capital letters names the field its own spelling names. */
  lemma LowercaseHeader(h: string, f: CsvField)
    requires forall x :: x in h ==> !('A' <= x <= 'Z')
    requires FieldNamed(h) == Some(f)
    ensures FieldOf(h) == Some(f)
  {
    LowerUnchanged(h);
  }

  /** The name and title headers (columns 0 to 2) name their fields. */
  lemma NameHeaderField(i: nat)
    requires i < 3
    ensures FieldOf(TemplateHeaders[i]) == TemplateFields[i]
  {
    if i == 0 {
      assert TemplateHeaders[0] == "first" + ['N'] + "ame";
      CamelCaseHeader("first", 'N', "ame", "firstname");
    } else if i == 1 {
      assert TemplateHeaders[1] == "last" + ['N'] + "ame";
      CamelCaseHeader("last", 'N', "ame", "lastname");
    } else {
      LowercaseHeader("title", Title);
    }
  }

  /** The contact headers (columns 3 to 5) name their fields. */
  lemma ContactHeaderField(i: nat)
    requires 3 <= i < 6
    ensures FieldOf(TemplateHeaders[i]) == TemplateFields[i]
  {
    if i == 3 {
      LowercaseHeader("department", Department);
    } else if i == 4 {
      LowercaseHeader("email", Email);
    } else {
      LowercaseHeader("phone", Phone);
    }
  }

  /** The employment headers (columns 6 to 8) name their fields. */
  lemma EmploymentHeaderField(i: nat)
    requires 6 <= i < 9
    ensures FieldOf(TemplateHeaders[i]) == TemplateFields[i]
  {
    if i == 6 {
      assert TemplateHeaders[6] == "hire" + ['D'] + "ate";
      CamelCaseHeader("hire", 'D', "ate", "hiredate");
    } else if i == 7 {
      LowercaseHeader("salary", Salary);
    } else {
      LowercaseHeader("status", Status);
    }
  }

  /** Every template header is recognised, each naming a different field. */
  lemma TemplateHeaderFields()
    ensures HeaderFields(TemplateHeaders) == TemplateFields
  {
    forall i | 0 <= i < |TemplateHeaders| ensures FieldOf(TemplateHeaders[i]) == TemplateFields[i] {
      if i < 3 {
        NameHeaderField(i);
      } else if i < 6 {
        ContactHeaderField(i);
      } else {
        EmploymentHeaderField(i);
      }
    }
  }

  /** When every column names a different field and has a non-empty cell, each field
      holds its own column's cell. */
  lemma {:induction false} AssignDistinct(fields: seq<Option<CsvField>>, values: seq<string>, n: nat)
    requires n <= |fields| <= |values|
    requires forall j :: 0 <= j < |fields| ==> fields[j].Some? && values[j] != ""
    requires forall j, k :: 0 <= j < k < |fields| ==> fields[j] != fields[k]
    ensures forall j :: 0 <= j < n ==>
      fields[j].value in AssignCells(fields, values, n) && AssignCells(fields, values, n)[fields[j].value] == values[j]
  {
    if n > 0 {
      AssignDistinct(fields, values, n - 1);
    }
  }

  /** The example line fills all nine fields, so its record is complete and becomes
      the example row. */
  lemma TemplateRecord()
    ensures Complete(AssignCells(TemplateFields, ExampleRow, 9))
    ensures RowPatch(AssignCells(TemplateFields, ExampleRow, 9)) == ExamplePatch
  {
    var f, e := TemplateFields, ExampleRow;
    AssignDistinct(f, e, 9);
    var rec := AssignCells(f, e, 9);
    assert f[0].value == FirstName && f[1].value == LastName && f[2].value == Title;
    assert f[3].value == Department && f[4].value == Email && f[5].value == Phone;
    assert f[6].value == HireDate && f[7].value == Salary && f[8].value == Status;
  }

  /** `generateCSVTemplate` and `parseCSV` agree: the template is two lines of nine
      cells, and parsing it gives back exactly its example row. */
  lemma TemplateRoundTrip()
    ensures Split(Template(), '\n') == [HeaderLine, ExampleLine, ""]
    ensures Cells(HeaderLine) == TemplateHeaders && Cells(ExampleLine) == ExampleRow && |ExampleRow| == 9
    ensures ParseCsvSpec(Template()) == Ok([ExamplePatch])
  {
    forall i | 0 <= i < 9 ensures PlainCell(TemplateHeaders[i]) && PlainCell(ExampleRow[i]) {
      TemplateHeaderPlain(i);
      ExampleCellPlain(i);
    }
    TwoLineCsv(TemplateHeaders, ExampleRow);
    JoinedCells(TemplateHeaders);
    JoinedCells(ExampleRow);
    TwoLinesSplit(HeaderLine, ExampleLine);
    TemplateHeaderFields();
    TemplateRecord();
    assert Record(TemplateHeaders, ExampleLine) == AssignCells(TemplateFields, ExampleRow, 9);
    assert ParseRows(TemplateHeaders, [ExampleLine]) == [ExamplePatch] by {
      assert [ExampleLine][..0] == [];
    }
  }

  /** Joining pieces that contain neither character yields a string without `other`. */
  lemma {:induction false} NoSepInJoin(parts: seq<string>, sep: char, other: char)
    requires sep != other
    requires forall i :: 0 <= i < |parts| ==> other !in parts[i]
    ensures other !in Join(parts, sep)
  {
    if |parts| > 1 {
      NoSepInJoin(parts[1..], sep, other);
    }
  }

  // ---------------------------------------------------------------------------
  // The service

  /** What `importEmployeesFromCSV` returns. */
  datatype CsvImportResult = CsvImportResult(success: nat, errors: seq<ImportError>)

  /** What `importEmployeesFromCSV` reports once the loop is over: every created or
      updated row is a success. */
  function Tally(t: Employees.ImportState): (r: CsvImportResult)
    ensures r.success + |r.errors| == Employees.Processed(t)
  {
    CsvImportResult(t.created + t.updated, t.errors)
  }

  class ImportExportService {
    const employeesRepository: EmployeeRepository
    const auditLogRepository: AuditLogRepository

    constructor (employees: EmployeeRepository, auditLog: AuditLogRepository)
      ensures employeesRepository == employees && auditLogRepository == auditLog
    {
      employeesRepository := employees;
      auditLogRepository := auditLog;
    }

    /** `parseCSV`: split off the header line, or fail when there is none. */
    method ParseCsv(csvContent: string) returns (r: Result<seq<EmployeePatch>, CsvError>)
      ensures r == ParseCsvSpec(csvContent)
    {
      var lines := NonBlankLines(csvContent);
      if |lines| == 0 {
        return Err(NoHeaderRow);
      }
      var employees := ParseLines(Cells(lines[0]), lines[1..]);
      return Ok(employees);
    }

    /** The loop over the data lines of `parseCSV`: fill a record per line and keep
        the complete ones. */
    method ParseLines(headers: seq<string>, lines: seq<string>) returns (employees: seq<EmployeePatch>)
      ensures employees == ParseRows(headers, lines)
    {
      var fields := HeaderFields(headers);
      employees := [];
      var i := 0;
      while i < |lines|
        invariant 0 <= i <= |lines|
        invariant employees == ParseRows(headers, lines[..i])
      {
        var employee := FillRecord(fields, Cells(lines[i]));
        ParseRowsSnoc(headers, lines, i);
        if Complete(employee) {
          employees := employees + [RowPatch(employee)];
        }
        i := i + 1;
      }
      assert lines[..i] == lines;
    }

    /** The `forEach` over the headers: each non-empty cell under a recognised header
        sets its field, a later one overwriting an earlier one. */
    method FillRecord(fields: seq<Option<CsvField>>, values: seq<string>) returns (employee: CsvRecord)
      ensures employee == AssignCells(fields, values, |fields|)
    {
      employee := map[];
      for index := 0 to |fields|
        invariant employee == AssignCells(fields, values, index)
      {
        if index < |values| && values[index] != "" && fields[index].Some? {
          employee := employee[fields[index].value := values[index]];
        }
      }
    }

    /** `importEmployeesFromCSV`: parse, then import the rows. A parse failure
        propagates before anything is written. */
    method ImportEmployeesFromCsv(csvContent: string, userId: Id) returns (r: Result<CsvImportResult, CsvError>)
      requires employeesRepository.Valid()
      modifies employeesRepository, auditLogRepository
      ensures employeesRepository.Valid()
      ensures match ParseCsvSpec(csvContent)
        case Err(e) =>
          && r == Err(e)
          && employeesRepository.rows == old(employeesRepository.rows)
          && auditLogRepository.entries == old(auditLogRepository.entries)
        case Ok(data) =>
          var t := Employees.ImportAll(Employees.ImportState(old(employeesRepository.rows), old(employeesRepository.nextId), 0, 0, []), data);
          && employeesRepository.rows == t.rows
          && employeesRepository.nextId == t.nextId
          && r == Ok(Tally(t))
          && r.value.success + |r.value.errors| == |data|
          && auditLogRepository.entries == old(auditLogRepository.entries)
               + [AuditEntry(userId, ImportAction, "ImportExport", None, CsvImportSummary(r.value.success, r.value.errors))]
    {
      var parsed := ParseCsv(csvContent);
      if parsed.Err? {
        return Err(parsed.error);
      }
      var result := ImportRows(parsed.value, userId);
      return Ok(result);
    }

    /** The loop of `importEmployeesFromCSV`: upsert every row by email, counting
        successes and recording failures with their rows, then write one audit entry
        with the tally. */
    method ImportRows(employeesData: seq<EmployeePatch>, userId: Id) returns (result: CsvImportResult)
      requires employeesRepository.Valid()
      modifies employeesRepository, auditLogRepository
      ensures employeesRepository.Valid()
      ensures var t := Employees.ImportAll(Employees.ImportState(old(employeesRepository.rows), old(employeesRepository.nextId), 0, 0, []),
                                           employeesData);
        && employeesRepository.rows == t.rows
        && employeesRepository.nextId == t.nextId
        && result == Tally(t)
      ensures result.success + |result.errors| == |employeesData|
      ensures auditLogRepository.entries == old(auditLogRepository.entries)
        + [AuditEntry(userId, ImportAction, "ImportExport", None, CsvImportSummary(result.success, result.errors))]
    {
      var created, updated, errors := Employees.UpsertRows(employeesRepository, employeesData);
      var success := created + updated;
      auditLogRepository.Record(AuditEntry(userId, ImportAction, "ImportExport", None, CsvImportSummary(success, errors)));
      result := CsvImportResult(success, errors);
    }
  }
}
