/**
 * The dashboard's data intake (streamlit_client.py): the upload's file-type
 * check, the required-column check, the row-by-row construction of the
 * prediction request and the predictions table built from the response.
 */
module Client {
  import opened Wrappers
  import opened Strings
  import opened Models

  // ---------------------------------------------------------------- file type

  const ValidExtensions: seq<string> := ["csv", "xlsx", "xls"]

  /** `name.split('.')[-1]`: the text after the last dot, or the whole name when there is none. */
  function AfterLastDot(name: string): (ext: string)
    ensures '.' !in ext
    ensures |ext| <= |name| && ext == name[|name| - |ext|..]
    ensures |ext| < |name| ==> name[|name| - |ext| - 1] == '.'
  {
    if name == [] || name[|name| - 1] == '.' then []
    else AfterLastDot(name[..|name| - 1]) + [name[|name| - 1]]
  }

  /** `uploaded_file.name.split('.')[-1].lower()`. */
  function FileExtension(name: string): (ext: string)
    ensures |ext| <= |name| && '.' !in ext
    ensures forall i | 0 <= i < |ext| :: !('A' <= ext[i] <= 'Z')
  {
    Lower(AfterLastDot(name))
  }

  const NoFileMessage := "No file uploaded"
  const ValidFileMessage := "Valid file type"
  const InvalidFilePrefix := "Invalid file type: ."
  const InvalidFileSuffix := ". Please upload a CSV or Excel file (.csv, .xlsx, .xls)"

  /**
   * `validate_file_type`: no upload is rejected, and a file is accepted
   * exactly when its lower-cased extension is one of csv, xlsx, xls; a
   * rejection names the extension it found.
   */
  function ValidateFileType(upload: Option<string>): (r: (bool, string))
    ensures upload.None? ==> r == (false, NoFileMessage)
    ensures upload.Some? ==> (r.0 <==> FileExtension(upload.value) in ValidExtensions)
    ensures upload.Some? && !r.0 ==>
              var ext := FileExtension(upload.value);
              |r.1| == |InvalidFilePrefix| + |ext| + |InvalidFileSuffix|
              && r.1[..|InvalidFilePrefix|] == InvalidFilePrefix
              && r.1[|InvalidFilePrefix|..|InvalidFilePrefix| + |ext|] == ext
    ensures upload.Some? && r.0 ==> r.1 == ValidFileMessage
  {
    if upload.None? then (false, NoFileMessage)
    else
      var ext := FileExtension(upload.value);
      if ext !in ValidExtensions then (false, InvalidFilePrefix + ext + InvalidFileSuffix)
      else (true, ValidFileMessage)
  }

  /** The extension is the last dot-separated segment: the name is some prefix, a dot, then that segment. */
  lemma ExtensionIsLastSegment(name: string)
    requires '.' in name
    ensures exists prefix :: name == prefix + "." + AfterLastDot(name)
  {
    var ext := AfterLastDot(name);
    var i :| 0 <= i < |name| && name[i] == '.';
    assert forall j | |name| - |ext| <= j < |name| :: name[j] == ext[j - (|name| - |ext|)];
    assert i < |name| - |ext|;
    var prefix := name[..|name| - |ext| - 1];
    assert name == prefix + "." + ext;
  }

  /** Lower-casing never creates or removes a dot, so it commutes with taking the last segment. */
  lemma LowerAppend(a: string, b: string)
    ensures Lower(a + b) == Lower(a) + Lower(b)
  {
    assert forall k | 0 <= k < |a + b| :: Lower(a + b)[k] == (Lower(a) + Lower(b))[k];
  }

  /** One step of `AfterLastDot`, on the last character. */
  lemma AfterLastDotStep(name: string)
    requires name != []
    ensures AfterLastDot(name) ==
              if name[|name| - 1] == '.' then [] else AfterLastDot(name[..|name| - 1]) + [name[|name| - 1]]
  {
  }

  /** Lower-casing the last character lower-cases the name's last character and keeps the rest's lowering. */
  lemma LowerStep(name: string)
    requires name != []
    ensures Lower(name)[..|name| - 1] == Lower(name[..|name| - 1])
    ensures Lower(name)[|name| - 1] == LowerChar(name[|name| - 1])
  {
  }

  lemma {:induction false} LowerAfterLastDot(name: string)
    ensures AfterLastDot(Lower(name)) == Lower(AfterLastDot(name))
  {
    if name != [] {
      var init, last := name[..|name| - 1], name[|name| - 1];
      var lowered := Lower(name);
      AfterLastDotStep(name);
      AfterLastDotStep(lowered);
      LowerStep(name);
      assert LowerChar(last) == '.' <==> last == '.';
      if last != '.' {
        LowerAfterLastDot(init);
        LowerAppend(AfterLastDot(init), [last]);
      }
    }
  }

  /** The check ignores letter case: a name and its lower-cased form are judged alike. */
  lemma FileTypeIgnoresCase(name: string)
    ensures ValidateFileType(Some(name)).0 == ValidateFileType(Some(Lower(name))).0
  {
    LowerAfterLastDot(name);
    LowerIdempotent(AfterLastDot(name));
  }

  /** An upper-case extension is accepted. */
  lemma UpperCaseAccepted()
    ensures ValidateFileType(Some("DATA.CSV")) == (true, ValidFileMessage)
  {
    assert AfterLastDot("DATA.CSV") == "CSV";
    assert Lower("CSV") == "csv";
  }

  /** A name without a dot is its own extension, so a file named just `csv` passes. */
  lemma BareNameIsItsExtension()
    ensures FileExtension("csv") == "csv"
    ensures ValidateFileType(Some("csv")).0
  {
    assert AfterLastDot("csv") == "csv";
    LowerOfLowerCase("csv");
  }

  /** A name with several dots is judged by its last segment only. */
  lemma LastSegmentAccepted()
    ensures FileExtension("report.v2.xlsx") == "xlsx"
    ensures ValidateFileType(Some("report.v2.xlsx")) == (true, ValidFileMessage)
  {
    assert AfterLastDot("report.v2.xlsx") == "xlsx";
    LowerOfLowerCase("xlsx");
  }

  /** An accepted extension followed by another segment does not count. */
  lemma EarlierExtensionIgnored()
    ensures FileExtension("data.csv.bak") == "bak"
    ensures ValidateFileType(Some("data.csv.bak")) == (false, InvalidFilePrefix + "bak" + InvalidFileSuffix)
  {
    assert AfterLastDot("data.csv.bak") == "bak";
    LowerOfLowerCase("bak");
  }

  lemma TextFileRejected()
    ensures ValidateFileType(Some("a.txt")) == (false, InvalidFilePrefix + "txt" + InvalidFileSuffix)
  {
    assert AfterLastDot("a.txt") == "txt";
    LowerOfLowerCase("txt");
  }


  // ---------------------------------------------------------------- required columns

  const RequiredColumns: seq<string> := [
    "UserId", "Age", "BusinessTravel", "DailyRate", "Department",
    "DistanceFromHome", "Education", "EducationField", "EmployeeCount",
    "EmployeeNumber", "EnvironmentSatisfaction", "JobInvolvement",
    "JobLevel", "JobRole", "MaritalStatus", "MonthlyIncome",
    "NumCompaniesWorked", "OverTime", "PercentSalaryHike",
    "PerformanceRating", "RelationshipSatisfaction", "WorkLifeBalance",
    "YearsAtCompany", "YearsInCurrentRole", "YearsSinceLastPromotion",
    "YearsWithCurrManager"
  ]

  /** Position in `UserFeaturesFields` of the `i`-th required column (the optional `Attrition` sits at 2). */
  function SchemaIndex(i: nat): nat {
    if i < 2 then i else i + 1
  }

  lemma RequiredColumnsRows0To8()
    ensures forall i | 0 <= i < 9 :: RequiredColumns[i] == UserFeaturesFields[SchemaIndex(i)].name
  {
  }

  lemma RequiredColumnsRows9To17()
    ensures forall i | 9 <= i < 18 :: RequiredColumns[i] == UserFeaturesFields[SchemaIndex(i)].name
  {
  }

  lemma RequiredColumnsRows18To25()
    ensures forall i | 18 <= i < 26 :: RequiredColumns[i] == UserFeaturesFields[SchemaIndex(i)].name
  {
  }

  lemma RequiredColumnsIndexed()
    ensures |RequiredColumns| == 26
    ensures forall i | 0 <= i < 26 :: RequiredColumns[i] == UserFeaturesFields[SchemaIndex(i)].name
  {
    RequiredColumnsRows0To8();
    RequiredColumnsRows9To17();
    RequiredColumnsRows18To25();
  }

  lemma NamesSkippingThird(fields: seq<FieldSpec>, columns: seq<string>)
    requires |fields| == 27 && |columns| == 26
    requires forall i | 0 <= i < 26 :: columns[i] == fields[SchemaIndex(i)].name
    ensures columns == Names(fields[..2] + fields[3..])
  {
    var g := fields[..2] + fields[3..];
    assert forall i | 0 <= i < 26 :: Names(g)[i] == g[i].name == fields[SchemaIndex(i)].name;
  }

  /** The client's required columns are exactly the required fields of `UserFeatures`, in the same order. */
  lemma RequiredColumnsMatchSchema()
    ensures RequiredColumns == RequiredNames(UserFeaturesFields)
  {
    UserFeaturesShape();
    UserFeaturesLayout();
    RequiredColumnsIndexed();
    NamesSkippingThird(UserFeaturesFields, RequiredColumns);
  }

  /** `[c for c in required if c not in columns]`. */
  function Absent(required: seq<string>, columns: seq<string>): (missing: seq<string>)
    ensures |missing| <= |required|
    ensures forall c :: c in missing <==> c in required && c !in columns
  {
    if required == [] then []
    else (if required[0] in columns then [] else [required[0]]) + Absent(required[1..], columns)
  }

  function MissingColumns(columns: seq<string>): seq<string> {
    Absent(RequiredColumns, columns)
  }

  predicate Distinct(s: seq<string>) {
    forall i, j | 0 <= i < j < |s| :: s[i] != s[j]
  }

  /** Index of the first occurrence of `x` in `s`. */
  function Position(s: seq<string>, x: string): (p: nat)
    requires x in s
    ensures p < |s| && s[p] == x
  {
    if s[0] == x then 0 else 1 + Position(s[1..], x)
  }

  /** Every element of `m` occurs in `required`, and at strictly increasing positions there. */
  predicate OrderedIn(m: seq<string>, required: seq<string>) {
    && (forall x | x in m :: x in required)
    && forall i, j | 0 <= i < j < |m| && m[i] in required && m[j] in required ::
         Position(required, m[i]) < Position(required, m[j])
  }

  lemma OrderedIsDistinct(m: seq<string>, required: seq<string>)
    requires OrderedIn(m, required)
    ensures Distinct(m)
  {
    forall i, j | 0 <= i < j < |m| ensures m[i] != m[j] {
      assert m[i] in m && m[j] in m;
    }
  }

  /** Past the head of a list, positions of other elements shift by one. */
  lemma PositionInTail(required: seq<string>, x: string)
    requires |required| > 0 && x in required[1..] && x != required[0]
    ensures Position(required, x) == 1 + Position(required[1..], x)
  {
  }

  /** In a list whose head does not recur, the head comes before every element of the tail. */
  lemma HeadFirst(required: seq<string>, y: string)
    requires |required| > 0 && required[0] !in required[1..] && y in required[1..]
    ensures Position(required, required[0]) < Position(required, y)
  {
    PositionInTail(required, y);
  }

  /** Two tail elements keep their relative order in the whole list. */
  lemma TailOrder(required: seq<string>, x: string, y: string)
    requires |required| > 0 && required[0] !in required[1..]
    requires x in required[1..] && y in required[1..]
    requires Position(required[1..], x) < Position(required[1..], y)
    ensures Position(required, x) < Position(required, y)
  {
    PositionInTail(required, x);
    PositionInTail(required, y);
  }

  /** Putting the head of `required` (or nothing) in front of a list ordered by its tail keeps it ordered. */
  lemma OrderedCons(required: seq<string>, head: seq<string>, rest: seq<string>)
    requires |required| > 0 && required[0] !in required[1..]
    requires head == [] || head == [required[0]]
    requires OrderedIn(rest, required[1..])
    ensures OrderedIn(head + rest, required)
  {
    var m := head + rest;
    var h := |head|;
    forall x | x in m ensures x in required {
      if x in rest { assert x in required[1..]; }
    }
    forall i, j | 0 <= i < j < |m| && m[i] in required && m[j] in required
      ensures Position(required, m[i]) < Position(required, m[j])
    {
      assert m[j] == rest[j - h] && rest[j - h] in rest;
      if i < h {
        HeadFirst(required, m[j]);
      } else {
        assert m[i] == rest[i - h] && rest[i - h] in rest;
        TailOrder(required, m[i], m[j]);
      }
    }
  }

  /** The missing columns keep the order of the required list, so none is listed twice. */
  lemma {:induction false} AbsentInOrder(required: seq<string>, columns: seq<string>)
    requires Distinct(required)
    ensures OrderedIn(Absent(required, columns), required)
    ensures Distinct(Absent(required, columns))
  {
    var m := Absent(required, columns);
    if required != [] {
      assert Distinct(required[1..]);
      AbsentInOrder(required[1..], columns);
      assert required[0] !in required[1..] by {
        forall k | 0 <= k < |required| - 1 ensures required[1..][k] != required[0] {
          assert required[1..][k] == required[k + 1];
        }
      }
      var head := if required[0] in columns then [] else [required[0]];
      OrderedCons(required, head, Absent(required[1..], columns));
    }
    OrderedIsDistinct(m, required);
  }

  lemma RequiredColumnsDistinct()
    ensures Distinct(RequiredColumns)
  {
    RequiredColumnsIndexed();
    UserFeaturesNamesDistinct();
    UserFeaturesLayout();
    forall i, j | 0 <= i < j < 26 ensures RequiredColumns[i] != RequiredColumns[j] {
      assert SchemaIndex(i) < SchemaIndex(j) < 27;
    }
  }

  const MissingColumnsPrefix := "Missing required columns: "
  const AllColumnsMessage := "All required columns present"

  /**
   * `validate_dataframe_columns`: the table passes exactly when every
   * required column is present (extra columns are ignored); otherwise the
   * message lists the missing ones, joined with ", ".
   */
  function ValidateDataframeColumns(columns: seq<string>): (r: (bool, string))
    ensures r.0 <==> forall c | c in RequiredColumns :: c in columns
    ensures r.0 ==> r.1 == AllColumnsMessage
    ensures !r.0 ==> r.1 == MissingColumnsPrefix + Join(MissingColumns(columns), ", ")
  {
    var missing := MissingColumns(columns);
    if |missing| > 0 then
      assert missing[0] in missing;
      (false, MissingColumnsPrefix + Join(missing, ", "))
    else
      (true, AllColumnsMessage)
  }

  lemma NoCommaInRequiredColumns()
    ensures forall k | 0 <= k < |RequiredColumns| :: ',' !in RequiredColumns[k]
  {
  }

  /**
   * A failed check names exactly the missing columns: cutting its message
   * at the separators gives them back, in required-list order, once each.
   */
  lemma MissingColumnsMessage(columns: seq<string>)
    requires !ValidateDataframeColumns(columns).0
    ensures var msg := ValidateDataframeColumns(columns).1;
            |msg| >= |MissingColumnsPrefix| && msg[..|MissingColumnsPrefix|] == MissingColumnsPrefix
            && SplitOn(msg[|MissingColumnsPrefix|..], ", ") == MissingColumns(columns)
    ensures Distinct(MissingColumns(columns))
  {
    var missing := MissingColumns(columns);
    var msg := ValidateDataframeColumns(columns).1;
    assert msg[|MissingColumnsPrefix|..] == Join(missing, ", ");
    NoCommaInRequiredColumns();
    forall k | 0 <= k < |missing| ensures ',' !in missing[k] {
      assert missing[k] in RequiredColumns;
    }
    SplitJoin(missing, ", ");
    RequiredColumnsDistinct();
    AbsentInOrder(RequiredColumns, columns);
  }

  // ---------------------------------------------------------------- rows to records

  /** A table cell as read from the file: missing (NaN), a whole number, or text. */
  datatype Cell = Null | IntCell(i: int) | TextCell(s: string)

  /** One row of the uploaded table, keyed by column name. */
  type Row = map<string, Cell>

  /** Why the conversion of a row raised. */
  datatype RowError = MissingColumn(column: string) | NotAnInteger(column: string) | Invalid(fields: seq<string>)

  /** `str(cell)`. */
  function CellText(c: Cell): (s: string)
    ensures c.IntCell? ==> ParseInt(s) == Some(c.i)
  {
    match c
    case Null => "nan"
    case IntCell(i) => ParseIntRoundTrip(i); IntToString(i)
    case TextCell(s) => s
  }

  /** `float('nan')` is not an integer, and neither is its text. */
  lemma NanIsNoInteger()
    ensures ParseInt("nan") == None
  {
    assert Strip("nan") == "nan";
    assert !IsDigit("nan"[0]);
  }

  /** `int(cell)`: `None` where Python raises. It always agrees with `int(str(cell))`. */
  function CellInt(c: Cell): (r: Option<int>)
    ensures r == ParseInt(CellText(c))
  {
    match c
    case Null => NanIsNoInteger(); None
    case IntCell(i) => Some(i)
    case TextCell(s) => ParseInt(s)
  }

  /** A number read as text converts to the same integer as the number itself. */
  lemma CellIntOfText(i: int)
    ensures CellInt(TextCell(IntToString(i))) == CellInt(IntCell(i))
  {
    ParseIntRoundTrip(i);
  }

  /**
   * The argument the client passes for one field: `int(row[name])` for an
   * integer field, `str(row[name])` for a text field, and for the optional
   * field `str(row.get(name))` unless that cell is absent or null.
   */
  function CoerceField(f: FieldSpec, row: Row): (r: Result<PyValue, RowError>)
    ensures r.Success? <==> !f.required || (f.name in row && (f.ty == IntType ==> CellInt(row[f.name]).Some?))
  {
    if !f.required then
      Success(if f.name in row && !row[f.name].Null? then PyStr(CellText(row[f.name])) else PyNone)
    else if f.name !in row then
      Failure(MissingColumn(f.name))
    else if f.ty == IntType then
      match CellInt(row[f.name])
      case Some(i) => Success(PyInt(i))
      case None => Failure(NotAnInteger(f.name))
    else
      Success(PyStr(CellText(row[f.name])))
  }

  /** The arguments for `fields`, evaluated left to right; the first failure aborts. */
  function RowValues(fields: seq<FieldSpec>, row: Row): (r: Result<seq<PyValue>, RowError>)
    ensures r.Success? <==> forall k | 0 <= k < |fields| :: CoerceField(fields[k], row).Success?
    ensures r.Success? ==> |r.value| == |fields|
                           && forall k | 0 <= k < |fields| :: r.value[k] == CoerceField(fields[k], row).value
    ensures r.Failure? ==> exists k | 0 <= k < |fields| ::
                             && CoerceField(fields[k], row).Failure?
                             && r.error == CoerceField(fields[k], row).error
                             && forall j | 0 <= j < k :: CoerceField(fields[j], row).Success?
  {
    if fields == [] then Success([])
    else
      var v :- CoerceField(fields[0], row);
      var vs :- RowValues(fields[1..], row);
      Success([v] + vs)
  }

  /** Every argument the client builds has the type its field declares. */
  lemma CoercedConforms(fields: seq<FieldSpec>, row: Row)
    requires forall k | 0 <= k < |fields| :: fields[k].ty == StrType || (fields[k].ty == IntType && fields[k].required)
    requires RowValues(fields, row).Success?
    ensures Conforms(fields, RowValues(fields, row).value)
  {
  }

  lemma UserFeaturesFieldTypes()
    ensures forall k | 0 <= k < |UserFeaturesFields| ::
              UserFeaturesFields[k].ty == StrType || (UserFeaturesFields[k].ty == IntType && UserFeaturesFields[k].required)
  {
  }

  /** `UserFeatures(UserId=str(row['UserId']), Age=int(row['Age']), ...)` for one row. */
  function MapRow(row: Row): (r: Result<UserFeatures, RowError>)
    ensures RowValues(UserFeaturesFields, row).Failure? ==> r == Failure(RowValues(UserFeaturesFields, row).error)
  {
    var vals :- RowValues(UserFeaturesFields, row);
    match NewUserFeatures(UserFeaturesKwargs(vals))
    case Success(f) => Success(f)
    case Failure(errs) => Failure(Invalid(errs))
  }

  /** The record the client builds always passes the schema: a row fails only on a missing column or a non-integer cell. */
  lemma MapRowValues(row: Row)
    ensures MapRow(row).Success? <==> RowValues(UserFeaturesFields, row).Success?
    ensures MapRow(row).Success? ==> FieldValues(MapRow(row).value) == RowValues(UserFeaturesFields, row).value
    ensures MapRow(row).Failure? ==> MapRow(row).error == RowValues(UserFeaturesFields, row).error
  {
    var rv := RowValues(UserFeaturesFields, row);
    if rv.Success? {
      UserFeaturesFieldTypes();
      CoercedConforms(UserFeaturesFields, row);
      NewUserFeaturesOfConforming(rv.value);
    }
  }

  /** A row converts exactly when every required column is there and every integer column holds an integer. */
  lemma MapRowSucceeds(row: Row)
    ensures MapRow(row).Success? <==>
              forall k | 0 <= k < |UserFeaturesFields| && UserFeaturesFields[k].required ::
                UserFeaturesFields[k].name in row
                && (UserFeaturesFields[k].ty == IntType ==> CellInt(row[UserFeaturesFields[k].name]).Some?)
    ensures MapRow(row).Failure? ==> MapRow(row).error.MissingColumn? || MapRow(row).error.NotAnInteger?
  {
    MapRowValues(row);
  }

  /** Each field of a converted record is the coerced cell of its column. */
  lemma MapRowField(row: Row, k: nat)
    requires MapRow(row).Success? && k < |UserFeaturesFields|
    ensures FieldValues(MapRow(row).value)[k] == CoerceField(UserFeaturesFields[k], row).value
  {
    MapRowValues(row);
  }

  /** `UserId` is the text of its cell. */
  lemma MapRowUserId(row: Row)
    requires MapRow(row).Success?
    ensures "UserId" in row && MapRow(row).value.UserId == CellText(row["UserId"])
  {
    MapRowField(row, 0);
  }

  /** The records converted from a table carry, row by row, the text of each row's `UserId` cell. */
  lemma ConvertedUserIds(rows: seq<Row>, features: seq<UserFeatures>)
    requires |features| == |rows|
    requires forall k | 0 <= k < |rows| :: MapRow(rows[k]).Success? && features[k] == MapRow(rows[k]).value
    ensures forall k | 0 <= k < |rows| :: "UserId" in rows[k] && features[k].UserId == CellText(rows[k]["UserId"])
  {
    forall k | 0 <= k < |rows|
      ensures "UserId" in rows[k] && features[k].UserId == CellText(rows[k]["UserId"])
    {
      MapRowUserId(rows[k]);
    }
  }

  /** An optional text field holds the text of its cell, or nothing when the column is absent or the cell null. */
  lemma OptionalCoercion(f: FieldSpec, row: Row, o: Option<string>)
    requires !f.required && OptStr(o) == CoerceField(f, row).value
    ensures o == if f.name in row && !row[f.name].Null? then Some(CellText(row[f.name])) else None
  {
  }

  lemma AttritionOfValues(row: Row, v: UserFeatures, vals: seq<PyValue>)
    requires FieldValues(v) == vals
    requires |vals| == 27 && vals[2] == CoerceField(FieldSpec("Attrition", StrType, false), row).value
    ensures v.Attrition ==
              if "Attrition" in row && !row["Attrition"].Null? then Some(CellText(row["Attrition"])) else None
  {
    assert vals[2] == OptStr(v.Attrition);
    OptionalCoercion(FieldSpec("Attrition", StrType, false), row, v.Attrition);
  }

  /** `Attrition` is the text of its cell, or absent when the column or the value is. */
  lemma MapRowAttrition(row: Row)
    requires MapRow(row).Success?
    ensures MapRow(row).value.Attrition ==
              if "Attrition" in row && !row["Attrition"].Null? then Some(CellText(row["Attrition"])) else None
  {
    MapRowField(row, 2);
    UserFeaturesLayout();
    var v := MapRow(row).value;
    AttritionOfValues(row, v, FieldValues(v));
  }

  /** Only the cells of schema columns matter: other columns, and their values, are ignored. */
  lemma {:induction false} RowValuesLocal(fields: seq<FieldSpec>, row: Row, other: Row)
    requires forall k | 0 <= k < |fields| :: fields[k].name in row <==> fields[k].name in other
    requires forall k | 0 <= k < |fields| && fields[k].name in row :: row[fields[k].name] == other[fields[k].name]
    ensures RowValues(fields, row) == RowValues(fields, other)
  {
    if fields != [] {
      assert CoerceField(fields[0], row) == CoerceField(fields[0], other);
      RowValuesLocal(fields[1..], row, other);
    }
  }

  lemma MapRowIgnoresOtherColumns(row: Row, other: Row)
    requires forall k | 0 <= k < |UserFeaturesFields| ::
               UserFeaturesFields[k].name in row <==> UserFeaturesFields[k].name in other
    requires forall k | 0 <= k < |UserFeaturesFields| && UserFeaturesFields[k].name in row ::
               row[UserFeaturesFields[k].name] == other[UserFeaturesFields[k].name]
    ensures MapRow(row) == MapRow(other)
  {
    RowValuesLocal(UserFeaturesFields, row, other);
  }

  lemma {:induction false} RequiredNamesMember(fields: seq<FieldSpec>, k: nat)
    requires k < |fields| && fields[k].required
    ensures fields[k].name in RequiredNames(fields)
  {
    if k > 0 {
      RequiredNamesMember(fields[1..], k - 1);
    }
  }

  lemma CheckedColumnsInRow(columns: seq<string>, row: Row)
    requires forall c :: c in columns <==> c in row
    requires ValidateDataframeColumns(columns).0
    ensures forall k | 0 <= k < |UserFeaturesFields| && UserFeaturesFields[k].required :: UserFeaturesFields[k].name in row
  {
    RequiredColumnsMatchSchema();
    forall k | 0 <= k < |UserFeaturesFields| && UserFeaturesFields[k].required
      ensures UserFeaturesFields[k].name in row
    {
      RequiredNamesMember(UserFeaturesFields, k);
    }
  }

  /** With every required column present, the only way left to fail is a cell that is not an integer. */
  lemma RowValuesNumberErrors(fields: seq<FieldSpec>, row: Row)
    requires forall k | 0 <= k < |fields| && fields[k].required :: fields[k].name in row
    ensures RowValues(fields, row).Failure? ==> RowValues(fields, row).error.NotAnInteger?
  {
  }

  /** After the column check has passed, a row can only fail on a cell that is not an integer. */
  lemma CheckedColumnsLeaveNumberErrors(columns: seq<string>, row: Row)
    requires forall c :: c in columns <==> c in row
    requires ValidateDataframeColumns(columns).0
    ensures MapRow(row).Failure? ==> MapRow(row).error.NotAnInteger?
  {
    CheckedColumnsInRow(columns, row);
    RowValuesNumberErrors(UserFeaturesFields, row);
    MapRowValues(row);
  }

  /**
   * The loop of `convert_df_to_prediction_request`, for any per-row
   * constructor: one result per row, in row order; the first row that
   * fails aborts the whole conversion with its error.
   */
  method ConvertRows<T, E>(rows: seq<Row>, convert: Row -> Result<T, E>) returns (r: Result<seq<T>, E>)
    ensures r.Success? <==> forall k | 0 <= k < |rows| :: convert(rows[k]).Success?
    ensures r.Success? ==> |r.value| == |rows|
                           && forall k | 0 <= k < |rows| :: r.value[k] == convert(rows[k]).value
    ensures r.Failure? ==> exists k | 0 <= k < |rows| ::
                             && convert(rows[k]).Failure?
                             && r.error == convert(rows[k]).error
                             && forall j | 0 <= j < k :: convert(rows[j]).Success?
  {
    var features: seq<T> := [];
    var i := 0;
    while i < |rows|
      invariant 0 <= i <= |rows|
      invariant |features| == i
      invariant forall k | 0 <= k < i :: convert(rows[k]).Success? && features[k] == convert(rows[k]).value
    {
      var feature := convert(rows[i]);
      if feature.Failure? {
        return Failure(feature.error);
      }
      features := features + [feature.value];
      i := i + 1;
    }
    return Success(features);
  }

  /** `convert_df_to_prediction_request`: a `UserFeatures` record per row, wrapped in a `PredictionRequest`. */
  method ConvertDfToPredictionRequest(rows: seq<Row>) returns (r: Result<PredictionRequest, RowError>)
    ensures r.Success? <==> forall k | 0 <= k < |rows| :: MapRow(rows[k]).Success?
    ensures r.Success? ==> |r.value.features| == |rows|
                           && forall k | 0 <= k < |rows| :: r.value.features[k] == MapRow(rows[k]).value
    ensures r.Failure? ==> exists k | 0 <= k < |rows| ::
                             && MapRow(rows[k]).Failure?
                             && r.error == MapRow(rows[k]).error
                             && forall j | 0 <= j < k :: MapRow(rows[j]).Success?
  {
    var features := ConvertRows(rows, MapRow);
    if features.Failure? {
      return Failure(features.error);
    }
    return Success(PredictionRequest(features.value));
  }

  // ---------------------------------------------------------------- predictions table

  /** One line of the results table: user id, prediction, probability. */
  datatype TableRow<L> = TableRow(userId: string, prediction: L, probability: real)

  const NoProbabilityError := "'UserPrediction' object has no attribute 'probability'"

  /**
   * The table built from records of the declared `UserPrediction` type: its
   * rows read `pred.probability`, which that type lacks, so any record
   * raises and only an empty list yields a (empty) table.
   */
  function PredictionsTableDeclared(preds: seq<UserPrediction>): (r: Result<seq<TableRow<string>>, string>)
    ensures r.Success? <==> preds == []
    ensures r.Success? ==> r.value == []
  {
    if preds == [] then Success([]) else Failure(NoProbabilityError)
  }

  /** The table built from records that carry a probability: one row per record, in order. */
  function PredictionsTable(preds: seq<ScoredPrediction>): (table: seq<TableRow<int>>)
    ensures |table| == |preds|
    ensures forall k | 0 <= k < |preds| ::
              table[k].userId == preds[k].user_id && table[k].prediction == preds[k].prediction
              && table[k].probability == preds[k].probability
  {
    seq(|preds|, k requires 0 <= k < |preds| => TableRow(preds[k].user_id, preds[k].prediction, preds[k].probability))
  }
}
