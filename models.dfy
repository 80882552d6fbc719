/**
 * The request and response schemas shared by the dashboard and the
 * prediction service (models.py). Each Pydantic model is described twice:
 * by a datatype holding an instance, and by a list of field descriptors
 * (name, declared type, required or `Optional[...] = None`) in declaration
 * order, against which keyword arguments are validated the way Pydantic v2
 * validates a constructor call.
 */
module Models {
  import opened Wrappers

  /** The Python values that reach a model constructor. */
  datatype PyValue = PyNone | PyStr(s: string) | PyInt(i: int) | PyFloat(r: real) | PyList(items: seq<PyValue>)

  datatype FieldType = StrType | IntType | FloatType | ListType

  /** `name: ty = Field(...)` when `required`, `name: Optional[ty] = Field(None)` otherwise. */
  datatype FieldSpec = FieldSpec(name: string, ty: FieldType, required: bool)

  /**
   * The subset of Pydantic v2's default (lax) mode that these calls exercise:
   * a `str` field takes text, an `int` field an integer, a `float` field a
   * float or an integer. Lax mode's further coercions (an integral float or
   * numeric text for `int`, numeric text for `float`) are not modelled.
   */
  predicate TypeAdmits(ty: FieldType, v: PyValue) {
    match ty
    case StrType => v.PyStr?
    case IntType => v.PyInt?
    case FloatType => v.PyFloat? || v.PyInt?
    case ListType => v.PyList?
  }

  predicate Admits(f: FieldSpec, v: PyValue) {
    TypeAdmits(f.ty, v) || (!f.required && v == PyNone)
  }

  /** A keyword argument, or the field's default (`None`) when it is not passed. */
  function Get(kwargs: map<string, PyValue>, name: string): PyValue {
    if name in kwargs then kwargs[name] else PyNone
  }

  /** Values listed in declaration order that a model accepts field by field. */
  predicate Conforms(fields: seq<FieldSpec>, vals: seq<PyValue>) {
    |vals| == |fields| && forall i | 0 <= i < |fields| :: Admits(fields[i], vals[i])
  }

  predicate DistinctNames(fields: seq<FieldSpec>) {
    forall i, j | 0 <= i < j < |fields| :: fields[i].name != fields[j].name
  }

  /** The names of the fields a call rejects, in declaration order (Pydantic reports them all). */
  function FieldErrors(fields: seq<FieldSpec>, kwargs: map<string, PyValue>): (errs: seq<string>)
    ensures errs == [] <==> forall i | 0 <= i < |fields| :: Admits(fields[i], Get(kwargs, fields[i].name))
    ensures forall n | n in errs :: exists f | f in fields :: f.name == n && !Admits(f, Get(kwargs, n))
    ensures forall f | f in fields && !Admits(f, Get(kwargs, f.name)) :: f.name in errs
  {
    if fields == [] then []
    else
      var rest := FieldErrors(fields[1..], kwargs);
      assert forall f | f in fields[1..] :: f in fields;
      assert forall f | f in fields :: f == fields[0] || f in fields[1..];
      (if Admits(fields[0], Get(kwargs, fields[0].name)) then [] else [fields[0].name]) + rest
  }

  /** One step of `FieldErrors`: the first field's error, if any, precedes the rest. */
  lemma FieldErrorsCons(fields: seq<FieldSpec>, kwargs: map<string, PyValue>)
    requires fields != []
    ensures FieldErrors(fields, kwargs) == FieldErrors([fields[0]], kwargs) + FieldErrors(fields[1..], kwargs)
  {
    assert [fields[0]][1..] == [];
  }

  /** The errors of a field list are those of its parts, in order: declaration order is kept. */
  lemma {:induction false} FieldErrorsAppend(a: seq<FieldSpec>, b: seq<FieldSpec>, kwargs: map<string, PyValue>)
    ensures FieldErrors(a + b, kwargs) == FieldErrors(a, kwargs) + FieldErrors(b, kwargs)
  {
    if a == [] {
      assert a + b == b;
    } else {
      var ab := a + b;
      calc {
        FieldErrors(ab, kwargs);
      == { FieldErrorsCons(ab, kwargs); }
        FieldErrors([ab[0]], kwargs) + FieldErrors(ab[1..], kwargs);
      == { assert [ab[0]] == [a[0]] && ab[1..] == a[1..] + b; }
        FieldErrors([a[0]], kwargs) + FieldErrors(a[1..] + b, kwargs);
      == { FieldErrorsAppend(a[1..], b, kwargs); }
        FieldErrors([a[0]], kwargs) + (FieldErrors(a[1..], kwargs) + FieldErrors(b, kwargs));
      == { AppendAssoc(FieldErrors([a[0]], kwargs), FieldErrors(a[1..], kwargs), FieldErrors(b, kwargs)); }
        (FieldErrors([a[0]], kwargs) + FieldErrors(a[1..], kwargs)) + FieldErrors(b, kwargs);
      == { FieldErrorsCons(a, kwargs); }
        FieldErrors(a, kwargs) + FieldErrors(b, kwargs);
      }
    }
  }

  lemma AppendAssoc<T>(x: seq<T>, y: seq<T>, z: seq<T>)
    ensures x + (y + z) == (x + y) + z
  {
  }

  /** A single field reports its name once if it rejects its argument, and nothing otherwise. */
  lemma FieldErrorsSingle(f: FieldSpec, kwargs: map<string, PyValue>)
    ensures FieldErrors([f], kwargs) == if Admits(f, Get(kwargs, f.name)) then [] else [f.name]
  {
    assert [f][1..] == [];
  }

  /**
   * A constructor call `Model(**kwargs)`: either every field accepts its
   * argument (or its default), giving the field values in declaration order,
   * or a validation error naming the rejected fields. Arguments that name no
   * field are ignored, as Pydantic does by default.
   */
  function Validate(fields: seq<FieldSpec>, kwargs: map<string, PyValue>): (r: Result<seq<PyValue>, seq<string>>)
    ensures r.Success? <==> forall i | 0 <= i < |fields| :: Admits(fields[i], Get(kwargs, fields[i].name))
    ensures r.Success? ==> Conforms(fields, r.value)
    ensures r.Success? ==> forall i | 0 <= i < |fields| :: r.value[i] == Get(kwargs, fields[i].name)
    ensures r.Failure? ==> r.error != [] && forall n | n in r.error :: exists f | f in fields :: f.name == n
  {
    var errs := FieldErrors(fields, kwargs);
    if errs == [] then Success(seq(|fields|, i requires 0 <= i < |fields| => Get(kwargs, fields[i].name)))
    else Failure(errs)
  }

  /** `model_dump()`: field values keyed by field name. */
  function ToDict(fields: seq<FieldSpec>, vals: seq<PyValue>): (d: map<string, PyValue>)
    requires |vals| == |fields| && DistinctNames(fields)
    ensures forall i | 0 <= i < |fields| :: fields[i].name in d && d[fields[i].name] == vals[i]
    ensures forall n | n in d :: exists i | 0 <= i < |fields| :: fields[i].name == n
  {
    map i | 0 <= i < |fields| :: fields[i].name := vals[i]
  }

  /** A model re-validates its own dump to the same field values. */
  lemma ValidateToDict(fields: seq<FieldSpec>, vals: seq<PyValue>)
    requires DistinctNames(fields) && Conforms(fields, vals)
    ensures Validate(fields, ToDict(fields, vals)) == Success(vals)
  {
    var r := Validate(fields, ToDict(fields, vals));
    assert r.Success?;
    assert r.value == vals;
  }

  /** Names of the fields a caller must pass, in declaration order. */
  function RequiredNames(fields: seq<FieldSpec>): (names: seq<string>)
    ensures |names| <= |fields|
  {
    if fields == [] then []
    else (if fields[0].required then [fields[0].name] else []) + RequiredNames(fields[1..])
  }

  /** Names of the `Optional[...] = None` fields, in declaration order. */
  function OptionalNames(fields: seq<FieldSpec>): (names: seq<string>)
    ensures |names| + |RequiredNames(fields)| == |fields|
  {
    if fields == [] then []
    else (if fields[0].required then [] else [fields[0].name]) + OptionalNames(fields[1..])
  }

  // ---------------------------------------------------------------- UserFeatures

  const UserFeaturesFields: seq<FieldSpec> := [
    FieldSpec("UserId", StrType, true),
    FieldSpec("Age", IntType, true),
    FieldSpec("Attrition", StrType, false),
    FieldSpec("BusinessTravel", StrType, true),
    FieldSpec("DailyRate", IntType, true),
    FieldSpec("Department", StrType, true),
    FieldSpec("DistanceFromHome", IntType, true),
    FieldSpec("Education", IntType, true),
    FieldSpec("EducationField", StrType, true),
    FieldSpec("EmployeeCount", IntType, true),
    FieldSpec("EmployeeNumber", IntType, true),
    FieldSpec("EnvironmentSatisfaction", IntType, true),
    FieldSpec("JobInvolvement", IntType, true),
    FieldSpec("JobLevel", IntType, true),
    FieldSpec("JobRole", StrType, true),
    FieldSpec("MaritalStatus", StrType, true),
    FieldSpec("MonthlyIncome", IntType, true),
    FieldSpec("NumCompaniesWorked", IntType, true),
    FieldSpec("OverTime", StrType, true),
    FieldSpec("PercentSalaryHike", IntType, true),
    FieldSpec("PerformanceRating", IntType, true),
    FieldSpec("RelationshipSatisfaction", IntType, true),
    FieldSpec("WorkLifeBalance", IntType, true),
    FieldSpec("YearsAtCompany", IntType, true),
    FieldSpec("YearsInCurrentRole", IntType, true),
    FieldSpec("YearsSinceLastPromotion", IntType, true),
    FieldSpec("YearsWithCurrManager", IntType, true)
  ]

  lemma NamesDistinctRows0To4()
    ensures forall i, j | 0 <= i < 5 && i < j < 27 :: UserFeaturesFields[i].name != UserFeaturesFields[j].name
  {
  }

  lemma NamesDistinctRows5To9()
    ensures forall i, j | 5 <= i < 10 && i < j < 27 :: UserFeaturesFields[i].name != UserFeaturesFields[j].name
  {
  }

  lemma NamesDistinctRows10To14()
    ensures forall i, j | 10 <= i < 15 && i < j < 27 :: UserFeaturesFields[i].name != UserFeaturesFields[j].name
  {
  }

  lemma NamesDistinctRows15To19()
    ensures forall i, j | 15 <= i < 20 && i < j < 27 :: UserFeaturesFields[i].name != UserFeaturesFields[j].name
  {
  }

  lemma NamesDistinctRows20To26()
    ensures forall i, j | 20 <= i < 27 && i < j < 27 :: UserFeaturesFields[i].name != UserFeaturesFields[j].name
  {
  }

  /** No two `UserFeatures` fields share a name (checked five rows at a time to keep each proof small). */
  lemma UserFeaturesNamesDistinct()
    ensures DistinctNames(UserFeaturesFields)
  {
    NamesDistinctRows0To4();
    NamesDistinctRows5To9();
    NamesDistinctRows10To14();
    NamesDistinctRows15To19();
    NamesDistinctRows20To26();
  }

  /** One employee's attributes (models.py `UserFeatures`), fields in declaration order. */
  datatype UserFeatures = UserFeatures(
    UserId: string,
    Age: int,
    Attrition: Option<string>,
    BusinessTravel: string,
    DailyRate: int,
    Department: string,
    DistanceFromHome: int,
    Education: int,
    EducationField: string,
    EmployeeCount: int,
    EmployeeNumber: int,
    EnvironmentSatisfaction: int,
    JobInvolvement: int,
    JobLevel: int,
    JobRole: string,
    MaritalStatus: string,
    MonthlyIncome: int,
    NumCompaniesWorked: int,
    OverTime: string,
    PercentSalaryHike: int,
    PerformanceRating: int,
    RelationshipSatisfaction: int,
    WorkLifeBalance: int,
    YearsAtCompany: int,
    YearsInCurrentRole: int,
    YearsSinceLastPromotion: int,
    YearsWithCurrManager: int
  )

  function OptStr(o: Option<string>): PyValue {
    if o.Some? then PyStr(o.value) else PyNone
  }

  /** The field values of a record, in declaration order. */
  function FieldValues(f: UserFeatures): (vals: seq<PyValue>)
    ensures Conforms(UserFeaturesFields, vals)
  {
    [PyStr(f.UserId), PyInt(f.Age), OptStr(f.Attrition), PyStr(f.BusinessTravel),
     PyInt(f.DailyRate), PyStr(f.Department), PyInt(f.DistanceFromHome), PyInt(f.Education),
     PyStr(f.EducationField), PyInt(f.EmployeeCount), PyInt(f.EmployeeNumber),
     PyInt(f.EnvironmentSatisfaction), PyInt(f.JobInvolvement), PyInt(f.JobLevel),
     PyStr(f.JobRole), PyStr(f.MaritalStatus), PyInt(f.MonthlyIncome),
     PyInt(f.NumCompaniesWorked), PyStr(f.OverTime), PyInt(f.PercentSalaryHike),
     PyInt(f.PerformanceRating), PyInt(f.RelationshipSatisfaction), PyInt(f.WorkLifeBalance),
     PyInt(f.YearsAtCompany), PyInt(f.YearsInCurrentRole), PyInt(f.YearsSinceLastPromotion),
     PyInt(f.YearsWithCurrManager)]
  }

  /** `Conforms(UserFeaturesFields, vals)` for the first 14 fields, spelled out position by position. */
  predicate UserFeaturesTypedLow(vals: seq<PyValue>)
    requires |vals| == 27
  {
    && vals[0].PyStr? && vals[1].PyInt? && (vals[2].PyStr? || vals[2] == PyNone) && vals[3].PyStr?
    && vals[4].PyInt? && vals[5].PyStr? && vals[6].PyInt? && vals[7].PyInt? && vals[8].PyStr?
    && vals[9].PyInt? && vals[10].PyInt? && vals[11].PyInt? && vals[12].PyInt? && vals[13].PyInt?
  }

  /** The same for the remaining 13 fields. */
  predicate UserFeaturesTypedHigh(vals: seq<PyValue>)
    requires |vals| == 27
  {
    && vals[14].PyStr? && vals[15].PyStr? && vals[16].PyInt? && vals[17].PyInt? && vals[18].PyStr?
    && vals[19].PyInt? && vals[20].PyInt? && vals[21].PyInt? && vals[22].PyInt? && vals[23].PyInt?
    && vals[24].PyInt? && vals[25].PyInt? && vals[26].PyInt?
  }

  lemma UserFeaturesConformsLow(vals: seq<PyValue>)
    requires Conforms(UserFeaturesFields, vals)
    ensures |vals| == 27 && UserFeaturesTypedLow(vals)
  {
    var F := UserFeaturesFields;
    assert Admits(F[0], vals[0]) && Admits(F[1], vals[1]) && Admits(F[2], vals[2]);
    assert Admits(F[3], vals[3]) && Admits(F[4], vals[4]) && Admits(F[5], vals[5]);
    assert Admits(F[6], vals[6]) && Admits(F[7], vals[7]) && Admits(F[8], vals[8]);
    assert Admits(F[9], vals[9]) && Admits(F[10], vals[10]) && Admits(F[11], vals[11]);
    assert Admits(F[12], vals[12]) && Admits(F[13], vals[13]);
  }

  lemma UserFeaturesConformsHigh(vals: seq<PyValue>)
    requires Conforms(UserFeaturesFields, vals)
    ensures |vals| == 27 && UserFeaturesTypedHigh(vals)
  {
    var F := UserFeaturesFields;
    assert Admits(F[14], vals[14]);
    assert Admits(F[15], vals[15]) && Admits(F[16], vals[16]) && Admits(F[17], vals[17]);
    assert Admits(F[18], vals[18]) && Admits(F[19], vals[19]) && Admits(F[20], vals[20]);
    assert Admits(F[21], vals[21]) && Admits(F[22], vals[22]) && Admits(F[23], vals[23]);
    assert Admits(F[24], vals[24]) && Admits(F[25], vals[25]) && Admits(F[26], vals[26]);
  }

  /** The record whose field values are `vals` (see `BuildUserFeaturesInverts`). */
  function BuildUserFeatures(vals: seq<PyValue>): UserFeatures
    requires Conforms(UserFeaturesFields, vals)
  {
    UserFeaturesConformsLow(vals);
    UserFeaturesConformsHigh(vals);
    UserFeatures(vals[0].s, vals[1].i, if vals[2].PyStr? then Some(vals[2].s) else None,
      vals[3].s, vals[4].i, vals[5].s, vals[6].i, vals[7].i, vals[8].s, vals[9].i,
      vals[10].i, vals[11].i, vals[12].i, vals[13].i, vals[14].s, vals[15].s, vals[16].i,
      vals[17].i, vals[18].s, vals[19].i, vals[20].i, vals[21].i, vals[22].i, vals[23].i,
      vals[24].i, vals[25].i, vals[26].i)
  }

  /** Every conforming list of values is the field values of exactly the record built from it. */
  lemma BuildUserFeaturesInverts(vals: seq<PyValue>)
    requires Conforms(UserFeaturesFields, vals)
    ensures FieldValues(BuildUserFeatures(vals)) == vals
  {
    UserFeaturesConformsLow(vals);
    UserFeaturesConformsHigh(vals);
    var u := FieldValues(BuildUserFeatures(vals));
    assert u[0] == vals[0] && u[1] == vals[1] && u[2] == vals[2] && u[3] == vals[3] && u[4] == vals[4];
    assert u[5] == vals[5] && u[6] == vals[6] && u[7] == vals[7] && u[8] == vals[8] && u[9] == vals[9];
    assert u[10] == vals[10] && u[11] == vals[11] && u[12] == vals[12] && u[13] == vals[13];
    assert u[14] == vals[14] && u[15] == vals[15] && u[16] == vals[16] && u[17] == vals[17];
    assert u[18] == vals[18] && u[19] == vals[19] && u[20] == vals[20] && u[21] == vals[21];
    assert u[22] == vals[22] && u[23] == vals[23] && u[24] == vals[24] && u[25] == vals[25];
    assert u[26] == vals[26];
  }

  /** `UserFeatures(**kwargs)`. */
  function NewUserFeatures(kwargs: map<string, PyValue>): (r: Result<UserFeatures, seq<string>>)
    ensures r.Success? <==> Validate(UserFeaturesFields, kwargs).Success?
    ensures r.Success? ==> FieldValues(r.value) == Validate(UserFeaturesFields, kwargs).value
  {
    var vals :- Validate(UserFeaturesFields, kwargs);
    BuildUserFeaturesInverts(vals);
    Success(BuildUserFeatures(vals))
  }

  /** Keyword arguments naming each field of `UserFeatures` with the value at its position. */
  function UserFeaturesKwargs(vals: seq<PyValue>): (d: map<string, PyValue>)
    requires |vals| == |UserFeaturesFields|
    ensures forall i | 0 <= i < |UserFeaturesFields| ::
              UserFeaturesFields[i].name in d && d[UserFeaturesFields[i].name] == vals[i]
  {
    UserFeaturesNamesDistinct();
    ToDict(UserFeaturesFields, vals)
  }

  /** Well-typed keyword arguments always construct, to the record holding exactly those values. */
  lemma NewUserFeaturesOfConforming(vals: seq<PyValue>)
    requires Conforms(UserFeaturesFields, vals)
    ensures NewUserFeatures(UserFeaturesKwargs(vals)).Success?
    ensures FieldValues(NewUserFeatures(UserFeaturesKwargs(vals)).value) == vals
  {
    UserFeaturesNamesDistinct();
    ValidateToDict(UserFeaturesFields, vals);
    NewUserFeaturesOfValid(UserFeaturesKwargs(vals), vals);
  }

  /** `UserFeatures.model_dump()`. */
  function Dump(f: UserFeatures): (d: map<string, PyValue>)
    ensures forall i | 0 <= i < |UserFeaturesFields| ::
              UserFeaturesFields[i].name in d && d[UserFeaturesFields[i].name] == FieldValues(f)[i]
  {
    UserFeaturesNamesDistinct();
    ToDict(UserFeaturesFields, FieldValues(f))
  }

  lemma NewUserFeaturesOfValid(kwargs: map<string, PyValue>, vals: seq<PyValue>)
    requires Validate(UserFeaturesFields, kwargs) == Success(vals)
    ensures NewUserFeatures(kwargs) == Success(BuildUserFeatures(vals))
  {
  }

  lemma FieldValuesInjective(f: UserFeatures, g: UserFeatures)
    requires FieldValues(f) == FieldValues(g)
    ensures f == g
  {
    var u, v := FieldValues(f), FieldValues(g);
    assert u[0] == v[0] && u[1] == v[1] && u[2] == v[2] && u[3] == v[3] && u[4] == v[4];
    assert u[5] == v[5] && u[6] == v[6] && u[7] == v[7] && u[8] == v[8] && u[9] == v[9];
    assert u[10] == v[10] && u[11] == v[11] && u[12] == v[12] && u[13] == v[13] && u[14] == v[14];
    assert u[15] == v[15] && u[16] == v[16] && u[17] == v[17] && u[18] == v[18] && u[19] == v[19];
    assert u[20] == v[20] && u[21] == v[21] && u[22] == v[22] && u[23] == v[23] && u[24] == v[24];
    assert u[25] == v[25] && u[26] == v[26];
    assert f.Attrition == g.Attrition;
  }

  /** `UserFeatures(**f.model_dump()) == f`: a record survives its own dump. */
  lemma DumpRoundTrip(f: UserFeatures)
    ensures NewUserFeatures(Dump(f)) == Success(f)
  {
    var vals := FieldValues(f);
    UserFeaturesNamesDistinct();
    ValidateToDict(UserFeaturesFields, vals);
    assert Validate(UserFeaturesFields, Dump(f)) == Success(vals);
    var g := BuildUserFeatures(vals);
    BuildUserFeaturesInverts(vals);
    NewUserFeaturesOfValid(Dump(f), vals);
    FieldValuesInjective(g, f);
  }

  function Names(fields: seq<FieldSpec>): (names: seq<string>)
    ensures |names| == |fields|
  {
    seq(|fields|, i requires 0 <= i < |fields| => fields[i].name)
  }

  lemma {:induction false} SplitRequiredNames(a: seq<FieldSpec>, b: seq<FieldSpec>)
    ensures RequiredNames(a + b) == RequiredNames(a) + RequiredNames(b)
  {
    if a == [] {
      assert a + b == b;
    } else {
      assert (a + b)[0] == a[0] && (a + b)[1..] == a[1..] + b;
      SplitRequiredNames(a[1..], b);
      var head := if a[0].required then [a[0].name] else [];
      assert RequiredNames(a + b) == head + (RequiredNames(a[1..]) + RequiredNames(b));
    }
  }

  lemma {:induction false} SplitOptionalNames(a: seq<FieldSpec>, b: seq<FieldSpec>)
    ensures OptionalNames(a + b) == OptionalNames(a) + OptionalNames(b)
  {
    if a == [] {
      assert a + b == b;
    } else {
      assert (a + b)[0] == a[0] && (a + b)[1..] == a[1..] + b;
      SplitOptionalNames(a[1..], b);
      var head := if a[0].required then [] else [a[0].name];
      assert OptionalNames(a + b) == head + (OptionalNames(a[1..]) + OptionalNames(b));
    }
  }

  lemma SplitNames(a: seq<FieldSpec>, b: seq<FieldSpec>)
    ensures RequiredNames(a + b) == RequiredNames(a) + RequiredNames(b)
    ensures OptionalNames(a + b) == OptionalNames(a) + OptionalNames(b)
  {
    SplitRequiredNames(a, b);
    SplitOptionalNames(a, b);
  }

  /** On fields that are all required, the required names are all the names. */
  lemma {:induction false} AllRequiredNames(fields: seq<FieldSpec>)
    requires forall i | 0 <= i < |fields| :: fields[i].required
    ensures RequiredNames(fields) == Names(fields) && OptionalNames(fields) == []
  {
    if fields != [] {
      AllRequiredNames(fields[1..]);
      assert Names(fields) == [fields[0].name] + Names(fields[1..]);
    }
  }

  /** Required fields around a single optional one. */
  lemma {:induction false} OneOptionalField(head: seq<FieldSpec>, opt: FieldSpec, tail: seq<FieldSpec>)
    requires forall i | 0 <= i < |head| :: head[i].required
    requires forall i | 0 <= i < |tail| :: tail[i].required
    requires !opt.required
    ensures RequiredNames(head + [opt] + tail) == Names(head + tail)
    ensures OptionalNames(head + [opt] + tail) == [opt.name]
  {
    AllRequiredNames(head);
    AllRequiredNames(tail);
    AllRequiredNames(head + tail);
    SplitNames(head + [opt], tail);
    SplitNames(head, [opt]);
    SplitNames(head, tail);
    assert RequiredNames([opt]) == [] && OptionalNames([opt]) == [opt.name];
  }

  /** `Attrition` is the third field; the two before it and the 24 after it are required. */
  lemma UserFeaturesLayout()
    ensures |UserFeaturesFields| == 27
    ensures UserFeaturesFields == UserFeaturesFields[..2] + [UserFeaturesFields[2]] + UserFeaturesFields[3..]
    ensures UserFeaturesFields[2] == FieldSpec("Attrition", StrType, false)
    ensures forall i | 0 <= i < 2 :: UserFeaturesFields[..2][i].required
    ensures forall i | 0 <= i < 24 :: UserFeaturesFields[3..][i].required
  {
  }

  /** The 26 required fields and the single optional one, `Attrition`, a string. */
  lemma UserFeaturesShape()
    ensures RequiredNames(UserFeaturesFields) == Names(UserFeaturesFields[..2] + UserFeaturesFields[3..])
    ensures |RequiredNames(UserFeaturesFields)| == 26
    ensures OptionalNames(UserFeaturesFields) == ["Attrition"]
  {
    var F := UserFeaturesFields;
    UserFeaturesLayout();
    OneOptionalField(F[..2], F[2], F[3..]);
  }

  /** `PredictionRequest(features=...)`: one required list. */
  datatype PredictionRequest = PredictionRequest(features: seq<UserFeatures>)

  const PredictionRequestFields: seq<FieldSpec> := [FieldSpec("features", ListType, true)]

  // ---------------------------------------------------------------- responses

  /** `BaseResponse`: the fields every response model inherits. */
  const BaseResponseFields: seq<FieldSpec> := [FieldSpec("status", StrType, true), FieldSpec("message", StrType, false)]

  /** `UserPrediction`, as declared: both fields are text. */
  const UserPredictionFields: seq<FieldSpec> := [FieldSpec("user_id", StrType, true), FieldSpec("prediction", StrType, true)]

  datatype UserPrediction = UserPrediction(user_id: string, prediction: string)

  /** `UserPrediction(**kwargs)`; the declared model has no `probability` field, so that argument is dropped. */
  function NewUserPrediction(kwargs: map<string, PyValue>): (r: Result<UserPrediction, seq<string>>)
    ensures r.Success? <==> Get(kwargs, "user_id").PyStr? && Get(kwargs, "prediction").PyStr?
    ensures r.Success? ==> r.value == UserPrediction(Get(kwargs, "user_id").s, Get(kwargs, "prediction").s)
    ensures r.Failure? ==> r.error == (if Get(kwargs, "user_id").PyStr? then [] else ["user_id"])
                                      + (if Get(kwargs, "prediction").PyStr? then [] else ["prediction"])
  {
    var F := UserPredictionFields;
    assert F[0].name == "user_id" && F[1].name == "prediction" && F[2..] == [];
    assert FieldErrors(F[1..], kwargs) == if Get(kwargs, "prediction").PyStr? then [] else ["prediction"];
    var vals :- Validate(F, kwargs);
    Success(UserPrediction(vals[0].s, vals[1].s))
  }

  /**
   * The prediction record the service and the dashboard both use: an integer
   * label and its probability next to the user id. It is what `UserPrediction`
   * evidently was meant to declare.
   */
  const ScoredPredictionFields: seq<FieldSpec> :=
    [FieldSpec("user_id", StrType, true), FieldSpec("prediction", IntType, true), FieldSpec("probability", FloatType, true)]

  datatype ScoredPrediction = ScoredPrediction(user_id: string, prediction: int, probability: real)

  function FloatOf(v: PyValue): real
    requires v.PyFloat? || v.PyInt?
  {
    if v.PyFloat? then v.r else v.i as real
  }

  /** The three fields of the intended record, one by one. */
  lemma ScoredPredictionValidate(kwargs: map<string, PyValue>)
    ensures Validate(ScoredPredictionFields, kwargs).Success? <==>
              (Get(kwargs, "user_id").PyStr? && Get(kwargs, "prediction").PyInt?
               && (Get(kwargs, "probability").PyFloat? || Get(kwargs, "probability").PyInt?))
    ensures Validate(ScoredPredictionFields, kwargs).Success? ==>
              Validate(ScoredPredictionFields, kwargs).value
              == [Get(kwargs, "user_id"), Get(kwargs, "prediction"), Get(kwargs, "probability")]
  {
    var F := ScoredPredictionFields;
    assert F[0] == FieldSpec("user_id", StrType, true);
    assert F[1] == FieldSpec("prediction", IntType, true);
    assert F[2] == FieldSpec("probability", FloatType, true);
    assert |F| == 3;
    var admitted := forall i | 0 <= i < |F| :: Admits(F[i], Get(kwargs, F[i].name));
    assert admitted <==> Admits(F[0], Get(kwargs, "user_id")) && Admits(F[1], Get(kwargs, "prediction"))
                         && Admits(F[2], Get(kwargs, "probability"));
    var r := Validate(F, kwargs);
    if r.Success? {
      assert |r.value| == 3;
      assert r.value[0] == Get(kwargs, "user_id");
      assert r.value[1] == Get(kwargs, "prediction");
      assert r.value[2] == Get(kwargs, "probability");
    }
  }

  function NewScoredPrediction(kwargs: map<string, PyValue>): (r: Result<ScoredPrediction, seq<string>>)
    ensures r.Success? <==> (Get(kwargs, "user_id").PyStr? && Get(kwargs, "prediction").PyInt?
                             && (Get(kwargs, "probability").PyFloat? || Get(kwargs, "probability").PyInt?))
    ensures r.Success? ==> r.value == ScoredPrediction(Get(kwargs, "user_id").s, Get(kwargs, "prediction").i,
                                                       FloatOf(Get(kwargs, "probability")))
  {
    ScoredPredictionValidate(kwargs);
    var vals :- Validate(ScoredPredictionFields, kwargs);
    Success(ScoredPrediction(vals[0].s, vals[1].i, FloatOf(vals[2])))
  }

  const PredictionResponseFields: seq<FieldSpec> :=
    BaseResponseFields + [FieldSpec("predictions", ListType, true), FieldSpec("recommendations", StrType, false)]

  /** `PredictionResponse`, over the prediction record `P` it lists. */
  datatype PredictionResponse<P> = PredictionResponse(
    status: string, message: Option<string>, predictions: seq<P>, recommendations: Option<string>)

  /** `HealthResponse` redeclares `status` with the same type, so it keeps its place. */
  const HealthResponseFields: seq<FieldSpec> := BaseResponseFields + [FieldSpec("uptime", FloatType, true)]

  datatype HealthResponse = HealthResponse(status: string, message: Option<string>, uptime: real)

  const InfoResponseFields: seq<FieldSpec> :=
    BaseResponseFields + [FieldSpec("service_name", StrType, true), FieldSpec("model_version", StrType, true),
                          FieldSpec("model_type", StrType, true)]

  datatype InfoResponse = InfoResponse(
    status: string, message: Option<string>, service_name: string, model_version: string, model_type: string)

  const ErrorResponseFields: seq<FieldSpec> := BaseResponseFields + [FieldSpec("error_details", StrType, false)]

  datatype ErrorResponse = ErrorResponse(status: string, message: Option<string>, error_details: Option<string>)

  /** `BaseResponse`: `status` is required, `message` defaults to `None`. */
  lemma BaseResponseShape()
    ensures RequiredNames(BaseResponseFields) == ["status"] && OptionalNames(BaseResponseFields) == ["message"]
  {
  }

  /** The declared `UserPrediction` has exactly two required text fields and no `probability`. */
  lemma UserPredictionShape()
    ensures RequiredNames(UserPredictionFields) == ["user_id", "prediction"] && OptionalNames(UserPredictionFields) == []
    ensures forall f | f in UserPredictionFields :: f.ty == StrType && f.name != "probability"
  {
  }

  /** A model that extends `BaseResponse` with required fields `extra` has `status` and `extra` required. */
  lemma ExtendsBaseResponse(extra: seq<FieldSpec>)
    ensures RequiredNames(BaseResponseFields + extra) == ["status"] + RequiredNames(extra)
    ensures OptionalNames(BaseResponseFields + extra) == ["message"] + OptionalNames(extra)
  {
    BaseResponseShape();
    SplitNames(BaseResponseFields, extra);
  }

  lemma PredictionRequestShape()
    ensures RequiredNames(PredictionRequestFields) == ["features"] && OptionalNames(PredictionRequestFields) == []
  {
  }

  /** `predictions` is required; `message` and `recommendations` default to `None`. */
  lemma PredictionResponseShape()
    ensures RequiredNames(PredictionResponseFields) == ["status", "predictions"]
    ensures OptionalNames(PredictionResponseFields) == ["message", "recommendations"]
  {
    ExtendsBaseResponse(PredictionResponseFields[2..]);
    assert PredictionResponseFields == BaseResponseFields + PredictionResponseFields[2..];
  }

  /** `uptime` is required. */
  lemma HealthResponseShape()
    ensures RequiredNames(HealthResponseFields) == ["status", "uptime"]
    ensures OptionalNames(HealthResponseFields) == ["message"]
  {
    ExtendsBaseResponse(HealthResponseFields[2..]);
    assert HealthResponseFields == BaseResponseFields + HealthResponseFields[2..];
  }

  lemma InfoResponseShape()
    ensures RequiredNames(InfoResponseFields) == ["status", "service_name", "model_version", "model_type"]
    ensures OptionalNames(InfoResponseFields) == ["message"]
  {
    ExtendsBaseResponse(InfoResponseFields[2..]);
    assert InfoResponseFields == BaseResponseFields + InfoResponseFields[2..];
  }

  /** `error_details` defaults to `None`. */
  lemma ErrorResponseShape()
    ensures RequiredNames(ErrorResponseFields) == ["status"]
    ensures OptionalNames(ErrorResponseFields) == ["message", "error_details"]
  {
    ExtendsBaseResponse(ErrorResponseFields[2..]);
    assert ErrorResponseFields == BaseResponseFields + ErrorResponseFields[2..];
  }

  /** Leaving out every optional argument gives `None` for each of them. */
  lemma OptionalDefaultsToNone(fields: seq<FieldSpec>, kwargs: map<string, PyValue>, i: nat)
    requires i < |fields| && !fields[i].required && fields[i].name !in kwargs
    ensures Admits(fields[i], Get(kwargs, fields[i].name))
    ensures Validate(fields, kwargs).Success? ==> Validate(fields, kwargs).value[i] == PyNone
  {
  }
}
