# Employee attrition prediction: a Dafny model

This project models the core of a small two-part system. An HTTP service
takes a batch of employee feature records and returns mock attrition
predictions. A dashboard reads an uploaded spreadsheet, checks its file type
and columns, turns each row into a feature record, calls the service, and
shows the predictions as a table.

The model has six modules:

- `Wrappers` (`wrappers.dfy`): `Option` and `Result`.
- `Strings` (`strings.dfy`): the Python string operations the code relies on.
  These are `str(int)`, `int(str)`, `str.lower()` on ASCII, `", ".join`, and
  a splitting inverse of `join`.
- `Models` (`models.dfy`, for `models.py`): every concrete Pydantic model appears twice (`BaseResponse` appears only as field descriptors, which its subclasses extend). A datatype holds
  an instance. A list of field descriptors holds name, declared type and
  required-or-optional, in declaration order. `Validate` checks keyword
  arguments against the descriptors. It follows the subset of a Pydantic v2
constructor's default (lax) mode that these calls exercise:
  - a `str` field takes text;
  - an `int` field takes an integer;
  - a `float` field takes a float or an integer;
  - an `Optional` field defaults to `None`;
  - unknown arguments are ignored;
  - every rejected field is reported.
- `Client` (`client.dfy`, for `streamlit_client.py`): the dashboard's data intake. This covers
  the file-type check, the required-column check, the row-to-record loop and
  the predictions table.
- `Service` (`service.dfy`, for `fastapi_app.py`): the `/predict` handler, the dataframe step,
  the seeded mock scorer, labelling and rounding, `/info` and `/health`.
- `Pipeline` (`pipeline.dfy`, for `streamlit_client.py`): the dashboard's "Generate Predictions" action end to end
  (convert, call, tabulate).

Modelling choices:

- **Seeded scorer.** The generator is re-seeded with 42 on every call. It is
  therefore a fixed stream of draws `stream: nat -> real`, and row `k` of any
  batch gets draw `k`.
- **Cells.** A spreadsheet cell is `Null` (NaN), a whole number, or text.
- **`/predict` is generic over its record constructor.** The loop is written
  once and run with two constructors:
  - `UserPrediction` as `models.py` declares it: a `str` prediction and no
    probability;
  - the record the service and dashboard actually use: an integer label and a
    probability.

The code disagrees with itself about the prediction record:

- the handler (fastapi_app.py:80-84) builds it from an integer label and a
  `probability`;
- the dashboard (streamlit_client.py:258) reads `pred.probability`;
- `models.py:41-43` declares only `user_id: str` and `prediction: str`.

The model follows the code as written, and the consequences are under
"Findings".

## Model

| member | source | states |
|---|---|---|
| Models.FieldErrors | models.py:6-59 | The rejected fields are exactly those whose argument (or `None` default) the declared type refuses; none are reported iff every field accepts (order and multiplicity: `Models.FieldErrorsAppend`, `Models.FieldErrorsSingle`). |
| Models.FieldErrorsAppend | models.py:6-59 | The errors of a concatenated field list are the errors of each part, in that order, so errors come in declaration order. |
| Models.FieldErrorsCons | models.py:6-59 | The first field's error, if any, is reported before those of the remaining fields. |
| Models.FieldErrorsSingle | models.py:6-59 | A single field reports its name exactly once if its type refuses its argument, and nothing otherwise. |
| Models.Validate | models.py:6-59 | Construction succeeds iff every field admits its argument. On success the values are the arguments in field order and conform to the declared types. On failure the error list is non-empty and names only declared fields. |
| Models.ValidateToDict | models.py:6-59 | A model re-validates its own `model_dump` to the same values. |
| Models.OptionalDefaultsToNone | models.py:9 | An omitted `Optional[...] = None` field is accepted and takes the value `None`. |
| Models.UserFeaturesNamesDistinct | models.py:6-33 | The 27 `UserFeatures` field names are pairwise distinct. |
| Models.FieldValues | models.py:6-33 | The field values of any `UserFeatures` conform to its declared types. |
| Models.BuildUserFeaturesInverts | models.py:6-33 | Every conforming list of values is exactly the field values of the record built from it. |
| Models.NewUserFeatures | models.py:6-33 | `UserFeatures(**kwargs)` succeeds iff validation does, and the record holds the validated values. |
| Models.UserFeaturesKwargs | models.py:6-33 | Keyword arguments mapping each field name to the value at its position. |
| Models.NewUserFeaturesOfConforming | models.py:6-33 | Well-typed keyword arguments always construct, to the record holding exactly those values. |
| Models.Dump | models.py:6-33 | `model_dump()` maps every field name to that field's value. |
| Models.FieldValuesInjective | models.py:6-33 | Two records with the same field values are the same record. |
| Models.DumpRoundTrip | models.py:6-33 | `UserFeatures(**f.model_dump()) == f` for every record. |
| Models.SplitNames | models.py:6-59 | Required and optional name lists distribute over concatenating field lists. |
| Models.UserFeaturesLayout | models.py:6-33 | 27 fields. `Attrition` is third and is `Optional[str]`. Every other field is required. |
| Models.UserFeaturesShape | models.py:6-33 | The required names are all fields but `Attrition`, 26 of them; `Attrition` is the only optional field. |
| Models.BaseResponseShape | models.py:38-40 | `status` is required; `message` is optional. |
| Models.UserPredictionShape | models.py:41-43 | `UserPrediction` has exactly the required text fields `user_id` and `prediction`, and no `probability`. |
| Models.ExtendsBaseResponse | models.py:38-59 | A subclass of `BaseResponse` requires `status` plus its own required fields, and has `message` plus its own optional ones. |
| Models.PredictionRequestShape | models.py:35-36 | `features` is the one required field. |
| Models.PredictionResponseShape | models.py:45-47 | `status` and `predictions` are required; `message` and `recommendations` are optional. |
| Models.HealthResponseShape | models.py:49-51 | `status` and `uptime` are required; `message` is optional. |
| Models.InfoResponseShape | models.py:53-56 | `status`, `service_name`, `model_version` and `model_type` are required. |
| Models.ErrorResponseShape | models.py:58-59 | `status` is required; `message` and `error_details` are optional. |
| Models.NewUserPrediction | models.py:41-43 | Succeeds iff `user_id` and `prediction` are both text. On failure it reports the non-text ones in declaration order. `probability` is ignored. |
| Models.ScoredPredictionValidate | fastapi_app.py:80-84 | Validation of the intended record succeeds exactly when `user_id` is a string, `prediction` an integer and `probability` a float or integer, and then keeps those three values in order. |
| Models.NewScoredPrediction | fastapi_app.py:80-84 | The intended record accepts an integer label and a float (or integer) probability, and holds exactly them. |
| Client.AfterLastDot | streamlit_client.py:24 | `split('.')[-1]`: a dot-free suffix of the name, preceded by a dot unless it is the whole name. |
| Client.ValidateFileType | streamlit_client.py:19-30 | No upload is rejected with "No file uploaded". Otherwise the file is accepted iff its lower-cased last segment is csv, xlsx or xls, and a rejection message quotes that extension. |
| Client.ExtensionIsLastSegment | streamlit_client.py:24 | A name with a dot is some prefix, a dot, then the extension. |
| Client.LowerAfterLastDot | streamlit_client.py:24 | Lower-casing commutes with taking the last segment. |
| Client.FileTypeIgnoresCase | streamlit_client.py:19-30 | A name and its lower-cased form are accepted or rejected alike. |
| Client.UpperCaseAccepted | streamlit_client.py:24-30 | `DATA.CSV` is accepted with "Valid file type". |
| Client.BareNameIsItsExtension | streamlit_client.py:24-27 | A dot-free name is its own extension: a file named `csv` passes. |
| Client.LastSegmentAccepted | streamlit_client.py:24-30 | The extension of `report.v2.xlsx` is `xlsx` and the file is accepted: only the segment after the last dot counts. |
| Client.EarlierExtensionIgnored | streamlit_client.py:24-29 | The extension of `data.csv.bak` is `bak` and the file is rejected with the message naming `.bak`: an earlier `.csv` segment does not count. |
| Client.TextFileRejected | streamlit_client.py:27-28 | `a.txt` is rejected with the message citing `.txt`. |
| Client.RequiredColumnsIndexed | streamlit_client.py:51-60 | Column `i` of the client's list is `UserFeatures` field `i` (field `i + 1` past `Attrition`). |
| Client.RequiredColumnsMatchSchema | streamlit_client.py:51-60 | The client's required columns are exactly the required `UserFeatures` fields, in declaration order. |
| Client.RequiredColumnsDistinct | streamlit_client.py:51-60 | No required column is listed twice. |
| Client.Absent | streamlit_client.py:62 | A column is missing iff it is required and absent from the table. |
| Client.AbsentInOrder | streamlit_client.py:62 | Missing columns keep the order of the required list, so each appears once. |
| Client.ValidateDataframeColumns | streamlit_client.py:49-67 | Passes iff every required column is present (extra columns are ignored). Otherwise the message lists the missing columns joined with ", ". |
| Client.MissingColumnsMessage | streamlit_client.py:64-65 | The failure message cuts back at ", " into exactly the missing columns, in order, each once. |
| Client.CellIntOfText | streamlit_client.py:76 | A number read as text converts with `int()` to the same value as the number cell. |
| Client.CoerceField | streamlit_client.py:74-102 | A required column must be present and, for an `int` field, hold an integer. An optional field never fails. |
| Client.RowValues | streamlit_client.py:74-102 | Arguments are evaluated in keyword order. All succeed, giving each field's coerced cell, or the first failure's error is raised. |
| Client.CoercedConforms | streamlit_client.py:74-102 | What the client builds with `str()`/`int()` always has the declared type. |
| Client.MapRowValues | streamlit_client.py:74-102 | A row's record constructs iff its arguments evaluate. Model validation never rejects a row, and the record holds the coerced cells. |
| Client.MapRowSucceeds | streamlit_client.py:74-102 | A row converts iff every required column is present and every integer column holds an integer. Otherwise the error is a missing column or a non-integer cell. |
| Client.MapRowField | streamlit_client.py:74-102 | Field `k` of a converted record is the coerced cell of column `k`. |
| Client.MapRowUserId | streamlit_client.py:75 | `UserId` is the text of the row's `UserId` cell. |
| Client.OptionalCoercion | streamlit_client.py:77 | An optional field holds its cell's text, or `None` when the column is absent or the cell is NaN. |
| Client.MapRowAttrition | streamlit_client.py:77 | `Attrition` is the cell's text, or `None` when the column is absent or the cell is NaN. |
| Client.RowValuesLocal | streamlit_client.py:74-102 | Only the cells of schema columns matter. |
| Client.MapRowIgnoresOtherColumns | streamlit_client.py:74-102 | Two rows that agree on the schema columns convert alike; extra columns are ignored. |
| Client.CheckedColumnsLeaveNumberErrors | streamlit_client.py:49-102 | After the column check passes, a row can fail only on a cell that is not an integer. |
| Client.ConvertRows | streamlit_client.py:73-103 | One result per row, in row order, or the first failing row's error. |
| Client.ConvertDfToPredictionRequest | streamlit_client.py:69-105 | The request holds one record per row, in order, iff every row converts. Otherwise the first failing row's error is raised. |
| Client.PredictionsTableDeclared | streamlit_client.py:254-261 | With the declared `UserPrediction`, building the table raises for any non-empty list (no `probability`). |
| Client.PredictionsTable | streamlit_client.py:254-261 | One table line per prediction, in order, holding its user id, label and probability. |
| Service.ServiceInfo | fastapi_app.py:113-121 | `/info` returns "success", the service name, model version 1.0.0 and type RandomForestClassifier. |
| Service.HealthCheck | fastapi_app.py:104-111 | `/health` returns "healthy" and uptime = now − start, non-negative when the clock does not go back. |
| Service.ConvertFeaturesToDataframe | fastapi_app.py:48-53 | One dataframe row per record. |
| Service.DataframeRoundTrip | fastapi_app.py:48-53 | Each dataframe row validates back to its record. |
| Service.PerformPrediction | fastapi_app.py:55-64 | One score per row, and row `k` gets draw `k` of the seeded stream. |
| Service.PerformPredictionIgnoresContent | fastapi_app.py:55-64 | Batches of equal length receive identical scores. |
| Service.PerformPredictionPrefix | fastapi_app.py:55-64 | A smaller batch receives the first scores of a larger one. |
| Service.Label | fastapi_app.py:78 | The label is 0 or 1, and 1 iff the score is at least 0.5. |
| Strings.IntToString | streamlit_client.py:75 | `str(i)`: a minus sign exactly when `i` is negative, then at least one decimal digit, with no leading zero except for 0 itself. |
| Strings.DigitsRoundTrip | streamlit_client.py:75-76 | The decimal digits of a natural number denote that number. |
| Strings.ParseIntRoundTrip | streamlit_client.py:75-76 | `int(str(i)) == i` for every integer. |
| Strings.ParseIntIgnoresSpace | streamlit_client.py:76 | White space around the text never changes what `int()` accepts, or the value it gives. |
| Strings.Lower | streamlit_client.py:24 | `str.lower()` on ASCII text: same length; each upper-case ASCII letter becomes its lower-case form (code point plus 32), and every other character is unchanged. |
| Strings.LowerIdempotent | streamlit_client.py:24 | Lower-casing twice is lower-casing once. |
| Strings.Join | streamlit_client.py:65 | `", ".join` of a single item is that item. |
| Strings.SplitJoin | streamlit_client.py:65 | Splitting the joined text at the separator gives back the items, when no item contains the separator's first character. |
| Client.FileExtension | streamlit_client.py:24 | The extension holds no dot and no upper-case letter, and is no longer than the name. |
| Client.CellText | streamlit_client.py:75 | `str(cell)`: the text of a number cell parses back with `int()` to that number. |
| Client.CellInt | streamlit_client.py:76 | `int(cell)` always agrees with `int(str(cell))`, so a null cell (text `nan`) gives no integer. |
| Client.MapRow | streamlit_client.py:74-102 | When an argument fails to evaluate, the row fails with the error of the first failing column in argument order (what the record then holds is stated by `Client.MapRowValues`). |
| Service.PredictionKwargs | fastapi_app.py:78-84 | Exactly the keys `user_id`, `prediction` and `probability`. `user_id` is the record's `UserId`. `prediction` is an integer, 1 iff the score is at least 0.5 and 0 iff below. `probability` is a float within 0.00005 of the score. |
| Service.Traceback | fastapi_app.py:94 | A single rejected field's name is the whole text. |
| Service.TracebackNamesRejected | fastapi_app.py:94 | Splitting the error text at `, ` gives back the rejected field names, in order, when none contains a comma. |
| Service.Round4 | fastapi_app.py:83 | A multiple of 0.0001 within 0.00005 of the score, staying in [0, 1]. |
| Service.Round4Idempotent | fastapi_app.py:83 | Rounding a rounded score changes nothing. |
| Service.LabelBeforeRounding | fastapi_app.py:78-83 | The label uses the unrounded score: 0.49996 gets label 0 but probability 0.5. |
| Service.Predict | fastapi_app.py:66-102 | Success iff every record constructs; then there is one prediction per input record, in order, with the fixed status, message and recommendation. Otherwise a 500 whose `ErrorResponse` carries the error of the first record that fails, every earlier record having constructed. |
| Service.DeclaredRejectsEveryRecord | fastapi_app.py:80-84 | The declared `UserPrediction` rejects every record the handler builds, on `prediction`. |
| Service.PredictDeclared | fastapi_app.py:66-102 | As written: success iff the batch is empty; any other batch gets the 500 error envelope. |
| Service.ScoredAcceptsEveryRecord | fastapi_app.py:80-84 | The intended record accepts every record the handler builds, keeping label and rounded score. |
| Service.PredictIntended | fastapi_app.py:66-102 | Always succeeds. Prediction `k` pairs record `k`'s user id with the label and rounded score of draw `k`, and the probability is in [0, 1] when the score is. |
| Pipeline.CallPredictionApi | streamlit_client.py:107-121 | A 200 yields the response body; any other status yields nothing. |
| Pipeline.GeneratePredictionsDeclared | streamlit_client.py:235-282 | As written: a table appears iff the upload has no rows. A batch whose rows all convert ends in a 500. |
| Pipeline.GeneratePredictions | streamlit_client.py:235-282 | Table iff every row converts. It has one line per uploaded row, in order, with that row's `UserId`, label 1 iff its score reaches 0.5, and the rounded score. Otherwise the first failing row's error. |

## Left out

- File reading (`load_data`, `read_csv`, `read_excel`) is not modelled. An uploaded table is given as column names plus rows of cells.
- Float cells and pandas dtype coercion are not modelled. A column holding NaN is stored as floats, so `int()` of such a cell is not represented; cells are NaN, whole numbers or text.
- Client.CellInt: `int()` on text accepts ASCII digits with an optional sign, surrounded by the ASCII characters `str.isspace()` holds for: tab, line feed, vertical tab, form feed, carriage return, the separators 0x1C to 0x1F, and space. Underscores, non-ASCII digits and non-ASCII white space (such as U+0085 and U+00A0) are not modelled.
- Strings.Lower, Client.FileExtension: lower-casing covers ASCII letters only, not Unicode case mapping (a non-ASCII letter such as 'Ä' is left unchanged).
- Service.Round4: works on exact reals with ties to even. Binary floating-point representation, and the ties it shifts, are not modelled.
- Service.Traceback: the traceback text is reduced to the names of the rejected fields.
- Service.HealthCheck: the clock is passed in as two readings. The startup hook that records the start time is not modelled.
- The server's connection errors and other HTTP transport failures are not modelled. `Pipeline.CallPredictionApi` covers a reachable server only.
- Validation of the items inside list fields (`features`, `predictions`) is not modelled. Records inside a request are already-built `UserFeatures` values.
- Lax Pydantic coercions from text to numbers are not modelled; only exact types and int-to-float are admitted. None of the modelled calls depends on them.
- The JSON encoding in both directions is taken as lossless and is not modelled. On the request path, the client's `model_dump()` (streamlit_client.py:112), the JSON body and the server's re-validation of `PredictionRequest` are skipped: `Pipeline` hands the converted records to the handler directly. `Models.DumpRoundTrip` justifies this for the records themselves, since every record validates back from its own dump. On the response path, the body is read back as the same `PredictionResponse`.
- The rest of the UI is not modelled: widgets, metrics, data preview, statistics, sidebar health and info buttons, and the instructions panel.
- Exporting the table as CSV, and the timestamped file name, are not modelled.

## Findings

| source | as written | input that shows it | evidently intended | confidence | as-written member | corrected member |
|---|---|---|---|---|---|---|
| models.py:41-43, fastapi_app.py:80-84 | `UserPrediction.prediction` is declared `str`. The handler passes the integer label (and a `probability` the model does not declare). Pydantic v2 rejects the integer, so every non-empty batch ends in a 500. | A request with one record | `prediction: int` plus `probability: float` | not executed | Service.PredictDeclared | Service.PredictIntended |
| streamlit_client.py:254-261 | The table reads `pred.probability`, which `UserPrediction` does not declare, so any non-empty response raises `AttributeError`. | A 200 response listing one prediction | A prediction record declaring `probability` | not executed | Client.PredictionsTableDeclared | Client.PredictionsTable |
| streamlit_client.py:235-282 | With the shared models as declared, the dashboard never shows a table for an upload with rows: the server refuses the batch. | An upload of one well-formed row | A table with one line per uploaded row | not executed | Pipeline.GeneratePredictionsDeclared | Pipeline.GeneratePredictions |
