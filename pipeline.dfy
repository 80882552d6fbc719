/**
 * The dashboard's "Generate Predictions" action end to end
 * (streamlit_client.py): convert the uploaded rows, call `/predict`, and
 * tabulate the predictions; once with the prediction record as declared and
 * once with the record that carries a label and a probability.
 */
module Pipeline {
  import opened Wrappers
  import opened Models
  import opened Client
  import opened Service

  /** What the action ends in: a table, or one of the ways it stops. */
  datatype Shown<L> =
    | Table(rows: seq<TableRow<L>>)
    | ConversionFailed(error: RowError)
    | ApiFailed(statusCode: int)

  /** `call_prediction_api` over a reachable server: a 200 yields the response body, any other status nothing. */
  function CallPredictionApi<P>(outcome: PredictOutcome<P>): (r: Option<PredictionResponse<P>>)
    ensures r.Some? <==> outcome.Ok?
    ensures r.Some? ==> r.value == outcome.response
  {
    match outcome
    case Ok(response) => Some(response)
    case HttpError(_, _) => None
  }

  /** The HTTP status a `/predict` outcome is sent with. */
  function StatusCode<P>(outcome: PredictOutcome<P>): int {
    match outcome
    case Ok(_) => 200
    case HttpError(code, _) => code
  }

  /**
   * The action as written: a batch whose rows all convert is refused by the
   * server with a 500, so a table appears only for an upload with no rows
   * (and the table's read of the absent `probability` is never reached).
   */
  method GeneratePredictionsDeclared(rows: seq<Row>, stream: nat -> real) returns (shown: Shown<string>)
    ensures shown.Table? <==> rows == []
    ensures shown.Table? ==> shown.rows == []
    ensures (forall k | 0 <= k < |rows| :: MapRow(rows[k]).Success?) && rows != [] ==> shown == ApiFailed(500)
    ensures (exists k | 0 <= k < |rows| :: MapRow(rows[k]).Failure?) ==> shown.ConversionFailed?
  {
    var request := ConvertDfToPredictionRequest(rows);
    if request.Failure? {
      return ConversionFailed(request.error);
    }
    var outcome := PredictDeclared(request.value, stream);
    var response := CallPredictionApi(outcome);
    if response.None? {
      return ApiFailed(StatusCode(outcome));
    }
    // A 200 carries no predictions, so the table never reads the missing `probability`.
    var table := PredictionsTableDeclared(response.value.predictions);
    if table.Failure? {
      assert false;
    }
    return Table(table.value);
  }

  /**
   * The action with the prediction record the service builds: when every
   * row converts, the table has one line per uploaded row, in upload order,
   * with that row's user id, a label of 1 exactly when its score reaches
   * 0.5, and the score rounded to four places; otherwise the first failing
   * row's error is reported.
   */
  method GeneratePredictions(rows: seq<Row>, stream: nat -> real) returns (shown: Shown<int>)
    ensures shown.Table? <==> forall k | 0 <= k < |rows| :: MapRow(rows[k]).Success?
    ensures shown.Table? ==>
              && |shown.rows| == |rows|
              && forall k | 0 <= k < |rows| ::
                   && shown.rows[k].userId == CellText(rows[k]["UserId"])
                   && (shown.rows[k].prediction == 1 <==> stream(k) >= 0.5)
                   && (shown.rows[k].prediction == 0 <==> stream(k) < 0.5)
                   && shown.rows[k].probability == Round4(stream(k))
    ensures !shown.Table? ==> exists k | 0 <= k < |rows| ::
                                && MapRow(rows[k]).Failure?
                                && shown == ConversionFailed(MapRow(rows[k]).error)
                                && forall j | 0 <= j < k :: MapRow(rows[j]).Success?
  {
    var request := ConvertDfToPredictionRequest(rows);
    if request.Failure? {
      return ConversionFailed(request.error);
    }
    var outcome := PredictIntended(request.value, stream);
    var response := CallPredictionApi(outcome);
    var table := PredictionsTable(response.value.predictions);
    ConvertedUserIds(rows, request.value.features);
    return Table(table);
  }
}
