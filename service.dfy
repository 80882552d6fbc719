/**
 * The prediction service (fastapi_app.py): the `/predict` handler with its
 * dataframe step and mock scorer, and the `/info` and `/health` endpoints.
 */
module Service {
  import opened Wrappers
  import opened Strings
  import opened Models

  const ServiceName := "Employee Attrition Prediction Service"

  // ---------------------------------------------------------------- /info and /health

  /** `GET /info`: fixed service metadata. */
  function ServiceInfo(): (r: InfoResponse)
    ensures r.status == "success" && r.message == Some("Service information retrieved successfully.")
    ensures r.service_name == ServiceName && r.model_version == "1.0.0" && r.model_type == "RandomForestClassifier"
  {
    InfoResponse("success", Some("Service information retrieved successfully."), ServiceName, "1.0.0", "RandomForestClassifier")
  }

  /** `GET /health`, with the start time and the current time of the clock passed in. */
  function HealthCheck(startTime: real, now: real): (r: HealthResponse)
    ensures r.status == "healthy" && r.message == Some("Service is up and running.")
    ensures r.uptime + startTime == now
    ensures startTime <= now ==> r.uptime >= 0.0
  {
    HealthResponse("healthy", Some("Service is up and running."), now - startTime)
  }

  // ---------------------------------------------------------------- dataframe and scorer

  /** A dataframe row: column name to value. */
  type Frame = seq<map<string, PyValue>>

  /** `convert_features_to_dataframe`: one row per record, holding that record's dump. */
  function ConvertFeaturesToDataframe(features: seq<UserFeatures>): (df: Frame)
    ensures |df| == |features|
  {
    seq(|features|, k requires 0 <= k < |features| => Dump(features[k]))
  }

  /** Each row of the dataframe holds its record losslessly: validating the row gives the record back. */
  lemma DataframeRoundTrip(features: seq<UserFeatures>)
    ensures forall k | 0 <= k < |features| ::
              NewUserFeatures(ConvertFeaturesToDataframe(features)[k]) == Success(features[k])
  {
    var df := ConvertFeaturesToDataframe(features);
    forall k | 0 <= k < |features| ensures NewUserFeatures(df[k]) == Success(features[k]) {
      DumpRoundTrip(features[k]);
    }
  }

  /**
   * `perform_prediction`: the generator is re-seeded with the same seed on
   * every call, so row `k` always receives the `k`-th draw of one fixed
   * stream, whatever the row holds.
   */
  function PerformPrediction(df: Frame, stream: nat -> real): (probs: seq<real>)
    ensures |probs| == |df|
    ensures forall k | 0 <= k < |probs| :: probs[k] == stream(k)
  {
    seq(|df|, k requires 0 <= k < |df| => stream(k))
  }

  /** The scores depend on the number of rows only. */
  lemma PerformPredictionIgnoresContent(df: Frame, other: Frame, stream: nat -> real)
    requires |df| == |other|
    ensures PerformPrediction(df, stream) == PerformPrediction(other, stream)
  {
  }

  /** A smaller batch receives the first scores of a larger one. */
  lemma PerformPredictionPrefix(df: Frame, other: Frame, stream: nat -> real)
    requires |df| <= |other|
    ensures PerformPrediction(df, stream) == PerformPrediction(other, stream)[..|df|]
  {
  }

  // ---------------------------------------------------------------- labels and rounding

  /** `1 if prob >= 0.5 else 0`. */
  function Label(p: real): (l: int)
    ensures l == 0 || l == 1
    ensures l == 1 <==> p >= 0.5
  {
    if p >= 0.5 then 1 else 0
  }

  /** `round(prob, 4)`: the nearest multiple of 0.0001, ties to the even multiple. */
  function Round4(p: real): (r: real)
    ensures (r * 10000.0).Floor as real == r * 10000.0
    ensures -0.00005 <= r - p <= 0.00005
    ensures 0.0 <= p <= 1.0 ==> 0.0 <= r <= 1.0
  {
    var scaled := p * 10000.0;
    var n := scaled.Floor;
    var frac := scaled - n as real;
    var m := if frac > 0.5 || (frac == 0.5 && n % 2 == 1) then n + 1 else n;
    m as real / 10000.0
  }

  /** Rounding an already rounded probability changes nothing. */
  lemma Round4Idempotent(p: real)
    ensures Round4(Round4(p)) == Round4(p)
  {
    var r := Round4(p);
    assert (r * 10000.0).Floor as real == r * 10000.0;
  }

  /** The label comes from the unrounded score: a row can show probability 0.5 with label 0. */
  lemma LabelBeforeRounding()
    ensures Label(0.49996) == 0 && Round4(0.49996) == 0.5
  {
    assert (0.49996 * 10000.0).Floor == 4999;
  }

  // ---------------------------------------------------------------- /predict

  /** The keyword arguments the handler passes for one user and its score. */
  function PredictionKwargs(f: UserFeatures, p: real): (kwargs: map<string, PyValue>)
    ensures kwargs.Keys == {"user_id", "prediction", "probability"}
    ensures kwargs["user_id"] == PyStr(f.UserId)
    ensures kwargs["prediction"].PyInt? && (kwargs["prediction"].i == 1 <==> p >= 0.5)
                                        && (kwargs["prediction"].i == 0 <==> p < 0.5)
    ensures kwargs["probability"].PyFloat? && -0.00005 <= kwargs["probability"].r - p <= 0.00005
  {
    map["user_id" := PyStr(f.UserId), "prediction" := PyInt(Label(p)), "probability" := PyFloat(Round4(p))]
  }

  /** What `/predict` answers: a response body, or an HTTP error carrying an `ErrorResponse`. */
  datatype PredictOutcome<P> = Ok(response: PredictionResponse<P>) | HttpError(statusCode: int, detail: ErrorResponse)

  const SuccessMessage := "Predictions generated successfully."
  const NoRecommendation := "No recommendation yet"
  const FailureMessage := "An error occurred during prediction."

  /** The error details: the traceback, reduced here to the names of the fields the record rejected. */
  function Traceback(rejected: seq<string>): (text: string)
    ensures |rejected| == 1 ==> text == rejected[0]
  {
    Join(rejected, ", ")
  }

  /** The error details name exactly the rejected fields, in order: splitting them at `, ` gives the names back. */
  lemma TracebackNamesRejected(rejected: seq<string>)
    requires |rejected| > 0 && forall k | 0 <= k < |rejected| :: ',' !in rejected[k]
    ensures SplitOn(Traceback(rejected), ", ") == rejected
  {
    SplitJoin(rejected, ", ");
  }

  /**
   * The `/predict` handler, for a prediction record constructed by `make`:
   * the request's records are scored in order and each becomes a record; the
   * first record that does not construct turns the whole call into a 500.
   */
  method Predict<P>(request: PredictionRequest, stream: nat -> real, make: map<string, PyValue> -> Result<P, seq<string>>)
    returns (r: PredictOutcome<P>)
    ensures r.Ok? <==> forall k | 0 <= k < |request.features| ::
                         make(PredictionKwargs(request.features[k], stream(k))).Success?
    ensures r.Ok? ==> && r.response.status == "success"
                      && r.response.message == Some(SuccessMessage)
                      && r.response.recommendations == Some(NoRecommendation)
                      && |r.response.predictions| == |request.features|
                      && forall k | 0 <= k < |request.features| ::
                           r.response.predictions[k] == make(PredictionKwargs(request.features[k], stream(k))).value
    ensures r.HttpError? ==> && r.statusCode == 500
                             && r.detail.status == "error"
                             && r.detail.message == Some(FailureMessage)
                             && exists k | 0 <= k < |request.features| ::
                                  && make(PredictionKwargs(request.features[k], stream(k))).Failure?
                                  && r.detail.error_details
                                     == Some(Traceback(make(PredictionKwargs(request.features[k], stream(k))).error))
                                  && forall j | 0 <= j < k :: make(PredictionKwargs(request.features[j], stream(j))).Success?
  {
    var df := ConvertFeaturesToDataframe(request.features);
    var probabilities := PerformPrediction(df, stream);
    var predictions: seq<P> := [];
    var i := 0;
    while i < |request.features|
      invariant 0 <= i <= |request.features|
      invariant |predictions| == i
      invariant forall k | 0 <= k < i ::
                  && make(PredictionKwargs(request.features[k], stream(k))).Success?
                  && predictions[k] == make(PredictionKwargs(request.features[k], stream(k))).value
    {
      var made := make(PredictionKwargs(request.features[i], probabilities[i]));
      if made.Failure? {
        return HttpError(500, ErrorResponse("error", Some(FailureMessage), Some(Traceback(made.error))));
      }
      predictions := predictions + [made.value];
      i := i + 1;
    }
    return Ok(PredictionResponse("success", Some(SuccessMessage), predictions, Some(NoRecommendation)));
  }

  /** The declared `UserPrediction` refuses every record the handler builds: its label is an `int`, not a `str`. */
  lemma DeclaredRejectsEveryRecord(f: UserFeatures, p: real)
    ensures NewUserPrediction(PredictionKwargs(f, p)) == Failure(["prediction"])
  {
    var kwargs := PredictionKwargs(f, p);
    assert Get(kwargs, "user_id") == PyStr(f.UserId);
    assert Get(kwargs, "prediction") == PyInt(Label(p));
    assert [] + ["prediction"] == ["prediction"];
  }

  /** `/predict` as written, with `UserPrediction` declaring a text prediction: only an empty batch succeeds. */
  method PredictDeclared(request: PredictionRequest, stream: nat -> real) returns (r: PredictOutcome<UserPrediction>)
    ensures r.Ok? <==> request.features == []
    ensures r.Ok? ==> r.response == PredictionResponse("success", Some(SuccessMessage), [], Some(NoRecommendation))
    ensures r.HttpError? ==> r == HttpError(500, ErrorResponse("error", Some(FailureMessage), Some("prediction")))
  {
    forall k | 0 <= k < |request.features|
      ensures NewUserPrediction(PredictionKwargs(request.features[k], stream(k))) == Failure(["prediction"])
    {
      DeclaredRejectsEveryRecord(request.features[k], stream(k));
    }
    r := Predict(request, stream, NewUserPrediction);
    if request.features != [] {
      assert !NewUserPrediction(PredictionKwargs(request.features[0], stream(0))).Success?;
    }
  }

  /** The intended record accepts what the handler builds, keeping the label and the rounded score. */
  lemma ScoredAcceptsEveryRecord(f: UserFeatures, p: real)
    ensures NewScoredPrediction(PredictionKwargs(f, p)) == Success(ScoredPrediction(f.UserId, Label(p), Round4(p)))
  {
    var kwargs := PredictionKwargs(f, p);
    assert Get(kwargs, "user_id") == PyStr(f.UserId);
    assert Get(kwargs, "prediction") == PyInt(Label(p));
    assert Get(kwargs, "probability") == PyFloat(Round4(p));
  }

  /**
   * `/predict` with the prediction record carrying an integer label and a
   * probability: every batch succeeds, with one prediction per input record,
   * in order, labelled 1 exactly when its score reaches 0.5.
   */
  method PredictIntended(request: PredictionRequest, stream: nat -> real) returns (r: PredictOutcome<ScoredPrediction>)
    ensures r.Ok?
    ensures r.response.status == "success" && r.response.message == Some(SuccessMessage)
    ensures r.response.recommendations == Some(NoRecommendation)
    ensures |r.response.predictions| == |request.features|
    ensures forall k | 0 <= k < |request.features| ::
              r.response.predictions[k] == ScoredPrediction(request.features[k].UserId, Label(stream(k)), Round4(stream(k)))
    ensures forall k | 0 <= k < |request.features| && 0.0 <= stream(k) <= 1.0 ::
              0.0 <= r.response.predictions[k].probability <= 1.0
  {
    forall k | 0 <= k < |request.features|
      ensures NewScoredPrediction(PredictionKwargs(request.features[k], stream(k)))
              == Success(ScoredPrediction(request.features[k].UserId, Label(stream(k)), Round4(stream(k))))
    {
      ScoredAcceptsEveryRecord(request.features[k], stream(k));
    }
    r := Predict(request, stream, NewScoredPrediction);
  }
}
