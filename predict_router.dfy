/** The prediction endpoint (backend/routers/predict.py): guards on the loaded
    model and the content type, runs the classifier and returns its FEN unchanged
    together with a Lichess editor link. */
module PredictRouter {
  import opened Common
  import opened Text
  import opened Lichess
  import Predictor

  const NotReadyDetail: string := "AI Model is not ready yet."
  const BadTypeDetail: string := "Invalid file type. Only JPEG/PNG allowed."
  const FailurePrefix: string := "Prediction failed: "

  predicate AllowedType(contentType: string)
  {
    contentType == "image/jpeg" || contentType == "image/png"
  }

  datatype Prediction = Prediction(fen: string, lichessUrl: string)

  /** `predict_fen`. `modelReady` is whether the classifier is in the application
      state; `inference` is the outcome of saving the upload and running the model,
      with the text of the exception on failure. */
  function PredictFen(modelReady: bool, contentType: string, inference: Result<string, string>)
    : (r: Result<Prediction, HttpError>)
    ensures !modelReady ==> r == Err(Fail(503, NotReadyDetail))
    ensures modelReady && !AllowedType(contentType) ==> r == Err(Fail(400, BadTypeDetail))
    ensures r.Ok? <==> modelReady && AllowedType(contentType) && inference.Ok?
    ensures r.Ok? ==> r.value.fen == inference.value && r.value.lichessUrl == EditorUrl(inference.value)
    ensures modelReady && AllowedType(contentType) && inference.Err? ==>
      r == Err(Fail(500, FailurePrefix + inference.error))
    ensures r.Err? && r.error.status == 500 ==>
      inference.Err? && r.error.detail == FailurePrefix + inference.error
  {
    if !modelReady then Err(Fail(503, NotReadyDetail))
    else if !AllowedType(contentType) then Err(Fail(400, BadTypeDetail))
    else match inference
      case Err(e) => Err(Fail(500, FailurePrefix + e))
      case Ok(fen) => Ok(Prediction(fen, EditorUrl(fen)))
  }

  /** The model is checked first: without it the answer is 503 whatever was uploaded. */
  lemma ModelCheckedFirst(contentType: string, other: string, inference: Result<string, string>)
    ensures PredictFen(false, contentType, inference) == PredictFen(false, other, inference)
  {
  }

  /** For the classifier's own output, the link is the placement with the fixed
      tail's spaces as underscores. */
  lemma PredictedLink(predictions: seq<int>, contentType: string)
    requires |predictions| == 64 && AllowedType(contentType)
    ensures var fen := Predictor.Placement(predictions) + Predictor.DefaultTail;
      PredictFen(true, contentType, Ok(fen)) ==
        Ok(Prediction(fen, EditorPrefix + Predictor.Placement(predictions) + "_w_KQkq_-_0_1"))
  {
    var placement := Predictor.Placement(predictions);
    Predictor.PlacementShape(predictions);
    TailLink(placement);
  }

  /** A space-free placement followed by the default tail links to the placement
      and the tail with its spaces as underscores. */
  lemma TailLink(placement: string)
    requires ' ' !in placement
    ensures EditorUrl(placement + Predictor.DefaultTail) == EditorPrefix + placement + "_w_KQkq_-_0_1"
  {
    ReplaceAllAppend(placement, Predictor.DefaultTail, ' ', '_');
    ReplaceAllAbsent(placement, ' ', '_');
    TailUnderscored();
  }

  /** The default tail with its spaces as underscores. */
  lemma TailUnderscored()
    ensures ReplaceAll(Predictor.DefaultTail, ' ', '_') == "_w_KQkq_-_0_1"
  {
  }
}
