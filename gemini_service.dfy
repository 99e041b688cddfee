/** The client side of meal analysis: each call posts one field to its
    handler and turns every failure into a fixed answer, so it never throws.
    `fetch` is an input: what the request for a given payload yields. */
module GeminiService {
  import opened Wrappers
  import opened Strings
  import opened Browser
  import opened Http
  import AnalyzeImageApi
  import AnalyzeTextApi
  import EstimateCaloriesApi

  const ImageFailure := FoodAnalysis("분석 실패", 0, "이미지를 분석할 수 없습니다. 다시 시도해주세요.")
  const TextFailure := FoodAnalysis("분석 실패", 0, "텍스트를 분석할 수 없습니다. 다시 시도해주세요.")

  /** `base64Image.split(',')[1] || base64Image`. */
  function StripHeader(s: string): (r: string)
    ensures IndexOf(s, ",").None? ==> r == s
    ensures r == "" ==> s == ""
  {
    var parts := Split(s, ",");
    if |parts| >= 2 && parts[1] != "" then parts[1] else s
  }

  /** A data URL loses its header; a bare payload is sent as it is. */
  lemma StripHeaderSpec(mime: string, payload: string)
    requires forall i :: 0 <= i < |mime| ==> mime[i] != ','
    requires forall i :: 0 <= i < |payload| ==> payload[i] != ','
    ensures payload != "" ==> StripHeader(DataUrl(mime, payload)) == payload
    ensures StripHeader(payload) == payload
  {
    var header := "data:" + mime + ";base64";
    assert DataUrl(mime, payload) == header + "," + payload;
    SplitAround(header, ",", payload);
    IndexOfAbsent(payload, ",");
  }

  /** The request went through, the status was 2xx and the body was read. */
  predicate Delivered<T>(r: FetchOutcome<T>) {
    r.Received? && r.ok && r.json.Some?
  }

  /** The body of a successful response, or the fallback when anything failed. */
  function Outcome<T>(r: FetchOutcome<T>, fallback: T): T {
    if Delivered(r) then r.json.value else fallback
  }

  /** `analyzeFoodImage`. */
  function AnalyzeFoodImage(base64Image: string, fetch: string -> FetchOutcome<FoodAnalysis>): (r: FoodAnalysis)
    ensures Delivered(fetch(StripHeader(base64Image))) ==> r == fetch(StripHeader(base64Image)).json.value
    ensures !Delivered(fetch(StripHeader(base64Image))) ==> r == ImageFailure
  {
    Outcome(fetch(StripHeader(base64Image)), ImageFailure)
  }

  /** `analyzeFoodText`. */
  function AnalyzeFoodText(text: string, fetch: string -> FetchOutcome<FoodAnalysis>): (r: FoodAnalysis)
    ensures Delivered(fetch(text)) ==> r == fetch(text).json.value
    ensures !Delivered(fetch(text)) ==> r == TextFailure
  {
    Outcome(fetch(text), TextFailure)
  }

  /** `estimateCalories`: `result.calories || 0`, and 0 on any failure. */
  function EstimateCalories(foodName: string, fetch: string -> FetchOutcome<CaloriesJson>): (r: int)
    ensures Delivered(fetch(foodName)) ==> r == OrZero(fetch(foodName).json.value.calories)
    ensures !Delivered(fetch(foodName)) ==> r == 0
  {
    match fetch(foodName)
    case NetworkError => 0
    case Received(ok, json) => if ok && json.Some? then OrZero(json.value.calories) else 0
  }

  /** How a handler's response reaches the client: `ok` from the status, and
      the body read as an analysis when it is one. */
  function DeliverAnalysis(res: Response): FetchOutcome<FoodAnalysis> {
    Received(Ok(res), if res.body.Analysis? then Some(res.body.result) else None)
  }

  function DeliverCalories(res: Response): FetchOutcome<CaloriesJson> {
    Received(Ok(res), if res.body.Calories? then Some(CaloriesJson(Some(res.body.calories))) else None)
  }

  /** Posting `{ imageData }` to the image handler. */
  function PostImage(generate: string -> Generation, parse: string -> Option<FoodAnalysis>): string -> FetchOutcome<FoodAnalysis> {
    (imageData: string) =>
      DeliverAnalysis(AnalyzeImageApi.Handler(Request("POST", Some(map["imageData" := imageData])), generate, parse))
  }

  function PostText(generate: string -> Generation, parse: string -> Option<FoodAnalysis>): string -> FetchOutcome<FoodAnalysis> {
    (text: string) =>
      DeliverAnalysis(AnalyzeTextApi.Handler(Request("POST", Some(map["text" := text])), generate, parse))
  }

  function PostFoodName(generate: string -> Generation, parse: string -> Option<CaloriesJson>): string -> FetchOutcome<CaloriesJson> {
    (foodName: string) =>
      DeliverCalories(EstimateCaloriesApi.Handler(Request("POST", Some(map["foodName" := foodName])), generate, parse))
  }

  /** Client and handler together: the client gets the model's parsed answer
      about the stripped payload, and the failure answer in every other case
      (an empty payload, no text from the model, unparsable text). */
  lemma ImageAnalysisEndToEnd(base64Image: string, generate: string -> Generation, parse: string -> Option<FoodAnalysis>)
    ensures var data := StripHeader(base64Image);
      AnalyzeFoodImage(base64Image, PostImage(generate, parse)) ==
        if data != "" && HasText(generate(data)) && parse(generate(data).text.value).Some?
        then parse(generate(data).text.value).value
        else ImageFailure
  {
    var data := StripHeader(base64Image);
    var req := Request("POST", Some(map["imageData" := data]));
    assert Field(req.body.value, "imageData") == Some(data);
    var res := AnalyzeImageApi.Handler(req, generate, parse);
    assert PostImage(generate, parse)(data) == DeliverAnalysis(res);
  }

  lemma TextAnalysisEndToEnd(text: string, generate: string -> Generation, parse: string -> Option<FoodAnalysis>)
    ensures AnalyzeFoodText(text, PostText(generate, parse)) ==
      if text != "" && HasText(generate(text)) && parse(generate(text).text.value).Some?
      then parse(generate(text).text.value).value
      else TextFailure
  {
    var req := Request("POST", Some(map["text" := text]));
    assert Field(req.body.value, "text") == Some(text);
    var res := AnalyzeTextApi.Handler(req, generate, parse);
    assert PostText(generate, parse)(text) == DeliverAnalysis(res);
  }

  /** The estimate is the model's number when the whole chain succeeds and
      the number is present, and 0 in every other case. */
  lemma EstimateEndToEnd(foodName: string, generate: string -> Generation, parse: string -> Option<CaloriesJson>)
    ensures EstimateCalories(foodName, PostFoodName(generate, parse)) ==
      if foodName != "" && HasText(generate(foodName)) && parse(generate(foodName).text.value).Some?
      then OrZero(parse(generate(foodName).text.value).value.calories)
      else 0
  {
    var req := Request("POST", Some(map["foodName" := foodName]));
    assert Field(req.body.value, "foodName") == Some(foodName);
    var res := EstimateCaloriesApi.Handler(req, generate, parse);
    assert PostFoodName(generate, parse)(foodName) == DeliverCalories(res);
  }
}
