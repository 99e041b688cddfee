/** The `/api/analyze-text` handler: validates the request, asks the model
    about a meal description, and answers with its JSON or a fixed failure payload. */
module AnalyzeTextApi {
  import opened Wrappers
  import opened Browser
  import opened Http

  const TextFailure := FoodAnalysis("분석 실패", 0, "텍스트를 분석할 수 없습니다. 다시 시도해주세요.")

  /** `handler`: `generate` is the model's answer for the text it is
      given, `parse` is `JSON.parse` (`None` when it throws). A missing body
      makes the destructuring throw, which the `catch` turns into a 500. */
  function Handler(req: Request, generate: string -> Generation, parse: string -> Option<FoodAnalysis>): (res: Response)
    ensures req.httpMethod != "POST" ==> res == MethodNotAllowed
    ensures req.httpMethod == "POST" && req.body.Some? && !Truthy(Field(req.body.value, "text")) ==>
      res == Response(400, ErrorMessage("Text is required"))
    ensures res.status == 200 <==>
      req.httpMethod == "POST" && req.body.Some? && Truthy(Field(req.body.value, "text"))
      && HasText(generate(req.body.value["text"]))
      && parse(generate(req.body.value["text"]).text.value).Some?
    ensures res.status == 200 ==>
      res.body == Analysis(parse(generate(req.body.value["text"]).text.value).value)
    ensures res.status == 500 ==> res.body == Analysis(TextFailure)
    ensures res.status == 405 <==> req.httpMethod != "POST"
    ensures res.status == 400 <==> req.httpMethod == "POST" && req.body.Some? && !Truthy(Field(req.body.value, "text"))
    ensures res.status == 500 <==>
      req.httpMethod == "POST"
      && (req.body.None?
          || (Truthy(Field(req.body.value, "text"))
              && (!HasText(generate(req.body.value["text"]))
                  || parse(generate(req.body.value["text"]).text.value).None?)))
    ensures res.status in {200, 400, 405, 500}
  {
    if req.httpMethod != "POST" then MethodNotAllowed
    else if req.body.None? then Response(500, Analysis(TextFailure))
    else
      var text := Field(req.body.value, "text");
      if !Truthy(text) then Response(400, ErrorMessage("Text is required"))
      else
        var generation := generate(text.value);
        if !HasText(generation) then Response(500, Analysis(TextFailure))
        else
          match parse(generation.text.value)
          case None => Response(500, Analysis(TextFailure))
          case Some(result) => Response(200, Analysis(result))
  }

  /** The model is asked only about a valid request: a rejected request gets
      the same answer whatever the model and the parser would do. */
  lemma ValidatedBeforeGeneration(req: Request, g1: string -> Generation, g2: string -> Generation,
                                  p1: string -> Option<FoodAnalysis>, p2: string -> Option<FoodAnalysis>)
    requires Handler(req, g1, p1).status in {400, 405}
    ensures Handler(req, g2, p2) == Handler(req, g1, p1)
  {
  }
}
