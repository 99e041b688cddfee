/** The `/api/estimate-calories` handler: asks the model for the calories of
    one serving of a named food; a missing number counts as 0. */
module EstimateCaloriesApi {
  import opened Wrappers
  import opened Browser
  import opened Http

  /** `handler`: `generate` is the model's answer for the food name it is
      given, `parse` is `JSON.parse` (`None` when it throws). */
  function Handler(req: Request, generate: string -> Generation, parse: string -> Option<CaloriesJson>): (res: Response)
    ensures req.httpMethod != "POST" ==> res == MethodNotAllowed
    ensures req.httpMethod == "POST" && req.body.Some? && !Truthy(Field(req.body.value, "foodName")) ==>
      res == Response(400, ErrorMessage("Food name is required"))
    ensures res.status == 200 <==>
      req.httpMethod == "POST" && req.body.Some? && Truthy(Field(req.body.value, "foodName"))
      && HasText(generate(req.body.value["foodName"]))
      && parse(generate(req.body.value["foodName"]).text.value).Some?
    ensures res.status == 200 ==>
      res.body == Calories(OrZero(parse(generate(req.body.value["foodName"]).text.value).value.calories))
    ensures res.status == 500 ==> res.body == Calories(0)
    ensures res.status == 405 <==> req.httpMethod != "POST"
    ensures res.status == 400 <==> req.httpMethod == "POST" && req.body.Some? && !Truthy(Field(req.body.value, "foodName"))
    ensures res.status == 500 <==>
      req.httpMethod == "POST"
      && (req.body.None?
          || (Truthy(Field(req.body.value, "foodName"))
              && (!HasText(generate(req.body.value["foodName"]))
                  || parse(generate(req.body.value["foodName"]).text.value).None?)))
    ensures res.status in {200, 400, 405, 500}
  {
    if req.httpMethod != "POST" then MethodNotAllowed
    else if req.body.None? then Response(500, Calories(0))
    else
      var foodName := Field(req.body.value, "foodName");
      if !Truthy(foodName) then Response(400, ErrorMessage("Food name is required"))
      else
        var generation := generate(foodName.value);
        if !HasText(generation) then Response(500, Calories(0))
        else
          match parse(generation.text.value)
          case None => Response(500, Calories(0))
          case Some(result) => Response(200, Calories(OrZero(result.calories)))
  }

  /** Every answer to a valid request carries a number: the model's when it
      gave one, and 0 otherwise. */
  lemma AlwaysANumber(req: Request, generate: string -> Generation, parse: string -> Option<CaloriesJson>)
    requires req.httpMethod == "POST" && req.body.Some? && Truthy(Field(req.body.value, "foodName"))
    ensures Handler(req, generate, parse).body.Calories?
    ensures Handler(req, generate, parse).status != 200 ==> Handler(req, generate, parse).body.calories == 0
  {
  }

  /** The model is asked only about a valid request. */
  lemma ValidatedBeforeGeneration(req: Request, g1: string -> Generation, g2: string -> Generation,
                                  p1: string -> Option<CaloriesJson>, p2: string -> Option<CaloriesJson>)
    requires Handler(req, g1, p1).status in {400, 405}
    ensures Handler(req, g2, p2) == Handler(req, g1, p1)
  {
  }
}
