/** The JSON-over-HTTP surface shared by the serverless handlers and the
    client that calls them. Request and response bodies are reduced to the
    fields the code reads; the Gemini model and `JSON.parse` are inputs. */
module Http {
  import opened Wrappers

  /** `FoodAnalysisResult`. Calories are whole numbers here. */
  datatype FoodAnalysis = FoodAnalysis(foodName: string, calories: int, analysis: string)

  /** A parsed `{ calories }` object whose `calories` may be missing. */
  datatype CaloriesJson = CaloriesJson(calories: Option<int>)

  /** The bodies the handlers send. */
  datatype Body =
    | ErrorMessage(error: string)
    | Analysis(result: FoodAnalysis)
    | Calories(calories: int)

  datatype Response = Response(status: nat, body: Body)

  /** A request: its method and its JSON body, an object of string fields, or
      `None` when there is no body (`req.body` is `undefined`). */
  datatype Request = Request(httpMethod: string, body: Option<map<string, string>>)

  /** What `generateContent` does with a prompt: throw, or answer with a
      `text` that may be missing. */
  datatype Generation = GenerationThrows | Generated(text: Option<string>)

  /** What `fetch` yields to the client: a network error, or a response with
      its `ok` flag and its body read as `T` (`None` when reading it throws). */
  datatype FetchOutcome<T> = NetworkError | Received(ok: bool, json: Option<T>)

  const MethodNotAllowed := Response(405, ErrorMessage("Method not allowed"))

  /** `response.ok`. */
  predicate Ok(res: Response) {
    200 <= res.status <= 299
  }

  /** `const { name } = req.body`, when the body exists. */
  function Field(body: map<string, string>, name: string): Option<string> {
    if name in body then Some(body[name]) else None
  }

  /** `n || 0` on a number that may be missing: 0 for a missing value and for 0. */
  function OrZero(n: Option<int>): int {
    if n.Some? then n.value else 0
  }

  /** The text of a generation that yields one: present and non-empty. */
  predicate HasText(g: Generation) {
    g.Generated? && g.text.Some? && g.text.value != ""
  }
}
