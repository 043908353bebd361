/**
 * The serverless `categorize` handler: a straight-line decision on the HTTP method, the
 * shape of the JSON body and the presence of the API key, then one call of the generative
 * model whose trimmed answer is returned. `JSON.parse` and the model call are passed in as
 * functions (each yields a value or the message of the exception it throws), and so is the
 * `GOOGLE_API_KEY` environment variable read when the module loads.
 */
module Categorize {
  import opened Wrappers
  import opened JsText
  import opened JsonValue

  datatype Event = Event(httpMethod: string, body: string)

  /** The three kinds of body the handler sends: plain text, `{error}` and `{category}`. */
  datatype ResponseBody = PlainText(text: string) | ErrorBody(error: string) | CategoryBody(category: string)

  datatype Response = Response(statusCode: int, body: ResponseBody)

  /** `JSON.parse`: the parsed value, or the message of the SyntaxError it throws. */
  type Parser = string -> Result<Json, string>

  /** `model.generateContent(...)` then `response.text()`: the text, or the message of what was thrown. */
  type Model = (string, Json) -> Result<string, string>

  const MethodNotAllowed := Response(405, PlainText("Method Not Allowed"))
  const InvalidInput := Response(400, ErrorBody("Invalid input."))
  const KeyMissing := Response(500, ErrorBody("API Key not set."))

  const PromptPrefix := "Given the content of a PDF document, categorize it into one of the following categories: "
  const PromptSuffix := ". Please respond with only the category name."

  /** `!API_KEY` is false for an unset variable and for an empty one. */
  predicate KeySet(apiKey: Option<string>)
  {
    apiKey.Some? && apiKey.value != ""
  }

  /**
   * The input check: `pdf` truthy, and `categories` truthy, an array and non-empty. The
   * entries of the array are not looked at, so empty strings pass.
   */
  predicate ValidShape(pdf: Option<Json>, categories: Option<Json>)
  {
    Truthy(pdf) && categories.Some? && categories.value.JArray? && |categories.value.items| > 0
  }

  /** `body.categories` as the list the prompt is built from (empty when it is not an array). */
  function CategoryItems(body: Json): seq<Json>
  {
    match Field(body, "categories")
    case Some(JArray(items)) => items
    case _ => []
  }

  /** `body.pdf` as it is handed to the model (`null` when absent). */
  function PdfData(body: Json): Json
  {
    match Field(body, "pdf")
    case Some(v) => v
    case None => JNull
  }

  /** The prompt: a fixed lead-in, the categories' strings joined by `", "`, a fixed closing sentence. */
  function Prompt(names: seq<string>): (p: string)
    ensures |p| == |PromptPrefix| + |Join(names, ", ")| + |PromptSuffix|
    ensures p[..|PromptPrefix|] == PromptPrefix
    ensures p[|p| - |PromptSuffix|..] == PromptSuffix
    ensures p[|PromptPrefix|..|p| - |PromptSuffix|] == Join(names, ", ")
  {
    var middle := Join(names, ", ");
    var p := PromptPrefix + middle + PromptSuffix;
    assert p[|PromptPrefix|..|p| - |PromptSuffix|] == middle;
    p
  }

  /** The category list read back out of a prompt, or None if it does not have the prompt's frame. */
  function PromptCategories(p: string): (r: Option<seq<string>>)
    ensures r.Some? ==> |r.value| >= 1
  {
    if |p| >= |PromptPrefix| + |PromptSuffix|
       && p[..|PromptPrefix|] == PromptPrefix && p[|p| - |PromptSuffix|..] == PromptSuffix
    then Some(SplitCommaSpace(p[|PromptPrefix|..|p| - |PromptSuffix|]))
    else None
  }

  /**
   * The prompt names every category, in the order given: reading it back yields the list,
   * when the categories are strings without commas.
   */
  lemma PromptRoundTrip(xs: seq<string>)
    requires |xs| >= 1
    requires forall i :: 0 <= i < |xs| ==> ',' !in xs[i]
    ensures PromptCategories(Prompt(xs)) == Some(xs)
  {
    JoinCommaSpaceRoundTrip(xs);
  }

  /**
   * The body passes the checks before the prompt is built: it is not `null`, its shape is
   * valid and the key is set.
   */
  predicate Admitted(body: Json, apiKey: Option<string>)
  {
    !body.JNull? && ValidShape(Field(body, "pdf"), Field(body, "categories")) && KeySet(apiKey)
  }

  /**
   * The handler after `JSON.parse` succeeded. Every exception, from reading `body.pdf`,
   * from `join` converting a category, or from the model, is answered with 500 and its message.
   */
  function HandleBody(body: Json, apiKey: Option<string>, generate: Model): (r: Response)
    ensures body.JNull? ==> r == Response(500, ErrorBody(NullReadMessage("pdf")))
    ensures r.statusCode == 400 <==>
      !body.JNull? && !ValidShape(Field(body, "pdf"), Field(body, "categories"))
    ensures r.statusCode == 400 ==> r == InvalidInput
    ensures !body.JNull? && ValidShape(Field(body, "pdf"), Field(body, "categories")) && !KeySet(apiKey) ==>
      r == KeyMissing
    ensures Admitted(body, apiKey) && !Joinable(CategoryItems(body)) ==>
      r == Response(500, ErrorBody(ConvertMessage))
    ensures r.statusCode == 200 <==>
      && Admitted(body, apiKey) && Joinable(CategoryItems(body))
      && generate(Prompt(ElementStrings(CategoryItems(body)).value), PdfData(body)).Success?
    ensures r.statusCode == 200 ==>
      r.body == CategoryBody(Trim(generate(Prompt(ElementStrings(CategoryItems(body)).value), PdfData(body)).value))
    ensures Admitted(body, apiKey) && Joinable(CategoryItems(body))
            && generate(Prompt(ElementStrings(CategoryItems(body)).value), PdfData(body)).Failure? ==>
      r == Response(500, ErrorBody(generate(Prompt(ElementStrings(CategoryItems(body)).value), PdfData(body)).error))
    ensures r.statusCode in {200, 400, 500}
  {
    match ReadProperty(body, "pdf")
    case Failure(message) => Response(500, ErrorBody(message))
    case Success(pdf) =>
      var categories := Field(body, "categories");
      if !ValidShape(pdf, categories) then InvalidInput
      else if !KeySet(apiKey) then KeyMissing
      else
        assert categories.value.items == CategoryItems(body) && pdf.value == PdfData(body);
        match ElementStrings(CategoryItems(body))
        case Failure(message) => Response(500, ErrorBody(message))
        case Success(names) =>
          match generate(Prompt(names), PdfData(body))
          case Failure(message) => Response(500, ErrorBody(message))
          case Success(text) => Response(200, CategoryBody(Trim(text)))
  }

  /** `exports.handler`. */
  function Handle(event: Event, apiKey: Option<string>, parse: Parser, generate: Model): (r: Response)
    ensures event.httpMethod != "POST" ==> r == MethodNotAllowed
    ensures r.statusCode == 405 <==> event.httpMethod != "POST"
    ensures event.httpMethod == "POST" && parse(event.body).Failure? ==>
      r == Response(500, ErrorBody(parse(event.body).error))
    ensures r.statusCode == 200 ==> KeySet(apiKey) && r.body.CategoryBody? && Trimmed(r.body.category)
  {
    if event.httpMethod != "POST" then MethodNotAllowed
    else
      match parse(event.body)
      case Failure(message) => Response(500, ErrorBody(message))
      case Success(body) => HandleBody(body, apiKey, generate)
  }

  /** Only `pdf` and `categories` are read: two bodies that agree on them get the same answer. */
  lemma OnlyPdfAndCategoriesMatter(b1: Json, b2: Json, apiKey: Option<string>, generate: Model)
    requires !b1.JNull? && !b2.JNull?
    requires Field(b1, "pdf") == Field(b2, "pdf") && Field(b1, "categories") == Field(b2, "categories")
    ensures HandleBody(b1, apiKey, generate) == HandleBody(b2, apiKey, generate)
  {
  }

  /** In particular `authCode` is never consulted: whatever it holds, or whether it is there, changes nothing. */
  lemma AuthCodeIgnored(fields: map<string, Json>, code: Json, apiKey: Option<string>, generate: Model)
    ensures HandleBody(JObject(fields["authCode" := code]), apiKey, generate)
         == HandleBody(JObject(fields - {"authCode"}), apiKey, generate)
  {
    OnlyPdfAndCategoriesMatter(JObject(fields["authCode" := code]), JObject(fields - {"authCode"}), apiKey, generate);
  }

  /** The method is checked before the body is parsed and the model is asked: neither matters to a GET. */
  lemma MethodCheckedFirst(event: Event, apiKey: Option<string>, p1: Parser, p2: Parser, g1: Model, g2: Model)
    requires event.httpMethod != "POST"
    ensures Handle(event, apiKey, p1, g1) == Handle(event, apiKey, p2, g2) == MethodNotAllowed
  {
  }

  /** Without a key the model is never asked: its behaviour cannot change the answer. */
  lemma KeyCheckedBeforeModel(event: Event, apiKey: Option<string>, parse: Parser, g1: Model, g2: Model)
    requires !KeySet(apiKey)
    ensures Handle(event, apiKey, parse, g1) == Handle(event, apiKey, parse, g2)
  {
  }

  /** An array holding only an empty string passes the input check and reaches the model. */
  lemma EmptyCategoryAccepted(pdf: string, apiKey: Option<string>, generate: Model)
    requires pdf != "" && KeySet(apiKey)
    ensures var body := JObject(map["pdf" := JString(pdf), "categories" := JArray([JString("")])]);
      HandleBody(body, apiKey, generate).statusCode != 400
      && (generate(Prompt([""]), JString(pdf)).Success? ==> HandleBody(body, apiKey, generate).statusCode == 200)
  {
    ElementStringsOfStrings([""]);
    assert Strings([""]) == [JString("")];
  }

  /**
   * A category that is an object with its own `toString` key makes the prompt's `join`
   * throw: with a key set, the answer is 500 with the conversion error, whatever the model would say.
   */
  lemma ToStringCategoryFails(pdf: string, apiKey: Option<string>, generate: Model)
    requires pdf != "" && KeySet(apiKey)
    ensures var body := JObject(map["pdf" := JString(pdf), "categories" := JArray([JObject(map["toString" := JNumber("1")])])]);
      HandleBody(body, apiKey, generate) == Response(500, ErrorBody(ConvertMessage))
  {
    var bad := JObject(map["toString" := JNumber("1")]);
    assert !Convertible([bad][0]);
  }
}
