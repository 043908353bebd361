/**
 * The legacy page and the handler together: the body `JSON.stringify` makes of a
 * `RequestBody`, and what `categorize` does with it.
 */
module LegacyRequest {
  import opened Wrappers
  import opened JsText
  import opened UploadRules
  import opened JsonValue
  import opened Categorize
  import opened LegacyScript

  /** `JSON.stringify({pdf, categories, authCode})`, read back by `JSON.parse`: an undefined `pdf` is left out. */
  function ToJson(b: RequestBody): (j: Json)
    ensures j.JObject? && "categories" in j.fields && "authCode" in j.fields
    ensures Field(j, "pdf") == (if b.pdf.Some? then Some(JString(b.pdf.value)) else None)
    ensures Field(j, "categories") == Some(JArray(Strings(b.categories)))
    ensures Field(j, "authCode") == Some(JString(b.authCode))
  {
    var common := map["categories" := JArray(Strings(b.categories)), "authCode" := JString(b.authCode)];
    match b.pdf
    case Some(data) => JObject(common["pdf" := JString(data)])
    case None => JObject(common)
  }

  /**
   * A body the legacy page sends is refused with 400 exactly when the data URL gave no
   * payload: its category list always has at least one entry, so only `pdf` can fail the check.
   */
  lemma RefusedOnlyForMissingPayload(b: RequestBody, apiKey: Option<string>, generate: Model)
    requires |b.categories| >= 1
    ensures HandleBody(ToJson(b), apiKey, generate).statusCode == 400 <==> b.pdf.None? || b.pdf.value == ""
  {
    var j := ToJson(b);
    assert Field(j, "categories") == Some(JArray(Strings(b.categories)));
    assert |Strings(b.categories)| == |b.categories|;
  }

  /** A line the page keeps holds no comma, so it cannot split a category in the prompt. */
  lemma KeptLineHasNoComma(s: string)
    requires AllKept(s)
    ensures ',' !in s
  {
  }

  /**
   * The prompt built for a request from the legacy page names exactly the sanitised lines of
   * the textarea, in order, blank lines included (the page filters only for its guards).
   */
  lemma PromptListsEveryLine(text: string, pdf: Option<string>, authCode: string)
    ensures var b := RequestBody(pdf, SanitizedLines(text), authCode);
      && ElementStrings(CategoryItems(ToJson(b))) == Success(SanitizedLines(text))
      && PromptCategories(Prompt(SanitizedLines(text))) == Some(SanitizedLines(text))
  {
    var lines := SanitizedLines(text);
    var b := RequestBody(pdf, lines, authCode);
    assert CategoryItems(ToJson(b)) == Strings(lines);
    ElementStringsOfStrings(lines);
    forall i | 0 <= i < |lines|
      ensures ',' !in lines[i]
    {
      KeptLineHasNoComma(lines[i]);
    }
    PromptRoundTrip(lines);
  }

  /**
   * A read the click started ends in a request whose handler answer is decided by the data
   * URL, the key and the model alone: with a payload and a key, the model is asked with the
   * prompt naming the lines captured at the click, and its answer is returned.
   */
  lemma ClickToPrompt(read: PendingRead, dataUrl: string, authCode: string, text: string,
                      apiKey: Option<string>, generate: Model)
    requires read.categories == SanitizedLines(text)
    requires DataUrlPayload(dataUrl).Some? && DataUrlPayload(dataUrl).value != "" && KeySet(apiKey)
    ensures var b := RequestBody(DataUrlPayload(dataUrl), read.categories, authCode);
      var answer := generate(Prompt(SanitizedLines(text)), JString(DataUrlPayload(dataUrl).value));
      && PromptCategories(Prompt(SanitizedLines(text))) == Some(SanitizedLines(text))
      && HandleBody(ToJson(b), apiKey, generate) ==
         (if answer.Success? then Response(200, CategoryBody(Trim(answer.value)))
          else Response(500, ErrorBody(answer.error)))
  {
    var b := RequestBody(DataUrlPayload(dataUrl), read.categories, authCode);
    PromptListsEveryLine(text, DataUrlPayload(dataUrl), authCode);
    RefusedOnlyForMissingPayload(b, apiKey, generate);
    assert PdfData(ToJson(b)) == JString(DataUrlPayload(dataUrl).value);
  }
}
