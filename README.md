# Document categorizer: upload and request validation

This project models, in Dafny, the validation pipeline of a small document-categorisation
web app. A user picks a PDF, types up to ten categories (one per line) and an authorization
code. The page checks the file and the categories and sends them to a serverless function.
That function asks a language model which category fits the document.

The pipeline exists in three places, and each has its own module:

- `ReactUploader` (`document_uploader.dfy`) covers the React component `DocumentUploader`.
  The component state is modelled as the fields of a class. The file check keeps a PDF of at
  most 512 KiB. The submit handler's guards run in a fixed order, and only then are the
  file's payload and the *filtered* category list handed to `onSubmit`.
- `LegacyScript` (`legacy_script.dfy`) covers the older plain-JavaScript page (`script.js`).
  Its handlers update a module variable and DOM properties, which are the fields of the
  class `UploadForm`. It keeps PDFs of at most 1 MiB. Its request body carries the
  *unfiltered* list, blank lines included. Its submit button is loading and disabled while
  a request is in flight.
- `Categorize` (`categorize.dfy`) covers the Netlify function `categorize`:
  - any method but POST is refused with 405;
  - a body without a truthy `pdf` and a non-empty `categories` array is refused with 400;
  - a missing API key gives 500;
  - otherwise the prompt is a fixed lead-in, then the categories joined by `", "`, then a
    fixed closing sentence; a category that JavaScript cannot convert to a string makes
    `join` throw, which gives 500;
  - the model's answer comes back trimmed as `{category}`.

  JSON parsing and the model call are function parameters.

The shared pieces are in their own modules:

- `JsText` holds JavaScript's `trim()` with the exact ECMAScript whitespace set,
  `split` on one character, `join`, and decimal numerals.
- `JsonValue` holds JSON values, property reads, truthiness and the string conversion `join` applies.
- `UploadRules` holds the file check, the per-line sanitiser, the filters, the guards and
  the data-URL payload.
- `LegacyRequest` links the legacy page's request body to the handler.

## Model

| member | source | states |
|---|---|---|
| JsText.IsSpace | src/components/document/DocumentUploader.tsx:90 | the characters `trim()` removes and `\s` matches: the ECMAScript WhiteSpace and LineTerminator code points |
| JsText.TrimStart | src/components/document/DocumentUploader.tsx:90 | the result is a suffix of the input, everything removed is whitespace, and what is left is empty or starts with a non-space |
| JsText.TrimEnd | src/components/document/DocumentUploader.tsx:90 | the result is a prefix of the input, everything removed is whitespace, and what is left is empty or ends with a non-space |
| JsText.Trim | src/components/document/DocumentUploader.tsx:90 | `trim()` is no longer than its input and leaves no whitespace at either end |
| JsText.TrimIsPadded | src/components/document/DocumentUploader.tsx:90 | the input is the result with whitespace only added on both sides |
| JsText.TrimUnique | src/components/document/DocumentUploader.tsx:90 | if `r` has no whitespace at either end and the input is `r` with only whitespace around it, then `r` is `trim()`'s result: `trim()` is fully characterised |
| JsText.TrimFixesTrimmed | src/components/document/DocumentUploader.tsx:90 | a string without surrounding whitespace is its own trim |
| JsText.TrimIdempotent | src/components/document/DocumentUploader.tsx:90 | trimming twice is trimming once |
| JsText.Split | src/components/document/DocumentUploader.tsx:89 | `split(sep)` yields one more piece than there are separators, and no piece contains the separator |
| JsText.Join | netlify/functions/categorize.js:27 | `Array.prototype.join` on strings: the entries with the separator between neighbours; `JoinSplit` and `SplitJoin` make it the inverse of `split` |
| JsText.JoinSplit | src/components/document/DocumentUploader.tsx:89 | joining the pieces of `split(sep)` with `sep` gives the text back |
| JsText.SplitPrefix | src/components/document/DocumentUploader.tsx:89 | a separator-free head followed by the separator becomes the first piece |
| JsText.SplitJoin | src/components/document/DocumentUploader.tsx:89 | splitting a join of separator-free pieces gives the pieces back |
| JsText.JoinCommaSpace | netlify/functions/categorize.js:27 | a `", "` join is, after a leading space, a `","` join of the space-prefixed entries |
| JsText.JoinCommaSpaceRoundTrip | netlify/functions/categorize.js:27 | a `", "` join of comma-free entries can be read back into the same entries in the same order |
| JsText.DecimalString | script.js:115 | a number's decimal text is non-empty, all digits and has no leading zero |
| JsText.DecimalRoundTrip | script.js:115 | the decimal text of a status code reads back as that number |
| JsonValue.Field | netlify/functions/categorize.js:14-15 | a property read yields a value exactly when the body is an object that has the key |
| JsonValue.ReadProperty | netlify/functions/categorize.js:13-14 | reading `body.pdf` throws exactly when the parsed body is `null` |
| JsonValue.Truthy | netlify/functions/categorize.js:17 | `undefined`, `null`, `false`, `0` and `""` are falsy; every other parsed value, empty arrays and objects included, is truthy |
| JsonValue.ElementString | netlify/functions/categorize.js:27 | `join`'s conversion of one element fails exactly when an object reached through arrays has its own `toString` key, and then with the TypeError "Cannot convert object to primitive value" |
| JsonValue.ElementStrings | netlify/functions/categorize.js:27 | `join` converts the whole array exactly when every element can be converted, giving one string per element; otherwise it throws the conversion error |
| JsonValue.ElementStringsOfStrings | netlify/functions/categorize.js:27 | `join` writes an array of strings as those strings, without throwing |
| JsonValue.ToStringKeyThrows | netlify/functions/categorize.js:27 | an object with its own `toString` key, alone or inside a nested array, makes `join` throw; without that key it is written `[object Object]` |
| Categorize.KeySet | netlify/functions/categorize.js:20 | `!API_KEY` holds for an unset and for an empty variable |
| Categorize.ValidShape | netlify/functions/categorize.js:17 | the input check: a truthy `pdf`, and a `categories` that is an array with at least one entry, whatever the entries are |
| Categorize.Prompt | netlify/functions/categorize.js:27 | the prompt is the fixed lead-in, then the category strings joined by `", "`, then the fixed closing sentence |
| Categorize.PromptRoundTrip | netlify/functions/categorize.js:27 | the prompt names every comma-free category, in the given order, and nothing else |
| Categorize.HandleBody | netlify/functions/categorize.js:12-52 | a `null` body gives 500 with the TypeError message; 400 exactly when the shape check fails, with the body `{error: "Invalid input."}`; 500 "API Key not set." for a valid body without a key; 500 with the conversion error when `join` cannot convert a category; 200 exactly when the shape, the key, the conversion and the model all succeed, with the trimmed answer; a model failure gives 500 with its message; no other status |
| Categorize.Handle | netlify/functions/categorize.js:7-53 | 405 exactly for a non-POST method; a body that does not parse gives 500 with the parser's message; 200 only with a key set and a trimmed category |
| Categorize.OnlyPdfAndCategoriesMatter | netlify/functions/categorize.js:13-15 | two bodies that agree on `pdf` and `categories` get the same response |
| Categorize.AuthCodeIgnored | netlify/functions/categorize.js:13-15 | the response does not depend on `authCode` or on its presence |
| Categorize.MethodCheckedFirst | netlify/functions/categorize.js:8-10 | for a non-POST method the parser and the model do not matter: the answer is 405 |
| Categorize.KeyCheckedBeforeModel | netlify/functions/categorize.js:17-24 | without an API key the model's behaviour cannot change the response |
| Categorize.EmptyCategoryAccepted | netlify/functions/categorize.js:17-19 | an array holding only an empty string passes the input check |
| Categorize.ToStringCategoryFails | netlify/functions/categorize.js:27 | with a key set, a category that is an object with its own `toString` key gets 500 with the conversion error, whatever the model would answer |
| UploadRules.CheckFile | src/components/document/DocumentUploader.tsx:53-68 | a non-PDF is rejected whatever its size; a PDF is too large exactly when its size exceeds the limit; accepted exactly otherwise |
| UploadRules.CheckFileMonotone | src/components/document/DocumentUploader.tsx:62 | a larger limit accepts everything a smaller one does; a PDF one byte over the smaller limit is rejected by it and accepted by the larger |
| UploadRules.IsKept | src/components/document/DocumentUploader.tsx:90 | the characters `/[^a-zA-Z0-9\s]/g` does not match: ASCII letters, ASCII digits and whitespace |
| UploadRules.StripDisallowed | src/components/document/DocumentUploader.tsx:90 | the result holds only allowed characters and is no longer than the input |
| UploadRules.StripDisallowedOne | src/components/document/DocumentUploader.tsx:90 | a single character is kept exactly when it is allowed, and deleted otherwise |
| UploadRules.StripDisallowedAppend | src/components/document/DocumentUploader.tsx:90 | deleting from a concatenation is deleting from each part; with `StripDisallowedOne` this fixes the result, order and repetitions included |
| UploadRules.StripDisallowedMembers | src/components/document/DocumentUploader.tsx:90 | a character occurs in the result exactly when it occurs in the input and is allowed |
| UploadRules.StripDisallowedKeeps | src/components/document/DocumentUploader.tsx:90 | a string of allowed characters is left unchanged |
| UploadRules.SanitizeLine | src/components/document/DocumentUploader.tsx:90 | a sanitised line holds only ASCII letters, digits and whitespace and is no longer than the line |
| UploadRules.SanitizeTwice | src/components/document/DocumentUploader.tsx:90 | a second pass over a sanitised line only trims it |
| UploadRules.SanitizeUncoversSpace | src/components/document/DocumentUploader.tsx:90 | a disallowed character before a space leaves a leading space after one pass, which a second pass removes |
| UploadRules.SanitizeNotIdempotent | src/components/document/DocumentUploader.tsx:90 | `"! abc"` sanitises to `" abc"`, and sanitising again gives `"abc"` |
| UploadRules.SanitizedLines | script.js:75 | one sanitised entry per input line (newlines + 1), each made of allowed characters only |
| UploadRules.NonEmpty | script.js:77 | the filter keeps exactly the non-empty entries, and no more of them than there were |
| UploadRules.NonEmptyIsSubsequence | script.js:77 | the filtered list is an order-preserving subsequence of the unfiltered one |
| UploadRules.NonEmptyMultiset | script.js:77 | the filtered list is the unfiltered one with every empty entry taken out |
| UploadRules.NonEmptyKeeps | script.js:77 | a list without empty entries passes the filter unchanged |
| UploadRules.CategoryList | src/components/document/DocumentUploader.tsx:88-91 | every category is non-empty and made of allowed characters, and there are no more categories than lines |
| UploadRules.CategoryListOfLines | src/components/document/DocumentUploader.tsx:88-91 | the category list is the per-line sanitised list in order, minus exactly its empty entries |
| UploadRules.CategoryListOfOneLine | src/components/document/DocumentUploader.tsx:88-91 | a single line gives its sanitised form, or nothing when that is empty |
| UploadRules.CategoryListNotIdempotent | src/components/document/DocumentUploader.tsx:88-91 | `"! abc"` gives `[" abc"]`, and running the pipeline on that output gives `["abc"]` |
| UploadRules.LinesOfJoin | script.js:75 | for lines without newlines, the sent list has one entry per line, each the line sanitised, and a blank line is sent as an empty entry |
| UploadRules.SubmitGuards | src/components/document/DocumentUploader.tsx:77-101 | no file first, then empty code, then more than 10 categories, then none; the handler proceeds exactly when a file is set, the code is non-empty and there are 1 to 10 categories |
| UploadRules.GuardsPass | src/components/document/DocumentUploader.tsx:77-101 | a file, a non-empty code and 1 to 10 categories always get past the guards |
| UploadRules.FewLinesNeverTooMany | src/components/document/DocumentUploader.tsx:93-96 | fewer than ten newlines can never trip the "too many" guard |
| UploadRules.DataUrlPayload | src/components/document/DocumentUploader.tsx:111 | `split(',')[1]` is undefined exactly when there is no comma, and otherwise holds no comma and is shorter than the URL |
| UploadRules.DataUrlPayloadOf | src/components/document/DocumentUploader.tsx:111 | for `header,data` with one comma, the payload is `data` |
| ReactUploader.DocumentUploader.constructor | src/components/document/DocumentUploader.tsx:12-17 | the initial state: no file, empty fields, not loading |
| ReactUploader.DocumentUploader.SetCategories | src/components/document/DocumentUploader.tsx:167 | the textarea's text becomes the state |
| ReactUploader.DocumentUploader.SetAuthCode | src/components/document/DocumentUploader.tsx:190 | the code field's text becomes the state |
| ReactUploader.DocumentUploader.HandleFileValidation | src/components/document/DocumentUploader.tsx:53-71 | an accepted file is stored; a rejected one alerts, clears the input and leaves the earlier file selected; the selected file always passes the check |
| ReactUploader.DocumentUploader.HandleFiles | src/components/document/DocumentUploader.tsx:28-51 | only the first chosen or dropped file is checked: it is stored if accepted, and otherwise gets exactly one alert and a cleared input; an empty list changes nothing |
| ReactUploader.DocumentUploader.HandleSubmit | src/components/document/DocumentUploader.tsx:77-122 | the verdict is the guard sequence; a refusal alerts and starts nothing; passing starts one read with the filtered list and the code, and leaves the loading flag down |
| ReactUploader.DocumentUploader.OnReaderLoad | src/components/document/DocumentUploader.tsx:109-114 | `onSubmit` receives the data URL's payload with the list and code captured at submit time; every submission has 1 to 10 well-formed categories and a code |
| LegacyScript.HttpErrorText | script.js:109-122 | the text shown for a non-2xx response holds the status as a numeral that reads back as the status, then the handler's error message |
| LegacyScript.ResultText | script.js:109-123 | the result area starts with `"Category: "` exactly when the request succeeded, and then shows the category; an exception's message follows `"Error: "`; a non-2xx response shows its status and message |
| LegacyScript.UploadForm.constructor | script.js:31-38 | the page starts with no file, empty fields and an idle button |
| LegacyScript.UploadForm.HandleFile | script.js:135-150 | a non-PDF or a PDF over 1 MiB alerts and clears the input; an accepted file is shown by name; the outer file variable is not touched |
| LegacyScript.UploadForm.OnFileSelected | script.js:44-63 | the chosen file stays selected whatever the check says, and the check's alert and input clearing follow |
| LegacyScript.UploadForm.OnFileSelectedCorrected | script.js:135-150 | with the intended deselection, the selected file always passes the 1 MiB check; the alert, the input clearing and the drop text are those of the script |
| LegacyScript.UploadForm.OnSubmitClick | script.js:65-88 | the verdict is the guard sequence on the filtered list; passing starts a read carrying the unfiltered per-line list |
| LegacyScript.UploadForm.OnReaderLoad | script.js:90-107 | the button becomes loading and disabled; the body sent carries the payload, the unfiltered list and the code field's value at load time |
| LegacyScript.UploadForm.OnFetchSettled | script.js:109-127 | after success or any error the button is idle and enabled, and the result area shows the outcome |
| LegacyScript.RejectedFileIsSent | script.js:44-47 | for every rejected file, every non-empty code and every text with 1 to 10 categories, a click after the rejection passes every guard and reads the rejected file for upload |
| LegacyScript.RejectedFileIsNotSentWhenCorrected | script.js:140 | with the corrected handlers, the same steps always stop at the "Please select a file." guard |
| LegacyScript.CleanWordIsOneCategory | script.js:75-77 | the textarea text `"abc"` yields exactly one category, `"abc"` |
| LegacyRequest.ToJson | script.js:102-106 | the parsed body has the list as an array of strings and the code as a string, and has `pdf` exactly when the payload was defined |
| LegacyRequest.RefusedOnlyForMissingPayload | netlify/functions/categorize.js:17-19 | a legacy request is refused with 400 exactly when its payload is undefined or empty |
| LegacyRequest.PromptListsEveryLine | netlify/functions/categorize.js:27 | the legacy list always converts without throwing, and the prompt names exactly the sanitised lines, in order, blank ones included |
| LegacyRequest.ClickToPrompt | script.js:75-106 | with a payload and a key, the handler's answer to the request is the model's trimmed answer, or its error, for the prompt naming the lines captured at the click |

## Left out

- Rendering, routing, the navigation menu, drag-over styling, the password-visibility toggle and the tooltip are left out. They are display only.
- `alert` is modelled as an `Alert` value appended to a list, with its exact text given by `AlertText` and the page's `FileAlert`. `console.error` is left out.
- `FileReader` and base64 encoding are left out. A read in progress is a queue entry. Its completion is a call that receives the data URL as text.
- `documentService.ts`, which sends `onSubmit`'s arguments over HTTP, is not part of this model. It reads `jsonResponse` from the reply, while the handler answers `{category}`.
- The Gemini model call is a function parameter from prompt and PDF data to text or an error message.
- The parsing of `event.body` is a function parameter, so the JSON grammar is not modelled.
- `request-access.js` (reCAPTCHA and e-mail) and `lastUsage.js` (database access) are not part of this model. Both are network I/O.
- No shown file implements credit accounting or rate limiting: the handler never reads `authCode`. `Categorize.AuthCodeIgnored` states that absence.
- React batches state updates and re-renders asynchronously. The model applies each setter at once.
- `ReactUploader.DocumentUploader.HandleSubmit`: the loading flag is raised and lowered in the same synchronous pass. The `finally` runs before the read completes, so the flag is false when the handler returns.
- The React alert says "less than 512kB", but a PDF of exactly 512 KiB is accepted. The model follows the code.
- The legacy alert says "less than 1MB", but a PDF of exactly 1 MiB is accepted. The model follows the code.
- In the legacy page, a click on the disabled button while a request is in flight is suppressed by the browser. That suppression is not modelled, and `OnSubmitClick` is callable at any time.
- The page-level `drop` listener that copies dropped files into the input is not modelled. It does not fire the `change` event.
- `JsonValue.ReadProperty`: the TypeError text for a `null` body is the V8 engine's wording. Other engines word it differently. The same holds for `JsonValue.ConvertMessage`.
- `LegacyScript.ResultText`: the success text is assigned to `innerHTML` (script.js:119), so the browser parses the category as HTML, while the error text goes to `textContent` (script.js:122). The model keeps the assigned text, not the DOM built from it.
- JSON numbers are kept as their JavaScript string form. Only the text `"0"` is falsy; `NaN` cannot occur in parsed JSON.
- `\s` is the ECMAScript WhiteSpace and LineTerminator set. Only code points are modelled; there is no UTF-16 surrogate handling.

## Findings

| source | as written | input that shows it | evidently intended | confidence | as-written member | corrected member |
|---|---|---|---|---|---|---|
| script.js:140 | `file = null` in `handleFile` assigns the function's parameter, so the rejected file stays in the outer `file` set at lines 45 and 61 (the same at line 146) | choose `notes.txt` (text/plain, 10 bytes), type the code `ABC123` and the category `abc` (one category, by `LegacyScript.CleanWordIsOneCategory`), click submit: every guard passes and the text file is read for upload | a rejected file is deselected, so the click alerts "Please select a file." | high, not executed | LegacyScript.RejectedFileIsSent | LegacyScript.UploadForm.OnFileSelectedCorrected |
