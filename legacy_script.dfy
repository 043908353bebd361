/**
 * The legacy vanilla-JavaScript upload page (`script.js`). The module-level `file` variable and
 * the DOM properties the handlers touch are fields of `UploadForm`: the file input's `value`,
 * the drop area's text, the two input fields, the submit button's `is-loading` class and
 * `disabled` flag, and the result area's text. Alerts are appended to `alerts` as `Alert`s whose text is `AlertText` with `FileAlert`; every
 * FileReader started by a click is kept in `readers` until its `onload` runs; every request
 * body sent to the handler is appended to `requests`.
 */
module LegacyScript {
  import opened Wrappers
  import opened JsText
  import opened UploadRules

  /** The script accepts PDFs of at most 1 MiB. */
  const SizeLimit := 1024 * 1024

  /** A FileReader started by a click: the file it reads and the unfiltered list its closure captured. */
  datatype PendingRead = PendingRead(file: FileInfo, categories: seq<string>)

  /** The JSON body `{pdf, categories, authCode}` of the request; `pdf` is absent when the data URL had no comma. */
  datatype RequestBody = RequestBody(pdf: Option<string>, categories: seq<string>, authCode: string)

  /**
   * How the `fetch` ended: a 2xx response carrying a category; a non-2xx response whose
   * JSON body carried an `error`; or an exception with its message (a network failure, or
   * a response body that is not JSON).
   */
  datatype FetchOutcome = Delivered(category: string) | HttpError(status: nat, error: string) | Thrown(message: string)

  /** The alert shown for a rejected file. */
  function FileAlert(v: FileVerdict): string
  {
    match v
    case NotPdf => "Please upload a PDF file."
    case TooLarge => "File size must be less than 1MB."
    case Accepted => ""
  }

  /** The fixed parts of the message thrown for a non-2xx response. */
  const StatusLead := "Error: HTTP error! status: "
  const MessageLead := ", message: "

  /**
   * The message thrown for a non-2xx response, after `"Error: "`: the status, whose numeral
   * reads back as the status, then the handler's error message.
   */
  function HttpErrorText(status: nat, error: string): (t: string)
    ensures var e := |t| - |error|;
      && |StatusLead| < e - |MessageLead|
      && t[0] == 'E'
      && t[..|StatusLead|] == StatusLead
      && (forall i :: |StatusLead| <= i < e - |MessageLead| ==> '0' <= t[i] <= '9')
      && DecimalValue(t[|StatusLead|..e - |MessageLead|]) == status
      && t[e - |MessageLead|..e] == MessageLead
      && t[e..] == error
  {
    var numeral := DecimalString(status);
    var t := StatusLead + numeral + MessageLead + error;
    var e := |t| - |error|;
    assert t[|StatusLead|..e - |MessageLead|] == numeral;
    assert t[e - |MessageLead|..e] == MessageLead;
    DecimalRoundTrip(status);
    t
  }

  /**
   * The text the result area shows once the request has settled: the category after
   * `"Category: "`, the message of a non-2xx response as `HttpErrorText` gives it, or an
   * exception's message after `"Error: "`.
   */
  function ResultText(outcome: FetchOutcome): (t: string)
    ensures outcome.Delivered? <==> |t| >= 10 && t[..10] == "Category: "
    ensures outcome.Delivered? ==> t[10..] == outcome.category
    ensures outcome.Thrown? ==> |t| >= 7 && t[..7] == "Error: " && t[7..] == outcome.message
    ensures outcome.HttpError? ==>
      var e := |t| - |outcome.error|;
      && |StatusLead| < e - |MessageLead|
      && t[..|StatusLead|] == StatusLead
      && (forall i :: |StatusLead| <= i < e - |MessageLead| ==> '0' <= t[i] <= '9')
      && DecimalValue(t[|StatusLead|..e - |MessageLead|]) == outcome.status
      && t[e - |MessageLead|..e] == MessageLead
      && t[e..] == outcome.error
  {
    match outcome
    case Delivered(category) => "Category: " + category
    case HttpError(status, error) => HttpErrorText(status, error)
    case Thrown(message) =>
      var t := "Error: " + message;
      assert t[0] == 'E';
      t
  }

  /** A list the submit guards let through: one to ten non-empty entries once the empty ones are dropped. */
  predicate GuardedList(categories: seq<string>)
  {
    1 <= |NonEmpty(categories)| <= MaxCategories && (forall i :: 0 <= i < |categories| ==> AllKept(categories[i]))
  }

  class UploadForm {
    var file: Option<FileInfo>
    var fileInputValue: string
    var dropText: string
    var categoriesValue: string
    var authCodeValue: string
    var buttonLoading: bool
    var buttonDisabled: bool
    var resultText: string
    var alerts: seq<Alert>
    var readers: seq<PendingRead>
    var requests: seq<RequestBody>

    /**
     * The page's invariant: every read in progress and every request sent carries a list
     * that passed the guards. Nothing constrains `file`: a rejected file stays selected.
     */
    ghost predicate Valid()
      reads this`readers, this`requests
    {
      && (forall i :: 0 <= i < |readers| ==> GuardedList(readers[i].categories))
      && (forall i :: 0 <= i < |requests| ==> GuardedList(requests[i].categories))
    }

    /** The page as loaded: nothing selected, the button idle, no requests. */
    constructor (dropPrompt: string)
      ensures Valid()
      ensures file == None && fileInputValue == "" && dropText == dropPrompt
      ensures categoriesValue == "" && authCodeValue == ""
      ensures !buttonLoading && !buttonDisabled && resultText == ""
      ensures alerts == [] && readers == [] && requests == []
    {
      file := None;
      fileInputValue := "";
      dropText := dropPrompt;
      categoriesValue := "";
      authCodeValue := "";
      buttonLoading := false;
      buttonDisabled := false;
      resultText := "";
      alerts := [];
      readers := [];
      requests := [];
    }

    /** The user types into the categories textarea or the authorization field. */
    method Type(categories: string, authCode: string)
      modifies this`categoriesValue, this`authCodeValue
      ensures categoriesValue == categories && authCodeValue == authCode
    {
      categoriesValue := categories;
      authCodeValue := authCode;
    }

    /**
     * The `change` and `drop` listeners: the chosen file is stored in `file` first, then
     * `handleFile` checks it. A rejection alerts and clears the input, and its `file = null`
     * assigns `handleFile`'s own parameter, so the outer `file` keeps the rejected file.
     */
    method OnFileSelected(selected: Option<FileInfo>)
      modifies this`file, this`fileInputValue, this`dropText, this`alerts
      ensures file == selected
      ensures selected.None? ==>
        fileInputValue == old(fileInputValue) && dropText == old(dropText) && alerts == old(alerts)
      ensures selected.Some? && CheckFile(selected.value, SizeLimit) == Accepted ==>
        && fileInputValue == old(fileInputValue) && alerts == old(alerts)
        && dropText == "File: " + selected.value.name
      ensures selected.Some? && CheckFile(selected.value, SizeLimit) != Accepted ==>
        && fileInputValue == "" && dropText == old(dropText)
        && alerts == old(alerts) + [Rejected(CheckFile(selected.value, SizeLimit))]
    {
      file := selected;
      HandleFile(selected);
    }

    /** `handleFile`: everything it changes is listed in its `modifies`; the outer `file` is not. */
    method HandleFile(f: Option<FileInfo>)
      modifies this`fileInputValue, this`dropText, this`alerts
      ensures f.None? ==>
        fileInputValue == old(fileInputValue) && dropText == old(dropText) && alerts == old(alerts)
      ensures f.Some? && CheckFile(f.value, SizeLimit) == Accepted ==>
        fileInputValue == old(fileInputValue) && alerts == old(alerts) && dropText == "File: " + f.value.name
      ensures f.Some? && CheckFile(f.value, SizeLimit) != Accepted ==>
        && fileInputValue == "" && dropText == old(dropText)
        && alerts == old(alerts) + [Rejected(CheckFile(f.value, SizeLimit))]
    {
      if f.None? {
        return;
      }
      var candidate := f.value;
      if candidate.mimeType != PdfType {
        alerts := alerts + [Rejected(NotPdf)];
        fileInputValue := "";
        return;
      }
      if candidate.size > 1024 * 1024 {
        alerts := alerts + [Rejected(TooLarge)];
        fileInputValue := "";
        return;
      }
      dropText := "File: " + candidate.name;
    }

    /**
     * The listeners as evidently intended: a rejected file is deselected, so `file` only
     * ever holds a file that passed the check.
     */
    method OnFileSelectedCorrected(selected: Option<FileInfo>)
      requires file.Some? ==> CheckFile(file.value, SizeLimit) == Accepted
      modifies this`file, this`fileInputValue, this`dropText, this`alerts
      ensures file.Some? ==> CheckFile(file.value, SizeLimit) == Accepted
      ensures selected.Some? && CheckFile(selected.value, SizeLimit) != Accepted ==> file == None
      ensures selected.None? || CheckFile(selected.value, SizeLimit) == Accepted ==> file == selected
      ensures selected.None? ==>
        fileInputValue == old(fileInputValue) && dropText == old(dropText) && alerts == old(alerts)
      ensures selected.Some? && CheckFile(selected.value, SizeLimit) == Accepted ==>
        && fileInputValue == old(fileInputValue) && alerts == old(alerts)
        && dropText == "File: " + selected.value.name
      ensures selected.Some? && CheckFile(selected.value, SizeLimit) != Accepted ==>
        && fileInputValue == "" && dropText == old(dropText)
        && alerts == old(alerts) + [Rejected(CheckFile(selected.value, SizeLimit))]
    {
      file := selected;
      HandleFile(selected);
      if selected.Some? && CheckFile(selected.value, SizeLimit) != Accepted {
        file := None;
      }
    }

    /**
     * The submit button's `click` listener: the guards run in the order file, code, too many,
     * none, on the filtered list; a click that passes them starts a FileReader whose closure
     * keeps the unfiltered list, empty entries included.
     */
    method OnSubmitClick() returns (verdict: SubmitVerdict)
      requires Valid()
      modifies this`alerts, this`readers
      ensures Valid()
      ensures verdict == SubmitGuards(file.Some?, authCodeValue, categoriesValue)
      ensures verdict != Proceed ==> alerts == old(alerts) + [Refused(verdict)] && readers == old(readers)
      ensures verdict == Proceed ==>
        alerts == old(alerts) && readers == old(readers) + [PendingRead(file.value, SanitizedLines(categoriesValue))]
    {
      if file.None? {
        verdict := NoFile;
        alerts := alerts + [Refused(verdict)];
        return;
      }
      if authCodeValue == "" {
        verdict := NoAuthCode;
        alerts := alerts + [Refused(verdict)];
        return;
      }
      var categories := SanitizedLines(categoriesValue);
      var filteredCategories := NonEmpty(categories);
      assert filteredCategories == CategoryList(categoriesValue);
      if |filteredCategories| > 10 {
        verdict := TooManyCategories;
        alerts := alerts + [Refused(verdict)];
        return;
      }
      if |filteredCategories| == 0 {
        verdict := NoCategories;
        alerts := alerts + [Refused(verdict)];
        return;
      }
      verdict := Proceed;
      readers := readers + [PendingRead(file.value, categories)];
    }

    /**
     * The reader's `onload`: the button shows loading and is disabled, and the request body
     * carries the data URL's payload, the unfiltered list and the authorization field's
     * value as it is now (not as it was at the click).
     */
    method OnReaderLoad(k: nat, dataUrl: string) returns (body: RequestBody)
      requires Valid() && k < |readers|
      modifies this`buttonLoading, this`buttonDisabled, this`readers, this`requests
      ensures Valid()
      ensures buttonLoading && buttonDisabled
      ensures body == RequestBody(DataUrlPayload(dataUrl), old(readers)[k].categories, authCodeValue)
      ensures requests == old(requests) + [body]
      ensures readers == old(readers)[..k] + old(readers)[k + 1..]
    {
      buttonLoading := true;
      buttonDisabled := true;
      var read := readers[k];
      body := RequestBody(DataUrlPayload(dataUrl), read.categories, authCodeValue);
      requests := requests + [body];
      readers := readers[..k] + readers[k + 1..];
    }

    /**
     * The end of the request, in every outcome: the result area shows the category or the
     * error, and the `finally` block leaves the button idle and enabled.
     */
    method OnFetchSettled(outcome: FetchOutcome)
      modifies this`buttonLoading, this`buttonDisabled, this`resultText
      ensures !buttonLoading && !buttonDisabled
      ensures resultText == ResultText(outcome)
    {
      if outcome.HttpError? {
        buttonLoading := false;
        buttonDisabled := false;
      }
      resultText := ResultText(outcome);
      buttonLoading := false;
      buttonDisabled := false;
    }
  }

  /**
   * The script as written: once a file has been rejected, a click with any code and any
   * acceptable category text passes every guard and starts reading the rejected file for upload.
   */
  method RejectedFileIsSent(rejected: FileInfo, code: string, text: string) returns (verdict: SubmitVerdict, sent: FileInfo)
    requires CheckFile(rejected, SizeLimit) != Accepted
    requires code != "" && 1 <= |CategoryList(text)| <= MaxCategories
    ensures verdict == Proceed
    ensures sent == rejected
  {
    var form := FormAfterRejection(rejected, code, text);
    GuardsPass(code, text);
    verdict := form.OnSubmitClick();
    sent := form.readers[0].file;
  }

  /** A fresh page after a rejected file was chosen and the two fields were filled in. */
  method FormAfterRejection(rejected: FileInfo, code: string, text: string) returns (form: UploadForm)
    ensures fresh(form) && form.Valid() && form.readers == []
    ensures form.file == Some(rejected) && form.categoriesValue == text && form.authCodeValue == code
  {
    form := new UploadForm("");
    form.OnFileSelected(Some(rejected));
    form.Type(text, code);
  }

  /** The same steps with the corrected listeners: the click stops at the file guard. */
  method RejectedFileIsNotSentWhenCorrected(rejected: FileInfo, code: string, text: string) returns (verdict: SubmitVerdict)
    requires CheckFile(rejected, SizeLimit) != Accepted
    ensures verdict == NoFile
  {
    var form := new UploadForm("");
    form.OnFileSelectedCorrected(Some(rejected));
    form.Type(text, code);
    verdict := form.OnSubmitClick();
  }

  /** The textarea text `"abc"` passes the category guards. */
  lemma CleanWordIsOneCategory()
    ensures CategoryList("abc") == ["abc"]
  {
    ExamplePieces();
    TrimFixesTrimmed("abc");
    StripDisallowedKeeps("abc");
    CategoryListOfOneLine("abc");
  }
}
