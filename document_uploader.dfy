/**
 * The React upload form (`DocumentUploader`): its state, the file check run on every chosen
 * or dropped file, and the submit handler whose guards decide whether `onSubmit` is reached.
 * React's `useState` setters are modelled as assignments to fields; an `alert` as an `Alert`
 * (whose text is `AlertText` with `FileAlert`) appended to `alerts`; the file input's `value` as `inputValue` (None while the input
 * element is not mounted); the asynchronous `FileReader` as a list of reads in progress,
 * each finished by `OnReaderLoad`; and every call of `onSubmit` as an entry of `submissions`.
 */
module ReactUploader {
  import opened Wrappers
  import opened UploadRules

  /** The uploader accepts PDFs of at most 512 KiB. */
  const SizeLimit := 512 * 1024

  /** A FileReader started by the submit handler, with the list and code its `onload` closure captured. */
  datatype PendingRead = PendingRead(file: FileInfo, categories: seq<string>, authCode: string)

  /** One call of `onSubmit(fileData, categories, authCode)`. */
  datatype Submission = Submission(fileData: Option<string>, categories: seq<string>, authCode: string)

  /** What `onSubmit` may receive: one to ten well-formed categories and a non-empty code. */
  predicate Admissible(categories: seq<string>, authCode: string)
  {
    1 <= |categories| <= MaxCategories && WellFormedEntries(categories) && authCode != ""
  }

  /** The alert shown for a rejected file. */
  function FileAlert(v: FileVerdict): string
  {
    match v
    case NotPdf => "Please upload a PDF file."
    case TooLarge => "File size must be less than 512kB."
    case Accepted => ""
  }

  /** `if (fileInputRef.current) fileInputRef.current.value = ''`. */
  function Cleared(inputValue: Option<string>): Option<string>
  {
    if inputValue.Some? then Some("") else None
  }

  class DocumentUploader {
    var file: Option<FileInfo>
    var categories: string
    var authCode: string
    var isLoading: bool
    var inputValue: Option<string>
    var alerts: seq<Alert>
    var readers: seq<PendingRead>
    var submissions: seq<Submission>

    /**
     * The form's invariant: the selected file passed the file check, and every read in
     * progress and every call of `onSubmit` carries an admissible list and code.
     */
    ghost predicate Valid()
      reads this`file, this`readers, this`submissions
    {
      && (file.Some? ==> CheckFile(file.value, SizeLimit) == Accepted)
      && (forall i :: 0 <= i < |readers| ==>
            CheckFile(readers[i].file, SizeLimit) == Accepted && Admissible(readers[i].categories, readers[i].authCode))
      && (forall i :: 0 <= i < |submissions| ==> Admissible(submissions[i].categories, submissions[i].authCode))
    }

    /** The initial state of `useState`: no file, empty fields, not loading. */
    constructor (inputMounted: bool)
      ensures Valid()
      ensures file == None && categories == "" && authCode == "" && !isLoading
      ensures inputValue == (if inputMounted then Some("") else None)
      ensures alerts == [] && readers == [] && submissions == []
    {
      file := None;
      categories := "";
      authCode := "";
      isLoading := false;
      inputValue := if inputMounted then Some("") else None;
      alerts := [];
      readers := [];
      submissions := [];
    }

    /** The textarea's `onChange`. */
    method SetCategories(text: string)
      modifies this`categories
      ensures categories == text
    {
      categories := text;
    }

    /** The authorization input's `onChange`. */
    method SetAuthCode(code: string)
      modifies this`authCode
      ensures authCode == code
    {
      authCode := code;
    }

    /**
     * `handleFileValidation`: a non-PDF is rejected before its size is looked at; a PDF
     * larger than 512 KiB is rejected; a rejection alerts and clears the input but leaves
     * the previously selected file in place, and only an accepted file is stored.
     */
    method HandleFileValidation(selected: FileInfo)
      requires Valid()
      modifies this`file, this`inputValue, this`alerts
      ensures Valid()
      ensures CheckFile(selected, SizeLimit) == Accepted ==>
        file == Some(selected) && inputValue == old(inputValue) && alerts == old(alerts)
      ensures CheckFile(selected, SizeLimit) != Accepted ==>
        && file == old(file)
        && inputValue == Cleared(old(inputValue))
        && alerts == old(alerts) + [Rejected(CheckFile(selected, SizeLimit))]
    {
      if selected.mimeType != PdfType {
        alerts := alerts + [Rejected(NotPdf)];
        if inputValue.Some? {
          inputValue := Some("");
        }
        return;
      }
      if selected.size > 512 * 1024 {
        alerts := alerts + [Rejected(TooLarge)];
        if inputValue.Some? {
          inputValue := Some("");
        }
        return;
      }
      file := Some(selected);
    }

    /** `handleFileChange` and `handleDrop`: only the first file of the list is validated, if there is one. */
    method HandleFiles(files: seq<FileInfo>)
      requires Valid()
      modifies this`file, this`inputValue, this`alerts
      ensures Valid()
      ensures files == [] ==> file == old(file) && inputValue == old(inputValue) && alerts == old(alerts)
      ensures files != [] && CheckFile(files[0], SizeLimit) == Accepted ==>
        file == Some(files[0]) && inputValue == old(inputValue) && alerts == old(alerts)
      ensures files != [] && CheckFile(files[0], SizeLimit) != Accepted ==>
        && file == old(file)
        && inputValue == Cleared(old(inputValue))
        && alerts == old(alerts) + [Rejected(CheckFile(files[0], SizeLimit))]
    {
      if files != [] {
        HandleFileValidation(files[0]);
      }
    }

    /**
     * `handleSubmit`: the guards run in the order file, code, too many, none, each with its
     * own alert; only when all pass is a FileReader started, carrying the filtered list.
     * The loading flag is raised and lowered again in the same synchronous pass (the
     * `finally` runs before the read completes), so it is false when the handler returns.
     */
    method HandleSubmit() returns (verdict: SubmitVerdict)
      requires Valid()
      modifies this`alerts, this`readers, this`isLoading
      ensures Valid()
      ensures verdict == SubmitGuards(file.Some?, authCode, categories)
      ensures verdict != Proceed ==>
        alerts == old(alerts) + [Refused(verdict)] && readers == old(readers) && isLoading == old(isLoading)
      ensures verdict == Proceed ==>
        && alerts == old(alerts) && !isLoading
        && readers == old(readers) + [PendingRead(file.value, CategoryList(categories), authCode)]
    {
      if file == None {
        verdict := NoFile;
        alerts := alerts + [Refused(verdict)];
        return;
      }
      if authCode == "" {
        verdict := NoAuthCode;
        alerts := alerts + [Refused(verdict)];
        return;
      }
      var categoryList := CategoryList(categories);
      if |categoryList| > 10 {
        verdict := TooManyCategories;
        alerts := alerts + [Refused(verdict)];
        return;
      }
      if |categoryList| == 0 {
        verdict := NoCategories;
        alerts := alerts + [Refused(verdict)];
        return;
      }
      verdict := Proceed;
      isLoading := true;
      readers := readers + [PendingRead(file.value, categoryList, authCode)];
      isLoading := false;
    }

    /**
     * The reader's `onload`: the text between the first and second comma of the data URL
     * goes to `onSubmit` with the filtered list and the code captured at submit time.
     */
    method OnReaderLoad(k: nat, dataUrl: string)
      requires Valid() && k < |readers|
      modifies this`readers, this`submissions
      ensures Valid()
      ensures submissions == old(submissions) +
        [Submission(DataUrlPayload(dataUrl), old(readers)[k].categories, old(readers)[k].authCode)]
      ensures readers == old(readers)[..k] + old(readers)[k + 1..]
    {
      var read := readers[k];
      submissions := submissions + [Submission(DataUrlPayload(dataUrl), read.categories, read.authCode)];
      readers := readers[..k] + readers[k + 1..];
    }
  }
}
