/**
 * The client-side validation rules that the React uploader and the legacy script share:
 * the PDF type and size check, the category pipeline
 *   text.split('\n').map(c => c.trim().replace(/[^a-zA-Z0-9\s]/g, '')).filter(c => c !== '')
 * the order of the submit guards, and the extraction of the Base64 payload from a data URL.
 */
module UploadRules {
  import opened Wrappers
  import opened JsText

  const PdfType := "application/pdf"

  /** What the browser's File object tells the handlers: its name, MIME type and size in bytes. */
  datatype FileInfo = FileInfo(name: string, mimeType: string, size: nat)

  datatype FileVerdict = NotPdf | TooLarge | Accepted

  /**
   * The type check comes first; the size check only applies to PDFs, and a file of exactly
   * `limit` bytes passes.
   */
  function CheckFile(f: FileInfo, limit: nat): (v: FileVerdict)
    ensures v == NotPdf <==> f.mimeType != PdfType
    ensures v == TooLarge <==> f.mimeType == PdfType && f.size > limit
    ensures v == Accepted <==> f.mimeType == PdfType && f.size <= limit
  {
    if f.mimeType != PdfType then NotPdf
    else if f.size > limit then TooLarge
    else Accepted
  }

  /** A bigger limit accepts every file a smaller one does, and a file of limit + 1 bytes tells them apart. */
  lemma CheckFileMonotone(f: FileInfo, small: nat, large: nat)
    requires small < large
    ensures CheckFile(f, small) == Accepted ==> CheckFile(f, large) == Accepted
    ensures f.mimeType == PdfType && f.size == small + 1 ==>
      CheckFile(f, small) == TooLarge && CheckFile(f, large) == Accepted
  {
  }

  // ---------------------------------------------------------------------------
  // The category pipeline

  predicate IsAsciiAlphanumeric(c: char)
  {
    ('a' <= c <= 'z') || ('A' <= c <= 'Z') || ('0' <= c <= '9')
  }

  /** The characters that `/[^a-zA-Z0-9\s]/g` does not match, and so leaves in place. */
  predicate IsKept(c: char)
  {
    IsAsciiAlphanumeric(c) || IsSpace(c)
  }

  predicate AllKept(s: string)
  {
    forall k :: 0 <= k < |s| ==> IsKept(s[k])
  }

  /** `s.replace(/[^a-zA-Z0-9\s]/g, '')`. */
  function StripDisallowed(s: string): (r: string)
    ensures |r| <= |s|
    ensures AllKept(r)
  {
    if s == [] then ""
    else if IsKept(s[0]) then [s[0]] + StripDisallowed(s[1..])
    else StripDisallowed(s[1..])
  }

  /** A single character is kept exactly when it is allowed. */
  lemma StripDisallowedOne(c: char)
    ensures StripDisallowed([c]) == if IsKept(c) then [c] else []
  {
    assert [c][1..] == [];
  }

  /**
   * The deletion works character by character: deleting from a concatenation is deleting
   * from each part. With `StripDisallowedOne` this fixes the result, order and repetitions
   * included.
   */
  lemma {:induction false} StripDisallowedAppend(a: string, b: string)
    ensures StripDisallowed(a + b) == StripDisallowed(a) + StripDisallowed(b)
  {
    if a == [] {
      assert a + b == b;
    } else {
      var ab := a + b;
      assert ab[0] == a[0] && ab[1..] == a[1..] + b;
      StripDisallowedAppend(a[1..], b);
      var tail := StripDisallowed(a[1..]) + StripDisallowed(b);
      if IsKept(a[0]) {
        assert StripDisallowed(ab) == [a[0]] + tail;
        assert StripDisallowed(a) == [a[0]] + StripDisallowed(a[1..]);
      } else {
        assert StripDisallowed(ab) == tail;
        assert StripDisallowed(a) == StripDisallowed(a[1..]);
      }
    }
  }

  /** The result holds exactly the allowed characters that occur in the input. */
  lemma {:induction false} StripDisallowedMembers(s: string, c: char)
    ensures c in StripDisallowed(s) <==> c in s && IsKept(c)
  {
    if s != [] {
      StripDisallowedMembers(s[1..], c);
      assert s == [s[0]] + s[1..];
    }
  }

  /** Removing the disallowed characters of a string that has none changes nothing. */
  lemma {:induction false} StripDisallowedKeeps(s: string)
    requires AllKept(s)
    ensures StripDisallowed(s) == s
  {
    if s != [] {
      StripDisallowedKeeps(s[1..]);
      assert [s[0]] + s[1..] == s;
    }
  }

  /** One line of the textarea, as the `map` step turns it: trim first, then delete. */
  function SanitizeLine(line: string): (r: string)
    ensures AllKept(r)
    ensures |r| <= |line|
  {
    StripDisallowed(Trim(line))
  }

  /**
   * Sanitising a sanitised line only trims it again: the deletion has nothing left to delete,
   * but whitespace that the deletion uncovered at either end is not trimmed by the first pass.
   */
  lemma {:induction false} SanitizeTwice(line: string)
    ensures SanitizeLine(SanitizeLine(line)) == Trim(SanitizeLine(line))
  {
    var t := Trim(SanitizeLine(line));
    TrimKeepsKept(SanitizeLine(line));
    StripDisallowedKeeps(t);
  }

  /** Trimming removes characters, so it cannot bring in a disallowed one. */
  lemma TrimKeepsKept(s: string)
    requires AllKept(s)
    ensures AllKept(Trim(s))
  {
    var u := TrimStart(s);
    forall k | 0 <= k < |u| ensures IsKept(u[k]) { assert u[k] == s[|s| - |u| + k]; }
    var t := TrimEnd(u);
    forall k | 0 <= k < |t| ensures IsKept(t[k]) { assert t[k] == u[k]; }
  }

  /** A line with no whitespace at either end is only subjected to the deletion. */
  lemma SanitizeTrimmedLine(line: string)
    requires Trimmed(line)
    ensures SanitizeLine(line) == StripDisallowed(line)
  {
    TrimFixesTrimmed(line);
  }

  /** A disallowed character in front of a clean word is deleted, leaving the space after it in place. */
  lemma {:induction false} SanitizeKeepsUncoveredSpace(junk: char, word: string)
    requires !IsKept(junk) && word != [] && AllKept(word) && Trimmed(word)
    ensures SanitizeLine([junk, ' '] + word) == " " + word
  {
    var line := [junk, ' '] + word;
    var rest := " " + word;
    assert line[0] == junk && !IsSpace(junk);
    assert line[|line| - 1] == word[|word| - 1];
    assert Trimmed(line);
    SanitizeTrimmedLine(line);
    assert line[1..] == rest;
    assert StripDisallowed(line) == StripDisallowed(rest);
    forall k | 0 <= k < |rest| ensures IsKept(rest[k]) {
      if k > 0 { assert rest[k] == word[k - 1]; }
    }
    StripDisallowedKeeps(rest);
  }

  /** A clean word behind one space is sanitised to the word alone. */
  lemma {:induction false} SanitizeTrimsSpace(word: string)
    requires word != [] && AllKept(word) && Trimmed(word)
    ensures SanitizeLine(" " + word) == word
  {
    TrimStartOf(" ", word);
    TrimEndOf(word, []);
    assert word + [] == word;
    StripDisallowedKeeps(word);
  }

  /**
   * The `map` step is not idempotent: deleting a disallowed character in front of a space
   * uncovers that space, and only a second pass trims it.
   */
  lemma {:induction false} SanitizeUncoversSpace(junk: char, word: string)
    requires !IsKept(junk) && word != [] && AllKept(word) && Trimmed(word)
    ensures SanitizeLine([junk, ' '] + word) == " " + word
    ensures SanitizeLine(SanitizeLine([junk, ' '] + word)) == word
  {
    SanitizeKeepsUncoveredSpace(junk, word);
    SanitizeTrimsSpace(word);
  }

  /** The pieces of the instance below: `'!'` is deleted, and `"abc"` is clean and trimmed. */
  lemma ExamplePieces()
    ensures !IsKept('!') && "abc" != [] && AllKept("abc") && Trimmed("abc")
    ensures "! abc" == ['!', ' '] + "abc"
    ensures '\n' !in "! abc" && '\n' !in " abc"
  {
    var word := "abc";
    forall k | 0 <= k < |word| ensures IsKept(word[k]) { assert IsAsciiAlphanumeric(word[k]); }
    assert !IsSpace(word[0]) && !IsSpace(word[2]);
  }

  /** First pass over `"! abc"`: the `'!'` goes, the space behind it stays. */
  lemma SanitizeExampleFirstPass()
    ensures SanitizeLine("! abc") == " abc"
  {
    ExamplePieces();
    SanitizeKeepsUncoveredSpace('!', "abc");
  }

  /** Second pass: the uncovered space is trimmed. */
  lemma SanitizeExampleSecondPass()
    ensures SanitizeLine(" abc") == "abc"
  {
    ExamplePieces();
    SanitizeTrimsSpace("abc");
  }

  /** The instance `"! abc"`: one pass gives `" abc"`, a second gives `"abc"`. */
  lemma SanitizeNotIdempotent()
    ensures SanitizeLine("! abc") == " abc"
    ensures SanitizeLine(SanitizeLine("! abc")) == "abc"
  {
    SanitizeExampleFirstPass();
    SanitizeExampleSecondPass();
  }

  /** The `split` and `map` steps: one sanitised entry per line, empty entries included. */
  function SanitizedLines(text: string): (r: seq<string>)
    ensures |r| == Count(text, '\n') + 1
    ensures forall i :: 0 <= i < |r| ==> AllKept(r[i])
  {
    var lines := Split(text, '\n');
    seq(|lines|, i requires 0 <= i < |lines| => SanitizeLine(lines[i]))
  }

  /** The `filter` step: drop the empty strings. */
  function NonEmpty(xs: seq<string>): (r: seq<string>)
    ensures |r| <= |xs|
    ensures forall i :: 0 <= i < |r| ==> r[i] != ""
    ensures forall x :: x in r <==> x in xs && x != ""
  {
    if xs == [] then []
    else if xs[0] == "" then NonEmpty(xs[1..])
    else [xs[0]] + NonEmpty(xs[1..])
  }

  /** `sub` is `xs` with some entries left out and the rest in their original order. */
  ghost predicate IsSubsequence<T>(sub: seq<T>, xs: seq<T>)
    decreases |xs|
  {
    if sub == [] then true
    else if xs == [] then false
    else (sub[0] == xs[0] && IsSubsequence(sub[1..], xs[1..])) || IsSubsequence(sub, xs[1..])
  }

  /** The filter keeps the order of the entries it keeps. */
  lemma {:induction false} NonEmptyIsSubsequence(xs: seq<string>)
    ensures IsSubsequence(NonEmpty(xs), xs)
  {
    if xs != [] {
      NonEmptyIsSubsequence(xs[1..]);
      if xs[0] != "" {
        assert NonEmpty(xs)[1..] == NonEmpty(xs[1..]);
      }
    }
  }

  /** The filter keeps every non-empty entry as often as it occurs, and no empty one. */
  lemma {:induction false} NonEmptyMultiset(xs: seq<string>)
    ensures multiset(NonEmpty(xs)) == multiset(xs)["" := 0]
  {
    if xs != [] {
      NonEmptyMultiset(xs[1..]);
      assert xs == [xs[0]] + xs[1..];
      assert multiset(xs) == multiset{xs[0]} + multiset(xs[1..]);
    }
  }

  /** Filtering a list with no empty entries changes nothing. */
  lemma {:induction false} NonEmptyKeeps(xs: seq<string>)
    requires forall i :: 0 <= i < |xs| ==> xs[i] != ""
    ensures NonEmpty(xs) == xs
  {
    if xs != [] {
      NonEmptyKeeps(xs[1..]);
      assert [xs[0]] + xs[1..] == xs;
    }
  }

  /** An entry is well formed when it is non-empty and holds only ASCII letters, digits and whitespace. */
  predicate WellFormedEntries(cs: seq<string>)
  {
    forall i :: 0 <= i < |cs| ==> cs[i] != "" && AllKept(cs[i])
  }

  /** The whole pipeline: the `categoryList` of the React uploader, the `filteredCategories` of the script. */
  function CategoryList(text: string): (r: seq<string>)
    ensures WellFormedEntries(r)
    ensures |r| <= Count(text, '\n') + 1
  {
    var lines := SanitizedLines(text);
    var r := NonEmpty(lines);
    assert forall i :: 0 <= i < |r| ==> r[i] in lines;
    r
  }

  /** The filtered list is the unfiltered one with exactly its empty entries taken out, order kept. */
  lemma CategoryListOfLines(text: string)
    ensures IsSubsequence(CategoryList(text), SanitizedLines(text))
    ensures multiset(CategoryList(text)) == multiset(SanitizedLines(text))["" := 0]
  {
    NonEmptyIsSubsequence(SanitizedLines(text));
    NonEmptyMultiset(SanitizedLines(text));
  }

  /** A single line yields a single category, unless it sanitises to nothing. */
  lemma {:induction false} CategoryListOfOneLine(line: string)
    requires '\n' !in line
    ensures CategoryList(line) == if SanitizeLine(line) == "" then [] else [SanitizeLine(line)]
  {
    SplitNoSeparator(line, '\n');
    var lines := [SanitizeLine(line)];
    assert SanitizedLines(line) == lines;
    assert lines[1..] == [];
    assert NonEmpty(lines) == if lines[0] == "" then NonEmpty([]) else [lines[0]] + NonEmpty([]);
  }

  /**
   * The pipeline as a whole is not idempotent either: feeding its output `[" abc"]` back in
   * as the textarea's text gives `["abc"]`.
   */
  lemma CategoryListNotIdempotent()
    ensures CategoryList("! abc") == [" abc"]
    ensures CategoryList(Join(CategoryList("! abc"), "\n")) == ["abc"]
  {
    ExamplePieces();
    SanitizeExampleFirstPass();
    CategoryListOfOneLine("! abc");
    SanitizeExampleSecondPass();
    assert Join([" abc"], "\n") == " abc";
    CategoryListOfOneLine(" abc");
  }

  // ---------------------------------------------------------------------------
  // The submit guards

  const MaxCategories := 10

  /** Which guard of the submit handler stops the submission, in the order they are tried. */
  datatype SubmitVerdict = NoFile | NoAuthCode | TooManyCategories | NoCategories | Proceed

  /**
   * The per-line list of lines joined by newlines is each line sanitised, in order: a blank
   * line becomes an empty entry of its own.
   */
  lemma LinesOfJoin(xs: seq<string>)
    requires |xs| >= 1 && forall i :: 0 <= i < |xs| ==> '\n' !in xs[i]
    ensures |SanitizedLines(Join(xs, "\n"))| == |xs|
    ensures forall i :: 0 <= i < |xs| ==> SanitizedLines(Join(xs, "\n"))[i] == SanitizeLine(xs[i])
    ensures forall i :: 0 <= i < |xs| && xs[i] == "" ==> SanitizedLines(Join(xs, "\n"))[i] == ""
  {
    SplitJoin(xs, '\n');
    SanitizeEmptyLine();
  }

  /** A blank line sanitises to nothing. */
  lemma SanitizeEmptyLine()
    ensures SanitizeLine([]) == []
  {
  }

  /**
   * The guards of the submit handler: a file must be selected, the authorization code must be
   * non-empty, and the filtered category list must hold between 1 and 10 entries.
   */
  function SubmitGuards(hasFile: bool, authCode: string, text: string): (v: SubmitVerdict)
    ensures v == NoFile <==> !hasFile
    ensures v == NoAuthCode <==> hasFile && authCode == ""
    ensures v == TooManyCategories <==> hasFile && authCode != "" && |CategoryList(text)| > MaxCategories
    ensures v == NoCategories <==> hasFile && authCode != "" && |CategoryList(text)| == 0
    ensures v == Proceed <==> hasFile && authCode != "" && 1 <= |CategoryList(text)| <= MaxCategories
  {
    if !hasFile then NoFile
    else if authCode == "" then NoAuthCode
    else
      var n := |CategoryList(text)|;
      if n > MaxCategories then TooManyCategories
      else if n == 0 then NoCategories
      else Proceed
  }

  /** With a file, a code and one to ten categories, the handler goes ahead. */
  lemma GuardsPass(code: string, text: string)
    requires code != "" && 1 <= |CategoryList(text)| <= MaxCategories
    ensures SubmitGuards(true, code, text) == Proceed
  {
  }

  /** A textarea of at most ten lines never trips the "too many" guard. */
  lemma FewLinesNeverTooMany(hasFile: bool, authCode: string, text: string)
    requires Count(text, '\n') < MaxCategories
    ensures SubmitGuards(hasFile, authCode, text) != TooManyCategories
  {
  }

  /** The alert each guard shows; both uploaders use the same words. */
  function GuardAlert(v: SubmitVerdict): string
  {
    match v
    case NoFile => "Please select a file."
    case NoAuthCode => "Auth code is required. Please contact us for more credits."
    case TooManyCategories => "You can only have up to 10 non-empty categories."
    case NoCategories => "Categories must contain only letters and numbers, and not be empty."
    case Proceed => ""
  }

  /** An `alert` a page raised: a rejected file, or a submit refused by a guard. */
  datatype Alert = Rejected(file: FileVerdict) | Refused(submit: SubmitVerdict)

  /** The text the user sees for an alert, given the page's own words for a rejected file. */
  function AlertText(a: Alert, fileAlert: FileVerdict -> string): string
  {
    match a
    case Rejected(v) => fileAlert(v)
    case Refused(v) => GuardAlert(v)
  }

  // ---------------------------------------------------------------------------
  // The payload of a data URL

  /** `dataUrl.split(',')[1]`: the text between the first and the second comma, `undefined` without a comma. */
  function DataUrlPayload(dataUrl: string): (r: Option<string>)
    ensures r == None <==> ',' !in dataUrl
    ensures r.Some? ==> ',' !in r.value && |r.value| < |dataUrl|
  {
    var parts := Split(dataUrl, ',');
    if |parts| > 1 then
      JoinSplit(dataUrl, ',');
      JoinLength(parts, ",");
      Some(parts[1])
    else None
  }

  /** The joined string is at least as long as any of its first two pieces plus a separator. */
  lemma JoinLength(parts: seq<string>, sep: string)
    requires |parts| > 1
    ensures |Join(parts, sep)| >= |parts[0]| + |sep| + |parts[1]|
  {
    if |parts| > 2 {
      assert Join(parts[1..], sep) == parts[1] + sep + Join(parts[2..], sep);
    }
  }

  /** For a data URL `header,data` whose two parts hold no comma, the payload is exactly `data`. */
  lemma DataUrlPayloadOf(header: string, data: string)
    requires ',' !in header && ',' !in data
    ensures DataUrlPayload(header + "," + data) == Some(data)
  {
    var parts := [header, data];
    assert Join(parts, ",") == header + "," + data by {
      assert parts[1..] == [data];
    }
    SplitJoin(parts, ',');
  }
}
