/** The extraction side of scripts/deploy/extract-pdf-content.py: the choice
    between PyMuPDF and Azure Document Intelligence (`extract_text_from_pdf`),
    the page assembly of `extract_with_pymupdf`, and the run over a directory
    with its success and failure accounting (`extract_all_pdfs`).

    The libraries are not modelled: a PDF as PyMuPDF reads it is a list of
    pages (or the error opening it raised), and the answer of Azure Document
    Intelligence is an input record (or the error the call raised). */
module PdfExtraction {
  import opened Wrappers
  import PyText
  import PathNames
  import CleanText

  /** One page as PyMuPDF returns it: its text and how many images it holds. */
  datatype Page = Page(text: string, images: nat)

  /** The part of Azure Document Intelligence's answer that is used. */
  datatype AzureDocument = AzureDocument(content: string, pageCount: nat, hasTables: bool)

  /** Extracted text and the metadata fields the run reads. */
  datatype Extracted = Extracted(text: string, pageCount: nat, extractor: string, hasImages: bool, hasTables: bool)

  const AzureMethod: string := "azure-document-intelligence"
  const PyMuPdfMethod: string := "pymupdf"
  const DirectReadMethod: string := "direct-read"
  const NoMethodMessage: string := "No PDF extraction method available. Install pymupdf or provide Azure credentials."

  /** `azure_endpoint and azure_key`: both given and non-empty. */
  predicate HasCredentials(endpoint: Option<string>, key: Option<string>) {
    endpoint.Some? && endpoint.value != "" && key.Some? && key.value != ""
  }

  // ---------------------------------------------------------------------------
  // `extract_text_from_pdf`: which extractor runs

  /** The branches of `extract_text_from_pdf`, in source order. */
  datatype Choice =
    | AzureFirst      // credentials, and forced or PyMuPDF missing
    | AzureForImages  // PyMuPDF ran and found images, and there are credentials
    | PyMuPdfText     // PyMuPDF's text is kept
    | AzureFallback   // PyMuPDF missing, credentials given: the fallback branch
    | NoMethod        // neither: `RuntimeError`

  predicate IsAzure(c: Choice) {
    c == AzureFirst || c == AzureForImages || c == AzureFallback
  }

  /** The decision table. `hasImages` is what PyMuPDF reported, when it ran. The
      fallback branch is never taken: the first test already covers it. */
  function Route(creds: bool, force: bool, pymupdf: bool, hasImages: bool): (c: Choice)
    ensures creds && force ==> IsAzure(c)
    ensures !creds ==> !IsAzure(c)
    ensures pymupdf && creds && hasImages ==> IsAzure(c)
    ensures c == NoMethod <==> !pymupdf && !creds
    ensures c != AzureFallback
    ensures c == PyMuPdfText ==> pymupdf && !(creds && (force || hasImages))
  {
    if creds && (force || !pymupdf) then AzureFirst
    else if pymupdf then (if creds && hasImages then AzureForImages else PyMuPdfText)
    else if creds then AzureFallback
    else NoMethod
  }

  // ---------------------------------------------------------------------------
  // `extract_with_pymupdf`: page assembly

  /** A page whose text is blank contributes nothing. */
  predicate IsBlankPage(p: Page) {
    PyText.Strip(p.text) == []
  }

  /** The section of page number `number` (1-based). */
  function Section(number: nat, text: string): string {
    "--- Side " + PyText.NatToString(number) + " ---\n" + text
  }

  /** The sections of the non-blank pages, in page order, each headed by its
      page's number among all pages. */
  function Sections(pages: seq<Page>): seq<string> {
    if pages == [] then []
    else
      var last := pages[|pages| - 1];
      Sections(pages[..|pages| - 1]) + (if IsBlankPage(last) then [] else [Section(|pages|, last.text)])
  }

  /** Some page holds an image. */
  predicate HasImages(pages: seq<Page>) {
    exists i :: 0 <= i < |pages| && pages[i].images > 0
  }

  /** The positions (0-based) of the non-blank pages, in increasing order,
      each a non-blank page; `NonBlankComplete` shows that none is missing. */
  function NonBlankIndices(pages: seq<Page>): (idx: seq<nat>)
    ensures forall k :: 0 <= k < |idx| ==> idx[k] < |pages| && !IsBlankPage(pages[idx[k]])
    ensures forall k, l :: 0 <= k < l < |idx| ==> idx[k] < idx[l]
  {
    if pages == [] then []
    else
      var init := pages[..|pages| - 1];
      var before := NonBlankIndices(init);
      assert forall k :: 0 <= k < |before| ==> pages[before[k]] == init[before[k]];
      before + (if IsBlankPage(pages[|pages| - 1]) then [] else [|pages| - 1])
  }

  /** Every non-blank page has its position in `NonBlankIndices`. */
  lemma {:induction false} NonBlankComplete(pages: seq<Page>)
    ensures forall i :: 0 <= i < |pages| && !IsBlankPage(pages[i]) ==> i in NonBlankIndices(pages)
  {
    if pages != [] {
      var init := pages[..|pages| - 1];
      NonBlankComplete(init);
      var before := NonBlankIndices(init);
      var extra := if IsBlankPage(pages[|pages| - 1]) then [] else [|pages| - 1];
      assert NonBlankIndices(pages) == before + extra;
      forall i | 0 <= i < |pages| && !IsBlankPage(pages[i]) ensures i in before + extra {
        if i < |init| {
          assert init[i] == pages[i];
          assert i in before;
        } else {
          assert (before + extra)[|before|] == i;
        }
      }
    }
  }

  /** Section `k` is the section of the `k`-th non-blank page. */
  lemma {:induction false} SectionsIndexed(pages: seq<Page>)
    ensures var idx := NonBlankIndices(pages);
      |Sections(pages)| == |idx|
      && forall k :: 0 <= k < |idx| ==> Sections(pages)[k] == Section(idx[k] + 1, pages[idx[k]].text)
  {
    if pages != [] {
      var init, last := pages[..|pages| - 1], pages[|pages| - 1];
      SectionsIndexed(init);
      var before, sections := NonBlankIndices(init), Sections(init);
      var extra := if IsBlankPage(last) then [] else [|pages| - 1];
      var tail := if IsBlankPage(last) then [] else [Section(|pages|, last.text)];
      assert Sections(pages) == sections + tail;
      assert NonBlankIndices(pages) == before + extra;
      forall k | 0 <= k < |before|
        ensures (sections + tail)[k] == Section((before + extra)[k] + 1, pages[(before + extra)[k]].text)
      {
        var i := before[k];
        assert (before + extra)[k] == i && (sections + tail)[k] == sections[k];
        assert pages[i] == init[i];
      }
    }
  }

  /** The sections are those of the non-blank pages, in page order, one each,
      each carrying its page's 1-based number; blank pages are dropped, so
      there are never more sections than pages. */
  lemma SectionsSpec(pages: seq<Page>)
    ensures var idx := NonBlankIndices(pages);
      |Sections(pages)| == |idx|
      && forall k :: 0 <= k < |idx| ==> Sections(pages)[k] == Section(idx[k] + 1, pages[idx[k]].text)
    ensures forall i :: 0 <= i < |pages| && !IsBlankPage(pages[i]) ==> i in NonBlankIndices(pages)
    ensures |Sections(pages)| <= |pages|
    ensures forall s :: s in Sections(pages) ==>
      exists i :: 0 <= i < |pages| && !IsBlankPage(pages[i]) && s == Section(i + 1, pages[i].text)
    ensures forall i :: 0 <= i < |pages| && !IsBlankPage(pages[i]) ==> Section(i + 1, pages[i].text) in Sections(pages)
  {
    SectionsIndexed(pages);
    NonBlankComplete(pages);
    SectionsShorter(pages);
    SectionsSound(pages);
    SectionsComplete(pages);
  }

  /** Never more sections than pages. */
  lemma {:induction false} SectionsShorter(pages: seq<Page>)
    ensures |Sections(pages)| <= |pages|
  {
    if pages != [] {
      SectionsShorter(pages[..|pages| - 1]);
    }
  }

  /** Every section comes from a non-blank page and carries its number. */
  lemma {:induction false} SectionsSound(pages: seq<Page>)
    ensures forall s :: s in Sections(pages) ==>
      exists i :: 0 <= i < |pages| && !IsBlankPage(pages[i]) && s == Section(i + 1, pages[i].text)
  {
    if pages != [] {
      var init, last := pages[..|pages| - 1], pages[|pages| - 1];
      var tail := if IsBlankPage(last) then [] else [Section(|pages|, last.text)];
      SectionsSound(init);
      assert Sections(pages) == Sections(init) + tail;
      forall s | s in Sections(pages)
        ensures exists i :: 0 <= i < |pages| && !IsBlankPage(pages[i]) && s == Section(i + 1, pages[i].text)
      {
        if s in Sections(init) {
          var i :| 0 <= i < |init| && !IsBlankPage(init[i]) && s == Section(i + 1, init[i].text);
          assert pages[i] == init[i];
        } else {
          assert s in tail;
          assert !IsBlankPage(pages[|pages| - 1]) && s == Section(|pages|, pages[|pages| - 1].text);
        }
      }
    }
  }

  /** Every non-blank page has its section. */
  lemma {:induction false} SectionsComplete(pages: seq<Page>)
    ensures forall i :: 0 <= i < |pages| && !IsBlankPage(pages[i]) ==> Section(i + 1, pages[i].text) in Sections(pages)
  {
    if pages != [] {
      var init, last := pages[..|pages| - 1], pages[|pages| - 1];
      var tail := if IsBlankPage(last) then [] else [Section(|pages|, last.text)];
      SectionsComplete(init);
      assert Sections(pages) == Sections(init) + tail;
      forall i | 0 <= i < |pages| && !IsBlankPage(pages[i]) ensures Section(i + 1, pages[i].text) in Sections(pages) {
        if i < |init| {
          assert pages[i] == init[i];
          assert Section(i + 1, init[i].text) in Sections(init);
        } else {
          assert Section(i + 1, pages[i].text) in tail;
        }
      }
    }
  }

  /** The page loop of `extract_with_pymupdf`: keeps a section per non-blank
      page, raises the image flag on any page with images, and joins the
      sections with blank lines. */
  method AssemblePages(pages: seq<Page>) returns (text: string, hasImages: bool)
    ensures text == PyText.Join(Sections(pages), "\n\n")
    ensures hasImages == HasImages(pages)
  {
    var sections: seq<string> := [];
    hasImages := false;
    for i := 0 to |pages|
      invariant sections == Sections(pages[..i])
      invariant hasImages == HasImages(pages[..i])
    {
      assert pages[..i + 1][..i] == pages[..i];
      var page := pages[i];
      if page.images > 0 {
        hasImages := true;
        assert pages[..i + 1][i] == page;
      } else if hasImages {
        var j :| 0 <= j < i && pages[..i][j].images > 0;
        assert pages[..i + 1][j] == pages[..i][j];
      } else {
        var upTo := pages[..i + 1];
        assert !HasImages(upTo) by {
          forall j | 0 <= j < |upTo| ensures upTo[j].images == 0 {
            if j < i { assert upTo[j] == pages[..i][j]; }
          }
        }
      }
      if !IsBlankPage(page) {
        sections := sections + [Section(i + 1, page.text)];
      }
    }
    assert pages[..|pages|] == pages;
    text := PyText.Join(sections, "\n\n");
  }

  /** What `extract_with_pymupdf` returns for the pages it read. */
  function PyMuPdfResult(pages: seq<Page>, stripHtml: bool): Extracted {
    Extracted(CleanText.Clean(PyText.Join(Sections(pages), "\n\n"), stripHtml), |pages|, PyMuPdfMethod, HasImages(pages), false)
  }

  /** What `extract_with_azure_di` returns, or the error it raised. */
  function AzureResult(azure: Result<AzureDocument, string>, stripHtml: bool): Result<Extracted, string> {
    match azure
    case Ok(d) => Ok(Extracted(CleanText.Clean(d.content, stripHtml), d.pageCount, AzureMethod, false, d.hasTables))
    case Err(e) => Err(e)
  }

  /** `extract_text_from_pdf` as a function of its inputs: PyMuPDF's reading of
      the file (`doc`), Azure's answer (`azure`), and the flags. */
  function Extraction(creds: bool, force: bool, pymupdf: bool, doc: Result<seq<Page>, string>,
                      azure: Result<AzureDocument, string>, stripHtml: bool): Result<Extracted, string>
  {
    match Route(creds, force, pymupdf, doc.Ok? && HasImages(doc.value))
    case PyMuPdfText => if doc.Err? then Err(doc.error) else Ok(PyMuPdfResult(doc.value, stripHtml))
    case NoMethod => Err(NoMethodMessage)
    case _ => AzureResult(azure, stripHtml)
  }

  /** The method the extracted text records is Azure's exactly when the route
      is, and with no credentials it is always PyMuPDF's or an error. */
  lemma ExtractionMethod(creds: bool, force: bool, pymupdf: bool, doc: Result<seq<Page>, string>,
                         azure: Result<AzureDocument, string>, stripHtml: bool)
    ensures var r := Extraction(creds, force, pymupdf, doc, azure, stripHtml);
      && (r.Ok? && r.value.extractor == AzureMethod <==> IsAzure(Route(creds, force, pymupdf, doc.Ok? && HasImages(doc.value))) && azure.Ok?)
      && (!creds ==> r.Err? || r.value.extractor == PyMuPdfMethod)
      && (!creds && !pymupdf ==> r == Err(NoMethodMessage))
  {
  }

  /** What an extraction records, by the method that made it. PyMuPDF's text
      is the cleaned join of the page sections; it counts every page it read,
      raises the image flag exactly when some page has images and never reports
      tables. Azure's text is its cleaned content; it keeps Azure's page count
      and table flag and never reports images. */
  lemma ExtractionRecords(creds: bool, force: bool, pymupdf: bool, doc: Result<seq<Page>, string>,
                          azure: Result<AzureDocument, string>, stripHtml: bool)
    ensures var r := Extraction(creds, force, pymupdf, doc, azure, stripHtml);
      r.Ok? && r.value.extractor == PyMuPdfMethod ==>
        && doc.Ok?
        && r.value.text == CleanText.Clean(PyText.Join(Sections(doc.value), "\n\n"), stripHtml)
        && r.value.pageCount == |doc.value|
        && r.value.hasImages == HasImages(doc.value)
        && !r.value.hasTables
    ensures var r := Extraction(creds, force, pymupdf, doc, azure, stripHtml);
      r.Ok? && r.value.extractor == AzureMethod ==>
        && azure.Ok?
        && r.value.text == CleanText.Clean(azure.value.content, stripHtml)
        && r.value.pageCount == azure.value.pageCount
        && !r.value.hasImages
        && r.value.hasTables == azure.value.hasTables
  {
  }

  /** The body of `extract_text_from_pdf`, branch by branch. */
  method ExtractTextFromPdf(creds: bool, force: bool, pymupdf: bool, doc: Result<seq<Page>, string>,
                            azure: Result<AzureDocument, string>, stripHtml: bool) returns (r: Result<Extracted, string>)
    ensures r == Extraction(creds, force, pymupdf, doc, azure, stripHtml)
  {
    if creds && (force || !pymupdf) {
      return AzureResult(azure, stripHtml);
    }
    if pymupdf {
      if doc.Err? {
        return Err(doc.error);
      }
      var joined, hasImages := AssemblePages(doc.value);
      var text := CleanText.Clean(joined, stripHtml);
      if creds && hasImages {
        return AzureResult(azure, stripHtml);
      }
      return Ok(Extracted(text, |doc.value|, PyMuPdfMethod, hasImages, false));
    }
    if creds {
      return AzureResult(azure, stripHtml);
    }
    return Err(NoMethodMessage);
  }

  // ---------------------------------------------------------------------------
  // `extract_all_pdfs`

  /** One file found in the input directory, with what reading it, PyMuPDF,
      Azure and writing its text out would give. */
  datatype SourceFile = SourceFile(
    name: string,
    read: Result<string, string>,
    doc: Result<seq<Page>, string>,
    azure: Result<AzureDocument, string>,
    writeError: Option<string>)

  /** One entry of the run's `files` list. */
  datatype FileResult =
    | Succeeded(filename: string, outputFile: string, pages: nat, characters: nat, words: nat,
                extractor: string, hasImages: bool, hasTables: bool)
    | Failed(filename: string, error: string)

  /** The run's summary. */
  datatype Summary = Summary(totalFiles: nat, successful: nat, failed: nat, extractor: string, files: seq<FileResult>)

  predicate SortedByName(files: seq<SourceFile>) {
    forall i :: 0 < i < |files| ==> PathNames.NameLe(files[i - 1].name, files[i].name)
  }

  /** `x` put into a list sorted by name, before the first name it does not follow. */
  function InsertByName(x: SourceFile, files: seq<SourceFile>): (r: seq<SourceFile>)
    requires SortedByName(files)
    ensures SortedByName(r) && multiset(r) == multiset(files) + multiset{x} && |r| == |files| + 1
    ensures r[0] == x || (files != [] && r[0] == files[0])
  {
    if files == [] || PathNames.NameLe(x.name, files[0].name) then [x] + files
    else
      PathNames.NameLeTotal(x.name, files[0].name);
      var rest := InsertByName(x, files[1..]);
      assert files == [files[0]] + files[1..];
      [files[0]] + rest
  }

  /** `sorted(all_files)`: the same files, in name order. */
  function SortByName(files: seq<SourceFile>): (r: seq<SourceFile>)
    ensures SortedByName(r) && multiset(r) == multiset(files) && |r| == |files|
  {
    if files == [] then []
    else
      assert files == [files[0]] + files[1..];
      InsertByName(files[0], SortByName(files[1..]))
  }

  /** What one file yields: a `.txt` file (in any case) is read as it is, with
      one page; any other file goes through `extract_text_from_pdf`; the text is
      then written to the stem plus `.txt`. An error at any step makes the file
      a failure with that error. */
  function FileOutcome(f: SourceFile, creds: bool, force: bool, pymupdf: bool, stripHtml: bool): FileResult {
    var extracted :=
      if PyText.Lower(PathNames.Suffix(f.name)) == ".txt" then
        match f.read
        case Ok(t) => Ok(Extracted(t, 1, DirectReadMethod, false, false))
        case Err(e) => Err(e)
      else Extraction(creds, force, pymupdf, f.doc, f.azure, stripHtml);
    match extracted
    case Err(e) => Failed(f.name, e)
    case Ok(x) =>
      if f.writeError.Some? then Failed(f.name, f.writeError.value)
      else Succeeded(f.name, PathNames.Stem(f.name) + ".txt", x.pageCount, |x.text|, |PyText.Words(x.text)|,
                     x.extractor, x.hasImages, x.hasTables)
  }

  /** The entry of a file names it; a success writes `<stem>.txt`; a `.txt`
      input that succeeds is a one-page direct read. */
  lemma FileOutcomeFacts(f: SourceFile, creds: bool, force: bool, pymupdf: bool, stripHtml: bool)
    ensures var r := FileOutcome(f, creds, force, pymupdf, stripHtml);
      && r.filename == f.name
      && (r.Succeeded? ==> r.outputFile == PathNames.Stem(f.name) + ".txt" && f.writeError.None?)
      && (r.Succeeded? && PyText.Lower(PathNames.Suffix(f.name)) == ".txt" ==> r.extractor == DirectReadMethod && r.pages == 1)
      && (r.Succeeded? && r.extractor == AzureMethod ==> creds)
  {
    if PyText.Lower(PathNames.Suffix(f.name)) != ".txt" {
      ExtractionMethod(creds, force, pymupdf, f.doc, f.azure, stripHtml);
    }
  }

  /** How many entries are successes. */
  function CountSucceeded(results: seq<FileResult>): (n: nat)
    ensures n <= |results|
  {
    if results == [] then 0
    else CountSucceeded(results[..|results| - 1]) + (if results[|results| - 1].Succeeded? then 1 else 0)
  }

  /** One more entry adds one to the count exactly when it is a success. */
  lemma CountSucceededAppend(results: seq<FileResult>, r: FileResult)
    ensures CountSucceeded(results + [r]) == CountSucceeded(results) + (if r.Succeeded? then 1 else 0)
  {
    assert (results + [r])[..|results|] == results;
  }

  /** The entries of the files, one per file and in their order. */
  function Outcomes(files: seq<SourceFile>, creds: bool, force: bool, pymupdf: bool, stripHtml: bool): seq<FileResult> {
    MapFiles((f: SourceFile) => FileOutcome(f, creds, force, pymupdf, stripHtml), files)
  }

  /** The entry `outcome` gives each file, in file order. */
  function MapFiles(outcome: SourceFile -> FileResult, files: seq<SourceFile>): seq<FileResult> {
    seq(|files|, k requires 0 <= k < |files| => outcome(files[k]))
  }

  /** One more file adds that file's entry. */
  lemma OutcomesStep(files: seq<SourceFile>, i: nat, creds: bool, force: bool, pymupdf: bool, stripHtml: bool)
    requires i < |files|
    ensures Outcomes(files[..i + 1], creds, force, pymupdf, stripHtml)
      == Outcomes(files[..i], creds, force, pymupdf, stripHtml) + [FileOutcome(files[i], creds, force, pymupdf, stripHtml)]
  {
    MapFilesStep((f: SourceFile) => FileOutcome(f, creds, force, pymupdf, stripHtml), files, i);
  }

  /** Mapping one more file appends its entry. */
  lemma MapFilesStep(outcome: SourceFile -> FileResult, files: seq<SourceFile>, i: nat)
    requires i < |files|
    ensures MapFiles(outcome, files[..i + 1]) == MapFiles(outcome, files[..i]) + [outcome(files[i])]
  {
    assert files[..i + 1][..i] == files[..i] && files[..i + 1][i] == files[i];
  }

  /** The method the summary reports. */
  function SummaryMethod(creds: bool): string {
    if creds then AzureMethod else PyMuPdfMethod
  }

  /** The body of the file loop of `extract_all_pdfs`: a `.txt` file is read
      directly, any other goes through `extract_text_from_pdf`; the entry
      records the failure or what was written. */
  method ExtractFile(file: SourceFile, creds: bool, force: bool, pymupdf: bool, stripHtml: bool)
    returns (outcome: FileResult)
    ensures outcome == FileOutcome(file, creds, force, pymupdf, stripHtml)
  {
    var extracted: Result<Extracted, string>;
    if PyText.Lower(PathNames.Suffix(file.name)) == ".txt" {
      extracted := if file.read.Ok? then Ok(Extracted(file.read.value, 1, DirectReadMethod, false, false))
                   else Err(file.read.error);
    } else {
      extracted := ExtractTextFromPdf(creds, force, pymupdf, file.doc, file.azure, stripHtml);
    }
    if extracted.Err? {
      outcome := Failed(file.name, extracted.error);
    } else if file.writeError.Some? {
      outcome := Failed(file.name, file.writeError.value);
    } else {
      var x := extracted.value;
      outcome := Succeeded(file.name, PathNames.Stem(file.name) + ".txt", x.pageCount, |x.text|,
                           |PyText.Words(x.text)|, x.extractor, x.hasImages, x.hasTables);
    }
  }

  /** The run: every file, in name order, adds one entry and raises exactly one
      of the two counters, so that the counters add up to the number of files;
      with no extraction method at all it stops before any file. */
  method ExtractAllPdfs(files: seq<SourceFile>, endpoint: Option<string>, key: Option<string>,
                        force: bool, pymupdf: bool, stripHtml: bool) returns (summary: Summary)
    ensures summary.totalFiles == |files|
    ensures summary.extractor == SummaryMethod(HasCredentials(endpoint, key))
    ensures !HasCredentials(endpoint, key) && !pymupdf ==>
      summary.successful == 0 && summary.failed == 0 && summary.files == []
    ensures HasCredentials(endpoint, key) || pymupdf ==>
      && summary.successful + summary.failed == summary.totalFiles == |summary.files|
      && summary.successful == CountSucceeded(summary.files)
      && summary.files == Outcomes(SortByName(files), HasCredentials(endpoint, key), force, pymupdf, stripHtml)
  {
    var creds := HasCredentials(endpoint, key);
    var extractor := SummaryMethod(creds);
    if !creds && !pymupdf {
      return Summary(|files|, 0, 0, extractor, []);
    }
    var sorted := SortByName(files);
    var results: seq<FileResult> := [];
    var successful, failed := 0, 0;
    for i := 0 to |sorted|
      invariant |results| == i && successful + failed == i
      invariant successful == CountSucceeded(results)
      invariant results == Outcomes(sorted[..i], creds, force, pymupdf, stripHtml)
    {
      var outcome := ExtractFile(sorted[i], creds, force, pymupdf, stripHtml);
      OutcomesStep(sorted, i, creds, force, pymupdf, stripHtml);
      CountSucceededAppend(results, outcome);
      results := results + [outcome];
      if outcome.Succeeded? {
        successful := successful + 1;
      } else {
        failed := failed + 1;
      }
    }
    assert sorted[..|sorted|] == sorted;
    summary := Summary(|files|, successful, failed, extractor, results);
  }
}
