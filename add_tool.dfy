/**
 * The form that creates a custom tool: training files are classified by MIME type and name,
 * read as text, extracted from PDF or DOCX, or read as a data URL, and kept as descriptors in a
 * list the user can prune; saving validates the name and prompt and stores the tool.
 *
 * The browser's file readers, pdf.js and mammoth are foreign: what each of them would deliver
 * for a file is part of that file's description here.
 */
module AddTool {
  import opened Wrappers
  import opened JsString
  import opened Database

  const PdfMime: string := "application/pdf"
  const DocxMime: string := "application/vnd.openxmlformats-officedocument.wordprocessingml.document"
  const JsonMime: string := "application/json"

  /** The extensions `/\.(txt|js|...|yml)$/i` accepts, in lower case. */
  const TextExtensions: seq<string> := ["txt", "js", "jsx", "ts", "tsx", "css", "html", "md", "csv", "json", "xml", "yaml", "yml"]

  /** What a `FileReader` delivers: its `result`, or an error event (which has no `message`). */
  datatype ReaderResult = Loaded(result: string) | ReaderError

  /**
   * A selected file: its name, MIME type and size, and what each way of reading it would give —
   * as a data URL, as text, as pdf.js pages of text items, or as mammoth's raw text.
   */
  datatype SelectedFile = SelectedFile(
    name: string, mime: string, size: nat,
    asDataUrl: ReaderResult, asText: ReaderResult,
    pdfPages: Result<seq<seq<string>>>, docxText: Result<string>)

  /** How `readFileContent` reads a file, in the order it tries them. */
  datatype ReadKind = ImageDataUrl | PdfText | DocxText | PlainText | OtherDataUrl

  /** One entry of the training-file list. Descriptors of failed reads have `error` set. */
  datatype FileDescriptor = FileDescriptor(
    name: string, mime: string, size: nat, content: string,
    isText: bool, isImage: bool, isPdf: bool, isDocx: bool, error: bool)

  predicate IsImage(mime: string) {
    StartsWith(mime, "image/")
  }

  /** The file is a PDF by type or by a `.pdf` name in any case. */
  predicate IsPdf(mime: string, name: string) {
    mime == PdfMime || EndsWith(Lower(name), ".pdf")
  }

  /** The file is a DOCX document by type or by a `.docx` name in any case. */
  predicate IsDocx(mime: string, name: string) {
    mime == DocxMime || EndsWith(Lower(name), ".docx")
  }

  /** The name ends with a dot and one of the text extensions, in any case. */
  predicate HasTextExtension(name: string) {
    exists k :: 0 <= k < |TextExtensions| && EndsWithIgnoreCase(name, "." + TextExtensions[k])
  }

  /** The file is read as text: a `text/` type, JSON, or a text extension. */
  predicate IsTextLike(mime: string, name: string) {
    StartsWith(mime, "text/") || mime == JsonMime || HasTextExtension(name)
  }

  /** The dispatch of `readFileContent`: images first, then PDF, then DOCX, then text, else a data URL. */
  function KindOf(mime: string, name: string): (r: ReadKind)
    ensures r == ImageDataUrl <==> IsImage(mime)
    ensures r == PdfText <==> !IsImage(mime) && IsPdf(mime, name)
    ensures r == DocxText <==> !IsImage(mime) && !IsPdf(mime, name) && IsDocx(mime, name)
    ensures r == PlainText <==> !IsImage(mime) && !IsPdf(mime, name) && !IsDocx(mime, name) && IsTextLike(mime, name)
    ensures r == OtherDataUrl <==> !IsImage(mime) && !IsPdf(mime, name) && !IsDocx(mime, name) && !IsTextLike(mime, name)
  {
    if IsImage(mime) then ImageDataUrl
    else if IsPdf(mime, name) then PdfText
    else if IsDocx(mime, name) then DocxText
    else if IsTextLike(mime, name) then PlainText
    else OtherDataUrl
  }

  /** A `.PDF` name, in any case, is read as a PDF unless the type says image. */
  lemma UpperCasePdfName(mime: string, stem: string)
    requires !IsImage(mime)
    ensures KindOf(mime, stem + ".PDF") == PdfText
  {
    var name := stem + ".PDF";
    var lower := Lower(name);
    assert lower[|lower| - 4..] == ".pdf" by {
      assert name[|name| - 4..] == ".PDF";
    }
  }

  /** `.json` is one of the text extensions, so a JSON file with an unknown type is read as text. */
  lemma JsonNameIsText(mime: string, stem: string)
    requires !IsImage(mime) && !IsPdf(mime, stem + ".json") && !IsDocx(mime, stem + ".json")
    ensures KindOf(mime, stem + ".json") == PlainText
  {
    var name := stem + ".json";
    assert TextExtensions[9] == "json";
    var lower := Lower(name);
    assert lower[|lower| - 5..] == ".json" by {
      assert name[|name| - 5..] == ".json";
    }
    assert EndsWithIgnoreCase(name, "." + TextExtensions[9]);
  }

  /** The text of a page: its items joined with single spaces. */
  function PageText(items: seq<string>): string {
    Join(items, " ")
  }

  /** The running text of `extractTextFromPDF` before trimming: each page's text followed by a blank line. */
  function PagesText(pages: seq<seq<string>>): string
    decreases |pages|
  {
    if pages == [] then ""
    else
      var n := |pages| - 1;
      PagesText(pages[..n]) + PageText(pages[n]) + "\n\n"
  }

  /** The page texts, in page order. */
  function PageTexts(pages: seq<seq<string>>): (r: seq<string>)
    ensures |r| == |pages|
    ensures forall k :: 0 <= k < |pages| ==> r[k] == PageText(pages[k])
  {
    seq(|pages|, k requires 0 <= k < |pages| => PageText(pages[k]))
  }

  /**
   * `extractTextFromPDF` on the pages pdf.js delivers: the loop over the pages appends each
   * page's text and a blank line; the whole is trimmed.
   */
  method ExtractTextFromPdf(pages: seq<seq<string>>) returns (text: string)
    ensures text == Trim(PagesText(pages))
  {
    var fullText := "";
    var i := 0;
    while i < |pages|
      invariant 0 <= i <= |pages|
      invariant fullText == PagesText(pages[..i])
    {
      var pageText := PageText(pages[i]);
      fullText := fullText + pageText + "\n\n";
      assert pages[..i + 1][..i] == pages[..i];
      i := i + 1;
    }
    assert pages[..i] == pages;
    text := Trim(fullText);
  }

  /** The running text is the page texts joined by blank lines, with one more blank line at the end. */
  lemma {:induction false} PagesTextIsJoin(pages: seq<seq<string>>)
    requires pages != []
    ensures PagesText(pages) == Join(PageTexts(pages), "\n\n") + "\n\n"
    decreases |pages|
  {
    var n := |pages| - 1;
    if n == 0 {
      assert PagesText(pages[..0]) == "";
    } else {
      PagesTextIsJoin(pages[..n]);
      JoinSnoc(PageTexts(pages[..n]), PageText(pages[n]), "\n\n");
      assert PageTexts(pages[..n]) + [PageText(pages[n])] == PageTexts(pages);
    }
  }

  /** Joining one more part adds the separator and the part at the end. */
  lemma {:induction false} JoinSnoc(parts: seq<string>, last: string, sep: string)
    requires parts != []
    ensures Join(parts + [last], sep) == Join(parts, sep) + sep + last
    decreases |parts|
  {
    if |parts| == 1 {
      assert (parts + [last])[1..] == [last];
    } else {
      JoinSnoc(parts[1..], last, sep);
      assert (parts + [last])[1..] == parts[1..] + [last];
    }
  }

  /** The extracted text is the page texts joined by blank lines, trimmed; no pages give the empty string. */
  lemma PdfTextIsTrimmedJoin(pages: seq<seq<string>>)
    ensures Trim(PagesText(pages)) == Trim(Join(PageTexts(pages), "\n\n"))
  {
    if pages != [] {
      PagesTextIsJoin(pages);
      TrimTrailingSpace(Join(PageTexts(pages), "\n\n"), "\n\n");
    }
  }

  /** What a `FileReader` promise resolves to, or the message of its rejection (`undefined` for an error event). */
  function ReaderContent(r: ReaderResult): (c: Result<string>)
    ensures r.Loaded? <==> c.Success?
  {
    match r
    case Loaded(s) => Success(s)
    case ReaderError => Failure("undefined")
  }

  /** What `readFileContent` resolves to for a file, or the message of the error it throws. */
  function FileContent(file: SelectedFile): (r: Result<string>)
    ensures KindOf(file.mime, file.name) == ImageDataUrl ==> r == ReaderContent(file.asDataUrl)
    ensures KindOf(file.mime, file.name) == PdfText && file.pdfPages.Success? ==> r == Success(Trim(PagesText(file.pdfPages.value)))
    ensures KindOf(file.mime, file.name) == PdfText && file.pdfPages.Failure? ==>
      r == Failure("Failed to extract text from PDF: " + file.pdfPages.error)
    ensures KindOf(file.mime, file.name) == DocxText && file.docxText.Failure? ==>
      r == Failure("Failed to extract text from DOCX: " + file.docxText.error)
    ensures KindOf(file.mime, file.name) == DocxText && file.docxText.Success? ==> r == file.docxText
    ensures KindOf(file.mime, file.name) == PlainText ==> r == ReaderContent(file.asText)
    ensures KindOf(file.mime, file.name) == OtherDataUrl ==> r == ReaderContent(file.asDataUrl)
  {
    match KindOf(file.mime, file.name)
    case ImageDataUrl => ReaderContent(file.asDataUrl)
    case PdfText =>
      (match file.pdfPages
       case Success(pages) => Success(Trim(PagesText(pages)))
       case Failure(e) => Failure("Failed to extract text from PDF: " + e))
    case DocxText =>
      (match file.docxText
       case Success(text) => Success(text)
       case Failure(e) => Failure("Failed to extract text from DOCX: " + e))
    case PlainText => ReaderContent(file.asText)
    case OtherDataUrl => ReaderContent(file.asDataUrl)
  }

  /** `readFileContent`: dispatch on the kind of file, extracting PDF text page by page. */
  method ReadFileContent(file: SelectedFile) returns (r: Result<string>)
    ensures r == FileContent(file)
  {
    var kind := KindOf(file.mime, file.name);
    if kind == PdfText {
      if file.pdfPages.Success? {
        var text := ExtractTextFromPdf(file.pdfPages.value);
        r := Success(text);
      } else {
        r := Failure("Failed to extract text from PDF: " + file.pdfPages.error);
      }
    } else {
      r := FileContent(file);
    }
  }

  /** The prefix of the content of a descriptor for a file that could not be read. */
  const ReadErrorPrefix: string := "Error reading file: "

  /** The descriptor built for a file from what reading it gave. */
  function DescriptorOf(file: SelectedFile, content: Result<string>): FileDescriptor {
    match content
    case Success(c) =>
      var isPdf := IsPdf(file.mime, file.name);
      var isDocx := IsDocx(file.mime, file.name);
      FileDescriptor(file.name, file.mime, file.size, c,
                     IsTextLike(file.mime, file.name) || isPdf || isDocx, IsImage(file.mime), isPdf, isDocx, false)
    case Failure(e) =>
      FileDescriptor(file.name, file.mime, file.size, ReadErrorPrefix + e, false, false, false, false, true)
  }

  /** The descriptor `handleFileSelect` builds for one file. */
  function Describe(file: SelectedFile): (d: FileDescriptor)
    ensures d.name == file.name && d.mime == file.mime && d.size == file.size
    ensures d.error <==> FileContent(file).Failure?
    ensures d.error ==> d.content == ReadErrorPrefix + FileContent(file).error && !d.isText && !d.isImage
    ensures !d.error ==> d.content == FileContent(file).value
  {
    DescriptorOf(file, FileContent(file))
  }

  /** Every readable PDF and DOCX file is marked as text; images are marked as images. */
  lemma DescriptorFlags(file: SelectedFile)
    ensures var d := Describe(file);
      && (!d.error && (IsPdf(file.mime, file.name) || IsDocx(file.mime, file.name)) ==> d.isText && (d.isPdf || d.isDocx))
      && (!d.error ==> (d.isImage <==> IsImage(file.mime)))
      && (!d.error && KindOf(file.mime, file.name) == PlainText ==> d.isText)
  {
  }

  /** A file whose reader fails is described by the reader's missing message. */
  lemma ReaderErrorDescriptor(file: SelectedFile)
    requires KindOf(file.mime, file.name) in {ImageDataUrl, PlainText, OtherDataUrl}
    requires (if KindOf(file.mime, file.name) == PlainText then file.asText else file.asDataUrl) == ReaderError
    ensures Describe(file).content == "Error reading file: undefined" && Describe(file).error
  {
  }

  /** The descriptors of a selection, one per file, in selection order. */
  function Descriptors(files: seq<SelectedFile>): (r: seq<FileDescriptor>)
    ensures |r| == |files|
    ensures forall k :: 0 <= k < |files| ==> r[k] == Describe(files[k])
  {
    seq(|files|, k requires 0 <= k < |files| => Describe(files[k]))
  }

  /** `prev.filter((_, i) => i !== index)`, one position at a time from `from`. */
  function FilterOutIndex(entries: seq<FileDescriptor>, index: int, from: nat): seq<FileDescriptor>
    requires from <= |entries|
    decreases |entries| - from
  {
    if from == |entries| then []
    else (if from == index then [] else [entries[from]]) + FilterOutIndex(entries, index, from + 1)
  }

  /** `removeFile(index)`: the list without the entry at `index`. */
  function RemoveAt(entries: seq<FileDescriptor>, index: int): seq<FileDescriptor> {
    FilterOutIndex(entries, index, 0)
  }

  /** Filtering a stretch that does not hold `index` keeps it whole. */
  lemma {:induction false} FilterOutIndexKeeps(entries: seq<FileDescriptor>, index: int, from: nat)
    requires from <= |entries|
    requires index < from || index >= |entries|
    ensures FilterOutIndex(entries, index, from) == entries[from..]
    decreases |entries| - from
  {
    if from < |entries| {
      FilterOutIndexKeeps(entries, index, from + 1);
      assert entries[from..] == [entries[from]] + entries[from + 1..];
    }
  }

  /** Filtering a stretch that holds `index` drops exactly that entry. */
  lemma {:induction false} FilterOutIndexDrops(entries: seq<FileDescriptor>, index: int, from: nat)
    requires from <= index < |entries|
    ensures FilterOutIndex(entries, index, from) == entries[from..index] + entries[index + 1..]
    decreases |entries| - from
  {
    var rest := FilterOutIndex(entries, index, from + 1);
    assert FilterOutIndex(entries, index, from) == (if from == index then [] else [entries[from]]) + rest;
    if from == index {
      FilterOutIndexKeeps(entries, index, from + 1);
      assert entries[from..index] == [];
      assert [] + rest == rest;
    } else {
      FilterOutIndexDrops(entries, index, from + 1);
      calc {
        [entries[from]] + rest;
        [entries[from]] + (entries[from + 1..index] + entries[index + 1..]);
        ([entries[from]] + entries[from + 1..index]) + entries[index + 1..];
        { assert entries[from..index] == [entries[from]] + entries[from + 1..index]; }
        entries[from..index] + entries[index + 1..];
      }
    }
  }

  /** `removeFile` takes out exactly the entry at an index in range and keeps the rest in order; any other index changes nothing. */
  lemma RemoveAtSlices(entries: seq<FileDescriptor>, index: int)
    ensures 0 <= index < |entries| ==> RemoveAt(entries, index) == entries[..index] + entries[index + 1..]
    ensures !(0 <= index < |entries|) ==> RemoveAt(entries, index) == entries
  {
    if 0 <= index < |entries| {
      FilterOutIndexDrops(entries, index, 0);
      assert entries[0..index] == entries[..index];
    } else {
      FilterOutIndexKeeps(entries, index, 0);
    }
  }

  /** The training documents a saved tool carries: each descriptor reduced to name, type, content and the two flags. */
  function TrainingDocs(files: seq<FileDescriptor>): (r: seq<TrainingDoc>)
    ensures |r| == |files|
    ensures forall k :: 0 <= k < |files| ==>
      r[k] == TrainingDoc(files[k].name, files[k].mime, files[k].content, files[k].isText, files[k].isImage)
  {
    seq(|files|, k requires 0 <= k < |files| => TrainingDoc(files[k].name, files[k].mime, files[k].content, files[k].isText, files[k].isImage))
  }

  const NameMissing: string := "Please enter a tool name"
  const PromptMissing: string := "Please enter a prompt"
  const SaveFailed: string := "Failed to save tool. Please try again."

  /** The state of the form. */
  class AddToolForm {
    var toolName: string
    var prompt: string
    var trainingFiles: seq<FileDescriptor>
    var isSaving: bool
    var error: Option<string>

    /** An empty form. */
    constructor()
      ensures toolName == "" && prompt == "" && trainingFiles == [] && !isSaving && error.None?
    {
      toolName, prompt, trainingFiles, isSaving, error := "", "", [], false, None;
    }

    /**
     * `handleFileSelect`: an empty selection changes nothing; otherwise one descriptor per file,
     * in selection order, goes after the existing entries. A file that cannot be read gets an
     * error descriptor and does not affect the others.
     */
    method HandleFileSelect(files: seq<SelectedFile>)
      modifies this
      ensures trainingFiles == old(trainingFiles) + Descriptors(files)
      ensures toolName == old(toolName) && prompt == old(prompt) && isSaving == old(isSaving) && error == old(error)
    {
      if |files| == 0 {
        assert Descriptors(files) == [];
        return;
      }
      var fileData: seq<FileDescriptor> := [];
      var i := 0;
      while i < |files|
        invariant 0 <= i <= |files|
        invariant fileData == Descriptors(files[..i])
        invariant unchanged(this)
      {
        var content := ReadFileContent(files[i]);
        fileData := fileData + [DescriptorOf(files[i], content)];
        i := i + 1;
      }
      assert files[..i] == files;
      trainingFiles := trainingFiles + fileData;
    }

    /** `removeFile(index)`. */
    method RemoveFile(index: int)
      modifies this
      ensures trainingFiles == RemoveAt(old(trainingFiles), index)
      ensures toolName == old(toolName) && prompt == old(prompt) && isSaving == old(isSaving) && error == old(error)
    {
      trainingFiles := RemoveAt(trainingFiles, index);
    }

    /**
     * `handleSave`: a blank name, then a blank prompt, stops with an error and saves nothing.
     * Otherwise the tool is inserted with the trimmed name and prompt and the projected training
     * documents; success clears the form, failure keeps it and shows the service's message or a
     * fallback. Saving is over either way.
     */
    method HandleSave(db: Tables, userId: string, now: Timestamp, newId: string, outage: Option<string>)
      returns (after: Tables, created: Option<CustomToolRow>)
      modifies this
      ensures Blank(old(toolName)) ==>
        && after == db && created.None? && error == Some(NameMissing)
        && toolName == old(toolName) && prompt == old(prompt) && trainingFiles == old(trainingFiles) && isSaving == old(isSaving)
      ensures !Blank(old(toolName)) && Blank(old(prompt)) ==>
        && after == db && created.None? && error == Some(PromptMissing)
        && toolName == old(toolName) && prompt == old(prompt) && trainingFiles == old(trainingFiles) && isSaving == old(isSaving)
      ensures !Blank(old(toolName)) && !Blank(old(prompt)) ==>
        var reply := InsertCustomTool(db, Trim(old(toolName)), Trim(old(prompt)), TrainingDocs(old(trainingFiles)), userId, now, newId, outage);
        && after == reply.db && !isSaving
        && (reply.result.Success? ==>
              && created == Some(reply.result.value) && error.None?
              && toolName == "" && prompt == "" && trainingFiles == [])
        && (reply.result.Failure? ==>
              && created.None?
              && error == Some(if reply.result.error != "" then reply.result.error else SaveFailed)
              && toolName == old(toolName) && prompt == old(prompt) && trainingFiles == old(trainingFiles))
    {
      after, created := db, None;
      if Blank(toolName) {
        error := Some(NameMissing);
        return;
      }
      if Blank(prompt) {
        error := Some(PromptMissing);
        return;
      }
      isSaving := true;
      error := None;
      var docs := TrainingDocs(trainingFiles);
      var reply := InsertCustomTool(db, Trim(toolName), Trim(prompt), docs, userId, now, newId, outage);
      after := reply.db;
      if reply.result.Success? {
        created := Some(reply.result.value);
        toolName, prompt, trainingFiles := "", "", [];
      } else {
        error := Some(if reply.result.error != "" then reply.result.error else SaveFailed);
      }
      isSaving := false;
    }
  }
}
