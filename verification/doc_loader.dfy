/** Document extraction: the extension table, the per-format handlers and the
    ingestion walk over a directory tree (services/doc_loader.py).

    The parsing libraries (PDF, DOCX, Unstructured, Excel, textract) are
    opaque: a `Library` value says what each of them returns or raises for a
    given path. The walk's enumeration order is the order of the `PathEntry`
    sequence it is given. */
module DocLoader {
  import opened Outcomes
  import opened Documents
  import opened Sequences

  /** The handler functions named in the extension table. */
  datatype Handler = HandlePdf | HandleDocx | HandleDoc | HandleExcel | HandleTextLike

  /** The foreign loader classes whose `load()` the handlers call. */
  datatype Loader = PyPdfLoader | Docx2txtLoader | UnstructuredExcelLoader | UnstructuredLoader

  /** What the foreign libraries do with a file path: a loader returns its
      documents or raises; textract returns the file's text, or raises when
      extraction or the UTF-8 decode fails (the error carries the message). */
  datatype Library = Library(
    load: (Loader, string) -> Result<seq<Document>, string>,
    textract: string -> Result<string, string>)

  /** One path yielded by the recursive glob: its string form, its final
      component, and whether it is a regular file. */
  datatype PathEntry = PathEntry(filePath: string, name: string, isFile: bool)

  // ---------------------------------------------------------------------------
  // Metadata stamping

  function Stamp(d: Document, filename: string): Document {
    d.(metadata := d.metadata[SourceKey := filename])
  }

  /** Sets the `source` metadata of every document to `filename`; count,
      order, content and every other metadata entry are kept. */
  function AddMetadata(docs: seq<Document>, filename: string): (r: seq<Document>)
    ensures |r| == |docs|
    ensures forall i :: 0 <= i < |r| ==> HasSource(r[i], filename) && r[i].content == docs[i].content
    ensures forall i :: 0 <= i < |r| ==> r[i].metadata.Keys == docs[i].metadata.Keys + {SourceKey}
    ensures forall i, k :: 0 <= i < |r| && k in docs[i].metadata && k != SourceKey ==>
              r[i].metadata[k] == docs[i].metadata[k]
    decreases |docs|
  {
    if |docs| == 0 then [] else [Stamp(docs[0], filename)] + AddMetadata(docs[1..], filename)
  }

  /** Stamping twice is stamping once with the later name: the stamp
      overwrites, it never accumulates. */
  lemma {:induction false} AddMetadataLastWins(docs: seq<Document>, first: string, second: string)
    ensures AddMetadata(AddMetadata(docs, first), second) == AddMetadata(docs, second)
    decreases |docs|
  {
    if |docs| > 0 {
      var once := AddMetadata(docs, first);
      assert once[1..] == AddMetadata(docs[1..], first);
      AddMetadataLastWins(docs[1..], first, second);
      assert Stamp(Stamp(docs[0], first), second) == Stamp(docs[0], second);
    }
  }

  // ---------------------------------------------------------------------------
  // Extension of a file name

  /** `str.rfind(c)`: the index of the last occurrence of `c` in `s`, or -1. */
  function RFind(s: string, c: char): (i: int)
    ensures -1 <= i < |s|
    ensures i >= 0 ==> s[i] == c
    ensures forall j :: i < j < |s| ==> s[j] != c
    decreases |s|
  {
    if |s| == 0 then -1
    else if s[|s| - 1] == c then |s| - 1
    else RFind(s[..|s| - 1], c)
  }

  /** `PurePath.suffix`: the name from its last dot on, provided that dot is
      neither the first nor the last character of the name; otherwise "". */
  function Suffix(name: string): (ext: string)
    ensures ext != "" ==>
              && |ext| >= 2 && ext[0] == '.' && '.' !in ext[1..]
              && |ext| < |name| && name[|name| - |ext|..] == ext
    ensures ext != "" <==> exists i :: 0 < i < |name| - 1 && name[i] == '.' && '.' !in name[i + 1..]
  {
    var i := RFind(name, '.');
    if 0 < i < |name| - 1 then
      assert forall j :: i < j < |name| ==> name[j] != '.';
      assert name[i..][1..] == name[i + 1..];
      name[i..]
    else
      assert forall k :: 0 < k < |name| - 1 && name[k] == '.' ==> '.' in name[k + 1..] by {
        forall k | 0 < k < |name| - 1 && name[k] == '.'
          ensures '.' in name[k + 1..]
        {
          assert k <= i;
          assert name[k + 1..][i - k - 1] == name[i];
        }
      }
      ""
  }

  /** ASCII case folding of one character. */
  function LowerChar(c: char): char {
    if 'A' <= c <= 'Z' then (c as int + 32) as char else c
  }

  /** `str.lower()` restricted to ASCII letters. */
  function Lower(s: string): (r: string)
    ensures |r| == |s|
    ensures forall i :: 0 <= i < |s| ==> r[i] == LowerChar(s[i])
  {
    seq(|s|, i requires 0 <= i < |s| => LowerChar(s[i]))
  }

  lemma {:induction false} RFindLower(s: string)
    ensures RFind(Lower(s), '.') == RFind(s, '.')
    decreases |s|
  {
    if |s| > 0 {
      assert Lower(s)[..|s| - 1] == Lower(s[..|s| - 1]);
      RFindLower(s[..|s| - 1]);
    }
  }

  /** Taking the extension and lower-casing commute, because case folding
      never creates or removes a dot. */
  lemma SuffixLowerCommutes(name: string)
    ensures Lower(Suffix(name)) == Suffix(Lower(name))
  {
    RFindLower(name);
    var i := RFind(name, '.');
    if 0 < i < |name| - 1 {
      assert Lower(name)[i..] == Lower(name[i..]);
    }
  }

  // ---------------------------------------------------------------------------
  // The extension table

  /** A well-formed extension: a dot followed by at least one character, no further dots. */
  predicate IsExtension(e: string) {
    |e| >= 2 && e[0] == '.' && '.' !in e[1..]
  }

  lemma RFindIsLast(s: string, c: char, i: int)
    requires 0 <= i < |s| && s[i] == c
    requires forall j :: i < j < |s| ==> s[j] != c
    ensures RFind(s, c) == i
  {
  }

  /** Any file whose name is a non-empty stem followed by a well-formed
      extension has exactly that extension. */
  lemma SuffixOfStemAndExtension(stem: string, e: string)
    requires stem != "" && IsExtension(e)
    ensures Suffix(stem + e) == e
  {
    var name := stem + e;
    forall j | |stem| < j < |name|
      ensures name[j] != '.'
    {
      assert name[j] == e[1..][j - |stem| - 1];
    }
    RFindIsLast(name, '.', |stem|);
    assert name[|stem|..] == e;
  }

  /** The table's extensions are already lower-case and well-formed. */
  lemma TableExtensionsWellFormed()
    ensures Lower(".pdf") == ".pdf" && Lower(".docx") == ".docx" && Lower(".doc") == ".doc"
    ensures Lower(".txt") == ".txt" && Lower(".md") == ".md" && Lower(".rtf") == ".rtf"
    ensures Lower(".xlsx") == ".xlsx"
    ensures IsExtension(".pdf") && IsExtension(".docx") && IsExtension(".doc") && IsExtension(".txt")
    ensures IsExtension(".md") && IsExtension(".rtf") && IsExtension(".xlsx")
  {
    assert Lower(".pdf") == ".pdf";
    assert Lower(".docx") == ".docx";
    assert Lower(".doc") == ".doc";
    assert Lower(".txt") == ".txt";
    assert Lower(".md") == ".md";
    assert Lower(".rtf") == ".rtf";
    assert Lower(".xlsx") == ".xlsx";
  }

  /** `EXTENSION_DISPATCHER`: the six fixed entries, plus `.xlsx` only when
      the Excel loader could be imported. */
  function ExtensionDispatcher(excelSupported: bool): (table: map<string, Handler>)
    ensures ".xlsx" in table <==> excelSupported
    ensures table.Keys == {".pdf", ".docx", ".doc", ".txt", ".md", ".rtf"} + (if excelSupported then {".xlsx"} else {})
    ensures ".pdf" in table && table[".pdf"] == HandlePdf
    ensures ".docx" in table && table[".docx"] == HandleDocx
    ensures ".doc" in table && table[".doc"] == HandleDoc
    ensures ".txt" in table && table[".txt"] == HandleTextLike
    ensures ".md" in table && table[".md"] == HandleTextLike
    ensures ".rtf" in table && table[".rtf"] == HandleTextLike
    ensures excelSupported ==> table[".xlsx"] == HandleExcel
    ensures forall e :: e in table ==> Lower(e) == e && IsExtension(e)
    ensures forall e :: e in table && table[e] == HandleExcel ==> excelSupported
  {
    TableExtensionsWellFormed();
    var base := map[
      ".pdf" := HandlePdf, ".docx" := HandleDocx, ".doc" := HandleDoc,
      ".txt" := HandleTextLike, ".md" := HandleTextLike, ".rtf" := HandleTextLike];
    if excelSupported then base[".xlsx" := HandleExcel] else base
  }

  /** The handler `load_documents` picks for a file name: the table entry of
      its lower-cased extension, if any. */
  function HandlerFor(excelSupported: bool, name: string): (r: Option<Handler>)
    ensures r.Some? <==> Lower(Suffix(name)) in ExtensionDispatcher(excelSupported)
    ensures r.Some? ==> Suffix(name) != "" && r.value == ExtensionDispatcher(excelSupported)[Lower(Suffix(name))]
    ensures r == Some(HandleExcel) ==> excelSupported
  {
    var ext := Lower(Suffix(name));
    var table := ExtensionDispatcher(excelSupported);
    if ext in table then Some(table[ext]) else None
  }

  /** A file named by a non-empty stem and a table extension goes to that
      extension's handler, whatever the case of its letters; in particular a
      `.xlsx` file finds a handler only when Excel support is on. */
  lemma DispatchByExtension(excelSupported: bool, stem: string, ext: string, name: string)
    requires stem != "" && ext in ExtensionDispatcher(excelSupported)
    requires Lower(name) == Lower(stem + ext)
    ensures HandlerFor(excelSupported, name) == Some(ExtensionDispatcher(excelSupported)[ext])
  {
    SuffixOfStemAndExtension(stem, ext);
    DispatchIgnoresCase(excelSupported, name, stem + ext);
  }

  /** Which files the walk processes, and with which handler: for any
      non-empty stem, each of the seven extensions reaches its handler,
      `.xlsx` only with Excel support on. */
  lemma KnownExtensionsDispatch(excelSupported: bool, stem: string)
    requires stem != ""
    ensures HandlerFor(excelSupported, stem + ".pdf") == Some(HandlePdf)
    ensures HandlerFor(excelSupported, stem + ".docx") == Some(HandleDocx)
    ensures HandlerFor(excelSupported, stem + ".doc") == Some(HandleDoc)
    ensures HandlerFor(excelSupported, stem + ".txt") == Some(HandleTextLike)
    ensures HandlerFor(excelSupported, stem + ".md") == Some(HandleTextLike)
    ensures HandlerFor(excelSupported, stem + ".rtf") == Some(HandleTextLike)
    ensures HandlerFor(excelSupported, stem + ".xlsx") == if excelSupported then Some(HandleExcel) else None
  {
    TableExtensionsWellFormed();
    StemDispatch(excelSupported, stem, ".pdf");
    StemDispatch(excelSupported, stem, ".docx");
    StemDispatch(excelSupported, stem, ".doc");
    StemDispatch(excelSupported, stem, ".txt");
    StemDispatch(excelSupported, stem, ".md");
    StemDispatch(excelSupported, stem, ".rtf");
    StemDispatch(excelSupported, stem, ".xlsx");
  }

  /** One well-formed, lower-case extension after a non-empty stem is looked
      up as itself. */
  lemma StemDispatch(excelSupported: bool, stem: string, ext: string)
    requires stem != "" && IsExtension(ext) && Lower(ext) == ext
    ensures HandlerFor(excelSupported, stem + ext)
            == if ext in ExtensionDispatcher(excelSupported) then Some(ExtensionDispatcher(excelSupported)[ext]) else None
  {
    SuffixOfStemAndExtension(stem, ext);
  }

  /** Dispatch ignores case: `REPORT.PDF` is handled like `report.pdf`. */
  lemma DispatchIgnoresCase(excelSupported: bool, name1: string, name2: string)
    requires Lower(name1) == Lower(name2)
    ensures HandlerFor(excelSupported, name1) == HandlerFor(excelSupported, name2)
  {
    SuffixLowerCommutes(name1);
    SuffixLowerCommutes(name2);
  }

  // ---------------------------------------------------------------------------
  // Handlers

  /** A loader's outcome with every produced document stamped with `filename`. */
  function WithSource(loaded: Result<seq<Document>, string>, filename: string): Result<seq<Document>, string> {
    match loaded
    case Ok(docs) => Ok(AddMetadata(docs, filename))
    case Err(e) => Err(e)
  }

  /** `handle_doc`: the extracted text as a single document, none when the
      text is empty; extraction and decode failures propagate. */
  function HandleDocFile(lib: Library, filePath: string, filename: string): (r: Result<seq<Document>, string>)
    ensures r.Err? <==> lib.textract(filePath).Err?
    ensures r.Ok? ==> |r.value| <= 1 && (r.value == [] <==> lib.textract(filePath).value == "")
    ensures r.Ok? ==> forall d :: d in r.value ==>
              d.content == lib.textract(filePath).value && d.metadata == map[SourceKey := filename]
  {
    match lib.textract(filePath)
    case Err(e) => Err(e)
    case Ok(text) =>
      if text != "" then Ok([Document(text, map[SourceKey := filename])]) else Ok([])
  }

  /** `handle_excel`: nothing at all when Excel support is off, otherwise
      the Excel loader's documents stamped with `filename`. */
  function HandleExcelFile(excelSupported: bool, lib: Library, filePath: string, filename: string)
    : (r: Result<seq<Document>, string>)
    ensures !excelSupported ==> r == Ok([])
    ensures excelSupported ==> (r.Err? <==> lib.load(UnstructuredExcelLoader, filePath).Err?)
    ensures excelSupported && r.Ok? ==> r.value == AddMetadata(lib.load(UnstructuredExcelLoader, filePath).value, filename)
    ensures r.Ok? ==> forall d :: d in r.value ==> HasSource(d, filename)
  {
    if !excelSupported then Ok([])
    else WithSource(lib.load(UnstructuredExcelLoader, filePath), filename)
  }

  /** The loader behind each loader-backed handler; `handle_doc` uses
      `textract` instead. */
  function LoaderOf(h: Handler): Option<Loader> {
    match h
    case HandlePdf => Some(PyPdfLoader)
    case HandleDocx => Some(Docx2txtLoader)
    case HandleDoc => None
    case HandleExcel => Some(UnstructuredExcelLoader)
    case HandleTextLike => Some(UnstructuredLoader)
  }

  /** Runs one handler of the table on one file. A loader-backed handler
      (with Excel support on, for the Excel one) raises exactly when its
      loader does, and otherwise returns the loader's documents, stamped. */
  function RunHandler(h: Handler, excelSupported: bool, lib: Library, filePath: string, filename: string)
    : (r: Result<seq<Document>, string>)
    ensures r.Ok? ==> forall d :: d in r.value ==> HasSource(d, filename)
    ensures LoaderOf(h).Some? && (h == HandleExcel ==> excelSupported) ==>
              && (r.Err? <==> lib.load(LoaderOf(h).value, filePath).Err?)
              && (r.Ok? ==> r.value == AddMetadata(lib.load(LoaderOf(h).value, filePath).value, filename))
    ensures h == HandleDoc ==> r == HandleDocFile(lib, filePath, filename)
    ensures h == HandleExcel && !excelSupported ==> r == Ok([])
  {
    match h
    case HandlePdf => WithSource(lib.load(PyPdfLoader, filePath), filename)
    case HandleDocx => WithSource(lib.load(Docx2txtLoader, filePath), filename)
    case HandleDoc => HandleDocFile(lib, filePath, filename)
    case HandleExcel => HandleExcelFile(excelSupported, lib, filePath, filename)
    case HandleTextLike => WithSource(lib.load(UnstructuredLoader, filePath), filename)
  }

  // ---------------------------------------------------------------------------
  // The ingestion walk

  /** What one path contributes to the walk's output: nothing for a
      non-file, an unknown extension or a handler that raised. */
  function FileDocuments(e: PathEntry, excelSupported: bool, lib: Library): (r: seq<Document>)
    ensures r != [] ==> e.isFile && HandlerFor(excelSupported, e.name).Some?
    ensures e.isFile && HandlerFor(excelSupported, e.name).Some?
            && RunHandler(HandlerFor(excelSupported, e.name).value, excelSupported, lib, e.filePath, e.name).Ok? ==>
              r == RunHandler(HandlerFor(excelSupported, e.name).value, excelSupported, lib, e.filePath, e.name).value
  {
    if !e.isFile then []
    else match HandlerFor(excelSupported, e.name)
      case None => []
      case Some(h) =>
        match RunHandler(h, excelSupported, lib, e.filePath, e.name)
        case Ok(docs) => docs
        case Err(_) => []
  }

  /** A path contributes documents only when it is a regular file with a
      table extension whose handler completed; they are that handler's
      documents, each citing the file. */
  lemma FileDocumentsCited(e: PathEntry, excelSupported: bool, lib: Library)
    ensures forall d :: d in FileDocuments(e, excelSupported, lib) ==> HasSource(d, e.name)
    ensures FileDocuments(e, excelSupported, lib) != [] ==>
              && e.isFile && HandlerFor(excelSupported, e.name).Some?
              && RunHandler(HandlerFor(excelSupported, e.name).value, excelSupported, lib, e.filePath, e.name)
                 == Ok(FileDocuments(e, excelSupported, lib))
  {
  }

  /** A non-file, a file with no table extension, or a file whose handler
      raises contributes nothing. */
  lemma SkippedContributesNothing(e: PathEntry, excelSupported: bool, lib: Library)
    requires !e.isFile || HandlerFor(excelSupported, e.name).None?
             || RunHandler(HandlerFor(excelSupported, e.name).value, excelSupported, lib, e.filePath, e.name).Err?
    ensures FileDocuments(e, excelSupported, lib) == []
  {
  }

  /** `FileDocuments` for a fixed Excel flag and library. */
  function Contribution(excelSupported: bool, lib: Library): PathEntry -> seq<Document> {
    e => FileDocuments(e, excelSupported, lib)
  }

  /** Reference definition of the walk: each path's contribution,
      concatenated in enumeration order. */
  function Ingested(entries: seq<PathEntry>, excelSupported: bool, lib: Library): seq<Document> {
    FlatMap(Contribution(excelSupported, lib), entries)
  }

  lemma IngestedStep(entries: seq<PathEntry>, i: nat, excelSupported: bool, lib: Library)
    requires i < |entries|
    ensures Ingested(entries[..i + 1], excelSupported, lib)
            == Ingested(entries[..i], excelSupported, lib) + FileDocuments(entries[i], excelSupported, lib)
  {
    FlatMapStep(Contribution(excelSupported, lib), entries, i);
  }

  /** `load_documents`: walks the paths in order, skips non-files and
      unknown extensions, and drops the output of any file whose handler
      raised while carrying on with the next file. */
  method LoadDocuments(entries: seq<PathEntry>, excelSupported: bool, lib: Library) returns (docs: seq<Document>)
    ensures docs == Ingested(entries, excelSupported, lib)
    ensures forall d :: d in docs ==>
              exists j :: 0 <= j < |entries| && entries[j].isFile && HasSource(d, entries[j].name)
  {
    docs := [];
    var i := 0;
    while i < |entries|
      invariant 0 <= i <= |entries|
      invariant docs == Ingested(entries[..i], excelSupported, lib)
    {
      var path := entries[i];
      IngestedStep(entries, i, excelSupported, lib);
      if !path.isFile {
        i := i + 1;
        continue;
      }
      var ext := Lower(Suffix(path.name));
      var table := ExtensionDispatcher(excelSupported);
      if ext in table {
        var outcome := RunHandler(table[ext], excelSupported, lib, path.filePath, path.name);
        match outcome {
          case Ok(produced) =>
            docs := docs + produced;
          case Err(_) =>
        }
      }
      i := i + 1;
    }
    assert entries[..i] == entries;
    IngestedSourced(entries, excelSupported, lib);
  }

  /** Every ingested document names, as its source, a regular file of the walk. */
  lemma {:induction false} IngestedSourced(entries: seq<PathEntry>, excelSupported: bool, lib: Library)
    ensures forall d :: d in Ingested(entries, excelSupported, lib) ==>
              exists j :: 0 <= j < |entries| && entries[j].isFile && HasSource(d, entries[j].name)
    decreases |entries|
  {
    if |entries| == 0 {
      assert Ingested(entries, excelSupported, lib) == [];
    } else {
      var n := |entries| - 1;
      IngestedStep(entries, n, excelSupported, lib);
      assert entries[..n + 1] == entries;
      IngestedSourced(entries[..n], excelSupported, lib);
      forall d | d in Ingested(entries, excelSupported, lib)
        ensures exists j :: 0 <= j < |entries| && entries[j].isFile && HasSource(d, entries[j].name)
      {
        if d in Ingested(entries[..n], excelSupported, lib) {
          var j :| 0 <= j < n && entries[..n][j].isFile && HasSource(d, entries[..n][j].name);
          assert entries[j] == entries[..n][j];
        } else {
          FileDocumentsCited(entries[n], excelSupported, lib);
          assert d in FileDocuments(entries[n], excelSupported, lib);
        }
      }
    }
  }

  /** The walk is compositional: the output for `a + b` is the output for
      `a` followed by the output for `b`. */
  lemma IngestedAppend(a: seq<PathEntry>, b: seq<PathEntry>, excelSupported: bool, lib: Library)
    ensures Ingested(a + b, excelSupported, lib) == Ingested(a, excelSupported, lib) + Ingested(b, excelSupported, lib)
  {
    FlatMapAppend(Contribution(excelSupported, lib), a, b);
  }

  /** One path's place in the walk: its contribution sits between the
      output of the paths before it and of the paths after it. */
  lemma IngestedAround(before: seq<PathEntry>, e: PathEntry, after: seq<PathEntry>,
                       excelSupported: bool, lib: Library)
    ensures Ingested(before + [e] + after, excelSupported, lib)
            == Ingested(before, excelSupported, lib) + FileDocuments(e, excelSupported, lib) + Ingested(after, excelSupported, lib)
  {
    var f := Contribution(excelSupported, lib);
    FlatMapAppend(f, before + [e], after);
    FlatMapAppend(f, before, [e]);
    FlatMapSingleton(f, e);
  }

  /** A path that contributes nothing can be dropped from the walk. */
  lemma IngestedDropsEmpty(before: seq<PathEntry>, e: PathEntry, after: seq<PathEntry>,
                           excelSupported: bool, lib: Library)
    requires FileDocuments(e, excelSupported, lib) == []
    ensures Ingested(before + [e] + after, excelSupported, lib)
            == Ingested(before, excelSupported, lib) + Ingested(after, excelSupported, lib)
  {
    var f := Contribution(excelSupported, lib);
    FlatMapAppend(f, before + [e], after);
    FlatMapAppend(f, before, [e]);
    FlatMapSingleton(f, e);
  }

  /** Error isolation: a file whose handler raises, or that is skipped,
      removes only its own contribution; the files before and after it
      contribute exactly what they would without it. */
  lemma FailedFileIsolated(before: seq<PathEntry>, e: PathEntry, after: seq<PathEntry>, excelSupported: bool, lib: Library)
    requires !e.isFile || HandlerFor(excelSupported, e.name).None?
             || RunHandler(HandlerFor(excelSupported, e.name).value, excelSupported, lib, e.filePath, e.name).Err?
    ensures Ingested(before + [e] + after, excelSupported, lib)
            == Ingested(before, excelSupported, lib) + Ingested(after, excelSupported, lib)
  {
    SkippedContributesNothing(e, excelSupported, lib);
    IngestedDropsEmpty(before, e, after, excelSupported, lib);
  }

  /** A regular file with a table extension whose handler completes
      contributes exactly the handler's documents, in place, between the
      output of the paths before it and of the paths after it. */
  lemma SuccessfulFileIngested(before: seq<PathEntry>, e: PathEntry, after: seq<PathEntry>,
                               excelSupported: bool, lib: Library)
    requires e.isFile && HandlerFor(excelSupported, e.name).Some?
    requires RunHandler(HandlerFor(excelSupported, e.name).value, excelSupported, lib, e.filePath, e.name).Ok?
    ensures Ingested(before + [e] + after, excelSupported, lib)
            == Ingested(before, excelSupported, lib)
               + RunHandler(HandlerFor(excelSupported, e.name).value, excelSupported, lib, e.filePath, e.name).value
               + Ingested(after, excelSupported, lib)
  {
    IngestedAround(before, e, after, excelSupported, lib);
  }
}
