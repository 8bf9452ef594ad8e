/**
 * Handling of a file dropped on the upload widget: the type is read from the
 * name, the text is extracted by type (a zip archive gives a list of named
 * files), and the result is framed into the context prompt sent with the
 * user's query. The session state behind the widget (the zip flag and the
 * uploader key) is the `Session` class. The decoders for PDF, RTF and CSV
 * are oracles; a zip archive is given as its listing of entries.
 */
module DropFile {
  import opened Wrappers
  import opened Text

  /** The byte order mark U+FEFF. */
  const Bom: char := '\U{FEFF}'

  /** A member of a zip archive. `content` is `None` when reading the
      extracted member as text raises (the source prints and skips it). */
  datatype ArchiveEntry = ArchiveEntry(name: string, isDirectory: bool, content: Option<string>)

  /** An uploaded file: its name, its contents decoded as UTF-8, and the
      listing it has when opened as a zip archive. */
  datatype UploadedFile = UploadedFile(name: string, text: string, archive: seq<ArchiveEntry>)

  /** The third-party decoders: PDF pages to text, RTF to text, and the
      rows of a CSV text to a JSON array. */
  datatype Decoders = Decoders(pdfToText: UploadedFile -> string, rtfToText: string -> string,
                               csvToJson: string -> string)

  /** What extraction gives: text, or (for a zip archive) the (name, content)
      pairs of its files. */
  datatype Extracted = Text(text: string) | Files(files: seq<(string, string)>)

  /** `file.name.split('.')[-1].lower()` */
  function FileType(name: string): (t: string)
    ensures |t| <= |name|
  {
    var parts := Split(name, '.');
    SplitLastPart(name, '.');
    ToLower(parts[|parts| - 1])
  }

  /** The type is the lower-cased text after the last '.', or the whole name
      lower-cased when it has no '.'. */
  lemma FileTypeAfterLastDot(name: string)
    ensures var t := FileType(name);
      var ext := name[|name| - |t|..];
      t == ToLower(ext) && '.' !in ext && (|t| == |name| || name[|name| - |t| - 1] == '.')
  {
    SplitLastPart(name, '.');
  }

  lemma FileTypeOfExtension(stem: string, ext: string)
    requires '.' !in ext
    ensures FileType(stem + "." + ext) == ToLower(ext)
  {
    SplitAfterSep(stem, ext, '.');
  }

  lemma FileTypeWithoutDot(name: string)
    requires '.' !in name
    ensures FileType(name) == ToLower(name)
  {
    SplitWithoutSep(name, '.');
  }

  /** The BOM strip of `extract_jason_from_csv`. */
  function StripBom(s: string): (r: string)
    ensures |s| - 1 <= |r| <= |s|
    ensures r == s[|s| - |r|..]
  {
    if [Bom] <= s then s[1..] else s
  }

  /** A leading BOM is removed once (a second one stays), and nothing else
      is ever removed. */
  lemma StripBomOnce(s: string)
    ensures StripBom([Bom] + s) == s
    ensures s == [] || s[0] != Bom ==> StripBom(s) == s
    ensures StripBom(s) != s ==> s == [Bom] + StripBom(s)
  {
    assert ([Bom] + s)[1..] == s;
  }

  /** `extract_jason_from_csv`, given the decoded text. */
  function ExtractJsonFromCsv(text: string, csvToJson: string -> string): string {
    csvToJson(StripBom(text))
  }

  /** A zip member is listed unless its name starts with "__MACOSX", it is a
      directory, or reading it fails. */
  predicate Kept(e: ArchiveEntry) {
    !("__MACOSX" <= e.name) && !e.isDirectory && e.content.Some?
  }

  /** The (name, content) pairs of the kept members, in archive order. */
  function KeptFiles(entries: seq<ArchiveEntry>): seq<(string, string)>
    decreases |entries|
  {
    if entries == [] then []
    else
      var e := entries[|entries| - 1];
      KeptFiles(entries[..|entries| - 1]) + (if Kept(e) then [(e.name, e.content.value)] else [])
  }

  /** Filtering an archive is filtering its parts, in order. */
  lemma {:induction false} KeptFilesAppend(a: seq<ArchiveEntry>, b: seq<ArchiveEntry>)
    ensures KeptFiles(a + b) == KeptFiles(a) + KeptFiles(b)
    decreases |b|
  {
    if b == [] {
      assert a + b == a;
    } else {
      var front := b[..|b| - 1];
      KeptFilesAppend(a, front);
      assert (a + b)[..|a + b| - 1] == a + front;
    }
  }

  /** A pair is listed exactly when some kept member has that name and content. */
  lemma {:induction false} KeptFilesMembers(entries: seq<ArchiveEntry>, name: string, content: string)
    ensures (name, content) in KeptFiles(entries) <==>
      exists i :: 0 <= i < |entries| && Kept(entries[i]) && entries[i].name == name && entries[i].content == Some(content)
    decreases |entries|
  {
    if entries != [] {
      var front := entries[..|entries| - 1];
      KeptFilesMembers(front, name, content);
      var e := entries[|entries| - 1];
      if (name, content) in KeptFiles(entries) && (name, content) !in KeptFiles(front) {
        assert Kept(e) && e.name == name && e.content == Some(content);
      }
      if exists i :: 0 <= i < |entries| && Kept(entries[i]) && entries[i].name == name && entries[i].content == Some(content) {
        var i :| 0 <= i < |entries| && Kept(entries[i]) && entries[i].name == name && entries[i].content == Some(content);
        if i < |front| {
          assert front[i] == entries[i];
        }
      }
    }
  }

  /** No listed name starts with "__MACOSX". */
  lemma {:induction false} KeptFilesSkipMacosx(entries: seq<ArchiveEntry>)
    ensures forall k :: 0 <= k < |KeptFiles(entries)| ==> !("__MACOSX" <= KeptFiles(entries)[k].0)
    decreases |entries|
  {
    if entries != [] {
      KeptFilesSkipMacosx(entries[..|entries| - 1]);
    }
  }

  /** `extract_text_from_zip`, over the archive's listing. */
  method ExtractTextFromZip(entries: seq<ArchiveEntry>) returns (extractedFiles: seq<(string, string)>)
    ensures extractedFiles == KeptFiles(entries)
  {
    extractedFiles := [];
    for i := 0 to |entries|
      invariant extractedFiles == KeptFiles(entries[..i])
    {
      var entry := entries[i];
      if !("__MACOSX" <= entry.name) {
        if !entry.isDirectory {
          if entry.content.Some? {
            extractedFiles := extractedFiles + [(entry.name, entry.content.value)];
          }
        }
      }
      assert entries[..i + 1][..i] == entries[..i];
    }
    assert entries[..|entries|] == entries;
  }

  /** What `extract_text_from_different_file_types` returns for a file. */
  function Extraction(file: UploadedFile, decoders: Decoders): Extracted {
    var t := FileType(file.name);
    if t == "zip" then Files(KeptFiles(file.archive))
    else if t == "pdf" then Text(decoders.pdfToText(file))
    else if t == "txt" then Text(file.text)
    else if t == "rtf" then Text(decoders.rtfToText(file.text))
    else if t == "csv" then Text(ExtractJsonFromCsv(file.text, decoders.csvToJson))
    else Text(file.text)
  }

  /** Only a zip archive gives a file list; a type the dispatch does not know
      is read as plain text, and a CSV is converted after its BOM is dropped. */
  lemma ExtractionByType(file: UploadedFile, decoders: Decoders)
    ensures Extraction(file, decoders).Files? <==> FileType(file.name) == "zip"
    ensures FileType(file.name) !in {"zip", "pdf", "rtf", "csv"} ==> Extraction(file, decoders) == Text(file.text)
    ensures FileType(file.name) == "csv" ==>
      Extraction(file, decoders) == Text(decoders.csvToJson(StripBom(file.text)))
  {
  }

  /** The block `change_to_prompt_text` writes for one extracted file. */
  function FileBlock(file: (string, string)): string {
    "File: \n" + file.0 + "\n\nContent: \n" + file.1 + "\n\n" + "-----\n"
  }

  /** The blocks of all files, in order. */
  function FileBlocks(files: seq<(string, string)>): string
    decreases |files|
  {
    if files == [] then "" else FileBlocks(files[..|files| - 1]) + FileBlock(files[|files| - 1])
  }

  lemma {:induction false} FileBlocksAppend(a: seq<(string, string)>, b: seq<(string, string)>)
    ensures FileBlocks(a + b) == FileBlocks(a) + FileBlocks(b)
    decreases |b|
  {
    if b == [] {
      assert a + b == a;
    } else {
      var front := b[..|b| - 1];
      var last := b[|b| - 1];
      FileBlocksAppend(a, front);
      assert (a + b)[..|a + b| - 1] == a + front;
      assert (a + b)[|a + b| - 1] == last;
      assert FileBlocks(a + b) == FileBlocks(a + front) + FileBlock(last);
      assert FileBlocks(b) == FileBlocks(front) + FileBlock(last);
    }
  }

  /** Every block has the file's name and content at fixed offsets and ends
      with the separator line. */
  lemma FileBlockLayout(file: (string, string))
    ensures var b := FileBlock(file);
      var n := |"File: \n"|;
      var c := n + |file.0| + |"\n\nContent: \n"|;
      b[n..n + |file.0|] == file.0 && b[c..c + |file.1|] == file.1 && EndsWith(b, "\n\n-----\n")
  {
  }

  /** The frame around the context text and the query. */
  const FrameHead: string :=
    "```\n" + "Context information from a file (or files) and their contents is below.\n"
    + "---------------------\n"
  const FrameRule: string :=
    "\n" + "---------------------\n" + "Given the information above answer the query below.\n"

  /** The prompt `change_to_prompt_text` returns around a context text. */
  function WrapPrompt(promptText: string, userPrompt: string): string {
    FrameHead + promptText + FrameRule + ("Query: " + userPrompt) + "\nAnswer: " + "\n```"
  }

  /** The prompt opens the code fence, holds the context text verbatim after
      the heading lines, and ends with "Query: " + the query + "\nAnswer: "
      and the closing fence. */
  lemma WrapPromptLayout(promptText: string, userPrompt: string)
    ensures var p := WrapPrompt(promptText, userPrompt);
      "```\n" <= p && EndsWith(p, "\n```")
      && p[|FrameHead|..|FrameHead| + |promptText|] == promptText
      && EndsWith(p, "Query: " + userPrompt + "\nAnswer: " + "\n```")
  {
  }

  /** The upload widget's session state. */
  class Session {
    var zipFile: bool
    var fileUploaderKey: int

    /** The state a page sets up on its first run. */
    constructor ()
      ensures !zipFile && fileUploaderKey == 0
    {
      zipFile := false;
      fileUploaderKey := 0;
    }

    /** `increment_file_uploader_key` */
    method IncrementFileUploaderKey()
      modifies this
      ensures fileUploaderKey == old(fileUploaderKey) + 1 && zipFile == old(zipFile)
    {
      fileUploaderKey := fileUploaderKey + 1;
    }

    /** `extract_text_from_different_file_types`: the zip flag records whether
        the file was a zip archive. */
    method ExtractTextFromDifferentFileTypes(file: UploadedFile, decoders: Decoders) returns (extracted: Extracted)
      modifies this
      ensures extracted == Extraction(file, decoders)
      ensures zipFile <==> FileType(file.name) == "zip"
      ensures zipFile <==> extracted.Files?
      ensures fileUploaderKey == old(fileUploaderKey)
    {
      var fileType := FileType(file.name);
      zipFile := false;
      if fileType == "zip" {
        zipFile := true;
        var files := ExtractTextFromZip(file.archive);
        extracted := Files(files);
      } else if fileType == "pdf" {
        extracted := Text(decoders.pdfToText(file));
      } else if fileType == "txt" || fileType == "rtf" {
        var rawText := file.text;
        extracted := Text(if fileType == "rtf" then decoders.rtfToText(rawText) else rawText);
      } else if fileType == "csv" {
        extracted := Text(ExtractJsonFromCsv(file.text, decoders.csvToJson));
      } else {
        extracted := Text(file.text);
      }
    }

    /** `change_to_prompt_text`: with the zip flag set, one block per file in
        order, and the flag is cleared; otherwise the text as it is. Either
        way the context is framed with the query. */
    method ChangeToPromptText(extracted: Extracted, userPrompt: string) returns (llmPrompt: string)
      requires zipFile <==> extracted.Files?
      modifies this
      ensures extracted.Files? ==> llmPrompt == WrapPrompt(FileBlocks(extracted.files), userPrompt)
      ensures extracted.Text? ==> llmPrompt == WrapPrompt(extracted.text, userPrompt)
      ensures !zipFile && fileUploaderKey == old(fileUploaderKey)
    {
      var promptText: string;
      if zipFile {
        var files := extracted.files;
        promptText := "";
        for i := 0 to |files|
          invariant promptText == FileBlocks(files[..i])
        {
          var (filename, content) := files[i];
          promptText := promptText + "File: \n" + filename + "\n\nContent: \n" + content + "\n\n";
          promptText := promptText + "-----\n";
          assert files[..i + 1][..i] == files[..i];
        }
        assert files[..|files|] == files;
        zipFile := false;
      } else {
        promptText := extracted.text;
      }
      llmPrompt := WrapPrompt(promptText, userPrompt);
    }
  }
}
