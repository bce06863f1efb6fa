/**
 * The document upload endpoint: `POST` classifies an uploaded file and
 * answers with its metadata and a preview; `GET` lists what it accepts.
 */
module UploadRoute {
  import opened Wrappers
  import opened JsText

  /** An uploaded file: its name, its size in bytes, and what `file.text()` gives. */
  datatype File = File(name: string, size: nat, text: Outcome<string>)

  /** The parsed multipart form; a field that was not sent is None (`null`). */
  datatype UploadForm = UploadForm(file: Option<File>, title: Option<string>, source: Option<string>)

  datatype DocumentType = Text | Markdown | Html | Json

  /** The JSON body and status of the response. */
  datatype UploadResponse =
    | Uploaded(fileName: string, fileSize: nat, documentType: DocumentType, title: string,
               source: string, contentLength: nat, contentPreview: string)
    | Failed(status: nat, error: string, details: Option<string>)

  const NoFileError := "No file provided"
  const ProcessingError := "Failed to process upload"
  const DefaultSource := "upload"
  const PreviewLength := 200
  const Ellipsis := "..."

  /** `s.split(sep).pop()`: the text after the last `sep`, or all of `s` when it has none. */
  function LastSegment(s: string, sep: char): (r: string)
    ensures |r| <= |s| && r == s[|s| - |r|..]
    ensures sep !in r
    ensures |r| < |s| ==> s[|s| - |r| - 1] == sep
  {
    if s == [] || s[|s| - 1] == sep then []
    else
      var r := LastSegment(s[..|s| - 1], sep) + [s[|s| - 1]];
      assert s[..|s| - 1][|s| - |r|..] + [s[|s| - 1]] == s[|s| - |r|..];
      r
  }

  /** `file.name.split('.').pop()?.toLowerCase()`. */
  function FileExtension(name: string): (ext: string)
    ensures |ext| <= |name| && '.' !in ext
    ensures ext == ToLower(name[|name| - |ext|..])
    ensures |ext| < |name| ==> name[|name| - |ext| - 1] == '.'
  {
    var l := LastSegment(name, '.');
    assert forall i :: 0 <= i < |l| ==> LowerChar(l[i]) != '.' by {
      forall i | 0 <= i < |l| ensures LowerChar(l[i]) != '.' { assert l[i] != '.'; }
    }
    ToLower(l)
  }

  /** The `switch` on the extension; anything unlisted is plain text. */
  function Classify(ext: string): (t: DocumentType)
    ensures t == Markdown <==> ext in {"md", "markdown"}
    ensures t == Html <==> ext in {"html", "htm"}
    ensures t == Json <==> ext == "json"
    ensures t == Text <==> ext !in {"md", "markdown", "html", "htm", "json"}
  {
    if ext == "md" || ext == "markdown" then Markdown
    else if ext == "html" || ext == "htm" then Html
    else if ext == "json" then Json
    else Text
  }

  /** The type `POST` reports for a file name. */
  function DocumentTypeOf(name: string): (t: DocumentType)
    ensures '.' !in name ==> t == Classify(ToLower(name))
    ensures t != Text ==> exists k :: 0 <= k <= |name| && Classify(ToLower(name[k..])) == t
  {
    Classify(FileExtension(name))
  }

  /** The name a document type has in the JSON answer. */
  function TypeName(t: DocumentType): string
  {
    match t
    case Text => "text"
    case Markdown => "markdown"
    case Html => "html"
    case Json => "json"
  }

  /** `given || fallback` for a form field that is a string or `null`. */
  function OrDefault(given: Option<string>, fallback: string): (r: string)
    ensures given.Some? && given.value != "" ==> r == given.value
    ensures given.None? || given.value == "" ==> r == fallback
  {
    if given.Some? && given.value != "" then given.value else fallback
  }

  /** `content.substring(0, 200) + (content.length > 200 ? '...' : '')`. */
  function ContentPreview(content: string): (p: string)
    ensures |p| <= PreviewLength + |Ellipsis|
    ensures |content| <= PreviewLength ==> p == content
    ensures |content| > PreviewLength ==>
              |p| == PreviewLength + |Ellipsis|
              && p[..PreviewLength] == content[..PreviewLength] && p[PreviewLength..] == Ellipsis
  {
    Take(content, PreviewLength) + (if |content| > PreviewLength then Ellipsis else "")
  }

  /** `POST`: a missing file is refused first; any thrown error becomes a 500 answer. */
  function HandleUpload(form: Outcome<UploadForm>): (r: UploadResponse)
    ensures form.Thrown? ==> r == Failed(500, ProcessingError, Some(form.message))
    ensures form.Ok? && form.value.file.None? ==> r == Failed(400, NoFileError, None)
    ensures form.Ok? && form.value.file.Some? && form.value.file.value.text.Thrown? ==>
              r == Failed(500, ProcessingError, Some(form.value.file.value.text.message))
    ensures r.Uploaded? <==> form.Ok? && form.value.file.Some? && form.value.file.value.text.Ok?
    ensures r.Uploaded? ==>
              var f := form.value.file.value;
              var content := f.text.value;
              && r.fileName == f.name && r.fileSize == f.size
              && r.documentType == DocumentTypeOf(f.name)
              && r.title == OrDefault(form.value.title, f.name)
              && r.source == OrDefault(form.value.source, DefaultSource)
              && r.contentLength == |content|
              && r.contentPreview == ContentPreview(content)
  {
    match form
    case Thrown(msg) => Failed(500, ProcessingError, Some(msg))
    case Ok(UploadForm(None, _, _)) => Failed(400, NoFileError, None)
    case Ok(UploadForm(Some(f), title, source)) =>
      match f.text
      case Thrown(msg) => Failed(500, ProcessingError, Some(msg))
      case Ok(content) =>
        Uploaded(f.name, f.size, DocumentTypeOf(f.name), OrDefault(title, f.name),
                 OrDefault(source, DefaultSource), |content|, ContentPreview(content))
  }

  /** `GET`: the document types and the file extensions the endpoint advertises. */
  const SupportedTypes: seq<string> := ["text", "markdown", "html", "json"]
  const SupportedExtensions: seq<string> := [".txt", ".md", ".markdown", ".html", ".htm", ".json"]

  /** The three facts that pin down the text after the last separator. */
  predicate IsLastSegment(s: string, sep: char, r: string)
  {
    |r| <= |s| && r == s[|s| - |r|..] && sep !in r && (|r| < |s| ==> s[|s| - |r| - 1] == sep)
  }

  /** Only one string is the text after the last separator. */
  lemma LastSegmentUnique(s: string, sep: char, r: string)
    requires IsLastSegment(s, sep, r)
    ensures r == LastSegment(s, sep)
  {
  }

  /** Taking the last segment commutes with ASCII lower-casing, which never makes or removes a '.'. */
  lemma LastSegmentOfLower(s: string)
    ensures LastSegment(ToLower(s), '.') == ToLower(LastSegment(s, '.'))
  {
    var l := LastSegment(s, '.');
    var ls := ToLower(s);
    var r := ToLower(l);
    assert r == ls[|ls| - |r|..];
    assert '.' !in r by {
      forall i | 0 <= i < |r| ensures r[i] != '.' { assert l[i] != '.'; }
    }
    LastSegmentUnique(ls, '.', r);
  }

  /** The classification ignores the case of the file name. */
  lemma CaseInsensitive(name1: string, name2: string)
    requires ToLower(name1) == ToLower(name2)
    ensures DocumentTypeOf(name1) == DocumentTypeOf(name2)
  {
    LastSegmentOfLower(name1);
    LastSegmentOfLower(name2);
    ToLowerIdempotent(LastSegment(name1, '.'));
    ToLowerIdempotent(LastSegment(name2, '.'));
  }

  lemma ToLowerIdempotent(s: string)
    ensures ToLower(ToLower(s)) == ToLower(s)
  {
  }

  /** The extension is what follows the last '.'. */
  lemma ExtensionAfterLastDot(base: string, ext: string)
    requires '.' !in ext
    ensures FileExtension(base + "." + ext) == ToLower(ext)
  {
    var s := base + "." + ext;
    assert s[|s| - |ext| - 1] == '.';
    assert s[|s| - |ext|..] == ext;
  }

  /** A name with no '.' is its own extension. */
  lemma WholeNameWithoutDot(name: string)
    requires '.' !in name
    ensures FileExtension(name) == ToLower(name)
  {
  }

  lemma ClassifiedAs(base: string, ext: string, t: DocumentType)
    requires '.' !in ext && ToLower(ext) == ext && Classify(ext) == t
    ensures DocumentTypeOf(base + "." + ext) == t
  {
    ExtensionAfterLastDot(base, ext);
  }

  /** The `POST` type of each advertised extension, in the order `GET` lists them. */
  const AdvertisedTypes: seq<DocumentType> := [Text, Markdown, Markdown, Html, Html, Json]

  /** How `POST` classifies a file named with the i-th advertised extension. */
  lemma AdvertisedExtensionType(base: string, i: nat)
    requires i < |SupportedExtensions|
    ensures DocumentTypeOf(base + SupportedExtensions[i]) == AdvertisedTypes[i]
  {
    var ext := SupportedExtensions[i][1..];
    assert base + SupportedExtensions[i] == base + "." + ext;
    if i == 0 {
      ClassifiedAs(base, "txt", Text);
    } else if i == 1 {
      ClassifiedAs(base, "md", Markdown);
    } else if i == 2 {
      ClassifiedAs(base, "markdown", Markdown);
    } else if i == 3 {
      ClassifiedAs(base, "html", Html);
    } else if i == 4 {
      ClassifiedAs(base, "htm", Html);
    } else {
      ClassifiedAs(base, "json", Json);
    }
  }

  /** The advertised types, one per advertised extension, are exactly the advertised type names. */
  lemma AdvertisedTypesCover()
    ensures forall i :: 0 <= i < |AdvertisedTypes| ==> TypeName(AdvertisedTypes[i]) in SupportedTypes
    ensures forall t :: t in SupportedTypes ==> exists i :: 0 <= i < |AdvertisedTypes| && TypeName(AdvertisedTypes[i]) == t
  {
    forall t | t in SupportedTypes
      ensures exists i :: 0 <= i < |AdvertisedTypes| && TypeName(AdvertisedTypes[i]) == t
    {
      var i := if t == "text" then 0 else if t == "markdown" then 1 else if t == "html" then 3 else 5;
      assert TypeName(AdvertisedTypes[i]) == t;
    }
  }

  /** Each advertised extension classifies, through `POST`, into an advertised type, and each advertised type is reached. */
  lemma SupportedExtensionsClassify(base: string)
    ensures forall i :: 0 <= i < |SupportedExtensions| ==>
              TypeName(DocumentTypeOf(base + SupportedExtensions[i])) in SupportedTypes
    ensures forall t :: t in SupportedTypes ==>
              exists i :: 0 <= i < |SupportedExtensions| && TypeName(DocumentTypeOf(base + SupportedExtensions[i])) == t
  {
    forall i | 0 <= i < |SupportedExtensions|
      ensures DocumentTypeOf(base + SupportedExtensions[i]) == AdvertisedTypes[i]
    {
      AdvertisedExtensionType(base, i);
    }
    AdvertisedTypesCover();
  }

  /** The extension table: markdown, html and json have two, two and one spellings, in any case; the rest is text. */
  lemma ClassifyByExtension(base: string, ext: string)
    requires '.' !in ext
    ensures DocumentTypeOf(base + "." + ext) == Markdown <==> ToLower(ext) in {"md", "markdown"}
    ensures DocumentTypeOf(base + "." + ext) == Html <==> ToLower(ext) in {"html", "htm"}
    ensures DocumentTypeOf(base + "." + ext) == Json <==> ToLower(ext) == "json"
  {
    ExtensionAfterLastDot(base, ext);
  }
}
