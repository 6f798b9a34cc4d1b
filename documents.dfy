/** YAML documents as values, and the file system the action reads and rewrites. */
module Documents {
  import opened Base
  import opened Paths

  /** A YAML value as the YAML engine hands it over. */
  datatype Value =
    | Null
    | Str(s: string)
    | Int(i: int)
    | Bool(b: bool)
    | List(items: seq<Value>)
    | Map(entries: map<string, Value>)

  /** A top-level YAML mapping. */
  type Document = map<string, Value>

  /** What a path holds: a YAML mapping as parsed by the YAML engine, or plain text
      (a handler script, a requirements file). */
  datatype FileContent = Doc(doc: Document) | Text(text: string)

  type Files = map<Path, FileContent>

  /** The part of the disk the action sees, updated in place by writes and unlinks. */
  class FileSystem {
    var files: Files

    constructor (files: Files)
      ensures this.files == files
    {
      this.files := files;
    }
  }

  /** `open_yaml`: a missing file and an empty document are errors. */
  function OpenYaml(files: Files, path: Path): (r: Result<Document>)
    ensures r.Ok? <==> path in files && files[path].Doc? && files[path].doc != map[]
    ensures r.Ok? ==> r.value == files[path].doc
  {
    if path !in files then Err(FileNotFound(path))
    else match files[path]
      case Text(_) => Err(NotADocument(path))
      case Doc(d) => if d == map[] then Err(FileEmpty(path)) else Ok(d)
  }

  /** `open(path).read()` for a text file. */
  function ReadText(files: Files, path: Path): (r: Result<string>)
    ensures r.Ok? <==> path in files && files[path].Text?
    ensures r.Ok? ==> r.value == files[path].text
  {
    if path !in files then Err(FileNotFound(path))
    else match files[path]
      case Text(t) => Ok(t)
      case Doc(_) => Err(NotText(path))
  }

  /** `save_yaml`: the whole file is replaced by the document. */
  method SaveYaml(fs: FileSystem, path: Path, d: Document)
    modifies fs
    ensures fs.files == old(fs.files)[path := Doc(d)]
  {
    fs.files := fs.files[path := Doc(d)];
  }
}
