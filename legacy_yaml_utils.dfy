/** The earlier script version of the YAML helpers: the same loader and dependency index,
    a conversion without the view-only marker, and ids recorded by prepending a line of
    text to the definition file. */
module LegacyYamlUtils {
  import opened Base
  import opened Paths
  import opened Documents
  import opened Models
  import opened YamlUtils

  /** The legacy `load_yaml_file`: `safe_load` of the file, then the pipeline model. An
      empty file fails: `safe_load` gives None, and unpacking it raises; here the empty
      document fails for want of a `name`. The schema is that of `Models`. */
  function LegacyLoad(files: Files, path: Path): (r: Result<Pipeline>)
    ensures r.Ok? ==> ValidPipeline(r.value)
  {
    if path !in files then Err(FileNotFound(path))
    else match files[path]
      case Text(_) => Err(NotADocument(path))
      case Doc(d) => LoadDocument(d)
  }

  /** On the same parsed document both loaders accept the same files and give the same
      pipelines: an empty document fails either way (as an empty file, or for want of a
      `name`). The two YAML engines can parse one text differently; the file system holds
      the parsed document, so that difference is outside this lemma. */
  lemma LegacyLoadAgrees(files: Files, path: Path)
    ensures LegacyLoad(files, path) == Load(files, path) || (LegacyLoad(files, path).Err? && Load(files, path).Err?)
    ensures LegacyLoad(files, path).Ok? <==> Load(files, path).Ok?
  {
    if path in files && files[path].Doc? && files[path].doc == map[] {
      assert ParseString(map[], "name").Err?;
    }
  }

  /** The loop of the legacy `map_yaml_to_files` over the enumerated files `todo`. */
  method LegacyIndexFiles(files: Files, todo: set<Path>) returns (r: Result<map<Path, seq<Path>>>)
    ensures r.Ok? <==> forall f | f in todo :: LegacyLoad(files, f).Ok?
    ensures r.Ok? ==> r.value.Keys == todo && IndexedAs(files, r.value)
  {
    var left := todo;
    var mapping: map<Path, seq<Path>> := map[];
    while left != {}
      invariant left <= todo && mapping.Keys == todo - left
      invariant IndexedAs(files, mapping)
      decreases |left|
    {
      var file :| file in left;
      var p := LegacyLoad(files, file);
      LegacyLoadAgrees(files, file);
      if p.Err? {
        return Err(p.error);
      }
      var t := FirstTransformer(p.value.components);
      FoundTransformer(p.value, t);
      assert Dependencies(file, t.value) == IndexEntry(files, file);
      KeysGrow(mapping, file, Dependencies(file, t.value), todo, left);
      IndexedAsGrow(files, mapping, file);
      mapping := mapping[file := Dependencies(file, t.value)];
      left := left - {file};
    }
    forall f | f in todo
      ensures LegacyLoad(files, f).Ok?
    {
      LegacyLoadAgrees(files, f);
      assert mapping[f] == mapping[f];
    }
    return Ok(mapping);
  }

  /** The legacy `map_yaml_to_files`: the same index, from the legacy loader. */
  method LegacyMapYamlToFiles(files: Files, dir: Path) returns (r: Result<map<Path, seq<Path>>>)
    ensures r.Ok? <==> forall f | f in YamlFiles(files, dir) :: LegacyLoad(files, f).Ok?
    ensures r.Ok? ==> IsIndexOf(r.value, files, dir)
  {
    r := LegacyIndexFiles(files, YamlFiles(files, dir));
  }

  /** Both versions build the same index from the same files. */
  lemma LegacyIndexAgrees(files: Files, dir: Path)
    ensures (forall f | f in YamlFiles(files, dir) :: LegacyLoad(files, f).Ok?) <==>
            (forall f | f in YamlFiles(files, dir) :: Load(files, f).Ok?)
  {
    forall f | f in YamlFiles(files, dir)
      ensures LegacyLoad(files, f).Ok? <==> Load(files, f).Ok?
    {
      LegacyLoadAgrees(files, f);
    }
  }

  /** The legacy `yaml_file_to_pipeline`: the same resolution, without the view-only marker. */
  method LegacyYamlFileToPipeline(fs: FileSystem, file: Path, p: Pipeline) returns (r: Result<Settings>)
    requires ValidPipeline(p)
    modifies fs
    ensures r == Conversion(old(fs.files), file, p, false)
    ensures r.Ok? ==> !r.value.viewOnly
    ensures fs.files == if r.Ok? then HandlerWrite(old(fs.files), file, p) else old(fs.files)
  {
    r := YamlFileToPipeline(fs, file, p, false);
  }

  // ---------------------------------------------------------------------------
  // Recording ids as text

  /** The text after `add_pipeline_id_to_yaml`: one line naming the id, then the old text. */
  function WithPipelineIdLine(id: string, content: string): (r: string)
    ensures |r| == |"pipeline_id: "| + |id| + 1 + |content|
    ensures r[..|"pipeline_id: "|] == "pipeline_id: "
    ensures r[|"pipeline_id: "|..|"pipeline_id: "| + |id|] == id
    ensures r[|"pipeline_id: "| + |id|] == '\n'
    ensures r[|r| - |content|..] == content
  {
    "pipeline_id: " + id + "\n" + content
  }

  /** The text after `add_space_id_to_yaml`: one line naming the space id, then the old text. */
  function WithSpaceIdLine(id: string, content: string): (r: string)
    ensures |r| == |"space_id: "| + |id| + 1 + |content|
    ensures r[..|"space_id: "|] == "space_id: "
    ensures r[|"space_id: "|..|"space_id: "| + |id|] == id
    ensures r[|"space_id: "| + |id|] == '\n'
    ensures r[|r| - |content|..] == content
  {
    "space_id: " + id + "\n" + content
  }

  /** The first line of a text: everything before its first line break. */
  function FirstLine(s: string): (r: string)
    ensures |r| <= |s| && r == s[..|r|]
    ensures '\n' !in r
    ensures |r| < |s| ==> s[|r|] == '\n'
  {
    if s == [] || s[0] == '\n' then [] else [s[0]] + FirstLine(s[1..])
  }

  lemma {:induction false} FirstLineOfPrefix(line: string, rest: string)
    requires '\n' !in line
    ensures FirstLine(line + "\n" + rest) == line
  {
    if line != [] {
      assert (line + "\n" + rest)[1..] == line[1..] + "\n" + rest;
      FirstLineOfPrefix(line[1..], rest);
    } else {
      assert (line + "\n" + rest)[0] == '\n';
    }
  }

  /** When the id holds no line break, the new first line is exactly the id line, and the
      old text follows it untouched. */
  lemma PipelineIdLineIsFirst(id: string, content: string)
    requires '\n' !in id
    ensures FirstLine(WithPipelineIdLine(id, content)) == "pipeline_id: " + id
    ensures WithPipelineIdLine(id, content)[|"pipeline_id: " + id| + 1..] == content
  {
    assert '\n' !in "pipeline_id: " + id by {
      assert forall i | 0 <= i < |"pipeline_id: "| :: "pipeline_id: "[i] != '\n';
    }
    assert WithPipelineIdLine(id, content) == ("pipeline_id: " + id) + "\n" + content;
    FirstLineOfPrefix("pipeline_id: " + id, content);
  }

  lemma SpaceIdLineIsFirst(id: string, content: string)
    requires '\n' !in id
    ensures FirstLine(WithSpaceIdLine(id, content)) == "space_id: " + id
    ensures WithSpaceIdLine(id, content)[|"space_id: " + id| + 1..] == content
  {
    assert '\n' !in "space_id: " + id by {
      assert forall i | 0 <= i < |"space_id: "| :: "space_id: "[i] != '\n';
    }
    assert WithSpaceIdLine(id, content) == ("space_id: " + id) + "\n" + content;
    FirstLineOfPrefix("space_id: " + id, content);
  }

  /** The prepend never looks for an existing key: recording twice leaves two lines, the
      newer on top, above the untouched original. */
  lemma PrependTwice(a: string, b: string, content: string)
    ensures WithPipelineIdLine(b, WithPipelineIdLine(a, content)) ==
            "pipeline_id: " + b + "\n" + "pipeline_id: " + a + "\n" + content
    ensures WithPipelineIdLine(b, WithPipelineIdLine(a, content)) != WithPipelineIdLine(b, content)
  {
    var once := WithPipelineIdLine(b, content);
    var twice := WithPipelineIdLine(b, WithPipelineIdLine(a, content));
    assert |twice| > |once|;
  }

  /** A mapping document after a line `key: id` is written above it. The YAML engine keeps
      the last occurrence of a key, so a key the document already has keeps its value and
      only a new key takes the id. */
  function PrependedKey(d: Document, key: string, id: string): (e: Document)
    ensures e.Keys == d.Keys + {key}
    ensures forall k | k in d :: e[k] == d[k]
    ensures key !in d ==> e[key] == Str(id)
  {
    if key in d then d else d[key := Str(id)]
  }

  /** A file after `key: id` and a line break are written in front of what it held. */
  function Prepended(c: FileContent, key: string, id: string): FileContent
  {
    match c
    case Text(t) => Text(key + ": " + id + "\n" + t)
    case Doc(d) => Doc(PrependedKey(d, key, id))
  }

  /** A prepended text file is the id line over the old text. */
  lemma PrependedText(t: string, id: string)
    ensures Prepended(Text(t), "pipeline_id", id) == Text(WithPipelineIdLine(id, t))
    ensures Prepended(Text(t), "space_id", id) == Text(WithSpaceIdLine(id, t))
  {
    assert "pipeline_id" + ": " == "pipeline_id: ";
    assert "space_id" + ": " == "space_id: ";
  }

  /** Reading back a definition after a pipeline id was prepended: a new key gives the
      same pipeline with the id (which, without a space id, then fails validation); a
      `pipeline_id` already in the file wins, and the file loads as before. */
  lemma LegacyPipelineIdReadBack(files: Files, path: Path, id: string, p: Pipeline)
    requires LegacyLoad(files, path) == Ok(p)
    ensures var after := files[path := Prepended(files[path], "pipeline_id", id)];
      ("pipeline_id" !in files[path].doc && p.spaceId.Some? ==> LegacyLoad(after, path) == Ok(p.(pipelineId := Some(id)))) &&
      ("pipeline_id" !in files[path].doc && p.spaceId.None? ==> LegacyLoad(after, path).Err?) &&
      ("pipeline_id" in files[path].doc ==> LegacyLoad(after, path) == Ok(p))
  {
    var after := files[path := Prepended(files[path], "pipeline_id", id)];
    var d := files[path].doc;
    LegacyLoadAgrees(files, path);
    if "pipeline_id" !in d {
      assert after == SetKey(files, path, None, "pipeline_id", Str(id)).value;
      PipelineIdReadBack(files, path, None, id, p);
      LegacyLoadAgrees(after, path);
    } else {
      assert after == files;
    }
  }

  /** The same for the space id: a new key gives the pipeline with that space id. */
  lemma LegacySpaceIdReadBack(files: Files, path: Path, id: string, p: Pipeline)
    requires LegacyLoad(files, path) == Ok(p)
    ensures var after := files[path := Prepended(files[path], "space_id", id)];
      ("space_id" !in files[path].doc ==> LegacyLoad(after, path) == Ok(p.(spaceId := Some(id)))) &&
      ("space_id" in files[path].doc ==> LegacyLoad(after, path) == Ok(p))
  {
    var after := files[path := Prepended(files[path], "space_id", id)];
    var d := files[path].doc;
    LegacyLoadAgrees(files, path);
    if "space_id" !in d {
      assert after == SetKey(files, path, None, "space_id", Str(id)).value;
      SpaceIdReadBack(files, path, None, id, p);
      LegacyLoadAgrees(after, path);
    } else {
      assert after == files;
    }
  }

  /** `add_pipeline_id_to_yaml`: any file that is there is rewritten from the start with
      the id line in front of its old content. */
  method AddPipelineIdToYaml(fs: FileSystem, path: Path, id: string) returns (r: Result<()>)
    modifies fs
    ensures r.Ok? <==> path in old(fs.files)
    ensures fs.files == if r.Ok? then old(fs.files)[path := Prepended(old(fs.files)[path], "pipeline_id", id)]
                        else old(fs.files)
  {
    if path !in fs.files {
      return Err(FileNotFound(path));
    }
    fs.files := fs.files[path := Prepended(fs.files[path], "pipeline_id", id)];
    return Ok(());
  }

  /** `add_space_id_to_yaml`, the same for the space id. */
  method AddSpaceIdToYaml(fs: FileSystem, path: Path, id: string) returns (r: Result<()>)
    modifies fs
    ensures r.Ok? <==> path in old(fs.files)
    ensures fs.files == if r.Ok? then old(fs.files)[path := Prepended(old(fs.files)[path], "space_id", id)]
                        else old(fs.files)
  {
    if path !in fs.files {
      return Err(FileNotFound(path));
    }
    fs.files := fs.files[path := Prepended(fs.files[path], "space_id", id)];
    return Ok(());
  }
}
