/** Loading definition files, the dependency index, in-place document edits and the
    conversion of a definition into the settings handed to the remote service. */
module YamlUtils {
  import opened Base
  import opened Paths
  import opened Documents
  import opened Models

  // ---------------------------------------------------------------------------
  // Loading

  /** `load_yaml_file`: open the document and validate it as a pipeline. */
  function Load(files: Files, path: Path): (r: Result<Pipeline>)
    ensures r.Ok? <==> OpenYaml(files, path).Ok? && LoadDocument(files[path].doc).Ok?
    ensures r.Ok? ==> r.value == LoadDocument(files[path].doc).value && ValidPipeline(r.value)
  {
    var d :- OpenYaml(files, path);
    LoadDocument(d)
  }

  /** What `dir.rglob("*.yaml")` chained with `dir.rglob("*.yml")` enumerates. */
  function YamlFiles(files: Files, dir: Path): set<Path>
  {
    set f | f in files && IsBelow(f, dir) && MatchesYamlGlob(f)
  }

  // ---------------------------------------------------------------------------
  // The dependency index (`map_yaml_to_files`)

  /** The files a transformer depends on, relative to the definition's directory:
      the requirements file first, then the transformation file, each only when it is
      given by path. */
  function Dependencies(file: Path, t: Component): seq<Path>
    requires t.Transformer?
  {
    (if t.requirements.Some? && t.requirements.value.path.Some?
     then [Join(Parent(file), t.requirements.value.path.value)] else []) +
    (if t.transformation.path.Some? then [Join(Parent(file), t.transformation.path.value)] else [])
  }

  /** The index entry of a definition file that loads. */
  function IndexEntry(files: Files, file: Path): seq<Path>
    requires Load(files, file).Ok?
  {
    Dependencies(file, TransformerOf(Load(files, file).value))
  }

  /** `index` has a key for every enumerated definition file and for nothing else, and
      maps each to the dependencies of its transformer. */
  predicate IsIndexOf(index: map<Path, seq<Path>>, files: Files, dir: Path)
  {
    index.Keys == YamlFiles(files, dir) && IndexedAs(files, index)
  }

  /** Every file of `index` loads, and is mapped to its transformer's dependencies. */
  predicate IndexedAs(files: Files, index: map<Path, seq<Path>>)
  {
    forall f {:trigger index[f]} | f in index :: Load(files, f).Ok? && index[f] == IndexEntry(files, f)
  }

  lemma IndexedAsGrow(files: Files, index: map<Path, seq<Path>>, file: Path)
    requires IndexedAs(files, index) && Load(files, file).Ok?
    ensures IndexedAs(files, index[file := IndexEntry(files, file)])
  {
    var m := index[file := IndexEntry(files, file)];
    forall f | f in m
      ensures Load(files, f).Ok? && m[f] == IndexEntry(files, f)
    {
      if f != file {
        assert m[f] == index[f];
      }
    }
  }

  /** The search for the first transformer: `for c in components: if c.type == "transformer": break`. */
  method FirstTransformer(cs: seq<Component>) returns (r: Option<Component>)
    ensures r.None? <==> forall c | c in cs :: !c.Transformer?
    ensures r.Some? ==> r.value.Transformer? && r.value in cs
    ensures r.Some? ==> exists i | 0 <= i < |cs| :: cs[i] == r.value && forall j | 0 <= j < i :: !cs[j].Transformer?
  {
    var i := 0;
    while i < |cs|
      invariant 0 <= i <= |cs|
      invariant forall j | 0 <= j < i :: !cs[j].Transformer?
    {
      if cs[i].Transformer? {
        return Some(cs[i]);
      }
      i := i + 1;
    }
    return None;
  }

  /** In a valid pipeline the search finds the one transformer. */
  lemma FoundTransformer(p: Pipeline, t: Option<Component>)
    requires ValidPipeline(p)
    requires t.None? <==> forall c | c in p.components :: !c.Transformer?
    requires t.Some? ==> t.value.Transformer? && t.value in p.components
    ensures t == Some(TransformerOf(p))
  {
    assert TransformerOf(p) in p.components;
  }

  /** The loop of `map_yaml_to_files` over the enumerated definition files `todo`, in an
      order left open: each file must load, and is mapped to its transformer's dependencies. */
  method IndexFiles(files: Files, todo: set<Path>) returns (r: Result<map<Path, seq<Path>>>)
    ensures r.Ok? <==> forall f | f in todo :: Load(files, f).Ok?
    ensures r.Ok? ==> r.value.Keys == todo && IndexedAs(files, r.value)
  {
    var left := todo;
    var mapping: map<Path, seq<Path>> := map[];
    while left != {}
      invariant left <= todo && mapping.Keys == todo - left
      invariant IndexedAs(files, mapping)
      decreases |left|
    {
      var file :| file in left;
      var p := Load(files, file);
      if p.Err? {
        return Err(p.error);
      }
      var t := FirstTransformer(p.value.components);
      FoundTransformer(p.value, t);
      assert Dependencies(file, t.value) == IndexEntry(files, file);
      KeysGrow(mapping, file, Dependencies(file, t.value), todo, left);
      IndexedAsGrow(files, mapping, file);
      mapping := mapping[file := Dependencies(file, t.value)];
      left := left - {file};
    }
    forall f | f in todo
      ensures Load(files, f).Ok?
    {
      assert mapping[f] == mapping[f];
    }
    return Ok(mapping);
  }

  /** `map_yaml_to_files`: every definition file below `dir` must load; the result is
      then the dependency index. */
  method MapYamlToFiles(files: Files, dir: Path) returns (r: Result<map<Path, seq<Path>>>)
    ensures r.Ok? <==> forall f | f in YamlFiles(files, dir) :: Load(files, f).Ok?
    ensures r.Ok? ==> IsIndexOf(r.value, files, dir)
  {
    r := IndexFiles(files, YamlFiles(files, dir));
  }

  /** Every enumerated definition file loads, which is what `map_yaml_to_files` needs. */
  predicate IndexLoads(files: Files, dir: Path)
  {
    forall f | f in YamlFiles(files, dir) :: Load(files, f).Ok?
  }

  /** The dependency index of the definition files below `dir`. */
  function IndexOf(files: Files, dir: Path): (index: map<Path, seq<Path>>)
    requires IndexLoads(files, dir)
    ensures index.Keys == YamlFiles(files, dir)
  {
    map f | f in YamlFiles(files, dir) :: IndexEntry(files, f)
  }

  /** A file system with an index has every definition file loading. */
  lemma IndexedLoads(index: map<Path, seq<Path>>, files: Files, dir: Path)
    requires IsIndexOf(index, files, dir)
    ensures IndexLoads(files, dir)
  {
    forall f | f in YamlFiles(files, dir)
      ensures Load(files, f).Ok?
    {
      assert f in index.Keys;
      assert Load(files, f).Ok? && index[f] == IndexEntry(files, f);
    }
  }

  /** The files determine the index: there is only one. */
  lemma IndexIsUnique(index: map<Path, seq<Path>>, files: Files, dir: Path)
    requires IsIndexOf(index, files, dir)
    ensures IndexLoads(files, dir) && index == IndexOf(files, dir)
  {
    IndexedLoads(index, files, dir);
    var other := IndexOf(files, dir);
    assert index.Keys == other.Keys;
    forall f | f in index
      ensures index[f] == other[f]
    {
      assert index[f] == IndexEntry(files, f);
    }
    SameMaps(index, other);
  }

  /** A dependency list has at most two entries: the requirements path, if any, comes
      first and the transformation path, if any, last; it is empty exactly when both are
      given inline. */
  lemma DependenciesShape(file: Path, t: Component)
    requires t.Transformer?
    ensures |Dependencies(file, t)| <= 2
    ensures Dependencies(file, t) == [] <==>
              (t.requirements.None? || t.requirements.value.path.None?) && t.transformation.path.None?
    ensures t.requirements.Some? && t.requirements.value.path.Some? ==>
              Dependencies(file, t)[0] == Join(Parent(file), t.requirements.value.path.value)
    ensures t.transformation.path.Some? ==>
              Dependencies(file, t)[|Dependencies(file, t)| - 1] == Join(Parent(file), t.transformation.path.value)
  {
  }

  /** A path is in a dependency list exactly when it is the requirements path or the
      transformation path joined onto the definition's directory. */
  lemma DependenciesMembers(file: Path, t: Component, q: Path)
    requires t.Transformer?
    ensures q in Dependencies(file, t) <==>
              (t.requirements.Some? && t.requirements.value.path.Some? &&
               q == Join(Parent(file), t.requirements.value.path.value)) ||
              (t.transformation.path.Some? && q == Join(Parent(file), t.transformation.path.value))
  {
  }

  // ---------------------------------------------------------------------------
  // Setting one top-level key (`update_pipeline_id_in_yaml`, `update_space_id_in_yaml`)

  /** Where an edited document is saved: `output_yaml` when given, else the input. */
  function Target(input: Path, output: Option<Path>): Path
  {
    if output.Some? then output.value else input
  }

  /** The files after the document at `input` has had `key` set to `v` and been saved. */
  function SetKey(files: Files, input: Path, output: Option<Path>, key: string, v: Value): (r: Result<Files>)
    ensures r.Ok? <==> OpenYaml(files, input).Ok?
  {
    var d :- OpenYaml(files, input);
    Ok(files[Target(input, output) := Doc(d[key := v])])
  }

  /** Only the target file changes, only in `key`; with no output path the input is
      rewritten, otherwise the input is left as it was (unless it is the output). */
  lemma SetKeyFrame(files: Files, input: Path, output: Option<Path>, key: string, v: Value)
    requires SetKey(files, input, output, key, v).Ok?
    ensures var after := SetKey(files, input, output, key, v).value;
      var t := Target(input, output);
      after.Keys == files.Keys + {t} &&
      (forall q | q in files && q != t :: after[q] == files[q]) &&
      after[t].Doc? && after[t].doc.Keys == files[input].doc.Keys + {key} && after[t].doc[key] == v &&
      (forall k | k in files[input].doc && k != key :: after[t].doc[k] == files[input].doc[k])
    ensures output.None? ==> Target(input, output) == input
    ensures output.Some? && output.value != input ==>
      SetKey(files, input, output, key, v).value[input] == files[input]
  {
  }

  method UpdatePipelineIdInYaml(fs: FileSystem, id: string, input: Path, output: Option<Path>) returns (r: Result<()>)
    modifies fs
    ensures var s := SetKey(old(fs.files), input, output, "pipeline_id", Str(id));
      r == (if s.Ok? then Ok(()) else Err(s.error)) && fs.files == (if s.Ok? then s.value else old(fs.files))
  {
    var d := OpenYaml(fs.files, input);
    if d.Err? {
      return Err(d.error);
    }
    var data := d.value["pipeline_id" := Str(id)];
    SaveYaml(fs, Target(input, output), data);
    return Ok(());
  }

  method UpdateSpaceIdInYaml(fs: FileSystem, id: string, input: Path, output: Option<Path>) returns (r: Result<()>)
    modifies fs
    ensures var s := SetKey(old(fs.files), input, output, "space_id", Str(id));
      r == (if s.Ok? then Ok(()) else Err(s.error)) && fs.files == (if s.Ok? then s.value else old(fs.files))
  {
    var d := OpenYaml(fs.files, input);
    if d.Err? {
      return Err(d.error);
    }
    var data := d.value["space_id" := Str(id)];
    SaveYaml(fs, Target(input, output), data);
    return Ok(());
  }

  lemma ParseWithPipelineId(d: Document, p: Pipeline, id: string)
    requires ParsePipeline(d) == Ok(p)
    ensures ParsePipeline(d["pipeline_id" := Str(id)]) == Ok(p.(pipelineId := Some(id)))
  {
    var e := d["pipeline_id" := Str(id)];
    assert ParseString(e, "name") == ParseString(d, "name");
    assert ParseOptionalString(e, "pipeline_id") == Ok(Some(id));
    assert ParseOptionalString(e, "space_id") == ParseOptionalString(d, "space_id");
    assert ParseOptionalString(e, "space_name") == ParseOptionalString(d, "space_name");
    assert e["components"] == d["components"];
  }

  lemma ParseWithSpaceId(d: Document, p: Pipeline, id: string)
    requires ParsePipeline(d) == Ok(p)
    ensures ParsePipeline(d["space_id" := Str(id)]) == Ok(p.(spaceId := Some(id)))
  {
    var e := d["space_id" := Str(id)];
    assert ParseString(e, "name") == ParseString(d, "name");
    assert ParseOptionalString(e, "pipeline_id") == ParseOptionalString(d, "pipeline_id");
    assert ParseOptionalString(e, "space_id") == Ok(Some(id));
    assert ParseOptionalString(e, "space_name") == ParseOptionalString(d, "space_name");
    assert e["components"] == d["components"];
  }

  /** Only the components decide `check_components`. */
  lemma CheckComponentsOnlyComponents(p: Pipeline, q: Pipeline)
    requires p.components == q.components
    ensures CheckComponents(p).Ok? <==> CheckComponents(q).Ok?
  {
    CheckComponentsIsChain(p);
    CheckComponentsIsChain(q);
  }

  /** Reading back a definition whose `pipeline_id` was set gives the same pipeline with
      the new id; it loads exactly when the pipeline already had a `space_id`. */
  lemma PipelineIdReadBack(files: Files, input: Path, output: Option<Path>, id: string, p: Pipeline)
    requires Load(files, input) == Ok(p)
    ensures SetKey(files, input, output, "pipeline_id", Str(id)).Ok?
    ensures var after := SetKey(files, input, output, "pipeline_id", Str(id)).value;
      (p.spaceId.Some? ==> Load(after, Target(input, output)) == Ok(p.(pipelineId := Some(id)))) &&
      (p.spaceId.None? ==> Load(after, Target(input, output)).Err?)
  {
    var d := files[input].doc;
    var e := d["pipeline_id" := Str(id)];
    var q := p.(pipelineId := Some(id));
    assert ParsePipeline(d) == Ok(p) by {
      assert CheckSpaceFilled(p).Ok? && CheckComponents(p).Ok?;
    }
    ParseWithPipelineId(d, p, id);
    CheckComponentsOnlyComponents(p, q);
    if p.spaceId.Some? {
      assert CheckSpaceFilled(q) == Ok(q);
      assert CheckComponents(q) == Ok(q);
      assert LoadDocument(e) == Ok(q);
    } else {
      assert CheckSpaceFilled(q).Err?;
      assert LoadDocument(e).Err?;
    }
  }

  /** Reading back a definition whose `space_id` was set gives the same pipeline with the
      new space id. */
  lemma SpaceIdReadBack(files: Files, input: Path, output: Option<Path>, id: string, p: Pipeline)
    requires Load(files, input) == Ok(p)
    ensures SetKey(files, input, output, "space_id", Str(id)).Ok?
    ensures Load(SetKey(files, input, output, "space_id", Str(id)).value, Target(input, output)) ==
              Ok(p.(spaceId := Some(id)))
  {
    var d := files[input].doc;
    var e := d["space_id" := Str(id)];
    var q := p.(spaceId := Some(id));
    assert ParsePipeline(d) == Ok(p) by {
      assert CheckSpaceFilled(p).Ok? && CheckComponents(p).Ok?;
    }
    ParseWithSpaceId(d, p, id);
    CheckComponentsOnlyComponents(p, q);
    assert CheckSpaceFilled(q) == Ok(q);
    assert CheckComponents(q) == Ok(q);
    assert LoadDocument(e) == Ok(q);
  }

  // ---------------------------------------------------------------------------
  // Writing a model back into its document (`pipeline_to_yaml`)

  /** A YAML null for an unset field, as `yaml_data["pipeline_id"] = None` stores it. */
  function OptionalValue(o: Option<string>): (v: Value)
    ensures v == Null <==> o.None?
    ensures o.Some? ==> v == Str(o.value)
  {
    if o.Some? then Str(o.value) else Null
  }

  /** `after` is component `before` after `before.update(dump)`: the keys of the dump take
      the dump's values and every other key keeps its value. */
  predicate MergedInto(before: Value, dump: Document, after: Value)
  {
    before.Map? && after.Map? &&
    after.entries.Keys == before.entries.Keys + dump.Keys &&
    forall k | k in after.entries :: after.entries[k] == (if k in dump then dump[k] else before.entries[k])
  }

  /** The loop `for idx, c in enumerate(dumps): items[idx].update(c)`. */
  method MergeComponents(items: seq<Value>, dumps: seq<Document>) returns (r: Result<seq<Value>>)
    ensures r.Ok? <==> |dumps| <= |items| && forall i | 0 <= i < |dumps| :: items[i].Map?
    ensures r.Ok? ==> |r.value| == |items|
    ensures r.Ok? ==> forall i | 0 <= i < |dumps| :: MergedInto(items[i], dumps[i], r.value[i])
    ensures r.Ok? ==> forall i | |dumps| <= i < |items| :: r.value[i] == items[i]
  {
    var merged := items;
    var i := 0;
    while i < |dumps|
      invariant 0 <= i <= |dumps|
      invariant i <= |items| && forall j | 0 <= j < i :: items[j].Map?
      invariant |merged| == |items|
      invariant forall j | 0 <= j < i :: MergedInto(items[j], dumps[j], merged[j])
      invariant forall j | i <= j < |items| :: merged[j] == items[j]
    {
      if i >= |items| {
        return Err(IndexOutOfRange(i));
      }
      if !items[i].Map? {
        return Err(NotAMapping(i));
      }
      merged := merged[i := Map(items[i].entries + dumps[i])];
      i := i + 1;
    }
    return Ok(merged);
  }

  /** `after` is document `before` rewritten from pipeline `p`: the id, space id and name
      are overwritten, component i has the dump of model component i merged in, and every
      other key is kept. */
  predicate RewrittenFrom(before: Document, p: Pipeline, after: Document)
  {
    var dumps := DumpComponents(p.components);
    after.Keys == before.Keys + {"pipeline_id", "space_id", "name"} + (if dumps == [] then {} else {"components"}) &&
    after["pipeline_id"] == OptionalValue(p.pipelineId) &&
    after["space_id"] == OptionalValue(p.spaceId) &&
    after["name"] == Str(p.name) &&
    (dumps != [] ==>
      "components" in before && before["components"].List? && after["components"].List? &&
      |dumps| <= |before["components"].items| &&
      |after["components"].items| == |before["components"].items| &&
      (forall i | 0 <= i < |dumps| :: MergedInto(before["components"].items[i], dumps[i], after["components"].items[i])) &&
      (forall i | |dumps| <= i < |after["components"].items| ::
        after["components"].items[i] == before["components"].items[i])) &&
    (forall k | k in before && k !in {"pipeline_id", "space_id", "name", "components"} :: after[k] == before[k]) &&
    (dumps == [] && "components" in before ==> after["components"] == before["components"])
  }

  /** `pipeline_to_yaml`: fails when the input does not open, and when the pipeline has
      components but the document's `components` is missing, is not a list, is too short
      or holds a non-mapping where a model component goes. */
  method PipelineToYaml(fs: FileSystem, p: Pipeline, input: Path, output: Option<Path>) returns (r: Result<()>)
    modifies fs
    ensures r.Ok? <==>
      OpenYaml(old(fs.files), input).Ok? &&
      (p.components != [] ==>
        var d := old(fs.files)[input].doc;
        "components" in d && d["components"].List? && |p.components| <= |d["components"].items| &&
        forall i | 0 <= i < |p.components| :: d["components"].items[i].Map?)
    ensures r.Ok? ==>
      var t := Target(input, output);
      fs.files.Keys == old(fs.files).Keys + {t} &&
      (forall q | q in old(fs.files) && q != t :: fs.files[q] == old(fs.files)[q]) &&
      fs.files[t].Doc? && RewrittenFrom(old(fs.files)[input].doc, p, fs.files[t].doc)
    ensures r.Err? ==> fs.files == old(fs.files)
  {
    var doc := OpenYaml(fs.files, input);
    if doc.Err? {
      return Err(doc.error);
    }
    var data := doc.value;
    var dumps := DumpComponents(p.components);
    data := data["pipeline_id" := OptionalValue(p.pipelineId)];
    data := data["space_id" := OptionalValue(p.spaceId)];
    data := data["name" := Str(p.name)];
    if dumps != [] {
      if "components" !in data {
        return Err(KeyMissing("components"));
      }
      if !data["components"].List? {
        return Err(NotAList("components"));
      }
      var merged := MergeComponents(data["components"].items, dumps);
      if merged.Err? {
        return Err(merged.error);
      }
      data := data["components" := List(merged.value)];
    }
    SaveYaml(fs, Target(input, output), data);
    return Ok(());
  }

  // ---------------------------------------------------------------------------
  // From a definition to the remote service's settings (`yaml_file_to_pipeline`)

  /** The arguments the action hands to the remote pipeline constructor. */
  datatype Settings = Settings(
    id: Option<string>,
    name: string,
    spaceId: Option<string>,
    envVars: Option<seq<Value>>,
    transformationFile: Path,
    requirements: Option<string>,
    sinkKind: Option<string>,
    sinkConfig: Option<ConnectorConfig>,
    sourceKind: Option<string>,
    sourceConfig: Option<ConnectorConfig>,
    viewOnly: bool)

  /** The requirements text: inline value first, else the file named by the path. */
  function ResolveRequirements(files: Files, dir: Path, req: Option<Requirements>): (r: Result<Option<string>>)
    requires req.Some? ==> CheckRequirements(req.value).Ok?
  {
    if req.None? then Ok(None)
    else if req.value.value.Some? then Ok(Some(req.value.value.value))
    else
      var text :- ReadText(files, Join(dir, req.value.path.value));
      Ok(Some(text))
  }

  /** The transformation file: the given path, else `handler.py` beside the definition. */
  function TransformationFile(dir: Path, t: Transformation): Path
  {
    if t.path.Some? then Join(dir, t.path.value) else Join(dir, "handler.py")
  }

  function EnvVarsOf(t: Component): Option<seq<Value>>
    requires t.Transformer?
  {
    if t.envVars.Some? then Some(DumpEnvironmentVariables(t.envVars.value)) else None
  }

  /** The settings a definition converts to, read against the files as they are before
      any `handler.py` is written. */
  function Conversion(files: Files, file: Path, p: Pipeline, viewOnly: bool): Result<Settings>
    requires ValidPipeline(p)
  {
    var dir := Parent(file);
    var t := TransformerOf(p);
    var requirements :- ResolveRequirements(files, dir, t.requirements);
    Ok(Settings(p.pipelineId, p.name, p.spaceId, EnvVarsOf(t), TransformationFile(dir, t.transformation),
                requirements, SinkOf(p).kind, SinkOf(p).config, SourceOf(p).kind, SourceOf(p).config, viewOnly))
  }

  /** The files after an inline transformation has been written to `handler.py`. */
  function HandlerWrite(files: Files, file: Path, p: Pipeline): Files
    requires ValidPipeline(p)
  {
    var t := TransformerOf(p).transformation;
    if t.path.None? then files[Join(Parent(file), "handler.py") := Text(t.value.value)] else files
  }

  /** `yaml_file_to_pipeline`: resolve the requirements (which may fail to read), then
      write an inline transformation out and build the settings. */
  method YamlFileToPipeline(fs: FileSystem, file: Path, p: Pipeline, viewOnly: bool) returns (r: Result<Settings>)
    requires ValidPipeline(p)
    modifies fs
    ensures r == Conversion(old(fs.files), file, p, viewOnly)
    ensures fs.files == if r.Ok? then HandlerWrite(old(fs.files), file, p) else old(fs.files)
  {
    var dir := Parent(file);
    var t := TransformerOf(p);
    var requirements: Option<string> := None;
    if t.requirements.Some? {
      if t.requirements.value.value.Some? {
        requirements := Some(t.requirements.value.value.value);
      } else {
        var text := ReadText(fs.files, Join(dir, t.requirements.value.path.value));
        if text.Err? {
          return Err(text.error);
        }
        requirements := Some(text.value);
      }
    }
    var transform: Path;
    if t.transformation.path.Some? {
      transform := Join(dir, t.transformation.path.value);
    } else {
      transform := Join(dir, "handler.py");
      fs.files := fs.files[transform := Text(t.transformation.value.value)];
    }
    var envVars := EnvVarsOf(t);
    return Ok(Settings(p.pipelineId, p.name, p.spaceId, envVars, transform, requirements,
                       SinkOf(p).kind, SinkOf(p).config, SourceOf(p).kind, SourceOf(p).config, viewOnly));
  }

  /** The content preferences: an inline requirements value wins over its path, absent
      requirements give none, a transformation path wins over inline code, and inline code
      goes to `handler.py` beside the definition. The remaining fields are copied. */
  lemma ResolutionRules(files: Files, file: Path, p: Pipeline, viewOnly: bool)
    requires ValidPipeline(p)
    ensures var t := TransformerOf(p); var dir := Parent(file); var r := Conversion(files, file, p, viewOnly);
      (t.requirements.None? ==> r == Ok(r.value) && r.value.requirements.None?) &&
      (t.requirements.Some? && t.requirements.value.value.Some? ==>
         r.Ok? && r.value.requirements == t.requirements.value.value) &&
      (t.requirements.Some? && t.requirements.value.value.None? ==>
         t.requirements.value.path.Some? &&
         var q := Join(dir, t.requirements.value.path.value);
         (r.Ok? <==> q in files && files[q].Text?) &&
         (r.Ok? ==> r.value.requirements == Some(files[q].text))) &&
      (r.Ok? && t.transformation.path.Some? ==>
         r.value.transformationFile == Join(dir, t.transformation.path.value) &&
         HandlerWrite(files, file, p) == files) &&
      (r.Ok? && t.transformation.path.None? ==>
         r.value.transformationFile == Join(dir, "handler.py") &&
         t.transformation.value.Some? &&
         HandlerWrite(files, file, p) == files[Join(dir, "handler.py") := Text(t.transformation.value.value)]) &&
      (r.Ok? ==> r.value.id == p.pipelineId && r.value.spaceId == p.spaceId && r.value.name == p.name &&
                 r.value.viewOnly == viewOnly)
  {
  }

  /** Every dependency file the conversion reads or names is an entry of the definition's
      index, and a definition with an empty index entry is converted from its inline
      content alone. */
  lemma ResolvedFilesAreIndexed(files: Files, file: Path, viewOnly: bool)
    requires Load(files, file).Ok?
    ensures var p := Load(files, file).value; var t := TransformerOf(p); var dir := Parent(file);
      var r := Conversion(files, file, p, viewOnly);
      (t.requirements.Some? && t.requirements.value.value.None? ==>
         Join(dir, t.requirements.value.path.value) in IndexEntry(files, file)) &&
      (r.Ok? && t.transformation.path.Some? ==> r.value.transformationFile in IndexEntry(files, file)) &&
      (IndexEntry(files, file) == [] ==>
         r.Ok? && r.value.transformationFile == Join(dir, "handler.py") &&
         (t.requirements.Some? ==> r.value.requirements == t.requirements.value.value))
  {
    var p := Load(files, file).value;
    var t := TransformerOf(p);
    DependenciesShape(file, t);
  }

  /** Writing `handler.py` never adds or removes a definition file. */
  lemma HandlerWriteKeepsDefinitions(files: Files, file: Path, p: Pipeline, dir: Path)
    requires ValidPipeline(p)
    ensures YamlFiles(HandlerWrite(files, file, p), dir) == YamlFiles(files, dir)
    ensures forall f | f in YamlFiles(files, dir) :: HandlerWrite(files, file, p)[f] == files[f]
  {
    var h := Join(Parent(file), "handler.py");
    var after := HandlerWrite(files, file, p);
    HandlerIsNotMatched(Parent(file));
    assert after.Keys <= files.Keys + {h};
    forall f
      ensures f in YamlFiles(after, dir) <==> f in YamlFiles(files, dir)
    {
    }
  }
}
