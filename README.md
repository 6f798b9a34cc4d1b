# pipelines-push-action, modelled in Dafny

A CI action. It keeps GlassFlow pipelines in line with the pipeline definition files
(`*.yaml` / `*.yml`) of a repository. It is given two lists, the files a commit changed
and the files it deleted. From these it works out:

- which definitions must be created remotely;
- which must be updated;
- which must be deleted;
- which spaces must be created first.

It then summarises the changes. Unless this is a dry run, it creates the spaces, gives
their ids to the pipelines about to be created, and creates, updates and deletes the
pipelines, in that order. It writes every id the service hands out back into the
definition file it belongs to.

The project models this core in nine modules:

| module | file | what it holds |
|---|---|---|
| `Base` | base.dfy | `Option`, `Result` and the error conditions (one per exception the action can raise) |
| `Paths` | paths.dfy | paths as strings, with pathlib's `name`, `suffix`, `parent` and `/` |
| `Documents` | documents.dfy | YAML values, the file system as a class whose `files` map the action rewrites, `open_yaml`, `save_yaml` |
| `Models` | models.dfy | the definition schema (`models.py`): records, every validator, the parse of a document into a pipeline, `model_dump`, and the round trips between them |
| `YamlUtils` | yaml_utils.dfy | `load_yaml_file`, `map_yaml_to_files`, the single-key id updates, `pipeline_to_yaml`, and the resolution in `yaml_file_to_pipeline` |
| `LegacyYamlUtils` | legacy_yaml_utils.dfy | the older `src/script/yaml_utils.py`: its loader (validating against the schema of `Models`), index and resolution, and the prepend-a-line id writers |
| `Remote` | remote.dfy | the remote service as a client object that logs each call and answers it from a script of replies |
| `Classifier` | classifier.dfy | `get_pipelines_to_change` and the counts and ids of `generate_outputs` |
| `Reconciler` | reconciler.dfy | `create_spaces`, the space-id injection, `create_pipelines`, `update_pipelines`, `delete_pipelines` |
| `Push` | push.dfy | `push_to_cloud`: the phases in order, the dry run, and what a successful push leaves behind |

Each loop of the source is a method with loop invariants. Each method is proved equal to
a function that specifies it, and the lemmas state their properties about that function:

- `CollectChanged` is proved equal to `ChangedDefinitions`.
- `CollectDeletions` is proved equal to `DeletionsFrom`.
- The phase methods are proved equal to `SpacesFrom`, `CreatesFrom`, `UpdatesFrom` and `DeletesFrom`.

The file system and the client are classes. Their methods say exactly how `files`, `log`
and `replies` change. A push is the composition `Push.ApplyChanges` of the four phase
functions. It stops at the first failure, as an exception stops the Python code.

Where the code may surprise a reader, the model follows the code:

- `map_yaml_to_files` does not skip a definition file that fails to load. Loading raises,
  and the whole index fails (`YamlUtils.MapYamlToFiles`).
- A dry run still unlinks the deleted definition files. The classification, which
  unlinks them, runs before the dry-run test in `push_to_cloud`
  (`Push.PushToCloud`, dry-run clause: `fs.files == classified`).
- Unlinking a deleted definition file that is not on disk raises in the `finally`
  clause, and the classification fails (`Classifier.DeletionsSpec`).
- The main conversion marks the settings view-only (`YamlUtils.ResolutionRules`). The
  legacy conversion does not (`LegacyYamlUtils.LegacyYamlFileToPipeline`).

## Model

| member | source | states |
|---|---|---|
| Models.CheckSpaceFilled | src/pipelines_push_action/models.py:19-26 | accepted iff a space id is set, or a space name is set and no pipeline id is; both space fields absent, or a pipeline id without a space id, are rejected |
| Models.CheckEnvironmentVariable | src/pipelines_push_action/models.py:53-57 | rejected only when both `value` and `value_secret_ref` are absent; accepted records come back unchanged |
| Models.CheckRequirements | src/pipelines_push_action/models.py:64-68 | rejected only when both `path` and `value` are absent; both set is accepted |
| Models.CheckTransformation | src/pipelines_push_action/models.py:75-79 | rejected only when both `path` and `value` are absent; both set is accepted |
| Models.CheckConfigParameter | src/pipelines_push_action/models.py:100-106 | accepted iff exactly one of `value` / `secret_ref` is truthy (an empty string counts as unset) |
| Models.CheckConnector | src/pipelines_push_action/models.py:125-132 | a source or sink is rejected iff its `kind` is truthy and its `config` is absent; a configuration that is there counts as set even when empty, since a `RootModel` instance is always truthy (the sink validator at models.py:141-148 is the same) |
| Models.KindOf | src/pipelines_push_action/models.py:151-154 | the `type` discriminator: each kind tag holds exactly for its variant |
| Models.OfKind | src/pipelines_push_action/models.py:34-36 | the filter `[c for c in components if c.type == kind]` keeps only components of that kind, each taken from the list |
| Models.OfKindCounts | src/pipelines_push_action/models.py:34-36 | the filter keeps every occurrence of a component of the kind, as many times as the list holds it, and drops every other component |
| Models.OfKindAppend | src/pipelines_push_action/models.py:34-36 | the filter keeps list order: filtering a concatenation gives the filtered parts one after the other |
| Models.OfKindOfThree | src/pipelines_push_action/models.py:34-36 | over a three-component list, the filter is the components of the kind in their positions' order |
| Models.OneOfKind | src/pipelines_push_action/models.py:32-40 | a valid pipeline has exactly one component of each kind, and it is every component of that kind in the list |
| Models.CheckComponentsIsChain | src/pipelines_push_action/models.py:28-45 | `check_components` accepts exactly the three-component lists with one source, one transformer and one sink, the transformer's first input the source id and the sink's first input the transformer id (an empty `inputs` fails) |
| Models.ValidPipelineIsWired | src/pipelines_push_action/models.py:12-45 | a pipeline that passes every validator has three components wired source → transformer → sink, a space id or space name, and a space id whenever it has a pipeline id |
| Models.SourceOf | src/pipelines_push_action/yaml_utils.py:87 | the source of a valid pipeline is in its components, and is the only source |
| Models.TransformerOf | src/pipelines_push_action/yaml_utils.py:88 | the transformer of a valid pipeline is in its components, and is the only transformer |
| Models.SinkOf | src/pipelines_push_action/yaml_utils.py:89 | the sink of a valid pipeline is in its components, and is the only sink |
| Models.ParseComponent | src/pipelines_push_action/models.py:151-154 | a parsed component, selected by its `type` tag, passes its own validators |
| Models.ParseEnvironmentVariable | src/pipelines_push_action/models.py:48-57 | a parsed environment variable passes `check_filled` |
| Models.ParseRequirements | src/pipelines_push_action/models.py:60-68 | parsed requirements, when present, pass `check_filled` |
| Models.ParseTransformation | src/pipelines_push_action/models.py:71-79 | a parsed transformation passes `check_filled` |
| Models.ParseConfigEntry | src/pipelines_push_action/models.py:96-111 | a configuration entry read as a parameter passes `check_exclusive_fields` |
| Models.ParseConfig | src/pipelines_push_action/models.py:114-117 | every parameter of a parsed connector configuration is valid |
| Models.ParseSource | src/pipelines_push_action/models.py:120-132 | a parsed source is a valid source |
| Models.ParseSink | src/pipelines_push_action/models.py:135-148 | a parsed sink is a valid sink |
| Models.ParseTransformer | src/pipelines_push_action/models.py:88-93 | a parsed transformer is a valid transformer |
| Models.ParseComponents | src/pipelines_push_action/models.py:17 | one valid component per list item |
| Models.ParsePipeline | src/pipelines_push_action/models.py:12-17 | the fields of a parsed pipeline hold valid components |
| Models.LoadDocument | src/pipelines_push_action/yaml_utils.py:16 | `Pipeline(**data)` gives only pipelines that pass every validator |
| Models.ComponentRoundTrip | src/pipelines_push_action/models.py:151-154 | a valid component survives `model_dump(exclude_none=True)` and a fresh parse |
| Models.ComponentsRoundTrip | src/pipelines_push_action/models.py:17 | a list of valid components survives dump and parse |
| Models.SourceRoundTrip | src/pipelines_push_action/models.py:120-132 | a valid source survives dump and parse |
| Models.SinkRoundTrip | src/pipelines_push_action/models.py:135-148 | a valid sink survives dump and parse |
| Models.TransformerRoundTrip | src/pipelines_push_action/models.py:88-93 | a valid transformer survives dump and parse |
| Models.TransformationRoundTrip | src/pipelines_push_action/models.py:71-79 | a valid transformation survives dump and parse |
| Models.RequirementsRoundTrip | src/pipelines_push_action/models.py:60-68 | valid or absent requirements survive dump and parse |
| Models.EnvironmentVariableRoundTrip | src/pipelines_push_action/models.py:48-57 | a valid environment variable survives dump and parse |
| Models.ConfigEntryRoundTrip | src/pipelines_push_action/models.py:96-111 | a configuration entry, with a valid parameter or a header list, survives dump and parse |
| Models.HeadersRoundTrip | src/pipelines_push_action/models.py:109-111 | a list of header parameters survives dump and parse |
| Models.ParseDumpedPipeline | src/pipelines_push_action/models.py:12-17 | the dump of a pipeline with valid components parses back to the same pipeline |
| Models.PipelineRoundTrip | src/pipelines_push_action/models.py:12-45 | loading the dump of a pipeline gives it back exactly when it passes every validator |
| Models.ConfigRoundTrip | src/pipelines_push_action/models.py:114-117 | a valid connector configuration survives dump and parse |
| Models.EnvironmentVariablesRoundTrip | src/pipelines_push_action/models.py:48-57 | valid environment variables survive dump and parse |
| Documents.OpenYaml | src/pipelines_push_action/yaml_utils.py:19-35 | succeeds iff the file exists and holds a non-empty document, which it returns |
| Documents.ReadText | src/pipelines_push_action/yaml_utils.py:95-96 | succeeds iff the file exists as text, which it returns |
| Documents.SaveYaml | src/pipelines_push_action/yaml_utils.py:38-49 | the file becomes the document; no other file changes |
| YamlUtils.Load | src/pipelines_push_action/yaml_utils.py:12-16 | succeeds iff the document opens and validates; the result is that document's pipeline and is valid |
| YamlUtils.FirstTransformer | src/pipelines_push_action/yaml_utils.py:58-63 | finds the first transformer of the list, or reports that there is none |
| YamlUtils.FoundTransformer | src/pipelines_push_action/yaml_utils.py:58-63 | in a valid pipeline the search finds its one transformer |
| YamlUtils.IndexFiles | src/pipelines_push_action/yaml_utils.py:56-75 | succeeds iff every given file loads; then has exactly those keys, each mapped to its transformer's dependencies |
| YamlUtils.MapYamlToFiles | src/pipelines_push_action/yaml_utils.py:52-75 | succeeds iff every `.yaml`/`.yml` file below the directory loads (a load error is not caught); the index has a key for every such file and no other |
| YamlUtils.IndexOf | src/pipelines_push_action/yaml_utils.py:52-75 | when every definition below the directory loads, the index is keyed by exactly those files |
| YamlUtils.IndexedLoads | src/pipelines_push_action/yaml_utils.py:56-60 | an index can only exist when every definition file below the directory loads |
| YamlUtils.IndexIsUnique | src/pipelines_push_action/yaml_utils.py:52-75 | the index is determined by the files and the directory: any map meeting the index relation is the index |
| YamlUtils.DependenciesShape | src/pipelines_push_action/yaml_utils.py:65-74 | a dependency list has at most two entries, the requirements path first and then the transformation path, each joined to the definition's directory, and is empty when both are inline |
| YamlUtils.DependenciesMembers | src/pipelines_push_action/yaml_utils.py:65-74 | a path is a dependency iff it is the joined requirements path or the joined transformation path |
| YamlUtils.SetKey | src/pipelines_push_action/yaml_utils.py:149-157 | a single-key edit succeeds iff the input document opens |
| YamlUtils.SetKeyFrame | src/pipelines_push_action/yaml_utils.py:151-157 | only the target file changes, only in the edited key; with no output path the target is the input, and with another output path the input is untouched |
| YamlUtils.UpdatePipelineIdInYaml | src/pipelines_push_action/yaml_utils.py:149-157 | the files become the single-key `pipeline_id` edit, or stay as they were when the input does not open |
| YamlUtils.UpdateSpaceIdInYaml | src/pipelines_push_action/yaml_utils.py:160-168 | the files become the single-key `space_id` edit, or stay as they were when the input does not open |
| YamlUtils.PipelineIdReadBack | src/pipelines_push_action/yaml_utils.py:151-152 | after setting `pipeline_id` on a definition that loads, the target loads as the same pipeline with the new id |
| YamlUtils.SpaceIdReadBack | src/pipelines_push_action/yaml_utils.py:162-163 | after setting `space_id` on a definition that loads, the target loads as the same pipeline with the new space id |
| YamlUtils.ParseWithPipelineId | src/pipelines_push_action/yaml_utils.py:152 | setting the document's `pipeline_id` changes only that field of the parsed pipeline |
| YamlUtils.ParseWithSpaceId | src/pipelines_push_action/yaml_utils.py:163 | setting the document's `space_id` changes only that field of the parsed pipeline |
| YamlUtils.OptionalValue | src/pipelines_push_action/yaml_utils.py:138-139 | an unset id is stored as a YAML null, a set one as its text |
| YamlUtils.MergeComponents | src/pipelines_push_action/yaml_utils.py:141-142 | fails iff a dump has no document component at its index; document component i takes the keys of dump i and keeps its other keys; the rest are untouched |
| YamlUtils.PipelineToYaml | src/pipelines_push_action/yaml_utils.py:133-147 | fails exactly on an unopenable input or an unmergeable component list, changing nothing; otherwise the target holds the document with `pipeline_id`, `space_id` and `name` overwritten, components merged by index, other keys kept, and no other file changes |
| YamlUtils.YamlFileToPipeline | src/pipelines_push_action/yaml_utils.py:78-130 | the settings are the conversion of the files before the call, and `handler.py` is written only on success |
| YamlUtils.ResolutionRules | src/pipelines_push_action/yaml_utils.py:91-108 | inline requirements win over a path, absent requirements give none, a path is read and fails iff it is not a text file; a transformation path wins over inline code, and inline code goes to `handler.py` beside the definition; ids, name and view-only marker are copied |
| YamlUtils.ResolvedFilesAreIndexed | src/pipelines_push_action/yaml_utils.py:91-105 | every dependency file the conversion reads or names is in the definition's index entry; an empty entry means a fully inline conversion |
| YamlUtils.HandlerWriteKeepsDefinitions | src/pipelines_push_action/yaml_utils.py:102-105 | writing `handler.py` adds or removes no definition file and changes none |
| Paths.LastIndexOfIsLast | src/pipelines_push_action/main.py:130-132 | the index found holds the character and no later index does; -1 means none does |
| Paths.NameIsTail | src/pipelines_push_action/main.py:132 | `name` is the tail after the last separator: it holds none, and a separator comes right before it unless it is the whole path |
| Paths.SuffixIsLastDot | src/pipelines_push_action/main.py:130 | a non-empty `suffix` is a dot and at least one more character, at the end of the name with something before it, with no other dot |
| Paths.SplitAtLast | src/pipelines_push_action/yaml_utils.py:84 | a path with a separator is what comes before its last separator, the separator, and its name |
| Paths.ParentAndName | src/pipelines_push_action/yaml_utils.py:84 | `parent` is "." for a bare name, "/" for a name under the root, and otherwise the part in front of the separator before the name |
| Paths.JoinShape | src/pipelines_push_action/yaml_utils.py:69-73 | `dir / rel` ends in `rel`; an absolute `rel` is the whole result; otherwise, unless `dir` is ".", it starts with `dir` and a separator comes right before `rel` |
| Paths.JoinSplits | src/pipelines_push_action/yaml_utils.py:103 | joining a bare name onto a directory and taking `parent` and `name` gives back the directory and the name |
| Paths.HandlerIsNotYaml | src/pipelines_push_action/yaml_utils.py:103 | `handler.py` beside a definition has no definition suffix |
| Paths.HandlerIsNotMatched | src/pipelines_push_action/yaml_utils.py:54 | the definition globs never pick up `handler.py` |
| Paths.YamlIsNotHandler | src/pipelines_push_action/yaml_utils.py:103 | no definition file is the `handler.py` written beside another |
| LegacyYamlUtils.LegacyLoad | src/script/yaml_utils.py:10-16 | the legacy loader gives only valid pipelines |
| LegacyYamlUtils.LegacyLoadAgrees | src/script/yaml_utils.py:10-16 | on the same parsed document, both loaders accept the same files and give the same pipelines |
| LegacyYamlUtils.LegacyIndexFiles | src/script/yaml_utils.py:23-42 | the legacy loop succeeds iff every file loads, and builds the same index entries |
| LegacyYamlUtils.LegacyMapYamlToFiles | src/script/yaml_utils.py:19-42 | the legacy index has exactly the definition files below the directory, with requirements-then-transformation dependencies, empty for inline-only transformers |
| LegacyYamlUtils.LegacyIndexAgrees | src/script/yaml_utils.py:19-42 | on the same parsed documents, both versions of the index succeed on the same files |
| LegacyYamlUtils.LegacyYamlFileToPipeline | src/script/yaml_utils.py:45-96 | the legacy conversion follows the same resolution, without the view-only marker |
| LegacyYamlUtils.WithPipelineIdLine | src/script/yaml_utils.py:104 | the new text is `pipeline_id: `, the id, a line break, then the old text, which survives intact as the suffix |
| LegacyYamlUtils.WithSpaceIdLine | src/script/yaml_utils.py:112 | the new text is `space_id: `, the id, a line break, then the old text, which survives intact as the suffix |
| LegacyYamlUtils.PipelineIdLineIsFirst | src/script/yaml_utils.py:99-104 | for an id without a line break, the first line is exactly the id line and the old text follows it |
| LegacyYamlUtils.SpaceIdLineIsFirst | src/script/yaml_utils.py:107-112 | for an id without a line break, the first line is exactly the space id line and the old text follows it |
| LegacyYamlUtils.PrependTwice | src/script/yaml_utils.py:101-104 | the prepend never replaces an existing line: two writes leave two id lines, newest on top |
| LegacyYamlUtils.PrependedKey | src/script/yaml_utils.py:101-104 | a mapping document read after a `key: id` line is written above it keeps every key it had with its value, and gains the key with the id only when it lacked it (the YAML loader keeps the last of duplicate keys) |
| LegacyYamlUtils.PrependedText | src/script/yaml_utils.py:101-112 | on a text file the prepend is exactly the id line over the old text, for both keys |
| LegacyYamlUtils.LegacyPipelineIdReadBack | src/script/yaml_utils.py:99-104 | after the prepend a definition without a `pipeline_id` loads as the same pipeline with the id when it has a space id, and fails validation when it has none; one with a `pipeline_id` loads as before |
| LegacyYamlUtils.LegacySpaceIdReadBack | src/script/yaml_utils.py:107-112 | after the prepend a definition without a `space_id` loads as the same pipeline with that space id; one with a `space_id` loads as before |
| LegacyYamlUtils.AddPipelineIdToYaml | src/script/yaml_utils.py:99-104 | succeeds iff the file exists (a missing file fails to open); the file then holds the prepended line over its old content, and no other file changes |
| LegacyYamlUtils.AddSpaceIdToYaml | src/script/yaml_utils.py:107-112 | succeeds iff the file exists (a missing file fails to open); the file then holds the prepended line over its old content, and no other file changes |
| Remote.Client.Request | src/pipelines_push_action/main.py:114 | every call into the service is logged, and answered by the next scripted reply, which it uses up |
| Classifier.DependentsOf | src/pipelines_push_action/main.py:133-135 | the definitions whose index entry holds the file |
| Classifier.CollectChanged | src/pipelines_push_action/main.py:128-137 | the set loop gives exactly the touched definitions |
| Classifier.ContributionMembers | src/pipelines_push_action/main.py:130-137 | a changed file adds itself when it is a definition, and marks the definitions listing it when it is a `.py` file or `requirements.txt` |
| Classifier.ChangedDefinitionsMembers | src/pipelines_push_action/main.py:129-137 | a definition is touched iff it was changed itself, or a changed `.py` file or file named `requirements.txt` is one of its dependencies; other changed files are ignored |
| Classifier.ChangedDefinitionsAreDefinitions | src/pipelines_push_action/main.py:129-137 | only definition files are touched, each changed or indexed |
| Classifier.Partition | src/pipelines_push_action/main.py:142-150 | succeeds iff every touched definition loads; each lands, once and as loaded, in the updates when it has a pipeline id and in the creates otherwise, and the space requests are those of the creates without a space id, in order |
| Classifier.SpaceRequestsMembers | src/pipelines_push_action/main.py:149-150 | a space request belongs to a listed definition without a space id and carries its space name |
| Classifier.SpacesAreCreates | src/pipelines_push_action/main.py:149-150 | the space requests name exactly the loaded definitions without a space id, and each of them is to be created |
| Classifier.LoadedIsWired | src/pipelines_push_action/models.py:22-25 | a loaded pipeline names its space when it has no space id, and has a space id when it has a pipeline id |
| Classifier.CollectDeletions | src/pipelines_push_action/main.py:152-163 | the deletion loop ends as the deletion function says, in result and files |
| Classifier.UnlinkedMembers | src/pipelines_push_action/main.py:153-155 | the unlinked files are exactly the deleted files with a definition suffix |
| Classifier.DeletionsSpec | src/pipelines_push_action/main.py:152-163 | the loop succeeds iff every deleted definition file is on disk once; it then skips other suffixes, removes every deleted definition file whether or not it loads, and lists exactly the ones that loaded, in order |
| Classifier.DeletedDefinitionIsListed | src/pipelines_push_action/main.py:157-163 | a deleted definition that loads is listed with its pipeline, and its file is removed |
| Classifier.GetPipelinesToChange | src/pipelines_push_action/main.py:120-170 | succeeds iff every definition below the directory loads, every touched definition loads and every deleted definition file is on disk once; then index, touched definitions, partition and deletions as above; a failure before the deletion loop leaves the files as they were |
| Classifier.PipelineIds | src/pipelines_push_action/main.py:27 | the `pipeline_id`s of the list, in order, unset ones included |
| Classifier.JoinIds | src/pipelines_push_action/main.py:27 | `" ".join` over optional ids fails iff one is unset |
| Classifier.PresentIds | src/pipelines_push_action/main.py:27-29 | a text is listed iff it is one of the set ids; at most one text per id; when all are set, exactly those ids in order |
| Classifier.PresentIdsAppend | src/pipelines_push_action/main.py:27-29 | the set ids keep list order: those of a concatenation are those of each part in turn |
| Classifier.JoinIdsIsJoinWords | src/pipelines_push_action/main.py:27 | over set ids, the join is the space-joined ids |
| Classifier.SplitJoin | src/pipelines_push_action/main.py:27 | ids without spaces are read back one by one from their join |
| Classifier.GenerateOutputs | src/pipelines_push_action/main.py:21-30 | the counts are the lengths of the four lists |
| Classifier.DeleteIdsReadBack | src/pipelines_push_action/main.py:29 | for ids without spaces, the corrected delete-id output is empty when no deleted definition has an id, and otherwise reads back word by word as the set ids, in list order, unset ones skipped |
| Classifier.GenerateOutputsAgrees | src/pipelines_push_action/main.py:25-30 | wherever the summary as written succeeds, it equals the corrected one; the update ids read back as the `pipeline_id`s in list order |
| Classifier.AsWrittenFailsOnMissingId | src/pipelines_push_action/main.py:27-29 | the summary as written fails iff an update or a deletion has no `pipeline_id` |
| Classifier.AsWrittenCounterexample | src/pipelines_push_action/main.py:29 | a valid deleted definition without a `pipeline_id` is listed for deletion, and makes the summary as written fail |
| Reconciler.Values | src/pipelines_push_action/main.py:202 | `new_spaces.values()` in key order |
| Reconciler.LookupAssign | src/pipelines_push_action/main.py:115 | after `new_spaces[file] = id`, the file reads back as the id and every other key as before |
| Reconciler.AssignNewAppends | src/pipelines_push_action/main.py:115 | a new key goes at the end of the dictionary |
| Reconciler.SpaceCalls | src/pipelines_push_action/main.py:114 | one `create_space` call per request, with its name |
| Reconciler.CreateSpaces | src/pipelines_push_action/main.py:108-117 | the loop ends in the files, log, replies and dictionary the space-phase function gives |
| Reconciler.SpacesStep | src/pipelines_push_action/main.py:114-116 | a successful step was granted and wrote the granted id as `space_id` of the request's file |
| Reconciler.SpacesMade | src/pipelines_push_action/main.py:110-116 | a successful phase made one `create_space` per request in order, each granted, and used one reply each |
| Reconciler.SpacesKeys | src/pipelines_push_action/main.py:115 | afterwards a file has an entry iff it had one or was requested |
| Reconciler.SpacesDictionary | src/pipelines_push_action/main.py:109-117 | over distinct new files, the dictionary gains one entry per request, in order, holding the granted id |
| Reconciler.SpacesKeep | src/pipelines_push_action/main.py:116 | no file that no request names is changed |
| Reconciler.SpacesPersisted | src/pipelines_push_action/main.py:116 | over distinct files, each file ends with its granted id as `space_id` |
| Reconciler.Injected | src/pipelines_push_action/main.py:189-191 | the injection keeps a pipeline valid |
| Reconciler.InjectAll | src/pipelines_push_action/main.py:188-192 | one entry per definition, each injected from the dictionary; validity kept |
| Reconciler.InjectSpaces | src/pipelines_push_action/main.py:186-192 | an entry whose file got a new space takes that space id, and only that changes; other entries are unchanged |
| Reconciler.ConversionDescribes | src/pipelines_push_action/yaml_utils.py:117-130 | the converted settings carry the definition's pipeline id, space id and name, marked view-only |
| Reconciler.CreatePipelines | src/pipelines_push_action/main.py:55-70 | the loop ends in the files, log, replies and ids the create-phase function gives |
| Reconciler.CreatesStep | src/pipelines_push_action/main.py:60-68 | a successful step sent settings describing the definition, was granted, and wrote the id into the definition's `pipeline_id` |
| Reconciler.CreatesStepFrame | src/pipelines_push_action/main.py:60-68 | that step touches no other definition file |
| Reconciler.HandlerWriteKeeps | src/pipelines_push_action/yaml_utils.py:102-105 | writing `handler.py` leaves every other file as it was |
| Reconciler.GrantedIds | src/pipelines_push_action/main.py:67 | the ids of granted replies, in order |
| Reconciler.CreatesGranted | src/pipelines_push_action/main.py:66-67 | a successful phase had each create granted, and returns one id per definition, in input order |
| Reconciler.CreatesCalls | src/pipelines_push_action/main.py:57-66 | a successful phase made one `create` per definition, in order, each describing it |
| Reconciler.CreatesKeep | src/pipelines_push_action/main.py:55-70 | a definition file not in the list is left as it was |
| Reconciler.CreatesPersisted | src/pipelines_push_action/main.py:68 | over distinct files, each definition file ends with its granted id as `pipeline_id` |
| Reconciler.UpdatePipelines | src/pipelines_push_action/main.py:73-94 | the loop ends in the files, log and replies the update-phase function gives |
| Reconciler.UpdatesStep | src/pipelines_push_action/main.py:77-93 | a successful step fetched by id and updated with settings describing the definition, both granted |
| Reconciler.UpdatesGranted | src/pipelines_push_action/main.py:83-84 | a successful phase had both calls of every definition granted |
| Reconciler.UpdatesCalls | src/pipelines_push_action/main.py:83-93 | a successful phase fetched and then updated each definition's pipeline by its id, in order |
| Reconciler.UpdatesKeep | src/pipelines_push_action/main.py:73-94 | the update phase writes no definition file |
| Reconciler.Definitions | src/pipelines_push_action/main.py:102 | the entries with a definition suffix, in order |
| Reconciler.DefinitionsMembers | src/pipelines_push_action/main.py:102 | an entry is kept iff it has a definition suffix |
| Reconciler.DeletionCalls | src/pipelines_push_action/main.py:103-104 | two calls per entry |
| Reconciler.DeletionCallsAt | src/pipelines_push_action/main.py:103-104 | for each entry, a fetch by its pipeline id and then a delete of it |
| Reconciler.DeletesFrom | src/pipelines_push_action/main.py:97-105 | the delete phase changes no file |
| Reconciler.DeletePipelines | src/pipelines_push_action/main.py:97-105 | the loop ends in the log and replies the delete-phase function gives |
| Reconciler.DeletesStep | src/pipelines_push_action/main.py:102-104 | a successful step over a definition entry had both calls granted |
| Reconciler.DeletesGranted | src/pipelines_push_action/main.py:102-104 | a successful phase had both calls of every definition entry granted |
| Reconciler.DeletesCalls | src/pipelines_push_action/main.py:97-105 | a successful phase fetched and deleted, by id and in order, exactly the entries with a definition suffix |
| Push.WordsOutput | src/pipelines_push_action/main.py:198-202 | an id output is set iff there is an id to list |
| Push.WordsOutputSplits | src/pipelines_push_action/main.py:199 | ids without spaces are read back one by one from the output |
| Push.Phases | src/pipelines_push_action/main.py:186-196 | a successful push ran the four phases one after the other, each successfully, each from where the previous ended |
| Push.PhaseCalls | src/pipelines_push_action/main.py:186-196 | the log of a successful push is the old log, then the space calls, then calls that create each injected definition, then calls that update each update, then the deletion calls |
| Push.PhaseOrder | src/pipelines_push_action/main.py:186-196 | a successful push's calls are the space creations in request order, then one create per injected definition, then a fetch and update per update, then a fetch and delete per deleted definition |
| Push.InjectedHasSpace | src/pipelines_push_action/main.py:186-192 | a definition to create without a space id gets one from the space phase |
| Push.CreatedInSpaces | src/pipelines_push_action/main.py:186-194 | every pipeline a push creates has a space id |
| Push.IdsRecordedAfter | src/pipelines_push_action/main.py:194-195 | the create phase followed by the update phase leaves each created id in its definition file |
| Push.IdsRecorded | src/pipelines_push_action/main.py:186-196 | after a successful push there is one created id per definition to create, and each definition file holds its id as `pipeline_id` |
| Push.TakenAreValid | src/pipelines_push_action/main.py:142-147 | the definitions a classification takes from loaded files are valid |
| Push.PushToCloud | src/pipelines_push_action/main.py:173-202 | the classification succeeds iff every definition loads, every touched one loads and every deleted definition file is on disk once, and a failed one makes no call and leaves the files as they were, or, when the deletion loop failed, as that loop left them; a dry run returns the summary, makes no call and leaves the files as the classification left them; otherwise files, log and replies are those of the four phases, and the outputs are the summary plus the created ids and new space ids when there are any |

## Left out

- I/O: the YAML engine, reading files from disk, formatting and comments. A file is a parsed document or a text; writes replace the whole value.
- The GlassFlow SDK: the client is a call log and a script of replies. A reply is a fresh id or a failure. Remote objects are the ids they were fetched by.
- `rglob` enumeration order: the enumerated files are a set, and the index and classification hold for every order.
- Set iteration order in `get_pipelines_to_change`: the creates and updates come in an order that is left open.
- `set_outputs`, logging and the human-readable message of `generate_outputs`, including its delete-id suffix gated on the update count (main.py:36).
- argparse `main`, the access token handed to every conversion, and `exit(0)` on a dry run: the dry run returns its summary instead.
- Pydantic mechanics: both `ValidationError(...)` misuses and the bare `assert`s are a validation failure (`Invalid`). `ConnectorConfig` is a map from name to a parameter or a header list; an empty one is truthy, as a `RootModel` instance is.
- YamlUtils.DependenciesShape: the entries are joined as strings and not normalised as pathlib's `/` does, so a `./handler.py` entry stays `dir/./handler.py`, and `Classifier.DependentsOf` would not match it against a changed `dir/handler.py`.
- Paths.Join and Paths.IsBelow: paths are taken to be in pathlib's normal form, with no "." segment, doubled separator or trailing separator; pathlib drops those when it joins and compares, so a directory given as `./pipelines` matches nothing here.
- Push.PushToCloud: it summarises with the corrected `generate_outputs`. Where main.py:29 raises (a deleted definition without `pipeline_id`), the action stops before any remote call, while the model goes on and logs a fetch and a delete by the unset id.
- LegacyYamlUtils.AddPipelineIdToYaml and LegacyYamlUtils.AddSpaceIdToYaml: on a definition file, the prepended line is modelled on the parsed document, taking the file to be a block mapping and the id to be read back as a string; an id that YAML reads as a number, a boolean or null is not modelled.
- LegacyYamlUtils.LegacyLoad: src/script/yaml_utils.py:7 imports `Pipeline` from a `models` module that is not part of this model; the model takes it to be src/pipelines_push_action/models.py, so the legacy loader applies the validators of `Models`. The legacy claims that rest on it (`LegacyLoad` gives valid pipelines, `LegacyLoadAgrees`, `LegacyIndexAgrees`, and the failed validation in `LegacyPipelineIdReadBack`) hold under that assumption only.
- LegacyYamlUtils.LegacyLoadAgrees and LegacyYamlUtils.LegacyIndexAgrees: both loaders read one shared parsed document. The legacy loader's `safe_load` is a YAML 1.1 engine that keeps the last of duplicate keys, while the main loader's round-trip engine reads YAML 1.2 and rejects a duplicate key. So on real text they can disagree: `name: yes` is a boolean for the legacy loader and fails the `str` field, and a file that `add_pipeline_id_to_yaml` gave a second `pipeline_id` loads only with the legacy loader.
- models.py uses `RootModel` without importing it, so importing the module raises a NameError and the action cannot start as written; the model takes the import to be there.
- `errors.py`, `github_utils.py` and the test fixtures are not part of this model.
- Reconciler.UpdatePipelines: the logged update carries the whole converted settings; the source sends only the name, transformation file, requirements, connector kinds and configs and the environment variables (main.py:84-93).
- Push.PushToCloud: on a failure after the summary, the model returns only the error, while the action has already emitted the summary outputs.
- Push.IdsRecorded, Push.CreatedInSpaces and Push.PhaseOrder are stated for a push that succeeds; what a failed push leaves behind is given only by `Push.ApplyChanges`.
- Push.IdsRecorded: that the create phase keeps each `space_id` written by the space phase is not stated.
- Reconciler.CreatesGranted, Reconciler.UpdatesGranted and Reconciler.DeletesGranted: how many replies each phase uses up is stated only for the space phase (`Reconciler.SpacesMade`).

## Findings

| source | as written | input that shows it | evidently intended | confidence | as-written member | corrected member |
|---|---|---|---|---|---|---|
| src/pipelines_push_action/main.py:29 | `to_delete_ids` joins the `pipeline_id` of every deleted definition, and `" ".join` raises a TypeError on a None | a deleted definition file that loads but was never pushed, so it has no `pipeline_id` (`Classifier.Draft`) | list the ids that are set, so the summary and the rest of the push go ahead | medium, not executed | Classifier.AsWrittenCounterexample | Classifier.GenerateOutputs |
