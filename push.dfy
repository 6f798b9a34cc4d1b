/** `push_to_cloud`: classify the changed and deleted files, summarise the changes, and
    (unless it is a dry run) create the missing spaces, hand their ids to the pipelines
    about to be created, then create, update and delete pipelines. */
module Push {
  import opened Base
  import opened Paths
  import opened Documents
  import opened Models
  import opened YamlUtils
  import opened Remote
  import opened Classifier
  import opened Reconciler

  /** What the remote phases give back: the ids of the created pipelines, in creation
      order, and the `new_spaces` dictionary. */
  datatype Made = Made(ids: seq<string>, spaces: seq<Entry>)

  /** The remote phases of `push_to_cloud`, one after the other; the first failure ends
      the push where it happened. */
  function ApplyChanges(files: Files, log: seq<Call>, replies: seq<Reply>, c: Changes): Run<Made>
    requires AllValid(c.toCreate) && AllValid(c.toUpdate)
  {
    var s := SpacesFrom(files, log, replies, c.spacesToCreate, []);
    if s.result.Err? then Run(Err(s.result.error), s.files, s.log, s.replies)
    else
      var k := CreatesFrom(s.files, s.log, s.replies, InjectAll(c.toCreate, s.result.value), []);
      if k.result.Err? then Run(Err(k.result.error), k.files, k.log, k.replies)
      else
        var u := UpdatesFrom(k.files, k.log, k.replies, c.toUpdate);
        if u.result.Err? then Run(Err(u.result.error), u.files, u.log, u.replies)
        else
          var d := DeletesFrom(u.files, u.log, u.replies, c.toDelete);
          if d.result.Err? then Run(Err(d.result.error), d.files, d.log, d.replies)
          else Run(Ok(Made(k.result.value, s.result.value)), d.files, d.log, d.replies)
  }

  /** A list of words as an optional output: set only when there is something to list. */
  function WordsOutput(words: seq<string>): (r: Option<string>)
    ensures r.Some? <==> words != []
  {
    if words == [] then None else Some(JoinWords(words))
  }

  /** Words without spaces are read back from the output one by one. */
  lemma WordsOutputSplits(words: seq<string>)
    requires words != [] && forall w | w in words :: ' ' !in w
    ensures WordsOutput(words).Some? && SplitWords(WordsOutput(words).value) == words
  {
    SplitJoin(words);
  }

  /** What a push reports: the summary of the changes, and on a real push the
      `to-create-ids` and `spaces-to-create-ids` outputs when they are set. */
  datatype Pushed = Pushed(outputs: Outputs, createdIds: Option<string>, spaceIds: Option<string>)

  /** The phases of a push that succeeds, each of which succeeds. */
  lemma Phases(files: Files, log: seq<Call>, replies: seq<Reply>, c: Changes)
    returns (s: Run<seq<Entry>>, k: Run<seq<string>>, u: Run<()>, d: Run<()>)
    requires AllValid(c.toCreate) && AllValid(c.toUpdate)
    requires ApplyChanges(files, log, replies, c).result.Ok?
    ensures s == SpacesFrom(files, log, replies, c.spacesToCreate, []) && s.result.Ok?
    ensures k == CreatesFrom(s.files, s.log, s.replies, InjectAll(c.toCreate, s.result.value), []) && k.result.Ok?
    ensures u == UpdatesFrom(k.files, k.log, k.replies, c.toUpdate) && u.result.Ok?
    ensures d == DeletesFrom(u.files, u.log, u.replies, c.toDelete) && d.result.Ok?
    ensures ApplyChanges(files, log, replies, c) == Run(Ok(Made(k.result.value, s.result.value)), u.files, d.log, d.replies)
  {
    s := SpacesFrom(files, log, replies, c.spacesToCreate, []);
    k := CreatesFrom(s.files, s.log, s.replies, InjectAll(c.toCreate, s.result.value), []);
    u := UpdatesFrom(k.files, k.log, k.replies, c.toUpdate);
    d := DeletesFrom(u.files, u.log, u.replies, c.toDelete);
  }

  /** The calls after `log` come in the phases of a push: the `create_space` calls in
      request order, one `create` per definition describing it as given, with the space
      from `spaces` filled in, a fetch and an update per definition to update, and a fetch
      and a delete per deleted definition file. */
  ghost predicate Phased(full: seq<Call>, log: seq<Call>, c: Changes, spaces: seq<Entry>)
  {
    exists creates: seq<Call>, updates: seq<Call> ::
      full == log + SpaceCalls(c.spacesToCreate) + creates + updates + DeletionCalls(Definitions(c.toDelete)) &&
      CreatesCalled(creates, InjectAll(c.toCreate, spaces)) && UpdatesCalled(updates, c.toUpdate)
  }

  /** The calls of the four phases of a push, each of which succeeds. */
  lemma PhaseCalls(files: Files, log: seq<Call>, replies: seq<Reply>, c: Changes,
                   s: Run<seq<Entry>>, k: Run<seq<string>>, u: Run<()>, d: Run<()>)
    returns (creates: seq<Call>, updates: seq<Call>)
    requires AllValid(c.toCreate) && AllValid(c.toUpdate)
    requires s == SpacesFrom(files, log, replies, c.spacesToCreate, []) && s.result.Ok?
    requires k == CreatesFrom(s.files, s.log, s.replies, InjectAll(c.toCreate, s.result.value), []) && k.result.Ok?
    requires u == UpdatesFrom(k.files, k.log, k.replies, c.toUpdate) && u.result.Ok?
    requires d == DeletesFrom(u.files, u.log, u.replies, c.toDelete) && d.result.Ok?
    ensures d.log == log + SpaceCalls(c.spacesToCreate) + creates + updates + DeletionCalls(Definitions(c.toDelete))
    ensures CreatesCalled(creates, InjectAll(c.toCreate, s.result.value)) && UpdatesCalled(updates, c.toUpdate)
  {
    var inj := InjectAll(c.toCreate, s.result.value);
    SpacesMade(files, log, replies, c.spacesToCreate, []);
    CreatesCalls(s.files, s.log, s.replies, inj, []);
    UpdatesCalls(k.files, k.log, k.replies, c.toUpdate);
    DeletesCalls(u.files, u.log, u.replies, c.toDelete);
    creates := k.log[|s.log|..];
    updates := u.log[|k.log|..];
    LogsChain(log, SpaceCalls(c.spacesToCreate), s.log, k.log, u.log, d.log, DeletionCalls(Definitions(c.toDelete)));
  }

  /** Logs that each extend the one before. */
  lemma LogsChain<T>(log: seq<T>, first: seq<T>, a: seq<T>, b: seq<T>, c: seq<T>, d: seq<T>, last: seq<T>)
    requires a == log + first && d == c + last
    requires |b| >= |a| && b[..|a|] == a && |c| >= |b| && c[..|b|] == b
    ensures d == log + first + b[|a|..] + c[|b|..] + last
  {
    assert b == a + b[|a|..];
    assert c == b + c[|b|..];
  }

  /** A push that succeeds talks to the service in phases (see `Phased`), creating the
      pipelines with the spaces of the `new_spaces` dictionary it gives back. */
  lemma PhaseOrder(files: Files, log: seq<Call>, replies: seq<Reply>, c: Changes)
    requires AllValid(c.toCreate) && AllValid(c.toUpdate)
    requires ApplyChanges(files, log, replies, c).result.Ok?
    ensures var run := ApplyChanges(files, log, replies, c);
      Phased(run.log, log, c, run.result.value.spaces)
  {
    var s, k, u, d := Phases(files, log, replies, c);
    var creates, updates := PhaseCalls(files, log, replies, c, s, k, u, d);
  }

  /** A definition to create without a space id names a space that the space phase
      creates for it, so after the injection it has a space id. */
  lemma InjectedHasSpace(files: Files, log: seq<Call>, replies: seq<Reply>, c: Changes, spaces: seq<Entry>, i: nat)
    requires NamesSpaces(c.toCreate) && c.spacesToCreate == SpaceRequestsOf(c.toCreate)
    requires SpacesFrom(files, log, replies, c.spacesToCreate, []).result == Ok(spaces)
    requires i < |c.toCreate|
    ensures InjectAll(c.toCreate, spaces)[i].pipeline.spaceId.Some?
  {
    var ch := c.toCreate[i];
    if ch.pipeline.spaceId.None? {
      var req := SpaceRequest(ch.file, ch.pipeline.spaceName.value);
      SpaceRequestsMembers(c.toCreate, req);
      var j :| 0 <= j < |c.spacesToCreate| && c.spacesToCreate[j] == req;
      assert Requested(c.spacesToCreate, ch.file);
      SpacesKeys(files, log, replies, c.spacesToCreate, [], ch.file);
    }
  }

  /** Every definition the push creates is created in a space: one it already named by id,
      or the one created for it in the space phase. */
  lemma CreatedInSpaces(files: Files, log: seq<Call>, replies: seq<Reply>, c: Changes)
    requires AllValid(c.toCreate) && AllValid(c.toUpdate)
    requires NamesSpaces(c.toCreate) && c.spacesToCreate == SpaceRequestsOf(c.toCreate)
    requires ApplyChanges(files, log, replies, c).result.Ok?
    ensures var run := ApplyChanges(files, log, replies, c);
      forall i | 0 <= i < |c.toCreate| :: InjectAll(c.toCreate, run.result.value.spaces)[i].pipeline.spaceId.Some?
  {
    var s, k, u, d := Phases(files, log, replies, c);
    forall i | 0 <= i < |c.toCreate|
      ensures InjectAll(c.toCreate, s.result.value)[i].pipeline.spaceId.Some?
    {
      InjectedHasSpace(files, log, replies, c, s.result.value, i);
    }
  }

  /** The create phase over distinct files followed by the update phase: each definition
      file holds the id it was created under. */
  lemma IdsRecordedAfter(files: Files, log: seq<Call>, replies: seq<Reply>, toCreate: seq<Change>,
                         toUpdate: seq<Change>, k: Run<seq<string>>, u: Run<()>)
    requires AllValid(toCreate) && AllValid(toUpdate) && DistinctFiles(toCreate)
    requires k == CreatesFrom(files, log, replies, toCreate, []) && k.result.Ok?
    requires u == UpdatesFrom(k.files, k.log, k.replies, toUpdate) && u.result.Ok?
    ensures |k.result.value| == |toCreate|
    ensures forall i | 0 <= i < |toCreate| && IsYaml(toCreate[i].file) ::
      IdWritten(u.files, toCreate[i].file, k.result.value[i])
  {
    CreatesGranted(files, log, replies, toCreate, []);
    CreatesPersisted(files, log, replies, toCreate, []);
    var ids := k.result.value;
    assert ids == GrantedIds(replies[..|toCreate|]);
    forall i | 0 <= i < |toCreate| && IsYaml(toCreate[i].file)
      ensures IdWritten(u.files, toCreate[i].file, ids[i])
    {
      assert ids[i] == replies[i].id;
      assert CreatedAs(k.files, toCreate[i], replies[i]);
      UpdatesKeep(k.files, k.log, k.replies, toUpdate, toCreate[i].file);
      IdWrittenKept(k.files, u.files, toCreate[i].file, ids[i]);
    }
  }

  /** After a push that succeeds over distinct definition files, there is one created id
      per definition to create, and each definition file has that id as its `pipeline_id`. */
  lemma IdsRecorded(files: Files, log: seq<Call>, replies: seq<Reply>, c: Changes)
    requires AllValid(c.toCreate) && AllValid(c.toUpdate) && DistinctFiles(c.toCreate)
    requires ApplyChanges(files, log, replies, c).result.Ok?
    ensures var run := ApplyChanges(files, log, replies, c);
      |run.result.value.ids| == |c.toCreate| &&
      forall i | 0 <= i < |c.toCreate| && IsYaml(c.toCreate[i].file) ::
        IdWritten(run.files, c.toCreate[i].file, run.result.value.ids[i])
  {
    var s, k, u, d := Phases(files, log, replies, c);
    var inj := InjectAll(c.toCreate, s.result.value);
    assert DistinctFiles(inj) by {
      assert forall i | 0 <= i < |inj| :: inj[i].file == c.toCreate[i].file;
    }
    IdsRecordedAfter(s.files, s.log, s.replies, inj, c.toUpdate, k, u);
    forall i | 0 <= i < |c.toCreate| && IsYaml(c.toCreate[i].file)
      ensures IdWritten(u.files, c.toCreate[i].file, k.result.value[i])
    {
      assert inj[i].file == c.toCreate[i].file;
    }
  }

  /** The definitions a classification takes from the files it loaded are valid. */
  lemma TakenAreValid(files: Files, loaded: map<Path, Pipeline>, cs: seq<Change>, pushed: bool)
    requires LoadsAs(files, loaded) && Takes(loaded, cs, pushed)
    ensures AllValid(cs)
  {
    forall i | 0 <= i < |cs|
      ensures ValidPipeline(cs[i].pipeline)
    {
      assert Load(files, cs[i].file) == Ok(loaded[cs[i].file]);
    }
  }

  method PushToCloud(fs: FileSystem, client: Client, changed: seq<Path>, deleted: seq<Path>, dir: Path,
                     dryRun: bool)
    returns (r: Result<Pushed>, ghost changes: Result<Changes>, ghost classified: Files)
    modifies fs, client
    ensures changes.Ok? <==> Classifiable(old(fs.files), dir, changed, deleted)
    ensures changes.Err? ==>
      r == Err(changes.error) && client.log == old(client.log) && client.replies == old(client.replies)
    ensures changes.Err? ==> fs.files == classified
    ensures changes.Err? ==> (classified == old(fs.files) ||
      (DeletionsFrom(old(fs.files), deleted, []).result.Err? && DeletionsFrom(old(fs.files), deleted, []).files == classified))
    ensures changes.Ok? ==> exists index: map<Path, seq<Path>>, loaded: map<Path, Pipeline> ::
      IsIndexOf(index, old(fs.files), dir) &&
      loaded.Keys == ChangedDefinitions(changed, index) && LoadsAs(old(fs.files), loaded) &&
      IsPartition(Classified(changes.value.toCreate, changes.value.toUpdate, changes.value.spacesToCreate), loaded)
    ensures changes.Ok? ==> DeletionsFrom(old(fs.files), deleted, []) == Deleted(Ok(changes.value.toDelete), classified)
    ensures changes.Ok? ==> AllValid(changes.value.toCreate) && AllValid(changes.value.toUpdate)
    ensures changes.Ok? && dryRun ==>
      r == Ok(Pushed(GenerateOutputs(changes.value), None, None)) && fs.files == classified &&
      client.log == old(client.log) && client.replies == old(client.replies)
    ensures changes.Ok? && !dryRun ==>
      var run := ApplyChanges(classified, old(client.log), old(client.replies), changes.value);
      fs.files == run.files && client.log == run.log && client.replies == run.replies &&
      r == (if run.result.Err? then Err(run.result.error)
            else Ok(Pushed(GenerateOutputs(changes.value), WordsOutput(run.result.value.ids),
                           WordsOutput(Values(run.result.value.spaces)))))
  {
    var classification := GetPipelinesToChange(fs, deleted, changed, dir);
    changes := classification;
    classified := fs.files;
    if classification.Err? {
      return Err(classification.error), changes, classified;
    }
    var c := classification.value;
    ghost var index: map<Path, seq<Path>>, loaded: map<Path, Pipeline> :|
      IsIndexOf(index, old(fs.files), dir) &&
      loaded.Keys == ChangedDefinitions(changed, index) && LoadsAs(old(fs.files), loaded) &&
      IsPartition(Classified(c.toCreate, c.toUpdate, c.spacesToCreate), loaded);
    TakenAreValid(old(fs.files), loaded, c.toCreate, false);
    TakenAreValid(old(fs.files), loaded, c.toUpdate, true);
    var outputs := GenerateOutputs(c);
    if dryRun {
      return Ok(Pushed(outputs, None, None)), changes, classified;
    }
    var spaces := CreateSpaces(fs, client, c.spacesToCreate);
    if spaces.Err? {
      return Err(spaces.error), changes, classified;
    }
    var toCreate := InjectSpaces(c.toCreate, spaces.value);
    var ids := CreatePipelines(fs, client, toCreate);
    if ids.Err? {
      return Err(ids.error), changes, classified;
    }
    var updated := UpdatePipelines(fs, client, c.toUpdate);
    if updated.Err? {
      return Err(updated.error), changes, classified;
    }
    var removed := DeletePipelines(client, c.toDelete, fs.files);
    if removed.Err? {
      return Err(removed.error), changes, classified;
    }
    r := Ok(Pushed(outputs, WordsOutput(ids.value), WordsOutput(Values(spaces.value))));
  }
}
