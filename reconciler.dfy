/** The remote half of a push (`push_to_cloud` and the phases it runs): create the
    missing spaces, give their ids to the definitions about to be created, then create,
    update and delete pipelines, in that order. Each phase is specified by a function of
    the files, the calls made so far and the answers still to come. */
module Reconciler {
  import opened Base
  import opened Paths
  import opened Documents
  import opened Models
  import opened YamlUtils
  import opened Remote
  import opened Classifier

  /** Where a phase leaves the world: what it gives back, the files, the calls made so
      far and the answers still to come. */
  datatype Run<T> = Run(result: Result<T>, files: Files, log: seq<Call>, replies: seq<Reply>)

  // ---------------------------------------------------------------------------
  // The `new_spaces` dictionary: insertion-ordered, as Python's `dict` is

  datatype Entry = Entry(file: Path, id: string)

  /** `d[file] = id`: an existing key keeps its place and takes the new value, a new key
      goes last. */
  function Assign(d: seq<Entry>, file: Path, id: string): seq<Entry>
  {
    if d == [] then [Entry(file, id)]
    else if d[0].file == file then [Entry(file, id)] + d[1..]
    else [d[0]] + Assign(d[1..], file, id)
  }

  /** `d.get(file)`. */
  function Lookup(d: seq<Entry>, file: Path): Option<string>
  {
    if d == [] then None
    else if d[0].file == file then Some(d[0].id)
    else Lookup(d[1..], file)
  }

  /** `d.values()`, in key order. */
  function Values(d: seq<Entry>): (r: seq<string>)
    ensures |r| == |d| && forall i | 0 <= i < |d| :: r[i] == d[i].id
  {
    if d == [] then [] else [d[0].id] + Values(d[1..])
  }

  /** After `d[file] = id`, `file` reads back as `id` and every other key as before. */
  lemma {:induction false} LookupAssign(d: seq<Entry>, file: Path, id: string, g: Path)
    ensures Lookup(Assign(d, file, id), g) == if g == file then Some(id) else Lookup(d, g)
  {
    if d != [] && d[0].file != file {
      LookupAssign(d[1..], file, id, g);
    }
  }

  /** A key not yet present is appended at the end. */
  lemma {:induction false} AssignNewAppends(d: seq<Entry>, file: Path, id: string)
    requires Lookup(d, file).None?
    ensures Assign(d, file, id) == d + [Entry(file, id)]
  {
    if d != [] {
      AssignNewAppends(d[1..], file, id);
      assert [d[0]] + (d[1..] + [Entry(file, id)]) == d + [Entry(file, id)];
    }
  }

  /** Reading a key of a dictionary with one more entry at the end. */
  lemma {:induction false} LookupAppend(d: seq<Entry>, e: Entry, g: Path)
    ensures Lookup(d + [e], g) == if Lookup(d, g).Some? then Lookup(d, g) else if e.file == g then Some(e.id) else None
  {
    if d != [] {
      assert (d + [e])[1..] == d[1..] + [e];
      LookupAppend(d[1..], e, g);
    }
  }

  // ---------------------------------------------------------------------------
  // `create_spaces`

  /** Some request is for the definition `g`. */
  predicate Requested(todo: seq<SpaceRequest>, g: Path)
  {
    exists i | 0 <= i < |todo| :: todo[i].file == g
  }

  lemma RequestedCons(todo: seq<SpaceRequest>, g: Path)
    requires todo != []
    ensures Requested(todo, g) <==> todo[0].file == g || Requested(todo[1..], g)
  {
    if Requested(todo[1..], g) {
      var i :| 0 <= i < |todo[1..]| && todo[1..][i].file == g;
      assert todo[i + 1].file == g;
    }
    if Requested(todo, g) && todo[0].file != g {
      var i :| 0 <= i < |todo| && todo[i].file == g;
      assert todo[1..][i - 1].file == g;
    }
  }

  predicate DistinctRequests(todo: seq<SpaceRequest>)
  {
    forall i, j | 0 <= i < j < |todo| :: todo[i].file != todo[j].file
  }

  /** `create_spaces` from the request `todo[0]` on, with `acc` the dictionary so far:
      create the space, record its id under the definition's file, write the id into
      the definition; the first failure ends the phase. */
  function SpacesFrom(files: Files, log: seq<Call>, replies: seq<Reply>, todo: seq<SpaceRequest>,
                      acc: seq<Entry>): Run<seq<Entry>>
    decreases |todo|
  {
    if todo == [] then Run(Ok(acc), files, log, replies)
    else
      var call := CreateSpace(todo[0].name);
      var space := Answer(replies);
      if space.Err? then Run(Err(space.error), files, log + [call], Rest(replies))
      else
        var written := SetKey(files, todo[0].file, None, "space_id", Str(space.value));
        if written.Err? then Run(Err(written.error), files, log + [call], Rest(replies))
        else SpacesFrom(written.value, log + [call], Rest(replies), todo[1..], Assign(acc, todo[0].file, space.value))
  }

  /** One `create_space` call per request, in order. */
  function SpaceCalls(todo: seq<SpaceRequest>): (r: seq<Call>)
    ensures |r| == |todo| && forall i | 0 <= i < |todo| :: r[i] == CreateSpace(todo[i].name)
  {
    if todo == [] then [] else [CreateSpace(todo[0].name)] + SpaceCalls(todo[1..])
  }

  method CreateSpaces(fs: FileSystem, client: Client, todo: seq<SpaceRequest>) returns (r: Result<seq<Entry>>)
    modifies fs, client
    ensures Run(r, fs.files, client.log, client.replies) ==
            SpacesFrom(old(fs.files), old(client.log), old(client.replies), todo, [])
  {
    var spaces: seq<Entry> := [];
    for i := 0 to |todo|
      invariant SpacesFrom(fs.files, client.log, client.replies, todo[i..], spaces) ==
                SpacesFrom(old(fs.files), old(client.log), old(client.replies), todo, [])
    {
      assert todo[i..][1..] == todo[i + 1..];
      var space := client.Request(CreateSpace(todo[i].name));
      if space.Err? {
        return Err(space.error);
      }
      var written := UpdateSpaceIdInYaml(fs, space.value, todo[i].file, None);
      if written.Err? {
        return Err(written.error);
      }
      spaces := Assign(spaces, todo[i].file, space.value);
    }
    assert todo[|todo|..] == [];
    return Ok(spaces);
  }

  /** One successful step of the phase: the space is granted, its id is written into the
      definition, and the phase goes on from there. */
  lemma SpacesStep(files: Files, log: seq<Call>, replies: seq<Reply>, todo: seq<SpaceRequest>, acc: seq<Entry>)
    returns (next: Files)
    requires todo != [] && SpacesFrom(files, log, replies, todo, acc).result.Ok?
    ensures |replies| > 0 && replies[0].Granted?
    ensures SetKey(files, todo[0].file, None, "space_id", Str(replies[0].id)) == Ok(next)
    ensures SpacesFrom(files, log, replies, todo, acc) ==
            SpacesFrom(next, log + [CreateSpace(todo[0].name)], replies[1..], todo[1..],
                       Assign(acc, todo[0].file, replies[0].id))
  {
    next := SetKey(files, todo[0].file, None, "space_id", Str(replies[0].id)).value;
  }

  /** A phase that succeeds has made one `create_space` call per request, in order, each
      granted, and used up one answer per call. */
  lemma {:induction false} SpacesMade(files: Files, log: seq<Call>, replies: seq<Reply>, todo: seq<SpaceRequest>,
                                      acc: seq<Entry>)
    requires SpacesFrom(files, log, replies, todo, acc).result.Ok?
    ensures |todo| <= |replies| && forall i | 0 <= i < |todo| :: replies[i].Granted?
    ensures var s := SpacesFrom(files, log, replies, todo, acc);
      s.log == log + SpaceCalls(todo) && s.replies == replies[|todo|..]
    decreases |todo|
  {
    if todo != [] {
      var next := SpacesStep(files, log, replies, todo, acc);
      var call := CreateSpace(todo[0].name);
      SpacesMade(next, log + [call], replies[1..], todo[1..], Assign(acc, todo[0].file, replies[0].id));
      GrantedAfter(replies, |todo|);
      AppendOne(log, call, SpaceCalls(todo[1..]));
      assert replies[1..][|todo| - 1..] == replies[|todo|..];
    }
  }

  /** After a successful phase, a file has an entry exactly when it had one before or
      some request was for it. */
  lemma {:induction false} SpacesKeys(files: Files, log: seq<Call>, replies: seq<Reply>, todo: seq<SpaceRequest>,
                                      acc: seq<Entry>, g: Path)
    requires SpacesFrom(files, log, replies, todo, acc).result.Ok?
    ensures Lookup(SpacesFrom(files, log, replies, todo, acc).result.value, g).Some? <==>
            Lookup(acc, g).Some? || Requested(todo, g)
    decreases |todo|
  {
    if todo != [] {
      var next := SpacesStep(files, log, replies, todo, acc);
      var id := replies[0].id;
      SpacesKeys(next, log + [CreateSpace(todo[0].name)], replies[1..], todo[1..], Assign(acc, todo[0].file, id), g);
      LookupAssign(acc, todo[0].file, id, g);
      RequestedCons(todo, g);
    }
  }

  /** The entries a run over distinct requests adds: one per request, in request order,
      holding the granted id. */
  function NewEntries(todo: seq<SpaceRequest>, replies: seq<Reply>): (r: seq<Entry>)
    requires |todo| <= |replies| && forall i | 0 <= i < |todo| :: replies[i].Granted?
    ensures |r| == |todo| && forall i | 0 <= i < |todo| :: r[i] == Entry(todo[i].file, replies[i].id)
  {
    if todo == [] then [] else [Entry(todo[0].file, replies[0].id)] + NewEntries(todo[1..], replies[1..])
  }

  /** The rest of a list of requests for distinct files is distinct and lacks the first. */
  lemma DistinctRequestsTail(todo: seq<SpaceRequest>)
    requires todo != [] && DistinctRequests(todo)
    ensures DistinctRequests(todo[1..]) && !Requested(todo[1..], todo[0].file)
  {
    var rest := todo[1..];
    forall i, j | 0 <= i < j < |rest|
      ensures rest[i].file != rest[j].file
    {
      assert rest[i] == todo[i + 1] && rest[j] == todo[j + 1];
    }
    forall i | 0 <= i < |rest|
      ensures rest[i].file != todo[0].file
    {
      assert rest[i] == todo[i + 1];
    }
  }

  /** Over requests for distinct new files, the dictionary gains one entry per request, in
      request order, so `new_spaces.values()` lists the granted ids in that order. */
  lemma {:induction false} SpacesDictionary(files: Files, log: seq<Call>, replies: seq<Reply>, todo: seq<SpaceRequest>,
                                            acc: seq<Entry>)
    requires SpacesFrom(files, log, replies, todo, acc).result.Ok?
    requires DistinctRequests(todo) && forall i | 0 <= i < |todo| :: Lookup(acc, todo[i].file).None?
    ensures |todo| <= |replies| && forall i | 0 <= i < |todo| :: replies[i].Granted?
    ensures SpacesFrom(files, log, replies, todo, acc).result.value == acc + NewEntries(todo, replies)
    decreases |todo|
  {
    if todo != [] {
      var next := SpacesStep(files, log, replies, todo, acc);
      var id := replies[0].id;
      var e := Entry(todo[0].file, id);
      AssignNewAppends(acc, todo[0].file, id);
      DistinctRequestsTail(todo);
      forall i | 0 <= i < |todo[1..]|
        ensures Lookup(acc + [e], todo[1..][i].file).None?
      {
        assert todo[1..][i] == todo[i + 1];
        LookupAppend(acc, e, todo[i + 1].file);
      }
      SpacesDictionary(next, log + [CreateSpace(todo[0].name)], replies[1..], todo[1..], acc + [e]);
      GrantedAfter(replies, |todo|);
      AppendOne(acc, e, NewEntries(todo[1..], replies[1..]));
    }
  }

  /** The file `f` is a document whose `space_id` is the text `id`. */
  predicate SpaceIdWritten(files: Files, f: Path, id: string)
  {
    f in files && files[f].Doc? && "space_id" in files[f].doc && files[f].doc["space_id"] == Str(id)
  }

  /** A successful phase changes no file that no request names. */
  lemma {:induction false} SpacesKeep(files: Files, log: seq<Call>, replies: seq<Reply>, todo: seq<SpaceRequest>,
                                      acc: seq<Entry>, q: Path)
    requires SpacesFrom(files, log, replies, todo, acc).result.Ok?
    requires !Requested(todo, q)
    ensures Untouched(files, SpacesFrom(files, log, replies, todo, acc).files, q)
    decreases |todo|
  {
    if todo != [] {
      RequestedCons(todo, q);
      var next := SpacesStep(files, log, replies, todo, acc);
      SetKeyFrame(files, todo[0].file, None, "space_id", Str(replies[0].id));
      SpacesKeep(next, log + [CreateSpace(todo[0].name)], replies[1..], todo[1..],
                 Assign(acc, todo[0].file, replies[0].id), q);
    }
  }

  /** A successful phase over requests for distinct files writes each granted id into the
      `space_id` of its definition. */
  lemma {:induction false} SpacesPersisted(files: Files, log: seq<Call>, replies: seq<Reply>, todo: seq<SpaceRequest>,
                                           acc: seq<Entry>)
    requires SpacesFrom(files, log, replies, todo, acc).result.Ok?
    requires DistinctRequests(todo)
    ensures |todo| <= |replies| && forall i | 0 <= i < |todo| ::
      replies[i].Granted? && SpaceIdWritten(SpacesFrom(files, log, replies, todo, acc).files, todo[i].file, replies[i].id)
    decreases |todo|
  {
    if todo != [] {
      var next := SpacesStep(files, log, replies, todo, acc);
      var log' := log + [CreateSpace(todo[0].name)];
      var acc' := Assign(acc, todo[0].file, replies[0].id);
      SetKeyFrame(files, todo[0].file, None, "space_id", Str(replies[0].id));
      DistinctRequestsTail(todo);
      SpacesPersisted(next, log', replies[1..], todo[1..], acc');
      SpacesKeep(next, log', replies[1..], todo[1..], acc', todo[0].file);
      var after := SpacesFrom(next, log', replies[1..], todo[1..], acc').files;
      forall i | 1 <= i < |todo|
        ensures replies[i].Granted? && SpaceIdWritten(after, todo[i].file, replies[i].id)
      {
        assert todo[1..][i - 1] == todo[i] && replies[1..][i - 1] == replies[i];
      }
    }
  }

  // ---------------------------------------------------------------------------
  // Giving the new space ids to the definitions about to be created

  /** All the pipelines satisfy the model's validators. */
  predicate AllValid(cs: seq<Change>)
  {
    forall i | 0 <= i < |cs| :: ValidPipeline(cs[i].pipeline)
  }

  /** A definition after the injection: its file's new space id, if it got one. */
  function Injected(c: Change, spaces: seq<Entry>): (r: Change)
    ensures ValidPipeline(c.pipeline) ==> ValidPipeline(r.pipeline)
  {
    var id := Lookup(spaces, c.file);
    if id.Some? then Change(c.file, c.pipeline.(spaceId := id)) else c
  }

  function InjectAll(cs: seq<Change>, spaces: seq<Entry>): (r: seq<Change>)
    ensures |r| == |cs| && forall i | 0 <= i < |cs| :: r[i] == Injected(cs[i], spaces)
    ensures AllValid(cs) ==> AllValid(r)
  {
    seq(|cs|, i requires 0 <= i < |cs| => Injected(cs[i], spaces))
  }

  /** The injection loop of `push_to_cloud`, overwriting the list entry by entry. */
  method InjectSpaces(toCreate: seq<Change>, spaces: seq<Entry>) returns (r: seq<Change>)
    ensures |r| == |toCreate|
    ensures forall i | 0 <= i < |r| ::
      (r[i].file == toCreate[i].file &&
       (Lookup(spaces, toCreate[i].file).Some? ==>
          r[i].pipeline == toCreate[i].pipeline.(spaceId := Lookup(spaces, toCreate[i].file))) &&
       (Lookup(spaces, toCreate[i].file).None? ==> r[i] == toCreate[i]))
    ensures r == InjectAll(toCreate, spaces)
    ensures AllValid(toCreate) ==> AllValid(r)
  {
    r := toCreate;
    for idx := 0 to |r|
      invariant |r| == |toCreate|
      invariant forall i | 0 <= i < idx :: r[i] == Injected(toCreate[i], spaces)
      invariant forall i | idx <= i < |r| :: r[i] == toCreate[i]
    {
      if Lookup(spaces, r[idx].file).Some? {
        var pipeline := r[idx].pipeline.(spaceId := Lookup(spaces, r[idx].file));
        r := r[idx := Change(r[idx].file, pipeline)];
      }
    }
  }

  // ---------------------------------------------------------------------------
  // `create_pipelines`

  /** The settings sent for a definition carry its ids and name and are marked view-only. */
  predicate Describes(s: Settings, c: Change)
  {
    s.id == c.pipeline.pipelineId && s.name == c.pipeline.name && s.spaceId == c.pipeline.spaceId && s.viewOnly
  }

  lemma ConversionDescribes(files: Files, c: Change)
    requires ValidPipeline(c.pipeline) && Conversion(files, c.file, c.pipeline, true).Ok?
    ensures Describes(Conversion(files, c.file, c.pipeline, true).value, c)
  {
  }

  /** `create_pipelines` from `todo[0]` on, with `acc` the ids so far: convert the
      definition (which may write `handler.py`), create the pipeline, keep its id, write
      the id into the definition. */
  function CreatesFrom(files: Files, log: seq<Call>, replies: seq<Reply>, todo: seq<Change>,
                       acc: seq<string>): Run<seq<string>>
    requires AllValid(todo)
    decreases |todo|
  {
    if todo == [] then Run(Ok(acc), files, log, replies)
    else
      var c := todo[0];
      var settings := Conversion(files, c.file, c.pipeline, true);
      if settings.Err? then Run(Err(settings.error), files, log, replies)
      else
        var converted := HandlerWrite(files, c.file, c.pipeline);
        var call := CreatePipeline(settings.value);
        var created := Answer(replies);
        if created.Err? then Run(Err(created.error), converted, log + [call], Rest(replies))
        else
          var written := SetKey(converted, c.file, None, "pipeline_id", Str(created.value));
          if written.Err? then Run(Err(written.error), converted, log + [call], Rest(replies))
          else CreatesFrom(written.value, log + [call], Rest(replies), todo[1..], acc + [created.value])
  }

  method CreatePipelines(fs: FileSystem, client: Client, toCreate: seq<Change>) returns (r: Result<seq<string>>)
    requires AllValid(toCreate)
    modifies fs, client
    ensures Run(r, fs.files, client.log, client.replies) ==
            CreatesFrom(old(fs.files), old(client.log), old(client.replies), toCreate, [])
  {
    var ids: seq<string> := [];
    for i := 0 to |toCreate|
      invariant AllValid(toCreate[i..])
      invariant CreatesFrom(fs.files, client.log, client.replies, toCreate[i..], ids) ==
                CreatesFrom(old(fs.files), old(client.log), old(client.replies), toCreate, [])
    {
      assert toCreate[i..][1..] == toCreate[i + 1..];
      var change := toCreate[i];
      ghost var files, log, replies := fs.files, client.log, client.replies;
      var settings := YamlFileToPipeline(fs, change.file, change.pipeline, true);
      if settings.Err? {
        return Err(settings.error);
      }
      var created := client.Request(CreatePipeline(settings.value));
      if created.Err? {
        return Err(created.error);
      }
      var written := UpdatePipelineIdInYaml(fs, created.value, change.file, None);
      if written.Err? {
        return Err(written.error);
      }
      CreatesUnfold(files, log, replies, toCreate[i..], ids);
      ids := ids + [created.value];
    }
    assert toCreate[|toCreate|..] == [];
    return Ok(ids);
  }

  /** One successful step of the phase, unfolded. */
  lemma CreatesUnfold(files: Files, log: seq<Call>, replies: seq<Reply>, todo: seq<Change>, acc: seq<string>)
    requires todo != [] && AllValid(todo)
    requires Conversion(files, todo[0].file, todo[0].pipeline, true).Ok? && Answer(replies).Ok?
    requires SetKey(HandlerWrite(files, todo[0].file, todo[0].pipeline), todo[0].file, None, "pipeline_id",
                    Str(Answer(replies).value)).Ok?
    ensures CreatesFrom(files, log, replies, todo, acc) ==
      CreatesFrom(SetKey(HandlerWrite(files, todo[0].file, todo[0].pipeline), todo[0].file, None, "pipeline_id",
                         Str(Answer(replies).value)).value,
                  log + [CreatePipeline(Conversion(files, todo[0].file, todo[0].pipeline, true).value)],
                  Rest(replies), todo[1..], acc + [Answer(replies).value])
  {
  }

  /** The ids of granted answers. */
  function GrantedIds(rs: seq<Reply>): (r: seq<string>)
    requires forall i | 0 <= i < |rs| :: rs[i].Granted?
    ensures |r| == |rs| && forall i | 0 <= i < |rs| :: r[i] == rs[i].id
  {
    if rs == [] then [] else [rs[0].id] + GrantedIds(rs[1..])
  }

  /** One successful step of the phase: the definition converts to settings describing
      it, the create is granted, and the phase goes on from files in which the id is
      written into the definition and no other definition has changed. */
  lemma CreatesStep(files: Files, log: seq<Call>, replies: seq<Reply>, todo: seq<Change>, acc: seq<string>)
    returns (next: Files, settings: Settings)
    requires todo != [] && AllValid(todo)
    requires CreatesFrom(files, log, replies, todo, acc).result.Ok?
    ensures |replies| > 0 && replies[0].Granted? && Describes(settings, todo[0])
    ensures CreatesFrom(files, log, replies, todo, acc) ==
            CreatesFrom(next, log + [CreatePipeline(settings)], replies[1..], todo[1..], acc + [replies[0].id])
    ensures IdWritten(next, todo[0].file, replies[0].id)
    ensures var c := todo[0]; var w := SetKey(HandlerWrite(files, c.file, c.pipeline), c.file, None, "pipeline_id", Str(replies[0].id));
      w.Ok? && next == w.value
  {
    var c := todo[0];
    settings := Conversion(files, c.file, c.pipeline, true).value;
    var converted := HandlerWrite(files, c.file, c.pipeline);
    next := SetKey(converted, c.file, None, "pipeline_id", Str(replies[0].id)).value;
    ConversionDescribes(files, c);
  }

  /** The same step, stated only as the answer it takes and the run it goes on with. */
  lemma CreatesAdvance(files: Files, log: seq<Call>, replies: seq<Reply>, todo: seq<Change>, acc: seq<string>)
    returns (next: Files, call: Call)
    requires todo != [] && AllValid(todo)
    requires CreatesFrom(files, log, replies, todo, acc).result.Ok?
    ensures |replies| > 0 && replies[0].Granted?
    ensures CreatesFrom(files, log, replies, todo, acc) ==
            CreatesFrom(next, log + [call], replies[1..], todo[1..], acc + [replies[0].id])
  {
    var settings;
    next, settings := CreatesStep(files, log, replies, todo, acc);
    call := CreatePipeline(settings);
  }

  /** The same step touches no definition file but its own. */
  lemma CreatesStepFrame(files: Files, c: Change, id: string, q: Path)
    requires ValidPipeline(c.pipeline) && IsYaml(q) && q != c.file
    requires SetKey(HandlerWrite(files, c.file, c.pipeline), c.file, None, "pipeline_id", Str(id)).Ok?
    ensures Untouched(files, SetKey(HandlerWrite(files, c.file, c.pipeline), c.file, None, "pipeline_id", Str(id)).value, q)
  {
    var converted := HandlerWrite(files, c.file, c.pipeline);
    YamlIsNotHandler(Parent(c.file), q);
    HandlerWriteKeeps(files, c.file, c.pipeline, q);
    SetKeyFrame(converted, c.file, None, "pipeline_id", Str(id));
  }

  /** Granted answers after the first one. */
  lemma GrantedAfter(replies: seq<Reply>, n: nat)
    requires 0 < n && |replies| > 0 && replies[0].Granted?
    requires n - 1 <= |replies[1..]| && forall i | 0 <= i < n - 1 :: replies[1..][i].Granted?
    ensures n <= |replies| && forall i | 0 <= i < n :: replies[i].Granted?
    ensures GrantedIds(replies[..n]) == [replies[0].id] + GrantedIds(replies[1..][..n - 1])
  {
    forall i | 1 <= i < n
      ensures replies[i].Granted?
    {
      assert replies[1..][i - 1] == replies[i];
    }
    assert replies[..n][1..] == replies[1..][..n - 1];
  }

  lemma AppendOne<T>(acc: seq<T>, x: T, rest: seq<T>)
    ensures acc + [x] + rest == acc + ([x] + rest)
  {
  }

  /** A phase that succeeds had each of its calls granted, and gives back the granted ids
      in order: one id per definition. */
  lemma {:induction false} CreatesGranted(files: Files, log: seq<Call>, replies: seq<Reply>, todo: seq<Change>,
                                          acc: seq<string>)
    requires AllValid(todo)
    requires CreatesFrom(files, log, replies, todo, acc).result.Ok?
    ensures |todo| <= |replies| && forall i | 0 <= i < |todo| :: replies[i].Granted?
    ensures CreatesFrom(files, log, replies, todo, acc).result.value == acc + GrantedIds(replies[..|todo|])
    decreases |todo|
  {
    if todo != [] {
      var next, call := CreatesAdvance(files, log, replies, todo, acc);
      CreatesGranted(next, log + [call], replies[1..], todo[1..], acc + [replies[0].id]);
      GrantedAfter(replies, |todo|);
      AppendOne(acc, replies[0].id, GrantedIds(replies[1..][..|todo| - 1]));
    }
  }

  /** One `create` call per definition, in order, each describing its definition. */
  predicate CreatesCalled(calls: seq<Call>, todo: seq<Change>)
  {
    |calls| == |todo| &&
    forall i | 0 <= i < |todo| :: calls[i].CreatePipeline? && Describes(calls[i].settings, todo[i])
  }

  lemma CreatesCalledCons(call: Call, calls: seq<Call>, todo: seq<Change>)
    requires todo != [] && call.CreatePipeline? && Describes(call.settings, todo[0])
    requires CreatesCalled(calls, todo[1..])
    ensures CreatesCalled([call] + calls, todo)
  {
    forall i | 1 <= i < |todo|
      ensures ([call] + calls)[i].CreatePipeline? && Describes(([call] + calls)[i].settings, todo[i])
    {
      assert ([call] + calls)[i] == calls[i - 1] && todo[1..][i - 1] == todo[i];
    }
  }

  /** What a log that starts with `log + calls` holds after `log`. */
  lemma CallsAfter(log: seq<Call>, calls: seq<Call>, full: seq<Call>)
    requires |full| >= |log| + |calls| && full[..|log| + |calls|] == log + calls
    ensures full[..|log|] == log && full[|log|..] == calls + full[|log| + |calls|..]
  {
    assert full[..|log| + |calls|][..|log|] == log;
    assert full[|log|..][..|calls|] == full[..|log| + |calls|][|log|..];
  }

  lemma CallsAfterPair<T>(log: seq<T>, a: T, b: T, full: seq<T>)
    requires |full| >= |log| + 2 && full[..|log| + 2] == log + [a] + [b]
    ensures full[..|log|] == log && full[|log|..] == [a, b] + full[|log| + 2..]
  {
    assert full[..|log| + 2][..|log|] == log;
    assert full[|log|] == (log + [a] + [b])[|log|];
    assert full[|log| + 1] == (log + [a] + [b])[|log| + 1];
  }

  lemma AppendPair<T>(log: seq<T>, a: T, b: T, rest: seq<T>)
    ensures log + [a] + [b] + rest == log + ([a, b] + rest)
  {
  }

  /** A phase that succeeds has made one `create` call per definition, in order, each
      describing its definition. */
  lemma {:induction false} CreatesCalls(files: Files, log: seq<Call>, replies: seq<Reply>, todo: seq<Change>,
                                        acc: seq<string>)
    requires AllValid(todo)
    requires CreatesFrom(files, log, replies, todo, acc).result.Ok?
    ensures var s := CreatesFrom(files, log, replies, todo, acc);
      |s.log| >= |log| && s.log[..|log|] == log && CreatesCalled(s.log[|log|..], todo)
    decreases |todo|
  {
    if todo != [] {
      var next, settings := CreatesStep(files, log, replies, todo, acc);
      var call := CreatePipeline(settings);
      CreatesCalls(next, log + [call], replies[1..], todo[1..], acc + [replies[0].id]);
      var s := CreatesFrom(files, log, replies, todo, acc);
      CallsAfter(log, [call], s.log);
      CreatesCalledCons(call, s.log[|log| + 1..], todo);
    }
  }

  /** Some change is for the file `q`. */
  predicate Has(cs: seq<Change>, q: Path)
  {
    exists i | 0 <= i < |cs| :: cs[i].file == q
  }

  lemma HasCons(cs: seq<Change>, q: Path)
    requires cs != []
    ensures Has(cs, q) <==> cs[0].file == q || Has(cs[1..], q)
  {
    if Has(cs[1..], q) {
      var i :| 0 <= i < |cs[1..]| && cs[1..][i].file == q;
      assert cs[i + 1].file == q;
    }
    if Has(cs, q) && cs[0].file != q {
      var i :| 0 <= i < |cs| && cs[i].file == q;
      assert cs[1..][i - 1].file == q;
    }
  }

  /** The file `q` is in both maps with the same contents, or in neither. */
  predicate Untouched(a: Files, b: Files, q: Path)
  {
    (q in a <==> q in b) && (q in a ==> a[q] == b[q])
  }

  /** The file `f` is a document whose `pipeline_id` is the text `id`. */
  predicate IdWritten(files: Files, f: Path, id: string)
  {
    f in files && files[f].Doc? && "pipeline_id" in files[f].doc && files[f].doc["pipeline_id"] == Str(id)
  }

  /** Writing `handler.py` leaves every other file as it was, and so every definition. */
  lemma HandlerWriteKeeps(files: Files, file: Path, p: Pipeline, q: Path)
    requires ValidPipeline(p) && q != Join(Parent(file), "handler.py")
    ensures Untouched(files, HandlerWrite(files, file, p), q)
  {
  }

  /** The rest of a list of distinct files is distinct and lacks the first. */
  lemma DistinctTail(todo: seq<Change>)
    requires todo != [] && DistinctFiles(todo)
    ensures DistinctFiles(todo[1..]) && !Has(todo[1..], todo[0].file)
  {
    var rest := todo[1..];
    forall i, j | 0 <= i < j < |rest|
      ensures rest[i].file != rest[j].file
    {
      assert rest[i] == todo[i + 1] && rest[j] == todo[j + 1];
    }
    forall i | 0 <= i < |rest|
      ensures rest[i].file != todo[0].file
    {
      assert rest[i] == todo[i + 1];
    }
  }

  /** A successful phase leaves every definition file it was not given as it was. */
  lemma {:induction false} CreatesKeep(files: Files, log: seq<Call>, replies: seq<Reply>, todo: seq<Change>,
                                       acc: seq<string>, q: Path)
    requires AllValid(todo)
    requires CreatesFrom(files, log, replies, todo, acc).result.Ok?
    requires IsYaml(q) && !Has(todo, q)
    ensures Untouched(files, CreatesFrom(files, log, replies, todo, acc).files, q)
    decreases |todo|
  {
    if todo != [] {
      HasCons(todo, q);
      var next, settings := CreatesStep(files, log, replies, todo, acc);
      CreatesStepFrame(files, todo[0], replies[0].id, q);
      CreatesKeep(next, log + [CreatePipeline(settings)], replies[1..], todo[1..], acc + [replies[0].id], q);
    }
  }

  /** The create call for `c` was granted by `r`, and a definition file `c` now holds the
      granted id. */
  predicate CreatedAs(after: Files, c: Change, r: Reply)
  {
    r.Granted? && (IsYaml(c.file) ==> IdWritten(after, c.file, r.id))
  }

  /** A written id survives a map in which its file is untouched. */
  lemma IdWrittenKept(a: Files, b: Files, f: Path, id: string)
    requires IdWritten(a, f, id) && Untouched(a, b, f)
    ensures IdWritten(b, f, id)
  {
  }

  /** A successful phase over distinct definition files writes each granted id into the
      `pipeline_id` of its own definition. */
  lemma {:induction false} CreatesPersisted(files: Files, log: seq<Call>, replies: seq<Reply>, todo: seq<Change>,
                                            acc: seq<string>)
    requires AllValid(todo)
    requires CreatesFrom(files, log, replies, todo, acc).result.Ok?
    requires DistinctFiles(todo)
    ensures |todo| <= |replies| &&
      forall i | 0 <= i < |todo| :: CreatedAs(CreatesFrom(files, log, replies, todo, acc).files, todo[i], replies[i])
    decreases |todo|
  {
    if todo != [] {
      var c := todo[0];
      var next, settings := CreatesStep(files, log, replies, todo, acc);
      var rest := todo[1..];
      var log' := log + [CreatePipeline(settings)];
      var acc' := acc + [replies[0].id];
      DistinctTail(todo);
      CreatesPersisted(next, log', replies[1..], rest, acc');
      var after := CreatesFrom(next, log', replies[1..], rest, acc').files;
      if IsYaml(c.file) {
        CreatesKeep(next, log', replies[1..], rest, acc', c.file);
        IdWrittenKept(next, after, c.file, replies[0].id);
      }
      CreatedCons(after, todo, replies);
    }
  }

  lemma CreatedCons(after: Files, todo: seq<Change>, replies: seq<Reply>)
    requires todo != [] && replies != [] && CreatedAs(after, todo[0], replies[0])
    requires |todo[1..]| <= |replies[1..]| &&
      forall i | 0 <= i < |todo[1..]| :: CreatedAs(after, todo[1..][i], replies[1..][i])
    ensures |todo| <= |replies| && forall i | 0 <= i < |todo| :: CreatedAs(after, todo[i], replies[i])
  {
    forall i | 1 <= i < |todo|
      ensures CreatedAs(after, todo[i], replies[i])
    {
      assert todo[1..][i - 1] == todo[i] && replies[1..][i - 1] == replies[i];
    }
  }

  // ---------------------------------------------------------------------------
  // `update_pipelines`

  /** `update_pipelines` from `todo[0]` on: convert the definition, fetch the pipeline by
      the definition's id, update it with the converted settings. */
  function UpdatesFrom(files: Files, log: seq<Call>, replies: seq<Reply>, todo: seq<Change>): Run<()>
    requires AllValid(todo)
    decreases |todo|
  {
    if todo == [] then Run(Ok(()), files, log, replies)
    else
      var c := todo[0];
      var settings := Conversion(files, c.file, c.pipeline, true);
      if settings.Err? then Run(Err(settings.error), files, log, replies)
      else
        var converted := HandlerWrite(files, c.file, c.pipeline);
        var fetch := GetPipeline(settings.value.id);
        var fetched := Answer(replies);
        if fetched.Err? then Run(Err(fetched.error), converted, log + [fetch], Rest(replies))
        else
          var update := UpdatePipeline(settings.value.id, settings.value);
          var updated := Answer(Rest(replies));
          if updated.Err? then Run(Err(updated.error), converted, log + [fetch] + [update], Rest(Rest(replies)))
          else UpdatesFrom(converted, log + [fetch] + [update], Rest(Rest(replies)), todo[1..])
  }

  method UpdatePipelines(fs: FileSystem, client: Client, toUpdate: seq<Change>) returns (r: Result<()>)
    requires AllValid(toUpdate)
    modifies fs, client
    ensures Run(r, fs.files, client.log, client.replies) ==
            UpdatesFrom(old(fs.files), old(client.log), old(client.replies), toUpdate)
  {
    for i := 0 to |toUpdate|
      invariant AllValid(toUpdate[i..])
      invariant UpdatesFrom(fs.files, client.log, client.replies, toUpdate[i..]) ==
                UpdatesFrom(old(fs.files), old(client.log), old(client.replies), toUpdate)
    {
      assert toUpdate[i..][1..] == toUpdate[i + 1..];
      var change := toUpdate[i];
      var settings := YamlFileToPipeline(fs, change.file, change.pipeline, true);
      if settings.Err? {
        return Err(settings.error);
      }
      var existing := client.Request(GetPipeline(settings.value.id));
      if existing.Err? {
        return Err(existing.error);
      }
      var updated := client.Request(UpdatePipeline(settings.value.id, settings.value));
      if updated.Err? {
        return Err(updated.error);
      }
    }
    assert toUpdate[|toUpdate|..] == [];
    return Ok(());
  }

  /** One successful step of the phase: the definition converts to settings describing
      it, both calls are granted, and the phase goes on from the files with at most
      `handler.py` written. */
  lemma UpdatesStep(files: Files, log: seq<Call>, replies: seq<Reply>, todo: seq<Change>)
    returns (next: Files, settings: Settings)
    requires todo != [] && AllValid(todo)
    requires UpdatesFrom(files, log, replies, todo).result.Ok?
    ensures |replies| >= 2 && replies[0].Granted? && replies[1].Granted? && Describes(settings, todo[0])
    ensures next == HandlerWrite(files, todo[0].file, todo[0].pipeline)
    ensures UpdatesFrom(files, log, replies, todo) ==
            UpdatesFrom(next, log + [GetPipeline(settings.id)] + [UpdatePipeline(settings.id, settings)],
                        replies[2..], todo[1..])
  {
    var c := todo[0];
    settings := Conversion(files, c.file, c.pipeline, true).value;
    next := HandlerWrite(files, c.file, c.pipeline);
    ConversionDescribes(files, c);
    assert Rest(Rest(replies)) == replies[2..];
  }

  /** A phase that succeeds had each of its two calls per definition granted. */
  lemma {:induction false} UpdatesGranted(files: Files, log: seq<Call>, replies: seq<Reply>, todo: seq<Change>)
    requires AllValid(todo)
    requires UpdatesFrom(files, log, replies, todo).result.Ok?
    ensures 2 * |todo| <= |replies| && forall i | 0 <= i < 2 * |todo| :: replies[i].Granted?
    decreases |todo|
  {
    if todo != [] {
      var next, settings := UpdatesStep(files, log, replies, todo);
      UpdatesGranted(next, log + [GetPipeline(settings.id)] + [UpdatePipeline(settings.id, settings)],
                     replies[2..], todo[1..]);
      GrantedAfterTwo(replies, 2 * |todo|);
    }
  }

  lemma GrantedAfterTwo(replies: seq<Reply>, n: nat)
    requires 2 <= n && |replies| >= 2 && replies[0].Granted? && replies[1].Granted?
    requires n - 2 <= |replies[2..]| && forall i | 0 <= i < n - 2 :: replies[2..][i].Granted?
    ensures n <= |replies| && forall i | 0 <= i < n :: replies[i].Granted?
  {
    forall i | 2 <= i < n
      ensures replies[i].Granted?
    {
      assert replies[2..][i - 2] == replies[i];
    }
  }

  /** For each definition in order: a fetch of its pipeline by its id, then an update of
      that pipeline with settings describing the definition. */
  predicate UpdatesCalled(calls: seq<Call>, todo: seq<Change>)
  {
    |calls| == 2 * |todo| &&
    forall i | 0 <= i < |todo| ::
      calls[2 * i] == GetPipeline(todo[i].pipeline.pipelineId) &&
      calls[2 * i + 1].UpdatePipeline? && calls[2 * i + 1].id == todo[i].pipeline.pipelineId &&
      Describes(calls[2 * i + 1].settings, todo[i])
  }

  lemma UpdatesCalledCons(fetch: Call, update: Call, calls: seq<Call>, todo: seq<Change>)
    requires todo != [] && fetch == GetPipeline(todo[0].pipeline.pipelineId)
    requires update.UpdatePipeline? && update.id == todo[0].pipeline.pipelineId && Describes(update.settings, todo[0])
    requires UpdatesCalled(calls, todo[1..])
    ensures UpdatesCalled([fetch, update] + calls, todo)
  {
    var all := [fetch, update] + calls;
    forall i | 1 <= i < |todo|
      ensures all[2 * i] == GetPipeline(todo[i].pipeline.pipelineId) &&
        all[2 * i + 1].UpdatePipeline? && all[2 * i + 1].id == todo[i].pipeline.pipelineId &&
        Describes(all[2 * i + 1].settings, todo[i])
    {
      assert todo[1..][i - 1] == todo[i];
      assert all[2 * i] == calls[2 * (i - 1)] && all[2 * i + 1] == calls[2 * (i - 1) + 1];
    }
  }

  /** A phase that succeeds fetches and then updates each definition's pipeline by its
      id, in order, with settings describing it. */
  lemma {:induction false} UpdatesCalls(files: Files, log: seq<Call>, replies: seq<Reply>, todo: seq<Change>)
    requires AllValid(todo)
    requires UpdatesFrom(files, log, replies, todo).result.Ok?
    ensures var s := UpdatesFrom(files, log, replies, todo);
      |s.log| >= |log| && s.log[..|log|] == log && UpdatesCalled(s.log[|log|..], todo)
    decreases |todo|
  {
    if todo != [] {
      var next, settings := UpdatesStep(files, log, replies, todo);
      var fetch := GetPipeline(settings.id);
      var update := UpdatePipeline(settings.id, settings);
      UpdatesCalls(next, log + [fetch] + [update], replies[2..], todo[1..]);
      var s := UpdatesFrom(files, log, replies, todo);
      CallsAfterPair(log, fetch, update, s.log);
      UpdatesCalledCons(fetch, update, s.log[|log| + 2..], todo);
    }
  }

  /** A phase that succeeds writes no definition file. */
  lemma {:induction false} UpdatesKeep(files: Files, log: seq<Call>, replies: seq<Reply>, todo: seq<Change>, q: Path)
    requires AllValid(todo)
    requires UpdatesFrom(files, log, replies, todo).result.Ok?
    requires IsYaml(q)
    ensures Untouched(files, UpdatesFrom(files, log, replies, todo).files, q)
    decreases |todo|
  {
    if todo != [] {
      var next, settings := UpdatesStep(files, log, replies, todo);
      YamlIsNotHandler(Parent(todo[0].file), q);
      HandlerWriteKeeps(files, todo[0].file, todo[0].pipeline, q);
      UpdatesKeep(next, log + [GetPipeline(settings.id)] + [UpdatePipeline(settings.id, settings)],
                  replies[2..], todo[1..], q);
    }
  }

  // ---------------------------------------------------------------------------
  // `delete_pipelines`

  /** The entries whose file has a definition suffix, in order. */
  function Definitions(cs: seq<Change>): (r: seq<Change>)
    ensures forall i | 0 <= i < |r| :: IsYaml(r[i].file)
  {
    if cs == [] then []
    else (if IsYaml(cs[0].file) then [cs[0]] else []) + Definitions(cs[1..])
  }

  lemma {:induction false} DefinitionsMembers(cs: seq<Change>, c: Change)
    ensures c in Definitions(cs) <==> c in cs && IsYaml(c.file)
  {
    if cs != [] {
      DefinitionsMembers(cs[1..], c);
      assert c in cs <==> c == cs[0] || c in cs[1..];
    }
  }

  /** A fetch and a delete by id, for each entry in order. */
  function DeletionCalls(cs: seq<Change>): (r: seq<Call>)
    ensures |r| == 2 * |cs|
  {
    if cs == [] then []
    else [GetPipeline(cs[0].pipeline.pipelineId), DeletePipeline(cs[0].pipeline.pipelineId)] + DeletionCalls(cs[1..])
  }

  lemma DeletionCallsCons(c: Change, cs: seq<Change>)
    ensures DeletionCalls([c] + cs) ==
            [GetPipeline(c.pipeline.pipelineId), DeletePipeline(c.pipeline.pipelineId)] + DeletionCalls(cs)
  {
    assert ([c] + cs)[1..] == cs;
  }

  lemma {:induction false} DeletionCallsAt(cs: seq<Change>, i: nat)
    requires i < |cs|
    ensures DeletionCalls(cs)[2 * i] == GetPipeline(cs[i].pipeline.pipelineId)
    ensures DeletionCalls(cs)[2 * i + 1] == DeletePipeline(cs[i].pipeline.pipelineId)
  {
    if i > 0 {
      DeletionCallsAt(cs[1..], i - 1);
      assert cs[1..][i - 1] == cs[i];
    }
  }

  /** `delete_pipelines` from `todo[0]` on: an entry without a definition suffix is passed
      over; any other has its pipeline fetched by id and deleted. Files are not touched. */
  function DeletesFrom(files: Files, log: seq<Call>, replies: seq<Reply>, todo: seq<Change>): (r: Run<()>)
    ensures r.files == files
    decreases |todo|
  {
    if todo == [] then Run(Ok(()), files, log, replies)
    else if !IsYaml(todo[0].file) then DeletesFrom(files, log, replies, todo[1..])
    else
      var id := todo[0].pipeline.pipelineId;
      var fetched := Answer(replies);
      if fetched.Err? then Run(Err(fetched.error), files, log + [GetPipeline(id)], Rest(replies))
      else
        var deleted := Answer(Rest(replies));
        if deleted.Err? then Run(Err(deleted.error), files, log + [GetPipeline(id)] + [DeletePipeline(id)], Rest(Rest(replies)))
        else DeletesFrom(files, log + [GetPipeline(id)] + [DeletePipeline(id)], Rest(Rest(replies)), todo[1..])
  }

  method DeletePipelines(client: Client, toDelete: seq<Change>, ghost files: Files) returns (r: Result<()>)
    modifies client
    ensures Run(r, files, client.log, client.replies) ==
            DeletesFrom(files, old(client.log), old(client.replies), toDelete)
  {
    for i := 0 to |toDelete|
      invariant DeletesFrom(files, client.log, client.replies, toDelete[i..]) ==
                DeletesFrom(files, old(client.log), old(client.replies), toDelete)
    {
      assert toDelete[i..][1..] == toDelete[i + 1..];
      var d := toDelete[i];
      if IsYaml(d.file) {
        var p := client.Request(GetPipeline(d.pipeline.pipelineId));
        if p.Err? {
          return Err(p.error);
        }
        var deleted := client.Request(DeletePipeline(d.pipeline.pipelineId));
        if deleted.Err? {
          return Err(deleted.error);
        }
      }
    }
    assert toDelete[|toDelete|..] == [];
    return Ok(());
  }

  /** One successful step of the phase over an entry with a definition suffix: both calls
      are granted and the phase goes on. */
  lemma DeletesStep(files: Files, log: seq<Call>, replies: seq<Reply>, todo: seq<Change>)
    requires todo != [] && IsYaml(todo[0].file)
    requires DeletesFrom(files, log, replies, todo).result.Ok?
    ensures |replies| >= 2 && replies[0].Granted? && replies[1].Granted?
    ensures var id := todo[0].pipeline.pipelineId;
      DeletesFrom(files, log, replies, todo) ==
      DeletesFrom(files, log + [GetPipeline(id)] + [DeletePipeline(id)], replies[2..], todo[1..])
  {
    assert Rest(Rest(replies)) == replies[2..];
  }

  /** A phase that succeeds had both calls for each entry with a definition suffix
      granted. */
  lemma {:induction false} DeletesGranted(files: Files, log: seq<Call>, replies: seq<Reply>, todo: seq<Change>)
    requires DeletesFrom(files, log, replies, todo).result.Ok?
    ensures 2 * |Definitions(todo)| <= |replies| &&
            forall i | 0 <= i < 2 * |Definitions(todo)| :: replies[i].Granted?
    decreases |todo|
  {
    if todo != [] {
      var id := todo[0].pipeline.pipelineId;
      if !IsYaml(todo[0].file) {
        DeletesGranted(files, log, replies, todo[1..]);
      } else {
        DeletesStep(files, log, replies, todo);
        DeletesGranted(files, log + [GetPipeline(id)] + [DeletePipeline(id)], replies[2..], todo[1..]);
        var n := |Definitions(todo[1..])|;
        assert |Definitions(todo)| == n + 1;
        GrantedAfterTwo(replies, 2 * n + 2);
      }
    }
  }

  /** A phase that succeeds has fetched and deleted, by id and in order, the pipelines of
      exactly the entries with a definition suffix. */
  lemma {:induction false} DeletesCalls(files: Files, log: seq<Call>, replies: seq<Reply>, todo: seq<Change>)
    requires DeletesFrom(files, log, replies, todo).result.Ok?
    ensures DeletesFrom(files, log, replies, todo).log == log + DeletionCalls(Definitions(todo))
    decreases |todo|
  {
    if todo != [] {
      var id := todo[0].pipeline.pipelineId;
      if !IsYaml(todo[0].file) {
        DeletesCalls(files, log, replies, todo[1..]);
        assert Definitions(todo) == [] + Definitions(todo[1..]) == Definitions(todo[1..]);
      } else {
        var log' := log + [GetPipeline(id)] + [DeletePipeline(id)];
        DeletesStep(files, log, replies, todo);
        DeletesCalls(files, log', replies[2..], todo[1..]);
        var rest := Definitions(todo[1..]);
        assert Definitions(todo) == [todo[0]] + rest;
        DeletionCallsCons(todo[0], rest);
        AppendPair(log, GetPipeline(id), DeletePipeline(id), DeletionCalls(rest));
      }
    }
  }
}
