/** Deciding what a push has to do (`get_pipelines_to_change`) and the summary it reports
    (`generate_outputs`). */
module Classifier {
  import opened Base
  import opened Paths
  import opened Documents
  import opened Models
  import opened YamlUtils

  /** A definition file together with the pipeline it loaded as. */
  datatype Change = Change(file: Path, pipeline: Pipeline)

  /** A space to create for a definition that names a space but has no space id. */
  datatype SpaceRequest = SpaceRequest(file: Path, name: string)

  datatype Changes = Changes(
    toCreate: seq<Change>,
    toUpdate: seq<Change>,
    toDelete: seq<Change>,
    spacesToCreate: seq<SpaceRequest>)

  // ---------------------------------------------------------------------------
  // Which definitions a list of changed files touches

  /** A changed file that is not a definition but may be a dependency of one. */
  predicate MarksDependents(f: Path)
  {
    Suffix(f) == ".py" || Name(f) == "requirements.txt"
  }

  /** The definitions whose index entry lists `f`. */
  function Dependents(index: map<Path, seq<Path>>, f: Path): set<Path>
  {
    set k | k in index && f in index[k]
  }

  /** What one changed file adds: itself when it is a definition, its dependents when it
      may be a dependency, nothing otherwise. */
  function Contribution(index: map<Path, seq<Path>>, f: Path): set<Path>
  {
    if IsYaml(f) then {f} else if MarksDependents(f) then Dependents(index, f) else {}
  }

  /** The definitions a list of changed files touches. */
  function ChangedDefinitions(changed: seq<Path>, index: map<Path, seq<Path>>): set<Path>
  {
    if changed == [] then {} else Contribution(index, changed[0]) + ChangedDefinitions(changed[1..], index)
  }

  /** The changed files that would touch definition `g`: the files listed in its index
      entry that are not definitions but may be dependencies. */
  function Markers(index: map<Path, seq<Path>>, g: Path): set<Path>
  {
    if g in index then set f | f in index[g] && !IsYaml(f) && MarksDependents(f) else {}
  }

  lemma ContributionMembers(index: map<Path, seq<Path>>, f: Path, g: Path)
    ensures g in Contribution(index, f) <==> (g == f && IsYaml(g)) || f in Markers(index, g)
  {
  }

  /** Some changed file is a marker of `g`. */
  predicate DependencyChanged(changed: seq<Path>, index: map<Path, seq<Path>>, g: Path)
  {
    exists i | 0 <= i < |changed| :: changed[i] in Markers(index, g)
  }

  lemma SomeInCons<T>(s: seq<T>, m: set<T>)
    requires s != []
    ensures (exists i | 0 <= i < |s| :: s[i] in m) <==> s[0] in m || exists i | 0 <= i < |s[1..]| :: s[1..][i] in m
  {
    if exists i | 0 <= i < |s| :: s[i] in m {
      var i :| 0 <= i < |s| && s[i] in m;
      if i > 0 {
        assert s[1..][i - 1] == s[i];
      }
    }
    if exists i | 0 <= i < |s[1..]| :: s[1..][i] in m {
      var i :| 0 <= i < |s[1..]| && s[1..][i] in m;
      assert s[i + 1] == s[1..][i];
    }
  }

  lemma MembersCons<T>(s: seq<T>, x: T)
    requires s != []
    ensures x in s <==> x == s[0] || x in s[1..]
  {
    assert s == [s[0]] + s[1..];
  }

  /** A definition is touched exactly when it was changed itself, or when a changed
      `.py` file or `requirements.txt` is one of its dependencies. */
  lemma {:induction false} ChangedDefinitionsMembers(changed: seq<Path>, index: map<Path, seq<Path>>, g: Path)
    ensures g in ChangedDefinitions(changed, index) <==>
      (g in changed && IsYaml(g)) || DependencyChanged(changed, index, g)
  {
    if changed != [] {
      ChangedDefinitionsMembers(changed[1..], index, g);
      ContributionMembers(index, changed[0], g);
      SomeInCons(changed, Markers(index, g));
      MembersCons(changed, g);
    }
  }

  /** Only definition files are touched, and only the changed ones or those in the index. */
  lemma ChangedDefinitionsAreDefinitions(changed: seq<Path>, index: map<Path, seq<Path>>, g: Path)
    requires forall k | k in index :: IsYaml(k)
    requires g in ChangedDefinitions(changed, index)
    ensures IsYaml(g)
    ensures g in changed || g in index
  {
    ChangedDefinitionsMembers(changed, index, g);
  }

  /** The inner loop `for k in pipeline_2_files: if file in pipeline_2_files[k]: add(k)`. */
  method DependentsOf(index: map<Path, seq<Path>>, f: Path) returns (s: set<Path>)
    ensures s == Dependents(index, f)
  {
    var left := index.Keys;
    s := {};
    while left != {}
      invariant left <= index.Keys
      invariant s == set k | k in index && k !in left && f in index[k]
      decreases |left|
    {
      var k :| k in left;
      if f in index[k] {
        s := s + {k};
      }
      left := left - {k};
    }
  }

  /** The loop over `files_changed` that grows `pipelines_changed`. */
  method CollectChanged(changed: seq<Path>, index: map<Path, seq<Path>>) returns (s: set<Path>)
    ensures s == ChangedDefinitions(changed, index)
  {
    s := {};
    for i := 0 to |changed|
      invariant s + ChangedDefinitions(changed[i..], index) == ChangedDefinitions(changed, index)
    {
      var f := changed[i];
      assert changed[i..][1..] == changed[i + 1..];
      if IsYaml(f) {
        s := s + {f};
      } else if MarksDependents(f) {
        var d := DependentsOf(index, f);
        s := s + d;
      }
    }
  }

  // ---------------------------------------------------------------------------
  // Splitting the touched definitions into creates, updates and spaces

  datatype Classified = Classified(toCreate: seq<Change>, toUpdate: seq<Change>, spaces: seq<SpaceRequest>)

  /** Every definition without a space id names its space (as a valid pipeline does). */
  predicate NamesSpaces(cs: seq<Change>)
  {
    forall i | 0 <= i < |cs| :: cs[i].pipeline.spaceId.None? ==> cs[i].pipeline.spaceName.Some?
  }

  /** The space request of one definition, if it needs one. */
  function SpaceRequestOf(c: Change): seq<SpaceRequest>
    requires c.pipeline.spaceId.None? ==> c.pipeline.spaceName.Some?
  {
    if c.pipeline.spaceId.None? then [SpaceRequest(c.file, c.pipeline.spaceName.value)] else []
  }

  /** The space requests of the definitions (in order) that have no space id. */
  function SpaceRequestsOf(cs: seq<Change>): seq<SpaceRequest>
    requires NamesSpaces(cs)
  {
    if cs == [] then [] else SpaceRequestsOf(cs[..|cs| - 1]) + SpaceRequestOf(cs[|cs| - 1])
  }

  lemma SpaceRequestsAppend(cs: seq<Change>, c: Change)
    requires NamesSpaces(cs + [c])
    ensures NamesSpaces(cs)
    ensures c.pipeline.spaceId.None? ==> c.pipeline.spaceName.Some?
    ensures SpaceRequestsOf(cs + [c]) == SpaceRequestsOf(cs) + SpaceRequestOf(c)
  {
    assert (cs + [c])[..|cs|] == cs;
    assert (cs + [c])[|cs|] == c;
    assert forall i | 0 <= i < |cs| :: cs[i] == (cs + [c])[i];
  }

  /** Each space request belongs to a listed definition without a space id, and carries
      that definition's space name; every such definition has one. */
  lemma {:induction false} SpaceRequestsMembers(cs: seq<Change>, s: SpaceRequest)
    requires NamesSpaces(cs)
    ensures s in SpaceRequestsOf(cs) <==>
      exists i | 0 <= i < |cs| :: cs[i].file == s.file && cs[i].pipeline.spaceId.None? &&
                                  cs[i].pipeline.spaceName == Some(s.name)
  {
    if cs != [] {
      var front := cs[..|cs| - 1];
      assert NamesSpaces(front) by {
        assert forall i | 0 <= i < |front| :: front[i] == cs[i];
      }
      SpaceRequestsMembers(front, s);
      if exists i | 0 <= i < |cs| :: cs[i].file == s.file && cs[i].pipeline.spaceId.None? &&
                                     cs[i].pipeline.spaceName == Some(s.name) {
        var i :| 0 <= i < |cs| && cs[i].file == s.file && cs[i].pipeline.spaceId.None? &&
                 cs[i].pipeline.spaceName == Some(s.name);
        if i < |cs| - 1 {
          assert front[i] == cs[i];
        }
      }
      if s in SpaceRequestsOf(front) {
        var i :| 0 <= i < |front| && front[i].file == s.file && front[i].pipeline.spaceId.None? &&
                 front[i].pipeline.spaceName == Some(s.name);
        assert cs[i] == front[i];
      }
    }
  }

  /** The files of a list of changes. */
  function Seen(cs: seq<Change>): set<Path>
  {
    if cs == [] then {} else Seen(cs[..|cs| - 1]) + {cs[|cs| - 1].file}
  }

  lemma {:induction false} SeenMembers(cs: seq<Change>, q: Path)
    ensures q in Seen(cs) <==> exists i | 0 <= i < |cs| :: cs[i].file == q
  {
    if cs != [] {
      var front := cs[..|cs| - 1];
      SeenMembers(front, q);
      if exists i | 0 <= i < |cs| :: cs[i].file == q {
        var i :| 0 <= i < |cs| && cs[i].file == q;
        if i < |front| {
          assert front[i] == cs[i];
        }
      }
      if exists i | 0 <= i < |front| :: front[i].file == q {
        var i :| 0 <= i < |front| && front[i].file == q;
        assert cs[i] == front[i];
      }
    }
  }

  predicate DistinctFiles(cs: seq<Change>)
  {
    forall i, j | 0 <= i < j < |cs| :: cs[i].file != cs[j].file
  }

  /** Appending a change for a file not yet seen keeps the files distinct. */
  lemma SeenAppend(cs: seq<Change>, c: Change)
    requires DistinctFiles(cs) && c.file !in Seen(cs)
    ensures DistinctFiles(cs + [c])
    ensures Seen(cs + [c]) == Seen(cs) + {c.file}
  {
    assert (cs + [c])[..|cs|] == cs;
    forall i | 0 <= i < |cs|
      ensures cs[i].file != c.file
    {
      SeenMembers(cs, cs[i].file);
    }
  }

  /** Each change is the pipeline its file loaded as, and has a pipeline id exactly when
      `pushed` holds. */
  predicate Takes(loaded: map<Path, Pipeline>, cs: seq<Change>, pushed: bool)
  {
    forall i | 0 <= i < |cs| ::
      cs[i].file in loaded && loaded[cs[i].file] == cs[i].pipeline && cs[i].pipeline.pipelineId.Some? == pushed
  }

  lemma TakesAppend(loaded: map<Path, Pipeline>, cs: seq<Change>, c: Change, pushed: bool)
    requires Takes(loaded, cs, pushed) && c.file !in loaded
    requires c.pipeline.pipelineId.Some? == pushed
    ensures Takes(loaded[c.file := c.pipeline], cs + [c], pushed)
  {
    var u := cs + [c];
    var loaded' := loaded[c.file := c.pipeline];
    forall i | 0 <= i < |u|
      ensures u[i].file in loaded' && loaded'[u[i].file] == u[i].pipeline && u[i].pipeline.pipelineId.Some? == pushed
    {
      if i < |cs| {
        assert u[i] == cs[i];
      }
    }
  }

  lemma TakesGrow(loaded: map<Path, Pipeline>, cs: seq<Change>, file: Path, p: Pipeline, pushed: bool)
    requires Takes(loaded, cs, pushed) && file !in loaded
    ensures Takes(loaded[file := p], cs, pushed)
  {
  }

  /** What the classification of the loaded definitions promises: each lands in exactly
      one list, once, as the pipeline it loaded as: in the creates when it has no pipeline
      id, in the updates when it has one; the space requests are those of the creates that
      have no space id, in the same order. */
  predicate IsPartition(c: Classified, loaded: map<Path, Pipeline>)
  {
    Seen(c.toCreate) + Seen(c.toUpdate) == loaded.Keys &&
    Seen(c.toCreate) !! Seen(c.toUpdate) &&
    DistinctFiles(c.toCreate) && DistinctFiles(c.toUpdate) &&
    Takes(loaded, c.toCreate, false) && Takes(loaded, c.toUpdate, true) &&
    NamesSpaces(c.toCreate) && c.spaces == SpaceRequestsOf(c.toCreate)
  }

  /** `loaded` holds what each of its files loads as. */
  predicate LoadsAs(files: Files, loaded: map<Path, Pipeline>)
  {
    forall f {:trigger loaded[f]} | f in loaded :: Load(files, f) == Ok(loaded[f])
  }

  lemma LoadsAsGrow(files: Files, loaded: map<Path, Pipeline>, file: Path, p: Pipeline)
    requires LoadsAs(files, loaded) && Load(files, file) == Ok(p)
    ensures LoadsAs(files, loaded[file := p])
  {
    var m := loaded[file := p];
    forall f | f in m
      ensures Load(files, f) == Ok(m[f])
    {
      if f != file {
        assert m[f] == loaded[f];
      }
    }
  }

  /** A pipeline that names its space when it has no space id, and has a space id when it
      has been pushed: what a valid pipeline satisfies. */
  predicate Wired(p: Pipeline)
  {
    (p.spaceId.None? ==> p.spaceName.Some?) && (p.pipelineId.Some? ==> p.spaceId.Some?)
  }

  /** One iteration for a pipeline that has a pipeline id: it joins the updates. */
  lemma UpdateStep(loaded: map<Path, Pipeline>, c: Classified, file: Path, p: Pipeline)
    requires IsPartition(c, loaded)
    requires file !in loaded && p.pipelineId.Some?
    ensures IsPartition(c.(toUpdate := c.toUpdate + [Change(file, p)]), loaded[file := p])
  {
    var ch := Change(file, p);
    SeenAppend(c.toUpdate, ch);
    TakesAppend(loaded, c.toUpdate, ch, true);
    TakesGrow(loaded, c.toCreate, file, p, false);
  }

  /** One iteration for a pipeline without a pipeline id: it joins the creates, and the
      space requests when it has no space id. */
  lemma CreateStep(loaded: map<Path, Pipeline>, c: Classified, file: Path, p: Pipeline)
    requires IsPartition(c, loaded)
    requires file !in loaded && p.pipelineId.None? && (p.spaceId.None? ==> p.spaceName.Some?)
    ensures IsPartition(Classified(c.toCreate + [Change(file, p)], c.toUpdate,
                                   c.spaces + SpaceRequestOf(Change(file, p))), loaded[file := p])
  {
    var ch := Change(file, p);
    SeenAppend(c.toCreate, ch);
    NamesSpacesAppend(c.toCreate, ch);
    TakesAppend(loaded, c.toCreate, ch, false);
    TakesGrow(loaded, c.toUpdate, file, p, true);
  }

  lemma NamesSpacesAppend(cs: seq<Change>, c: Change)
    requires NamesSpaces(cs)
    requires c.pipeline.spaceId.None? ==> c.pipeline.spaceName.Some?
    ensures NamesSpaces(cs + [c])
    ensures SpaceRequestsOf(cs + [c]) == SpaceRequestsOf(cs) + SpaceRequestOf(c)
  {
    var u := cs + [c];
    forall i | 0 <= i < |u|
      ensures u[i].pipeline.spaceId.None? ==> u[i].pipeline.spaceName.Some?
    {
      if i < |cs| {
        assert u[i] == cs[i];
      }
    }
    SpaceRequestsAppend(cs, c);
  }

  /** The loop over `pipelines_changed`, in an order left open: every touched definition
      must load, and the result classifies what they load as (`loaded`, which holds what
      each touched definition loads as, and so is determined by the files). */
  method Partition(files: Files, changed: set<Path>) returns (r: Result<Classified>, ghost loaded: map<Path, Pipeline>)
    ensures r.Ok? <==> forall f | f in changed :: Load(files, f).Ok?
    ensures r.Ok? ==> loaded.Keys == changed && LoadsAs(files, loaded) && IsPartition(r.value, loaded)
  {
    var left := changed;
    var toCreate: seq<Change> := [];
    var toUpdate: seq<Change> := [];
    var spaces: seq<SpaceRequest> := [];
    loaded := map[];
    while left != {}
      invariant left <= changed && loaded.Keys == changed - left
      invariant LoadsAs(files, loaded)
      invariant IsPartition(Classified(toCreate, toUpdate, spaces), loaded)
      decreases |left|
    {
      var file :| file in left;
      var result := Load(files, file);
      if result.Err? {
        r := Err(result.error);
        return;
      }
      var p := result.value;
      LoadedIsWired(files, file);
      KeysGrow(loaded, file, p, changed, left);
      LoadsAsGrow(files, loaded, file, p);
      if p.pipelineId.Some? {
        UpdateStep(loaded, Classified(toCreate, toUpdate, spaces), file, p);
        toUpdate := toUpdate + [Change(file, p)];
      } else {
        CreateStep(loaded, Classified(toCreate, toUpdate, spaces), file, p);
        toCreate := toCreate + [Change(file, p)];
        spaces := spaces + SpaceRequestOf(Change(file, p));
      }
      loaded := loaded[file := p];
      left := left - {file};
    }
    forall f | f in changed
      ensures Load(files, f).Ok?
    {
      assert Load(files, f) == Ok(loaded[f]);
    }
    r := Ok(Classified(toCreate, toUpdate, spaces));
  }

  /** The space requests name exactly the loaded definitions without a space id, and each
      such definition is also among the creates. */
  lemma SpacesAreCreates(c: Classified, loaded: map<Path, Pipeline>, g: Path)
    requires IsPartition(c, loaded)
    requires forall f | f in loaded :: Wired(loaded[f])
    ensures (exists s | s in c.spaces :: s.file == g) <==> g in loaded && loaded[g].spaceId.None?
    ensures (exists s | s in c.spaces :: s.file == g) ==> g in Seen(c.toCreate)
  {
    SeenMembers(c.toCreate, g);
    SeenMembers(c.toUpdate, g);
    if g in loaded && loaded[g].spaceId.None? {
      assert Wired(loaded[g]);
      assert g !in Seen(c.toUpdate) by {
        forall i | 0 <= i < |c.toUpdate|
          ensures c.toUpdate[i].file != g
        {
          assert loaded[c.toUpdate[i].file].pipelineId.Some?;
        }
      }
      var i :| 0 <= i < |c.toCreate| && c.toCreate[i].file == g;
      var p := c.toCreate[i].pipeline;
      var s := SpaceRequest(g, p.spaceName.value);
      SpaceRequestsMembers(c.toCreate, s);
      assert s in c.spaces;
    }
    if exists s | s in c.spaces :: s.file == g {
      var s :| s in c.spaces && s.file == g;
      SpaceRequestsMembers(c.toCreate, s);
      var i :| 0 <= i < |c.toCreate| && c.toCreate[i].file == s.file && c.toCreate[i].pipeline.spaceId.None? &&
               c.toCreate[i].pipeline.spaceName == Some(s.name);
      assert g in Seen(c.toCreate);
    }
  }

  /** Every pipeline that loads is wired. */
  lemma LoadedIsWired(files: Files, file: Path)
    requires Load(files, file).Ok?
    ensures Wired(Load(files, file).value)
  {
    ValidPipelineIsWired(Load(files, file).value);
  }

  // ---------------------------------------------------------------------------
  // Deleted definitions

  /** The part of the files and the deletions found so far, after the deletion loop. */
  datatype Deleted = Deleted(result: Result<seq<Change>>, files: Files)

  /** The deletion loop over `files_deleted` from `acc`: files without a definition suffix
      are skipped; every other is loaded (a failure is only logged) and then unlinked,
      and unlinking a file that is not there ends the run. */
  function DeletionsFrom(files: Files, deleted: seq<Path>, acc: seq<Change>): Deleted
    decreases |deleted|
  {
    if deleted == [] then Deleted(Ok(acc), files)
    else
      var f := deleted[0];
      if !IsYaml(f) then DeletionsFrom(files, deleted[1..], acc)
      else if f !in files then Deleted(Err(FileNotFound(f)), files)
      else
        var p := Load(files, f);
        DeletionsFrom(files - {f}, deleted[1..], if p.Ok? then acc + [Change(f, p.value)] else acc)
  }

  method CollectDeletions(fs: FileSystem, deleted: seq<Path>) returns (r: Result<seq<Change>>)
    modifies fs
    ensures Deleted(r, fs.files) == DeletionsFrom(old(fs.files), deleted, [])
  {
    var toDelete: seq<Change> := [];
    for i := 0 to |deleted|
      invariant DeletionsFrom(fs.files, deleted[i..], toDelete) == DeletionsFrom(old(fs.files), deleted, [])
    {
      var f := deleted[i];
      assert deleted[i..][1..] == deleted[i + 1..];
      if !IsYaml(f) {
        continue;
      }
      var p := Load(fs.files, f);
      if p.Ok? {
        toDelete := toDelete + [Change(f, p.value)];
      }
      if f !in fs.files {
        return Err(FileNotFound(f));
      }
      fs.files := fs.files - {f};
    }
    return Ok(toDelete);
  }

  /** Every definition file among the deleted ones is there, and none is listed twice. */
  predicate DeletableOnce(files: Files, deleted: seq<Path>)
  {
    forall i | 0 <= i < |deleted| && IsYaml(deleted[i]) ::
      deleted[i] in files && forall j | i < j < |deleted| :: deleted[j] != deleted[i]
  }

  /** The definition files among the deleted ones. */
  function Unlinked(deleted: seq<Path>): set<Path>
  {
    if deleted == [] then {} else (if IsYaml(deleted[0]) then {deleted[0]} else {}) + Unlinked(deleted[1..])
  }

  lemma {:induction false} UnlinkedMembers(deleted: seq<Path>, q: Path)
    ensures q in Unlinked(deleted) <==> IsYaml(q) && exists i | 0 <= i < |deleted| :: deleted[i] == q
  {
    if deleted != [] {
      var rest := deleted[1..];
      UnlinkedMembers(rest, q);
      if exists i | 0 <= i < |rest| :: rest[i] == q {
        var i :| 0 <= i < |rest| && rest[i] == q;
        assert deleted[i + 1] == q;
      }
      if exists i | 0 <= i < |deleted| :: deleted[i] == q {
        var i :| 0 <= i < |deleted| && deleted[i] == q;
        if i > 0 {
          assert rest[i - 1] == q;
        }
      }
    }
  }

  /** The deleted definition files that load, in order, with their pipelines. */
  function Loaded(files: Files, deleted: seq<Path>): seq<Change>
  {
    if deleted == [] then []
    else
      var f := deleted[0];
      (if IsYaml(f) && Load(files, f).Ok? then [Change(f, Load(files, f).value)] else []) + Loaded(files, deleted[1..])
  }

  lemma {:induction false} LoadedIgnoresOthers(files: Files, deleted: seq<Path>, g: Path)
    requires g !in Unlinked(deleted)
    ensures Loaded(files - {g}, deleted) == Loaded(files, deleted)
  {
    if deleted != [] {
      var f := deleted[0];
      if IsYaml(f) {
        assert f != g;
        assert Load(files - {g}, f) == Load(files, f);
      }
      LoadedIgnoresOthers(files, deleted[1..], g);
    }
  }

  lemma {:induction false} DeletableOnceTail(files: Files, deleted: seq<Path>)
    requires deleted != [] && DeletableOnce(files, deleted)
    ensures DeletableOnce(if IsYaml(deleted[0]) then files - {deleted[0]} else files, deleted[1..])
  {
    var rest := deleted[1..];
    forall i | 0 <= i < |rest| && IsYaml(rest[i])
      ensures rest[i] in (if IsYaml(deleted[0]) then files - {deleted[0]} else files)
    {
      assert rest[i] == deleted[i + 1];
    }
  }

  /** What the deletion loop from `acc` promises about `deleted`. */
  predicate DeletionsMeet(files: Files, deleted: seq<Path>, acc: seq<Change>)
  {
    var d := DeletionsFrom(files, deleted, acc);
    (d.result.Ok? <==> DeletableOnce(files, deleted)) &&
    (d.result.Ok? ==> d.files == files - Unlinked(deleted) && d.result.value == acc + Loaded(files, deleted))
  }

  lemma DeletableOnceSkip(files: Files, deleted: seq<Path>)
    requires deleted != [] && !IsYaml(deleted[0])
    ensures DeletableOnce(files, deleted) <==> DeletableOnce(files, deleted[1..])
  {
    var rest := deleted[1..];
    if DeletableOnce(files, deleted) {
      DeletableOnceTail(files, deleted);
    }
    if DeletableOnce(files, rest) {
      forall i | 0 <= i < |deleted| && IsYaml(deleted[i])
        ensures deleted[i] in files && forall j | i < j < |deleted| :: deleted[j] != deleted[i]
      {
        assert deleted[i] == rest[i - 1];
        forall j | i < j < |deleted|
          ensures deleted[j] != deleted[i]
        {
          assert deleted[j] == rest[j - 1];
        }
      }
    }
  }

  lemma DeletableOnceUnlink(files: Files, deleted: seq<Path>)
    requires deleted != [] && IsYaml(deleted[0]) && deleted[0] in files
    ensures DeletableOnce(files, deleted) <==> DeletableOnce(files - {deleted[0]}, deleted[1..])
  {
    var f := deleted[0];
    var rest := deleted[1..];
    var files' := files - {f};
    if DeletableOnce(files, deleted) {
      DeletableOnceTail(files, deleted);
    }
    if DeletableOnce(files', rest) {
      forall i | 0 <= i < |deleted| && IsYaml(deleted[i])
        ensures deleted[i] in files && forall j | i < j < |deleted| :: deleted[j] != deleted[i]
      {
        if i > 0 {
          assert deleted[i] == rest[i - 1];
        }
        forall j | i < j < |deleted|
          ensures deleted[j] != deleted[i]
        {
          assert deleted[j] == rest[j - 1];
          if i == 0 && IsYaml(deleted[j]) {
            assert rest[j - 1] in files';
          }
        }
      }
    }
  }

  lemma SkipStep(files: Files, deleted: seq<Path>, acc: seq<Change>)
    requires deleted != [] && !IsYaml(deleted[0])
    requires DeletionsMeet(files, deleted[1..], acc)
    ensures DeletionsMeet(files, deleted, acc)
  {
    assert DeletionsFrom(files, deleted, acc) == DeletionsFrom(files, deleted[1..], acc);
    assert Loaded(files, deleted) == Loaded(files, deleted[1..]);
    assert Unlinked(deleted) == Unlinked(deleted[1..]);
    DeletableOnceSkip(files, deleted);
  }

  /** One unlinking iteration, unfolded. */
  lemma UnlinkUnfold(files: Files, deleted: seq<Path>, acc: seq<Change>)
    requires deleted != [] && IsYaml(deleted[0]) && deleted[0] in files
    ensures var f := deleted[0];
      var p := Load(files, f);
      DeletionsFrom(files, deleted, acc) ==
        DeletionsFrom(files - {f}, deleted[1..], if p.Ok? then acc + [Change(f, p.value)] else acc) &&
      Loaded(files, deleted) == (if p.Ok? then [Change(f, p.value)] else []) + Loaded(files, deleted[1..]) &&
      Unlinked(deleted) == {f} + Unlinked(deleted[1..])
  {
  }

  /** When the rest can be deleted once, the unlinked file does not come back in it. */
  lemma UnlinkedOnce(files: Files, deleted: seq<Path>)
    requires deleted != [] && IsYaml(deleted[0])
    requires DeletableOnce(files - {deleted[0]}, deleted[1..])
    ensures deleted[0] !in Unlinked(deleted[1..])
  {
    var f := deleted[0];
    var rest := deleted[1..];
    forall j | 0 <= j < |rest| && IsYaml(rest[j])
      ensures rest[j] != f
    {
      assert rest[j] in files - {f};
    }
    UnlinkedMembers(rest, f);
  }

  lemma RemoveTwice(files: Files, f: Path, gone: set<Path>)
    ensures (files - {f}) - gone == files - ({f} + gone)
  {
  }

  lemma UnlinkStep(files: Files, deleted: seq<Path>, acc: seq<Change>)
    requires deleted != [] && IsYaml(deleted[0]) && deleted[0] in files
    requires var p := Load(files, deleted[0]);
      DeletionsMeet(files - {deleted[0]}, deleted[1..], if p.Ok? then acc + [Change(deleted[0], p.value)] else acc)
    ensures DeletionsMeet(files, deleted, acc)
  {
    var f := deleted[0];
    var rest := deleted[1..];
    var p := Load(files, f);
    var head := if p.Ok? then [Change(f, p.value)] else [];
    assert (if p.Ok? then acc + [Change(f, p.value)] else acc) == acc + head;
    UnlinkUnfold(files, deleted, acc);
    DeletableOnceUnlink(files, deleted);
    if DeletableOnce(files - {f}, rest) {
      UnlinkedOnce(files, deleted);
      LoadedIgnoresOthers(files, rest, f);
      RemoveTwice(files, f, Unlinked(rest));
      AppendAssoc(acc, head, Loaded(files, rest));
    }
  }

  /** The deletion loop completes exactly when every deleted definition file is there and
      none is listed twice; it then unlinks exactly those files, whether or not they load,
      and reports exactly the ones that loaded. */
  lemma {:induction false} DeletionsSpec(files: Files, deleted: seq<Path>, acc: seq<Change>)
    ensures DeletionsFrom(files, deleted, acc).result.Ok? <==> DeletableOnce(files, deleted)
    ensures DeletionsFrom(files, deleted, acc).result.Ok? ==>
      DeletionsFrom(files, deleted, acc).files == files - Unlinked(deleted) &&
      DeletionsFrom(files, deleted, acc).result.value == acc + Loaded(files, deleted)
    decreases |deleted|
  {
    if deleted == [] {
      assert files - Unlinked(deleted) == files;
    } else {
      var f := deleted[0];
      if !IsYaml(f) {
        DeletionsSpec(files, deleted[1..], acc);
        SkipStep(files, deleted, acc);
      } else if f !in files {
        assert !DeletableOnce(files, deleted) by {
          assert IsYaml(deleted[0]) && deleted[0] !in files;
        }
      } else {
        var p := Load(files, f);
        DeletionsSpec(files - {f}, deleted[1..], if p.Ok? then acc + [Change(f, p.value)] else acc);
        UnlinkStep(files, deleted, acc);
      }
    }
  }

  // ---------------------------------------------------------------------------
  // The whole of `get_pipelines_to_change`

  /** When `get_pipelines_to_change` completes: every definition file below `dir` loads,
      every definition the changed files touch loads, and every deleted definition file
      is there and listed once. */
  predicate Classifiable(files: Files, dir: Path, changed: seq<Path>, deleted: seq<Path>)
  {
    IndexLoads(files, dir) &&
    (forall g | g in ChangedDefinitions(changed, IndexOf(files, dir)) :: Load(files, g).Ok?) &&
    DeletableOnce(files, deleted)
  }

  /** Builds the index, classifies the touched definitions and then handles the deleted
      files; a failure in the first two leaves the files as they were. */
  method GetPipelinesToChange(fs: FileSystem, deleted: seq<Path>, changed: seq<Path>, dir: Path)
    returns (r: Result<Changes>)
    modifies fs
    ensures r.Ok? <==> Classifiable(old(fs.files), dir, changed, deleted)
    ensures r.Ok? ==> exists index: map<Path, seq<Path>>, loaded: map<Path, Pipeline> ::
      IsIndexOf(index, old(fs.files), dir) &&
      loaded.Keys == ChangedDefinitions(changed, index) && LoadsAs(old(fs.files), loaded) &&
      IsPartition(Classified(r.value.toCreate, r.value.toUpdate, r.value.spacesToCreate), loaded)
    ensures r.Ok? ==> DeletionsFrom(old(fs.files), deleted, []) == Deleted(Ok(r.value.toDelete), fs.files)
    ensures r.Err? ==> (fs.files == old(fs.files) ||
      (DeletionsFrom(old(fs.files), deleted, []).result.Err? && DeletionsFrom(old(fs.files), deleted, []).files == fs.files))
  {
    var index := MapYamlToFiles(fs.files, dir);
    if index.Err? {
      return Err(index.error);
    }
    IndexIsUnique(index.value, fs.files, dir);
    var touched := CollectChanged(changed, index.value);
    var classified, loaded := Partition(fs.files, touched);
    if classified.Err? {
      return Err(classified.error);
    }
    ghost var before := fs.files;
    DeletionsSpec(fs.files, deleted, []);
    var toDelete := CollectDeletions(fs, deleted);
    if toDelete.Err? {
      return Err(toDelete.error);
    }
    var c := classified.value;
    r := Ok(Changes(c.toCreate, c.toUpdate, toDelete.value, c.spaces));
    assert IsIndexOf(index.value, before, dir) && loaded.Keys == ChangedDefinitions(changed, index.value);
  }

  // ---------------------------------------------------------------------------
  // The summary (`generate_outputs`)

  datatype Outputs = Outputs(
    toCreateCount: nat,
    toUpdateCount: nat,
    toUpdateIds: string,
    toDeleteCount: nat,
    toDeleteIds: string,
    spaceToCreateCount: nat)

  /** `" ".join(words)`. */
  function JoinWords(words: seq<string>): string
  {
    if words == [] then ""
    else if |words| == 1 then words[0]
    else words[0] + " " + JoinWords(words[1..])
  }

  /** Where the first space of `s` is. */
  function FirstSpace(s: string): (i: nat)
    requires ' ' in s
    ensures i < |s| && s[i] == ' ' && ' ' !in s[..i]
  {
    if s[0] == ' ' then 0
    else
      assert ' ' in s[1..];
      var j := FirstSpace(s[1..]);
      assert s[..j + 1] == [s[0]] + s[1..][..j];
      j + 1
  }

  /** The words of a space-separated text, read left to right. */
  function SplitWords(s: string): seq<string>
    decreases |s|
  {
    if ' ' !in s then [s]
    else
      var i := FirstSpace(s);
      [s[..i]] + SplitWords(s[i + 1..])
  }

  lemma {:induction false} FirstSpaceAt(s: string, k: nat)
    requires k < |s| && s[k] == ' ' && ' ' !in s[..k]
    ensures FirstSpace(s) == k
  {
    if k > 0 {
      assert s[0] == s[..k][0];
      assert s[1..][..k - 1] == s[1..k];
      assert forall j | 0 <= j < k - 1 :: s[1..k][j] == s[..k][j + 1];
      FirstSpaceAt(s[1..], k - 1);
    }
  }

  lemma {:induction false} SplitJoin(words: seq<string>)
    requires words != []
    requires forall w | w in words :: ' ' !in w
    ensures SplitWords(JoinWords(words)) == words
  {
    if |words| > 1 {
      var w := words[0];
      var rest := JoinWords(words[1..]);
      var s := w + " " + rest;
      assert s[..|w|] == w;
      FirstSpaceAt(s, |w|);
      assert s[|w| + 1..] == rest;
      SplitJoin(words[1..]);
      assert [w] + words[1..] == words;
    }
  }

  /** The pipeline ids of a list of changes, unset ones included. */
  function PipelineIds(cs: seq<Change>): (r: seq<Option<string>>)
    ensures |r| == |cs|
    ensures forall i | 0 <= i < |cs| :: r[i] == cs[i].pipeline.pipelineId
  {
    if cs == [] then [] else [cs[0].pipeline.pipelineId] + PipelineIds(cs[1..])
  }

  /** `" ".join(ids)` over values that may be None: a None raises a TypeError. */
  function JoinIds(ids: seq<Option<string>>): (r: Result<string>)
    ensures r.Ok? <==> forall i | 0 <= i < |ids| :: ids[i].Some?
  {
    if ids == [] then Ok("")
    else if ids[0].None? then Err(NoneInJoin)
    else
      var rest :- JoinIds(ids[1..]);
      Ok(if |ids| == 1 then ids[0].value else ids[0].value + " " + rest)
  }

  /** The set ids only. */
  function PresentIds(ids: seq<Option<string>>): (r: seq<string>)
    ensures |r| <= |ids|
    ensures forall x :: x in r <==> Some(x) in ids
    ensures (forall i | 0 <= i < |ids| :: ids[i].Some?) ==> |r| == |ids| && forall i | 0 <= i < |ids| :: r[i] == ids[i].value
  {
    if ids == [] then [] else (if ids[0].Some? then [ids[0].value] else []) + PresentIds(ids[1..])
  }

  /** The set ids keep their order: those of a concatenation are those of each part, in turn. */
  lemma {:induction false} PresentIdsAppend(a: seq<Option<string>>, b: seq<Option<string>>)
    ensures PresentIds(a + b) == PresentIds(a) + PresentIds(b)
  {
    if a != [] {
      assert (a + b)[1..] == a[1..] + b;
      PresentIdsAppend(a[1..], b);
    } else {
      assert a + b == b;
    }
  }

  lemma {:induction false} JoinIdsIsJoinWords(ids: seq<Option<string>>)
    requires forall i | 0 <= i < |ids| :: ids[i].Some?
    ensures JoinIds(ids) == Ok(JoinWords(PresentIds(ids)))
  {
    if ids != [] {
      JoinIdsIsJoinWords(ids[1..]);
    }
  }

  /** `generate_outputs` as written: the delete ids are joined like the update ids, so a
      deleted definition that never had a pipeline id makes the join fail. */
  function GenerateOutputsAsWritten(c: Changes): Result<Outputs>
  {
    var updateIds :- JoinIds(PipelineIds(c.toUpdate));
    var deleteIds :- JoinIds(PipelineIds(c.toDelete));
    Ok(Outputs(|c.toCreate|, |c.toUpdate|, updateIds, |c.toDelete|, deleteIds, |c.spacesToCreate|))
  }

  /** The corrected summary: the delete ids are the ids that are set. */
  function GenerateOutputs(c: Changes): (r: Outputs)
    ensures r.toCreateCount == |c.toCreate| && r.toUpdateCount == |c.toUpdate|
    ensures r.toDeleteCount == |c.toDelete| && r.spaceToCreateCount == |c.spacesToCreate|
  {
    Outputs(|c.toCreate|, |c.toUpdate|, JoinWords(PresentIds(PipelineIds(c.toUpdate))),
            |c.toDelete|, JoinWords(PresentIds(PipelineIds(c.toDelete))), |c.spacesToCreate|)
  }

  /** The delete ids of the corrected summary read back, word by word, as the ids that are
      set, in list order; with none set the field is empty. */
  lemma DeleteIdsReadBack(c: Changes)
    requires forall i | 0 <= i < |c.toDelete| && c.toDelete[i].pipeline.pipelineId.Some? ::
      ' ' !in c.toDelete[i].pipeline.pipelineId.value
    ensures PresentIds(PipelineIds(c.toDelete)) == [] ==> GenerateOutputs(c).toDeleteIds == ""
    ensures PresentIds(PipelineIds(c.toDelete)) != [] ==>
      SplitWords(GenerateOutputs(c).toDeleteIds) == PresentIds(PipelineIds(c.toDelete))
  {
    var ids := PipelineIds(c.toDelete);
    var words := PresentIds(ids);
    if words != [] {
      forall w | w in words
        ensures ' ' !in w
      {
        var i :| 0 <= i < |ids| && ids[i] == Some(w);
        assert c.toDelete[i].pipeline.pipelineId == Some(w);
      }
      SplitJoin(words);
    }
  }

  /** As written, the summary fails exactly when an update or a deletion has no pipeline id. */
  lemma AsWrittenFailsOnMissingId(c: Changes)
    ensures GenerateOutputsAsWritten(c).Err? <==>
      (exists i | 0 <= i < |c.toUpdate| :: c.toUpdate[i].pipeline.pipelineId.None?) ||
      (exists i | 0 <= i < |c.toDelete| :: c.toDelete[i].pipeline.pipelineId.None?)
  {
  }

  /** A definition that was pushed nowhere yet: it names its space and has no pipeline id. */
  function Draft(): Pipeline
  {
    Pipeline("p", None, Some("s"), None,
             [Source("in", None, None, None),
              Transformer("t", None, None, Transformation(None, Some("code")), ["in"], None),
              Sink("out", None, None, None, ["t"])])
  }

  lemma DraftIsValid()
    ensures ValidPipeline(Draft())
  {
    var p := Draft();
    ChainAt(p, 0, 1, 2);
    assert ValidComponent(p.components[0]) && ValidComponent(p.components[1]) && ValidComponent(p.components[2]);
    assert forall c | c in p.components :: ValidComponent(c);
    assert CheckSpaceFilled(p).Ok?;
  }

  lemma DraftIsYaml()
    ensures IsYaml("pipelines/p.yaml")
  {
    LastIndexOfAt("pipelines", '/', "p.yaml");
    assert "pipelines/p.yaml" == "pipelines" + ['/'] + "p.yaml";
    LastIndexOfAt("p", '.', "yaml");
    assert "p.yaml" == "p" + ['.'] + "yaml";
  }

  /** The deletion loop lists a deleted definition file that loads. */
  lemma DeletedDefinitionIsListed(f: Path, p: Pipeline)
    requires IsYaml(f) && ValidPipeline(p)
    ensures DeletionsFrom(map[f := Doc(DumpPipeline(p))], [f], []) == Deleted(Ok([Change(f, p)]), map[])
  {
    var d := DumpPipeline(p);
    var files := map[f := Doc(d)];
    PipelineRoundTrip(p);
    assert "name" in d;
    assert OpenYaml(files, f) == Ok(d);
    assert Load(files, f) == Ok(p);
    assert [f][1..] == [];
    assert files - {f} == map[];
    var acc: seq<Change> := [];
    assert acc + [Change(f, p)] == [Change(f, p)];
    assert DeletionsFrom(files, [f], acc) == DeletionsFrom(files - {f}, [f][1..], acc + [Change(f, p)]);
    assert DeletionsFrom(files - {f}, [], [Change(f, p)]) == Deleted(Ok([Change(f, p)]), map[]);
  }

  /** A deleted draft: it loads, the deletion loop lists it, and the summary as written
      fails on it. */
  lemma AsWrittenCounterexample()
    ensures var f := "pipelines/p.yaml";
      ValidPipeline(Draft()) &&
      DeletionsFrom(map[f := Doc(DumpPipeline(Draft()))], [f], []) == Deleted(Ok([Change(f, Draft())]), map[]) &&
      GenerateOutputsAsWritten(Changes([], [], [Change(f, Draft())], [])).Err?
  {
    DraftIsValid();
    DraftIsYaml();
    DeletedDefinitionIsListed("pipelines/p.yaml", Draft());
    assert PipelineIds([Change("pipelines/p.yaml", Draft())]) == [None];
  }

  /** The corrected summary agrees with the one as written wherever that one succeeds, and
      its id fields read back as the ids, in order. */
  lemma GenerateOutputsAgrees(c: Changes)
    ensures GenerateOutputsAsWritten(c).Ok? ==> GenerateOutputsAsWritten(c) == Ok(GenerateOutputs(c))
    ensures (forall i | 0 <= i < |c.toUpdate| :: c.toUpdate[i].pipeline.pipelineId.Some? &&
                                                 ' ' !in c.toUpdate[i].pipeline.pipelineId.value) && c.toUpdate != [] ==>
      SplitWords(GenerateOutputs(c).toUpdateIds) == PresentIds(PipelineIds(c.toUpdate))
  {
    if GenerateOutputsAsWritten(c).Ok? {
      JoinIdsIsJoinWords(PipelineIds(c.toUpdate));
      JoinIdsIsJoinWords(PipelineIds(c.toDelete));
    }
    if (forall i | 0 <= i < |c.toUpdate| :: c.toUpdate[i].pipeline.pipelineId.Some? &&
                                            ' ' !in c.toUpdate[i].pipeline.pipelineId.value) && c.toUpdate != [] {
      var words := PresentIds(PipelineIds(c.toUpdate));
      SplitJoin(words);
    }
  }
}
