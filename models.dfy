/** The pipeline definition schema: the records a definition file is read into, the
    validators that accept or reject them, the reading of a YAML document into a
    pipeline and the dump of a pipeline back into YAML values. */
module Models {
  import opened Base
  import opened Documents

  // ---------------------------------------------------------------------------
  // Records

  datatype EnvironmentVariable = EnvironmentVariable(name: string, value: Option<string>, valueSecretRef: Option<string>)

  datatype Requirements = Requirements(path: Option<string>, value: Option<string>)

  datatype Transformation = Transformation(path: Option<string>, value: Option<string>)

  datatype ConfigParameter = ConfigParameter(value: Option<string>, secretRef: Option<string>)

  datatype ConfigHeaderParameter = ConfigHeaderParameter(name: string, value: Option<string>)

  /** One entry of a connector configuration: a parameter or a list of headers. */
  datatype ConfigEntry = Parameter(parameter: ConfigParameter) | Headers(headers: seq<ConfigHeaderParameter>)

  type ConnectorConfig = map<string, ConfigEntry>

  /** The component union, discriminated by the `type` key. */
  datatype Component =
    | Source(id: string, name: Option<string>, kind: Option<string>, config: Option<ConnectorConfig>)
    | Transformer(id: string, name: Option<string>, requirements: Option<Requirements>,
                  transformation: Transformation, inputs: seq<string>,
                  envVars: Option<seq<EnvironmentVariable>>)
    | Sink(id: string, name: Option<string>, kind: Option<string>, config: Option<ConnectorConfig>,
           inputs: seq<string>)

  datatype Pipeline = Pipeline(name: string, pipelineId: Option<string>, spaceId: Option<string>,
                               spaceName: Option<string>, components: seq<Component>)

  // ---------------------------------------------------------------------------
  // Validators: each gives back its record or fails

  /** Python truthiness of an optional string: set and not empty. */
  predicate Truthy(s: Option<string>)
  {
    s.Some? && s.value != ""
  }

  /** Python truthiness of an optional configuration: a `ConnectorConfig` instance defines
      neither `__bool__` nor `__len__`, so any configuration that is set is truthy, an empty
      one included. */
  predicate ConfigTruthy(c: Option<ConnectorConfig>)
  {
    c.Some?
  }

  function CheckEnvironmentVariable(e: EnvironmentVariable): (r: Result<EnvironmentVariable>)
    ensures r.Ok? <==> e.value.Some? || e.valueSecretRef.Some?
    ensures r.Ok? ==> r.value == e
  {
    if e.valueSecretRef.None? && e.value.None? then Err(Invalid("value")) else Ok(e)
  }

  function CheckRequirements(q: Requirements): (r: Result<Requirements>)
    ensures r.Ok? <==> q.path.Some? || q.value.Some?
    ensures r.Ok? ==> r.value == q
  {
    if q.path.None? && q.value.None? then Err(Invalid("requirements")) else Ok(q)
  }

  function CheckTransformation(t: Transformation): (r: Result<Transformation>)
    ensures r.Ok? <==> t.path.Some? || t.value.Some?
    ensures r.Ok? ==> r.value == t
  {
    if t.path.None? && t.value.None? then Err(Invalid("transformation")) else Ok(t)
  }

  function CheckConfigParameter(c: ConfigParameter): (r: Result<ConfigParameter>)
    ensures r.Ok? <==> (Truthy(c.value) <==> !Truthy(c.secretRef))
    ensures r.Ok? ==> r.value == c
  {
    if !(Truthy(c.value) || Truthy(c.secretRef)) then Err(Invalid("value"))
    else if Truthy(c.value) && Truthy(c.secretRef) then Err(Invalid("secret_ref"))
    else Ok(c)
  }

  /** The `check_filled` of a source or a sink. */
  function CheckConnector(c: Component): (r: Result<Component>)
    requires c.Source? || c.Sink?
    ensures r.Ok? <==> (Truthy(c.kind) ==> ConfigTruthy(c.config))
    ensures r.Ok? ==> r.value == c
  {
    if Truthy(c.kind) && !ConfigTruthy(c.config) then Err(Invalid("config")) else Ok(c)
  }

  function CheckSpaceFilled(p: Pipeline): (r: Result<Pipeline>)
    ensures r.Ok? <==> p.spaceId.Some? || (p.spaceName.Some? && p.pipelineId.None?)
    ensures r.Ok? ==> r.value == p
  {
    if p.spaceId.None? && p.spaceName.None? then Err(Invalid("space_id"))
    else if p.pipelineId.Some? && p.spaceId.None? then Err(Invalid("space_id"))
    else Ok(p)
  }

  datatype Kind = SourceKind | TransformerKind | SinkKind

  function KindOf(c: Component): (k: Kind)
    ensures (k == SourceKind <==> c.Source?) && (k == TransformerKind <==> c.Transformer?)
    ensures k == SinkKind <==> c.Sink?
  {
    match c
    case Source(_, _, _, _) => SourceKind
    case Transformer(_, _, _, _, _, _) => TransformerKind
    case Sink(_, _, _, _, _) => SinkKind
  }

  /** `[c for c in components if c.type == kind]` */
  function OfKind(cs: seq<Component>, k: Kind): (r: seq<Component>)
    ensures forall n | 0 <= n < |r| :: r[n] in cs && KindOf(r[n]) == k
  {
    if cs == [] then []
    else (if KindOf(cs[0]) == k then [cs[0]] else []) + OfKind(cs[1..], k)
  }

  /** The filter keeps every occurrence of a component of the kind and drops every other;
      in particular a component of the kind is kept whenever it is in the list. */
  lemma {:induction false} OfKindCounts(cs: seq<Component>, k: Kind, c: Component)
    ensures multiset(OfKind(cs, k))[c] == if KindOf(c) == k then multiset(cs)[c] else 0
    ensures c in cs && KindOf(c) == k ==> c in OfKind(cs, k)
  {
    if cs != [] {
      assert cs == [cs[0]] + cs[1..];
      OfKindCounts(cs[1..], k, c);
    }
  }

  /** The filter keeps the order of the list: filtering a concatenation filters each part. */
  lemma {:induction false} OfKindAppend(a: seq<Component>, b: seq<Component>, k: Kind)
    ensures OfKind(a + b, k) == OfKind(a, k) + OfKind(b, k)
  {
    if a == [] {
      assert a + b == b;
    } else {
      assert (a + b)[0] == a[0] && (a + b)[1..] == a[1..] + b;
      OfKindAppend(a[1..], b, k);
      var head := if KindOf(a[0]) == k then [a[0]] else [];
      AppendAssoc(head, OfKind(a[1..], k), OfKind(b, k));
    }
  }

  /** The shape `check_components` demands, stated independently of the filters it uses:
      three components, one of each kind, wired source -> transformer -> sink. */
  predicate IsChain(cs: seq<Component>)
  {
    |cs| == 3 &&
    exists i, j, k | 0 <= i < 3 && 0 <= j < 3 && 0 <= k < 3 ::
      cs[i].Source? && cs[j].Transformer? && cs[k].Sink? &&
      |cs[j].inputs| > 0 && cs[j].inputs[0] == cs[i].id &&
      |cs[k].inputs| > 0 && cs[k].inputs[0] == cs[j].id
  }

  lemma OfKindOfThree(cs: seq<Component>, k: Kind)
    requires |cs| == 3
    ensures OfKind(cs, k) == (if KindOf(cs[0]) == k then [cs[0]] else [])
                             + (if KindOf(cs[1]) == k then [cs[1]] else [])
                             + (if KindOf(cs[2]) == k then [cs[2]] else [])
  {
    var h0 := if KindOf(cs[0]) == k then [cs[0]] else [];
    var h1 := if KindOf(cs[1]) == k then [cs[1]] else [];
    var h2 := if KindOf(cs[2]) == k then [cs[2]] else [];
    assert cs[1..][0] == cs[1] && cs[1..][1..] == cs[2..];
    assert cs[2..][0] == cs[2] && cs[2..][1..] == [];
    assert OfKind(cs[2..], k) == h2 + [] == h2;
    assert OfKind(cs[1..], k) == h1 + h2;
    AppendAssoc(h0, h1, h2);
  }

  function CheckComponents(p: Pipeline): (r: Result<Pipeline>)
    ensures r.Ok? ==> r.value == p
  {
    var cs := p.components;
    if |cs| != 3 then Err(Invalid("components"))
    else
      var sources := OfKind(cs, SourceKind);
      var transformers := OfKind(cs, TransformerKind);
      var sinks := OfKind(cs, SinkKind);
      if |sources| != 1 || |transformers| != 1 || |sinks| != 1 then Err(Invalid("components"))
      else if |transformers[0].inputs| == 0 || transformers[0].inputs[0] != sources[0].id then Err(Invalid("inputs"))
      else if |sinks[0].inputs| == 0 || sinks[0].inputs[0] != transformers[0].id then Err(Invalid("inputs"))
      else Ok(p)
  }

  /** The filter picks out exactly the component at `i` when no other one is of kind `k`. */
  lemma OfKindOnlyAt(cs: seq<Component>, k: Kind, i: nat)
    requires |cs| == 3 && i < 3
    requires forall m | 0 <= m < 3 :: (KindOf(cs[m]) == k) == (m == i)
    ensures OfKind(cs, k) == [cs[i]]
  {
    OfKindOfThree(cs, k);
    assert KindOf(cs[i]) == k;
    if i == 0 {
      assert KindOf(cs[1]) != k && KindOf(cs[2]) != k;
    } else if i == 1 {
      assert KindOf(cs[0]) != k && KindOf(cs[2]) != k;
    } else {
      assert KindOf(cs[0]) != k && KindOf(cs[1]) != k;
    }
  }

  /** When the filter keeps a single component, that component sits at some index. */
  lemma OfKindSingle(cs: seq<Component>, k: Kind) returns (i: nat)
    requires |cs| == 3 && |OfKind(cs, k)| == 1
    ensures i < 3 && OfKind(cs, k) == [cs[i]] && KindOf(cs[i]) == k
  {
    OfKindOfThree(cs, k);
    var a, b, c := KindOf(cs[0]) == k, KindOf(cs[1]) == k, KindOf(cs[2]) == k;
    if a {
      i := 0;
    } else if b {
      i := 1;
    } else {
      i := 2;
    }
  }

  /** `check_components` accepts exactly the three-component chains. */
  lemma CheckComponentsIsChain(p: Pipeline)
    ensures CheckComponents(p).Ok? <==> IsChain(p.components)
  {
    if CheckComponents(p).Ok? {
      CheckedIsChain(p);
    }
    if IsChain(p.components) {
      ChainIsChecked(p);
    }
  }

  lemma CheckedIsChain(p: Pipeline)
    requires CheckComponents(p).Ok?
    ensures IsChain(p.components)
  {
    var cs := p.components;
    var i := OfKindSingle(cs, SourceKind);
    var j := OfKindSingle(cs, TransformerKind);
    var k := OfKindSingle(cs, SinkKind);
    assert cs[i].Source? && cs[j].Transformer? && cs[k].Sink?;
    assert |cs[j].inputs| > 0 && cs[j].inputs[0] == cs[i].id;
    assert |cs[k].inputs| > 0 && cs[k].inputs[0] == cs[j].id;
  }

  lemma ChainIsChecked(p: Pipeline)
    requires IsChain(p.components)
    ensures CheckComponents(p).Ok?
  {
    var cs := p.components;
    var i, j, k :| 0 <= i < 3 && 0 <= j < 3 && 0 <= k < 3 &&
      cs[i].Source? && cs[j].Transformer? && cs[k].Sink? &&
      |cs[j].inputs| > 0 && cs[j].inputs[0] == cs[i].id &&
      |cs[k].inputs| > 0 && cs[k].inputs[0] == cs[j].id;
    ChainAt(p, i, j, k);
  }

  lemma ChainAt(p: Pipeline, i: nat, j: nat, k: nat)
    requires |p.components| == 3 && i < 3 && j < 3 && k < 3
    requires p.components[i].Source? && p.components[j].Transformer? && p.components[k].Sink?
    requires |p.components[j].inputs| > 0 && p.components[j].inputs[0] == p.components[i].id
    requires |p.components[k].inputs| > 0 && p.components[k].inputs[0] == p.components[j].id
    ensures CheckComponents(p).Ok?
  {
    var cs := p.components;
    forall m | 0 <= m < 3
      ensures (KindOf(cs[m]) == SourceKind) == (m == i)
      ensures (KindOf(cs[m]) == TransformerKind) == (m == j)
      ensures (KindOf(cs[m]) == SinkKind) == (m == k)
    {
    }
    OfKindOnlyAt(cs, SourceKind, i);
    OfKindOnlyAt(cs, TransformerKind, j);
    OfKindOnlyAt(cs, SinkKind, k);
  }

  /** Every nested validator of the component accepts it. */
  predicate ValidConfig(c: Option<ConnectorConfig>)
  {
    c.Some? ==> forall k | k in c.value :: c.value[k].Parameter? ==> CheckConfigParameter(c.value[k].parameter).Ok?
  }

  predicate ValidComponent(c: Component)
  {
    match c
    case Source(_, _, _, config) => ValidConfig(config) && CheckConnector(c).Ok?
    case Sink(_, _, _, config, _) => ValidConfig(config) && CheckConnector(c).Ok?
    case Transformer(_, _, req, tr, _, env) =>
      (req.Some? ==> CheckRequirements(req.value).Ok?) &&
      CheckTransformation(tr).Ok? &&
      (env.Some? ==> forall e | e in env.value :: CheckEnvironmentVariable(e).Ok?)
  }

  /** Everything a loaded pipeline satisfies. */
  predicate ValidPipeline(p: Pipeline)
  {
    (forall c | c in p.components :: ValidComponent(c)) &&
    CheckSpaceFilled(p).Ok? && CheckComponents(p).Ok?
  }

  // ---------------------------------------------------------------------------
  // The components of a valid pipeline

  /** A valid pipeline has exactly one component of each kind. */
  lemma OneOfKind(p: Pipeline, k: Kind)
    requires ValidPipeline(p)
    ensures |OfKind(p.components, k)| == 1
    ensures forall c | c in p.components && KindOf(c) == k :: c == OfKind(p.components, k)[0]
  {
    var cs := p.components;
    assert CheckComponents(p).Ok?;
    assert |cs| == 3 && |OfKind(cs, k)| == 1 by {
      assert |OfKind(cs, SourceKind)| == 1 && |OfKind(cs, TransformerKind)| == 1 && |OfKind(cs, SinkKind)| == 1;
      assert k == SourceKind || k == TransformerKind || k == SinkKind;
    }
    OfKindOfThree(cs, k);
    forall c | c in cs && KindOf(c) == k
      ensures c == OfKind(cs, k)[0]
    {
      var m :| 0 <= m < 3 && cs[m] == c;
    }
  }

  function SourceOf(p: Pipeline): (s: Component)
    requires ValidPipeline(p)
    ensures s.Source? && s in p.components
    ensures forall c | c in p.components && c.Source? :: c == s
  {
    OneOfKind(p, SourceKind);
    OfKind(p.components, SourceKind)[0]
  }

  function TransformerOf(p: Pipeline): (t: Component)
    requires ValidPipeline(p)
    ensures t.Transformer? && t in p.components
    ensures forall c | c in p.components && c.Transformer? :: c == t
  {
    OneOfKind(p, TransformerKind);
    OfKind(p.components, TransformerKind)[0]
  }

  function SinkOf(p: Pipeline): (k: Component)
    requires ValidPipeline(p)
    ensures k.Sink? && k in p.components
    ensures forall c | c in p.components && c.Sink? :: c == k
  {
    OneOfKind(p, SinkKind);
    OfKind(p.components, SinkKind)[0]
  }

  /** A valid pipeline is a three-component chain: its transformer reads the source and
      its sink reads the transformer. */
  lemma ValidPipelineIsWired(p: Pipeline)
    requires ValidPipeline(p)
    ensures |p.components| == 3
    ensures |TransformerOf(p).inputs| > 0 && TransformerOf(p).inputs[0] == SourceOf(p).id
    ensures |SinkOf(p).inputs| > 0 && SinkOf(p).inputs[0] == TransformerOf(p).id
    ensures p.spaceId.Some? || p.spaceName.Some?
    ensures p.pipelineId.Some? ==> p.spaceId.Some?
  {
    CheckComponentsIsChain(p);
    var cs := p.components;
    var i, j, k :| 0 <= i < 3 && 0 <= j < 3 && 0 <= k < 3 &&
      cs[i].Source? && cs[j].Transformer? && cs[k].Sink? &&
      |cs[j].inputs| > 0 && cs[j].inputs[0] == cs[i].id &&
      |cs[k].inputs| > 0 && cs[k].inputs[0] == cs[j].id;
    assert cs[i] == SourceOf(p) && cs[j] == TransformerOf(p) && cs[k] == SinkOf(p);
  }

  // ---------------------------------------------------------------------------
  // Reading a YAML document into records (what pydantic does for `Pipeline(**data)`)

  /** An absent key reads like an explicit null. */
  function Lookup(d: Document, k: string): Value
  {
    if k in d then d[k] else Null
  }

  /** An optional string field. */
  function ParseOptionalString(d: Document, k: string): (r: Result<Option<string>>)
  {
    match Lookup(d, k)
    case Null => Ok(None)
    case Str(s) => Ok(Some(s))
    case _ => Err(Invalid(k))
  }

  /** A required string field. */
  function ParseString(d: Document, k: string): (r: Result<string>)
  {
    if k !in d then Err(Invalid(k))
    else match d[k]
      case Str(s) => Ok(s)
      case _ => Err(Invalid(k))
  }

  function ParseStrings(vs: seq<Value>): (r: Result<seq<string>>)
    ensures r.Ok? ==> |r.value| == |vs|
  {
    if vs == [] then Ok([])
    else match vs[0]
      case Str(s) => var rest :- ParseStrings(vs[1..]); Ok([s] + rest)
      case _ => Err(Invalid("inputs"))
  }

  function ParseEnvironmentVariable(v: Value): (r: Result<EnvironmentVariable>)
    ensures r.Ok? ==> CheckEnvironmentVariable(r.value).Ok?
  {
    match v
    case Map(m) =>
      var name :- ParseString(m, "name");
      var value :- ParseOptionalString(m, "value");
      var secretRef :- ParseOptionalString(m, "value_secret_ref");
      CheckEnvironmentVariable(EnvironmentVariable(name, value, secretRef))
    case _ => Err(Invalid("env_vars"))
  }

  function ParseEnvironmentVariables(vs: seq<Value>): (r: Result<seq<EnvironmentVariable>>)
    ensures r.Ok? ==> forall e | e in r.value :: CheckEnvironmentVariable(e).Ok?
  {
    if vs == [] then Ok([])
    else
      var e :- ParseEnvironmentVariable(vs[0]);
      var rest :- ParseEnvironmentVariables(vs[1..]);
      Ok([e] + rest)
  }

  function ParseRequirements(v: Value): (r: Result<Option<Requirements>>)
    ensures r.Ok? && r.value.Some? ==> CheckRequirements(r.value.value).Ok?
  {
    match v
    case Null => Ok(None)
    case Map(m) =>
      var path :- ParseOptionalString(m, "path");
      var value :- ParseOptionalString(m, "value");
      var q :- CheckRequirements(Requirements(path, value));
      Ok(Some(q))
    case _ => Err(Invalid("requirements"))
  }

  function ParseTransformation(v: Value): (r: Result<Transformation>)
    ensures r.Ok? ==> CheckTransformation(r.value).Ok?
  {
    match v
    case Map(m) =>
      var path :- ParseOptionalString(m, "path");
      var value :- ParseOptionalString(m, "value");
      CheckTransformation(Transformation(path, value))
    case _ => Err(Invalid("transformation"))
  }

  function ParseHeaders(vs: seq<Value>): (r: Result<seq<ConfigHeaderParameter>>)
  {
    if vs == [] then Ok([])
    else match vs[0]
      case Map(m) =>
        var name :- ParseString(m, "name");
        var value :- ParseOptionalString(m, "value");
        var rest :- ParseHeaders(vs[1..]);
        Ok([ConfigHeaderParameter(name, value)] + rest)
      case _ => Err(Invalid("config"))
  }

  /** A mapping is read as a parameter, a list as headers; nothing else is accepted. */
  function ParseConfigEntry(v: Value): (r: Result<ConfigEntry>)
    ensures r.Ok? && r.value.Parameter? ==> CheckConfigParameter(r.value.parameter).Ok?
  {
    match v
    case Map(m) =>
      var value :- ParseOptionalString(m, "value");
      var secretRef :- ParseOptionalString(m, "secret_ref");
      var c :- CheckConfigParameter(ConfigParameter(value, secretRef));
      Ok(Parameter(c))
    case List(items) =>
      var hs :- ParseHeaders(items);
      Ok(Headers(hs))
    case _ => Err(Invalid("config"))
  }

  function ParseConfig(v: Value): (r: Result<Option<ConnectorConfig>>)
    ensures r.Ok? ==> ValidConfig(r.value)
  {
    match v
    case Null => Ok(None)
    case Map(m) =>
      if forall k | k in m :: ParseConfigEntry(m[k]).Ok?
      then Ok(Some(map k | k in m :: ParseConfigEntry(m[k]).value))
      else Err(Invalid("config"))
    case _ => Err(Invalid("config"))
  }

  function ParseOptionalEnvironmentVariables(v: Value): (r: Result<Option<seq<EnvironmentVariable>>>)
    ensures r.Ok? && r.value.Some? ==> forall e | e in r.value.value :: CheckEnvironmentVariable(e).Ok?
  {
    match v
    case Null => Ok(None)
    case List(items) => var es :- ParseEnvironmentVariables(items); Ok(Some(es))
    case _ => Err(Invalid("env_vars"))
  }

  function ParseInputs(d: Document): (r: Result<seq<string>>)
  {
    if "inputs" !in d then Err(Invalid("inputs"))
    else match d["inputs"]
      case List(items) => ParseStrings(items)
      case _ => Err(Invalid("inputs"))
  }

  function ParseSource(m: Document): (r: Result<Component>)
    ensures r.Ok? ==> r.value.Source? && ValidComponent(r.value)
  {
    var id :- ParseString(m, "id");
    var name :- ParseOptionalString(m, "name");
    var kind :- ParseOptionalString(m, "kind");
    var config :- ParseConfig(Lookup(m, "config"));
    CheckConnector(Source(id, name, kind, config))
  }

  function ParseSink(m: Document): (r: Result<Component>)
    ensures r.Ok? ==> r.value.Sink? && ValidComponent(r.value)
  {
    var id :- ParseString(m, "id");
    var name :- ParseOptionalString(m, "name");
    var kind :- ParseOptionalString(m, "kind");
    var config :- ParseConfig(Lookup(m, "config"));
    var inputs :- ParseInputs(m);
    CheckConnector(Sink(id, name, kind, config, inputs))
  }

  function ParseTransformer(m: Document): (r: Result<Component>)
    ensures r.Ok? ==> r.value.Transformer? && ValidComponent(r.value)
  {
    var id :- ParseString(m, "id");
    var name :- ParseOptionalString(m, "name");
    var requirements :- ParseRequirements(Lookup(m, "requirements"));
    var transformation :- (if "transformation" in m then ParseTransformation(m["transformation"])
                           else Err(Invalid("transformation")));
    var inputs :- ParseInputs(m);
    var envVars :- ParseOptionalEnvironmentVariables(Lookup(m, "env_vars"));
    Ok(Transformer(id, name, requirements, transformation, inputs, envVars))
  }

  /** The `type` key selects the variant; a missing or unknown tag is an error. */
  function ParseComponent(v: Value): (r: Result<Component>)
    ensures r.Ok? ==> ValidComponent(r.value)
  {
    match v
    case Map(m) =>
      if "type" !in m then Err(Invalid("type"))
      else if m["type"] == Str("source") then ParseSource(m)
      else if m["type"] == Str("transformer") then ParseTransformer(m)
      else if m["type"] == Str("sink") then ParseSink(m)
      else Err(Invalid("type"))
    case _ => Err(Invalid("components"))
  }

  function ParseComponents(vs: seq<Value>): (r: Result<seq<Component>>)
    ensures r.Ok? ==> |r.value| == |vs| && forall c | c in r.value :: ValidComponent(c)
  {
    if vs == [] then Ok([])
    else
      var c :- ParseComponent(vs[0]);
      var rest :- ParseComponents(vs[1..]);
      Ok([c] + rest)
  }

  /** Field parsing of the pipeline record, before its two model validators run. */
  function ParsePipeline(d: Document): (r: Result<Pipeline>)
    ensures r.Ok? ==> forall c | c in r.value.components :: ValidComponent(c)
  {
    var name :- ParseString(d, "name");
    var pipelineId :- ParseOptionalString(d, "pipeline_id");
    var spaceId :- ParseOptionalString(d, "space_id");
    var spaceName :- ParseOptionalString(d, "space_name");
    var components :- (if "components" in d && d["components"].List?
                       then ParseComponents(d["components"].items)
                       else Err(Invalid("components")));
    Ok(Pipeline(name, pipelineId, spaceId, spaceName, components))
  }

  /** `Pipeline(**document)`: field parsing, then `check_space_filled`, then `check_components`.
      Whatever it accepts is a valid pipeline. */
  function LoadDocument(d: Document): (r: Result<Pipeline>)
    ensures r.Ok? ==> ValidPipeline(r.value)
  {
    var p :- ParsePipeline(d);
    var p1 :- CheckSpaceFilled(p);
    CheckComponents(p1)
  }

  // ---------------------------------------------------------------------------
  // `model_dump(exclude_none=True)`: back from records to YAML values

  /** Adds key `k` only when the field is set (`exclude_none`). */
  function WithOptional(m: Document, k: string, o: Option<string>): Document
  {
    if o.Some? then m[k := Str(o.value)] else m
  }

  function DumpEnvironmentVariable(e: EnvironmentVariable): Value
  {
    Map(WithOptional(WithOptional(map["name" := Str(e.name)], "value", e.value), "value_secret_ref", e.valueSecretRef))
  }

  function DumpEnvironmentVariables(es: seq<EnvironmentVariable>): (r: seq<Value>)
  {
    if es == [] then [] else [DumpEnvironmentVariable(es[0])] + DumpEnvironmentVariables(es[1..])
  }

  function DumpHeader(h: ConfigHeaderParameter): Value
  {
    Map(WithOptional(map["name" := Str(h.name)], "value", h.value))
  }

  function DumpHeaders(hs: seq<ConfigHeaderParameter>): (r: seq<Value>)
  {
    if hs == [] then [] else [DumpHeader(hs[0])] + DumpHeaders(hs[1..])
  }

  function DumpConfigEntry(e: ConfigEntry): Value
  {
    match e
    case Parameter(c) => Map(WithOptional(WithOptional(map[], "value", c.value), "secret_ref", c.secretRef))
    case Headers(hs) => List(DumpHeaders(hs))
  }

  function DumpConfig(c: ConnectorConfig): Value
  {
    Map(map k | k in c :: DumpConfigEntry(c[k]))
  }

  function WithConfig(m: Document, c: Option<ConnectorConfig>): Document
  {
    if c.Some? then m["config" := DumpConfig(c.value)] else m
  }

  function DumpInputs(xs: seq<string>): (r: seq<Value>)
  {
    if xs == [] then [] else [Str(xs[0])] + DumpInputs(xs[1..])
  }

  function DumpRequirements(q: Requirements): Value
  {
    Map(WithOptional(WithOptional(map[], "path", q.path), "value", q.value))
  }

  function DumpTransformation(t: Transformation): Value
  {
    Map(WithOptional(WithOptional(map[], "path", t.path), "value", t.value))
  }

  function DumpComponent(c: Component): Document
  {
    match c
    case Source(id, name, kind, config) =>
      WithConfig(WithOptional(WithOptional(map["id" := Str(id), "type" := Str("source")], "name", name), "kind", kind), config)
    case Sink(id, name, kind, config, inputs) =>
      WithConfig(WithOptional(WithOptional(map["id" := Str(id), "type" := Str("sink"), "inputs" := List(DumpInputs(inputs))],
                                           "name", name), "kind", kind), config)
    case Transformer(id, name, req, tr, inputs, env) =>
      var m := WithOptional(map["id" := Str(id), "type" := Str("transformer"),
                                "transformation" := DumpTransformation(tr), "inputs" := List(DumpInputs(inputs))],
                            "name", name);
      var m := if req.Some? then m["requirements" := DumpRequirements(req.value)] else m;
      if env.Some? then m["env_vars" := List(DumpEnvironmentVariables(env.value))] else m
  }

  function DumpComponents(cs: seq<Component>): (r: seq<Document>)
    ensures |r| == |cs|
    ensures forall i | 0 <= i < |cs| :: r[i] == DumpComponent(cs[i])
  {
    if cs == [] then [] else [DumpComponent(cs[0])] + DumpComponents(cs[1..])
  }

  function DumpComponentValues(cs: seq<Component>): (r: seq<Value>)
  {
    if cs == [] then [] else [Map(DumpComponent(cs[0]))] + DumpComponentValues(cs[1..])
  }

  function DumpPipeline(p: Pipeline): Document
  {
    WithOptional(WithOptional(WithOptional(
      map["name" := Str(p.name), "components" := List(DumpComponentValues(p.components))],
      "pipeline_id", p.pipelineId), "space_id", p.spaceId), "space_name", p.spaceName)
  }

  // ---------------------------------------------------------------------------
  // Reading back a dump gives the same records

  lemma {:induction false} InputsRoundTrip(xs: seq<string>)
    ensures ParseStrings(DumpInputs(xs)) == Ok(xs)
  {
    if xs != [] {
      InputsRoundTrip(xs[1..]);
      assert [xs[0]] + xs[1..] == xs;
    }
  }

  lemma EnvironmentVariableRoundTrip(e: EnvironmentVariable)
    requires CheckEnvironmentVariable(e).Ok?
    ensures ParseEnvironmentVariable(DumpEnvironmentVariable(e)) == Ok(e)
  {
    var m := DumpEnvironmentVariable(e).entries;
    assert ParseString(m, "name") == Ok(e.name);
    assert ParseOptionalString(m, "value") == Ok(e.value);
    assert ParseOptionalString(m, "value_secret_ref") == Ok(e.valueSecretRef);
  }

  lemma {:induction false} EnvironmentVariablesRoundTrip(es: seq<EnvironmentVariable>)
    requires forall e | e in es :: CheckEnvironmentVariable(e).Ok?
    ensures ParseEnvironmentVariables(DumpEnvironmentVariables(es)) == Ok(es)
  {
    if es != [] {
      EnvironmentVariableRoundTrip(es[0]);
      EnvironmentVariablesRoundTrip(es[1..]);
      assert [es[0]] + es[1..] == es;
    }
  }

  lemma {:induction false} HeadersRoundTrip(hs: seq<ConfigHeaderParameter>)
    ensures ParseHeaders(DumpHeaders(hs)) == Ok(hs)
  {
    if hs != [] {
      var m := DumpHeader(hs[0]).entries;
      assert ParseString(m, "name") == Ok(hs[0].name);
      assert ParseOptionalString(m, "value") == Ok(hs[0].value);
      HeadersRoundTrip(hs[1..]);
      assert [hs[0]] + hs[1..] == hs;
    }
  }

  lemma ConfigEntryRoundTrip(e: ConfigEntry)
    requires e.Parameter? ==> CheckConfigParameter(e.parameter).Ok?
    ensures ParseConfigEntry(DumpConfigEntry(e)) == Ok(e)
  {
    match e
    case Parameter(c) =>
      var m := DumpConfigEntry(e).entries;
      assert ParseOptionalString(m, "value") == Ok(c.value);
      assert ParseOptionalString(m, "secret_ref") == Ok(c.secretRef);
    case Headers(hs) =>
      HeadersRoundTrip(hs);
  }

  lemma ConfigRoundTrip(c: ConnectorConfig)
    requires ValidConfig(Some(c))
    ensures ParseConfig(DumpConfig(c)) == Ok(Some(c))
  {
    var m := DumpConfig(c).entries;
    forall k | k in m
      ensures ParseConfigEntry(m[k]) == Ok(c[k])
    {
      ConfigEntryRoundTrip(c[k]);
    }
    var back := map k | k in m :: ParseConfigEntry(m[k]).value;
    assert back == c;
  }

  lemma OptionalConfigRoundTrip(m: Document, c: Option<ConnectorConfig>)
    requires ValidConfig(c)
    requires Lookup(m, "config") == (if c.Some? then DumpConfig(c.value) else Null)
    ensures ParseConfig(Lookup(m, "config")) == Ok(c)
  {
    if c.Some? {
      ConfigRoundTrip(c.value);
    }
  }

  lemma SourceRoundTrip(c: Component)
    requires c.Source? && ValidComponent(c)
    ensures ParseSource(DumpComponent(c)) == Ok(c)
  {
    var m := DumpComponent(c);
    assert ParseString(m, "id") == Ok(c.id);
    assert ParseOptionalString(m, "name") == Ok(c.name);
    assert ParseOptionalString(m, "kind") == Ok(c.kind);
    OptionalConfigRoundTrip(m, c.config);
  }

  lemma SinkRoundTrip(c: Component)
    requires c.Sink? && ValidComponent(c)
    ensures ParseSink(DumpComponent(c)) == Ok(c)
  {
    var m := DumpComponent(c);
    assert ParseString(m, "id") == Ok(c.id);
    assert ParseOptionalString(m, "name") == Ok(c.name);
    assert ParseOptionalString(m, "kind") == Ok(c.kind);
    OptionalConfigRoundTrip(m, c.config);
    InputsRoundTrip(c.inputs);
    assert ParseInputs(m) == Ok(c.inputs);
  }

  lemma TransformationRoundTrip(t: Transformation)
    requires CheckTransformation(t).Ok?
    ensures ParseTransformation(DumpTransformation(t)) == Ok(t)
  {
    var tm := DumpTransformation(t).entries;
    assert ParseOptionalString(tm, "path") == Ok(t.path);
    assert ParseOptionalString(tm, "value") == Ok(t.value);
  }

  lemma RequirementsRoundTrip(q: Option<Requirements>)
    requires q.Some? ==> CheckRequirements(q.value).Ok?
    ensures ParseRequirements(if q.Some? then DumpRequirements(q.value) else Null) == Ok(q)
  {
    if q.Some? {
      var rm := DumpRequirements(q.value).entries;
      assert ParseOptionalString(rm, "path") == Ok(q.value.path);
      assert ParseOptionalString(rm, "value") == Ok(q.value.value);
    }
  }

  lemma OptionalEnvironmentVariablesRoundTrip(es: Option<seq<EnvironmentVariable>>)
    requires es.Some? ==> forall e | e in es.value :: CheckEnvironmentVariable(e).Ok?
    ensures ParseOptionalEnvironmentVariables(if es.Some? then List(DumpEnvironmentVariables(es.value)) else Null) == Ok(es)
  {
    if es.Some? {
      EnvironmentVariablesRoundTrip(es.value);
    }
  }

  /** Where the fields of a transformer land in its dump. */
  lemma TransformerDumpFields(c: Component)
    requires c.Transformer?
    ensures var m := DumpComponent(c);
      ParseString(m, "id") == Ok(c.id) && ParseOptionalString(m, "name") == Ok(c.name) &&
      Lookup(m, "requirements") == (if c.requirements.Some? then DumpRequirements(c.requirements.value) else Null) &&
      "transformation" in m && m["transformation"] == DumpTransformation(c.transformation) &&
      "inputs" in m && m["inputs"] == List(DumpInputs(c.inputs)) &&
      Lookup(m, "env_vars") == (if c.envVars.Some? then List(DumpEnvironmentVariables(c.envVars.value)) else Null)
  {
  }

  lemma TransformerRoundTrip(c: Component)
    requires c.Transformer? && ValidComponent(c)
    ensures ParseTransformer(DumpComponent(c)) == Ok(c)
  {
    var m := DumpComponent(c);
    TransformerDumpFields(c);
    RequirementsRoundTrip(c.requirements);
    TransformationRoundTrip(c.transformation);
    InputsRoundTrip(c.inputs);
    assert ParseInputs(m) == Ok(c.inputs);
    OptionalEnvironmentVariablesRoundTrip(c.envVars);
  }

  /** A valid component survives `model_dump` followed by a fresh parse. */
  lemma ComponentRoundTrip(c: Component)
    requires ValidComponent(c)
    ensures ParseComponent(Map(DumpComponent(c))) == Ok(c)
  {
    match c
    case Source(_, _, _, _) => SourceRoundTrip(c);
    case Sink(_, _, _, _, _) => SinkRoundTrip(c);
    case Transformer(_, _, _, _, _, _) => TransformerRoundTrip(c);
  }

  lemma {:induction false} ComponentsRoundTrip(cs: seq<Component>)
    requires forall c | c in cs :: ValidComponent(c)
    ensures ParseComponents(DumpComponentValues(cs)) == Ok(cs)
  {
    if cs != [] {
      ComponentRoundTrip(cs[0]);
      ComponentsRoundTrip(cs[1..]);
      assert [cs[0]] + cs[1..] == cs;
    }
  }

  /** Loading the dump of a pipeline gives that pipeline back exactly when it is valid:
      the loader accepts valid pipelines and nothing else. */
  lemma ParseDumpedPipeline(p: Pipeline)
    requires forall c | c in p.components :: ValidComponent(c)
    ensures ParsePipeline(DumpPipeline(p)) == Ok(p)
  {
    var d := DumpPipeline(p);
    assert ParseString(d, "name") == Ok(p.name);
    assert ParseOptionalString(d, "pipeline_id") == Ok(p.pipelineId);
    assert ParseOptionalString(d, "space_id") == Ok(p.spaceId);
    assert ParseOptionalString(d, "space_name") == Ok(p.spaceName);
    assert d["components"] == List(DumpComponentValues(p.components));
    ComponentsRoundTrip(p.components);
  }

  /** Loading the dump of a pipeline gives that pipeline back exactly when it is valid:
      the loader accepts valid pipelines and nothing else. */
  lemma PipelineRoundTrip(p: Pipeline)
    ensures LoadDocument(DumpPipeline(p)) == Ok(p) <==> ValidPipeline(p)
  {
    if ValidPipeline(p) {
      ParseDumpedPipeline(p);
      assert CheckSpaceFilled(p) == Ok(p);
      assert CheckComponents(p) == Ok(p);
    }
  }
}
