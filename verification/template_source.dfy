/** Resolving one parsed template key to its text: a plain field from the
    overrides or the profile, a value chained from the last response of
    another recipe, or a variable of the process environment. Everything
    the engine asks of the outside world (the stored responses, the JSON
    machinery, the environment) is a parameter. */
module TemplateSources {
  import opened Wrappers
  import opened Http
  import opened JsonModel
  import opened TemplateErrors
  import opened TemplateKeys

  /** A chain: a name usable as `chains.<id>`, the recipe whose last
      response it reads, and an optional JSON path selecting a value. */
  datatype Chain = Chain(id: string, source: RecipeId, path: Option<string>)

  /** What the response store says about a recipe it knows: its last
      successful record, or that it could not be read. A recipe missing from
      the store has no successful response. */
  datatype Lookup = Stored(record: Record) | Unavailable(cause: string)

  /** Everything templates may read from the application's state. */
  datatype Context = Context(
    profile: map<string, string>,
    overrides: map<string, string>,
    chains: seq<Chain>,
    repository: map<RecipeId, Lookup>)

  /** A process environment entry: text, or bytes that are not Unicode. */
  datatype EnvEntry = Unicode(value: string) | NonUnicode

  /** The outside world: the process environment, and the JSON-path parser,
      content-type-directed body parser, JSON view of a parsed body,
      path query and compact JSON printer, each as a given function. */
  datatype Host = Host(
    env: map<string, EnvEntry>,
    parsePath: string -> Result<JsonPath, string>,
    parseBody: Response -> Result<ParsedBody, string>,
    asJson: ParsedBody -> Result<Json, string>,
    query: (JsonPath, Json) -> seq<Json>,
    display: Json -> string)

  // ---------------------------------------------------------------------
  // Fields

  /** A field is looked up in the overrides first, then in the profile. */
  function ResolveField(ctx: Context, field: string): (r: Result<string, TemplateError>)
    ensures r.Success? <==> field in ctx.profile + ctx.overrides
    ensures r.Success? ==> r.value == (ctx.profile + ctx.overrides)[field]
    ensures r.Failure? ==> r.error == FieldUnknown(field)
  {
    if field in ctx.overrides then Success(ctx.overrides[field])
    else if field in ctx.profile then Success(ctx.profile[field])
    else Failure(FieldUnknown(field))
  }

  // ---------------------------------------------------------------------
  // Chains

  /** The first chain declared with the given id. */
  function FindChain(chains: seq<Chain>, id: string): Option<Chain> {
    if chains == [] then None
    else if chains[0].id == id then Some(chains[0])
    else FindChain(chains[1..], id)
  }

  /** `FindChain` finds a chain exactly when one has the id, and then the
      earliest such. */
  lemma {:induction false} FindChainFirst(chains: seq<Chain>, id: string)
    ensures FindChain(chains, id).None? <==> forall k | 0 <= k < |chains| :: chains[k].id != id
    ensures FindChain(chains, id).Some? ==>
      exists k | 0 <= k < |chains| ::
        && chains[k] == FindChain(chains, id).value
        && chains[k].id == id
        && forall j | 0 <= j < k :: chains[j].id != id
  {
    if chains != [] && chains[0].id != id {
      FindChainFirst(chains[1..], id);
      if FindChain(chains, id).Some? {
        var k :| 0 <= k < |chains[1..]|
          && chains[1..][k] == FindChain(chains, id).value
          && chains[1..][k].id == id
          && forall j | 0 <= j < k :: chains[1..][j].id != id;
        assert chains[k + 1] == chains[1..][k];
        assert forall j | 0 <= j < k + 1 :: chains[j].id != id by {
          forall j | 0 <= j < k + 1 ensures chains[j].id != id {
            if j > 0 {
              assert chains[j] == chains[1..][j - 1];
            }
          }
        }
      } else {
        forall k | 0 <= k < |chains| ensures chains[k].id != id {
          if k > 0 {
            assert chains[k] == chains[1..][k - 1];
          }
        }
      }
    }
  }

  /** The last successful record of a recipe, if any, or the store's
      failure. */
  function GetLast(ctx: Context, recipe: RecipeId): (r: Result<Option<Record>, string>)
    ensures recipe !in ctx.repository ==> r == Success(None)
    ensures recipe in ctx.repository && ctx.repository[recipe].Stored? ==>
      r == Success(Some(ctx.repository[recipe].record))
    ensures recipe in ctx.repository && ctx.repository[recipe].Unavailable? ==>
      r == Failure(ctx.repository[recipe].cause)
    ensures r.Success? && r.value.Some? ==> ctx.repository[recipe] == Stored(r.value.value)
    ensures r.Failure? ==> ctx.repository[recipe] == Unavailable(r.error)
  {
    if recipe !in ctx.repository then Success(None)
    else match ctx.repository[recipe]
      case Stored(record) => Success(Some(record))
      case Unavailable(cause) => Failure(cause)
  }

  /** A selected JSON value as text: a string is its contents without
      quotes, anything else its compact JSON form. */
  function Stringify(host: Host, v: Json): (r: string)
    ensures v.JString? ==> r == v.text
    ensures !v.JString? ==> r == host.display(v)
  {
    match v
    case JString(text) => text
    case _ => host.display(v)
  }

  /** A path applied to the body of a chain's record: parse the path,
      parse the body, view it as JSON, query it and require exactly one
      result. */
  function Select(host: Host, chainId: string, path: string, response: Response): (r: Result<string, TemplateError>)
    ensures host.parsePath(path).Failure? ==>
      r == Failure(ChainJsonPath(chainId, path, host.parsePath(path).error))
    ensures host.parsePath(path).Success? && host.parseBody(response).Failure? ==>
      r == Failure(ChainParseResponse(chainId, host.parseBody(response).error))
    ensures (&& host.parsePath(path).Success? && host.parseBody(response).Success?
             && host.asJson(host.parseBody(response).value).Failure?) ==>
      r == Failure(ChainIncorrectContentType(chainId, host.asJson(host.parseBody(response).value).error))
    ensures (&& host.parsePath(path).Success? && host.parseBody(response).Success?
             && host.asJson(host.parseBody(response).value).Success?) ==>
      var nodes := host.query(host.parsePath(path).value, host.asJson(host.parseBody(response).value).value);
      && (|nodes| == 0 ==> r == Failure(ChainInvalidResult(chainId, Empty)))
      && (|nodes| > 1 ==> r == Failure(ChainInvalidResult(chainId, MoreThanOne(|nodes|))))
      && (|nodes| == 1 ==> r == Success(Stringify(host, nodes[0])))
    ensures r.Failure? ==> Subject(r.error) == Some(chainId)
    ensures r.Success? ==>
      && host.parsePath(path).Success?
      && host.parseBody(response).Success?
      && host.asJson(host.parseBody(response).value).Success?
      && var nodes := host.query(host.parsePath(path).value, host.asJson(host.parseBody(response).value).value);
         |nodes| == 1 && r.value == Stringify(host, nodes[0])
  {
    var compiled :- host.parsePath(path).MapFailure(err => ChainJsonPath(chainId, path, err));
    var parsed :- host.parseBody(response).MapFailure(err => ChainParseResponse(chainId, err));
    var json :- host.asJson(parsed).MapFailure(err => ChainIncorrectContentType(chainId, err));
    var found :- ExactlyOne(host.query(compiled, json)).MapFailure(err => ChainInvalidResult(chainId, err));
    Success(Stringify(host, found))
  }

  /** The text a chain stands for. */
  function ResolveChain(ctx: Context, host: Host, chainId: string): (r: Result<string, TemplateError>)
    ensures FindChain(ctx.chains, chainId).None? ==> r == Failure(ChainUnknown(chainId))
    ensures r.Failure? ==> r.error.Repository? || Subject(r.error) == Some(chainId)
    ensures FindChain(ctx.chains, chainId).Some? ==>
      var chain := FindChain(ctx.chains, chainId).value;
      match GetLast(ctx, chain.source)
      case Failure(cause) => r == Failure(Repository(cause))
      case Success(None) => r == Failure(ChainNoResponse(chainId))
      case Success(Some(record)) =>
        && (chain.path.None? ==> r == Success(record.response.body))
        && (chain.path.Some? ==> r == Select(host, chainId, chain.path.value, record.response))
  {
    var chain :- FindChain(ctx.chains, chainId).ToResult(ChainUnknown(chainId));
    var last :- GetLast(ctx, chain.source).MapFailure(err => Repository(err));
    var record :- last.ToResult(ChainNoResponse(chainId));
    match chain.path
    case None => Success(record.response.body)
    case Some(path) => Select(host, chainId, path, record.response)
  }

  // ---------------------------------------------------------------------
  // Environment

  function ResolveEnv(host: Host, variable: string): (r: Result<string, TemplateError>)
    ensures r.Success? <==> variable in host.env && host.env[variable].Unicode?
    ensures r.Success? ==> r.value == host.env[variable].value
    ensures variable !in host.env ==> r == Failure(EnvironmentVariable(variable, NotPresent))
    ensures variable in host.env && host.env[variable].NonUnicode? ==>
      r == Failure(EnvironmentVariable(variable, NotUnicode))
  {
    if variable !in host.env then Failure(EnvironmentVariable(variable, NotPresent))
    else match host.env[variable]
      case Unicode(value) => Success(value)
      case NonUnicode => Failure(EnvironmentVariable(variable, NotUnicode))
  }

  // ---------------------------------------------------------------------
  // Keys

  /** The name a parsed key carries. */
  function Name(k: TemplateKey): string {
    match k
    case Field(name) => name
    case Chain(chainId) => chainId
    case Environment(variable) => variable
  }

  /** Dispatch on the kind of key. A failure names the key's field, chain
      or variable, except a failure of the response store, which only a
      chain key can meet. */
  function ResolveKey(ctx: Context, host: Host, k: TemplateKey): (r: Result<string, TemplateError>)
    ensures r.Failure? ==> r.error.Repository? || Subject(r.error) == Some(Name(k))
    ensures r.Failure? && r.error.Repository? ==> k.Chain?
  {
    match k
    case Field(name) => ResolveField(ctx, name)
    case Chain(chainId) => ResolveChain(ctx, host, chainId)
    case Environment(variable) => ResolveEnv(host, variable)
  }

  /** The text a raw key (what stands between the braces, without the
      surrounding spaces) renders to. Every failure names what it was
      about: the raw key when it does not parse, otherwise the field, chain
      or variable the key names; only a failure of the response store
      names nothing. */
  function ResolveRaw(ctx: Context, host: Host, raw: string): (r: Result<string, TemplateError>)
    ensures Parse(raw).Failure? ==> r == Failure(InvalidKey(raw))
    ensures Parse(raw).Success? ==> r == ResolveKey(ctx, host, Parse(raw).value)
    ensures r.Failure? && Parse(raw).Success? ==>
      r.error.Repository? || Subject(r.error) == Some(Name(Parse(raw).value))
  {
    var k :- Parse(raw);
    ResolveKey(ctx, host, k)
  }
}
