/**
 * The construction of the marketplace client: environment and credential
 * validation, configuration defaults, choice of HTTP client, and loading of
 * the service description.
 */
module BaseClient {
  import opened Results
  import opened PhpValues
  import opened PhpArrays
  import opened RequestSigning

  const ENV_PROD := "prod"
  const ENV_STAGE := "stage"
  const ENV_MOCK := "mock"
  const ENVIRONMENTS := [ENV_PROD, ENV_STAGE, ENV_MOCK]

  const BASE_URL_PROD := "https://marketplace.walmartapis.com"
  const BASE_URL_STAGE := "https://marketplace.stg.walmartapis.com/gmp-gateway-service-app"

  // Configuration keys the constructor reads or writes.
  const MAX_RETRIES := "max_retries"
  const DESCRIPTION_OVERRIDE := "description_override"
  const BASE_URL := "baseUrl"
  const HTTP_CLIENT := "http_client"
  const HTTP_CLIENT_OPTIONS := "http_client_options"
  const HTTP_ERRORS := "http_errors"
  const DESCRIPTION := "description"
  const DESCRIPTION_PATH := "description_path"

  const DEFAULT_MAX_RETRIES := 3

  /** The exceptions construction can raise. */
  datatype Error =
    | InvalidEnvironment
    | MissingCredentials
    | DescriptionNotArray
      /** PHP's Error when `isset` indexes a plain object as an array. */
    | ObjectUsedAsArray

  /** The exception code each error is raised with. */
  function Code(e: Error): int
  {
    match e
    case InvalidEnvironment => 1462566788
    case MissingCredentials => 1466965269
    case DescriptionNotArray => 1470529124
    case ObjectUsedAsArray => 0
  }

  /** The exception message each error carries. The model's objects are
      plain `stdClass` instances. */
  function Message(e: Error): string
  {
    match e
    case InvalidEnvironment => "Invalid environment"
    case MissingCredentials => "Configuration missing consumerId or privateKey"
    case DescriptionNotArray => "Service description file must return an array"
    case ObjectUsedAsArray => "Cannot use object of type stdClass as array"
  }

  /** The HTTP client the command client is built on: either the caller's
      own, or a Guzzle client whose handler stack runs Decorate with the
      constructor's credentials on every request. */
  datatype HttpClient =
    | SuppliedClient(client: Value)
    | SigningClient(consumerId: Value, privateKey: Value, options: seq<Entry>)

  /** The service description: the caller's own, or the array a Guzzle
      Description is built from. */
  datatype Description =
    | SuppliedDescription(description: Value)
    | LoadedDescription(data: seq<Entry>)

  /** A constructed client. */
  datatype Client = Client(
    env: Value,
    consumerId: Value,
    privateKey: Value,
    config: seq<Entry>,
    http: HttpClient,
    description: Description)

  /** `is_readable($path) ? include $path : ...` for a path: None when the
      file is not readable, otherwise the value the included file returns. */
  type FileSystem = string -> Option<Value>

  // ---------------------------------------------------------------------------
  // Environment
  // ---------------------------------------------------------------------------

  /** `in_array($env, [ENV_PROD, ENV_STAGE, ENV_MOCK])`, loosely compared. */
  predicate ValidEnvironment(env: Value)
  {
    LooselyIn(env, ENVIRONMENTS)
  }

  /** Under PHP 8 loose comparison the accepted environments are exactly
      the three names and `true`, which equals every non-empty word. */
  lemma ValidEnvironmentExactly(env: Value)
    ensures ValidEnvironment(env) <==>
      env == Str(ENV_PROD) || env == Str(ENV_STAGE) || env == Str(ENV_MOCK) || env == Bool(true)
  {
    LooseEqualsWordExactly(env, ENV_PROD);
    LooseEqualsWordExactly(env, ENV_STAGE);
    LooseEqualsWordExactly(env, ENV_MOCK);
    if ValidEnvironment(env) {
      var i :| 0 <= i < |ENVIRONMENTS| && LooseEqualsWord(env, ENVIRONMENTS[i]);
      assert ENVIRONMENTS[i] == ENV_PROD || ENVIRONMENTS[i] == ENV_STAGE || ENVIRONMENTS[i] == ENV_MOCK;
    }
    if env == Str(ENV_PROD) || env == Bool(true) {
      assert LooseEqualsWord(env, ENVIRONMENTS[0]);
    } else if env == Str(ENV_STAGE) {
      assert LooseEqualsWord(env, ENVIRONMENTS[1]);
    } else if env == Str(ENV_MOCK) {
      assert LooseEqualsWord(env, ENVIRONMENTS[2]);
    }
  }

  /** `getEnvBaseUrl`: a switch with loose comparison whose `mock` case, like
      a value matching no case, yields null. */
  function EnvBaseUrl(env: Value): (r: Value)
    ensures env == Str(ENV_PROD) || env == Bool(true) ==> r == Str(BASE_URL_PROD)
    ensures env == Str(ENV_STAGE) ==> r == Str(BASE_URL_STAGE)
    ensures env == Str(ENV_MOCK) ==> r == Null
    ensures !ValidEnvironment(env) ==> r == Null
    ensures r == Null || r == Str(BASE_URL_PROD) || r == Str(BASE_URL_STAGE)
  {
    ValidEnvironmentExactly(env);
    LooseEqualsWordExactly(env, ENV_PROD);
    LooseEqualsWordExactly(env, ENV_STAGE);
    LooseEqualsWordExactly(env, ENV_MOCK);
    if LooseEqualsWord(env, ENV_PROD) then Str(BASE_URL_PROD)
    else if LooseEqualsWord(env, ENV_STAGE) then Str(BASE_URL_STAGE)
    else Null
  }

  // ---------------------------------------------------------------------------
  // Configuration defaults
  // ---------------------------------------------------------------------------

  /** `array_merge_recursive($config, ['max_retries' => 3])`. */
  function WithMaxRetries(config: seq<Entry>): seq<Entry>
  {
    ArrayMergeRecursive(config, [Entry(StrKey(MAX_RETRIES), Int(DEFAULT_MAX_RETRIES))])
  }

  /** `array_merge_recursive($config, ['description_override' => ['baseUrl' => $url]])`. */
  function WithBaseUrl(config: seq<Entry>, url: Value): seq<Entry>
  {
    ArrayMergeRecursive(config, [Entry(StrKey(DESCRIPTION_OVERRIDE), Arr([Entry(StrKey(BASE_URL), url)]))])
  }

  /** `isset($config['description_override']['baseUrl'])`: false unless the
      override is an array holding a non-null baseUrl (a string override has
      no such offset); a plain object override makes PHP throw. */
  function IssetBaseUrlOverride(config: seq<Entry>): (r: Result<bool, Error>)
    ensures r.Failure? <==> Lookup(config, StrKey(DESCRIPTION_OVERRIDE)).Some?
                             && Lookup(config, StrKey(DESCRIPTION_OVERRIDE)).value.Obj?
    ensures r.Failure? ==> r.error == ObjectUsedAsArray
    ensures r == Success(true) <==>
      exists o :: Lookup(config, StrKey(DESCRIPTION_OVERRIDE)) == Some(Arr(o)) && Isset(o, StrKey(BASE_URL))
  {
    match Lookup(config, StrKey(DESCRIPTION_OVERRIDE))
    case Some(Arr(o)) => Success(Isset(o, StrKey(BASE_URL)))
    case Some(Obj(_, _)) => Failure(ObjectUsedAsArray)
    case _ => Success(false)
  }

  /** The `isset` test runs on the configuration after the max_retries
      merge, but that merge never touches `description_override`: the test
      decides on the caller's own override, and throws exactly when the
      caller passed a plain object there. */
  lemma IssetSeesCallerOverride(config: seq<Entry>)
    ensures IssetBaseUrlOverride(WithMaxRetries(config)) == IssetBaseUrlOverride(config)
  {
    ArrayMergeRecursiveStrLookup(config, [Entry(StrKey(MAX_RETRIES), Int(DEFAULT_MAX_RETRIES))], DESCRIPTION_OVERRIDE);
  }

  /** The constructor's defaulting of the caller's configuration: add
      `max_retries => 3`, then put the environment's base URL into
      `description_override.baseUrl` unless one is already set. */
  function ApplyDefaults(config: seq<Entry>, env: Value): (r: Result<seq<Entry>, Error>)
    ensures r.Failure? <==> Lookup(config, StrKey(DESCRIPTION_OVERRIDE)).Some?
                             && Lookup(config, StrKey(DESCRIPTION_OVERRIDE)).value.Obj?
    ensures r.Failure? ==> r.error == ObjectUsedAsArray
  {
    var withRetries := WithMaxRetries(config);
    ArrayMergeRecursiveStrLookup(config, [Entry(StrKey(MAX_RETRIES), Int(DEFAULT_MAX_RETRIES))], DESCRIPTION_OVERRIDE);
    match IssetBaseUrlOverride(withRetries)
    case Failure(e) => Failure(e)
    case Success(true) => Success(withRetries)
    case Success(false) => Success(WithBaseUrl(withRetries, EnvBaseUrl(env)))
  }

  /** What the defaults leave under `max_retries`: 3 when the caller gave
      none, otherwise array_merge_recursive's merge of the caller's value
      with 3 (so a caller's 5 becomes the list [5, 3]). */
  lemma DefaultsMaxRetries(config: seq<Entry>, env: Value)
    requires ApplyDefaults(config, env).Success?
    ensures Lookup(ApplyDefaults(config, env).value, StrKey(MAX_RETRIES)) ==
      MergedSlot(Lookup(config, StrKey(MAX_RETRIES)), Some(Int(DEFAULT_MAX_RETRIES)))
    ensures Lookup(config, StrKey(MAX_RETRIES)).None? ==>
      Lookup(ApplyDefaults(config, env).value, StrKey(MAX_RETRIES)) == Some(Int(DEFAULT_MAX_RETRIES))
  {
    var withRetries := WithMaxRetries(config);
    ArrayMergeRecursiveStrLookup(config, [Entry(StrKey(MAX_RETRIES), Int(DEFAULT_MAX_RETRIES))], MAX_RETRIES);
    ArrayMergeRecursiveStrLookup(withRetries,
      [Entry(StrKey(DESCRIPTION_OVERRIDE), Arr([Entry(StrKey(BASE_URL), EnvBaseUrl(env))]))], MAX_RETRIES);
  }

  /** A caller's integer `max_retries` is not replaced by the default: the
      two are collected into a list. */
  lemma DefaultsMaxRetriesCollision(config: seq<Entry>, env: Value, n: int)
    requires ApplyDefaults(config, env).Success?
    requires Lookup(config, StrKey(MAX_RETRIES)) == Some(Int(n))
    ensures Lookup(ApplyDefaults(config, env).value, StrKey(MAX_RETRIES)) ==
      Some(Arr([Entry(IntKey(0), Int(n)), Entry(IntKey(1), Int(DEFAULT_MAX_RETRIES))]))
  {
    DefaultsMaxRetries(config, env);
    MergeValuesScalars(Int(n), Int(DEFAULT_MAX_RETRIES));
  }

  /** Every other string key of the caller's configuration keeps its value. */
  lemma DefaultsKeepOtherKeys(config: seq<Entry>, env: Value, k: string)
    requires ApplyDefaults(config, env).Success?
    requires k != MAX_RETRIES && k != DESCRIPTION_OVERRIDE
    ensures Lookup(ApplyDefaults(config, env).value, StrKey(k)) == Lookup(config, StrKey(k))
  {
    var withRetries := WithMaxRetries(config);
    ArrayMergeRecursiveStrLookup(config, [Entry(StrKey(MAX_RETRIES), Int(DEFAULT_MAX_RETRIES))], k);
    ArrayMergeRecursiveStrLookup(withRetries,
      [Entry(StrKey(DESCRIPTION_OVERRIDE), Arr([Entry(StrKey(BASE_URL), EnvBaseUrl(env))]))], k);
  }

  /** The defaulting step leaves `description_override` as the caller gave
      it when that override already sets a non-null baseUrl. */
  lemma DefaultsKeepBaseUrlOverride(config: seq<Entry>, env: Value)
    requires IssetBaseUrlOverride(config) == Success(true)
    ensures ApplyDefaults(config, env).Success?
    ensures Lookup(ApplyDefaults(config, env).value, StrKey(DESCRIPTION_OVERRIDE))
         == Lookup(config, StrKey(DESCRIPTION_OVERRIDE))
  {
    ArrayMergeRecursiveStrLookup(config, [Entry(StrKey(MAX_RETRIES), Int(DEFAULT_MAX_RETRIES))], DESCRIPTION_OVERRIDE);
  }

  /** Without a usable baseUrl override, the slot receives the environment's
      base URL: `description_override` as given is merged recursively with
      `['baseUrl' => EnvBaseUrl(env)]`. */
  lemma DefaultsBaseUrlSlot(config: seq<Entry>, env: Value)
    requires IssetBaseUrlOverride(config) == Success(false)
    ensures ApplyDefaults(config, env).Success?
    ensures Lookup(ApplyDefaults(config, env).value, StrKey(DESCRIPTION_OVERRIDE)) ==
      MergedSlot(Lookup(config, StrKey(DESCRIPTION_OVERRIDE)), Some(Arr([Entry(StrKey(BASE_URL), EnvBaseUrl(env))])))
  {
    var withRetries := WithMaxRetries(config);
    ArrayMergeRecursiveStrLookup(config, [Entry(StrKey(MAX_RETRIES), Int(DEFAULT_MAX_RETRIES))], DESCRIPTION_OVERRIDE);
    ArrayMergeRecursiveStrLookup(withRetries,
      [Entry(StrKey(DESCRIPTION_OVERRIDE), Arr([Entry(StrKey(BASE_URL), EnvBaseUrl(env))]))], DESCRIPTION_OVERRIDE);
  }

  /** No override at all: the resolved override is exactly
      `['baseUrl' => EnvBaseUrl(env)]`. */
  lemma DefaultsBaseUrlFresh(config: seq<Entry>, env: Value)
    requires Lookup(config, StrKey(DESCRIPTION_OVERRIDE)).None?
    ensures ApplyDefaults(config, env).Success?
    ensures Lookup(ApplyDefaults(config, env).value, StrKey(DESCRIPTION_OVERRIDE)) ==
      Some(Arr([Entry(StrKey(BASE_URL), EnvBaseUrl(env))]))
  {
    DefaultsBaseUrlSlot(config, env);
  }

  /** An array override without a usable baseUrl keeps all its other keys,
      integer keys included and not renumbered, and gains the environment's
      base URL; a baseUrl that was present but null becomes the list
      `[null, url]`, as array_merge_recursive does. */
  lemma DefaultsBaseUrlIntoOverride(config: seq<Entry>, env: Value, o: seq<Entry>, k: Key)
    requires Lookup(config, StrKey(DESCRIPTION_OVERRIDE)) == Some(Arr(o))
    requires !Isset(o, StrKey(BASE_URL))
    ensures ApplyDefaults(config, env).Success?
    ensures Lookup(ApplyDefaults(config, env).value, StrKey(DESCRIPTION_OVERRIDE)).Some?
    ensures Lookup(ApplyDefaults(config, env).value, StrKey(DESCRIPTION_OVERRIDE)).value.Arr?
    ensures
      var o' := Lookup(ApplyDefaults(config, env).value, StrKey(DESCRIPTION_OVERRIDE)).value.entries;
      && (k != StrKey(BASE_URL) ==> Lookup(o', k) == Lookup(o, k))
      && (Lookup(o, StrKey(BASE_URL)).None? ==> Lookup(o', StrKey(BASE_URL)) == Some(EnvBaseUrl(env)))
      && (Lookup(o, StrKey(BASE_URL)) == Some(Null) ==>
            Lookup(o', StrKey(BASE_URL)) == Some(Arr([Entry(IntKey(0), Null), Entry(IntKey(1), EnvBaseUrl(env))])))
  {
    var url := EnvBaseUrl(env);
    DefaultsBaseUrlSlot(config, env);
    var slot := Lookup(ApplyDefaults(config, env).value, StrKey(DESCRIPTION_OVERRIDE));
    assert slot == Some(MergeValues(Arr(o), Arr([Entry(StrKey(BASE_URL), url)])));
    match k {
      case StrKey(s) => MergeValuesArraysStrLookup(o, [Entry(StrKey(BASE_URL), url)], s);
      case IntKey(n) => MergeValuesArraysIntLookup(o, [Entry(StrKey(BASE_URL), url)], n);
    }
    MergeValuesArraysStrLookup(o, [Entry(StrKey(BASE_URL), url)], BASE_URL);
    MergeValuesScalars(Null, url);
  }

  /** With no configuration at all, the defaults are exactly `max_retries`
      3 and an override holding the environment's base URL. */
  lemma DefaultsOfEmptyConfig(env: Value)
    ensures ApplyDefaults([], env) ==
      Success([Entry(StrKey(MAX_RETRIES), Int(DEFAULT_MAX_RETRIES)),
               Entry(StrKey(DESCRIPTION_OVERRIDE), Arr([Entry(StrKey(BASE_URL), EnvBaseUrl(env))]))])
  {
    var retries := [Entry(StrKey(MAX_RETRIES), Int(DEFAULT_MAX_RETRIES))];
    var override := [Entry(StrKey(DESCRIPTION_OVERRIDE), Arr([Entry(StrKey(BASE_URL), EnvBaseUrl(env))]))];
    assert Renumber([]) == [];
    assert KeyIndex([], StrKey(MAX_RETRIES)) == None;
    assert MergeRecStep([], Arr(retries), 0) == retries;
    assert MergeRecInto(retries, Arr(retries), 1) == retries;
    assert MergeRecInto([], Arr(retries), 0) == retries;
    assert WithMaxRetries([]) == retries;
    assert Renumber(retries) == retries;
    assert KeyIndex(retries, StrKey(DESCRIPTION_OVERRIDE)) == None;
    assert MergeRecStep(retries, Arr(override), 0) == retries + override;
    assert MergeRecInto(retries + override, Arr(override), 1) == retries + override;
    assert MergeRecInto(retries, Arr(override), 0) == retries + override;
    assert IssetBaseUrlOverride(retries) == Success(false);
    assert WithBaseUrl(retries, EnvBaseUrl(env)) == retries + override;
    assert ApplyDefaults([], env) == Success(WithBaseUrl(retries, EnvBaseUrl(env)));
    assert retries + override == [retries[0], override[0]];
  }

  /** A scalar or null override is cast to a one-element list, and the base
      URL is added beside it. */
  lemma DefaultsBaseUrlBesideScalar(config: seq<Entry>, env: Value, v: Value)
    requires Lookup(config, StrKey(DESCRIPTION_OVERRIDE)) == Some(v)
    requires !v.Arr? && !v.Obj?
    ensures ApplyDefaults(config, env).Success?
    ensures Lookup(ApplyDefaults(config, env).value, StrKey(DESCRIPTION_OVERRIDE)) ==
      Some(Arr([Entry(IntKey(0), v), Entry(StrKey(BASE_URL), EnvBaseUrl(env))]))
  {
    DefaultsBaseUrlSlot(config, env);
    MergeValuesScalarIntoSingleton(v, BASE_URL, EnvBaseUrl(env));
  }

  /** Whatever the caller passed, a successful defaulting leaves an array
      under `description_override`, so the later array_merge is well typed. */
  lemma DefaultsOverrideIsArray(config: seq<Entry>, env: Value)
    requires ApplyDefaults(config, env).Success?
    ensures Lookup(ApplyDefaults(config, env).value, StrKey(DESCRIPTION_OVERRIDE)).Some?
    ensures Lookup(ApplyDefaults(config, env).value, StrKey(DESCRIPTION_OVERRIDE)).value.Arr?
  {
    match IssetBaseUrlOverride(config)
    case Success(true) =>
      DefaultsKeepBaseUrlOverride(config, env);
    case Success(false) =>
      DefaultsBaseUrlSlot(config, env);
  }

  /** The defaults keep the configuration a well-formed PHP array. */
  lemma DefaultsUnique(config: seq<Entry>, env: Value)
    requires UniqueKeys(config)
    requires ApplyDefaults(config, env).Success?
    ensures UniqueKeys(ApplyDefaults(config, env).value)
  {
    ArrayMergeRecursiveUnique(config, [Entry(StrKey(MAX_RETRIES), Int(DEFAULT_MAX_RETRIES))]);
    ArrayMergeRecursiveUnique(WithMaxRetries(config),
      [Entry(StrKey(DESCRIPTION_OVERRIDE), Arr([Entry(StrKey(BASE_URL), EnvBaseUrl(env))]))]);
  }

  // ---------------------------------------------------------------------------
  // HTTP client
  // ---------------------------------------------------------------------------

  /** The options the Guzzle client is built with: error raising on, plus
      the handler stack that carries the decorator. */
  const GUZZLE_OPTIONS := [Entry(StrKey(HTTP_ERRORS), Bool(true))]

  /** `getHttpClientFromConfig`: a set `http_client` is used as it is;
      otherwise a signing Guzzle client is built. The method reads
      `http_client_options` into a local but never hands it to the client. */
  function HttpClientFromConfig(config: seq<Entry>, consumerId: Value, privateKey: Value): (r: HttpClient)
    ensures Isset(config, StrKey(HTTP_CLIENT)) ==> r == SuppliedClient(Lookup(config, StrKey(HTTP_CLIENT)).value)
    ensures !Isset(config, StrKey(HTTP_CLIENT)) ==>
      r.SigningClient? && r.consumerId == consumerId && r.privateKey == privateKey
      && Lookup(r.options, StrKey(HTTP_ERRORS)) == Some(Bool(true))
  {
    if Isset(config, StrKey(HTTP_CLIENT)) then SuppliedClient(Lookup(config, StrKey(HTTP_CLIENT)).value)
    else SigningClient(consumerId, privateKey, GUZZLE_OPTIONS)
  }

  /** Whatever the caller puts under `http_client_options`, the client chosen
      is the same. */
  lemma HttpClientIgnoresOptions(config: seq<Entry>, consumerId: Value, privateKey: Value, options: Value)
    ensures HttpClientFromConfig(Put(config, StrKey(HTTP_CLIENT_OPTIONS), options), consumerId, privateKey)
         == HttpClientFromConfig(config, consumerId, privateKey)
  {
    PutLookup(config, StrKey(HTTP_CLIENT_OPTIONS), options, StrKey(HTTP_CLIENT));
  }

  /** The request as it leaves this library's part of the handler stack: a
      built client runs the decorator with its credentials; a supplied
      client gets no decorator from this library. */
  function OutgoingRequest(http: HttpClient, req: Request, timestamp: string,
                           correlationId: string, sign: Signer): (r: Request)
    ensures http.SuppliedClient? ==> r == req
    ensures http.SigningClient? ==>
      r == Decorate(req, http.consumerId, http.privateKey, timestamp, correlationId, sign)
  {
    match http
    case SuppliedClient(_) => req
    case SigningClient(consumerId, privateKey, _) =>
      Decorate(req, consumerId, privateKey, timestamp, correlationId, sign)
  }

  // ---------------------------------------------------------------------------
  // Service description
  // ---------------------------------------------------------------------------

  /** `array_merge` needs an array: a set `description_override` must be one.
      After ApplyDefaults it always is (DefaultsOverrideIsArray). */
  predicate OverrideMergeable(config: seq<Entry>)
  {
    Isset(config, StrKey(DESCRIPTION_OVERRIDE)) ==> Lookup(config, StrKey(DESCRIPTION_OVERRIDE)).value.Arr?
  }

  /** The description data: what the file at `description_path` returns when
      it is readable, and the empty array otherwise (including when no string
      path is configured). */
  function LoadedData(config: seq<Entry>, fs: FileSystem): Value
  {
    match Lookup(config, StrKey(DESCRIPTION_PATH))
    case Some(Str(path)) =>
      (match fs(path)
       case Some(v) => v
       case None => Arr([]))
    case _ => Arr([])
  }

  /** `getDescriptionFromConfig`: a set `description` is used as it is and
      nothing is loaded; otherwise the loaded data must be an array, and a
      set override is merged onto it with `array_merge`. */
  function DescriptionFromConfig(config: seq<Entry>, fs: FileSystem): (r: Result<Description, Error>)
    requires OverrideMergeable(config)
    ensures Isset(config, StrKey(DESCRIPTION)) ==>
      r == Success(SuppliedDescription(Lookup(config, StrKey(DESCRIPTION)).value))
    ensures !Isset(config, StrKey(DESCRIPTION)) ==>
      (r.Failure? <==> !LoadedData(config, fs).Arr?)
    ensures !Isset(config, StrKey(DESCRIPTION)) && r.Success? ==> r.value.LoadedDescription?
    ensures r.Failure? ==> r.error == DescriptionNotArray
  {
    if Isset(config, StrKey(DESCRIPTION)) then
      Success(SuppliedDescription(Lookup(config, StrKey(DESCRIPTION)).value))
    else
      var data := LoadedData(config, fs);
      if !data.Arr? then Failure(DescriptionNotArray)
      else if Isset(config, StrKey(DESCRIPTION_OVERRIDE)) then
        Success(LoadedDescription(ArrayMerge(data.entries, Lookup(config, StrKey(DESCRIPTION_OVERRIDE)).value.entries)))
      else Success(LoadedDescription(data.entries))
  }

  /** The loaded description: a key the override sets takes the override's
      value, and every other key of the loaded data is kept. */
  lemma DescriptionOverrideWins(config: seq<Entry>, fs: FileSystem, k: string)
    requires OverrideMergeable(config)
    requires !Isset(config, StrKey(DESCRIPTION))
    requires LoadedData(config, fs).Arr?
    requires Isset(config, StrKey(DESCRIPTION_OVERRIDE)) ==>
      UniqueKeys(Lookup(config, StrKey(DESCRIPTION_OVERRIDE)).value.entries)
    ensures DescriptionFromConfig(config, fs).Success?
    ensures DescriptionFromConfig(config, fs).value.LoadedDescription?
    ensures
      var data := LoadedData(config, fs).entries;
      var merged := DescriptionFromConfig(config, fs).value.data;
      if Isset(config, StrKey(DESCRIPTION_OVERRIDE)) then
        var o := Lookup(config, StrKey(DESCRIPTION_OVERRIDE)).value.entries;
        Lookup(merged, StrKey(k)) == if Lookup(o, StrKey(k)).Some? then Lookup(o, StrKey(k)) else Lookup(data, StrKey(k))
      else
        Lookup(merged, StrKey(k)) == Lookup(data, StrKey(k))
  {
    if Isset(config, StrKey(DESCRIPTION_OVERRIDE)) {
      ArrayMergeStrLookup(LoadedData(config, fs).entries,
                          Lookup(config, StrKey(DESCRIPTION_OVERRIDE)).value.entries, k);
    }
  }

  /** A well-formed loaded array stays well-formed after the override merge. */
  lemma DescriptionUnique(config: seq<Entry>, fs: FileSystem)
    requires OverrideMergeable(config)
    requires !Isset(config, StrKey(DESCRIPTION))
    requires LoadedData(config, fs).Arr? && UniqueKeys(LoadedData(config, fs).entries)
    ensures DescriptionFromConfig(config, fs).Success?
    ensures UniqueKeys(DescriptionFromConfig(config, fs).value.data)
  {
    if Isset(config, StrKey(DESCRIPTION_OVERRIDE)) {
      ArrayMergeUnique(LoadedData(config, fs).entries,
                       Lookup(config, StrKey(DESCRIPTION_OVERRIDE)).value.entries);
    }
  }

  // ---------------------------------------------------------------------------
  // Construction
  // ---------------------------------------------------------------------------

  /** `new BaseClient($consumerId, $privateKey, $config, $env)`: validate the
      environment, then the credentials, apply the defaults, then choose the
      HTTP client and the description. */
  function Construct(consumerId: Value, privateKey: Value, config: seq<Entry>,
                     env: Value, fs: FileSystem): (r: Result<Client, Error>)
    ensures !ValidEnvironment(env) ==> r == Failure(InvalidEnvironment)
    ensures ValidEnvironment(env) && !(Truthy(consumerId) && Truthy(privateKey)) ==>
      r == Failure(MissingCredentials)
    ensures r.Success? ==> ValidEnvironment(env) && Truthy(consumerId) && Truthy(privateKey)
    ensures r.Success? ==>
      && r.value.env == env
      && r.value.consumerId == consumerId
      && r.value.privateKey == privateKey
      && ApplyDefaults(config, env) == Success(r.value.config)
      && OverrideMergeable(r.value.config)
      && r.value.http == HttpClientFromConfig(r.value.config, consumerId, privateKey)
      && DescriptionFromConfig(r.value.config, fs) == Success(r.value.description)
  {
    if !ValidEnvironment(env) then Failure(InvalidEnvironment)
    else if !Truthy(consumerId) || !Truthy(privateKey) then Failure(MissingCredentials)
    else
      match ApplyDefaults(config, env)
      case Failure(e) => Failure(e)
      case Success(resolved) =>
        DefaultsOverrideIsArray(config, env);
        var http := HttpClientFromConfig(resolved, consumerId, privateKey);
        match DescriptionFromConfig(resolved, fs)
        case Failure(e) => Failure(e)
        case Success(description) => Success(Client(env, consumerId, privateKey, resolved, http, description))
  }

  /** The description a default configuration loads: the empty array with
      the override's base URL merged in. */
  lemma DefaultDescription(config: seq<Entry>, override: seq<Entry>, fs: FileSystem)
    requires override == [Entry(StrKey(BASE_URL), Str(BASE_URL_PROD))]
    requires config == [Entry(StrKey(MAX_RETRIES), Int(DEFAULT_MAX_RETRIES)),
                        Entry(StrKey(DESCRIPTION_OVERRIDE), Arr(override))]
    ensures OverrideMergeable(config)
    ensures DescriptionFromConfig(config, fs) == Success(LoadedDescription(override))
  {
    assert MAX_RETRIES[0] != DESCRIPTION_OVERRIDE[0];
    assert KeyIndex(config, StrKey(DESCRIPTION_OVERRIDE)) == Some(1);
    assert Lookup(config, StrKey(DESCRIPTION)) == None;
    assert Lookup(config, StrKey(DESCRIPTION_PATH)) == None;
    assert KeyIndex([], StrKey(BASE_URL)) == None;
    assert Renumber([]) == [];
    assert MergeStep([], override[0]) == override;
    assert override[1..] == [];
    assert MergeInto(override, []) == override;
    assert MergeInto([], override) == MergeInto(MergeStep([], override[0]), override[1..]);
    assert ArrayMerge([], override) == override;
  }

  /** `new BaseClient($consumerId, $privateKey)`: the configuration defaults
      to `[]` and the environment to `prod`. Such a client succeeds exactly
      when both credentials are truthy, signs its own requests, and carries
      the production base URL in both the configuration and the (empty)
      loaded description, whatever the file system holds. */
  function ConstructWithDefaults(consumerId: Value, privateKey: Value, fs: FileSystem): (r: Result<Client, Error>)
    ensures r.Success? <==> Truthy(consumerId) && Truthy(privateKey)
    ensures r.Failure? ==> r.error == MissingCredentials
    ensures r.Success? ==>
      && r.value.env == Str(ENV_PROD)
      && r.value.config == [Entry(StrKey(MAX_RETRIES), Int(DEFAULT_MAX_RETRIES)),
                            Entry(StrKey(DESCRIPTION_OVERRIDE), Arr([Entry(StrKey(BASE_URL), Str(BASE_URL_PROD))]))]
      && r.value.http == SigningClient(consumerId, privateKey, GUZZLE_OPTIONS)
      && r.value.description == LoadedDescription([Entry(StrKey(BASE_URL), Str(BASE_URL_PROD))])
  {
    ValidEnvironmentExactly(Str(ENV_PROD));
    DefaultsOfEmptyConfig(Str(ENV_PROD));
    var override := [Entry(StrKey(BASE_URL), Str(BASE_URL_PROD))];
    var config := [Entry(StrKey(MAX_RETRIES), Int(DEFAULT_MAX_RETRIES)),
                   Entry(StrKey(DESCRIPTION_OVERRIDE), Arr(override))];
    DefaultDescription(config, override, fs);
    assert HttpClientFromConfig(config, consumerId, privateKey) == SigningClient(consumerId, privateKey, GUZZLE_OPTIONS);
    Construct(consumerId, privateKey, [], Str(ENV_PROD), fs)
  }
}
