/**
 * Properties of a whole construction, stated in terms of the caller's own
 * configuration rather than the defaulted one.
 */
module ClientProperties {
  import opened Results
  import opened PhpValues
  import opened PhpArrays
  import opened RequestSigning
  import opened BaseClient

  /** The keys the HTTP client and description choices read pass through
      the defaults untouched. */
  lemma DefaultsKeepChoiceKeys(config: seq<Entry>, env: Value, fs: FileSystem)
    requires ApplyDefaults(config, env).Success?
    ensures var resolved := ApplyDefaults(config, env).value;
      && Lookup(resolved, StrKey(HTTP_CLIENT)) == Lookup(config, StrKey(HTTP_CLIENT))
      && Lookup(resolved, StrKey(DESCRIPTION)) == Lookup(config, StrKey(DESCRIPTION))
      && LoadedData(resolved, fs) == LoadedData(config, fs)
  {
    DefaultsKeepOtherKeys(config, env, HTTP_CLIENT);
    DefaultsKeepOtherKeys(config, env, DESCRIPTION);
    DefaultsKeepOtherKeys(config, env, DESCRIPTION_PATH);
  }

  /** Construction succeeds exactly when the environment is valid, both
      credentials are truthy, the override is not a plain object, and either
      a description is supplied or the loaded description data is an array. */
  lemma ConstructSucceedsIff(consumerId: Value, privateKey: Value, config: seq<Entry>,
                             env: Value, fs: FileSystem)
    ensures Construct(consumerId, privateKey, config, env, fs).Success? <==>
      && ValidEnvironment(env)
      && Truthy(consumerId) && Truthy(privateKey)
      && !(Lookup(config, StrKey(DESCRIPTION_OVERRIDE)).Some? && Lookup(config, StrKey(DESCRIPTION_OVERRIDE)).value.Obj?)
      && (Isset(config, StrKey(DESCRIPTION)) || LoadedData(config, fs).Arr?)
  {
    if ValidEnvironment(env) && Truthy(consumerId) && Truthy(privateKey) && ApplyDefaults(config, env).Success? {
      DefaultsKeepChoiceKeys(config, env, fs);
      DefaultsOverrideIsArray(config, env);
    }
  }

  /** A caller-supplied HTTP client is used as given and this library adds
      no headers to its requests; otherwise every request is decorated with
      the constructor's credentials. */
  lemma ConstructSigningChoice(consumerId: Value, privateKey: Value, config: seq<Entry>,
                               env: Value, fs: FileSystem,
                               req: Request, timestamp: string, correlationId: string, sign: Signer)
    requires Construct(consumerId, privateKey, config, env, fs).Success?
    ensures
      var c := Construct(consumerId, privateKey, config, env, fs).value;
      if Isset(config, StrKey(HTTP_CLIENT)) then
        && c.http == SuppliedClient(Lookup(config, StrKey(HTTP_CLIENT)).value)
        && OutgoingRequest(c.http, req, timestamp, correlationId, sign) == req
      else
        && c.http.SigningClient?
        && Lookup(c.http.options, StrKey(HTTP_ERRORS)) == Some(Bool(true))
        && OutgoingRequest(c.http, req, timestamp, correlationId, sign)
             == Decorate(req, consumerId, privateKey, timestamp, correlationId, sign)
  {
    DefaultsKeepChoiceKeys(config, env, fs);
  }

  /** A supplied description is used as given, and the file system is never
      consulted: any two file systems give the same result. */
  lemma ConstructSuppliedDescription(consumerId: Value, privateKey: Value, config: seq<Entry>,
                                     env: Value, fs: FileSystem, fs': FileSystem)
    requires Isset(config, StrKey(DESCRIPTION))
    ensures Construct(consumerId, privateKey, config, env, fs) == Construct(consumerId, privateKey, config, env, fs')
    ensures Construct(consumerId, privateKey, config, env, fs).Success? ==>
      Construct(consumerId, privateKey, config, env, fs).value.description
        == SuppliedDescription(Lookup(config, StrKey(DESCRIPTION)).value)
  {
    if ValidEnvironment(env) && Truthy(consumerId) && Truthy(privateKey) && ApplyDefaults(config, env).Success? {
      DefaultsKeepChoiceKeys(config, env, fs);
      DefaultsOverrideIsArray(config, env);
    }
  }

  /** An invalid environment is reported even when the credentials are
      missing too: the environment is checked first. */
  lemma EnvironmentCheckedFirst(consumerId: Value, privateKey: Value, config: seq<Entry>,
                                env: Value, fs: FileSystem)
    requires env != Str(ENV_PROD) && env != Str(ENV_STAGE) && env != Str(ENV_MOCK) && env != Bool(true)
    ensures Construct(consumerId, privateKey, config, env, fs) == Failure(InvalidEnvironment)
    ensures Code(Construct(consumerId, privateKey, config, env, fs).error) == 1462566788
    ensures Message(Construct(consumerId, privateKey, config, env, fs).error) == "Invalid environment"
  {
    ValidEnvironmentExactly(env);
  }

  /** With a valid environment (`true` included), a falsy consumer id or private key (null,
      false, 0, "", "0" or an empty array) fails with code 1466965269. */
  lemma CredentialsCheckedSecond(consumerId: Value, privateKey: Value, config: seq<Entry>,
                                 env: Value, fs: FileSystem)
    requires ValidEnvironment(env)
    requires !Truthy(consumerId) || !Truthy(privateKey)
    ensures Construct(consumerId, privateKey, config, env, fs) == Failure(MissingCredentials)
    ensures Code(Construct(consumerId, privateKey, config, env, fs).error) == 1466965269
    ensures Message(Construct(consumerId, privateKey, config, env, fs).error)
         == "Configuration missing consumerId or privateKey"
  {
    ValidEnvironmentExactly(env);
  }

  /** Without a supplied description, loaded data that is not an array
      fails construction with code 1470529124; an unreadable file does not,
      since it loads as the empty array. */
  lemma DescriptionMustBeArray(consumerId: Value, privateKey: Value, config: seq<Entry>,
                               env: Value, fs: FileSystem)
    requires ValidEnvironment(env) && Truthy(consumerId) && Truthy(privateKey)
    requires !(Lookup(config, StrKey(DESCRIPTION_OVERRIDE)).Some? && Lookup(config, StrKey(DESCRIPTION_OVERRIDE)).value.Obj?)
    requires !Isset(config, StrKey(DESCRIPTION))
    ensures Construct(consumerId, privateKey, config, env, fs).Failure? <==> !LoadedData(config, fs).Arr?
    ensures Construct(consumerId, privateKey, config, env, fs).Failure? ==>
      && Code(Construct(consumerId, privateKey, config, env, fs).error) == 1470529124
      && Message(Construct(consumerId, privateKey, config, env, fs).error)
           == "Service description file must return an array"
  {
    DefaultsKeepChoiceKeys(config, env, fs);
    DefaultsOverrideIsArray(config, env);
    var resolved := ApplyDefaults(config, env).value;
    assert !Isset(resolved, StrKey(DESCRIPTION)) && LoadedData(resolved, fs) == LoadedData(config, fs);
    var r := Construct(consumerId, privateKey, config, env, fs);
    if !LoadedData(config, fs).Arr? {
      assert DescriptionFromConfig(resolved, fs) == Failure(DescriptionNotArray);
      assert r == Failure(DescriptionNotArray);
    } else {
      assert DescriptionFromConfig(resolved, fs).Success?;
    }
  }

  /** The base URL that reaches a loaded description: the caller's non-null
      `description_override.baseUrl` when there is one, and otherwise the
      environment's base URL. */
  lemma ConstructDescriptionBaseUrl(consumerId: Value, privateKey: Value, config: seq<Entry>,
                                    env: Value, fs: FileSystem, o: seq<Entry>)
    requires ValidEnvironment(env) && Truthy(consumerId) && Truthy(privateKey)
    requires !Isset(config, StrKey(DESCRIPTION)) && LoadedData(config, fs).Arr?
    requires Lookup(config, StrKey(DESCRIPTION_OVERRIDE)) == Some(Arr(o)) && UniqueKeys(o)
    requires Lookup(o, StrKey(BASE_URL)) != Some(Null)
    ensures Construct(consumerId, privateKey, config, env, fs).Success?
    ensures Construct(consumerId, privateKey, config, env, fs).value.description.LoadedDescription?
    ensures Lookup(Construct(consumerId, privateKey, config, env, fs).value.description.data, StrKey(BASE_URL))
         == if Isset(o, StrKey(BASE_URL)) then Lookup(o, StrKey(BASE_URL)) else Some(EnvBaseUrl(env))
  {
    ConstructSucceedsIff(consumerId, privateKey, config, env, fs);
    var c := Construct(consumerId, privateKey, config, env, fs).value;
    var resolved := c.config;
    DefaultsKeepChoiceKeys(config, env, fs);
    DefaultsOverrideIsArray(config, env);
    var o' := Lookup(resolved, StrKey(DESCRIPTION_OVERRIDE)).value.entries;
    if Isset(o, StrKey(BASE_URL)) {
      DefaultsKeepBaseUrlOverride(config, env);
    } else {
      DefaultsBaseUrlIntoOverride(config, env, o, StrKey(BASE_URL));
      DefaultsBaseUrlSlot(config, env);
      MergeRecIntoUnique(o, Arr([Entry(StrKey(BASE_URL), EnvBaseUrl(env))]), 0);
    }
    assert UniqueKeys(o');
    DescriptionOverrideWins(resolved, fs, BASE_URL);
  }
}
