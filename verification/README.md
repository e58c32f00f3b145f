# Walmart marketplace client construction, modelled in Dafny

This project models how `Walmart\BaseClient` resolves its configuration when it is constructed.
The constructor does five things:

- It validates the environment and the credentials.
- It merges the defaults into the caller's configuration.
- It maps the environment to a base URL.
- It chooses the HTTP client. A client it builds itself signs every request through a `mapRequest` decorator.
- It loads the service description, with the caller's override merged onto it.

Everything is written as pure functions over a small PHP value type. Lemmas relate these functions to each other.

Modules:

- `Results`: `Option` and `Result`.
- `PhpValues`: PHP values as the configuration sees them: null, booleans, integers, strings, ordered arrays with integer or string keys, and plain objects. The module also defines PHP truthiness, PHP 8 loose comparison against a word, key lookup and `isset`.
- `PhpArrays`: `array_merge` and `array_merge_recursive` as the Zend engine implements them:
  - The first argument is copied, with its integer keys renumbered.
  - In `array_merge`, a string key overwrites in place and an integer key is appended.
  - In `array_merge_recursive`, when a string key collides, the existing value is cast to an array (`null` becomes `[null]`). An array source is then merged into it recursively, and a scalar source is appended.
- `RequestSigning`: the `mapRequest` closure. It sets seven headers with PSR-7 `withHeader` semantics: header names compare case-insensitively, and the old header is dropped before the new one is appended.
- `BaseClient`: the constants, `getEnvBaseUrl`, the defaulting, `getHttpClientFromConfig`, `getDescriptionFromConfig` and the constructor (`Construct`).
- `ClientProperties`: properties of a whole construction, stated in terms of the caller's own configuration.

Things the code does that a reader might not expect, all modelled as written:

- A caller's `max_retries` is not replaced by the default. `array_merge_recursive` collects both values, so `5` becomes the list `[5, 3]`.
- A `description_override.baseUrl` that is present but null becomes `[null, $url]`.
- A string or other scalar override becomes `[$scalar, 'baseUrl' => $url]`.
- The description override is merged shallowly with `array_merge`, so override keys replace whole top-level keys.
- An unreadable description file yields `[]`, not an error. Only a loaded value that is not an array raises 1470529124.
- `http_client_options` is read into a local variable but never passed to the Guzzle client. `HttpClientIgnoresOptions` states this.
- `in_array` and `switch` compare loosely. Under PHP 8, `true` is accepted as an environment and resolves to the production URL.

## Model

The functions `IssetBaseUrlOverride`, `HttpClientFromConfig`, `OutgoingRequest`, `DescriptionFromConfig` and `Construct` transcribe the corresponding steps of `src/BaseClient.php`. The rows below name the lemmas that state what those steps promise a caller: `IssetSeesCallerOverride`, `HttpClientIgnoresOptions`, `ConstructSigningChoice`, `ConstructSuppliedDescription`, `DescriptionMustBeArray`, `DescriptionOverrideWins`, `ConstructSucceedsIff` and the two ordering lemmas.

| member | source | states |
|---|---|---|
| PhpValues.LooseEqualsWordExactly | src/BaseClient.php:53 | a value loosely equals a non-numeric word exactly when it is that string or `true` |
| PhpArrays.ArrayMergeStrLookup | src/BaseClient.php:166 | after `array_merge($a, $b)`, a string key of `$b` holds `$b`'s value, and any other string key holds `$a`'s |
| PhpArrays.ArrayMergeUnique | src/BaseClient.php:166 | the result of `array_merge` again has no duplicate key |
| PhpArrays.ArrayMergeRecursiveStrLookup | src/BaseClient.php:68-70 | after `array_merge_recursive`, a string key only one side has keeps that side's value; a key both sides have holds the two values merged |
| PhpArrays.ArrayMergeRecursiveUnique | src/BaseClient.php:68-70 | the result of `array_merge_recursive` has no duplicate key |
| PhpArrays.MergeValuesScalars | src/BaseClient.php:68-70 | two colliding scalars, null included, become the list `[dest, src]` |
| PhpArrays.MergeValuesArraysStrLookup | src/BaseClient.php:74-78 | two colliding arrays are merged key by key under the same law, one level down |
| PhpArrays.MergeValuesArraysIntLookup | src/BaseClient.php:74-78 | the nested merge does not renumber: merging a string-keyed array into an array keeps every integer key of the destination in place with its value |
| PhpArrays.MergeValuesScalarIntoSingleton | src/BaseClient.php:74-78 | a scalar or null destination under a one-entry string-keyed source `[k => v]` becomes `[0 => dest, k => v]` |
| RequestSigning.Decorate | src/BaseClient.php:125-141 | decoration leaves the method and URL unchanged |
| RequestSigning.DecorateHeaderList | src/BaseClient.php:135-141 | the decorated headers are the original headers minus the seven names, followed by exactly the seven headers in order |
| RequestSigning.DecorateSetsHeaders | src/BaseClient.php:126-141 | each of the seven headers reads back its value; the signature covers this request's URL and method with the same timestamp sent in WM_SEC.TIMESTAMP; all other headers are untouched |
| RequestSigning.DecorateIdempotent | src/BaseClient.php:135-141 | decorating twice with the same inputs equals decorating once |
| BaseClient.ValidEnvironmentExactly | src/BaseClient.php:53-55 | the accepted environments are exactly `prod`, `stage`, `mock` and `true` |
| BaseClient.EnvBaseUrl | src/BaseClient.php:100-110 | `prod` (and `true`) give the production URL; `stage` gives the staging URL; `mock` and anything invalid give null |
| BaseClient.IssetSeesCallerOverride | src/BaseClient.php:67-73 | the `isset` test runs after the max_retries merge yet gives the same outcome as on the caller's own configuration: true exactly for an array override with a non-null baseUrl, a throw exactly for an object override |
| BaseClient.ApplyDefaults | src/BaseClient.php:67-79 | defaulting fails exactly when `description_override` is a plain object |
| BaseClient.DefaultsMaxRetries | src/BaseClient.php:68-70 | `max_retries` is 3 when the caller gave none; otherwise it is the caller's value merged with 3 |
| BaseClient.DefaultsMaxRetriesCollision | src/BaseClient.php:68-70 | a caller's integer `n` becomes the list `[n, 3]` |
| BaseClient.DefaultsKeepOtherKeys | src/BaseClient.php:67-79 | every other string key of the caller's configuration keeps its value |
| BaseClient.DefaultsKeepBaseUrlOverride | src/BaseClient.php:72-79 | a set, non-null `description_override.baseUrl` leaves the caller's override untouched |
| BaseClient.DefaultsBaseUrlSlot | src/BaseClient.php:72-79 | otherwise the override slot is the caller's override merged recursively with `['baseUrl' => EnvBaseUrl(env)]` |
| BaseClient.DefaultsBaseUrlFresh | src/BaseClient.php:73-79 | with no override at all, the slot becomes exactly `['baseUrl' => EnvBaseUrl(env)]` |
| BaseClient.DefaultsBaseUrlIntoOverride | src/BaseClient.php:73-79 | an array override keeps every other key, integer keys in place and not renumbered, and gains the environment's URL; a null baseUrl becomes `[null, url]` |
| BaseClient.DefaultsBaseUrlBesideScalar | src/BaseClient.php:73-79 | a scalar or null override becomes `[v, 'baseUrl' => url]` |
| BaseClient.DefaultsOverrideIsArray | src/BaseClient.php:73-79 | after a successful defaulting, `description_override` is always an array |
| BaseClient.DefaultsOfEmptyConfig | src/BaseClient.php:67-79 | an empty configuration defaults to exactly `['max_retries' => 3, 'description_override' => ['baseUrl' => EnvBaseUrl(env)]]` |
| BaseClient.DefaultsUnique | src/BaseClient.php:67-79 | the defaulted configuration has no duplicate key |
| BaseClient.HttpClientIgnoresOptions | src/BaseClient.php:119-145 | the client chosen does not depend on `http_client_options` |
| BaseClient.DescriptionOverrideWins | src/BaseClient.php:164-168 | in the loaded description, a string key the override sets takes the override's value and every other string key of the loaded data is kept |
| BaseClient.DescriptionUnique | src/BaseClient.php:164-168 | the merged description has no duplicate key |
| BaseClient.ConstructWithDefaults | src/BaseClient.php:45-93 | with the default arguments (no configuration, environment `prod`), construction succeeds exactly when both credentials are truthy; the client signs its own requests, and its configuration and loaded description hold exactly the production base URL, whatever the file system holds |
| ClientProperties.ConstructSucceedsIff | src/BaseClient.php:45-93 | construction succeeds exactly when the environment is valid, both credentials are truthy, the override is not an object, and a description is given or the loaded data is an array |
| ClientProperties.ConstructSigningChoice | src/BaseClient.php:112-146 | with a caller's `http_client`, that client is used as given and requests pass this library unchanged; otherwise a client with `http_errors` on is built, and each of its requests is decorated with the constructor's credentials |
| ClientProperties.ConstructSuppliedDescription | src/BaseClient.php:150-153 | a caller's `description` is used as given, and the result does not depend on the file system |
| ClientProperties.EnvironmentCheckedFirst | src/BaseClient.php:53-62 | an environment outside the accepted ones fails with code 1462566788 and message "Invalid environment", even when the credentials are missing too |
| ClientProperties.CredentialsCheckedSecond | src/BaseClient.php:53-62 | with any valid environment, `true` included, a falsy consumer id or private key fails with code 1466965269 and its message |
| ClientProperties.DescriptionMustBeArray | src/BaseClient.php:155-162 | without a supplied description, construction fails with code 1470529124 and its message exactly when the loaded data is not an array |
| ClientProperties.ConstructDescriptionBaseUrl | src/BaseClient.php:73-79 | for a valid client with an array override, construction succeeds and the loaded description's baseUrl is the caller's non-null override, or else the environment's URL |

## Left out

- Guzzle wiring is not modelled: `HandlerStack::create`, `new Client`, the `GuzzleClient` parent constructor and `setConfig('defaults/ApiVersion', ...)`. Their behaviour lives in libraries outside this code. A built client is represented by its credentials and its `http_errors` option.
- `Signature::calculateSignature` is RSA-SHA256 in a file that is not part of this model. It is a function parameter (`Signer`).
- `Utils::getMilliseconds`, `Random::string(16)` and `base64_encode` are left out because they are clock and randomness. The timestamp text and the correlation id are parameters.
- `is_readable` and `include` of the description file touch the file system and run code. They are a parameter mapping a path to what the file returns. A `description_path` that is missing or not a string is treated as unreadable; PHP would coerce or reject it.
- Guzzle's normalisation of header values (string cast, trimming, arrays of values) is left out. A header holds the value given to `withHeader`.
- Floats, resources, objects implementing `ArrayAccess` and objects with `__toString` are not value kinds of the model.
- Loose comparison follows PHP 8. Under PHP 7, `0 == 'prod'` would also make the integer 0 a valid environment.
- The next integer index is one past the largest integer key, or 0. This matches arrays built without `unset`, and negative keys follow the PHP 8.0–8.2 rule.
- Integer overflow of the next index is not modelled, because the model's integers are unbounded.
- `array_merge_recursive`'s "Recursion detected" error is not modelled, because model values are finite trees.
- PhpArrays.ArrayMergeStrLookup: states string keys only. Integer keys of the second array are appended under fresh indices, which `MergeStep` and `Append` define but no lemma restates.
- PhpArrays.ArrayMergeRecursiveStrLookup: states string keys only, for the same reason.
- BaseClient.DefaultsKeepOtherKeys: states string keys only. Integer keys of the caller's configuration are renumbered from 0, as `RenumberFrom` states.
- PhpArrays.MergeValuesScalarIntoSingleton: states only a one-entry string-keyed source, the shape the base-URL default merges in. A longer source is merged by the general `MergeRecInto`, and no lemma restates it.
- BaseClient.DescriptionOverrideWins: states string keys only. `array_merge` renumbers the loaded data's integer keys from 0 and appends the override's integer-keyed values after them. `ArrayMerge` defines this, and no lemma restates it.
- ClientProperties.ConstructSucceedsIff: success means the configuration passes this file's own checks. The parent `GuzzleClient` constructor is left out. In PHP it still throws a TypeError for an `http_client` that is not a client or a `description` that is not a description, and `Description` validates the loaded data itself.
- ClientProperties.ConstructDescriptionBaseUrl: excludes a baseUrl that is present but null. That case is stated by `DefaultsBaseUrlIntoOverride`.
