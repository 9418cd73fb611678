/**
 * `PhotoServiceFactory` (PhotoServiceFactory.ts): picks a primary and a
 * fallback photo service from its configuration and runs every request
 * against the primary first, then against the fallback, remembering which
 * service answered.
 *
 * The services themselves are not modelled here: an operation is a function
 * from the kind of service to the outcome of running it there (a value, or the
 * error it throws), so `async`/`await` and `try`/`catch` become plain values.
 */
module Factory {
  import opened Wrappers
  import opened Seqs
  import opened PhotoService
  import MockService

  datatype ServiceKind = Google | Mock

  /** The `name` field of each service class. */
  function ServiceName(s: ServiceKind): string {
    match s
    case Google => "GooglePhotosService"
    case Mock => MockService.NAME
  }

  const FALLBACK_SUFFIX: string := " (fallback)"
  const NO_SERVICES: string := "No available services for "

  datatype LogLevel = Debug | Info | Warn | Error

  /** `{ debug: 0, info: 1, warn: 2, error: 3 }` */
  function Rank(level: LogLevel): nat {
    match level
    case Debug => 0
    case Info => 1
    case Warn => 2
    case Error => 3
  }

  /** `log` prints a message exactly when its level ranks at or above the configured one. */
  predicate Emits(level: LogLevel, configured: LogLevel) {
    Rank(level) >= Rank(configured)
  }

  /**
   * The level filter is a threshold: errors always print, debug messages
   * only under `debug`, and whatever prints at one level prints at every
   * higher one and under every lower configuration.
   */
  lemma EmitsIsThreshold(level: LogLevel, higher: LogLevel, configured: LogLevel, lower: LogLevel)
    ensures Emits(Error, configured) && Emits(configured, configured)
    ensures Emits(Debug, configured) <==> configured == Debug
    ensures Emits(level, configured) && Rank(level) <= Rank(higher) ==> Emits(higher, configured)
    ensures Emits(level, configured) && Rank(lower) <= Rank(configured) ==> Emits(level, lower)
    ensures Rank(level) == Rank(higher) ==> level == higher
  {
  }

  /** The `googlePhotos` block of the configuration; only its presence affects the choice of services. */
  datatype GoogleConfig = GoogleConfig(clientId: string, clientSecret: string, refreshToken: string, albumIds: map<string, string>)

  /** `PhotoServiceFactoryConfig` */
  datatype FactoryConfig = FactoryConfig(
    primaryService: ServiceKind,
    enableFallback: bool,
    googlePhotos: Option<GoogleConfig>,
    logLevel: LogLevel)

  /** The two service slots (`null` is `None`). */
  datatype Selection = Selection(primary: Option<ServiceKind>, fallback: Option<ServiceKind>)

  /**
   * The choice `initializeServices` makes. Google is the primary exactly when
   * it is asked for and configured; the fallback is the other service, present
   * only with fallback enabled (and, for Google, only when configured).
   */
  function Select(config: FactoryConfig): (s: Selection)
    ensures s.primary.Some?
    ensures s.primary == Some(Google) <==> config.primaryService == Google && config.googlePhotos.Some?
    ensures s.fallback.Some? ==> config.enableFallback && s.fallback.value != s.primary.value
    ensures Some(Google) in {s.primary, s.fallback} ==> config.googlePhotos.Some?
    ensures config.enableFallback && config.googlePhotos.Some? <==> s.primary.Some? && s.fallback.Some?
    ensures Some(Mock) in {s.primary, s.fallback}  <==> s.primary == Some(Mock) || config.enableFallback
  {
    if config.primaryService == Google && config.googlePhotos.Some? then
      Selection(Some(Google), if config.enableFallback then Some(Mock) else None)
    else
      Selection(Some(Mock), if config.enableFallback && config.googlePhotos.Some? then Some(Google) else None)
  }

  /** The outcome of running an operation on one service: its value, or the message of the error it throws. */
  datatype Outcome<T> = Success(value: T) | Failure(error: string)

  /** What `executeWithFallback` returns or throws, with the `lastServiceUsed` it leaves behind. */
  datatype Attempt<T> = Attempt(outcome: Outcome<T>, lastServiceUsed: string)

  /** Whether the fallback is tried after the primary: no primary at all, or a failed primary with fallback enabled. */
  predicate TriesFallback<T>(sel: Selection, enableFallback: bool, operation: ServiceKind -> Outcome<T>) {
    sel.fallback.Some? && (sel.primary.None? || (operation(sel.primary.value).Failure? && enableFallback))
  }

  /**
   * `executeWithFallback` on a given selection. The answer is the primary's
   * when it succeeds (and then the fallback is never run); otherwise the
   * fallback's, if the fallback is tried; otherwise the primary's error, or
   * "No available services for <operation>" when there is no service at all.
   * `lastServiceUsed` changes only on success, to the name of the service
   * that answered, marked " (fallback)" for the fallback.
   */
  function Dispatch<T>(sel: Selection, enableFallback: bool, operation: ServiceKind -> Outcome<T>, operationName: string, lastUsed: string): (r: Attempt<T>)
    ensures sel.primary.Some? && operation(sel.primary.value).Success? ==>
      r == Attempt(operation(sel.primary.value), ServiceName(sel.primary.value))
    ensures TriesFallback(sel, enableFallback, operation) ==>
      r.outcome == operation(sel.fallback.value)
      && r.lastServiceUsed == (if r.outcome.Success? then ServiceName(sel.fallback.value) + FALLBACK_SUFFIX else lastUsed)
    ensures sel.primary.Some? && operation(sel.primary.value).Failure? && !TriesFallback(sel, enableFallback, operation) ==>
      r == Attempt(operation(sel.primary.value), lastUsed)
    ensures sel.primary.None? && sel.fallback.None? ==> r == Attempt(Failure(NO_SERVICES + operationName), lastUsed)
    ensures r.outcome.Failure? ==> r.lastServiceUsed == lastUsed
  {
    if sel.primary.Some? && operation(sel.primary.value).Success? then
      Attempt(operation(sel.primary.value), ServiceName(sel.primary.value))
    else if sel.primary.Some? && (!enableFallback || sel.fallback.None?) then
      Attempt(operation(sel.primary.value), lastUsed)
    else if sel.fallback.Some? then
      var outcome := operation(sel.fallback.value);
      Attempt(outcome, if outcome.Success? then ServiceName(sel.fallback.value) + FALLBACK_SUFFIX else lastUsed)
    else
      Attempt(Failure(NO_SERVICES + operationName), lastUsed)
  }

  /**
   * Once the services are initialised there is always a primary, so the
   * factory never reports "no available services": every answer is one the
   * primary or the fallback gave, and the request succeeds exactly when the
   * primary does or the fallback is tried and does.
   */
  lemma {:induction false} SelectedDispatch<T>(config: FactoryConfig, operation: ServiceKind -> Outcome<T>, operationName: string, lastUsed: string)
    ensures var sel := Select(config);
      var r := Dispatch(sel, config.enableFallback, operation, operationName, lastUsed);
      && (r.outcome == operation(sel.primary.value) || (sel.fallback.Some? && r.outcome == operation(sel.fallback.value)))
      && (r.outcome.Success? <==> operation(sel.primary.value).Success? || (sel.fallback.Some? && operation(sel.fallback.value).Success?))
  {
    var sel := Select(config);
    if operation(sel.primary.value).Failure? && sel.fallback.Some? {
      assert TriesFallback(sel, config.enableFallback, operation);
    }
  }

  /** The fallback is consulted only after the primary fails: operations that agree on a successful primary give the same answer. */
  lemma FallbackUnusedOnSuccess<T>(sel: Selection, enableFallback: bool, op1: ServiceKind -> Outcome<T>, op2: ServiceKind -> Outcome<T>, operationName: string, lastUsed: string)
    requires sel.primary.Some? && op1(sel.primary.value).Success? && op1(sel.primary.value) == op2(sel.primary.value)
    ensures Dispatch(sel, enableFallback, op1, operationName, lastUsed) == Dispatch(sel, enableFallback, op2, operationName, lastUsed)
  {
  }

  /**
   * `searchPhotos`' client-side fallback for a service without a search of
   * its own: all photos, filtered by the search predicate in their order, with
   * `searchQuery` and `searchMethod` added to the metadata; everything else
   * (including the unfiltered `totalCount`) is copied.
   */
  function ClientSideSearch(all: Response, query: string): (r: Response)
    requires all.data.PhotoList?
    ensures r.data == PhotoList(SearchFilter(all.data.photos, query))
    ensures r.config.service == all.config.service && r.config.totalCount == all.config.totalCount
    ensures r.config.metadata.Some?
    ensures var m := r.config.metadata.value;
      && "searchQuery" in m && m["searchQuery"] == MetaValue.Text(query)
      && "searchMethod" in m && m["searchMethod"] == MetaValue.Text("client-side-filter")
      && (all.config.metadata.Some? ==> forall k :: k in all.config.metadata.value && k != "searchQuery" && k != "searchMethod" ==> k in m && m[k] == all.config.metadata.value[k])
      && (forall k :: k in m ==> k == "searchQuery" || k == "searchMethod" || (all.config.metadata.Some? && k in all.config.metadata.value))
  {
    var added := map["searchQuery" := MetaValue.Text(query), "searchMethod" := MetaValue.Text("client-side-filter")];
    Response(PhotoList(SearchFilter(all.data.photos, query)),
      ResponseConfig(all.config.service, all.config.totalCount, Some(all.config.metadata.GetOr(map[]) + added)))
  }

  /**
   * The operation `searchPhotos` hands to `executeWithFallback`: a service's
   * own search when it has one (`nativeSearch` is `None` for a service without
   * `searchPhotos`), otherwise its `getAllPhotos` filtered on the client.
   * A failing `getAllPhotos` fails the search; data that is not a list makes
   * the `filter` call throw.
   */
  function SearchOperation(query: string, nativeSearch: ServiceKind -> Option<Outcome<Response>>, getAll: ServiceKind -> Outcome<Response>): ServiceKind -> Outcome<Response> {
    (s: ServiceKind) =>
      match nativeSearch(s)
      case Some(outcome) => outcome
      case None =>
        match getAll(s)
        case Failure(e) => Failure(e)
        case Success(all) =>
          if all.data.PhotoList? then Success(ClientSideSearch(all, query))
          else Failure("TypeError: allPhotos.data.filter is not a function")
  }

  /** On the mock's catalogue, the client-side fallback finds exactly the photos the mock's own search finds. */
  lemma ClientSideSearchAgreesWithMock(service: MockService.MockPhotosService, query: string, generatedAt: string, t1: string, t2: string)
    ensures ClientSideSearch(service.GetAllPhotos(generatedAt, t1), query).data == service.SearchPhotos(query, t2).data
  {
  }

  /** A client-side search of a client-side search result with the same query changes nothing. */
  lemma ClientSideSearchIdempotent(all: Response, query: string)
    requires all.data.PhotoList?
    ensures ClientSideSearch(ClientSideSearch(all, query), query) == ClientSideSearch(all, query)
  {
    var once := ClientSideSearch(all, query);
    FilterIdempotent(all.data.photos, Matching(query));
    assert once.config.metadata.value + map["searchQuery" := MetaValue.Text(query), "searchMethod" := MetaValue.Text("client-side-filter")] == once.config.metadata.value;
  }

  class PhotoServiceFactory {
    var config: FactoryConfig
    var primaryService: Option<ServiceKind>
    var fallbackService: Option<ServiceKind>
    var lastServiceUsed: string

    /** The constructor stores the configuration and initialises the services. */
    constructor(config: FactoryConfig)
      ensures this.config == config
      ensures Selection(primaryService, fallbackService) == Select(config)
      ensures lastServiceUsed == ""
    {
      this.config := config;
      primaryService := None;
      fallbackService := None;
      lastServiceUsed := "";
      new;
      InitializeServices();
    }

    /** `initializeServices`: fills both slots from the current configuration. */
    method InitializeServices()
      modifies this
      ensures config == old(config) && lastServiceUsed == old(lastServiceUsed)
      ensures Selection(primaryService, fallbackService) == Select(config)
    {
      if config.primaryService == Google && config.googlePhotos.Some? {
        primaryService := Some(Google);
        fallbackService := if config.enableFallback then Some(Mock) else None;
      } else {
        primaryService := Some(Mock);
        fallbackService := if config.enableFallback && config.googlePhotos.Some? then Some(Google) else None;
      }
    }

    /** `switchPrimaryService`: records the requested service and chooses the services again. */
    method SwitchPrimaryService(serviceName: ServiceKind)
      modifies this
      ensures config == old(config).(primaryService := serviceName)
      ensures Selection(primaryService, fallbackService) == Select(config)
      ensures lastServiceUsed == old(lastServiceUsed)
    {
      config := config.(primaryService := serviceName);
      InitializeServices();
    }

    /** `executeWithFallback`: the primary first, then the fallback, as `Dispatch` describes; only `lastServiceUsed` changes. */
    method ExecuteWithFallback<T>(operation: ServiceKind -> Outcome<T>, operationName: string) returns (result: Outcome<T>)
      modifies this
      ensures config == old(config) && primaryService == old(primaryService) && fallbackService == old(fallbackService)
      ensures Attempt(result, lastServiceUsed)
        == Dispatch(Selection(primaryService, fallbackService), config.enableFallback, operation, operationName, old(lastServiceUsed))
    {
      if primaryService.Some? {
        result := operation(primaryService.value);
        if result.Success? {
          lastServiceUsed := ServiceName(primaryService.value);
          return;
        }
        if !config.enableFallback || fallbackService.None? {
          return;
        }
      }
      if fallbackService.Some? {
        result := operation(fallbackService.value);
        if result.Success? {
          lastServiceUsed := ServiceName(fallbackService.value) + FALLBACK_SUFFIX;
        }
        return;
      }
      result := Failure(NO_SERVICES + operationName);
    }

    /** `searchPhotos`: the search operation run with fallback. */
    method SearchPhotos(query: string, nativeSearch: ServiceKind -> Option<Outcome<Response>>, getAll: ServiceKind -> Outcome<Response>) returns (result: Outcome<Response>)
      modifies this
      ensures config == old(config) && primaryService == old(primaryService) && fallbackService == old(fallbackService)
      ensures Attempt(result, lastServiceUsed)
        == Dispatch(Selection(primaryService, fallbackService), config.enableFallback, SearchOperation(query, nativeSearch, getAll), "searchPhotos", old(lastServiceUsed))
    {
      result := ExecuteWithFallback(SearchOperation(query, nativeSearch, getAll), "searchPhotos");
    }
  }

  /** The environment variables `createPhotoServiceFactory` reads; an unset variable is absent from the map. */
  type Environment = map<string, string>

  /** `process.env[name] || fallback`: an unset or empty variable gives `fallback`. */
  function EnvOr(env: Environment, name: string, fallback: string): (r: string)
    ensures name in env && env[name] != "" ==> r == env[name]
    ensures name !in env || env[name] == "" ==> r == fallback
  {
    if name in env && env[name] != "" then env[name] else fallback
  }

  /** The album id variable of each category. */
  const ALBUM_VARIABLES: map<string, string> := map[
    "portraits" := "PORTRAITS_ALBUM_ID", "landscape" := "LANDSCAPE_ALBUM_ID", "architecture" := "ARCHITECTURE_ALBUM_ID",
    "abstract" := "ABSTRACT_ALBUM_ID", "wildlife" := "WILDLIFE_ALBUM_ID"]

  /** The configuration `createPhotoServiceFactory` builds from the environment. */
  function EnvironmentConfig(env: Environment): (config: FactoryConfig)
    ensures config.primaryService == Mock <==> "USE_MOCK_DATA" !in env || env["USE_MOCK_DATA"] != "false"
    ensures config.enableFallback && config.googlePhotos.Some?
    ensures config.logLevel == Debug <==> "NODE_ENV" in env && env["NODE_ENV"] == "development"
    ensures config.logLevel in {Debug, Info}
    ensures var g := config.googlePhotos.value;
      && g.clientId == (if "GOOGLE_CLIENT_ID" in env then env["GOOGLE_CLIENT_ID"] else "")
      && g.clientSecret == (if "GOOGLE_CLIENT_SECRET" in env then env["GOOGLE_CLIENT_SECRET"] else "")
      && g.refreshToken == (if "GOOGLE_REFRESH_TOKEN" in env then env["GOOGLE_REFRESH_TOKEN"] else "")
    ensures forall c :: c in config.googlePhotos.value.albumIds <==> c in ALBUM_VARIABLES && ALBUM_VARIABLES[c] in env
    ensures forall c :: c in config.googlePhotos.value.albumIds ==> config.googlePhotos.value.albumIds[c] == env[ALBUM_VARIABLES[c]]
  {
    var albumIds := map c | c in ALBUM_VARIABLES && ALBUM_VARIABLES[c] in env :: env[ALBUM_VARIABLES[c]];
    FactoryConfig(
      if "USE_MOCK_DATA" in env && env["USE_MOCK_DATA"] == "false" then Google else Mock,
      true,
      Some(GoogleConfig(EnvOr(env, "GOOGLE_CLIENT_ID", ""), EnvOr(env, "GOOGLE_CLIENT_SECRET", ""), EnvOr(env, "GOOGLE_REFRESH_TOKEN", ""), albumIds)),
      if "NODE_ENV" in env && env["NODE_ENV"] == "development" then Debug else Info)
  }

  /**
   * A factory configured from the environment always has both services:
   * Google and the mock, with the mock as the primary unless
   * `USE_MOCK_DATA` is `false`. Empty Google credentials still count as a
   * Google configuration.
   */
  lemma EnvironmentFactoryHasFallback(env: Environment)
    ensures var sel := Select(EnvironmentConfig(env));
      && sel.primary.Some? && sel.fallback.Some? && sel.primary.value != sel.fallback.value
      && (sel.primary == Some(Mock) <==> "USE_MOCK_DATA" !in env || env["USE_MOCK_DATA"] != "false")
  {
  }

  /** `createPhotoServiceFactory` */
  method CreatePhotoServiceFactory(env: Environment) returns (factory: PhotoServiceFactory)
    ensures fresh(factory)
    ensures factory.config == EnvironmentConfig(env)
    ensures Selection(factory.primaryService, factory.fallbackService) == Select(EnvironmentConfig(env))
    ensures factory.lastServiceUsed == ""
  {
    factory := new PhotoServiceFactory(EnvironmentConfig(env));
  }
}
