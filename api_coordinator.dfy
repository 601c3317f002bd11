/**
 * The coordinator backed by the moq-api HTTP registry.  The registry's
 * origins are the object's state, keyed by namespace path; whether an HTTP
 * request fails is an input.  The refresh timer and the registry's own
 * expiry are not part of this model.
 */
module ApiCoordinators {
  import opened Wrappers
  import opened Text
  import opened TrackNamespaces
  import opened Coordinators

  /** Rust's `u64`. */
  type U64 = x: int | 0 <= x < 0x1_0000_0000_0000_0000

  /** `DEFAULT_REGISTRATION_TTL_SECS`: the registry keeps an origin for 600 seconds. */
  const DefaultRegistrationTtlSecs: U64 := 600

  /** `ApiCoordinatorConfig`. */
  datatype ApiCoordinatorConfig = ApiCoordinatorConfig(
    apiUrl: Url, relayUrl: Url, registrationTtlSecs: U64, refreshIntervalSecs: U64)
  {
    /** `with_ttl`: the given TTL, refreshed at half of it (rounded down); the URLs are kept. */
    function WithTtl(ttlSecs: U64): (r: ApiCoordinatorConfig)
      ensures r.apiUrl == apiUrl && r.relayUrl == relayUrl
      ensures r.registrationTtlSecs == ttlSecs
      ensures 2 * r.refreshIntervalSecs <= ttlSecs < 2 * r.refreshIntervalSecs + 2
    {
      this.(registrationTtlSecs := ttlSecs, refreshIntervalSecs := ttlSecs / 2)
    }
  }

  /** `ApiCoordinatorConfig::new`: a 600-second TTL refreshed every 300 seconds. */
  function NewConfig(apiUrl: Url, relayUrl: Url): (r: ApiCoordinatorConfig)
    ensures r.apiUrl == apiUrl && r.relayUrl == relayUrl
    ensures r.registrationTtlSecs == 600 && r.refreshIntervalSecs == 300
  {
    ApiCoordinatorConfig(apiUrl, relayUrl, DefaultRegistrationTtlSecs, DefaultRegistrationTtlSecs / 2)
  }

  /**
   * A registration is refreshed before it expires.  A TTL of 0 or 1 second
   * gives a refresh interval of 0, which counts as in time here; the refresh
   * task hands that interval to tokio's `interval`, which panics on a zero
   * period, and that task is not part of this model.
   */
  predicate RefreshesInTime(config: ApiCoordinatorConfig)
  {
    && config.refreshIntervalSecs <= config.registrationTtlSecs
    && (config.registrationTtlSecs > 0 ==> config.refreshIntervalSecs < config.registrationTtlSecs)
  }

  /** Both ways of building a configuration refresh in time; `with_ttl(120)` refreshes every 60 seconds. */
  lemma ConfigsRefreshInTime(apiUrl: Url, relayUrl: Url, config: ApiCoordinatorConfig, ttlSecs: U64)
    ensures RefreshesInTime(NewConfig(apiUrl, relayUrl))
    ensures RefreshesInTime(config.WithTtl(ttlSecs))
    ensures config.WithTtl(120).refreshIntervalSecs == 60
  {
  }

  /** The registry's failure messages, as `anyhow` context. */
  const RegisterFailure: string := "failed to register namespace in API"
  const UnregisterFailure: string := "failed to unregister namespace from API"
  const LookupFailure: string := "failed to lookup namespace in API"

  /**
   * The mapping `lookup` applies to the registry's answer: a failed request
   * is `Other`; an origin gives the queried namespace at the origin's URL,
   * with no client; no origin is `NamespaceNotFound`.
   */
  function LookupReply(namespace: TrackNamespace, reply: Result<Option<Url>, string>)
    : (r: CoordinatorResult<(NamespaceOrigin, Option<QuicClient>)>)
    ensures reply.Failure? ==> r == Failure(Other(reply.error))
    ensures reply.Success? && reply.value.Some? ==>
      && r.Success? && r.value.1.None?
      && r.value.0.namespace == namespace && r.value.0.url == reply.value.value && r.value.0.metadata.None?
    ensures reply.Success? && reply.value.None? ==> r == Failure(NamespaceNotFound)
  {
    match reply
    case Failure(e) => Failure(Other(e))
    case Success(Some(url)) => Success((NewOrigin(namespace, url), None))
    case Success(None) => Failure(NamespaceNotFound)
  }

  /** The registry's answer to `get_origin` for a key, unless the request fails. */
  function RegistryAnswer(origins: map<Text, Url>, key: Text, requestFails: bool): (r: Result<Option<Url>, string>)
    ensures requestFails ==> r == Failure(LookupFailure)
    ensures !requestFails ==> (r == Success(None) <==> key !in origins)
    ensures !requestFails && key in origins ==> r == Success(Some(origins[key]))
  {
    if requestFails then Failure(LookupFailure)
    else if key in origins then Success(Some(origins[key]))
    else Success(None)
  }

  /** `NamespaceUnregisterHandle`: dropping it deletes its namespace from the registry. */
  datatype UnregisterHandle = UnregisterHandle(namespace: TrackNamespace)

  class ApiCoordinator {
    const config: ApiCoordinatorConfig
    /** The registry's origins, keyed by namespace path. */
    var origins: map<Text, Url>

    /** `ApiCoordinator::new`, against a registry holding `origins`. */
    constructor (config: ApiCoordinatorConfig, origins: map<Text, Url>)
      ensures this.config == config && this.origins == origins
    {
      this.config := config;
      this.origins := origins;
    }

    /** `register_namespace`: sets this relay as the origin under the namespace's path. */
    method Register(namespace: TrackNamespace, requestFails: bool)
      returns (r: CoordinatorResult<NamespaceRegistration<UnregisterHandle>>)
      modifies this`origins
      ensures requestFails ==> r == Failure(Other(RegisterFailure)) && origins == old(origins)
      ensures !requestFails ==>
        && r == Success(NewRegistration(UnregisterHandle(namespace)))
        && origins == old(origins)[PathOf(namespace.fields) := config.relayUrl]
    {
      var key := ToUtf8Path(namespace);
      if requestFails {
        return Failure(Other(RegisterFailure));
      }
      origins := origins[key := config.relayUrl];
      return Success(NewRegistration(UnregisterHandle(namespace)));
    }

    /** `unregister_namespace`: deletes the origin under the namespace's path. */
    method Unregister(namespace: TrackNamespace, requestFails: bool) returns (r: CoordinatorResult<()>)
      modifies this`origins
      ensures requestFails ==> r == Failure(Other(UnregisterFailure)) && origins == old(origins)
      ensures !requestFails ==> r == Success(()) && origins == old(origins) - {PathOf(namespace.fields)}
    {
      var key := ToUtf8Path(namespace);
      if requestFails {
        return Failure(Other(UnregisterFailure));
      }
      origins := origins - {key};
      return Success(());
    }

    /** Dropping the handle deletes its namespace's origin; a failure is only logged. */
    method DropHandle(handle: UnregisterHandle, requestFails: bool)
      modifies this`origins
      ensures origins == if requestFails then old(origins) else old(origins) - {PathOf(handle.namespace.fields)}
    {
      var key := ToUtf8Path(handle.namespace);
      if !requestFails {
        origins := origins - {key};
      }
    }

    /** `lookup`: asks the registry under the namespace's path, without changing it. */
    method Lookup(namespace: TrackNamespace, requestFails: bool)
      returns (r: CoordinatorResult<(NamespaceOrigin, Option<QuicClient>)>)
      ensures r == LookupReply(namespace, RegistryAnswer(origins, PathOf(namespace.fields), requestFails))
    {
      var key := ToUtf8Path(namespace);
      r := LookupReply(namespace, RegistryAnswer(origins, key, requestFails));
    }
  }

  /**
   * Register, unregister and lookup use the same key: a lookup after a
   * successful register finds the registering relay, and one after a
   * successful unregister finds nothing.
   */
  lemma RegistryKeyAgreement(origins: map<Text, Url>, namespace: TrackNamespace, relayUrl: Url)
    ensures LookupReply(namespace, RegistryAnswer(origins[PathOf(namespace.fields) := relayUrl], PathOf(namespace.fields), false))
         == Success((NewOrigin(namespace, relayUrl), None))
    ensures LookupReply(namespace, RegistryAnswer(origins - {PathOf(namespace.fields)}, PathOf(namespace.fields), false))
         == Failure(NamespaceNotFound)
  {
  }
}
