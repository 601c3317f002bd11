/**
 * The relay's coordinator vocabulary: what a namespace registration and a
 * lookup result hold, and the coordinator's errors.  The coordinator
 * interface itself is the common shape of the file and API backends.
 */
module Coordinators {
  import opened Wrappers
  import opened Text
  import opened TrackNamespaces

  /** A relay URL, as its text. */
  type Url = Text

  /** Metadata: key-value pairs of strings. */
  type Metadata = seq<(Text, Text)>

  /** A QUIC client a lookup may hand back for reaching the origin. */
  datatype QuicClient = QuicClient(endpoint: nat)

  /** `CoordinatorError`. No code path in the backends produces `NamespaceAlreadyRegistered`. */
  datatype CoordinatorError = NamespaceNotFound | NamespaceAlreadyRegistered | Other(cause: string)

  /** The error types the coordinator converts from, with their messages. */
  datatype ForeignError = AnyhowError(message: string) | JoinError(message: string) | IoError(message: string)

  /** The `From` conversions: every foreign error becomes `Other`, keeping its message. */
  function FromForeign(e: ForeignError): (r: CoordinatorError)
    ensures r.Other? && r.cause == e.message
  {
    Other(e.message)
  }

  /** `CoordinatorResult<T>`. */
  type CoordinatorResult<T> = Result<T, CoordinatorError>

  /** `NamespaceOrigin`: where a namespace is served from. */
  datatype NamespaceOrigin = NamespaceOrigin(namespace: TrackNamespace, url: Url, metadata: Option<Metadata>)
  {
    /** `with_metadata`: appends one pair, starting the list if there was none. */
    function WithMetadata(kv: (Text, Text)): (r: NamespaceOrigin)
      ensures r.namespace == namespace && r.url == url
      ensures r.metadata.Some?
      ensures r.metadata.value == (if metadata.None? then [] else metadata.value) + [kv]
    {
      match metadata
      case None => this.(metadata := Some([kv]))
      case Some(m) => this.(metadata := Some(m + [kv]))
    }
  }

  /** `NamespaceOrigin::new`: no metadata. */
  function NewOrigin(namespace: TrackNamespace, url: Url): (r: NamespaceOrigin)
    ensures r.namespace == namespace && r.url == url && r.metadata.None?
  {
    NamespaceOrigin(namespace, url, None)
  }

  /** `with_metadata` applied to each pair in turn. */
  function WithAllMetadata(origin: NamespaceOrigin, kvs: Metadata): NamespaceOrigin
  {
    if |kvs| == 0 then origin else WithAllMetadata(origin, kvs[..|kvs| - 1]).WithMetadata(kvs[|kvs| - 1])
  }

  /**
   * Adding pairs one at a time to a new origin keeps them all, in order, and
   * leaves the namespace and URL alone.
   */
  lemma {:induction false} WithAllMetadataKeepsOrder(namespace: TrackNamespace, url: Url, kvs: Metadata)
    ensures WithAllMetadata(NewOrigin(namespace, url), kvs).namespace == namespace
    ensures WithAllMetadata(NewOrigin(namespace, url), kvs).url == url
    ensures WithAllMetadata(NewOrigin(namespace, url), kvs).metadata == if kvs == [] then None else Some(kvs)
  {
    if |kvs| > 0 {
      var init := kvs[..|kvs| - 1];
      WithAllMetadataKeepsOrder(namespace, url, init);
      assert init + [kvs[|kvs| - 1]] == kvs;
    }
  }

  /**
   * `NamespaceRegistration`: the handle whose drop unregisters the
   * namespace, with optional metadata.
   */
  datatype NamespaceRegistration<T> = NamespaceRegistration(inner: T, metadata: Option<Metadata>)
  {
    /** `with_metadata`: replaces the metadata with the given list. */
    function WithMetadata(m: Metadata): (r: NamespaceRegistration<T>)
      ensures r.inner == inner && r.metadata == Some(m)
    {
      this.(metadata := Some(m))
    }
  }

  /** `NamespaceRegistration::new`: no metadata. */
  function NewRegistration<T>(inner: T): (r: NamespaceRegistration<T>)
    ensures r.inner == inner && r.metadata.None?
  {
    NamespaceRegistration(inner, None)
  }

  /** Unlike an origin's, a registration's metadata is replaced, so only the last list given counts. */
  lemma RegistrationMetadataReplaced<T>(reg: NamespaceRegistration<T>, m1: Metadata, m2: Metadata)
    ensures reg.WithMetadata(m1).WithMetadata(m2) == reg.WithMetadata(m2)
  {
  }

  /** The default `shutdown`: nothing to do. */
  function DefaultShutdown(): (r: CoordinatorResult<()>)
    ensures r.Success?
  {
    Success(())
  }
}
