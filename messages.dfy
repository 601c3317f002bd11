/**
 * The control messages and error types the session layer exchanges.  The
 * message codecs are not part of this model: a message is its decoded
 * content, and the session's `Message` enum is grouped here by the role of
 * the peer that sends it.
 */
module Messages {
  import opened Text
  import opened Wrappers
  import opened TrackNamespaces
  import VarInt

  /** The serve layer's errors, as far as the session code names them. */
  datatype ServeError = Cancel | Closed(code: nat) | NotFound | Duplicate | Internal | Done

  /** `SessionError`. */
  datatype SessionError =
    | Duplicate
    | RoleViolation
    | WrongSize
    | Unimplemented(what: string)
    | Version(client: seq<nat>, server: seq<nat>)
    | Serve(serve: ServeError)
    | Decode(decode: VarInt.DecodeError)

  /** Control messages a publisher sends (`message::Publisher`). */
  datatype PublisherMessage =
    | PublishNamespace(id: nat, namespace: TrackNamespace)
    | PublishNamespaceDone(namespace: TrackNamespace)
    | Publish(id: nat)
    | PublishDone(id: nat, statusCode: nat)
    | SubscribeOk(id: nat, trackAlias: nat)
    | SubscribeError(id: nat, errorCode: nat)
    | TrackStatusOk(id: nat)
    | TrackStatusError(id: nat)
    | FetchOk(id: nat)
    | FetchError(id: nat)
    | SubscribeNamespaceOk(id: nat)
    | SubscribeNamespaceError(id: nat)

  /** Control messages a subscriber sends (`message::Subscriber`). */
  datatype SubscriberMessage =
    | Subscribe(id: nat, namespace: TrackNamespace, name: Text)
    | TrackStatus(id: nat, namespace: TrackNamespace, name: Text, subscriberPriority: nat, forward: bool)
    | Unsubscribe(id: nat)
    | PublishNamespaceOk(id: nat)
    | PublishNamespaceError(id: nat)
    | PublishNamespaceCancel(namespace: TrackNamespace)
    | SubscribeNamespace(id: nat)
    | UnsubscribeNamespace(id: nat)
    | Fetch(id: nat)
    | FetchCancel(id: nat)

  /** `message::Message`: everything that can arrive on the control stream. */
  datatype Message =
    | FromPublisher(publisher: PublisherMessage)
    | FromSubscriber(subscriber: SubscriberMessage)
    | GoAway(uri: Text)
    | MaxRequestId(limit: nat)
    | RequestsBlocked(limit: nat)

  /**
   * A handler's result when it has called into the serve layer: that call's
   * outcome, turned into a session error by `?`.
   */
  function ServeStatus(outcome: Option<ServeError>): (r: Result<(), SessionError>)
    ensures r.Success? <==> outcome.None?
  {
    match outcome
    case None => Success(())
    case Some(e) => Failure(Serve(e))
  }
}
