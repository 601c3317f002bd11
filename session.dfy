/**
 * Session setup and control-message routing: version negotiation, the
 * SETUP parameters, where each side's request ids start, and the receive
 * loop that hands each control message to the subscriber or the publisher.
 * The QUIC streams, the SETUP codec and the publisher half are not part of
 * this model: the decoded SETUP messages are inputs, and the publisher's
 * answer to a message is given with the message.
 */
module Sessions {
  import opened Wrappers
  import opened Messages
  import opened Subscribers

  /** `setup::Version::DRAFT_14`, the version code of MoQT draft 14. */
  const Draft14: nat := 0xff00000e

  /** The `MaxRequestId` SETUP parameter both sides send. */
  const SetupMaxRequestId: nat := 100

  /** The only version this implementation offers or accepts. */
  const SupportedVersions: seq<nat> := [Draft14]

  /** `largest_common`: the largest element of `a` that is also in `b`. */
  function LargestCommon(a: seq<nat>, b: seq<nat>): (r: Option<nat>)
    ensures r.Some? ==> r.value in a && r.value in b
    ensures r.Some? ==> forall x :: x in a && x in b ==> x <= r.value
    ensures r.None? <==> forall x :: x in a ==> x !in b
  {
    if |a| == 0 then None
    else
      var rest := LargestCommon(a[1..], b);
      assert forall x :: x in a ==> x == a[0] || x in a[1..];
      if a[0] !in b then rest
      else match rest
        case None => Some(a[0])
        case Some(m) => Some(if a[0] >= m then a[0] else m)
  }

  /** Only the common elements and their maximum matter, so the order of the arguments does not. */
  lemma LargestCommonSymmetric(a: seq<nat>, b: seq<nat>)
    ensures LargestCommon(a, b) == LargestCommon(b, a)
  {
    var x, y := LargestCommon(a, b), LargestCommon(b, a);
    if x.Some? && y.Some? {
      assert x.value <= y.value && y.value <= x.value;
    }
  }

  datatype ClientSetup = ClientSetup(versions: seq<nat>, maxRequestId: nat)
  datatype ServerSetup = ServerSetup(version: nat, maxRequestId: nat)

  /** Which end of the QUIC connection the session is. */
  datatype Role = Client | Server

  /** The client's ids start at 0, the server's at 1. */
  function FirstRequestId(role: Role): nat
  {
    match role
    case Client => 0
    case Server => 1
  }

  /** A client's request ids are all even and a server's all odd. */
  lemma SessionRequestIdParity(role: Role, k: nat)
    ensures RequestIdAfter(FirstRequestId(role), k) % 2 == if role == Client then 0 else 1
  {
    RequestIdParity(FirstRequestId(role), k);
  }

  /**
   * `connect`: sends CLIENT_SETUP offering draft 14 with `MaxRequestId` 100,
   * reads SERVER_SETUP, and starts the session with request id 0.  The
   * server's chosen version is not checked.
   */
  function Connect(server: ServerSetup): (r: (ClientSetup, nat))
    ensures r.0.versions == SupportedVersions && r.0.maxRequestId == SetupMaxRequestId
    ensures r.1 == FirstRequestId(Client)
  {
    (ClientSetup(SupportedVersions, SetupMaxRequestId), 0)
  }

  /** Whatever SERVER_SETUP says, `connect` goes on the same way. */
  lemma ConnectIgnoresServerVersion(s1: ServerSetup, s2: ServerSetup)
    ensures Connect(s1) == Connect(s2)
  {
  }

  /**
   * `accept`: answers CLIENT_SETUP with the largest version both sides
   * support and `MaxRequestId` 100, and starts with request id 1; with no
   * common version it fails with `Version` and answers nothing.
   */
  function Accept(client: ClientSetup): (r: Result<(ServerSetup, nat), SessionError>)
    ensures r.Success? <==> Draft14 in client.versions
    ensures r.Success? ==> r.value == (ServerSetup(Draft14, SetupMaxRequestId), FirstRequestId(Server))
    ensures r.Failure? ==> r.error == Version(client.versions, SupportedVersions)
  {
    match LargestCommon(SupportedVersions, client.versions)
    case Some(version) => Success((ServerSetup(version, SetupMaxRequestId), 1))
    case None => Failure(Version(client.versions, SupportedVersions))
  }

  /** A client and a server of this implementation always agree on draft 14. */
  lemma ConnectThenAccept(server: ServerSetup)
    ensures Accept(Connect(server).0) == Success((ServerSetup(Draft14, SetupMaxRequestId), 1))
  {
    assert Draft14 in Connect(server).0.versions;
  }

  // ---------------------------------------------------------------------
  // The receive loop
  // ---------------------------------------------------------------------

  /** Where `run_recv` sends a control message. */
  datatype Route = ToSubscriber(publisherMessage: PublisherMessage) | ToPublisher(subscriberMessage: SubscriberMessage) | Unrouted

  /**
   * Messages a publisher sends go to our subscriber half; messages a
   * subscriber sends go to our publisher half; GOAWAY, MAX_REQUEST_ID and
   * REQUESTS_BLOCKED are not handled.
   */
  function RouteOf(msg: Message): Route
  {
    match msg
    case FromPublisher(m) => ToSubscriber(m)
    case FromSubscriber(m) => ToPublisher(m)
    case _ => Unrouted
  }

  /**
   * A received control message, with the outcome of the serve-layer call its
   * subscriber handler makes and the publisher half's result for it.
   */
  datatype Incoming = Incoming(msg: Message, serveOutcome: Option<ServeError>, publisherResult: Result<(), SessionError>)

  /** Whether the half a message is routed to exists. */
  predicate Deliverable(msg: Message, hasSubscriber: bool, hasPublisher: bool)
  {
    match RouteOf(msg)
    case ToSubscriber(_) => hasSubscriber
    case ToPublisher(_) => hasPublisher
    case Unrouted => false
  }

  /**
   * The subscriber's tables after the subscriber handlers of `incoming` have
   * run, in order; a message routed elsewhere leaves them alone.
   */
  function SubscriberAfter(t: SubscriberTables, queueOpen: bool, incoming: seq<Incoming>): SubscriberTables
  {
    if |incoming| == 0 then t
    else
      var before := SubscriberAfter(t, queueOpen, incoming[..|incoming| - 1]);
      var m := incoming[|incoming| - 1];
      match RouteOf(m.msg)
      case ToSubscriber(msg) => RecvStep(before, queueOpen, msg, m.serveOutcome).1
      case _ => before
  }

  /** Every subscriber handler among `incoming` succeeded, each on the tables its predecessors left. */
  predicate SubscriberHandlersSucceed(t: SubscriberTables, queueOpen: bool, incoming: seq<Incoming>)
  {
    |incoming| > 0 ==>
      var init := incoming[..|incoming| - 1];
      var m := incoming[|incoming| - 1];
      && SubscriberHandlersSucceed(t, queueOpen, init)
      && (RouteOf(m.msg).ToSubscriber? ==>
            RecvStep(SubscriberAfter(t, queueOpen, init), queueOpen, RouteOf(m.msg).publisherMessage, m.serveOutcome).0.Success?)
  }

  /** The handler of each subscriber message among those `SubscriberHandlersSucceed` covers succeeded. */
  lemma {:induction false} HandlersSucceedAt(t: SubscriberTables, queueOpen: bool, incoming: seq<Incoming>, i: nat)
    requires SubscriberHandlersSucceed(t, queueOpen, incoming)
    requires i < |incoming| && RouteOf(incoming[i].msg).ToSubscriber?
    ensures RecvStep(SubscriberAfter(t, queueOpen, incoming[..i]), queueOpen,
                     RouteOf(incoming[i].msg).publisherMessage, incoming[i].serveOutcome).0.Success?
  {
    var init := incoming[..|incoming| - 1];
    if i < |incoming| - 1 {
      HandlersSucceedAt(t, queueOpen, init, i);
      assert init[..i] == incoming[..i];
    } else {
      assert init == incoming[..i];
    }
  }

  /**
   * `run_recv`: handles messages in order until one fails.  `handled` is the
   * number of messages handled; a success means all were and the loop waits
   * for the next message.  Every handled message was routed to a half that
   * exists and its handler succeeded; the subscriber's tables are those its
   * handlers left, and its other state is untouched.  The failing message's
   * error is its handler's, a missing half's `RoleViolation`, or
   * `Unimplemented` for a message no half takes.
   */
  method RunRecv(incoming: seq<Incoming>, subscriber: Subscriber?, hasPublisher: bool)
    returns (r: Result<(), SessionError>, handled: nat)
    requires subscriber != null ==> subscriber.Valid()
    modifies subscriber
    ensures subscriber != null ==> subscriber.Valid()
    ensures handled <= |incoming|
    ensures r.Success? <==> handled == |incoming|
    ensures forall i :: 0 <= i < handled ==> Deliverable(incoming[i].msg, subscriber != null, hasPublisher)
    ensures forall i :: 0 <= i < handled && RouteOf(incoming[i].msg).ToPublisher? ==> incoming[i].publisherResult.Success?
    ensures subscriber != null ==>
      forall i :: 0 <= i < handled && RouteOf(incoming[i].msg).ToSubscriber? ==>
        RecvStep(SubscriberAfter(old(subscriber.Tables()), subscriber.announcedQueueOpen, incoming[..i]),
                 subscriber.announcedQueueOpen, RouteOf(incoming[i].msg).publisherMessage, incoming[i].serveOutcome).0.Success?
    ensures subscriber != null ==>
      subscriber.Tables() == SubscriberAfter(old(subscriber.Tables()), subscriber.announcedQueueOpen, incoming[..handled])
    ensures subscriber != null ==>
      && subscriber.announcedQueueOpen == old(subscriber.announcedQueueOpen)
      && subscriber.outgoing == old(subscriber.outgoing) && subscriber.outgoingOpen == old(subscriber.outgoingOpen)
      && subscriber.nextRequestId == old(subscriber.nextRequestId) && subscriber.issued == old(subscriber.issued)
    ensures r.Failure? ==>
      var m := incoming[handled];
      match RouteOf(m.msg)
      case Unrouted => r.error.Unimplemented?
      case ToSubscriber(msg) =>
        if subscriber == null then r.error == RoleViolation
        else (&& r == RecvStep(subscriber.Tables(), subscriber.announcedQueueOpen, msg, m.serveOutcome).0
              && (r.error == SessionError.Duplicate || r.error.Unimplemented?))
      case ToPublisher(_) => r == (if hasPublisher then m.publisherResult else Failure(RoleViolation))
  {
    ghost var t0 := if subscriber != null then subscriber.Tables() else SubscriberTables(map[], [], map[], map[]);
    ghost var open := subscriber != null && subscriber.announcedQueueOpen;
    r := Success(());
    handled := 0;
    while handled < |incoming|
      invariant handled <= |incoming|
      invariant subscriber != null ==> subscriber.Valid()
      invariant forall i :: 0 <= i < handled ==> Deliverable(incoming[i].msg, subscriber != null, hasPublisher)
      invariant forall i :: 0 <= i < handled && RouteOf(incoming[i].msg).ToPublisher? ==> incoming[i].publisherResult.Success?
      invariant subscriber != null ==> SubscriberHandlersSucceed(t0, open, incoming[..handled])
      invariant subscriber != null ==> subscriber.Tables() == SubscriberAfter(t0, open, incoming[..handled])
      invariant subscriber != null ==>
        && subscriber.announcedQueueOpen == old(subscriber.announcedQueueOpen)
        && subscriber.outgoing == old(subscriber.outgoing) && subscriber.outgoingOpen == old(subscriber.outgoingOpen)
        && subscriber.nextRequestId == old(subscriber.nextRequestId) && subscriber.issued == old(subscriber.issued)
      invariant r.Success?
    {
      var m := incoming[handled];
      assert incoming[..handled + 1][..handled] == incoming[..handled];
      match RouteOf(m.msg) {
        case ToSubscriber(msg) =>
          if subscriber == null {
            r := Failure(RoleViolation);
            break;
          }
          ghost var before := subscriber.Tables();
          var res := subscriber.RecvMessage(msg, m.serveOutcome);
          if res.Failure? {
            RecvStepFailure(before, open, msg, m.serveOutcome);
            r := res;
            break;
          }
        case ToPublisher(_) =>
          if !hasPublisher {
            r := Failure(RoleViolation);
            break;
          }
          if m.publisherResult.Failure? {
            r := m.publisherResult;
            break;
          }
        case Unrouted =>
          r := Failure(Unimplemented("message type"));
          break;
      }
      handled := handled + 1;
    }
    if subscriber != null {
      forall i | 0 <= i < handled && RouteOf(incoming[i].msg).ToSubscriber?
        ensures RecvStep(SubscriberAfter(t0, open, incoming[..i]), open,
                         RouteOf(incoming[i].msg).publisherMessage, incoming[i].serveOutcome).0.Success?
      {
        HandlersSucceedAt(t0, open, incoming[..handled], i);
        assert incoming[..handled][..i] == incoming[..i];
      }
    }
  }
}
