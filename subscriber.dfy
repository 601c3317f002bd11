/**
 * The subscriber half of a MoQT session: the table of namespaces the peer
 * has published, the table of our outstanding subscriptions, the map from
 * track alias to subscription, the shared request-id counter, and the
 * reading of objects from a subgroup stream.
 *
 * Calls into the serve layer (`Announced::close`, `AnnouncedRecv::recv_unannounce`,
 * `SubscribeRecv::ok`, `SubscribeRecv::error`, `SubscribeRecv::datagram`) are not
 * part of this model; a handler takes their outcome as a parameter.
 */
module Subscribers {
  import opened Wrappers
  import opened Text
  import opened TrackNamespaces
  import opened Messages

  /** The request-id counter is an `AtomicU64`. */
  const U64Modulus: nat := 0x1_0000_0000_0000_0000

  /** The id handed out after `k` earlier requests when the counter started at `first`. */
  function RequestIdAfter(first: nat, k: nat): nat
  {
    (first + 2 * k) % U64Modulus
  }

  /** One `fetch_add(2)` moves the counter from the k-th id to the (k+1)-th. */
  lemma RequestIdStep(first: nat, k: nat)
    ensures (RequestIdAfter(first, k) + 2) % U64Modulus == RequestIdAfter(first, k + 1)
  {
    var a := first + 2 * k;
    assert a == (a / U64Modulus) * U64Modulus + a % U64Modulus;
    var b := a + 2;
    var m := a % U64Modulus + 2;
    assert b == (a / U64Modulus) * U64Modulus + m;
    ModAddMultiple(m, a / U64Modulus);
  }

  lemma ModAddMultiple(m: nat, q: nat)
    ensures (q * U64Modulus + m) % U64Modulus == m % U64Modulus
  {
    var x := q * U64Modulus + m;
    var r := m % U64Modulus;
    assert x == (q + m / U64Modulus) * U64Modulus + r;
  }

  /** Every id keeps the parity of the first: even for a client, odd for a server. */
  lemma RequestIdParity(first: nat, k: nat)
    ensures RequestIdAfter(first, k) % 2 == first % 2
  {
    var a := first + 2 * k;
    var q := a / U64Modulus;
    var r := a % U64Modulus;
    assert a == q * U64Modulus + r;
    assert q * U64Modulus == 2 * (q * (U64Modulus / 2));
    assert a % 2 == first % 2;
  }

  /** The counter gives out no id twice within 2^63 requests. */
  lemma RequestIdsDistinct(first: nat, i: nat, j: nat)
    requires i < j < U64Modulus / 2
    ensures RequestIdAfter(first, i) != RequestIdAfter(first, j)
  {
    var a := first + 2 * i;
    var b := first + 2 * j;
    var qa, qb := a / U64Modulus, b / U64Modulus;
    assert a == qa * U64Modulus + a % U64Modulus;
    assert b == qb * U64Modulus + b % U64Modulus;
    assert 0 < b - a < U64Modulus;
  }

  /** An outstanding subscription: `SubscribeRecv`, with the alias the publisher gave it. */
  datatype SubscribeRecv = SubscribeRecv(id: nat, namespace: TrackNamespace, name: Text, alias: Option<nat>)

  /** The default subscriber priority of a TRACK_STATUS request. */
  const DefaultPriority: nat := 127

  /** The name `recv_message` reports for a message it does not implement. */
  function UnimplementedName(msg: PublisherMessage): Option<string>
  {
    match msg
    case Publish(_) => Some("PUBLISH")
    case TrackStatusError(_) => Some("TRACK_STATUS_ERROR")
    case FetchOk(_) => Some("FETCH_OK")
    case FetchError(_) => Some("FETCH_ERROR")
    case SubscribeNamespaceOk(_) => Some("SUBSCRIBE_NAMESPACE_OK")
    case SubscribeNamespaceError(_) => Some("SUBSCRIBE_NAMESPACE_ERROR")
    case _ => None
  }

  /** The tables a received publisher message can change. */
  datatype SubscriberTables = SubscriberTables(
    announced: map<TrackNamespace, nat>, announcedQueue: seq<TrackNamespace>,
    subscribes: map<nat, SubscribeRecv>, aliases: map<nat, nat>)

  /** `remove_subscribe` on the tables: the subscription and the alias it recorded go. */
  function RemoveSubscribeStep(t: SubscriberTables, id: nat): (r: SubscriberTables)
    ensures r.announced == t.announced && r.announcedQueue == t.announcedQueue
    ensures r.subscribes == t.subscribes - {id}
    ensures id in t.subscribes && t.subscribes[id].alias.Some? ==> r.aliases == t.aliases - {t.subscribes[id].alias.value}
    ensures !(id in t.subscribes && t.subscribes[id].alias.Some?) ==> r.aliases == t.aliases
  {
    if id in t.subscribes then
      t.(subscribes := t.subscribes - {id},
         aliases := match t.subscribes[id].alias
           case None => t.aliases
           case Some(a) => t.aliases - {a})
    else t
  }

  /**
   * `recv_message` as a step on the tables: the result and the new tables
   * for one publisher message, given whether the announce queue still has a
   * reader and the outcome of the serve-layer call the handler makes.  A
   * serve-layer failure is not a session error, so only a duplicate
   * PUBLISH_NAMESPACE and the six unimplemented kinds fail.
   */
  function RecvStep(t: SubscriberTables, queueOpen: bool, msg: PublisherMessage, outcome: Option<ServeError>)
    : (Result<(), SessionError>, SubscriberTables)
  {
    match msg
    case PublishNamespace(id, namespace) =>
      if namespace in t.announced then (Failure(SessionError.Duplicate), t)
      else if !queueOpen then (Success(()), t)
      else (Success(()), t.(announced := t.announced[namespace := id], announcedQueue := t.announcedQueue + [namespace]))
    case PublishNamespaceDone(namespace) => (Success(()), t.(announced := t.announced - {namespace}))
    case SubscribeOk(id, trackAlias) =>
      if id !in t.subscribes then (Success(()), t)
      else (Success(()), t.(aliases := t.aliases[trackAlias := id],
                            subscribes := if outcome.None?
                              then t.subscribes[id := t.subscribes[id].(alias := Some(trackAlias))]
                              else t.subscribes))
    case SubscribeError(id, _) => (Success(()), RemoveSubscribeStep(t, id))
    case PublishDone(id, _) => (Success(()), RemoveSubscribeStep(t, id))
    case TrackStatusOk(_) => (Success(()), t)
    case _ => (Failure(Unimplemented(UnimplementedName(msg).value)), t)
  }

  /**
   * A step fails exactly for a duplicate announce or an unimplemented
   * message, and a failing step leaves the tables as they were.
   */
  lemma RecvStepFailure(t: SubscriberTables, queueOpen: bool, msg: PublisherMessage, outcome: Option<ServeError>)
    ensures RecvStep(t, queueOpen, msg, outcome).0.Failure?
        <==> (msg.PublishNamespace? && msg.namespace in t.announced) || UnimplementedName(msg).Some?
    ensures RecvStep(t, queueOpen, msg, outcome).0.Failure? ==> RecvStep(t, queueOpen, msg, outcome).1 == t
  {
  }

  /** A message that names no known subscription and no announce changes no table. */
  lemma RecvStepUnknownIdNoChange(t: SubscriberTables, queueOpen: bool, msg: PublisherMessage, outcome: Option<ServeError>)
    requires msg.SubscribeOk? || msg.SubscribeError? || msg.PublishDone?
    requires msg.id !in t.subscribes
    ensures RecvStep(t, queueOpen, msg, outcome) == (Success(()), t)
  {
  }

  // ---------------------------------------------------------------------
  // Subgroup streams
  // ---------------------------------------------------------------------

  /**
   * An object on a subgroup stream: its header (object-id delta, payload
   * length) and the bytes the stream holds after the header; fewer than
   * `payloadLength` of them means the stream ends inside this object.
   */
  datatype SubgroupObject = SubgroupObject(idDelta: nat, payloadLength: nat, payload: Text)

  /** An object handed to the subgroup writer: the size it was created with and the bytes written to it. */
  datatype ObjectWrite = ObjectWrite(size: nat, payload: Text)

  /** The sum of the object-id deltas. */
  function DeltaSum(objects: seq<SubgroupObject>): nat
  {
    if |objects| == 0 then 0 else DeltaSum(objects[..|objects| - 1]) + objects[|objects| - 1].idDelta
  }

  /** The absolute id of object `k`: the sum of the deltas up to and including its own. */
  function ObjectId(objects: seq<SubgroupObject>, k: nat): nat
    requires k < |objects|
  {
    DeltaSum(objects[..k + 1])
  }

  /** Object `k`'s id is the sum of the deltas before it plus its own. */
  lemma ObjectIdStep(objects: seq<SubgroupObject>, k: nat)
    requires k < |objects|
    ensures ObjectId(objects, k) == DeltaSum(objects[..k]) + objects[k].idDelta
  {
    assert objects[..k + 1][..k] == objects[..k];
  }

  /** Object ids along a subgroup stream never decrease. */
  lemma {:induction false} ObjectIdsNonDecreasing(objects: seq<SubgroupObject>, i: nat, j: nat)
    requires i <= j < |objects|
    ensures ObjectId(objects, i) <= ObjectId(objects, j)
  {
    if i < j {
      ObjectIdsNonDecreasing(objects, i, j - 1);
      assert objects[..j + 1][..j] == objects[..j];
    }
  }

  /** With every delta positive, object ids strictly increase. */
  lemma {:induction false} ObjectIdsIncreasing(objects: seq<SubgroupObject>, i: nat, j: nat)
    requires i < j < |objects|
    requires forall k :: 0 <= k < |objects| ==> objects[k].idDelta > 0
    ensures ObjectId(objects, i) < ObjectId(objects, j)
  {
    assert objects[..j + 1][..j] == objects[..j];
    ObjectIdsNonDecreasing(objects, i, j - 1);
  }

  predicate Complete(o: SubgroupObject)
  {
    |o.payload| >= o.payloadLength
  }

  /** The index of the first object the stream ends inside, if any. */
  function FirstIncomplete(objects: seq<SubgroupObject>): (r: Option<nat>)
    ensures r.Some? ==> r.value < |objects| && !Complete(objects[r.value])
                        && forall j :: 0 <= j < r.value ==> Complete(objects[j])
    ensures r.None? <==> forall j :: 0 <= j < |objects| ==> Complete(objects[j])
  {
    if |objects| == 0 then None
    else if !Complete(objects[0]) then Some(0)
    else match FirstIncomplete(objects[1..])
      case None => None
      case Some(i) => Some(i + 1)
  }

  /** How many objects the stream loop starts: all of them, or up to and including the one the stream ends inside. */
  function Started(objects: seq<SubgroupObject>): (n: nat)
    ensures n <= |objects|
  {
    match FirstIncomplete(objects)
    case None => |objects|
    case Some(i) => i + 1
  }

  /** A stream that holds every object whole fails nowhere, and the loop starts every object. */
  lemma StartedAllComplete(objects: seq<SubgroupObject>)
    requires forall j :: 0 <= j < |objects| ==> Complete(objects[j])
    ensures FirstIncomplete(objects).None? && Started(objects) == |objects|
  {
  }

  /** A stream that ends inside object `k`, after `k` whole ones, fails there, and the loop starts `k + 1` objects. */
  lemma StartedAtIncomplete(objects: seq<SubgroupObject>, k: nat)
    requires k < |objects| && !Complete(objects[k])
    requires forall j :: 0 <= j < k ==> Complete(objects[j])
    ensures FirstIncomplete(objects) == Some(k) && Started(objects) == k + 1
  {
  }

  /** The bytes of an object's payload the loop writes: `payloadLength` of them, or all there are. */
  function Received(o: SubgroupObject): Text
  {
    if Complete(o) then o.payload[..o.payloadLength] else o.payload
  }

  /** `written` and `objectIds` hold, for each object so far, what the loop hands the writer and the current id. */
  predicate Recorded(objects: seq<SubgroupObject>, written: seq<ObjectWrite>, objectIds: seq<nat>)
  {
    && |written| == |objectIds| <= |objects|
    && forall j :: 0 <= j < |written| ==>
         objectIds[j] == ObjectId(objects, j)
         && written[j] == ObjectWrite(objects[j].payloadLength, Received(objects[j]))
  }

  /** Recording the next object keeps `Recorded`. */
  lemma RecordedSnoc(objects: seq<SubgroupObject>, written: seq<ObjectWrite>, objectIds: seq<nat>)
    requires Recorded(objects, written, objectIds) && |written| < |objects|
    ensures Recorded(objects,
                     written + [ObjectWrite(objects[|written|].payloadLength, Received(objects[|written|]))],
                     objectIds + [ObjectId(objects, |written|)])
  {
  }

  // ---------------------------------------------------------------------
  // The session's subscriber state
  // ---------------------------------------------------------------------

  class Subscriber {
    /** Inbound announces: namespace -> the request id of its PUBLISH_NAMESPACE. */
    var announced: map<TrackNamespace, nat>
    /** Announced namespaces waiting for the application. */
    var announcedQueue: seq<TrackNamespace>
    /** Whether the announce queue still has a reader (`Queue::push` fails once it has not). */
    var announcedQueueOpen: bool
    /** Outbound subscriptions by request id. */
    var subscribes: map<nat, SubscribeRecv>
    /** Track alias -> request id. */
    var aliases: map<nat, nat>
    /** Control messages waiting to be sent. */
    var outgoing: seq<SubscriberMessage>
    /** Whether the outgoing queue still has a reader. */
    var outgoingOpen: bool
    /** The shared request-id counter. */
    var nextRequestId: nat

    /** The counter's first value, and how many ids it has given out. */
    ghost const firstRequestId: nat
    ghost var issued: nat

    /**
     * The counter is the `issued`-th id after the first, and every request id
     * in the subscription table or the alias map is one given out earlier.
     */
    ghost predicate Valid()
      reads this
    {
      && firstRequestId < U64Modulus
      && nextRequestId == RequestIdAfter(firstRequestId, issued)
      && (forall id :: id in subscribes ==> subscribes[id].id == id && IssuedEarlier(id))
      && (forall a :: a in aliases ==> IssuedEarlier(aliases[a]))
    }

    ghost predicate IssuedEarlier(id: nat)
      reads this
    {
      exists k: nat :: k < issued && id == RequestIdAfter(firstRequestId, k)
    }

    /** Every alias points at a subscription that records that alias. */
    ghost predicate AliasesConsistent()
      reads this
    {
      forall a :: a in aliases ==> aliases[a] in subscribes && subscribes[aliases[a]].alias == Some(a)
    }

    /** The tables a received publisher message can change. */
    function Tables(): SubscriberTables
      reads this
    {
      SubscriberTables(announced, announcedQueue, subscribes, aliases)
    }

    /** `Subscriber::new`: empty tables, open queues, the counter at `first`. */
    constructor (first: nat)
      requires first < U64Modulus
      ensures Valid() && AliasesConsistent()
      ensures firstRequestId == first && nextRequestId == first && issued == 0
      ensures announced == map[] && announcedQueue == [] && announcedQueueOpen
      ensures subscribes == map[] && aliases == map[] && outgoing == [] && outgoingOpen
    {
      announced := map[];
      announcedQueue := [];
      announcedQueueOpen := true;
      subscribes := map[];
      aliases := map[];
      outgoing := [];
      outgoingOpen := true;
      nextRequestId := first;
      firstRequestId := first;
      issued := 0;
    }

    /** Every request id in the tables has the parity of the first one. */
    lemma IssuedIdsShareParity(id: nat)
      requires Valid() && IssuedEarlier(id)
      ensures id % 2 == firstRequestId % 2
    {
      var k: nat :| k < issued && id == RequestIdAfter(firstRequestId, k);
      RequestIdParity(firstRequestId, k);
    }

    /** `get_next_request_id`: the current counter, which then advances by 2 (wrapping at 2^64). */
    method GetNextRequestId() returns (id: nat)
      requires Valid()
      modifies this`nextRequestId, this`issued
      ensures Valid()
      ensures id == old(nextRequestId) && id == RequestIdAfter(firstRequestId, old(issued))
      ensures nextRequestId == (old(nextRequestId) + 2) % U64Modulus && issued == old(issued) + 1
      ensures id % 2 == firstRequestId % 2
      ensures old(issued) < U64Modulus / 2 ==> !old(IssuedEarlier(id))
    {
      id := nextRequestId;
      RequestIdStep(firstRequestId, issued);
      RequestIdParity(firstRequestId, issued);
      nextRequestId := (nextRequestId + 2) % U64Modulus;
      issued := issued + 1;
      if old(issued) < U64Modulus / 2 {
        forall k: nat | k < old(issued) ensures id != RequestIdAfter(firstRequestId, k) {
          RequestIdsDistinct(firstRequestId, k, old(issued));
        }
      }
    }

    /**
     * `subscribe`: takes a fresh request id and records the subscription
     * under it.  Within 2^63 requests that id is not already in the table.
     */
    method Subscribe(namespace: TrackNamespace, name: Text) returns (id: nat)
      requires Valid()
      modifies this`nextRequestId, this`issued, this`subscribes
      ensures Valid()
      ensures id == old(nextRequestId) && nextRequestId == (old(nextRequestId) + 2) % U64Modulus
      ensures subscribes == old(subscribes)[id := SubscribeRecv(id, namespace, name, None)]
      ensures old(issued) < U64Modulus / 2 ==> id !in old(subscribes)
      ensures old(issued) < U64Modulus / 2 && old(AliasesConsistent()) ==> AliasesConsistent()
    {
      id := GetNextRequestId();
      subscribes := subscribes[id := SubscribeRecv(id, namespace, name, None)];
      assert IssuedEarlier(id) by {
        assert id == RequestIdAfter(firstRequestId, issued - 1);
      }
    }

    /** `track_status`: sends a TRACK_STATUS request with a fresh request id. */
    method TrackStatus(namespace: TrackNamespace, name: Text)
      requires Valid()
      modifies this`nextRequestId, this`issued, this`announced, this`outgoing
      ensures Valid()
      ensures nextRequestId == (old(nextRequestId) + 2) % U64Modulus
      ensures announced == old(announced)
      ensures outgoing == if outgoingOpen
        then old(outgoing) + [SubscriberMessage.TrackStatus(old(nextRequestId), namespace, name, DefaultPriority, true)]
        else old(outgoing)
    {
      var id := GetNextRequestId();
      SendMessage(SubscriberMessage.TrackStatus(id, namespace, name, DefaultPriority, true));
    }

    /**
     * `send_message`: a PUBLISH_NAMESPACE_CANCEL first drops the namespace
     * from the announce table; the message is then queued, and silently lost
     * if the queue is closed.
     */
    method SendMessage(msg: SubscriberMessage)
      modifies this`announced, this`outgoing
      ensures announced == if msg.PublishNamespaceCancel? then old(announced) - {msg.namespace} else old(announced)
      ensures outgoing == if outgoingOpen then old(outgoing) + [msg] else old(outgoing)
    {
      if msg.PublishNamespaceCancel? {
        DropPublishNamespace(msg.namespace);
      }
      if outgoingOpen {
        outgoing := outgoing + [msg];
      }
    }

    /** `drop_publish_namespace`. */
    method DropPublishNamespace(namespace: TrackNamespace)
      modifies this`announced
      ensures announced == old(announced) - {namespace}
    {
      announced := announced - {namespace};
    }

    /**
     * PUBLISH_NAMESPACE: a namespace already announced is a `Duplicate`; when
     * the announce queue refuses it, it is closed with `Cancel` and the
     * namespace is not recorded; otherwise it is queued and recorded.
     */
    method RecvPublishNamespace(id: nat, namespace: TrackNamespace, closeOutcome: Option<ServeError>)
      returns (r: Result<(), SessionError>)
      modifies this`announced, this`announcedQueue
      ensures namespace in old(announced) ==>
        r == Failure(SessionError.Duplicate) && announced == old(announced) && announcedQueue == old(announcedQueue)
      ensures namespace !in old(announced) && !announcedQueueOpen ==>
        r == ServeStatus(closeOutcome) && announced == old(announced) && announcedQueue == old(announcedQueue)
      ensures namespace !in old(announced) && announcedQueueOpen ==>
        r == Success(()) && announced == old(announced)[namespace := id] && announcedQueue == old(announcedQueue) + [namespace]
    {
      if namespace in announced {
        return Failure(SessionError.Duplicate);
      }
      if !announcedQueueOpen {
        return ServeStatus(closeOutcome);
      }
      announcedQueue := announcedQueue + [namespace];
      announced := announced[namespace := id];
      return Success(());
    }

    /** PUBLISH_NAMESPACE_DONE: drops the namespace if present and tells its receiver. */
    method RecvPublishNamespaceDone(namespace: TrackNamespace, unannounceOutcome: Option<ServeError>)
      returns (r: Result<(), SessionError>)
      modifies this`announced
      ensures announced == old(announced) - {namespace}
      ensures r == if namespace in old(announced) then ServeStatus(unannounceOutcome) else Success(())
    {
      if namespace in announced {
        announced := announced - {namespace};
        return ServeStatus(unannounceOutcome);
      }
      return Success(());
    }

    /**
     * SUBSCRIBE_OK: for a known request id, binds the alias to it and tells
     * the subscription (which records the alias when that succeeds); an
     * unknown id changes nothing.
     */
    method RecvSubscribeOk(id: nat, trackAlias: nat, okOutcome: Option<ServeError>)
      returns (r: Result<(), SessionError>)
      requires Valid()
      modifies this`aliases, this`subscribes
      ensures Valid()
      ensures id !in old(subscribes) ==>
        r == Success(()) && aliases == old(aliases) && subscribes == old(subscribes)
      ensures id in old(subscribes) ==>
        && r == ServeStatus(okOutcome)
        && aliases == old(aliases)[trackAlias := id]
        && subscribes == if okOutcome.None?
             then old(subscribes)[id := old(subscribes)[id].(alias := Some(trackAlias))]
             else old(subscribes)
      ensures old(AliasesConsistent()) && okOutcome.None?
              && (trackAlias in old(aliases) ==> old(aliases)[trackAlias] == id)
              && (id in old(subscribes) ==> old(subscribes)[id].alias in {None, Some(trackAlias)})
              ==> AliasesConsistent()
    {
      if id in subscribes {
        aliases := aliases[trackAlias := id];
        if okOutcome.None? {
          subscribes := subscribes[id := subscribes[id].(alias := Some(trackAlias))];
        }
        return ServeStatus(okOutcome);
      }
      return Success(());
    }

    /** `remove_subscribe`: removes the subscription and, if it recorded an alias, that alias. */
    method RemoveSubscribe(id: nat) returns (removed: Option<SubscribeRecv>)
      requires Valid()
      modifies this`subscribes, this`aliases
      ensures Valid()
      ensures id !in old(subscribes) ==>
        removed == None && subscribes == old(subscribes) && aliases == old(aliases)
      ensures id in old(subscribes) ==>
        && removed == Some(old(subscribes)[id])
        && subscribes == old(subscribes) - {id}
        && aliases == match old(subscribes)[id].alias
             case None => old(aliases)
             case Some(a) => old(aliases) - {a}
      ensures old(AliasesConsistent()) ==> AliasesConsistent()
    {
      if id in subscribes {
        var subscribe := subscribes[id];
        subscribes := subscribes - {id};
        if subscribe.alias.Some? {
          aliases := aliases - {subscribe.alias.value};
        }
        return Some(subscribe);
      }
      return None;
    }

    /**
     * SUBSCRIBE_ERROR: removes the subscription and closes it with
     * `Closed(errorCode)`, reported in `closedWith`; `errorOutcome` is the
     * outcome of that close.
     */
    method RecvSubscribeError(id: nat, errorCode: nat, errorOutcome: Option<ServeError>)
      returns (r: Result<(), SessionError>, closedWith: Option<ServeError>)
      requires Valid()
      modifies this`subscribes, this`aliases
      ensures Valid()
      ensures r == if id in old(subscribes) then ServeStatus(errorOutcome) else Success(())
      ensures closedWith == if id in old(subscribes) then Some(Closed(errorCode)) else None
      ensures subscribes == old(subscribes) - {id}
      ensures id in old(subscribes) && old(subscribes)[id].alias.Some?
              ==> aliases == old(aliases) - {old(subscribes)[id].alias.value}
      ensures !(id in old(subscribes) && old(subscribes)[id].alias.Some?) ==> aliases == old(aliases)
      ensures old(AliasesConsistent()) ==> AliasesConsistent()
    {
      var removed := RemoveSubscribe(id);
      r := if removed.Some? then ServeStatus(errorOutcome) else Success(());
      closedWith := if removed.Some? then Some(Closed(errorCode)) else None;
    }

    /**
     * PUBLISH_DONE: like SUBSCRIBE_ERROR, closing the subscription with
     * `Closed(statusCode)`.
     */
    method RecvPublishDone(id: nat, statusCode: nat, errorOutcome: Option<ServeError>)
      returns (r: Result<(), SessionError>, closedWith: Option<ServeError>)
      requires Valid()
      modifies this`subscribes, this`aliases
      ensures Valid()
      ensures r == if id in old(subscribes) then ServeStatus(errorOutcome) else Success(())
      ensures closedWith == if id in old(subscribes) then Some(Closed(statusCode)) else None
      ensures subscribes == old(subscribes) - {id}
      ensures id in old(subscribes) && old(subscribes)[id].alias.Some?
              ==> aliases == old(aliases) - {old(subscribes)[id].alias.value}
      ensures !(id in old(subscribes) && old(subscribes)[id].alias.Some?) ==> aliases == old(aliases)
      ensures old(AliasesConsistent()) ==> AliasesConsistent()
    {
      var removed := RemoveSubscribe(id);
      r := if removed.Some? then ServeStatus(errorOutcome) else Success(());
      closedWith := if removed.Some? then Some(Closed(statusCode)) else None;
    }

    /**
     * `recv_message`: dispatches a publisher message to its handler.  Six
     * kinds are unimplemented; a serve-layer failure of a handler is not an
     * error of the session.
     */
    method RecvMessage(msg: PublisherMessage, outcome: Option<ServeError>)
      returns (r: Result<(), SessionError>)
      requires Valid()
      modifies this`announced, this`announcedQueue, this`subscribes, this`aliases
      ensures Valid()
      ensures r.Failure? ==> r.error == SessionError.Duplicate || r.error.Unimplemented?
      ensures r == Failure(SessionError.Duplicate) <==> msg.PublishNamespace? && msg.namespace in old(announced)
      ensures UnimplementedName(msg).Some? <==> r.Failure? && r.error.Unimplemented?
      ensures UnimplementedName(msg).Some? ==>
        r == Failure(Unimplemented(UnimplementedName(msg).value))
      ensures !msg.PublishNamespace? && !msg.PublishNamespaceDone? ==>
        announced == old(announced) && announcedQueue == old(announcedQueue)
      ensures !msg.SubscribeOk? && !msg.SubscribeError? && !msg.PublishDone? ==>
        subscribes == old(subscribes) && aliases == old(aliases)
      ensures msg.PublishNamespace? && msg.namespace !in old(announced) && announcedQueueOpen ==>
        announced == old(announced)[msg.namespace := msg.id] && announcedQueue == old(announcedQueue) + [msg.namespace]
      ensures msg.PublishNamespace? && (msg.namespace in old(announced) || !announcedQueueOpen) ==>
        announced == old(announced) && announcedQueue == old(announcedQueue)
      ensures msg.PublishNamespaceDone? ==>
        announced == old(announced) - {msg.namespace} && announcedQueue == old(announcedQueue)
      ensures msg.SubscribeOk? && msg.id in old(subscribes) ==> aliases == old(aliases)[msg.trackAlias := msg.id]
      ensures msg.SubscribeOk? && msg.id !in old(subscribes) ==>
        aliases == old(aliases) && subscribes == old(subscribes)
      ensures msg.SubscribeError? || msg.PublishDone? ==> subscribes == old(subscribes) - {msg.id}
      ensures (r, Tables()) == RecvStep(old(Tables()), announcedQueueOpen, msg, outcome)
    {
      match msg {
        case PublishNamespace(id, namespace) =>
          r := RecvPublishNamespace(id, namespace, outcome);
        case PublishNamespaceDone(namespace) =>
          r := RecvPublishNamespaceDone(namespace, outcome);
        case PublishDone(id, statusCode) =>
          var closedWith;
          r, closedWith := RecvPublishDone(id, statusCode, outcome);
        case SubscribeOk(id, trackAlias) =>
          r := RecvSubscribeOk(id, trackAlias, outcome);
        case SubscribeError(id, errorCode) =>
          var closedWith;
          r, closedWith := RecvSubscribeError(id, errorCode, outcome);
        case TrackStatusOk(_) =>
          // `recv_track_status_ok` does nothing yet.
          r := Success(());
        case _ =>
          r := Failure(Unimplemented(UnimplementedName(msg).value));
      }
      if r.Failure? && r.error.Serve? {
        r := Success(());
      }
    }

    /** `get_subscribe_id_by_alias` without a timeout: a single look at the alias map. */
    function SubscribeIdByAlias(trackAlias: nat): (r: Option<nat>)
      reads this
      ensures r.Some? <==> trackAlias in aliases
      ensures r.Some? ==> aliases[trackAlias] == r.value
      ensures Valid() && r.Some? ==> IssuedEarlier(r.value)
    {
      if trackAlias in aliases then Some(aliases[trackAlias]) else None
    }

    /**
     * `recv_datagram`: a datagram whose alias names a live subscription is
     * handed to it; one with an unknown alias is discarded without error.
     */
    method RecvDatagram(trackAlias: nat, datagramOutcome: Option<ServeError>) returns (r: Result<(), SessionError>)
      ensures r == if trackAlias in aliases && aliases[trackAlias] in subscribes
        then ServeStatus(datagramOutcome) else Success(())
      ensures trackAlias !in aliases ==> r == Success(())
    {
      var id := SubscribeIdByAlias(trackAlias);
      if id.Some? {
        if id.value in subscribes {
          return ServeStatus(datagramOutcome);
        }
      }
      return Success(());
    }

    /**
     * The payload loop of `recv_subgroup`: reads chunks until the object's
     * `payload_length` bytes have arrived; `complete` is false when the
     * stream ends first.
     */
    static method ReadPayload(obj: SubgroupObject) returns (data: Text, complete: bool)
      ensures complete == Complete(obj) && data == Received(obj)
    {
      var remainingBytes: nat := obj.payloadLength;
      data := [];
      while remainingBytes > 0
        invariant |data| + remainingBytes == obj.payloadLength
        invariant |data| <= |obj.payload| && data == obj.payload[..|data|]
      {
        if |data| == |obj.payload| {
          assert obj.payload[..|data|] == obj.payload;
          return data, false;
        }
        // `read_chunk(remaining_bytes)` gives between one and `remaining_bytes` bytes.
        var n: nat :| 1 <= n <= remainingBytes && |data| + n <= |obj.payload|;
        data := data + obj.payload[|data|..|data| + n];
        remainingBytes := remainingBytes - n;
      }
      return data, true;
    }

    /**
     * `recv_subgroup`: for each object, adds its delta to the current object
     * id, creates an object of the announced size and copies exactly that
     * many bytes to it in chunks; a stream that ends inside an object fails
     * with `WrongSize`.  `objectIds` are the current ids in turn.
     */
    static method RecvSubgroup(objects: seq<SubgroupObject>)
      returns (r: Result<(), SessionError>, written: seq<ObjectWrite>, objectIds: seq<nat>)
      ensures r.Success? <==> FirstIncomplete(objects).None?
      ensures r.Failure? ==> r.error == WrongSize
      ensures |written| == |objectIds| == Started(objects)
      ensures forall j :: 0 <= j < |written| ==>
        objectIds[j] == ObjectId(objects, j)
        && written[j] == ObjectWrite(objects[j].payloadLength, Received(objects[j]))
    {
      var currentObjectId := 0;
      var objectCount := 0;
      r, written, objectIds := Success(()), [], [];
      while objectCount < |objects|
        invariant objectCount <= |objects|
        invariant currentObjectId == DeltaSum(objects[..objectCount])
        invariant forall j :: 0 <= j < objectCount ==> Complete(objects[j])
        invariant |written| == objectCount && Recorded(objects, written, objectIds)
        invariant r.Success?
      {
        var obj := objects[objectCount];
        ObjectIdStep(objects, objectCount);
        currentObjectId := currentObjectId + obj.idDelta;
        var data, complete := ReadPayload(obj);
        RecordedSnoc(objects, written, objectIds);
        objectIds := objectIds + [currentObjectId];
        written := written + [ObjectWrite(obj.payloadLength, data)];
        if !complete {
          // The stream ended with bytes of this object still to come.
          r := Failure(WrongSize);
          break;
        }
        objectCount := objectCount + 1;
      }
      if r.Success? {
        StartedAllComplete(objects);
      } else {
        StartedAtIncomplete(objects, objectCount);
      }
    }
  }
}
