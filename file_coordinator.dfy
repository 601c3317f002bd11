/**
 * The file-backed coordinator: relays share one coordination file mapping
 * each registered namespace's path (its `to_utf8_path`) to the URL of the
 * relay that serves it.  The file's content is the object's state; file
 * locking, JSON and the blocking-task plumbing are not part of this model.
 */
module FileCoordinators {
  import opened Wrappers
  import opened Text
  import opened TrackNamespaces
  import opened Coordinators

  /** `CoordinatorData`: namespace path -> relay URL. */
  datatype CoordinatorData = CoordinatorData(namespaces: map<Text, Text>)

  /** What the coordination file holds: nothing yet, well-formed data, or something that does not parse. */
  datatype FileContents = Empty | Json(data: CoordinatorData) | Malformed

  /** The error `read_data` reports for a file it cannot parse. */
  const ParseFailure: string := "failed to parse coordinator data"

  /** `read_data`: an empty file reads as no registrations. */
  function ReadData(file: FileContents): (r: Result<CoordinatorData, CoordinatorError>)
    ensures file.Empty? ==> r == Success(CoordinatorData(map[]))
    ensures file.Json? ==> r == Success(file.data)
    ensures file.Malformed? ==> r == Failure(Other(ParseFailure))
  {
    match file
    case Empty => Success(CoordinatorData(map[]))
    case Json(data) => Success(data)
    case Malformed => Failure(Other(ParseFailure))
  }

  /** `namespace_key`: a namespace is filed under its path. */
  function NamespaceKey(namespace: TrackNamespace): Text
  {
    PathOf(namespace.fields)
  }

  /** `NamespaceUnregisterHandle`: dropping it unregisters its namespace. */
  datatype UnregisterHandle = UnregisterHandle(namespace: TrackNamespace)

  /**
   * The prefix test of `lookup`: the `/`-pieces of the registered key and
   * of the queried key agree along the shorter of the two.
   */
  predicate Candidate(registered: Text, key: Text)
  {
    ZipAgree(Split(registered), Split(key))
  }

  /** A candidate whose key is at least as long, as a string, as every other candidate's. */
  predicate LongestCandidate(namespaces: map<Text, Text>, key: Text, k: Text)
  {
    && k in namespaces && Candidate(k, key)
    && forall k' :: k' in namespaces && Candidate(k', key) ==> |k'| <= |k|
  }

  /**
   * What `lookup` may answer, given what reading the file gave: the exact
   * key's URL with the queried namespace; otherwise one of the longest
   * candidates, with the namespace rebuilt from its key by
   * `from_utf8_path`; otherwise `NamespaceNotFound`.
   */
  ghost predicate LookupOutcome(read: Result<CoordinatorData, CoordinatorError>, namespace: TrackNamespace,
                                r: CoordinatorResult<(NamespaceOrigin, Option<QuicClient>)>)
  {
    match read
    case Failure(e) => r == Failure(e)
    case Success(data) =>
      var key := NamespaceKey(namespace);
      if key in data.namespaces then
        r == Success((NewOrigin(namespace, data.namespaces[key]), None))
      else if exists k :: k in data.namespaces && Candidate(k, key) then
        exists k :: LongestCandidate(data.namespaces, key, k)
          && r == Success((NewOrigin(TrackNamespace(Split(k)), data.namespaces[k]), None))
      else
        r == Failure(NamespaceNotFound)
  }

  /** A leading agreeing piece does not change whether the rest agree. */
  lemma ZipAgreeCons(x: Text, a: seq<Text>, b: seq<Text>)
    ensures ZipAgree([x] + a, [x] + b) <==> ZipAgree(a, b)
  {
    if ZipAgree([x] + a, [x] + b) {
      forall i | 0 <= i < |a| && i < |b| ensures a[i] == b[i] {
        assert ([x] + a)[i + 1] == a[i] && ([x] + b)[i + 1] == b[i];
      }
    }
  }

  /**
   * For namespaces whose fields hold no `/`, a registration is a candidate
   * for a query exactly when one of the two is a field-wise prefix of the
   * other: a registration that extends the query counts, too.
   */
  lemma CandidateIsPrefixEitherWay(registered: TrackNamespace, query: TrackNamespace)
    requires NoSeparators(registered.fields) && NoSeparators(query.fields)
    ensures Candidate(NamespaceKey(registered), NamespaceKey(query))
        <==> IsPrefix(registered.fields, query.fields) || IsPrefix(query.fields, registered.fields)
  {
    SplitPathOf(registered.fields);
    SplitPathOf(query.fields);
    ZipAgreeCons([], registered.fields, query.fields);
    ZipAgreeIsPrefixEitherWay(registered.fields, query.fields);
  }

  /** The empty namespace's key is a candidate for every query. */
  lemma EmptyNamespaceMatchesAll(query: TrackNamespace)
    requires NoSeparators(query.fields)
    ensures Candidate(NamespaceKey(TrackNamespace([])), NamespaceKey(query))
  {
    CandidateIsPrefixEitherWay(TrackNamespace([]), query);
  }

  class FileCoordinator {
    /** This relay's URL, which it registers its namespaces under. */
    const relayUrl: Text
    /** The shared coordination file. */
    var file: FileContents

    /** `FileCoordinator::new`. */
    constructor (relayUrl: Text, file: FileContents)
      ensures this.relayUrl == relayUrl && this.file == file
    {
      this.relayUrl := relayUrl;
      this.file := file;
    }

    /**
     * `register_namespace`: files the namespace under this relay, replacing
     * any other relay's claim and leaving every other key alone.
     */
    method Register(namespace: TrackNamespace) returns (r: CoordinatorResult<NamespaceRegistration<UnregisterHandle>>)
      modifies this`file
      ensures ReadData(old(file)).Failure? ==> r == Failure(ReadData(old(file)).error) && file == old(file)
      ensures ReadData(old(file)).Success? ==>
        && r == Success(NewRegistration(UnregisterHandle(namespace)))
        && file == Json(CoordinatorData(ReadData(old(file)).value.namespaces[NamespaceKey(namespace) := relayUrl]))
    {
      var data :- ReadData(file);
      var key := ToUtf8Path(namespace);
      file := Json(CoordinatorData(data.namespaces[key := relayUrl]));
      return Success(NewRegistration(UnregisterHandle(namespace)));
    }

    /** `unregister_namespace_sync`: removes the namespace's key and nothing else. */
    method UnregisterSync(namespace: TrackNamespace) returns (r: CoordinatorResult<()>)
      modifies this`file
      ensures ReadData(old(file)).Failure? ==> r == Failure(ReadData(old(file)).error) && file == old(file)
      ensures ReadData(old(file)).Success? ==>
        && r == Success(())
        && file == Json(CoordinatorData(ReadData(old(file)).value.namespaces - {NamespaceKey(namespace)}))
    {
      var data :- ReadData(file);
      var key := ToUtf8Path(namespace);
      file := Json(CoordinatorData(data.namespaces - {key}));
      return Success(());
    }

    /** `unregister_namespace`. */
    method Unregister(namespace: TrackNamespace) returns (r: CoordinatorResult<()>)
      modifies this`file
      ensures ReadData(old(file)).Failure? ==> r == Failure(ReadData(old(file)).error) && file == old(file)
      ensures ReadData(old(file)).Success? ==>
        && r == Success(())
        && file == Json(CoordinatorData(ReadData(old(file)).value.namespaces - {NamespaceKey(namespace)}))
    {
      r := UnregisterSync(namespace);
    }

    /** Dropping the handle unregisters its namespace; a failure is only logged. */
    method DropHandle(handle: UnregisterHandle)
      modifies this`file
      ensures ReadData(old(file)).Failure? ==> file == old(file)
      ensures ReadData(old(file)).Success? ==>
        file == Json(CoordinatorData(ReadData(old(file)).value.namespaces - {NamespaceKey(handle.namespace)}))
    {
      var _ := UnregisterSync(handle.namespace);
    }

    /**
     * `lookup`: the exact key first; otherwise the candidates in map order,
     * a later one replacing the current best only when its key is strictly
     * longer.  It only reads the file.
     */
    method Lookup(namespace: TrackNamespace) returns (r: CoordinatorResult<(NamespaceOrigin, Option<QuicClient>)>)
      ensures LookupOutcome(ReadData(file), namespace, r)
    {
      var read := ReadData(file);
      if read.Failure? {
        return Failure(read.error);
      }
      var data := read.value;
      var key := ToUtf8Path(namespace);
      if key in data.namespaces {
        return Success((NewOrigin(namespace, data.namespaces[key]), None));
      }
      var bestMatch: Option<Text> := None;
      var remaining := data.namespaces.Keys;
      while remaining != {}
        invariant remaining <= data.namespaces.Keys
        invariant bestMatch.Some? ==> bestMatch.value in data.namespaces && Candidate(bestMatch.value, key)
        invariant forall k :: k in data.namespaces && k !in remaining && Candidate(k, key) ==>
          bestMatch.Some? && |k| <= |bestMatch.value|
        decreases |remaining|
      {
        var registered :| registered in remaining;
        var isPrefix := ZipAgree(Split(registered), Split(key));
        if isPrefix && (bestMatch.None? || |bestMatch.value| < |registered|) {
          bestMatch := Some(registered);
        }
        remaining := remaining - {registered};
      }
      if bestMatch.Some? {
        var matched := FromUtf8Path(bestMatch.value);
        assert LongestCandidate(data.namespaces, key, bestMatch.value);
        return Success((NewOrigin(matched, data.namespaces[bestMatch.value]), None));
      }
      return Failure(NamespaceNotFound);
    }
  }

  /** After a successful `register`, looking the namespace up finds this relay. */
  lemma RegisterThenLookup(data: CoordinatorData, namespace: TrackNamespace, relayUrl: Text,
                           r: CoordinatorResult<(NamespaceOrigin, Option<QuicClient>)>)
    requires LookupOutcome(Success(CoordinatorData(data.namespaces[NamespaceKey(namespace) := relayUrl])), namespace, r)
    ensures r == Success((NewOrigin(namespace, relayUrl), None))
  {
  }

  /**
   * After `unregister`, a lookup of the same namespace can only succeed
   * through another registration whose key is a candidate.
   */
  lemma UnregisterThenLookup(data: CoordinatorData, namespace: TrackNamespace,
                             r: CoordinatorResult<(NamespaceOrigin, Option<QuicClient>)>)
    requires LookupOutcome(Success(CoordinatorData(data.namespaces - {NamespaceKey(namespace)})), namespace, r)
    ensures r.Success? ==> exists k :: k in data.namespaces && k != NamespaceKey(namespace) && Candidate(k, NamespaceKey(namespace))
    ensures r.Failure? <==> forall k :: k in data.namespaces && k != NamespaceKey(namespace) ==> !Candidate(k, NamespaceKey(namespace))
  {
  }
}
