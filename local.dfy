/**
 * The relay's registry of locally published namespaces (`Locals`), looked
 * up by the longest registered prefix of a requested namespace.
 */
module LocalTracks {
  import opened Wrappers
  import opened Text
  import opened TrackNamespaces
  import opened Messages

  /** A `TracksReader`: the namespace it serves and an identity for the reader. */
  datatype TracksReader = TracksReader(namespace: TrackNamespace, reader: nat)

  /** A `Registration` guard: dropping it unregisters its namespace. */
  datatype Registration = Registration(namespace: TrackNamespace)

  /** The test `retrieve` applies to a registered namespace: not longer than the query, and agreeing field by field. */
  predicate Matches(registered: TrackNamespace, query: TrackNamespace)
  {
    |query.fields| >= |registered.fields| && ZipAgree(registered.fields, query.fields)
  }

  /** `Matches` is exactly "is a field-wise prefix of". */
  lemma MatchesIsPrefix(registered: TrackNamespace, query: TrackNamespace)
    ensures Matches(registered, query) <==> IsPrefix(registered.fields, query.fields)
  {
  }

  /** Two registered namespaces of the same length that both match a query are the same namespace. */
  lemma MatchesSameLengthEqual(k1: TrackNamespace, k2: TrackNamespace, query: TrackNamespace)
    requires Matches(k1, query) && Matches(k2, query) && |k1.fields| == |k2.fields|
    ensures k1 == k2
  {
    assert k1.fields == k2.fields by {
      forall i | 0 <= i < |k1.fields| ensures k1.fields[i] == k2.fields[i] {
        assert k1.fields[i] == query.fields[i];
      }
    }
  }

  /** The longest non-empty match in `lookup`, which `retrieve` returns. */
  predicate BestMatch(lookup: map<TrackNamespace, TracksReader>, query: TrackNamespace, k: TrackNamespace)
  {
    && k in lookup && Matches(k, query) && |k.fields| > 0
    && forall k' :: k' in lookup && Matches(k', query) ==> |k'.fields| <= |k.fields|
  }

  /** There is at most one best match, whatever order the map is walked in. */
  lemma BestMatchUnique(lookup: map<TrackNamespace, TracksReader>, query: TrackNamespace, k1: TrackNamespace, k2: TrackNamespace)
    requires BestMatch(lookup, query, k1) && BestMatch(lookup, query, k2)
    ensures k1 == k2
  {
    MatchesSameLengthEqual(k1, k2, query);
  }

  /** Matching is by whole fields: `a` is a prefix of `a/b` and of `a`, but not of `ab`. */
  lemma WholeFieldMatching()
    ensures Matches(TrackNamespace([FieldA]), TrackNamespace([FieldA, FieldTest]))
    ensures Matches(TrackNamespace([FieldA]), TrackNamespace([FieldA]))
    ensures !Matches(TrackNamespace([FieldA]), TrackNamespace([FieldA + FieldA]))
  {
    assert TrackNamespace([FieldA + FieldA]).fields[0] != FieldA by {
      assert |FieldA + FieldA| == 2;
    }
  }

  class Locals {
    /** Namespace -> the tracks served under it. */
    var lookup: map<TrackNamespace, TracksReader>

    /** Every entry is filed under its reader's own namespace. */
    ghost predicate Valid()
      reads this
    {
      forall ns :: ns in lookup ==> lookup[ns].namespace == ns
    }

    /** `Locals::new`. */
    constructor ()
      ensures Valid() && lookup == map[]
    {
      lookup := map[];
    }

    /** `register`: a namespace not yet present is inserted; one already present is a `Duplicate`. */
    method Register(tracks: TracksReader) returns (r: Result<Registration, ServeError>)
      requires Valid()
      modifies this
      ensures Valid()
      ensures tracks.namespace in old(lookup) ==> r == Failure(ServeError.Duplicate) && lookup == old(lookup)
      ensures tracks.namespace !in old(lookup) ==>
        r == Success(Registration(tracks.namespace)) && lookup == old(lookup)[tracks.namespace := tracks]
    {
      var namespace := tracks.namespace;
      if namespace in lookup {
        return Failure(ServeError.Duplicate);
      }
      lookup := lookup[namespace := tracks];
      return Success(Registration(namespace));
    }

    /**
     * `retrieve`: the tracks of the registered namespace that is the longest
     * field-wise prefix of the query; a registration with no fields never
     * wins, and one longer than the query is never considered.
     */
    method Retrieve(namespace: TrackNamespace) returns (r: Option<TracksReader>)
      ensures r.Some? ==> exists k :: BestMatch(lookup, namespace, k) && r.value == lookup[k]
      ensures r.None? <==> forall k :: k in lookup && Matches(k, namespace) ==> |k.fields| == 0
    {
      var bestMatch: Option<TracksReader> := None;
      var bestLen := 0;
      ghost var bestKey: TrackNamespace := namespace;
      var remaining := lookup.Keys;
      while remaining != {}
        invariant remaining <= lookup.Keys
        invariant bestMatch.None? <==> bestLen == 0
        invariant bestMatch.Some? ==>
          && bestKey in lookup && Matches(bestKey, namespace) && |bestKey.fields| == bestLen
          && bestMatch.value == lookup[bestKey]
        invariant forall k :: k in lookup && k !in remaining && Matches(k, namespace) ==> |k.fields| <= bestLen
        decreases |remaining|
      {
        var registered :| registered in remaining;
        if |namespace.fields| >= |registered.fields| {
          var isPrefix := ZipAgree(registered.fields, namespace.fields);
          if isPrefix && |registered.fields| > bestLen {
            bestMatch := Some(lookup[registered]);
            bestLen := |registered.fields|;
            bestKey := registered;
          }
        }
        remaining := remaining - {registered};
      }
      return bestMatch;
    }

    /** Dropping a `Registration` removes exactly its namespace. */
    method DropRegistration(registration: Registration)
      requires Valid()
      modifies this
      ensures Valid()
      ensures lookup == old(lookup) - {registration.namespace}
    {
      lookup := lookup - {registration.namespace};
    }
  }
}
