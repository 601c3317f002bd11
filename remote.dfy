/**
 * The relay's caches of remote origins: one `Remote` per origin URL, and
 * per remote one track per (namespace, name), each with a FIFO queue of
 * requests waiting to be served.
 *
 * A `State` shared by a producer and its consumers is modelled as the
 * object's fields plus an `open` flag: while it is set, `into_mut` and
 * `lock_mut` succeed and `modified` can wait; once cleared, they give
 * `None`.  A track reader's reference count is modelled as the `alive`
 * flag of its table entry.
 */
module Remotes {
  import opened Wrappers
  import opened Text
  import opened TrackNamespaces
  import opened Coordinators

  /** The key of a track: its namespace and name. */
  datatype TrackKey = TrackKey(namespace: TrackNamespace, name: Text)

  /**
   * `RemoteTrackWeak`: the track's reader (an identity) and whether its drop
   * guard still exists, that is, whether `upgrade` can succeed.
   */
  datatype TrackEntry = TrackEntry(reader: nat, alive: bool)

  /** A `TrackWriter` waiting to be served: the track it writes. */
  datatype TrackWriter = TrackWriter(key: TrackKey, track: nat)

  /** What a polling `next` gives: a value, or "wait for the state to change". */
  datatype Poll<T> = Ready(value: T) | Pending

  /** `RemoteState` together with the `Remote` it belongs to. */
  class Remote {
    /** The origin this remote fetches from. */
    const url: Url
    /** The QUIC client the lookup handed back, if any. */
    const client: Option<QuicClient>

    var tracks: map<TrackKey, TrackEntry>
    var requested: seq<TrackWriter>
    var open: bool
    /** How many tracks `subscribe` has created; the next one gets this identity. */
    var tracksCreated: nat

    /**
     * Identities are below the counter, pending writers write distinct
     * tracks, and while the state is open every entry is alive (a dropped
     * guard removes its entry).
     */
    ghost predicate Valid()
      reads this
    {
      && (forall k :: k in tracks ==> tracks[k].reader < tracksCreated)
      && (forall i :: 0 <= i < |requested| ==> requested[i].track < tracksCreated)
      && (forall i, j :: 0 <= i < j < |requested| ==> requested[i].track != requested[j].track)
      && (open ==> forall k :: k in tracks ==> tracks[k].alive)
    }

    /** For each live track, at most one pending writer writes it. */
    ghost predicate OnePendingPerLiveTrack()
      reads this
    {
      forall k, i, j ::
        (&& k in tracks && tracks[k].alive && 0 <= i < |requested| && 0 <= j < |requested|
         && requested[i].track == tracks[k].reader && requested[j].track == tracks[k].reader)
        ==> i == j
    }

    lemma PendingUnique()
      requires Valid()
      ensures OnePendingPerLiveTrack()
    {
    }

    /** `Remote::produce`: empty tables, open state. */
    constructor (url: Url, client: Option<QuicClient>)
      ensures this.url == url && this.client == client
      ensures tracks == map[] && requested == [] && open && tracksCreated == 0
      ensures Valid()
    {
      this.url := url;
      this.client := client;
      tracks := map[];
      requested := [];
      open := true;
      tracksCreated := 0;
    }

    /** `RemoteTrackWeak::upgrade`: succeeds exactly while the guard is alive. */
    function Upgrade(key: TrackKey): (r: Option<nat>)
      reads this
      ensures r.Some? <==> key in tracks && tracks[key].alive
      ensures r.Some? ==> r.value == tracks[key].reader
    {
      if key in tracks && tracks[key].alive then Some(tracks[key].reader) else None
    }

    /**
     * `RemoteConsumer::subscribe`: a live track for the key is shared and
     * nothing is queued; otherwise, while the state is open, a new track is
     * recorded under the key and exactly one writer for it is queued; a
     * closed state gives no track and changes nothing.
     */
    method Subscribe(namespace: TrackNamespace, name: Text) returns (r: Option<nat>)
      requires Valid()
      modifies this`tracks, this`requested, this`tracksCreated
      ensures Valid()
      ensures var key := TrackKey(namespace, name);
        if old(Upgrade(key)).Some? then
          && r == old(Upgrade(key))
          && tracks == old(tracks) && requested == old(requested) && tracksCreated == old(tracksCreated)
        else if !open then
          && r.None?
          && tracks == old(tracks) && requested == old(requested) && tracksCreated == old(tracksCreated)
        else
          && r == Some(old(tracksCreated))
          && tracks == old(tracks)[key := TrackEntry(old(tracksCreated), true)]
          && requested == old(requested) + [TrackWriter(key, old(tracksCreated))]
          && tracksCreated == old(tracksCreated) + 1
      ensures r.Some? ==> Upgrade(TrackKey(namespace, name)) == r
    {
      var key := TrackKey(namespace, name);
      if key in tracks {
        var track := Upgrade(key);
        if track.Some? {
          return track;
        }
      }
      if !open {
        return None;
      }
      var reader := tracksCreated;
      tracksCreated := tracksCreated + 1;
      tracks := tracks[key := TrackEntry(reader, true)];
      requested := requested + [TrackWriter(key, reader)];
      return Some(reader);
    }

    /**
     * `RemoteProducer::next`: the oldest pending writer, if the state is
     * open; `None` once it is closed; otherwise wait.
     */
    method Next() returns (r: Poll<Option<TrackWriter>>)
      requires Valid()
      modifies this`requested
      ensures Valid()
      ensures |old(requested)| > 0 && open ==> r == Ready(Some(old(requested)[0])) && requested == old(requested)[1..]
      ensures |old(requested)| > 0 && !open ==> r == Ready(None) && requested == old(requested)
      ensures |old(requested)| == 0 ==> requested == old(requested) && r == if open then Pending else Ready(None)
    {
      if |requested| > 0 {
        if !open {
          return Ready(None);
        }
        var writer := requested[0];
        requested := requested[1..];
        return Ready(Some(writer));
      }
      if !open {
        return Ready(None);
      }
      return Pending;
    }

    /**
     * `RemoteTrackDrop::drop`, when the last reader of a live track goes:
     * an open state loses exactly that key; a closed one keeps it, but the
     * entry can no longer be upgraded.
     */
    method DropTrackGuard(key: TrackKey)
      requires Valid()
      requires key in tracks && tracks[key].alive
      modifies this`tracks
      ensures Valid()
      ensures open ==> tracks == old(tracks) - {key}
      ensures !open ==> tracks == old(tracks)[key := old(tracks)[key].(alive := false)]
      ensures Upgrade(key).None?
    {
      if open {
        tracks := tracks - {key};
      } else {
        tracks := tracks[key := tracks[key].(alive := false)];
      }
    }

    /** The other side of the state is gone: it can no longer be written. */
    method Close()
      modifies this`open
      ensures !open
    {
      open := false;
    }
  }

  /** `RemotesState`: the remote for each origin URL and the remotes waiting to be served. */
  class RemotesState {
    var lookup: map<Url, Remote>
    var requested: seq<Remote>
    var open: bool

    /** Every remote is filed under its own URL. */
    ghost predicate Valid()
      reads this
    {
      forall u :: u in lookup ==> lookup[u].url == u
    }

    /** `Remotes::produce`: empty tables, open state. */
    constructor ()
      ensures lookup == map[] && requested == [] && open
      ensures Valid()
    {
      lookup := map[];
      requested := [];
      open := true;
    }

    /**
     * `RemotesConsumer::route`, given what the coordinator's lookup gave: a
     * lookup error is passed on; a URL already cached gives its remote and
     * queues nothing; a closed state gives `None`; otherwise a new remote for
     * the URL is cached and queued, exactly once, at the back.
     */
    method Route(found: CoordinatorResult<(NamespaceOrigin, Option<QuicClient>)>)
      returns (r: CoordinatorResult<Option<Remote>>)
      requires Valid()
      modifies this`lookup, this`requested
      ensures Valid()
      ensures found.Failure? ==> r == Failure(found.error) && lookup == old(lookup) && requested == old(requested)
      ensures found.Success? && found.value.0.url in old(lookup) ==>
        r == Success(Some(old(lookup)[found.value.0.url])) && lookup == old(lookup) && requested == old(requested)
      ensures found.Success? && found.value.0.url !in old(lookup) && !open ==>
        r == Success(None) && lookup == old(lookup) && requested == old(requested)
      ensures found.Success? && found.value.0.url !in old(lookup) && open ==>
        && r.Success? && r.value.Some?
        && var remote := r.value.value;
        && fresh(remote)
        && remote.url == found.value.0.url && remote.client == found.value.1
        && remote.tracks == map[] && remote.requested == [] && remote.open
        && lookup == old(lookup)[remote.url := remote]
        && requested == old(requested) + [remote]
    {
      if found.Failure? {
        return Failure(found.error);
      }
      var (origin, client) := found.value;
      if origin.url in lookup {
        return Success(Some(lookup[origin.url]));
      }
      if !open {
        return Success(None);
      }
      var remote := new Remote(origin.url, client);
      requested := requested + [remote];
      lookup := lookup[origin.url := remote];
      return Success(Some(remote));
    }

    /**
     * `RemotesProducer::next`: the oldest remote waiting to be served, if the
     * state is open; `None` once it is closed; otherwise wait.
     */
    method Next() returns (r: Poll<Option<Remote>>)
      modifies this`requested
      ensures |old(requested)| > 0 && open ==> r == Ready(Some(old(requested)[0])) && requested == old(requested)[1..]
      ensures |old(requested)| > 0 && !open ==> r == Ready(None) && requested == old(requested)
      ensures |old(requested)| == 0 ==> requested == old(requested) && r == if open then Pending else Ready(None)
    {
      if |requested| > 0 {
        if !open {
          return Ready(None);
        }
        var remote := requested[0];
        requested := requested[1..];
        return Ready(Some(remote));
      }
      if !open {
        return Ready(None);
      }
      return Pending;
    }

    /** A served remote finished: its URL leaves the cache, if the state is still open, and nothing else changes. */
    method Finished(url: Url)
      requires Valid()
      modifies this`lookup
      ensures Valid()
      ensures lookup == if open then old(lookup) - {url} else old(lookup)
    {
      if open {
        lookup := lookup - {url};
      }
    }

    /** The consumers are gone: the state can no longer be written. */
    method Close()
      modifies this`open
      ensures !open
    {
      open := false;
    }
  }
}
