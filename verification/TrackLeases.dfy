/**
 * Shared transcode tracks (core/transcode_manager.go). A track lives in a table as long as
 * somebody subscribes to it; a reset empties the table while old leases are still out.
 */
module TrackLeases {
  /** A target codec, and whether the track carries audio only. */
  datatype Key = Key(codec: nat, audioOnly: bool)

  class Track {
    var users: int
    var canceled: bool

    constructor ()
      ensures users == 1 && !canceled
    {
      users, canceled := 1, false;
    }
  }

  /** A release closure; it runs once. */
  class Lease {
    const key: Key
    const track: Track
    var released: bool

    constructor (key: Key, track: Track)
      ensures this.key == key && this.track == track && !released
    {
      this.key, this.track, released := key, track, false;
    }
  }

  ghost function On(leases: set<Lease>, t: Track): set<Lease> {
    set l | l in leases && l.track == t
  }

  lemma OnMore(leases: set<Lease>, l: Lease, t: Track)
    requires l !in leases
    ensures On(leases + {l}, t) == if l.track == t then On(leases, t) + {l} else On(leases, t)
    ensures |On(leases + {l}, t)| == |On(leases, t)| + if l.track == t then 1 else 0
  {
  }

  lemma OnLess(leases: set<Lease>, l: Lease, t: Track)
    requires l in leases
    ensures On(leases - {l}, t) == if l.track == t then On(leases, t) - {l} else On(leases, t)
    ensures |On(leases - {l}, t)| == |On(leases, t)| - if l.track == t then 1 else 0
  {
  }

  class Tracks {
    var tracks: map<Key, Track>
    /** Leases that were not given back yet. */
    ghost var open: set<Lease>

    /** The subscribers of a current track are exactly the open leases on it. */
    ghost predicate CountOk(k: Key)
      requires k in tracks
      reads this, tracks[k]
    {
      tracks[k].users == |On(open, tracks[k])| && tracks[k].users > 0 && !tracks[k].canceled
    }

    ghost predicate Valid()
      reads this, tracks.Values, open
    {
      && (forall k :: k in tracks ==> CountOk(k))
      && (forall k, j :: k in tracks && j in tracks && k != j ==> tracks[k] != tracks[j])
      && (forall k, l :: k in tracks && l in open && l.track == tracks[k] ==> l.key == k)
      && (forall l :: l in open ==> !l.released)
    }

    constructor ()
      ensures Valid() && tracks == map[] && open == {}
    {
      tracks, open := map[], {};
    }

    method Acquire(key: Key) returns (lease: Lease)
      requires Valid()
      modifies this, tracks.Values
      ensures Valid() && fresh(lease) && lease.key == key && key in tracks && lease.track == tracks[key]
      ensures open == old(open) + {lease} && tracks.Keys == old(tracks).Keys + {key}
      ensures forall k :: k in old(tracks) ==> tracks[k] == old(tracks)[k]
      ensures key !in old(tracks) ==> fresh(tracks[key])
    {
      if key in tracks {
        lease := Share(key);
      } else {
        lease := Start(key);
      }
    }

    method Share(key: Key) returns (lease: Lease)
      requires Valid() && key in tracks
      modifies this`open, {tracks[key]}
      ensures Valid() && fresh(lease) && lease.key == key && lease.track == tracks[key]
      ensures open == old(open) + {lease}
    {
      tracks[key].users := tracks[key].users + 1;
      lease := new Lease(key, tracks[key]);
      forall k | k in tracks ensures |On(open + {lease}, tracks[k])| == |On(open, tracks[k])| + if k == key then 1 else 0 {
        OnMore(open, lease, tracks[k]);
      }
      open := open + {lease};
    }

    method Start(key: Key) returns (lease: Lease)
      requires Valid() && key !in tracks
      modifies this
      ensures Valid() && fresh(lease) && fresh(lease.track) && lease.key == key
      ensures tracks == old(tracks)[key := lease.track] && open == old(open) + {lease}
    {
      var t := new Track();
      lease := new Lease(key, t);
      assert On(open, t) == {};
      OnMore(open, lease, t);
      forall k | k in tracks ensures On(open + {lease}, tracks[k]) == On(open, tracks[k]) {
        OnMore(open, lease, tracks[k]);
      }
      tracks := tracks[key := t];
      open := open + {lease};
    }

    /**
     * Gives a lease back. A lease on a track that is no longer in the table changes nothing
     * there, whatever has taken its place.
     */
    method Release(lease: Lease)
      requires Valid() && (lease.released || lease in open)
      modifies this, tracks.Values, lease
      ensures Valid() && lease.released && open == old(open) - {lease}
      ensures old(lease.released) ==> tracks == old(tracks)
      ensures lease.key !in old(tracks) || old(tracks)[lease.key] != lease.track ==>
                tracks == old(tracks) && forall k :: k in tracks ==> tracks[k].users == old(tracks[k].users)
      ensures tracks == old(tracks) || (tracks == old(tracks) - {lease.key} && lease.track.canceled)
    {
      if lease.released {
        assert lease !in open;
        return;
      }
      lease.released := true;
      forall k | k in tracks ensures |On(open - {lease}, tracks[k])| == |On(open, tracks[k])| - if tracks[k] == lease.track then 1 else 0 {
        OnLess(open, lease, tracks[k]);
      }
      open := open - {lease};
      if lease.key !in tracks || tracks[lease.key] != lease.track {
        return;
      }
      var t := lease.track;
      t.users := t.users - 1;
      if t.users <= 0 {
        t.canceled := true;
        tracks := tracks - {lease.key};
      }
    }

    /** Empties the table; tracks whose generation has not ended are cancelled. */
    method Reset(ended: set<Track>)
      requires Valid()
      modifies this, tracks.Values
      ensures Valid() && tracks == map[] && open == old(open)
      ensures forall k :: k in old(tracks) && old(tracks)[k] !in ended ==> old(tracks)[k].canceled
      ensures forall k :: k in old(tracks) && old(tracks)[k] in ended ==> old(tracks)[k].canceled == old(tracks[k].canceled)
    {
      var todo := tracks.Keys;
      ghost var was := tracks;
      while todo != {}
        invariant todo <= was.Keys && tracks == map k | k in todo :: was[k]
        invariant open == old(open)
        invariant forall k :: k in was && k !in todo && was[k] !in ended ==> was[k].canceled
        invariant forall k :: k in was && was[k] in ended ==> was[k].canceled == old(was[k].canceled)
        invariant forall l :: l in open ==> !l.released
        modifies this`tracks, was.Values
        decreases todo
      {
        var k :| k in todo;
        if tracks[k] !in ended {
          tracks[k].canceled := true;
        }
        tracks := tracks - {k};
        todo := todo - {k};
      }
    }
  }
}
