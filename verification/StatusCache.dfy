/**
 The bot's cache of job statuses: every update stamps its entry, and when there are more than
 a hundred entries the one with the oldest stamp goes.  The reference is the history of all
 updates: the cache holds the most recently updated jobs, each with its latest status.
 */
module StatusCache {
  import opened Common

  const LIMIT: nat := 100

  datatype Entry = Entry(updatedAt: int, status: string)

  datatype Update = Update(id: string, status: string, at: int)

  // ---------------------------------------------------------------- histories

  /** The position of the last update of a job, -1 if there is none. */
  function Latest(h: seq<Update>, id: string): (k: int)
    ensures -1 <= k < |h|
    ensures k >= 0 ==> h[k].id == id
  {
    if h == [] then -1
    else if h[|h| - 1].id == id then |h| - 1
    else Latest(h[..|h| - 1], id)
  }

  lemma {:induction false} LatestIsLast(h: seq<Update>, id: string, i: nat)
    requires i < |h| && h[i].id == id
    ensures i <= Latest(h, id)
  {
    if h[|h| - 1].id != id {
      LatestIsLast(h[..|h| - 1], id, i);
    }
  }

  lemma LatestAppend(h: seq<Update>, u: Update, id: string)
    ensures Latest(h + [u], id) == if id == u.id then |h| else Latest(h, id)
  {
  }

  /** The jobs updated after the last update of `id`. */
  ghost function Newer(h: seq<Update>, id: string): set<string> {
    set u | u in h && Latest(h, u.id) > Latest(h, id) :: u.id
  }

  lemma InNewer(h: seq<Update>, id: string, k: string)
    ensures k in Newer(h, id) <==> Latest(h, k) > Latest(h, id)
  {
  }

  /** One of the hundred most recently updated jobs. */
  ghost predicate Recent(h: seq<Update>, id: string) {
    Latest(h, id) >= 0 && |Newer(h, id)| < LIMIT
  }

  ghost predicate Clocked(h: seq<Update>) {
    forall i, j | 0 <= i < j < |h| :: h[i].at < h[j].at
  }

  /** An update makes its job the newest and newer than every other one. */
  lemma NewerAppend(h: seq<Update>, u: Update, id: string)
    ensures Newer(h + [u], id) == if id == u.id then {} else Newer(h, id) + {u.id}
  {
  }

  /** Whatever is newer than a recent job is recent itself. */
  lemma NewerIsRecent(h: seq<Update>, id: string, k: string)
    requires Recent(h, id) && k in Newer(h, id)
    ensures Recent(h, k)
  {
    InNewer(h, id, k);
    assert Newer(h, k) <= Newer(h, id);
    SubsetSize(Newer(h, k), Newer(h, id));
  }

  lemma {:induction false} SubsetSize(a: set<string>, b: set<string>)
    requires a <= b
    ensures |a| <= |b|
  {
    if a != {} {
      var x :| x in a;
      SubsetSize(a - {x}, b - {x});
    }
  }

  // ---------------------------------------------------------------- the cache

  /** The cache holds exactly the hundred most recently updated jobs (all of them while there are
      fewer), each with its latest status and stamp. */
  ghost predicate Represents(cache: map<string, Entry>, h: seq<Update>) {
    (forall id :: id in cache <==> Recent(h, id)) &&
    (forall id | id in cache :: Current(cache[id], h, id))
  }

  ghost predicate Current(e: Entry, h: seq<Update>, id: string) {
    var k := Latest(h, id);
    k >= 0 && e == Entry(h[k].at, h[k].status)
  }

  function Put(cache: map<string, Entry>, u: Update): map<string, Entry> {
    cache[u.id := Entry(u.at, u.status)]
  }

  lemma PutCurrent(cache: map<string, Entry>, h: seq<Update>, u: Update, id: string)
    requires Represents(cache, h) && id in Put(cache, u)
    ensures Current(Put(cache, u)[id], h + [u], id)
  {
  }

  /** Whatever is newer than an entry of the updated cache is an entry too. */
  lemma NewerIsPut(cache: map<string, Entry>, h: seq<Update>, u: Update, id: string)
    requires Represents(cache, h) && id in Put(cache, u)
    ensures Newer(h + [u], id) <= Put(cache, u).Keys - {id}
  {
    NewerAppend(h, u, id);
    if id != u.id {
      forall k | k in Newer(h, id)
        ensures k in cache && k != id
      {
        NewerIsRecent(h, id, k);
        InNewer(h, id, k);
      }
    }
  }

  /** A job that was not cached and is not updated falls no less far behind. */
  lemma StaysOut(cache: map<string, Entry>, h: seq<Update>, u: Update, id: string)
    requires Represents(cache, h) && id !in Put(cache, u)
    ensures !Recent(h + [u], id)
  {
    LatestAppend(h, u, id);
    NewerAppend(h, u, id);
    if Latest(h, id) >= 0 {
      SubsetSize(Newer(h, id), Newer(h + [u], id));
    }
  }

  /** Without an eviction the updated cache still holds the most recent jobs. */
  lemma Fits(cache: map<string, Entry>, h: seq<Update>, u: Update)
    requires Represents(cache, h) && |Put(cache, u)| <= LIMIT
    ensures Represents(Put(cache, u), h + [u])
  {
    var next := Put(cache, u);
    forall id
      ensures id in next <==> Recent(h + [u], id)
    {
      if id in next {
        PutCurrent(cache, h, u, id);
        NewerIsPut(cache, h, u, id);
        SubsetSize(Newer(h + [u], id), next.Keys - {id});
      } else {
        StaysOut(cache, h, u, id);
      }
    }
    forall id | id in next
      ensures Current(next[id], h + [u], id)
    {
      PutCurrent(cache, h, u, id);
    }
  }

  /** The entry with the oldest stamp is behind every other entry. */
  lemma OldestIsBehind(cache: map<string, Entry>, h: seq<Update>, u: Update, oldest: string, id: string)
    requires Represents(cache, h) && Clocked(h + [u]) && oldest in Put(cache, u) && id in Put(cache, u)
    requires Put(cache, u)[oldest].updatedAt <= Put(cache, u)[id].updatedAt && id != oldest
    ensures id in Newer(h + [u], oldest) && oldest !in Newer(h + [u], id)
  {
    var g := h + [u];
    PutCurrent(cache, h, u, id);
    PutCurrent(cache, h, u, oldest);
    InNewer(g, oldest, id);
    InNewer(g, id, oldest);
    var i, k := Latest(g, oldest), Latest(g, id);
    assert i != k;
  }

  /** Evicting the entry of the oldest stamp from an overfull cache leaves the recent jobs. */
  lemma EvictedKeys(cache: map<string, Entry>, h: seq<Update>, u: Update, oldest: string, id: string)
    requires Represents(cache, h) && Clocked(h + [u]) && oldest in Put(cache, u)
    requires |Put(cache, u)| == LIMIT + 1
    requires forall k | k in Put(cache, u) :: Put(cache, u)[oldest].updatedAt <= Put(cache, u)[k].updatedAt
    ensures id in Put(cache, u).Keys - {oldest} <==> Recent(h + [u], id)
  {
    var keys, g := Put(cache, u).Keys, h + [u];
    if id == oldest {
      forall k | k in keys && k != oldest
        ensures k in Newer(g, oldest)
      {
        OldestIsBehind(cache, h, u, oldest, k);
      }
      SubsetSize(keys - {oldest}, Newer(g, oldest));
    } else if id in keys {
      PutCurrent(cache, h, u, id);
      NewerIsPut(cache, h, u, id);
      OldestIsBehind(cache, h, u, oldest, id);
      SubsetSize(Newer(g, id), keys - {id} - {oldest});
    } else {
      StaysOut(cache, h, u, id);
    }
  }

  /** ... and each of them with its latest status. */
  lemma Evicted(cache: map<string, Entry>, h: seq<Update>, u: Update, oldest: string)
    requires Represents(cache, h) && Clocked(h + [u]) && oldest in Put(cache, u)
    requires |Put(cache, u)| == LIMIT + 1
    requires forall id | id in Put(cache, u) :: Put(cache, u)[oldest].updatedAt <= Put(cache, u)[id].updatedAt
    ensures Represents(Put(cache, u) - {oldest}, h + [u])
  {
    forall id
      ensures id in Put(cache, u) - {oldest} <==> Recent(h + [u], id)
    {
      EvictedKeys(cache, h, u, oldest, id);
    }
    forall id | id in Put(cache, u) - {oldest}
      ensures Current((Put(cache, u) - {oldest})[id], h + [u], id)
    {
      PutCurrent(cache, h, u, id);
    }
  }

  /** No more than a hundred jobs are recent. */
  lemma RecentBounded(h: seq<Update>, ids: set<string>)
    requires forall id | id in ids :: Recent(h, id)
    ensures |ids| <= 100
  {
    if ids != {} {
      var low := Least(h, ids);
      assert Recent(h, low);
      forall id | id in ids && id != low
        ensures id in Newer(h, low)
      {
        assert Recent(h, id);
        InNewer(h, low, id);
      }
      SubsetSize(ids - {low}, Newer(h, low));
    }
  }

  /** The cache never holds more than a hundred entries. */
  lemma CacheBounded(cache: map<string, Entry>, h: seq<Update>)
    requires Represents(cache, h)
    ensures |cache| <= 100
  {
    RecentBounded(h, cache.Keys);
  }

  lemma ClockedAppend(h: seq<Update>, u: Update)
    requires Clocked(h) && forall i | 0 <= i < |h| :: h[i].at < u.at
    ensures Clocked(h + [u])
  {
  }

  lemma {:induction false} Least(h: seq<Update>, ids: set<string>) returns (low: string)
    requires ids != {}
    ensures low in ids && forall id | id in ids :: Latest(h, low) <= Latest(h, id)
    decreases ids
  {
    low :| low in ids;
    if ids != {low} {
      var other := Least(h, ids - {low});
      if Latest(h, other) < Latest(h, low) {
        low := other;
      }
    }
  }

  class APIServer {
    var jobCache: map<string, Entry>
    ghost var history: seq<Update>

    ghost predicate Valid()
      reads this
    {
      Represents(jobCache, history) && Clocked(history)
    }

    constructor ()
      ensures Valid() && history == []
    {
      jobCache, history := map[], [];
    }

    /** The scan for the oldest entry; entries stamped at or after `now` are never chosen. */
    method OldestEntry(now: int) returns (r: Option<string>)
      ensures r.Some? ==> r.value in jobCache && jobCache[r.value].updatedAt < now
      ensures r.Some? ==> forall id | id in jobCache :: jobCache[r.value].updatedAt <= jobCache[id].updatedAt
      ensures r.None? ==> forall id | id in jobCache :: now <= jobCache[id].updatedAt
    {
      var oldest := now;
      r := None;
      var rest := jobCache.Keys;
      while rest != {}
        invariant rest <= jobCache.Keys && oldest <= now
        invariant r.None? ==> oldest == now
        invariant r.Some? ==> r.value in jobCache && oldest == jobCache[r.value].updatedAt < now
        invariant forall id | id in jobCache && id !in rest :: oldest <= jobCache[id].updatedAt
        decreases rest
      {
        var id :| id in rest;
        rest := rest - {id};
        if jobCache[id].updatedAt < oldest {
          oldest, r := jobCache[id].updatedAt, Some(id);
        }
      }
    }

    /** Stamps and stores a status at `stamp`, then drops the oldest entry if there are too many;
        `now` is the second reading of the clock. */
    method UpdateJobStatus(jobID: string, status: string, stamp: int, now: int)
      requires Valid() && stamp <= now
      requires forall i | 0 <= i < |history| :: history[i].at < stamp
      modifies this
      ensures Valid() && history == old(history) + [Update(jobID, status, stamp)]
      ensures jobID in jobCache && jobCache[jobID] == Entry(stamp, status)
      ensures |jobCache| == if jobID in old(jobCache) then |old(jobCache)| else Min(|old(jobCache)| + 1, 100)
    {
      var u := Update(jobID, status, stamp);
      ghost var h, before := history, jobCache;
      ClockedAppend(h, u);
      history := history + [u];
      jobCache := Put(jobCache, u);
      if |jobCache| > LIMIT {
        SomeOlder(before, h, u, now);
        var oldestID := OldestEntry(now);
        UpdatedEvicting(before, h, u, oldestID.value);
        jobCache := jobCache - {oldestID.value};
      } else {
        UpdatedFitting(before, h, u);
      }
    }
  }

  /** The outcome of an update, without and with an eviction: the cache represents the longer
      history, the job updated last is in it, and its size is the next one up to a hundred. */
  lemma UpdatedFitting(cache: map<string, Entry>, h: seq<Update>, u: Update)
    requires Represents(cache, h) && |Put(cache, u)| <= LIMIT
    ensures Represents(Put(cache, u), h + [u])
    ensures |Put(cache, u)| == if u.id in cache then |cache| else Min(|cache| + 1, 100)
  {
    PutSize(cache, u);
    Fits(cache, h, u);
  }

  lemma UpdatedEvicting(cache: map<string, Entry>, h: seq<Update>, u: Update, oldest: string)
    requires Represents(cache, h) && Clocked(h + [u]) && oldest in Put(cache, u)
    requires |Put(cache, u)| > LIMIT
    requires forall id | id in Put(cache, u) :: Put(cache, u)[oldest].updatedAt <= Put(cache, u)[id].updatedAt
    ensures var after := Put(cache, u) - {oldest};
            && Represents(after, h + [u]) && u.id in after && after[u.id] == Entry(u.at, u.status)
            && |after| == if u.id in cache then |cache| else Min(|cache| + 1, 100)
  {
    PutSize(cache, u);
    CacheBounded(cache, h);
    RemoveSize(Put(cache, u), oldest);
    Evicted(cache, h, u, oldest);
    JustUpdated(Put(cache, u) - {oldest}, h, u);
  }

  lemma RemoveSize(cache: map<string, Entry>, id: string)
    requires id in cache
    ensures |cache - {id}| == |cache| - 1
  {
    assert (cache - {id}).Keys == cache.Keys - {id};
  }

  /** The job updated last is always cached. */
  lemma JustUpdated(cache: map<string, Entry>, h: seq<Update>, u: Update)
    requires Represents(cache, h + [u])
    ensures u.id in cache && cache[u.id] == Entry(u.at, u.status)
  {
    LatestAppend(h, u, u.id);
    NewerAppend(h, u, u.id);
    assert Recent(h + [u], u.id);
    assert Current(cache[u.id], h + [u], u.id);
  }

  lemma PutSize(cache: map<string, Entry>, u: Update)
    ensures |Put(cache, u)| == if u.id in cache then |cache| else |cache| + 1
  {
  }

  /** An overfull cache has an entry stamped before the current time. */
  lemma SomeOlder(cache: map<string, Entry>, h: seq<Update>, u: Update, now: int)
    requires Represents(cache, h) && Clocked(h + [u]) && u.at <= now && |Put(cache, u)| > LIMIT
    ensures exists id :: id in Put(cache, u) && Put(cache, u)[id].updatedAt < now
  {
    PutSize(cache, u);
    assert cache.Keys != {};
    var id :| id in cache;
    if u.id in cache {
      CacheBounded(cache, h);
      assert false;
    }
    var g := h + [u];
    assert Current(cache[id], h, id);
    assert g[Latest(h, id)].at < g[|h|].at;
    assert Put(cache, u)[id] == cache[id];
  }
}
