/**
 The read-through cache of bots in front of the database, with eviction of the least recently
 accessed entry.  The reference is the database alone: a plain map.
 */
module BotCache {
  import opened Common

  datatype View = View(cached: map<string, Bot>, access: map<string, int>, db: map<string, Bot>)

  /** Cached bots are what the database holds, and only cached bots have an access record. */
  ghost predicate Coherent(v: View) {
    (forall id | id in v.cached :: id in v.db && v.db[id] == v.cached[id]) && v.access.Keys <= v.cached.Keys
  }

  /** Access records lie in the past, which a strictly advancing clock guarantees. */
  ghost predicate Past(v: View, now: int) {
    forall id | id in v.access :: v.access[id] < now
  }

  datatype Op = Save(id: string, bot: Bot) | Get(id: string) | Delete(id: string)

  function Lookup(db: map<string, Bot>, id: string): Result<Bot> {
    if id in db then Ok(db[id]) else Err(NotFound)
  }

  // ---------------------------------------------------------------- the plain map

  function Plain(db: map<string, Bot>, op: Op): map<string, Bot> {
    match op
    case Save(id, bot) => db[id := bot]
    case Get(_) => db
    case Delete(id) => db - {id}
  }

  function PlainAnswer(db: map<string, Bot>, op: Op): Option<Result<Bot>> {
    if op.Get? then Some(Lookup(db, op.id)) else None
  }

  // ---------------------------------------------------------------- the cache's steps

  /** The entry the eviction may drop: one without an access record, or the least recently
      accessed one; nothing when no entry was accessed before `now`. */
  ghost predicate Victim(v: View, now: int, victim: Option<string>) {
    match victim
    case Some(id) =>
      id in v.cached && id != "" &&
      (id !in v.access ||
       (v.cached.Keys <= v.access.Keys && v.access[id] < now &&
        forall k | k in v.cached :: v.access[id] <= v.access[k]))
    case None =>
      "" in v.cached || (v.cached.Keys <= v.access.Keys && forall k | k in v.cached :: now <= v.access[k])
  }

  function Without(v: View, victim: Option<string>): View {
    if victim.Some? then v.(cached := v.cached - {victim.value}, access := v.access - {victim.value}) else v
  }

  ghost predicate GetStep(v: View, limit: nat, id: string, now: int, w: View, answer: Result<Bot>) {
    if id in v.cached then
      w == v.(access := v.access[id := now]) && answer == Ok(v.cached[id])
    else if id !in v.db then
      w == v && answer == Err(NotFound)
    else
      answer == Ok(v.db[id]) &&
      exists victim: Option<string> ::
        (if |v.cached| >= limit then Victim(v, now, victim) else victim.None?) &&
        w == Fetched(Without(v, victim), id, v.db[id], now)
  }

  function Fetched(v: View, id: string, bot: Bot, now: int): View {
    v.(cached := v.cached[id := bot], access := v.access[id := now])
  }

  ghost predicate Step(v: View, limit: nat, op: Op, now: int, w: View, answer: Option<Result<Bot>>) {
    match op
    case Save(id, bot) => w == v.(cached := v.cached[id := bot], db := v.db[id := bot]) && answer.None?
    case Get(id) => answer.Some? && GetStep(v, limit, id, now, w, answer.value)
    case Delete(id) =>
      w == View(v.cached - {id}, v.access - {id}, v.db - {id}) && answer.None?
  }

  lemma FetchKeepsCoherent(v: View, victim: Option<string>, id: string, now: int)
    requires Coherent(v) && id in v.db
    ensures Coherent(Fetched(Without(v, victim), id, v.db[id], now))
    ensures Fetched(Without(v, victim), id, v.db[id], now).db == v.db
  {
  }

  lemma GetRefinesPlain(v: View, limit: nat, id: string, now: int, w: View, answer: Result<Bot>)
    requires Coherent(v) && GetStep(v, limit, id, now, w, answer)
    ensures Coherent(w) && w.db == v.db && answer == Lookup(v.db, id)
  {
    if id !in v.cached && id in v.db {
      var victim: Option<string> :| w == Fetched(Without(v, victim), id, v.db[id], now);
      FetchKeepsCoherent(v, victim, id, now);
    }
  }

  /** Every step keeps the cache coherent, does to the database what it would do to a plain map,
      and gives the plain map's answer. */
  lemma StepRefinesPlain(v: View, limit: nat, op: Op, now: int, w: View, answer: Option<Result<Bot>>)
    requires Coherent(v) && Step(v, limit, op, now, w, answer)
    ensures Coherent(w) && w.db == Plain(v.db, op) && answer == PlainAnswer(v.db, op)
  {
    if op.Get? {
      GetRefinesPlain(v, limit, op.id, now, w, answer.value);
    }
  }

  // ---------------------------------------------------------------- whole sequences

  datatype Run = Run(views: seq<View>, ops: seq<Op>, times: seq<int>, answers: seq<Option<Result<Bot>>>)

  ghost predicate ValidRun(r: Run, limit: nat) {
    |r.views| == |r.ops| + 1 && |r.times| == |r.ops| && |r.answers| == |r.ops| && Coherent(r.views[0]) &&
    forall i | 0 <= i < |r.ops| :: Step(r.views[i], limit, r.ops[i], r.times[i], r.views[i + 1], r.answers[i])
  }

  function PlainAfter(db: map<string, Bot>, ops: seq<Op>): map<string, Bot> {
    if ops == [] then db else Plain(PlainAfter(db, ops[..|ops| - 1]), ops[|ops| - 1])
  }

  /** Whatever is evicted along the way, the cache answers every read of a sequence of operations
      as a plain map would. */
  lemma {:induction false} CacheIsTransparent(r: Run, limit: nat, i: nat)
    requires ValidRun(r, limit) && i <= |r.ops|
    ensures Coherent(r.views[i]) && r.views[i].db == PlainAfter(r.views[0].db, r.ops[..i])
    ensures i < |r.ops| ==> r.answers[i] == PlainAnswer(PlainAfter(r.views[0].db, r.ops[..i]), r.ops[i])
  {
    if i > 0 {
      CacheIsTransparent(r, limit, i - 1);
      StepRefinesPlain(r.views[i - 1], limit, r.ops[i - 1], r.times[i - 1], r.views[i], r.answers[i - 1]);
      assert r.ops[..i][..i - 1] == r.ops[..i - 1];
    }
    if i < |r.ops| {
      StepRefinesPlain(r.views[i], limit, r.ops[i], r.times[i], r.views[i + 1], r.answers[i]);
    }
  }

  /** A read that finds only past access records keeps the cache within its limit. */
  lemma GetStepBounded(v: View, limit: nat, id: string, now: int, w: View, answer: Result<Bot>)
    requires Coherent(v) && Past(v, now) && "" !in v.cached && limit >= 1
    requires GetStep(v, limit, id, now, w, answer)
    ensures |w.cached| <= Max(|v.cached|, limit)
  {
  }

  /** The clock advances strictly, starting after the access records there already are. */
  ghost predicate StrictClock(r: Run) {
    (r.times != [] && r.views != [] ==> Past(r.views[0], r.times[0])) &&
    forall i, k | 0 <= i < k < |r.times| :: r.times[i] < r.times[k]
  }

  /** A strictly advancing clock keeps every access record in the past. */
  lemma {:induction false} RecordsStayPast(r: Run, limit: nat, i: nat)
    requires ValidRun(r, limit) && StrictClock(r) && i < |r.ops|
    ensures Past(r.views[i], r.times[i])
  {
    if i > 0 {
      RecordsStayPast(r, limit, i - 1);
      assert r.times[i - 1] < r.times[i];
      assert Step(r.views[i - 1], limit, r.ops[i - 1], r.times[i - 1], r.views[i], r.answers[i - 1]);
    }
  }

  /** With a strictly advancing clock no read of a sequence lets the cache outgrow both its size
      before and its limit. */
  lemma GetBounded(r: Run, limit: nat, i: nat)
    requires ValidRun(r, limit) && StrictClock(r) && limit >= 1
    requires i < |r.ops| && r.ops[i].Get? && "" !in r.views[i].cached
    ensures |r.views[i + 1].cached| <= Max(|r.views[i].cached|, limit)
  {
    CacheIsTransparent(r, limit, i);
    RecordsStayPast(r, limit, i);
    assert Step(r.views[i], limit, r.ops[i], r.times[i], r.views[i + 1], r.answers[i]);
    GetStepBounded(r.views[i], limit, r.ops[i].id, r.times[i], r.views[i + 1], r.answers[i].value);
  }

  // ---------------------------------------------------------------- least recently read

  /** Step `n` reads bot `id` successfully. */
  ghost predicate Reads(r: Run, n: nat, id: string)
    requires |r.answers| == |r.ops|
  {
    n < |r.ops| && r.ops[n] == Get(id) && r.answers[n].Some? && r.answers[n].value.Ok?
  }

  /** An access record is the time of a read. */
  lemma {:induction false} RecordIsRead(r: Run, limit: nat, i: nat, id: string)
    requires ValidRun(r, limit) && r.views[0].access == map[] && i <= |r.ops| && id in r.views[i].access
    ensures exists n: nat :: n < i && Reads(r, n, id) && r.views[i].access[id] == r.times[n]
  {
    var p: nat := i - 1;
    assert Step(r.views[p], limit, r.ops[p], r.times[p], r.views[i], r.answers[p]);
    if !(r.ops[p] == Get(id)) {
      assert id in r.views[p].access && r.views[p].access[id] == r.views[i].access[id];
      RecordIsRead(r, limit, p, id);
    } else if id !in r.views[p].access || r.views[p].access[id] != r.views[i].access[id] {
      assert Reads(r, p, id);
    } else {
      RecordIsRead(r, limit, p, id);
    }
  }

  /** A read leaves a record, no older than itself, as long as the bot stays cached. */
  lemma {:induction false} ReadIsRecorded(r: Run, limit: nat, n: nat, i: nat, id: string)
    requires ValidRun(r, limit) && StrictClock(r) && Reads(r, n, id) && n < i <= |r.ops|
    requires forall k | n < k <= i :: id in r.views[k].cached
    ensures id in r.views[i].access && r.times[n] <= r.views[i].access[id]
    decreases i
  {
    var p: nat := i - 1;
    assert Step(r.views[p], limit, r.ops[p], r.times[p], r.views[i], r.answers[p]);
    if n < p {
      ReadIsRecorded(r, limit, n, p, id);
      assert r.times[n] < r.times[p];
    }
  }

  /** Step `i` drops `victim` from the cache to make room for another bot. */
  ghost predicate Evicts(r: Run, i: nat, victim: string)
    requires |r.views| == |r.ops| + 1
  {
    i < |r.ops| && r.ops[i].Get? && victim in r.views[i].cached && victim !in r.views[i + 1].cached
  }

  /** Only a full cache evicts, and it evicts the bot read least recently: if the victim was read
      since it came into the cache, every other cached bot was read after that. */
  lemma EvictsLeastRecentlyRead(r: Run, limit: nat, i: nat, victim: string, n: nat, other: string)
    requires ValidRun(r, limit) && StrictClock(r) && r.views[0].access == map[] && Evicts(r, i, victim)
    requires n < i && Reads(r, n, victim) && forall k | n < k <= i :: victim in r.views[k].cached
    requires other in r.views[i].cached && other != victim
    ensures |r.views[i].cached| >= limit
    ensures exists m: nat :: n < m < i && Reads(r, m, other)
  {
    assert Step(r.views[i], limit, r.ops[i], r.times[i], r.views[i + 1], r.answers[i]);
    ReadIsRecorded(r, limit, n, i, victim);
    assert other in r.views[i].access && r.views[i].access[victim] <= r.views[i].access[other];
    RecordIsRead(r, limit, i, other);
    var m: nat :| m < i && Reads(r, m, other) && r.views[i].access[other] == r.times[m];
  }

  // ---------------------------------------------------------------- the cache as an object

  class Cache {
    var bots: map<string, Bot>
    var accessTime: map<string, int>
    var db: map<string, Bot>
    const maxSize: nat

    ghost function State(): View
      reads this
    {
      View(bots, accessTime, db)
    }

    constructor (maxSize: nat, db: map<string, Bot>)
      ensures State() == View(map[], map[], db) && Coherent(State()) && this.maxSize == maxSize
    {
      bots, accessTime := map[], map[];
      this.db, this.maxSize := db, maxSize;
    }

    method SaveBot(id: string, bot: Bot, now: int)
      requires Coherent(State())
      modifies this
      ensures Coherent(State()) && Step(old(State()), maxSize, Save(id, bot), now, State(), None)
    {
      bots := bots[id := bot];
      db := db[id := bot];
    }

    method DeleteBot(id: string, now: int)
      requires Coherent(State())
      modifies this
      ensures Coherent(State()) && Step(old(State()), maxSize, Delete(id), now, State(), None)
    {
      bots := bots - {id};
      accessTime := accessTime - {id};
      db := db - {id};
    }

    /** The scan that picks the victim; an entry without an access record ends it. */
    method FindVictim(now: int) returns (oldestKey: string)
      ensures Victim(State(), now, if oldestKey == "" then None else Some(oldestKey))
    {
      oldestKey := "";
      var oldestTime := now;
      var rest := bots.Keys;
      while rest != {}
        invariant rest <= bots.Keys && oldestTime <= now
        invariant forall k | k in bots && k !in rest :: k in accessTime && oldestTime <= accessTime[k]
        invariant oldestKey == "" ==> oldestTime == now || "" in bots
        invariant oldestKey != "" ==> oldestKey in bots && oldestKey in accessTime &&
                                      oldestTime == accessTime[oldestKey] < now
        decreases rest
      {
        var id :| id in rest;
        rest := rest - {id};
        if id in accessTime {
          if accessTime[id] < oldestTime {
            oldestTime, oldestKey := accessTime[id], id;
          }
        } else {
          oldestKey := id;
          return;
        }
      }
    }

    method GetBot(id: string, now: int) returns (r: Result<Bot>)
      requires Coherent(State())
      modifies this
      ensures Coherent(State()) && r == Lookup(old(db), id) && db == old(db)
      ensures Step(old(State()), maxSize, Get(id), now, State(), Some(r))
    {
      ghost var v := State();
      if id in bots {
        accessTime := accessTime[id := now];
        return Ok(bots[id]);
      }
      if id !in db {
        return Err(NotFound);
      }
      var bot := db[id];
      ghost var victim := None;
      if |bots| >= maxSize {
        var oldestKey := FindVictim(now);
        if oldestKey != "" {
          bots := bots - {oldestKey};
          accessTime := accessTime - {oldestKey};
          victim := Some(oldestKey);
        }
      }
      assert State() == Without(v, victim);
      bots := bots[id := bot];
      accessTime := accessTime[id := now];
      assert State() == Fetched(Without(v, victim), id, v.db[id], now);
      return Ok(bot);
    }
  }
}
