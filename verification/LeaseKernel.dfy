/**
 The SQL path of the master: job assignment under a lease, completion, the lease sweep,
 the poller's clearing of stale references, heartbeats, and lease acknowledgement.  Every
 database transaction is one atomic step on the two tables.
 */
module LeaseKernel {
  import opened Common

  datatype Store = Store(jobs: map<string, Job>, bots: map<string, Bot>)

  const LEASE: int := 45 * SECOND
  const RENEWAL: int := 60 * SECOND

  // ---------------------------------------------------------------- row predicates

  /** The lease of a job that is not running yet has run out (a job without a lease counts
      as lapsed once it has been assigned for as long as a lease lasts). */
  predicate LeaseLapsed(j: Job, now: int) {
    (j.status.Assigned? || j.status.Starting?) &&
    match j.leaseExpiresAt
    case Some(expiry) => expiry <= now
    case None => j.startedAt.Some? && j.startedAt.value <= now - LEASE
  }

  predicate Eligible(j: Job, now: int) {
    (j.status.Pending? || LeaseLapsed(j, now)) && now < j.timeoutAt
  }

  /** `id` is a job the assignment query may return: eligible, and none eligible is older. */
  predicate Oldest(jobs: map<string, Job>, id: string, now: int) {
    id in jobs && Eligible(jobs[id], now) &&
    forall k | k in jobs && Eligible(jobs[k], now) :: jobs[id].createdAt <= jobs[k].createdAt
  }

  predicate PastDeadline(j: Job, now: int) {
    Active(j) && j.timeoutAt <= now
  }

  /** The rows the second query of the sweep returns. */
  predicate Lapsed(j: Job, now: int) {
    !PastDeadline(j, now) && LeaseLapsed(j, now)
  }

  predicate Owns(s: Store, bot: string, id: string) {
    id in s.jobs && s.jobs[id].assignedBot == Some(bot)
  }

  /** The lease token check of the acknowledgement and renewal handlers. */
  predicate TokenAccepted(j: Job, token: string) {
    j.leaseToken.None? || j.leaseToken.value == "" || j.leaseToken.value == token
  }

  // ---------------------------------------------------------------- row updates

  function Leased(j: Job, bot: string, token: string, now: int): Job {
    j.(status := Assigned, assignedBot := Some(bot), startedAt := Some(now),
       leaseToken := Some(token), leaseExpiresAt := Some(now + LEASE))
  }

  function Finished(j: Job, success: bool, now: int): Job {
    j.(status := if success then Completed else Failed,
       completedAt := Some(now), assignedBot := None)
  }

  function Expired(j: Job, now: int): Job {
    j.(status := TimedOut, assignedBot := None, leaseToken := None,
       leaseExpiresAt := None, completedAt := Some(now))
  }

  function Acknowledged(j: Job, now: int): Job {
    j.(status := Starting, leaseExpiresAt := Some(now + RENEWAL))
  }

  function Renewed(j: Job, now: int): Job {
    j.(leaseExpiresAt := Some(now + RENEWAL), lastHeartbeat := Some(now))
  }

  function Freed(b: Bot): Bot {
    b.(status := Idle, currentJob := None)
  }

  function SweptJob(j: Job, now: int): Job {
    if PastDeadline(j, now) || Lapsed(j, now) then Expired(j, now) else j
  }

  /** The sweep frees a bot only when it still points at the lapsed job it was assigned. */
  predicate FreedBySweep(s: Store, bot: string, now: int) {
    bot in s.bots && bot != "" && s.bots[bot].currentJob.Some? &&
    var id := s.bots[bot].currentJob.value;
    Owns(s, bot, id) && Lapsed(s.jobs[id], now)
  }

  // ---------------------------------------------------------------- steps

  datatype Event =
    | Create(id: string, row: Job)
    | Register(bot: string, record: Bot)
    | Assign(bot: string, token: string, pick: Option<string>)  // None: refused, rolled back
    | Complete(id: string, bot: string, success: bool)
    | Sweep
    | ClearStale(bot: string)
    | Heartbeat(bot: string, status: BotStatus, current: Option<string>, timeout: int)
    | Ack(id: string, token: string)
    | Renew(id: string, token: string)

  function Grant(s: Store, bot: string, id: string, token: string, now: int): Store
    requires id in s.jobs && bot in s.bots
  {
    Store(s.jobs[id := Leased(s.jobs[id], bot, token, now)],
          s.bots[bot := s.bots[bot].(status := Busy, currentJob := Some(id), lastSeen := now)])
  }

  function Finish(s: Store, id: string, bot: string, success: bool, now: int): Store {
    if Owns(s, bot, id) then
      Store(s.jobs[id := Finished(s.jobs[id], success, now)],
            if bot in s.bots then s.bots[bot := Freed(s.bots[bot]).(lastSeen := now)] else s.bots)
    else s
  }

  function Swept(s: Store, now: int): Store {
    Store(map id | id in s.jobs :: SweptJob(s.jobs[id], now),
          map b | b in s.bots :: if FreedBySweep(s, b, now) then Freed(s.bots[b]) else s.bots[b])
  }

  /** The poller clears a reference to a job that completed, failed or was cancelled; a job
      that timed out is not on its list. */
  predicate StaleReference(s: Store, bot: string) {
    bot in s.bots && s.bots[bot].currentJob.Some? && s.bots[bot].currentJob.value in s.jobs &&
    var status := s.jobs[s.bots[bot].currentJob.value].status;
    status.Completed? || status.Failed? || status.Cancelled?
  }

  function Cleared(s: Store, bot: string): Store {
    if StaleReference(s, bot) then s.(bots := s.bots[bot := Freed(s.bots[bot])]) else s
  }

  function Heard(s: Store, bot: string, status: BotStatus, current: Option<string>,
                 timeout: int, now: int): Store {
    if bot in s.bots then
      s.(bots := s.bots[bot := s.bots[bot].(lastSeen := now, status := status,
                                            currentJob := current, online := true, timeoutAt := timeout)])
    else s
  }

  predicate AckTaken(s: Store, id: string, token: string) {
    id in s.jobs && TokenAccepted(s.jobs[id], token)
  }

  function Apply(s: Store, e: Event, now: int): Store {
    match e
    case Create(id, job) => s.(jobs := s.jobs[id := job])
    case Register(bot, row) => s.(bots := s.bots[bot := row])
    case Assign(bot, token, pick) =>
      if pick.Some? && pick.value in s.jobs && bot in s.bots
      then Grant(s, bot, pick.value, token, now) else s
    case Complete(id, bot, success) => Finish(s, id, bot, success, now)
    case Sweep => Swept(s, now)
    case ClearStale(bot) => Cleared(s, bot)
    case Heartbeat(bot, status, current, timeout) => Heard(s, bot, status, current, timeout, now)
    case Ack(id, token) =>
      if AckTaken(s, id, token) then s.(jobs := s.jobs[id := Acknowledged(s.jobs[id], now)]) else s
    case Renew(id, token) =>
      if AckTaken(s, id, token) then s.(jobs := s.jobs[id := Renewed(s.jobs[id], now)]) else s
  }

  /** What the code itself sees to: new jobs and bots come with a new identifier, and an
      assignment takes what its query returns, for an idle bot. */
  predicate Possible(s: Store, e: Event, now: int) {
    match e
    case Create(id, job) => id !in s.jobs && job.status.Pending? && job.assignedBot.None?
    case Register(bot, row) => bot !in s.bots && row.status.Idle? && row.currentJob.None?
    case Assign(bot, _, pick) =>
      pick.Some? ==> Oldest(s.jobs, pick.value, now) && bot in s.bots && s.bots[bot].status.Idle?
    case _ => true
  }

  /** What it leaves to the bots: heartbeats that do not contradict an assignment, and
      acknowledgements that do not reach a job that has already left its bot. */
  ghost predicate Orderly(s: Store, e: Event) {
    match e
    case Heartbeat(bot, status, current, _) => Agrees(s, bot, status, current)
    case Ack(id, token) => AckTaken(s, id, token) ==> Active(s.jobs[id])
    case _ => true
  }

  ghost predicate Agrees(s: Store, bot: string, status: BotStatus, current: Option<string>) {
    forall id | Owns(s, bot, id) && Active(s.jobs[id]) :: status.Busy? && current == Some(id)
  }

  // ---------------------------------------------------------------- the invariant

  ghost predicate Held(s: Store, id: string)
    requires id in s.jobs
  {
    s.jobs[id].assignedBot.Some? &&
    var bot := s.jobs[id].assignedBot.value;
    bot in s.bots && s.bots[bot].status.Busy? && s.bots[bot].currentJob == Some(id)
  }

  /** Every active job names a bot that is busy with exactly that job, and no other job
      names a bot. */
  ghost predicate Inv(s: Store) {
    forall id | id in s.jobs ::
      if Active(s.jobs[id]) then Held(s, id) else s.jobs[id].assignedBot.None?
  }

  lemma StepKeepsInv(s: Store, e: Event, now: int)
    requires Inv(s) && Possible(s, e, now) && Orderly(s, e)
    ensures Inv(Apply(s, e, now))
  {
  }

  /** Two active jobs never share a bot. */
  lemma OneJobPerBot(s: Store, i: string, j: string)
    requires Inv(s) && i in s.jobs && j in s.jobs && Active(s.jobs[i]) && Active(s.jobs[j])
    requires s.jobs[i].assignedBot == s.jobs[j].assignedBot
    ensures i == j
  {
  }

  // ---------------------------------------------------------------- when a job is on offer

  /** A pending job is on offer until its deadline, a granted one from the end of its lease on
      (without a lease, from 45 seconds after the assignment), any other job never. */
  lemma OfferedWhen(j: Job, now: int)
    ensures j.status.Pending? ==> (Eligible(j, now) <==> now < j.timeoutAt)
    ensures (j.status.Assigned? || j.status.Starting?) && j.leaseExpiresAt.Some? ==>
              (Eligible(j, now) <==> j.leaseExpiresAt.value <= now < j.timeoutAt)
    ensures (j.status.Assigned? || j.status.Starting?) && j.leaseExpiresAt.None? ==>
              (Eligible(j, now) <==> j.startedAt.Some? && j.startedAt.value + 45 * SECOND <= now < j.timeoutAt)
    ensures j.status.Running? || Terminal(j) ==> !Eligible(j, now)
  {
  }

  /** A grant takes the job off the market for exactly 45 seconds, and only the holder of its token
      can acknowledge it or renew its lease. */
  lemma GrantLapses(s: Store, bot: string, id: string, token: string, now: int, later: int, shown: string)
    requires id in s.jobs && bot in s.bots
    ensures var t := Grant(s, bot, id, token, now);
            && t.jobs[id].status.Assigned? && Owns(t, bot, id)
            && (Eligible(t.jobs[id], later) <==> now + 45 * SECOND <= later < s.jobs[id].timeoutAt)
            && (AckTaken(t, id, shown) <==> token == "" || shown == token)
  {
  }

  /** An acknowledgement or a renewal puts that off to 60 seconds from now. */
  lemma AttentionBuysAMinute(s: Store, id: string, token: string, now: int, later: int)
    requires AckTaken(s, id, token)
    ensures var t := Apply(s, Ack(id, token), now);
            && t.jobs[id].status.Starting? && t.jobs[id].assignedBot == s.jobs[id].assignedBot
            && (Eligible(t.jobs[id], later) <==> now + 60 * SECOND <= later < s.jobs[id].timeoutAt)
    ensures var t := Apply(s, Renew(id, token), now);
            && t.jobs[id].status == s.jobs[id].status && t.jobs[id].assignedBot == s.jobs[id].assignedBot
            && (Eligible(t.jobs[id], later) <==>
                if s.jobs[id].status.Assigned? || s.jobs[id].status.Starting?
                then now + 60 * SECOND <= later < s.jobs[id].timeoutAt
                else s.jobs[id].status.Pending? && later < s.jobs[id].timeoutAt)
  {
  }

  // ---------------------------------------------------------------- exact limits of the invariant

  /** A heartbeat is written unconditionally; it keeps the invariant exactly when it does not
      contradict an assignment. */
  lemma HeartbeatKeepsInvIff(s: Store, bot: string, status: BotStatus, current: Option<string>,
                             timeout: int, now: int)
    requires Inv(s) && bot in s.bots
    ensures Inv(Heard(s, bot, status, current, timeout, now)) <==> Agrees(s, bot, status, current)
  {
  }

  /** An accepted acknowledgement keeps the invariant exactly when the job is still active. */
  lemma AckKeepsInvIff(s: Store, id: string, token: string, now: int)
    requires Inv(s) && AckTaken(s, id, token)
    ensures Inv(Apply(s, Ack(id, token), now)) <==> Active(s.jobs[id])
  {
    if Active(s.jobs[id]) {
      StepKeepsInv(s, Ack(id, token), now);
    } else {
      assert !Held(Apply(s, Ack(id, token), now), id);
    }
  }

  /** Over all steps: the invariant survives exactly the orderly ones. */
  lemma StepKeepsInvIff(s: Store, e: Event, now: int)
    requires Inv(s) && Possible(s, e, now)
    ensures Inv(Apply(s, e, now)) <==> Orderly(s, e)
  {
    if Orderly(s, e) {
      StepKeepsInv(s, e, now);
    } else if e.Heartbeat? {
      HeartbeatKeepsInvIff(s, e.bot, e.status, e.current, e.timeout, now);
    } else {
      AckKeepsInvIff(s, e.id, e.token, now);
    }
  }

  /** One heartbeat that reports the holder of a job idle, as a health poll between the assignment
      and the start of the job does, and the next assignment makes it own two active jobs. */
  lemma IdleReportDoublesBot(s: Store, bot: string, id: string, other: string, current: Option<string>,
                             timeout: int, token: string, now: int, later: int)
    requires Inv(s) && Owns(s, bot, id) && Active(s.jobs[id]) && other != id && Oldest(s.jobs, other, later)
    ensures var h := Apply(s, Heartbeat(bot, Idle, current, timeout), now);
            Possible(h, Assign(bot, token, Some(other)), later) &&
            var t := Apply(h, Assign(bot, token, Some(other)), later);
            Owns(t, bot, id) && Active(t.jobs[id]) && Owns(t, bot, other) && Active(t.jobs[other])
  {
  }

  /** A job the sweep has timed out carries no token any more, so every late acknowledgement
      is taken and revives it without a bot. */
  lemma LateAckRevivesSweptJob(s: Store, id: string, token: string, now: int, later: int)
    requires Inv(s) && id in s.jobs && (PastDeadline(s.jobs[id], now) || Lapsed(s.jobs[id], now))
    ensures var t := Apply(Swept(s, now), Ack(id, token), later);
            Terminal(Swept(s, now).jobs[id]) &&
            Active(t.jobs[id]) && t.jobs[id].assignedBot.None? && !Inv(t)
  {
  }

  /** ... and every late renewal is taken too: it gives the terminal job a lease again, and
      changes nothing else of it but the time of the last heartbeat. */
  lemma LateRenewalTouchesSweptJob(s: Store, id: string, token: string, now: int, later: int)
    requires id in s.jobs && (PastDeadline(s.jobs[id], now) || Lapsed(s.jobs[id], now))
    ensures var swept, t := Swept(s, now), Apply(Swept(s, now), Renew(id, token), later);
            Terminal(swept.jobs[id]) && t.jobs[id] != swept.jobs[id] &&
            t.jobs[id] == swept.jobs[id].(leaseExpiresAt := Some(later + RENEWAL), lastHeartbeat := Some(later))
  {
  }

  /** Completion keeps the token, so a repeated acknowledgement revives a completed job; once that
      lease has run out the job is granted and completed a second time. */
  lemma LateAckAllowsSecondCompletion(s: Store, id: string, bot: string, token: string, next: string,
                                      done: int, late: int, again: int)
    requires Owns(s, bot, id) && bot in s.bots && TokenAccepted(s.jobs[id], token)
    requires late + RENEWAL <= again < s.jobs[id].timeoutAt
    requires forall k | k in s.jobs && Eligible(s.jobs[k], again) :: s.jobs[id].createdAt <= s.jobs[k].createdAt
    ensures var completed := Apply(s, Complete(id, bot, true), done);
            var revived := Apply(completed, Ack(id, token), late);
            completed.jobs[id].status.Completed? && Possible(revived, Assign(bot, next, Some(id)), again) &&
            var granted := Apply(revived, Assign(bot, next, Some(id)), again);
            Owns(granted, bot, id) && Apply(granted, Complete(id, bot, true), again).jobs[id].status.Completed?
  {
  }

  /** Handing a lapsed job to a second bot leaves the first one busy with a job it lost. */
  lemma GrantStrandsHolder(s: Store, first: string, second: string, id: string, token: string, now: int)
    requires Inv(s) && Owns(s, first, id) && Possible(s, Assign(second, token, Some(id)), now)
    ensures var t := Grant(s, second, id, token, now);
            first in t.bots && t.bots[first].status.Busy? && t.bots[first].currentJob == Some(id) &&
            Owns(t, second, id) && !Owns(t, first, id)
  {
  }

  // ---------------------------------------------------------------- the sweep

  /** The sweep times out exactly the active jobs at or past their deadline and the jobs not running
      yet whose lease has run out (without a lease, 45 seconds after the assignment), and leaves
      every other job alone; afterwards nothing is overdue. */
  lemma SweepClears(s: Store, now: int)
    ensures Swept(s, now).jobs.Keys == s.jobs.Keys
    ensures forall id | id in s.jobs ::
              var j := s.jobs[id];
              var waiting := j.status == Assigned || j.status == Starting;
              Swept(s, now).jobs[id] ==
              if ((waiting || j.status == Running) && j.timeoutAt <= now) ||
                 (waiting && j.leaseExpiresAt.Some? && j.leaseExpiresAt.value <= now) ||
                 (waiting && j.leaseExpiresAt.None? && j.startedAt.Some? && j.startedAt.value + 45 * SECOND <= now)
              then j.(status := TimedOut, assignedBot := None, leaseToken := None, leaseExpiresAt := None,
                      completedAt := Some(now))
              else j
    ensures forall id | id in Swept(s, now).jobs ::
              !PastDeadline(Swept(s, now).jobs[id], now) && !LeaseLapsed(Swept(s, now).jobs[id], now)
  {
  }

  /** ... and it frees exactly the holders of the jobs timed out ahead of their deadline. */
  lemma SweepFrees(s: Store, now: int)
    requires Inv(s)
    ensures Swept(s, now).bots.Keys == s.bots.Keys
    ensures forall bot | bot in s.bots ::
              Swept(s, now).bots[bot] ==
              if bot != "" && exists id :: Owns(s, bot, id) && now < s.jobs[id].timeoutAt && !Owns(Swept(s, now), bot, id)
              then s.bots[bot].(status := Idle, currentJob := None) else s.bots[bot]
  {
    forall bot | bot in s.bots
      ensures FreedBySweep(s, bot, now) <==>
              bot != "" && exists id :: Owns(s, bot, id) && now < s.jobs[id].timeoutAt && !Owns(Swept(s, now), bot, id)
    {
      if FreedBySweep(s, bot, now) {
        assert Owns(s, bot, s.bots[bot].currentJob.value);
      }
    }
  }

  /** The absolute deadline does not free the holder: it stays busy with the timed-out job. */
  lemma DeadlineStrandsHolder(s: Store, id: string, now: int)
    requires Inv(s) && id in s.jobs && PastDeadline(s.jobs[id], now)
    ensures var bot := s.jobs[id].assignedBot.value; var t := Swept(s, now);
            Held(s, id) && bot in t.bots && t.bots[bot] == s.bots[bot] &&
            t.bots[bot].currentJob == Some(id) && t.jobs[id].status.TimedOut?
  {
  }

  /** The tables in the middle of a sweep, with the lapsed `rows` still to be visited. */
  ghost function Midway(s: Store, rows: set<string>, now: int): Store {
    Store(map id | id in s.jobs :: if id in rows then s.jobs[id] else SweptJob(s.jobs[id], now),
          map b | b in s.bots ::
            if FreedBySweep(s, b, now) && s.bots[b].currentJob.value !in rows
            then Freed(s.bots[b]) else s.bots[b])
  }

  /** One turn of the sweep's loop. */
  ghost function ExpireRow(s: Store, id: string, now: int): Store
    requires id in s.jobs
  {
    var holder := s.jobs[id].assignedBot;
    Store(s.jobs[id := Expired(s.jobs[id], now)],
          if holder.Some? && holder.value != "" && holder.value in s.bots &&
             s.bots[holder.value].currentJob == Some(id)
          then s.bots[holder.value := Freed(s.bots[holder.value])] else s.bots)
  }

  lemma MidwayStarts(s: Store, rows: set<string>, now: int)
    requires rows == set id | id in s.jobs && Lapsed(s.jobs[id], now)
    ensures Midway(s, rows, now) ==
            s.(jobs := map id | id in s.jobs ::
                 if PastDeadline(s.jobs[id], now) then Expired(s.jobs[id], now) else s.jobs[id])
  {
  }

  lemma MidwayEnds(s: Store, now: int)
    ensures Midway(s, {}, now) == Swept(s, now)
  {
  }

  lemma MidwayStep(s: Store, rows: set<string>, id: string, now: int)
    requires forall k | k in rows :: k in s.jobs && Lapsed(s.jobs[k], now)
    requires id in rows
    ensures Midway(s, rows - {id}, now) == ExpireRow(Midway(s, rows, now), id, now)
  {
  }

  // ---------------------------------------------------------------- the tables as an object

  /** Some eligible job is the oldest one, so the query returns a row whenever it can. */
  lemma OldestExists(jobs: map<string, Job>, ids: set<string>, now: int) returns (id: string)
    requires ids <= jobs.Keys && ids != {} && forall k | k in ids :: Eligible(jobs[k], now)
    ensures id in ids && forall k | k in ids :: jobs[id].createdAt <= jobs[k].createdAt
    decreases ids
  {
    id :| id in ids;
    if ids != {id} {
      var best := OldestExists(jobs, ids - {id}, now);
      if jobs[best].createdAt < jobs[id].createdAt {
        id := best;
      }
    }
  }

  class Tables {
    var jobs: map<string, Job>
    var bots: map<string, Bot>

    ghost function View(): Store
      reads this
    {
      Store(jobs, bots)
    }

    constructor ()
      ensures View() == Store(map[], map[])
      ensures Inv(View())
    {
      jobs, bots := map[], map[];
    }

    /** One assignment transaction.  `commits` says whether the database took the writes. */
    method AssignJob(botID: string, token: string, now: int, commits: bool) returns (r: Result<string>)
      modifies this
      ensures var pick := if r.Ok? then Some(r.value) else None;
              Possible(old(View()), Assign(botID, token, pick), now) &&
              View() == Apply(old(View()), Assign(botID, token, pick), now)
      ensures r.Ok? ==>
                r.value in old(jobs) && botID in old(bots) &&
                jobs == old(jobs)[r.value := old(jobs)[r.value].(status := Assigned, assignedBot := Some(botID),
                                                                 startedAt := Some(now), leaseToken := Some(token),
                                                                 leaseExpiresAt := Some(now + 45 * SECOND))] &&
                bots == old(bots)[botID := old(bots)[botID].(status := Busy, currentJob := Some(r.value), lastSeen := now)]
      ensures r.Err? ==> View() == old(View())
      ensures r.Ok? <==> commits && botID in old(bots) && old(bots)[botID].status.Idle? &&
                         exists k :: k in old(jobs) && Eligible(old(jobs)[k], now)
      ensures r == Err(NotFound) <==> !exists k :: k in old(jobs) && Eligible(old(jobs)[k], now)
      ensures old(Inv(View())) ==> Inv(View())
    {
      var candidates := set k | k in jobs && Eligible(jobs[k], now);
      if candidates == {} {
        assert forall k | k in jobs && Eligible(jobs[k], now) :: k in candidates;
        return Err(NotFound);
      }
      ghost var oldest := OldestExists(jobs, candidates, now);
      assert oldest in candidates;
      assert Oldest(jobs, oldest, now) by {
        forall k | k in jobs && Eligible(jobs[k], now)
          ensures jobs[oldest].createdAt <= jobs[k].createdAt
        {
          assert k in candidates;
        }
      }
      var id :| id in candidates && Oldest(jobs, id, now);
      ghost var before := View();
      var savedJobs, savedBots := jobs, bots;
      jobs := jobs[id := Leased(jobs[id], botID, token, now)];
      if botID !in bots || bots[botID].status != Idle {
        jobs, bots := savedJobs, savedBots;
        return Err(Unavailable);
      }
      bots := bots[botID := bots[botID].(status := Busy, currentJob := Some(id), lastSeen := now)];
      if !commits {
        jobs, bots := savedJobs, savedBots;
        return Err(StoreFailed);
      }
      if Inv(before) {
        StepKeepsInv(before, Assign(botID, token, Some(id)), now);
      }
      return Ok(id);
    }

    method CompleteJob(id: string, botID: string, success: bool, now: int, commits: bool)
      returns (r: Result<()>)
      modifies this
      ensures r.Ok? <==> commits && old(Owns(View(), botID, id))
      ensures r.Ok? ==> jobs == old(jobs)[id := old(jobs)[id].(status := if success then Completed else Failed,
                                                               completedAt := Some(now), assignedBot := None)]
      ensures r.Ok? ==> bots == if botID in old(bots)
                                then old(bots)[botID := old(bots)[botID].(status := Idle, currentJob := None, lastSeen := now)]
                                else old(bots)
      ensures r == Err(NotAssigned) <==> !old(Owns(View(), botID, id))
      ensures r.Ok? ==> View() == Apply(old(View()), Complete(id, botID, success), now)
      ensures r.Err? ==> View() == old(View())
      ensures old(Inv(View())) ==> Inv(View())
    {
      ghost var before := View();
      if id !in jobs || jobs[id].assignedBot != Some(botID) {
        return Err(NotAssigned);
      }
      if !commits {
        return Err(StoreFailed);
      }
      jobs := jobs[id := Finished(jobs[id], success, now)];
      if botID in bots {
        bots := bots[botID := Freed(bots[botID]).(lastSeen := now)];
      }
      if Inv(before) {
        StepKeepsInv(before, Complete(id, botID, success), now);
      }
      return Ok(());
    }

    /** The sweep's loop over the rows whose lease lapsed, in any order. */
    method ExpireLapsed(lapsed: set<string>, now: int, ghost before: Store)
      requires forall id | id in lapsed :: id in before.jobs && Lapsed(before.jobs[id], now)
      requires View() == Midway(before, lapsed, now)
      modifies this
      ensures View() == Midway(before, {}, now)
    {
      var rows := lapsed;
      while rows != {}
        invariant rows <= lapsed && View() == Midway(before, rows, now)
        decreases rows
      {
        var id :| id in rows;
        MidwayStep(before, rows, id, now);
        var holder := jobs[id].assignedBot;
        jobs := jobs[id := Expired(jobs[id], now)];
        if holder.Some? && holder.value != "" {
          var b := holder.value;
          if b in bots && bots[b].currentJob == Some(id) {
            bots := bots[b := Freed(bots[b])];
          }
        }
        rows := rows - {id};
      }
    }

    /** The sweep: one update for the deadlines, then the loop. */
    method SweepExpiredLeases(now: int)
      modifies this
      ensures View() == Swept(old(View()), now)
      ensures old(Inv(View())) ==> Inv(View())
    {
      ghost var before := View();
      jobs := map id | id in jobs :: if PastDeadline(jobs[id], now) then Expired(jobs[id], now) else jobs[id];
      var rows := set id | id in jobs && LeaseLapsed(jobs[id], now);
      MidwayStarts(before, rows, now);
      ExpireLapsed(rows, now, before);
      MidwayEnds(before, now);
      if Inv(before) {
        StepKeepsInv(before, Sweep, now);
      }
    }

    method ClearStaleReference(botID: string, now: int)
      modifies this
      ensures View() == Apply(old(View()), ClearStale(botID), now)
      ensures jobs == old(jobs) && bots.Keys == old(bots).Keys
      ensures forall b | b in bots ::
                bots[b] == if b == botID && old(bots)[b].currentJob.Some? && old(bots)[b].currentJob.value in jobs &&
                              jobs[old(bots)[b].currentJob.value].status in {Completed, Failed, Cancelled}
                           then old(bots)[b].(status := Idle, currentJob := None) else old(bots)[b]
      ensures old(Inv(View())) ==> Inv(View())
    {
      ghost var before := View();
      if botID in bots && bots[botID].currentJob.Some? && bots[botID].currentJob.value in jobs {
        var status := jobs[bots[botID].currentJob.value].status;
        if status == Completed || status == Failed || status == Cancelled {
          bots := bots[botID := Freed(bots[botID])];
        }
      }
      if Inv(before) {
        StepKeepsInv(before, ClearStale(botID), now);
      }
    }

    method UpdateHeartbeat(botID: string, status: BotStatus, current: Option<string>, timeout: int, now: int)
      returns (r: Result<()>)
      modifies this
      ensures r.Ok? <==> botID != "" && botID in old(bots)
      ensures r == Err(Invalid) <==> botID == ""
      ensures r.Err? ==> View() == old(View())
      ensures r.Ok? ==> View() == Apply(old(View()), Heartbeat(botID, status, current, now + timeout), now)
      ensures r.Ok? ==> jobs == old(jobs) &&
                        bots == old(bots)[botID := old(bots)[botID].(lastSeen := now, status := status, currentJob := current,
                                                                     online := true, timeoutAt := now + timeout)]
      ensures old(Inv(View()) && Agrees(View(), botID, status, current)) ==> Inv(View())
    {
      ghost var before := View();
      if botID == "" {
        return Err(Invalid);
      }
      if botID !in bots {
        return Err(NotFound);
      }
      bots := bots[botID := bots[botID].(lastSeen := now, status := status, currentJob := current,
                                         online := true, timeoutAt := now + timeout)];
      if Inv(before) && Agrees(before, botID, status, current) {
        StepKeepsInv(before, Heartbeat(botID, status, current, now + timeout), now);
      }
      return Ok(());
    }

    /** Acknowledgement; `commits` says whether the repository took the update. */
    method AckJob(id: string, token: string, now: int, commits: bool) returns (r: Result<()>)
      modifies this
      ensures r.Ok? <==> commits && old(AckTaken(View(), id, token))
      ensures r == Err(NotFound) <==> id !in old(jobs)
      ensures r == Err(StoreFailed) <==> !commits && old(AckTaken(View(), id, token))
      ensures r.Err? ==> View() == old(View())
      ensures r.Ok? ==> View() == Apply(old(View()), Ack(id, token), now)
      ensures r.Ok? ==> jobs == old(jobs)[id := old(jobs)[id].(status := Starting, leaseExpiresAt := Some(now + 60 * SECOND))]
      ensures old(Inv(View())) && r.Ok? ==> (Inv(View()) <==> Active(old(jobs)[id]))
    {
      ghost var before := View();
      if id !in jobs {
        return Err(NotFound);
      }
      if !TokenAccepted(jobs[id], token) {
        return Err(InvalidLease);
      }
      if !commits {
        return Err(StoreFailed);
      }
      jobs := jobs[id := Acknowledged(jobs[id], now)];
      if Inv(before) {
        AckKeepsInvIff(before, id, token, now);
      }
      return Ok(());
    }

    /** Lease renewal by a job heartbeat. */
    method RenewLease(id: string, token: string, now: int, commits: bool) returns (r: Result<()>)
      modifies this
      ensures r.Ok? <==> commits && old(AckTaken(View(), id, token))
      ensures r == Err(NotFound) <==> id !in old(jobs)
      ensures r == Err(StoreFailed) <==> !commits && old(AckTaken(View(), id, token))
      ensures r.Err? ==> View() == old(View())
      ensures r.Ok? ==> View() == Apply(old(View()), Renew(id, token), now)
      ensures r.Ok? ==> jobs == old(jobs)[id := old(jobs)[id].(leaseExpiresAt := Some(now + 60 * SECOND),
                                                               lastHeartbeat := Some(now))]
      ensures old(Inv(View())) ==> Inv(View())
    {
      ghost var before := View();
      if id !in jobs {
        return Err(NotFound);
      }
      if !TokenAccepted(jobs[id], token) {
        return Err(InvalidLease);
      }
      if !commits {
        return Err(StoreFailed);
      }
      jobs := jobs[id := Renewed(jobs[id], now)];
      if Inv(before) {
        StepKeepsInv(before, Renew(id, token), now);
      }
      return Ok(());
    }
  }
}
