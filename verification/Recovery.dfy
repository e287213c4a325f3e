/**
 Self-repair: orphaned jobs go back to the queue, timed-out bots are reset, old jobs are
 deleted.  Maintenance runs the first three steps periodically, startup recovery runs them
 followed by a consistency pass.
 */
module Recovery {
  import opened Common
  import opened MasterState
  import opened Timeouts

  const GRACE: int := 10 * SECOND
  const STALE: int := 24 * HOUR
  const VERY_STALE: int := 48 * HOUR

  // ---------------------------------------------------------------- orphans

  predicate Unhealthy(b: Bot) {
    b.status.BotFailed? || b.status.BotTimedOut? || !b.online
  }

  /** An active job whose bot cannot be expected to finish it. */
  predicate IsOrphan(c: Cache, id: string, now: int)
    requires id in c.jobs
  {
    var job := c.jobs[id];
    Active(job) &&
    (job.assignedBot.None? || job.assignedBot.value !in c.bots ||
     var bot := c.bots[job.assignedBot.value];
     Unhealthy(bot) ||
     (job.leaseExpiresAt.Some? && job.leaseExpiresAt.value < now - GRACE) ||
     (job.timeoutAt + GRACE < now && bot.currentJob != Some(id)))
  }

  /** An active job is an orphan when its bot is missing, failed, timed out or offline, when its lease
      has been over for more than 10 seconds, or when its deadline has and the bot does not work on
      it; a bot that does is trusted however late the job is. */
  lemma OrphanIff(c: Cache, id: string, now: int)
    requires id in c.jobs
    ensures !Active(c.jobs[id]) ==> !IsOrphan(c, id, now)
    ensures Active(c.jobs[id]) && !(exists bot :: bot in c.bots && HeldBy(c, id, bot)) ==> IsOrphan(c, id, now)
    ensures forall bot | bot in c.bots && HeldBy(c, id, bot) ::
              IsOrphan(c, id, now) <==>
              c.bots[bot].status == BotFailed || c.bots[bot].status == BotTimedOut || !c.bots[bot].online ||
              (c.jobs[id].leaseExpiresAt.Some? && c.jobs[id].leaseExpiresAt.value + 10 * SECOND < now) ||
              (!WorksOn(c, bot, id) && c.jobs[id].timeoutAt + 10 * SECOND < now)
  {
  }

  /** Maintenance never takes a job from an online bot within its timeout that works on it and whose
      lease, if there is one, is not over: not even long after the deadline of the job. */
  lemma TrustedJobStays(m: Master, now: int, execution: int, bot: string, id: string)
    requires bot in m.cache.bots && HeldBy(m.cache, id, bot) && WorksOn(m.cache, bot, id)
    requires m.cache.bots[bot].status == Busy && m.cache.bots[bot].online && now <= m.cache.bots[bot].timeoutAt
    requires m.cache.jobs[id].leaseExpiresAt.Some? ==> now <= m.cache.jobs[id].leaseExpiresAt.value + 10 * SECOND
    ensures var a := Maintain(m, now, execution).cache;
            && id in a.jobs && a.jobs[id] == m.cache.jobs[id]
            && bot in a.bots && a.bots[bot] == m.cache.bots[bot]
  {
  }

  function Orphans(c: Cache, now: int): set<string> {
    set id | id in c.jobs && IsOrphan(c, id, now)
  }

  predicate BotExpired(b: Bot, now: int) {
    b.timeoutAt < now && !b.status.BotTimedOut?
  }

  function ExpiredBots(c: Cache, now: int): set<string> {
    set b | b in c.bots && BotExpired(c.bots[b], now)
  }

  // ---------------------------------------------------------------- the steps, many at once

  function RequeueAll(c: Cache, ids: set<string>): Cache {
    c.(jobs := map id | id in c.jobs :: if id in ids then Requeued(c.jobs[id]) else c.jobs[id])
  }

  function Track(deadlines: map<string, int>, ids: set<string>, deadline: int): map<string, int> {
    deadlines + map id | id in ids :: deadline
  }

  function RecoverOrphans(m: Master, now: int, execution: int): Master {
    var ids := Orphans(m.cache, now);
    m.(cache := RequeueAll(m.cache, ids), jobDeadlines := Track(m.jobDeadlines, ids, now + execution))
  }

  function ResetExpired(m: Master, now: int): Master {
    var ids := ExpiredBots(m.cache, now);
    m.(cache := ResetAll(m.cache, ids), botDeadlines := m.botDeadlines - ids)
  }

  predicate VeryStale(j: Job, now: int) {
    (j.status.Completed? || j.status.Failed?) && j.completedAt.Some? && VERY_STALE < now - j.completedAt.value
  }

  function VeryStaleJobs(c: Cache, now: int): set<string> {
    set id | id in c.jobs && VeryStale(c.jobs[id], now)
  }

  /** Deletes finished jobs, but not their tracked deadlines. */
  function LightCleanup(m: Master, now: int): Master {
    m.(cache := m.cache.(jobs := m.cache.jobs - VeryStaleJobs(m.cache, now)))
  }

  /** One maintenance pass. */
  function Maintain(m: Master, now: int, execution: int): Master {
    LightCleanup(ResetExpired(RecoverOrphans(m, now, execution), now), now)
  }

  // ---------------------------------------------------------------- maintenance converges

  /** What a pass leaves of the jobs and the bots, row by row. */
  ghost predicate Passed(c: Cache, a: Cache, now: int) {
    && (forall id :: id in a.jobs <==>
          id in c.jobs && !(c.jobs[id].status in {Completed, Failed} && c.jobs[id].completedAt.Some? &&
                            now - c.jobs[id].completedAt.value > 48 * HOUR))
    && (forall id | id in a.jobs ::
          a.jobs[id] == if IsOrphan(c, id, now)
                        then c.jobs[id].(status := Pending, assignedBot := None, startedAt := None) else c.jobs[id])
    && a.bots.Keys == c.bots.Keys
    && (forall b | b in a.bots ::
          a.bots[b] == if c.bots[b].timeoutAt < now && c.bots[b].status != BotTimedOut
                       then c.bots[b].(status := BotTimedOut, currentJob := None, failureCount := c.bots[b].failureCount + 1)
                       else c.bots[b])
  }

  lemma MaintainRows(m: Master, now: int, execution: int)
    ensures Passed(m.cache, Maintain(m, now, execution).cache, now)
  {
  }

  /** ... and of the tracked deadlines. */
  lemma MaintainDeadlines(m: Master, now: int, execution: int)
    ensures var a := Maintain(m, now, execution);
            && (forall id :: id in a.jobDeadlines <==> id in m.jobDeadlines || id in Orphans(m.cache, now))
            && (forall id | id in a.jobDeadlines ::
                  a.jobDeadlines[id] == if id in Orphans(m.cache, now) then now + execution else m.jobDeadlines[id])
            && (forall b :: b in a.botDeadlines <==>
                  b in m.botDeadlines &&
                  !(b in m.cache.bots && m.cache.bots[b].timeoutAt < now && m.cache.bots[b].status != BotTimedOut))
            && (forall b | b in a.botDeadlines :: a.botDeadlines[b] == m.botDeadlines[b])
  {
  }

  /** A healthy assignment that the reset of the bots is about to break. */
  ghost predicate AboutToBeOrphaned(c: Cache, id: string, now: int) {
    id in c.jobs && Active(c.jobs[id]) && !IsOrphan(c, id, now) &&
    c.bots[c.jobs[id].assignedBot.value].timeoutAt < now
  }

  /** After one pass the orphans are exactly the jobs whose bots that pass has reset. */
  lemma OrphansAfterOnePass(m: Master, now: int, execution: int, id: string)
    ensures id in Orphans(Maintain(m, now, execution).cache, now) <==> AboutToBeOrphaned(m.cache, id, now)
  {
  }

  /** One pass suffices exactly when no bot past its timeout holds a healthy job. */
  lemma OnePassSufficesIff(m: Master, now: int, execution: int)
    ensures Orphans(Maintain(m, now, execution).cache, now) == {} <==>
            forall id :: !AboutToBeOrphaned(m.cache, id, now)
  {
    forall id
      ensures id in Orphans(Maintain(m, now, execution).cache, now) <==> AboutToBeOrphaned(m.cache, id, now)
    {
      OrphansAfterOnePass(m, now, execution, id);
    }
  }

  ghost predicate Quiet(c: Cache, now: int) {
    ExpiredBots(c, now) == {} && VeryStaleJobs(c, now) == {}
  }

  /** A pass leaves no bot to reset and nothing to delete. */
  lemma OnePassQuiets(m: Master, now: int, execution: int)
    ensures Quiet(Maintain(m, now, execution).cache, now)
  {
  }

  lemma QuietBreaksNothing(c: Cache, id: string, now: int)
    requires Quiet(c, now)
    ensures !AboutToBeOrphaned(c, id, now)
  {
    assert forall b | b in c.bots && BotExpired(c.bots[b], now) :: b in ExpiredBots(c, now);
  }

  /** A quiet state without orphans is a fixed point of maintenance. */
  lemma QuietIsFixed(m: Master, now: int, execution: int)
    requires Quiet(m.cache, now) && Orphans(m.cache, now) == {}
    ensures Maintain(m, now, execution) == m
  {
  }

  /** Two passes at one instant always reach a state without orphans, and a third one changes
      nothing at all. */
  lemma TwoPassesConverge(m: Master, now: int, execution: int)
    ensures var settled := Maintain(Maintain(m, now, execution), now, execution);
            Orphans(settled.cache, now) == {} && Maintain(settled, now, execution) == settled
  {
    var once := Maintain(m, now, execution);
    var twice := Maintain(once, now, execution);
    OnePassQuiets(m, now, execution);
    OnePassQuiets(once, now, execution);
    OnePassSufficesIff(once, now, execution);
    forall id
      ensures !AboutToBeOrphaned(once.cache, id, now)
    {
      QuietBreaksNothing(once.cache, id, now);
    }
    QuietIsFixed(twice, now, execution);
  }

  /** A bot that is still within its timeout works on a job that is an orphan: it is offline, or
      the lease of the job has run out. */
  ghost predicate KeepsOrphan(c: Cache, bot: string, id: string, now: int) {
    WorksOn(c, bot, id) && id in c.jobs && IsOrphan(c, id, now) && now <= c.bots[bot].timeoutAt
  }

  /** What two passes make of a cache `c`, row by row. */
  ghost predicate Settled(c: Cache, s: Cache, now: int) {
    && s.bots.Keys == c.bots.Keys
    && (forall b | b in s.bots ::
          s.bots[b] == if BotExpired(c.bots[b], now) then ResetRow(c.bots[b]) else c.bots[b])
    && (forall id | id in s.jobs :: id in c.jobs &&
          s.jobs[id] == if IsOrphan(c, id, now) || AboutToBeOrphaned(c, id, now)
                        then Requeued(c.jobs[id]) else c.jobs[id])
    && (forall id | id in c.jobs && Active(c.jobs[id]) :: id in s.jobs)
  }

  lemma SettledRows(m: Master, now: int, execution: int)
    ensures Settled(m.cache, Maintain(Maintain(m, now, execution), now, execution).cache, now)
  {
    var once := Maintain(m, now, execution);
    MaintainRows(m, now, execution);
    MaintainRows(once, now, execution);
    forall id | id in once.cache.jobs
      ensures IsOrphan(once.cache, id, now) <==> AboutToBeOrphaned(m.cache, id, now)
    {
      OrphansAfterOnePass(m, now, execution, id);
    }
    SettledByTwo(m.cache, once.cache, Maintain(once, now, execution).cache, now);
  }

  lemma SettledByTwo(c: Cache, a: Cache, s: Cache, now: int)
    requires Passed(c, a, now) && Passed(a, s, now)
    requires forall id | id in a.jobs :: IsOrphan(a, id, now) <==> AboutToBeOrphaned(c, id, now)
    ensures Settled(c, s, now)
  {
  }

  lemma SettledPair(c: Cache, s: Cache, now: int, bot: string, id: string)
    requires Bijection(c) && Settled(c, s, now)
    ensures HeldBy(s, id, bot) ==> WorksOn(s, bot, id)
    ensures WorksOn(s, bot, id) && !HeldBy(s, id, bot) <==> KeepsOrphan(c, bot, id, now)
  {
    assert WorksOn(c, bot, id) <==> HeldBy(c, id, bot);
  }

  lemma SettledBijectionIff(c: Cache, s: Cache, now: int)
    requires Bijection(c) && Settled(c, s, now)
    ensures forall bot, id | HeldBy(s, id, bot) :: WorksOn(s, bot, id)
    ensures Bijection(s) <==> forall bot, id :: !KeepsOrphan(c, bot, id, now)
  {
    forall bot, id
      ensures HeldBy(s, id, bot) ==> WorksOn(s, bot, id)
      ensures WorksOn(s, bot, id) && !HeldBy(s, id, bot) <==> KeepsOrphan(c, bot, id, now)
    {
      SettledPair(c, s, now, bot, id);
    }
  }

  /** From a bijective cache two passes leave every active job with a bot that works on it; they
      restore the whole bijection exactly when no bot within its timeout works on an orphan, for
      such a bot goes on pointing at the requeued job. */
  lemma TwoPassesRestoreBijectionIff(m: Master, now: int, execution: int)
    requires Bijection(m.cache)
    ensures var s := Maintain(Maintain(m, now, execution), now, execution).cache;
            && (forall bot, id | HeldBy(s, id, bot) :: WorksOn(s, bot, id))
            && (Bijection(s) <==> forall bot, id :: !KeepsOrphan(m.cache, bot, id, now))
  {
    SettledRows(m, now, execution);
    SettledBijectionIff(m.cache, Maintain(Maintain(m, now, execution), now, execution).cache, now);
  }

  /** One bot that runs one job. */
  function Lone(now: int, timeoutAt: int, online: bool): (m: Master)
    ensures Bijection(m.cache)
  {
    var job := Job(Running, Some("bot"), "afl++", now, Some(now), None, now, None, None, None);
    var bot := Bot(Busy, Some("job"), now, timeoutAt, online, 0, []);
    var c := Cache(map["job" := job], map["bot" := bot]);
    assert forall b, id :: WorksOn(c, b, id) <==> b == "bot" && id == "job";
    assert forall b, id :: HeldBy(c, id, b) <==> b == "bot" && id == "job";
    Master(c, map[], map[])
  }

  /** A state that maintenance does not bring back: its only bot is offline, within its timeout. */
  lemma TwoPassesMayFallShort(now: int, execution: int)
    ensures exists m: Master ::
              Bijection(m.cache) && !Bijection(Maintain(Maintain(m, now, execution), now, execution).cache)
  {
    var m := Lone(now, now, false);
    assert KeepsOrphan(m.cache, "bot", "job", now);
    TwoPassesRestoreBijectionIff(m, now, execution);
  }

  /** A state where one pass is not enough: its only bot is late and holds a healthy job. */
  lemma OnePassMayFallShort(now: int, execution: int)
    ensures exists m: Master :: Bijection(m.cache) && Orphans(Maintain(m, now, execution).cache, now) != {}
  {
    var m := Lone(now, now - 1, true);
    assert AboutToBeOrphaned(m.cache, "job", now);
    OrphansAfterOnePass(m, now, execution, "job");
  }

  /** When the search for orphans finds a job leaked by failed assignment stores: exactly when its bot
      is unhealthy or the job's deadline, or a lease it had before, is past by the grace period. */
  lemma LeakedJobOrphanedIff(c: Cache, bot: string, picks: seq<string>, id: string, now: int, later: int)
    requires PicksAvailable(c, bot, picks, now) && id in picks && bot in c.bots && id in c.jobs
    requires c.bots[bot].currentJob != Some(id)
    ensures var d := AfterFailedStores(c, bot, picks, now);
            id in d.jobs && Active(d.jobs[id]) &&
            (IsOrphan(d, id, later) <==>
             Unhealthy(c.bots[bot]) || c.jobs[id].timeoutAt + GRACE < later ||
             (c.jobs[id].leaseExpiresAt.Some? && c.jobs[id].leaseExpiresAt.value + GRACE < later))
  {
    LeakedRow(c, bot, picks, id, now);
    RetriesLeakJobs(c, bot, picks, now);
  }

  lemma {:induction false} LeakedRow(c: Cache, bot: string, picks: seq<string>, id: string, now: int)
    requires PicksAvailable(c, bot, picks, now) && id in c.jobs
    ensures var d := AfterFailedStores(c, bot, picks, now);
            id in d.jobs && d.jobs[id].leaseExpiresAt == c.jobs[id].leaseExpiresAt &&
            d.jobs[id].timeoutAt == c.jobs[id].timeoutAt && (id in picks ==> now < c.jobs[id].timeoutAt)
    decreases picks
  {
    if picks != [] {
      LeakedRow(Hand(c, bot, picks[0], now, false), bot, picks[1..], id, now);
      assert picks == [picks[0]] + picks[1..];
    }
  }

  // ---------------------------------------------------------------- startup recovery

  predicate PendingLate(j: Job, now: int) {
    j.status.Pending? && j.timeoutAt < now
  }

  function PendingJobs(c: Cache): set<string> {
    set id | id in c.jobs && c.jobs[id].status.Pending?
  }

  function ExtendAll(c: Cache, ids: set<string>, now: int, deadline: int): Cache {
    c.(jobs := map id | id in c.jobs ::
         if id in ids && PendingLate(c.jobs[id], now) then c.jobs[id].(timeoutAt := deadline) else c.jobs[id])
  }

  /** Pending jobs whose deadline has passed get a new one; all pending jobs are tracked. */
  function ResumePending(m: Master, now: int, execution: int): Master {
    var ids := PendingJobs(m.cache);
    m.(cache := ExtendAll(m.cache, ids, now, now + execution),
       jobDeadlines := Track(m.jobDeadlines, ids, now + execution))
  }

  predicate Stale(j: Job, now: int) {
    ((j.status.Completed? || j.status.Failed? || j.status.Cancelled?) &&
     STALE < now - (if j.completedAt.Some? then j.completedAt.value else j.createdAt)) ||
    (j.status.Pending? && STALE < now - j.createdAt)
  }

  function StaleJobs(c: Cache, now: int): set<string> {
    set id | id in c.jobs && Stale(c.jobs[id], now)
  }

  function CleanupStale(m: Master, now: int): Master {
    var ids := StaleJobs(m.cache, now);
    m.(cache := m.cache.(jobs := m.cache.jobs - ids), jobDeadlines := m.jobDeadlines - ids)
  }

  predicate DanglingBot(c: Cache, b: Bot) {
    b.currentJob.Some? && b.currentJob.value !in c.jobs
  }

  /** The check looks at assigned and running jobs, not at starting ones. */
  predicate DanglingJob(c: Cache, j: Job) {
    (j.status.Assigned? || j.status.Running?) && j.assignedBot.Some? && j.assignedBot.value !in c.bots
  }

  function FixBots(c: Cache, ids: set<string>): Cache {
    c.(bots := map b | b in c.bots ::
         if b in ids && DanglingBot(c, c.bots[b])
         then c.bots[b].(status := Idle, currentJob := None) else c.bots[b])
  }

  function FixJobs(c: Cache, ids: set<string>): Cache {
    c.(jobs := map id | id in c.jobs ::
         if id in ids && DanglingJob(c, c.jobs[id]) then Requeued(c.jobs[id]) else c.jobs[id])
  }

  function Validate(m: Master): Master {
    var c := FixBots(m.cache, m.cache.bots.Keys);
    m.(cache := FixJobs(c, c.jobs.Keys))
  }

  /** The readings of the clock by the successive stages of a startup. */
  datatype Clock = Clock(orphans: int, bots: int, pending: int, stale: int)

  function BeforeCleanup(m: Master, t: Clock, execution: int): Master {
    ResumePending(ResetExpired(RecoverOrphans(m, t.orphans, execution), t.bots), t.pending, execution)
  }

  function Startup(m: Master, t: Clock, execution: int): Master {
    Validate(CleanupStale(BeforeCleanup(m, t, execution), t.stale))
  }

  /** What the stages before the cleanup leave of a job. */
  function ResumedRow(c: Cache, id: string, t: Clock, execution: int): Job
    requires id in c.jobs
  {
    var row := if IsOrphan(c, id, t.orphans) then Requeued(c.jobs[id]) else c.jobs[id];
    if PendingLate(row, t.pending) then row.(timeoutAt := t.pending + execution) else row
  }

  lemma BeforeCleanupRows(m: Master, t: Clock, execution: int)
    ensures var a := BeforeCleanup(m, t, execution).cache;
            && a.jobs.Keys == m.cache.jobs.Keys && a.bots.Keys == m.cache.bots.Keys
            && (forall id | id in a.jobs :: a.jobs[id] == ResumedRow(m.cache, id, t, execution))
  {
  }

  /** The orphan stage leaves no active job without an existing bot, and no later stage makes one. */
  lemma ActiveJobsKeepTheirBot(m: Master, t: Clock, execution: int, id: string)
    requires id in m.cache.jobs && Active(ResumedRow(m.cache, id, t, execution))
    ensures var row := ResumedRow(m.cache, id, t, execution);
            row.assignedBot.Some? && row.assignedBot.value in m.cache.bots
  {
  }

  /** A job survives startup exactly when it is not stale after being requeued and extended, and
      then it is left exactly as those stages left it. */
  lemma StartupRows(m: Master, t: Clock, execution: int)
    ensures var f := Startup(m, t, execution).cache;
            && f.bots.Keys == m.cache.bots.Keys
            && (forall id :: id in f.jobs <==>
                  id in m.cache.jobs && !Stale(ResumedRow(m.cache, id, t, execution), t.stale))
            && (forall id | id in f.jobs :: f.jobs[id] == ResumedRow(m.cache, id, t, execution))
  {
    BeforeCleanupRows(m, t, execution);
    var b := BeforeCleanup(m, t, execution);
    var c := CleanupStale(b, t.stale);
    forall id | id in c.cache.jobs
      ensures !DanglingJob(c.cache, c.cache.jobs[id])
    {
      if Active(c.cache.jobs[id]) {
        ActiveJobsKeepTheirBot(m, t, execution, id);
      }
    }
    assert FixBots(c.cache, c.cache.bots.Keys).jobs == c.cache.jobs;
  }

  lemma ResumedRowIs(c: Cache, t: Clock, execution: int, id: string)
    requires id in c.jobs
    ensures var j := c.jobs[id];
            var orphan := IsOrphan(c, id, t.orphans);
            var pending := orphan || j.status == Pending;
            var end := if pending || j.completedAt.None? then j.createdAt else j.completedAt.value;
            var queued := if orphan then j.(status := Pending, assignedBot := None, startedAt := None) else j;
            && (Stale(ResumedRow(c, id, t, execution), t.stale) <==>
                (pending || j.status in {Completed, Failed, Cancelled}) && t.stale - end > 24 * HOUR)
            && ResumedRow(c, id, t, execution) ==
               if pending && j.timeoutAt < t.pending then queued.(timeoutAt := t.pending + execution) else queued
  {
  }

  /** A job that is pending or was orphaned survives startup if it was created at most 24 hours before,
      a completed, failed or cancelled one if it ended at most 24 hours before, and any other always.
      The orphan is back in the queue, and a pending job past its deadline has a new one. */
  lemma StartupJob(m: Master, t: Clock, execution: int, id: string)
    requires id in m.cache.jobs
    ensures var j := m.cache.jobs[id];
            var orphan := IsOrphan(m.cache, id, t.orphans);
            var pending := orphan || j.status == Pending;
            var end := if pending || j.completedAt.None? then j.createdAt else j.completedAt.value;
            var stale := (pending || j.status in {Completed, Failed, Cancelled}) && t.stale - end > 24 * HOUR;
            var queued := if orphan then j.(status := Pending, assignedBot := None, startedAt := None) else j;
            var f := Startup(m, t, execution).cache;
            && (id in f.jobs <==> !stale)
            && (id in f.jobs ==>
                  f.jobs[id] == if pending && j.timeoutAt < t.pending then queued.(timeoutAt := t.pending + execution)
                                else queued)
  {
    StartupRows(m, t, execution);
    ResumedRowIs(m.cache, t, execution, id);
    var f := Startup(m, t, execution).cache;
    assert id in f.jobs <==> !Stale(ResumedRow(m.cache, id, t, execution), t.stale);
    assert id in f.jobs ==> f.jobs[id] == ResumedRow(m.cache, id, t, execution);
  }

  lemma ResumedDeadlines(m: Master, t: Clock, execution: int, id: string)
    ensures var pending := id in m.cache.jobs &&
                           (IsOrphan(m.cache, id, t.orphans) || m.cache.jobs[id].status == Pending);
            var b := BeforeCleanup(m, t, execution);
            && (id in b.jobDeadlines <==> pending || id in m.jobDeadlines)
            && (id in b.jobDeadlines ==>
                  b.jobDeadlines[id] == if pending then t.pending + execution else m.jobDeadlines[id])
  {
  }

  /** Every surviving job that is pending is tracked anew, and a deleted one is not tracked; all other
      entries stay, even those of jobs that were missing before. */
  lemma StartupDeadline(m: Master, t: Clock, execution: int, id: string)
    ensures var pending := id in m.cache.jobs &&
                           (IsOrphan(m.cache, id, t.orphans) || m.cache.jobs[id].status == Pending);
            var f := Startup(m, t, execution);
            && (id in f.jobDeadlines <==>
                (id in m.cache.jobs ==> id in f.cache.jobs) && (pending || id in m.jobDeadlines))
            && (id in f.jobDeadlines ==>
                  f.jobDeadlines[id] == if pending then t.pending + execution else m.jobDeadlines[id])
  {
    StartupRows(m, t, execution);
    BeforeCleanupRows(m, t, execution);
    ResumedDeadlines(m, t, execution, id);
    var b := BeforeCleanup(m, t, execution);
    assert Startup(m, t, execution).jobDeadlines == b.jobDeadlines - StaleJobs(b.cache, t.stale);
  }

  /** A bot past its timeout is reset, and one that points at a job that did not survive is idle. */
  lemma StartupBot(m: Master, t: Clock, execution: int, bot: string)
    requires bot in m.cache.bots
    ensures var b := m.cache.bots[bot];
            var late := b.timeoutAt < t.bots && b.status != BotTimedOut;
            var row := if late then b.(status := BotTimedOut, currentJob := None, failureCount := b.failureCount + 1) else b;
            var f := Startup(m, t, execution);
            && bot in f.cache.bots
            && f.cache.bots[bot] == (if row.currentJob.Some? && row.currentJob.value !in f.cache.jobs
                                     then row.(status := Idle, currentJob := None) else row)
            && (bot in f.botDeadlines <==> bot in m.botDeadlines && !late)
  {
    StartupRows(m, t, execution);
  }

  /** The last stage by itself: which bots it idles and which jobs it requeues. */
  lemma ValidateRows(m: Master)
    ensures var c, v := m.cache, Validate(m).cache;
            && v.jobs.Keys == c.jobs.Keys && v.bots.Keys == c.bots.Keys
            && (forall b | b in c.bots ::
                  v.bots[b] == if c.bots[b].currentJob.Some? && c.bots[b].currentJob.value !in c.jobs
                               then c.bots[b].(status := Idle, currentJob := None) else c.bots[b])
            && (forall id | id in c.jobs ::
                  v.jobs[id] == if c.jobs[id].status in {Assigned, Running} && c.jobs[id].assignedBot.Some? &&
                                   c.jobs[id].assignedBot.value !in c.bots
                                then c.jobs[id].(status := Pending, assignedBot := None, startedAt := None) else c.jobs[id])
  {
  }

  /** After startup no bot points at a missing job, every active job names an existing bot, no
      pending job is past its deadline and nothing stale is left. */
  lemma StartupConsistent(m: Master, t: Clock, execution: int)
    requires execution >= 0
    ensures var f := Startup(m, t, execution).cache;
            && (forall b | b in f.bots && f.bots[b].currentJob.Some? :: f.bots[b].currentJob.value in f.jobs)
            && (forall id | id in f.jobs && Active(f.jobs[id]) ::
                  f.jobs[id].assignedBot.Some? && f.jobs[id].assignedBot.value in f.bots)
            && (forall id | id in f.jobs && f.jobs[id].status.Pending? :: t.pending <= f.jobs[id].timeoutAt)
            && (forall id | id in f.jobs :: !Stale(f.jobs[id], t.stale))
  {
    StartupRows(m, t, execution);
    var f := Startup(m, t, execution).cache;
    forall id | id in f.jobs && Active(f.jobs[id])
      ensures f.jobs[id].assignedBot.Some? && f.jobs[id].assignedBot.value in f.bots
    {
      ActiveJobsKeepTheirBot(m, t, execution, id);
    }
  }

  /** A long-running job that lost its bot is requeued and then thrown away in the same startup
      exactly when it was created more than a day ago. */
  lemma OldOrphansAreDeleted(m: Master, t: Clock, execution: int, id: string)
    requires id in m.cache.jobs && IsOrphan(m.cache, id, t.orphans)
    ensures id in Startup(m, t, execution).cache.jobs <==> t.stale - m.cache.jobs[id].createdAt <= 24 * HOUR
  {
    StartupJob(m, t, execution, id);
  }
}
