/**
 The timeout manager: deadlines tracked beside the cache, and the periodic check that resets
 late bots first and fails late jobs second.
 */
module Timeouts {
  import opened Common
  import opened MasterState

  datatype Master = Master(cache: Cache, jobDeadlines: map<string, int>, botDeadlines: map<string, int>)

  /** The tracked entries whose deadline has passed. */
  function Late(deadlines: map<string, int>, now: int): set<string> {
    set id | id in deadlines && deadlines[id] < now
  }

  // ---------------------------------------------------------------- many at once

  /** All bots of `ids` reset; the order does not matter. */
  function ResetAll(c: Cache, ids: set<string>): Cache {
    c.(bots := map b | b in c.bots :: if b in ids then ResetRow(c.bots[b]) else c.bots[b])
  }

  function TimedOutRow(c: Cache, id: string, now: int): Job
    requires id in c.jobs
  {
    TimeOutJob(c, id, now).jobs[id]
  }

  /** A job of `ids` is assigned to the bot. */
  ghost predicate HoldsOneOf(c: Cache, bot: string, ids: set<string>) {
    exists id :: id in ids && id in c.jobs && c.jobs[id].assignedBot == Some(bot)
  }

  /** All jobs of `ids` timed out, again in no particular order. */
  ghost function TimeOutAll(c: Cache, ids: set<string>, now: int): Cache {
    Cache(map id | id in c.jobs :: if id in ids then TimedOutRow(c, id, now) else c.jobs[id],
          map b | b in c.bots :: if HoldsOneOf(c, b, ids) then Freed(c.bots[b], now) else c.bots[b])
  }

  /** Handling the timeout of a job succeeds, and so ends its tracking, exactly when the job
      exists and a bot assigned to it does too. */
  predicate Handled(c: Cache, id: string) {
    id in c.jobs && (c.jobs[id].assignedBot.Some? ==> c.jobs[id].assignedBot.value in c.bots)
  }

  function HandledAmong(c: Cache, ids: set<string>): set<string> {
    set id | id in ids && Handled(c, id)
  }

  /** One bot more: the pointwise result takes the same step as the loop. */
  lemma ResetAllStep(c: Cache, done: set<string>, bot: string)
    requires bot !in done
    ensures ResetAll(c, done + {bot}) == Reset(ResetAll(c, done), bot)
  {
  }

  lemma TimeOutAllStep(c: Cache, done: set<string>, id: string, now: int)
    requires id !in done
    ensures TimeOutAll(c, done + {id}, now) == TimeOutJob(TimeOutAll(c, done, now), id, now)
    ensures Handled(TimeOutAll(c, done, now), id) <==> Handled(c, id)
  {
    var m, t := TimeOutAll(c, done, now), TimeOutAll(c, done + {id}, now);
    var u := TimeOutJob(m, id, now);
    assert t.jobs == u.jobs;
    forall b | b in c.bots
      ensures t.bots[b] == u.bots[b]
    {
      assert HoldsOneOf(c, b, done + {id}) <==>
             HoldsOneOf(c, b, done) || (id in c.jobs && c.jobs[id].assignedBot == Some(b));
    }
    assert t.bots == u.bots;
  }

  // ---------------------------------------------------------------- the check

  /** The whole check at time `now`. */
  ghost function Check(m: Master, now: int): Master {
    var lateBots, lateJobs := Late(m.botDeadlines, now), Late(m.jobDeadlines, now);
    var reset := ResetAll(m.cache, lateBots);
    Master(TimeOutAll(reset, lateJobs, now),
           m.jobDeadlines - HandledAmong(reset, lateJobs),
           m.botDeadlines - lateBots * m.cache.bots.Keys)
  }

  /** Active jobs have a holder, pending ones have none. */
  ghost predicate Assignable(c: Cache) {
    forall id | id in c.jobs ::
      (Active(c.jobs[id]) ==> c.jobs[id].assignedBot.Some?) &&
      (c.jobs[id].status.Pending? ==> c.jobs[id].assignedBot.None?)
  }

  /** A check ends the tracking of a late job exactly when the job and its holder exist, fails every
      such job that is not already over without a bot, and touches no job that is not late. */
  lemma CheckSettlesLateJobs(m: Master, now: int, id: string)
    requires Assignable(m.cache) && id in m.jobDeadlines
    ensures id !in Check(m, now).jobDeadlines <==>
              m.jobDeadlines[id] < now && id in m.cache.jobs &&
              (m.cache.jobs[id].assignedBot.Some? ==> m.cache.jobs[id].assignedBot.value in m.cache.bots)
    ensures id in m.cache.jobs && id !in Check(m, now).jobDeadlines ==>
              id in Check(m, now).cache.jobs && Terminal(Check(m, now).cache.jobs[id]) &&
              Check(m, now).cache.jobs[id] ==
              if Terminal(m.cache.jobs[id]) && m.cache.jobs[id].assignedBot.None? then m.cache.jobs[id]
              else m.cache.jobs[id].(status := Failed, completedAt := Some(now), assignedBot := None)
    ensures id in m.cache.jobs && id in Check(m, now).jobDeadlines ==>
              id in Check(m, now).cache.jobs && Check(m, now).cache.jobs[id] == m.cache.jobs[id]
  {
  }

  /** ... and the premise is kept, so it holds for the next check as well. */
  lemma CheckKeepsAssignable(m: Master, now: int)
    requires Assignable(m.cache)
    ensures Assignable(Check(m, now).cache)
  {
  }

  /** In every state of every run, whatever has failed before, a check therefore settles exactly
      the late jobs that still exist. */
  lemma CheckSettlesInRuns(r: Run, i: nat, m: Master, now: int, id: string)
    requires Valid(r) && Accounted(r.states[0]) && i <= |r.events| && m.cache == r.states[i] && id in m.jobDeadlines
    ensures id !in Check(m, now).jobDeadlines <==> m.jobDeadlines[id] < now && id in m.cache.jobs
    ensures id !in Check(m, now).jobDeadlines ==>
              id in Check(m, now).cache.jobs && Terminal(Check(m, now).cache.jobs[id])
    ensures Accounted(Check(m, now).cache)
  {
    AccountedAlways(r, i);
    CheckSettlesLateJobs(m, now, id);
  }

  /** The entry of a deleted job is never dropped: every later check fails on it again. */
  lemma MissingJobStaysTracked(m: Master, now: int, id: string)
    requires id in m.jobDeadlines && id !in m.cache.jobs
    ensures id in Check(m, now).jobDeadlines && id !in Check(m, now).cache.jobs
    ensures Check(m, now).jobDeadlines[id] == m.jobDeadlines[id]
  {
  }

  /** What a check makes of any bot: a late one is reset, and whoever holds a late job, late itself or
      not, comes out idle; nobody else is touched. */
  lemma CheckOnBot(m: Master, now: int, bot: string)
    requires bot in m.cache.bots
    ensures var late := bot in m.botDeadlines && m.botDeadlines[bot] < now;
            var holds := exists id :: id in m.jobDeadlines && m.jobDeadlines[id] < now && id in m.cache.jobs &&
                                      m.cache.jobs[id].assignedBot == Some(bot);
            var row := m.cache.bots[bot];
            var reset := if late then row.(status := BotTimedOut, currentJob := None, failureCount := row.failureCount + 1)
                         else row;
            && bot in Check(m, now).cache.bots
            && Check(m, now).cache.bots[bot] ==
               (if holds then reset.(status := Idle, currentJob := None, lastSeen := now) else reset)
            && (bot in Check(m, now).botDeadlines <==> bot in m.botDeadlines && !late)
  {
    var reset := ResetAll(m.cache, Late(m.botDeadlines, now));
    assert HoldsOneOf(reset, bot, Late(m.jobDeadlines, now)) <==>
           exists id :: id in m.jobDeadlines && m.jobDeadlines[id] < now && id in m.cache.jobs &&
                        m.cache.jobs[id].assignedBot == Some(bot);
  }

  /** What a check does to a late bot: the reset comes first, so a late bot that holds a late job is
      handed back as idle, while a late bot without one stays out of service. */
  lemma CheckOnLateBot(m: Master, now: int, bot: string)
    requires bot in m.cache.bots && bot in m.botDeadlines && m.botDeadlines[bot] < now
    ensures var after := Check(m, now);
            && bot in after.cache.bots && bot !in after.botDeadlines
            && after.cache.bots[bot].currentJob.None?
            && after.cache.bots[bot].failureCount == m.cache.bots[bot].failureCount + 1
            && (after.cache.bots[bot].status.Idle? <==> HoldsOneOf(m.cache, bot, Late(m.jobDeadlines, now)))
            && (after.cache.bots[bot].status.BotTimedOut? <==> !HoldsOneOf(m.cache, bot, Late(m.jobDeadlines, now)))
  {
  }

  /** Timing out a job that is already terminal leaves it alone exactly when nobody is assigned
      to it (a job reconciled by the poller keeps its bot, and is turned into a failure). */
  lemma TimeoutRespectsTerminalIff(c: Cache, id: string, now: int)
    requires Handled(c, id) && Terminal(c.jobs[id]) && !c.jobs[id].status.Failed?
    ensures TimeOutJob(c, id, now).jobs[id].status == c.jobs[id].status <==> c.jobs[id].assignedBot.None?
    ensures c.jobs[id].assignedBot.Some? ==> TimeOutJob(c, id, now).jobs[id].status.Failed?
  {
  }

  // ---------------------------------------------------------------- the manager as an object

  class TimeoutManager {
    const state: PersistentState
    var jobDeadlines: map<string, int>
    var botDeadlines: map<string, int>

    ghost function View(): Master
      reads this, state
    {
      Master(state.View(), jobDeadlines, botDeadlines)
    }

    constructor (state: PersistentState)
      ensures this.state == state && jobDeadlines == map[] && botDeadlines == map[]
    {
      this.state := state;
      jobDeadlines, botDeadlines := map[], map[];
    }

    method SetJobTimeout(id: string, deadline: int)
      modifies this
      ensures View() == old(View()).(jobDeadlines := old(jobDeadlines)[id := deadline])
    {
      jobDeadlines := jobDeadlines[id := deadline];
    }

    method RemoveJobTimeout(id: string)
      modifies this
      ensures View() == old(View()).(jobDeadlines := old(jobDeadlines) - {id})
    {
      jobDeadlines := jobDeadlines - {id};
    }

    method RemoveBotTimeout(bot: string)
      modifies this
      ensures View() == old(View()).(botDeadlines := old(botDeadlines) - {bot})
    {
      botDeadlines := botDeadlines - {bot};
    }

    method HandleBotTimeout(bot: string) returns (r: Result<()>)
      modifies this, state
      ensures r.Ok? <==> bot in old(state.bots)
      ensures View() == Master(Reset(old(state.View()), bot), old(jobDeadlines),
                               if r.Ok? then old(botDeadlines) - {bot} else old(botDeadlines))
    {
      r := state.ResetBot(bot);
      if r.Ok? {
        botDeadlines := botDeadlines - {bot};
      }
    }

    method HandleJobTimeout(id: string, now: int) returns (r: Result<()>)
      modifies this, state
      ensures r.Ok? <==> old(Handled(state.View(), id))
      ensures View() == Master(TimeOutJob(old(state.View()), id, now),
                               if r.Ok? then old(jobDeadlines) - {id} else old(jobDeadlines),
                               old(botDeadlines))
    {
      if id !in state.jobs {
        return Err(NotFound);
      }
      var job := state.jobs[id];
      if job.assignedBot.Some? {
        r := state.CompleteJob(id, job.assignedBot.value, false, now, true);
        if r.Err? {
          return;
        }
      } else if job.status == Pending {
        r := state.UpdateJobStatusToTimedOut(id, now);
        if r.Err? {
          return;
        }
      }
      jobDeadlines := jobDeadlines - {id};
      return Ok(());
    }

    method PerformTimeoutCheck(now: int)
      modifies this, state
      ensures View() == Check(old(View()), now)
    {
      CheckBots(now);
      CheckJobs(now);
    }

    method CheckBots(now: int)
      modifies this, state
      ensures var late := Late(old(botDeadlines), now);
              View() == Master(ResetAll(old(state.View()), late), old(jobDeadlines),
                               old(botDeadlines) - late * old(state.bots).Keys)
    {
      ghost var c, deadlines := state.View(), botDeadlines;
      var late := Late(botDeadlines, now);
      ghost var all, done := late, {};
      assert ResetAll(c, done) == c;
      assert botDeadlines == deadlines - done * c.bots.Keys;
      while late != {}
        invariant all == late + done && late !! done
        invariant state.View() == ResetAll(c, done)
        invariant jobDeadlines == old(jobDeadlines)
        invariant botDeadlines == deadlines - done * c.bots.Keys
        decreases late
      {
        var b :| b in late;
        ResetAllStep(c, done, b);
        var r := HandleBotTimeout(b);
        late, done := late - {b}, done + {b};
      }
    }

    method CheckJobs(now: int)
      modifies this, state
      ensures var late := Late(old(jobDeadlines), now);
              View() == Master(TimeOutAll(old(state.View()), late, now),
                               old(jobDeadlines) - HandledAmong(old(state.View()), late),
                               old(botDeadlines))
    {
      ghost var c, deadlines := state.View(), jobDeadlines;
      var late := Late(jobDeadlines, now);
      ghost var all, done := late, {};
      assert TimeOutAll(c, done, now) == c;
      assert jobDeadlines == deadlines - HandledAmong(c, done);
      while late != {}
        invariant all == late + done && late !! done
        invariant state.View() == TimeOutAll(c, done, now)
        invariant botDeadlines == old(botDeadlines)
        invariant jobDeadlines == deadlines - HandledAmong(c, done)
        decreases late
      {
        var id :| id in late;
        TimeOutAllStep(c, done, id, now);
        var r := HandleJobTimeout(id, now);
        late, done := late - {id}, done + {id};
      }
    }
  }
}
