/**
 The recovery manager as an object: the loops that carry out the repairs, each proved to have
 the effect that the pointwise functions of module Recovery describe.
 */
module RecoveryManager {
  import opened Common
  import opened MasterState
  import opened Timeouts
  import opened Recovery

  /** The middle of the stage that recovers orphans, with the jobs of `done` requeued. */
  ghost function Requeueing(m: Master, done: set<string>, deadline: int): Master {
    m.(cache := RequeueAll(m.cache, done), jobDeadlines := Track(m.jobDeadlines, done, deadline))
  }

  /** One turn of that stage. */
  ghost function RequeuedOne(m: Master, id: string, deadline: int): Master
    requires id in m.cache.jobs
  {
    m.(cache := m.cache.(jobs := m.cache.jobs[id := Requeued(m.cache.jobs[id])]),
       jobDeadlines := m.jobDeadlines[id := deadline])
  }

  lemma RequeueingStarts(m: Master, deadline: int)
    ensures Requeueing(m, {}, deadline) == m
  {
  }

  lemma RequeueStep(c: Cache, done: set<string>, id: string)
    requires id in c.jobs && id !in done
    ensures RequeueAll(c, done).jobs.Keys == c.jobs.Keys && RequeueAll(c, done).jobs[id] == c.jobs[id]
    ensures RequeueAll(c, done + {id}) == c.(jobs := RequeueAll(c, done).jobs[id := Requeued(c.jobs[id])])
  {
  }

  lemma TrackStep(deadlines: map<string, int>, done: set<string>, id: string, deadline: int)
    ensures Track(deadlines, done + {id}, deadline) == Track(deadlines, done, deadline)[id := deadline]
  {
  }

  lemma RequeueingStep(m: Master, done: set<string>, here: Master, id: string, deadline: int)
    returns (next: Master)
    requires id in m.cache.jobs && id !in done && here == Requeueing(m, done, deadline)
    ensures id in here.cache.jobs
    ensures next == Requeueing(m, done + {id}, deadline) && next == RequeuedOne(here, id, deadline)
  {
    next := Requeueing(m, done + {id}, deadline);
    RequeueStep(m.cache, done, id);
    TrackStep(m.jobDeadlines, done, id, deadline);
  }

  /** The middle of the stage that resumes pending jobs, with the jobs of `done` visited. */
  ghost function Resumed(m: Master, done: set<string>, now: int, deadline: int): Master {
    m.(cache := ExtendAll(m.cache, done, now, deadline),
       jobDeadlines := Track(m.jobDeadlines, done * PendingJobs(m.cache), deadline))
  }

  lemma ResumedStarts(m: Master, now: int, deadline: int)
    ensures Resumed(m, {}, now, deadline) == m
  {
  }

  /** One turn of that stage. */
  ghost function ResumedOne(m: Master, id: string, now: int, deadline: int): Master
    requires id in m.cache.jobs
  {
    var job := m.cache.jobs[id];
    if !job.status.Pending? then m
    else m.(cache := if job.timeoutAt < now
                     then m.cache.(jobs := m.cache.jobs[id := job.(timeoutAt := deadline)]) else m.cache,
            jobDeadlines := m.jobDeadlines[id := deadline])
  }

  lemma ExtendStep(c: Cache, done: set<string>, id: string, now: int, deadline: int)
    requires id in c.jobs && id !in done
    ensures ExtendAll(c, done, now, deadline).jobs.Keys == c.jobs.Keys
    ensures ExtendAll(c, done, now, deadline).jobs[id] == c.jobs[id]
    ensures ExtendAll(c, done + {id}, now, deadline) ==
            if PendingLate(c.jobs[id], now)
            then c.(jobs := ExtendAll(c, done, now, deadline).jobs[id := c.jobs[id].(timeoutAt := deadline)])
            else ExtendAll(c, done, now, deadline)
  {
  }

  lemma TrackPendingStep(m: Master, done: set<string>, id: string, deadline: int)
    requires id in m.cache.jobs
    ensures var pending := PendingJobs(m.cache);
            Track(m.jobDeadlines, (done + {id}) * pending, deadline) ==
            if m.cache.jobs[id].status.Pending? then Track(m.jobDeadlines, done * pending, deadline)[id := deadline]
            else Track(m.jobDeadlines, done * pending, deadline)
  {
  }

  lemma ResumedStep(m: Master, done: set<string>, here: Master, id: string, now: int, deadline: int)
    returns (next: Master)
    requires id in m.cache.jobs && id !in done && here == Resumed(m, done, now, deadline)
    ensures id in here.cache.jobs
    ensures next == Resumed(m, done + {id}, now, deadline) && next == ResumedOne(here, id, now, deadline)
  {
    next := Resumed(m, done + {id}, now, deadline);
    ExtendStep(m.cache, done, id, now, deadline);
    TrackPendingStep(m, done, id, deadline);
  }

  lemma ResumedEnds(m: Master, now: int, execution: int)
    ensures Resumed(m, m.cache.jobs.Keys, now, now + execution) == ResumePending(m, now, execution)
  {
  }

  lemma FixBotStep(c: Cache, done: set<string>, b: string)
    requires b in c.bots && b !in done
    ensures FixBots(c, done).bots[b] == c.bots[b]
    ensures FixBots(c, done + {b}).bots ==
            if DanglingBot(c, c.bots[b])
            then FixBots(c, done).bots[b := c.bots[b].(status := Idle, currentJob := None)]
            else FixBots(c, done).bots
  {
  }

  lemma FixJobStep(c: Cache, done: set<string>, id: string)
    requires id in c.jobs && id !in done
    ensures FixJobs(c, done).jobs[id] == c.jobs[id]
    ensures FixJobs(c, done + {id}).jobs ==
            if DanglingJob(c, c.jobs[id])
            then FixJobs(c, done).jobs[id := Requeued(c.jobs[id])]
            else FixJobs(c, done).jobs
  {
  }

  class Manager {
    const timeout: TimeoutManager
    const state: PersistentState
    const execution: int

    ghost predicate Valid() {
      timeout.state == state
    }

    ghost function View(): Master
      reads timeout, timeout.state
    {
      timeout.View()
    }

    constructor (timeout: TimeoutManager, execution: int)
      ensures Valid() && this.timeout == timeout && this.execution == execution
    {
      this.timeout := timeout;
      this.state := timeout.state;
      this.execution := execution;
    }

    method FindOrphanedJobs(now: int) returns (orphaned: set<string>)
      ensures orphaned == Orphans(state.View(), now)
    {
      orphaned := {};
      var rest := state.jobs.Keys;
      while rest != {}
        invariant rest <= state.jobs.Keys
        invariant orphaned == Orphans(state.View(), now) - rest
        decreases rest
      {
        var id :| id in rest;
        rest := rest - {id};
        var job := state.jobs[id];
        if job.status != Assigned && job.status != Starting && job.status != Running {
          continue;
        }
        if job.assignedBot.None? || job.assignedBot.value !in state.bots {
          orphaned := orphaned + {id};
          continue;
        }
        var bot := state.bots[job.assignedBot.value];
        if bot.status == BotFailed || bot.status == BotTimedOut || !bot.online {
          orphaned := orphaned + {id};
          continue;
        }
        if job.leaseExpiresAt.Some? && now - GRACE > job.leaseExpiresAt.value {
          orphaned := orphaned + {id};
          continue;
        }
        if now > job.timeoutAt + GRACE {
          if bot.currentJob.None? || bot.currentJob.value != id {
            orphaned := orphaned + {id};
          }
        }
      }
    }

    method FindTimedOutBots(now: int) returns (late: set<string>)
      ensures late == ExpiredBots(state.View(), now)
    {
      late := {};
      var rest := state.bots.Keys;
      while rest != {}
        invariant rest <= state.bots.Keys
        invariant late == ExpiredBots(state.View(), now) - rest
        decreases rest
      {
        var b :| b in rest;
        rest := rest - {b};
        if now > state.bots[b].timeoutAt && state.bots[b].status != BotTimedOut {
          late := late + {b};
        }
      }
    }

    method RequeueJob(id: string, now: int)
      requires Valid() && id in state.jobs
      modifies timeout, state
      ensures View() == RequeuedOne(old(View()), id, now + execution)
    {
      ghost var next := RequeuedOne(View(), id, now + execution);
      state.SaveJob(id, state.jobs[id].(status := Pending, assignedBot := None, startedAt := None));
      timeout.RemoveJobTimeout(id);
      timeout.SetJobTimeout(id, now + execution);
      assert timeout.jobDeadlines == next.jobDeadlines;
    }

    /** One turn of the loop below, which started at `m` and has visited `done`. */
    method RequeueNext(id: string, now: int, ghost m: Master, ghost done: set<string>)
      requires Valid() && View() == Requeueing(m, done, now + execution)
      requires id in m.cache.jobs && id !in done
      modifies timeout, state
      ensures View() == Requeueing(m, done + {id}, now + execution)
    {
      ghost var next := RequeueingStep(m, done, View(), id, now + execution);
      RequeueJob(id, now);
      assert View() == next;
    }

    method RecoverOrphanedJobs(now: int)
      requires Valid()
      modifies timeout, state
      ensures View() == RecoverOrphans(old(View()), now, execution)
    {
      ghost var m := View();
      var orphaned := FindOrphanedJobs(now);
      ghost var all, done := orphaned, {};
      RequeueingStarts(m, now + execution);
      while orphaned != {}
        invariant all == orphaned + done && orphaned !! done && all <= m.cache.jobs.Keys
        invariant View() == Requeueing(m, done, now + execution)
        decreases orphaned
      {
        var id :| id in orphaned;
        RequeueNext(id, now, m, done);
        orphaned, done := orphaned - {id}, done + {id};
      }
      assert done == all;
    }

    method ResetTimedOutBots(now: int)
      requires Valid()
      modifies timeout, state
      ensures View() == ResetExpired(old(View()), now)
    {
      ghost var m := View();
      var late := FindTimedOutBots(now);
      ghost var all, done := late, {};
      assert ResetAll(m.cache, done).bots == m.cache.bots;
      while late != {}
        invariant all == late + done && late !! done && all <= m.cache.bots.Keys
        invariant View() == m.(cache := ResetAll(m.cache, done), botDeadlines := m.botDeadlines - done)
        decreases late
      {
        var b :| b in late;
        ResetAllStep(m.cache, done, b);
        var r := state.ResetBot(b);
        timeout.RemoveBotTimeout(b);
        late, done := late - {b}, done + {b};
      }
    }

    /** Deletes the jobs of a maintenance pass; their tracked deadlines stay. */
    method CleanUpLightly(now: int)
      requires Valid()
      modifies state
      ensures View() == LightCleanup(old(View()), now)
    {
      ghost var m := View();
      var jobs := state.jobs;
      var rest := jobs.Keys;
      ghost var gone := {};
      while rest != {}
        invariant rest <= jobs.Keys && gone == VeryStaleJobs(m.cache, now) - rest
        invariant state.View() == m.cache.(jobs := jobs - gone)
        decreases rest
      {
        var id :| id in rest;
        rest := rest - {id};
        var job := jobs[id];
        if (job.status == Completed || job.status == Failed) && job.completedAt.Some? &&
           now - job.completedAt.value > VERY_STALE {
          state.DeleteJob(id);
          gone := gone + {id};
        }
      }
    }

    method PerformMaintenance(now: int)
      requires Valid()
      modifies timeout, state
      ensures View() == Maintain(old(View()), now, execution)
    {
      RecoverOrphanedJobs(now);
      ResetTimedOutBots(now);
      CleanUpLightly(now);
    }

    method ResumeJob(id: string, now: int)
      requires Valid() && id in state.jobs
      modifies timeout, state
      ensures View() == ResumedOne(old(View()), id, now, now + execution)
    {
      var job := state.jobs[id];
      if job.status == Pending {
        if job.timeoutAt < now {
          state.SaveJob(id, job.(timeoutAt := now + execution));
        }
        timeout.SetJobTimeout(id, now + execution);
      }
    }

    /** One turn of the loop below, which started at `m` and has visited `done`. */
    method ResumeNext(id: string, now: int, ghost m: Master, ghost done: set<string>)
      requires Valid() && View() == Resumed(m, done, now, now + execution)
      requires id in m.cache.jobs && id !in done
      modifies timeout, state
      ensures View() == Resumed(m, done + {id}, now, now + execution)
    {
      ghost var next := ResumedStep(m, done, View(), id, now, now + execution);
      ResumeJob(id, now);
      assert View() == next;
    }

    /** The loop over all jobs, from the state `m`. */
    method ResumeAll(now: int, ghost m: Master)
      requires Valid() && View() == m == Resumed(m, {}, now, now + execution)
      modifies timeout, state
      ensures View() == Resumed(m, m.cache.jobs.Keys, now, now + execution)
    {
      var rest := state.jobs.Keys;
      ghost var done: set<string> := {};
      while rest != {}
        invariant rest + done == m.cache.jobs.Keys && rest !! done
        invariant View() == Resumed(m, done, now, now + execution)
        decreases rest
      {
        var id :| id in rest;
        ResumeNext(id, now, m, done);
        rest, done := rest - {id}, done + {id};
      }
      assert done == m.cache.jobs.Keys;
    }

    method ResumePendingJobs(now: int)
      requires Valid()
      modifies timeout, state
      ensures View() == ResumePending(old(View()), now, execution)
    {
      ResumedStarts(View(), now, now + execution);
      ResumedEnds(View(), now, execution);
      ResumeAll(now, View());
    }

    method CleanupStaleData(now: int)
      requires Valid()
      modifies timeout, state
      ensures View() == CleanupStale(old(View()), now)
    {
      ghost var m := View();
      var jobs := state.jobs;
      var rest := jobs.Keys;
      ghost var gone := {};
      while rest != {}
        invariant rest <= jobs.Keys && gone == StaleJobs(m.cache, now) - rest
        invariant View() == m.(cache := m.cache.(jobs := jobs - gone), jobDeadlines := m.jobDeadlines - gone)
        decreases rest
      {
        var id :| id in rest;
        rest := rest - {id};
        var job := jobs[id];
        var isStale := false;
        if job.status == Completed || job.status == Failed || job.status == Cancelled {
          var completion := if job.completedAt.Some? then job.completedAt.value else job.createdAt;
          isStale := now - completion > STALE;
        }
        if job.status == Pending && now - job.createdAt > STALE {
          isStale := true;
        }
        if isStale {
          timeout.RemoveJobTimeout(id);
          state.DeleteJob(id);
          gone := gone + {id};
        }
      }
    }

    method ValidateSystemState()
      requires Valid()
      modifies state
      ensures View() == Validate(old(View()))
    {
      ghost var m := View();
      var rest := state.bots.Keys;
      ghost var done := {};
      assert FixBots(m.cache, done).bots == m.cache.bots;
      while rest != {}
        invariant rest + done == m.cache.bots.Keys && rest !! done
        invariant state.View() == FixBots(m.cache, done)
        decreases rest
      {
        var b :| b in rest;
        FixBotStep(m.cache, done, b);
        var bot := state.bots[b];
        if bot.currentJob.Some? && bot.currentJob.value !in state.jobs {
          state.SaveBot(b, bot.(status := Idle, currentJob := None));
        }
        rest, done := rest - {b}, done + {b};
      }
      ghost var c := state.View();
      rest, done := state.jobs.Keys, {};
      assert FixJobs(c, done).jobs == c.jobs;
      while rest != {}
        invariant rest + done == c.jobs.Keys && rest !! done
        invariant state.View() == FixJobs(c, done)
        decreases rest
      {
        var id :| id in rest;
        FixJobStep(c, done, id);
        var job := state.jobs[id];
        if (job.status == Assigned || job.status == Running) && job.assignedBot.Some? &&
           job.assignedBot.value !in state.bots {
          state.SaveJob(id, job.(status := Pending, assignedBot := None, startedAt := None));
        }
        rest, done := rest - {id}, done + {id};
      }
    }

    /** Startup recovery after the state has been loaded. */
    method RecoverOnStartup(t: Clock)
      requires Valid()
      modifies timeout, state
      ensures View() == Startup(old(View()), t, execution)
    {
      RecoverOrphanedJobs(t.orphans);
      ResetTimedOutBots(t.bots);
      ResumePendingJobs(t.pending);
      CleanupStaleData(t.stale);
      ValidateSystemState();
    }

    /** Handles the failure of a bot.  `jobSaved` says whether its job could be saved. */
    method HandleBotFailure(botID: string, now: int, jobSaved: bool) returns (r: Result<()>)
      requires Valid()
      modifies timeout, state
      ensures state.View() == FailBot(old(state.View()), botID, jobSaved)
      ensures r == Err(NotFound) <==> botID !in old(state.bots) || old(DanglingBot(state.View(), state.bots[botID]))
      ensures var job := if botID in old(state.bots) then old(state.bots)[botID].currentJob else None;
              timeout.jobDeadlines == if r.Ok? && job.Some? then old(timeout.jobDeadlines)[job.value := now + execution]
                                      else old(timeout.jobDeadlines)
      ensures timeout.botDeadlines == if r.Ok? then old(timeout.botDeadlines) - {botID} else old(timeout.botDeadlines)
    {
      if botID !in state.bots {
        return Err(NotFound);
      }
      var bot := state.bots[botID];
      bot := bot.(status := BotFailed, failureCount := bot.failureCount + 1);
      state.SaveBot(botID, bot);
      if bot.currentJob.Some? {
        var id := bot.currentJob.value;
        if id !in state.jobs {
          return Err(NotFound);
        }
        state.SaveJob(id, state.jobs[id].(status := Pending, assignedBot := None, startedAt := None));
        if !jobSaved {
          return Err(StoreFailed);
        }
        timeout.RemoveJobTimeout(id);
        timeout.SetJobTimeout(id, now + execution);
      }
      state.SaveBot(botID, bot.(currentJob := None));
      timeout.RemoveBotTimeout(botID);
      return Ok(());
    }
  }
}
