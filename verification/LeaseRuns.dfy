/**
 Safety of the lease kernel over whole runs, that is, over arbitrary finite interleavings of the
 kernel's steps.  Fencing, leases and order hold whatever the bots report; the invariant between
 jobs and bots holds exactly in the orderly runs.
 */
module LeaseRuns {
  import opened Common
  import opened LeaseKernel

  datatype Run = Run(states: seq<Store>, events: seq<Event>, times: seq<int>)

  ghost predicate StepAt(r: Run, i: nat)
    requires |r.states| == |r.events| + 1 && |r.times| == |r.events| && i < |r.events|
  {
    Possible(r.states[i], r.events[i], r.times[i]) &&
    r.states[i + 1] == Apply(r.states[i], r.events[i], r.times[i])
  }

  /** Any run, from any state. */
  ghost predicate Valid(r: Run) {
    |r.states| == |r.events| + 1 && |r.times| == |r.events| &&
    forall i: nat | i < |r.events| :: StepAt(r, i)
  }

  /** A clock that never goes back. */
  ghost predicate Monotone(r: Run) {
    forall i, k | 0 <= i <= k < |r.times| :: r.times[i] <= r.times[k]
  }

  /** A run from the invariant in which no report contradicts an assignment and no acknowledgement
      comes too late. */
  ghost predicate OrderlyRun(r: Run) {
    Valid(r) && Inv(r.states[0]) && forall i: nat | i < |r.events| :: Orderly(r.states[i], r.events[i])
  }

  /** Step `i` hands job `id` to bot `bot`. */
  ghost predicate Granted(r: Run, i: nat, id: string, bot: string)
    requires Valid(r)
  {
    i < |r.events| && r.events[i].Assign? && r.events[i].pick == Some(id) && r.events[i].bot == bot
  }

  /** Step `i` completes job `id`. */
  ghost predicate Completes(r: Run, i: nat, id: string)
    requires Valid(r)
  {
    i < |r.events| && r.events[i].Complete? && r.events[i].id == id && Owns(r.states[i], r.events[i].bot, id)
  }

  // ---------------------------------------------------------------- the invariant

  /** In every state of an orderly run each active job is held by a bot busy with exactly that job. */
  lemma {:induction false} InvAlways(r: Run, i: nat)
    requires OrderlyRun(r) && i <= |r.events|
    ensures Inv(r.states[i])
  {
    if i > 0 {
      InvAlways(r, i - 1);
      assert StepAt(r, i - 1);
      StepKeepsInv(r.states[i - 1], r.events[i - 1], r.times[i - 1]);
    }
  }

  /** ... and in no other run that starts in the invariant does it hold throughout. */
  lemma InvAlwaysIff(r: Run)
    requires Valid(r) && Inv(r.states[0])
    ensures (forall i: nat | i <= |r.events| :: Inv(r.states[i])) <==> OrderlyRun(r)
  {
    if OrderlyRun(r) {
      forall i: nat | i <= |r.events|
        ensures Inv(r.states[i])
      {
        InvAlways(r, i);
      }
    } else {
      var i: nat :| i < |r.events| && !Orderly(r.states[i], r.events[i]);
      assert StepAt(r, i);
      if Inv(r.states[i]) {
        StepKeepsInvIff(r.states[i], r.events[i], r.times[i]);
        assert !Inv(r.states[i + 1]);
      }
    }
  }

  /** No bot ever holds two active jobs in an orderly run. */
  lemma NoBotHoldsTwoJobs(r: Run, i: nat, j: string, k: string)
    requires OrderlyRun(r) && i <= |r.events|
    requires j in r.states[i].jobs && k in r.states[i].jobs && j != k
    requires Active(r.states[i].jobs[j]) && Active(r.states[i].jobs[k])
    ensures r.states[i].jobs[j].assignedBot.Some? && r.states[i].jobs[k].assignedBot.Some?
    ensures r.states[i].jobs[j].assignedBot != r.states[i].jobs[k].assignedBot
  {
    InvAlways(r, i);
    assert Held(r.states[i], j) && Held(r.states[i], k);
  }

  // ---------------------------------------------------------------- what never changes

  /** A job is never dropped, and its creation time and deadline are fixed. */
  lemma {:induction false} JobsPersist(r: Run, i: nat, k: nat, id: string)
    requires Valid(r) && i <= k <= |r.events| && id in r.states[i].jobs
    ensures id in r.states[k].jobs
    ensures r.states[k].jobs[id].createdAt == r.states[i].jobs[id].createdAt
    ensures r.states[k].jobs[id].timeoutAt == r.states[i].jobs[id].timeoutAt
    decreases k
  {
    if i < k {
      JobsPersist(r, i, k - 1, id);
      assert StepAt(r, k - 1);
    }
  }

  /** A job that has left the queue never returns to it. */
  lemma {:induction false} NeverPendingAgain(r: Run, i: nat, k: nat, id: string)
    requires Valid(r) && i <= k <= |r.events| && id in r.states[i].jobs
    requires !r.states[i].jobs[id].status.Pending?
    ensures id in r.states[k].jobs && !r.states[k].jobs[id].status.Pending?
    decreases k
  {
    if i < k {
      NeverPendingAgain(r, i, k - 1, id);
      assert StepAt(r, k - 1);
    }
  }

  /** The row without the two columns a lease renewal writes. */
  function Core(j: Job): Job {
    j.(leaseExpiresAt := None, lastHeartbeat := None)
  }

  /** Step `i` is an accepted renewal of job `id`. */
  ghost predicate Renews(r: Run, i: nat, id: string)
    requires Valid(r)
  {
    i < |r.events| && r.events[i].Renew? && r.events[i].id == id && AckTaken(r.states[i], id, r.events[i].token)
  }

  /** Step `i` is an accepted acknowledgement of job `id`, which is already terminal. */
  ghost predicate Revives(r: Run, i: nat, id: string)
    requires Valid(r)
  {
    i < |r.events| && r.events[i].Ack? && r.events[i].id == id &&
    AckTaken(r.states[i], id, r.events[i].token) && Terminal(r.states[i].jobs[id])
  }

  /** The job is assigned to a bot only while it is active. */
  predicate Tidy(s: Store, id: string) {
    id in s.jobs && s.jobs[id].assignedBot.Some? ==> Active(s.jobs[id])
  }

  /** Every step keeps it so, whatever the bots report. */
  lemma {:induction false} TidyAlways(r: Run, i: nat, k: nat, id: string)
    requires Valid(r) && i <= k <= |r.events| && Tidy(r.states[i], id)
    ensures Tidy(r.states[k], id)
    decreases k
  {
    if i < k {
      TidyAlways(r, i, k - 1, id);
      assert StepAt(r, k - 1);
    }
  }

  /** In state `k` job `id` is as it was in state `i`, up to the columns of a lease renewal. */
  ghost predicate Frozen(r: Run, i: nat, k: nat, id: string)
    requires Valid(r) && i <= |r.events| && k <= |r.events|
  {
    id in r.states[i].jobs && id in r.states[k].jobs &&
    Core(r.states[k].jobs[id]) == Core(r.states[i].jobs[id])
  }

  /** Until it is revived a terminal job is frozen up to the columns of a lease renewal, and frozen
      entirely as long as no renewal of it is accepted. */
  lemma {:induction false} TerminalFrozen(r: Run, i: nat, k: nat, id: string)
    requires Valid(r) && i <= k <= |r.events| && Tidy(r.states[i], id)
    requires id in r.states[i].jobs && Terminal(r.states[i].jobs[id])
    requires forall n: nat | i <= n < k :: !Revives(r, n, id)
    ensures Frozen(r, i, k, id)
    ensures (forall n: nat | i <= n < k :: !Renews(r, n, id)) ==> r.states[k].jobs[id] == r.states[i].jobs[id]
    decreases k
  {
    if i < k {
      var p: nat := k - 1;
      TerminalFrozen(r, i, p, id);
      assert StepAt(r, p) && !Revives(r, p, id);
      assert Renews(r, p, id) || r.states[k].jobs[id] == r.states[p].jobs[id];
    }
  }

  /** Exactly a late acknowledgement thaws a terminal job. */
  lemma TerminalFrozenIff(r: Run, i: nat, k: nat, id: string)
    requires Valid(r) && i <= k <= |r.events| && Tidy(r.states[i], id)
    requires id in r.states[i].jobs && Terminal(r.states[i].jobs[id])
    ensures (forall n: nat | i <= n <= k :: Frozen(r, i, n, id)) <==>
            (forall n: nat | i <= n < k :: !Revives(r, n, id))
  {
    if n: nat :| i <= n < k && Revives(r, n, id) {
      assert StepAt(r, n);
      assert !Frozen(r, i, n + 1, id);
    } else {
      forall n: nat | i <= n <= k
        ensures Frozen(r, i, n, id)
      {
        TerminalFrozen(r, i, n, id);
      }
    }
  }

  // ---------------------------------------------------------------- fencing

  /** Between two completions of a job it was revived by a late acknowledgement. */
  lemma SecondCompletionNeedsRevival(r: Run, i: nat, k: nat, id: string)
    requires Valid(r) && i < k && Completes(r, i, id) && Completes(r, k, id)
    ensures exists n: nat :: i < n < k && Revives(r, n, id)
  {
    assert StepAt(r, i);
    if forall n: nat | i < n < k :: !Revives(r, n, id) {
      TerminalFrozen(r, i + 1, k, id);
      assert false;
    }
  }

  /** The outcome a completion records is final, unless the job is revived. */
  lemma OutcomeIsFinal(r: Run, i: nat, k: nat, id: string)
    requires Valid(r) && Completes(r, i, id) && i < k <= |r.events|
    requires forall n: nat | i < n < k :: !Revives(r, n, id)
    ensures id in r.states[k].jobs && r.states[k].jobs[id].assignedBot.None?
    ensures r.states[k].jobs[id].status == if r.events[i].success then Completed else Failed
    ensures r.states[k].jobs[id].completedAt == Some(r.times[i])
  {
    assert StepAt(r, i);
    TerminalFrozen(r, i + 1, k, id);
  }

  /** So in an orderly run a job is completed at most once. */
  lemma CompletedAtMostOnce(r: Run, i: nat, k: nat, id: string)
    requires OrderlyRun(r) && Completes(r, i, id) && Completes(r, k, id)
    ensures i == k
  {
    if i < k {
      SecondCompletionNeedsRevival(r, i, k, id);
    } else if k < i {
      SecondCompletionNeedsRevival(r, k, i, id);
    }
  }

  /** Ownership is only gained by a grant: a bot that does not own a job stays locked out of it
      until the job is granted to that bot, and its attempts to complete it change nothing. */
  lemma {:induction false} FencedOut(r: Run, i: nat, k: nat, id: string, bot: string)
    requires Valid(r) && i <= k <= |r.events| && !Owns(r.states[i], bot, id)
    requires forall n: nat | i <= n < k :: !Granted(r, n, id, bot)
    ensures !Owns(r.states[k], bot, id)
    ensures forall success, now :: Apply(r.states[k], Complete(id, bot, success), now) == r.states[k]
    decreases k
  {
    if i < k {
      FencedOut(r, i, k - 1, id, bot);
      assert StepAt(r, k - 1);
      assert !Granted(r, k - 1, id, bot);
    }
  }

  /** Step `i` is the last grant of job `id` before step `k`, and it goes to `bot`. */
  ghost predicate LastGrant(r: Run, i: nat, k: nat, id: string, bot: string)
    requires Valid(r)
  {
    i < k && Granted(r, i, id, bot) && forall n: nat, other | i < n < k :: !Granted(r, n, id, other)
  }

  /** An owner was either there from the start or is the bot of the job's last grant. */
  lemma {:induction false} OwnerWasGranted(r: Run, k: nat, id: string, bot: string)
    requires Valid(r) && k <= |r.events| && Owns(r.states[k], bot, id)
    ensures (exists i: nat :: LastGrant(r, i, k, id, bot)) ||
            (Owns(r.states[0], bot, id) && forall n: nat, other | n < k :: !Granted(r, n, id, other))
  {
    if k > 0 {
      var p: nat := k - 1;
      assert StepAt(r, p);
      if Granted(r, p, id, bot) {
        assert LastGrant(r, p, k, id, bot);
      } else {
        assert forall other :: !Granted(r, p, id, other);
        OwnerWasGranted(r, p, id, bot);
        if i: nat :| LastGrant(r, i, p, id, bot) {
          assert LastGrant(r, i, k, id, bot);
        }
      }
    }
  }

  /** Every completion is the work of the bot the job was last granted to: a job that nobody
      owned at the start was granted to the completing bot and to nobody else since. */
  lemma CompletionHasGrant(r: Run, k: nat, id: string)
    requires Valid(r) && Completes(r, k, id) && forall bot :: !Owns(r.states[0], bot, id)
    ensures exists i: nat :: LastGrant(r, i, k, id, r.events[k].bot)
  {
    OwnerWasGranted(r, k, id, r.events[k].bot);
  }

  // ---------------------------------------------------------------- leases

  /** Since a grant at `since` the job has not been up for grabs before the lease ran out. */
  ghost predicate Guarded(j: Job, since: int) {
    Terminal(j) || j.status.Running? ||
    (Active(j) && j.leaseExpiresAt.Some? && since + LEASE <= j.leaseExpiresAt.value)
  }

  lemma {:induction false} GuardedSince(r: Run, i: nat, k: nat, id: string, bot: string)
    requires Valid(r) && Monotone(r) && Granted(r, i, id, bot) && i < k <= |r.events|
    ensures id in r.states[k].jobs && Guarded(r.states[k].jobs[id], r.times[i])
    decreases k
  {
    if k == i + 1 {
      assert StepAt(r, i);
    } else {
      GuardedSince(r, i, k - 1, id, bot);
      assert StepAt(r, k - 1);
      assert r.times[i] <= r.times[k - 1];
    }
  }

  /** Somebody looks after job `id` at step `i`: it is acknowledged, renewed, completed or granted. */
  ghost predicate Attended(r: Run, i: nat, id: string)
    requires Valid(r)
  {
    Completes(r, i, id) || Renews(r, i, id) || (exists bot :: Granted(r, i, id, bot)) ||
    (i < |r.events| && r.events[i].Ack? && r.events[i].id == id && AckTaken(r.states[i], id, r.events[i].token))
  }

  /** A job granted at step `i` is overdue at this time if nobody has looked after it. */
  ghost predicate Overdue(r: Run, i: nat, id: string, now: int)
    requires Valid(r) && i < |r.events| && id in r.states[i].jobs
  {
    r.times[i] + 45 * SECOND <= now || r.states[i].jobs[id].timeoutAt <= now
  }

  lemma {:induction false} UnattendedRow(r: Run, i: nat, k: nat, id: string, bot: string)
    requires Valid(r) && Granted(r, i, id, bot) && i < k <= |r.events|
    requires id in r.states[i].jobs
    requires forall n: nat | i < n < k :: !Attended(r, n, id)
    requires forall n: nat | i < n < k && r.events[n].Sweep? :: !Overdue(r, i, id, r.times[n])
    ensures id in r.states[i + 1].jobs && id in r.states[k].jobs
    ensures r.states[k].jobs[id] == r.states[i + 1].jobs[id]
    decreases k
  {
    assert StepAt(r, i);
    if i + 1 < k {
      var p: nat := k - 1;
      UnattendedRow(r, i, p, id, bot);
      GrantLapses(r.states[i], bot, id, r.events[i].token, r.times[i], r.times[p], "");
      assert StepAt(r, p) && !Attended(r, p, id);
      if r.events[p].Assign? && r.events[p].pick.Some? {
        assert !Granted(r, p, id, r.events[p].bot);
      }
    }
  }

  /** A granted job that nobody looks after stays assigned to its bot and is offered again exactly
      from 45 seconds after the grant on, until its deadline; the first sweep from then on, or
      from the deadline on, times it out, and no earlier one touches it. */
  lemma UnattendedGrantLapses(r: Run, i: nat, k: nat, id: string, bot: string)
    requires Valid(r) && Granted(r, i, id, bot) && i < k <= |r.events|
    requires id in r.states[i].jobs
    requires forall n: nat | i < n < k :: !Attended(r, n, id)
    requires forall n: nat | i < n < k && r.events[n].Sweep? :: !Overdue(r, i, id, r.times[n])
    ensures Owns(r.states[k], bot, id) && r.states[k].jobs[id].status.Assigned?
    ensures forall now :: Eligible(r.states[k].jobs[id], now) <==>
                          r.times[i] + 45 * SECOND <= now < r.states[i].jobs[id].timeoutAt
    ensures k < |r.events| && r.events[k].Sweep? ==>
              id in r.states[k + 1].jobs &&
              if Overdue(r, i, id, r.times[k])
              then r.states[k + 1].jobs[id].status.TimedOut? && r.states[k + 1].jobs[id].assignedBot.None? &&
                   r.states[k + 1].jobs[id].completedAt == Some(r.times[k])
              else r.states[k + 1].jobs[id] == r.states[k].jobs[id]
  {
    UnattendedRow(r, i, k, id, bot);
    assert StepAt(r, i);
    forall now
      ensures Eligible(r.states[k].jobs[id], now) <==>
              r.times[i] + 45 * SECOND <= now < r.states[i].jobs[id].timeoutAt
    {
      GrantLapses(r.states[i], bot, id, r.events[i].token, r.times[i], now, "");
    }
    if k < |r.events| {
      assert StepAt(r, k);
    }
  }

  /** Two grants of the same job are at least a whole lease apart. */
  lemma GrantsApart(r: Run, i: nat, k: nat, id: string, first: string, second: string)
    requires Valid(r) && Monotone(r) && i < k && Granted(r, i, id, first) && Granted(r, k, id, second)
    ensures r.times[k] - r.times[i] >= 45 * SECOND
  {
    GuardedSince(r, i, k, id, first);
    assert StepAt(r, k);
  }

  /** A job is never granted at or after the deadline it was created with. */
  lemma NoGrantAfterDeadline(r: Run, i: nat, k: nat, id: string, bot: string)
    requires Valid(r) && i <= k && Granted(r, k, id, bot) && id in r.states[i].jobs
    ensures r.times[k] < r.states[i].jobs[id].timeoutAt
  {
    JobsPersist(r, i, k, id);
    assert StepAt(r, k);
  }

  /** While a job waits and its deadline lies ahead, only jobs created no later than it are
      handed out. */
  lemma NoBypass(r: Run, i: nat, n: nat, k: nat, id: string, other: string, bot: string)
    requires Valid(r) && i <= n < k <= |r.events|
    requires id in r.states[i].jobs && id in r.states[k].jobs && r.states[k].jobs[id].status.Pending?
    requires r.times[n] < r.states[i].jobs[id].timeoutAt
    requires Granted(r, n, other, bot)
    ensures other != id
    ensures other in r.states[n].jobs && r.states[n].jobs[other].createdAt <= r.states[i].jobs[id].createdAt
  {
    JobsPersist(r, i, n, id);
    if !r.states[n].jobs[id].status.Pending? {
      NeverPendingAgain(r, n, k, id);
    }
    assert StepAt(r, n);
    if other == id {
      NeverPendingAgain(r, n + 1, k, id);
    }
  }

  // ---------------------------------------------------------------- stranded bots

  ghost predicate Stranded(s: Store, bot: string, id: string) {
    bot in s.bots && s.bots[bot].status.Busy? && s.bots[bot].currentJob == Some(id) &&
    id in s.jobs && s.jobs[id].status.TimedOut?
  }

  /** A heartbeat of the bot that does not report it busy with the job. */
  predicate Frees(e: Event, bot: string, id: string) {
    e.Heartbeat? && e.bot == bot && !(e.status.Busy? && e.current == Some(id))
  }

  /** Such a heartbeat, a late acknowledgement of the job, or a completion that concerns the bot
      or the job. */
  predicate Releases(s: Store, e: Event, bot: string, id: string) {
    Frees(e, bot, id) ||
    (e.Ack? && e.id == id && AckTaken(s, id, e.token)) ||
    (e.Complete? && Owns(s, e.bot, e.id) && (e.bot == bot || e.id == id))
  }

  /** Exactly these steps of the kernel end the stranding; in an orderly run only the heartbeat. */
  lemma StrandedStep(s: Store, e: Event, now: int, bot: string, id: string)
    requires Possible(s, e, now) && Stranded(s, bot, id)
    ensures Stranded(Apply(s, e, now), bot, id) <==> !Releases(s, e, bot, id)
    ensures Inv(s) && Orderly(s, e) ==> (Releases(s, e, bot, id) <==> Frees(e, bot, id))
  {
  }

  /** A bot left busy with a timed-out job stays so, and receives no job, until it is released. */
  lemma {:induction false} StrandedUntilReleased(r: Run, i: nat, k: nat, bot: string, id: string)
    requires Valid(r) && i <= k <= |r.events| && Stranded(r.states[i], bot, id)
    requires forall n: nat | i <= n < k :: !Releases(r.states[n], r.events[n], bot, id)
    ensures Stranded(r.states[k], bot, id)
    ensures forall job :: !Granted(r, k, job, bot)
    decreases k
  {
    if i < k {
      StrandedUntilReleased(r, i, k - 1, bot, id);
      assert StepAt(r, k - 1);
      StrandedStep(r.states[k - 1], r.events[k - 1], r.times[k - 1], bot, id);
    }
    if k < |r.events| {
      assert StepAt(r, k);
    }
  }

  /** In an orderly run that takes a heartbeat of the bot, sent by itself or written by a successful
      health poll. */
  lemma {:induction false} StrandedUntilHeartbeat(r: Run, i: nat, k: nat, bot: string, id: string)
    requires OrderlyRun(r) && i <= k <= |r.events| && Stranded(r.states[i], bot, id)
    requires forall n: nat | i <= n < k :: !Frees(r.events[n], bot, id)
    ensures Stranded(r.states[k], bot, id)
    ensures forall n: nat | i <= n < k :: !Releases(r.states[n], r.events[n], bot, id)
    decreases k
  {
    if i < k {
      StrandedUntilHeartbeat(r, i, k - 1, bot, id);
      InvAlways(r, k - 1);
      assert StepAt(r, k - 1);
      StrandedStep(r.states[k - 1], r.events[k - 1], r.times[k - 1], bot, id);
    }
  }

  /** So the absolute deadline takes the holder of the job out of service until then. */
  lemma DeadlineStrandsUntilHeartbeat(r: Run, i: nat, k: nat, bot: string, id: string)
    requires OrderlyRun(r) && i < k <= |r.events| && r.events[i].Sweep?
    requires Owns(r.states[i], bot, id) && PastDeadline(r.states[i].jobs[id], r.times[i])
    requires forall n: nat | i < n < k :: !Frees(r.events[n], bot, id)
    ensures Stranded(r.states[k], bot, id)
    ensures forall n: nat, job | i < n <= k :: !Granted(r, n, job, bot)
  {
    InvAlways(r, i);
    assert StepAt(r, i);
    DeadlineStrandsHolder(r.states[i], id, r.times[i]);
    StrandedUntilHeartbeat(r, i + 1, k, bot, id);
    forall n: nat, job | i < n <= k
      ensures !Granted(r, n, job, bot)
    {
      StrandedUntilReleased(r, i + 1, n, bot, id);
    }
  }
}
