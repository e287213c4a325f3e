/**
 The key-value path of the master: jobs and bots live in two maps of cached objects, and the
 operations rewrite both sides of an assignment together.
 */
module MasterState {
  import opened Common

  datatype Cache = Cache(jobs: map<string, Job>, bots: map<string, Bot>)

  // ---------------------------------------------------------------- capabilities

  function LowerChar(c: char): char {
    if 'A' <= c <= 'Z' then (c as int + 32) as char else c
  }

  function Lower(s: string): string {
    seq(|s|, i requires 0 <= i < |s| => LowerChar(s[i]))
  }

  predicate IsBlank(c: char) {
    c == ' ' || c == '\t' || c == '\n' || c == '\r' || c == '\U{0B}' || c == '\U{0C}'
  }

  function Trim(s: string): string {
    if s == "" then s
    else if IsBlank(s[0]) then Trim(s[1..])
    else if IsBlank(s[|s| - 1]) then Trim(s[..|s| - 1])
    else s
  }

  /** Fuzzer and capability names are compared in this form. */
  function Normalize(name: string): string {
    var n := Lower(Trim(name));
    if n == "aflplusplus" then "afl++" else n
  }

  ghost predicate Blank(w: string) {
    forall i | 0 <= i < |w| :: IsBlank(w[i])
  }

  ghost predicate Bare(x: string) {
    x == "" || (!IsBlank(x[0]) && !IsBlank(x[|x| - 1]))
  }

  ghost predicate Around(name: string, p: string, x: string, q: string) {
    Blank(p) && Blank(q) && name == p + x + q
  }

  /** `x` is `name` without the blanks around it. */
  ghost predicate Named(name: string, x: string) {
    Bare(x) && exists p, q :: Around(name, p, x, q)
  }

  /** Equal up to the case of the letters. */
  ghost predicate SameLetters(x: string, y: string) {
    |x| == |y| && forall i | 0 <= i < |x| :: SameLetter(x[i], y[i])
  }

  predicate SameLetter(c: char, d: char) {
    c == d || ('A' <= c <= 'Z' && c as int + 32 == d as int) || ('A' <= d <= 'Z' && d as int + 32 == c as int)
  }

  /** The names denote one fuzzer: up to case and the blanks around them they are equal, or the
      two spellings of afl++. */
  ghost predicate SameFuzzer(a: string, b: string) {
    exists x, y :: Named(a, x) && Named(b, y) &&
      (SameLetters(x, y) || (SameLetters(x, "afl++") && SameLetters(y, "aflplusplus")) ||
       (SameLetters(x, "aflplusplus") && SameLetters(y, "afl++")))
  }

  lemma LowerIff(x: string, y: string)
    ensures Lower(x) == Lower(y) <==> SameLetters(x, y)
  {
    if Lower(x) == Lower(y) {
      forall i | 0 <= i < |x|
        ensures SameLetter(x[i], y[i])
      {
        assert Lower(x)[i] == Lower(y)[i];
      }
    }
  }

  lemma {:induction false} TrimFront(p: string, s: string)
    requires Blank(p)
    ensures Trim(p + s) == Trim(s)
  {
    if p == "" {
      assert p + s == s;
    } else {
      assert (p + s)[0] == p[0] && (p + s)[1..] == p[1..] + s;
      TrimFront(p[1..], s);
    }
  }

  lemma {:induction false} TrimBack(x: string, q: string)
    requires Blank(q) && Bare(x)
    ensures Trim(x + q) == x
    decreases |q|
  {
    if q == "" {
      assert x + q == x;
    } else if x == "" {
      assert x + q == q + "";
      TrimFront(q, "");
    } else {
      var front := q[..|q| - 1];
      assert (x + q)[|x + q| - 1] == q[|q| - 1] && (x + q)[..|x + q| - 1] == x + front;
      TrimBack(x, front);
    }
  }

  lemma NamedOnce(name: string, x: string)
    requires Named(name, x)
    ensures Trim(name) == x
  {
    var p, q :| Around(name, p, x, q);
    assert p + x + q == p + (x + q);
    TrimFront(p, x + q);
    TrimBack(x, q);
  }

  lemma NamedAfterBlank(name: string, x: string)
    requires name != "" && IsBlank(name[0]) && Named(name[1..], x)
    ensures Named(name, x)
  {
    var p, q :| Around(name[1..], p, x, q);
    assert Around(name, [name[0]] + p, x, q);
  }

  lemma NamedBeforeBlank(name: string, x: string)
    requires name != "" && IsBlank(name[|name| - 1]) && Named(name[..|name| - 1], x)
    ensures Named(name, x)
  {
    var p, q :| Around(name[..|name| - 1], p, x, q);
    assert Around(name, p, x, q + [name[|name| - 1]]);
  }

  lemma {:induction false} TrimNamed(name: string)
    ensures Named(name, Trim(name))
    decreases |name|
  {
    if Bare(name) {
      assert Around(name, "", name, "");
    } else if IsBlank(name[0]) {
      TrimNamed(name[1..]);
      NamedAfterBlank(name, Trim(name[1..]));
    } else {
      TrimNamed(name[..|name| - 1]);
      NamedBeforeBlank(name, Trim(name[..|name| - 1]));
    }
  }

  /** Normalization identifies exactly the names of one fuzzer. */
  lemma NormalizeIff(a: string, b: string)
    ensures Normalize(a) == Normalize(b) <==> SameFuzzer(a, b)
  {
    TrimNamed(a);
    TrimNamed(b);
    var x, y := Trim(a), Trim(b);
    LowerIff(x, y);
    assert Lower("afl++") == "afl++" && Lower("aflplusplus") == "aflplusplus";
    LowerIff(x, "afl++");
    LowerIff(x, "aflplusplus");
    LowerIff(y, "afl++");
    LowerIff(y, "aflplusplus");
    if SameFuzzer(a, b) {
      var u, v :| Named(a, u) && Named(b, v) &&
        (SameLetters(u, v) || (SameLetters(u, "afl++") && SameLetters(v, "aflplusplus")) ||
         (SameLetters(u, "aflplusplus") && SameLetters(v, "afl++")));
      NamedOnce(a, u);
      NamedOnce(b, v);
    }
  }

  /** So a bot that only runs libfuzzer is never offered a job for afl++. */
  lemma OtherFuzzersDiffer(c: Cache, bot: string, id: string, now: int)
    requires bot in c.bots && id in c.jobs && c.jobs[id].fuzzer == "afl++"
    requires forall name | name in c.bots[bot].capabilities :: name == "libfuzzer"
    ensures !Available(c, bot, id, now)
  {
    var a, b := "afl++", "libfuzzer";
    assert Trim(a) == a && Lower(a)[0] == 'a' && Normalize(a)[0] == 'a';
    assert Trim(b) == b && Lower(b)[0] == 'l' && Normalize(b)[0] == 'l';
  }

  predicate CanRun(b: Bot, j: Job) {
    exists c | c in b.capabilities :: Normalize(c) == Normalize(j.fuzzer)
  }

  predicate Available(c: Cache, bot: string, id: string, now: int) {
    id in c.jobs && bot in c.bots &&
    c.jobs[id].status.Pending? && now < c.jobs[id].timeoutAt && CanRun(c.bots[bot], c.jobs[id])
  }

  // ---------------------------------------------------------------- row updates

  function Requeued(j: Job): Job {
    j.(status := Pending, assignedBot := None, startedAt := None)
  }

  function Closed(j: Job, success: bool, now: int): Job {
    j.(status := if success then Completed else Failed, completedAt := Some(now), assignedBot := None)
  }

  function Abandoned(j: Job, now: int): Job {
    j.(status := Failed, completedAt := Some(now))
  }

  function Freed(b: Bot, now: int): Bot {
    b.(status := Idle, currentJob := None, lastSeen := now)
  }

  function ResetRow(b: Bot): Bot {
    b.(status := BotTimedOut, currentJob := None, failureCount := b.failureCount + 1)
  }

  // ---------------------------------------------------------------- operations on the cache

  /** One assignment attempt that found job `id`.  The cached job is rewritten before the
      transaction stores anything, the cached bot only after the commit. */
  function Hand(c: Cache, bot: string, id: string, now: int, stored: bool): Cache
    requires id in c.jobs && bot in c.bots
  {
    Cache(c.jobs[id := c.jobs[id].(status := Assigned, assignedBot := Some(bot), startedAt := Some(now))],
          if stored
          then c.bots[bot := c.bots[bot].(status := Busy, currentJob := Some(id), lastSeen := now)]
          else c.bots)
  }

  predicate MayClose(c: Cache, id: string, bot: string) {
    id in c.jobs && bot in c.bots && c.jobs[id].assignedBot == Some(bot)
  }

  /** Completion.  Both cached objects are rewritten before anything is stored, so the cache
      ends up here whether or not the store succeeds. */
  function Close(c: Cache, id: string, bot: string, success: bool, now: int): Cache {
    if MayClose(c, id, bot) then
      Cache(c.jobs[id := Closed(c.jobs[id], success, now)], c.bots[bot := Freed(c.bots[bot], now)])
    else c
  }

  /** Timeout of a tracked job: an assigned job is completed as failed, a pending one abandoned. */
  function TimeOutJob(c: Cache, id: string, now: int): Cache {
    if id !in c.jobs then c
    else if c.jobs[id].assignedBot.Some? then Close(c, id, c.jobs[id].assignedBot.value, false, now)
    else if c.jobs[id].status.Pending? then c.(jobs := c.jobs[id := Abandoned(c.jobs[id], now)])
    else c
  }

  function Reset(c: Cache, bot: string): Cache {
    if bot in c.bots then c.(bots := c.bots[bot := ResetRow(c.bots[bot])]) else c
  }

  /** A bot failed: its job goes back to the queue.  When the job is missing or cannot be saved
      the handler stops with the bot marked failed and still pointing at the job. */
  function FailBot(c: Cache, bot: string, jobSaved: bool): Cache {
    if bot !in c.bots then c
    else
      var failed := c.bots[bot].(status := BotFailed, failureCount := c.bots[bot].failureCount + 1);
      match failed.currentJob
      case None => c.(bots := c.bots[bot := failed])
      case Some(id) =>
        if id !in c.jobs then c.(bots := c.bots[bot := failed])
        else Cache(c.jobs[id := Requeued(c.jobs[id])],
                   c.bots[bot := if jobSaved then failed.(currentJob := None) else failed])
  }

  /** Cancellation is refused for completed and failed jobs; it frees the holder. */
  function CancelJob(c: Cache, id: string, now: int): Cache {
    if id !in c.jobs || c.jobs[id].status.Completed? || c.jobs[id].status.Failed? then c
    else
      var holder := c.jobs[id].assignedBot;
      Cache(c.jobs[id := c.jobs[id].(status := Cancelled, completedAt := Some(now), assignedBot := None)],
            if holder.Some? && holder.value in c.bots
            then c.bots[holder.value := c.bots[holder.value].(status := Idle, currentJob := None)]
            else c.bots)
  }

  /** A heartbeat overwrites the cached bot with whatever it reports. */
  function Heard(c: Cache, bot: string, status: BotStatus, current: Option<string>, timeout: int, now: int): Cache {
    if bot in c.bots then
      c.(bots := c.bots[bot := c.bots[bot].(status := status, currentJob := current, lastSeen := now,
                                            timeoutAt := timeout, online := true)])
    else c
  }

  // ---------------------------------------------------------------- the bijection

  predicate WorksOn(c: Cache, bot: string, id: string) {
    bot in c.bots && c.bots[bot].currentJob == Some(id)
  }

  predicate HeldBy(c: Cache, id: string, bot: string) {
    id in c.jobs && Active(c.jobs[id]) && c.jobs[id].assignedBot == Some(bot)
  }

  /** "The bot's current job is j" and "active job j is assigned to the bot" are the same
      thing, a bot is busy exactly when it has a current job, and only active jobs, and all of
      them, are assigned. */
  ghost predicate Bijection(c: Cache) {
    (forall bot, id :: WorksOn(c, bot, id) <==> HeldBy(c, id, bot)) &&
    (forall bot | bot in c.bots :: c.bots[bot].status.Busy? <==> c.bots[bot].currentJob.Some?) &&
    (forall id | id in c.jobs :: Active(c.jobs[id]) <==> c.jobs[id].assignedBot.Some?)
  }

  datatype Event =
    | Create(id: string, row: Job)
    | Register(bot: string, record: Bot)
    | Assign(bot: string, pick: Option<string>, stored: bool)
    | Complete(id: string, bot: string, success: bool)
    | JobTimeout(id: string)
    | BotFailure(bot: string, jobSaved: bool)
    | Cancel(id: string)
    | BotReset(bot: string)
    | Heartbeat(bot: string, status: BotStatus, current: Option<string>, timeout: int)

  function Apply(c: Cache, e: Event, now: int): Cache {
    match e
    case Create(id, row) => c.(jobs := c.jobs[id := row])
    case Register(bot, record) => c.(bots := c.bots[bot := record])
    case Assign(bot, pick, stored) =>
      if pick.Some? && pick.value in c.jobs && bot in c.bots then Hand(c, bot, pick.value, now, stored) else c
    case Complete(id, bot, success) => Close(c, id, bot, success, now)
    case JobTimeout(id) => TimeOutJob(c, id, now)
    case BotFailure(bot, jobSaved) => FailBot(c, bot, jobSaved)
    case Cancel(id) => CancelJob(c, id, now)
    case BotReset(bot) => Reset(c, bot)
    case Heartbeat(bot, status, current, timeout) => Heard(c, bot, status, current, timeout, now)
  }

  /** What the code itself sees to: new identifiers, and an available job for an idle bot. */
  predicate Possible(c: Cache, e: Event, now: int) {
    match e
    case Create(id, row) => id !in c.jobs && row.status.Pending? && row.assignedBot.None?
    case Register(bot, record) => bot !in c.bots && record.status.Idle? && record.currentJob.None?
    case Assign(bot, pick, _) =>
      pick.Some? ==> Available(c, bot, pick.value, now) && c.bots[bot].status.Idle?
    case _ => true
  }

  /** What it depends on: writes that go through, resets of bots without a job, and heartbeats
      that report what the master believes. */
  predicate Orderly(c: Cache, e: Event) {
    match e
    case Assign(_, pick, stored) => pick.Some? ==> stored
    case BotFailure(bot, jobSaved) => bot in c.bots && c.bots[bot].currentJob.Some? ==> jobSaved
    case BotReset(bot) => bot in c.bots ==> c.bots[bot].currentJob.None?
    case Heartbeat(bot, status, current, _) => bot in c.bots ==> Confirms(c.bots[bot], status, current)
    case _ => true
  }

  predicate Confirms(b: Bot, status: BotStatus, current: Option<string>) {
    current == b.currentJob && (status.Busy? <==> current.Some?)
  }

  /** Undoing one pair of the bijection on both sides keeps the rest. */
  lemma ReleaseKeepsBijection(c: Cache, id: string, bot: string, job: Job, record: Bot)
    requires Bijection(c) && HeldBy(c, id, bot) && bot in c.bots
    requires !Active(job) && job.assignedBot.None? && !record.status.Busy? && record.currentJob.None?
    ensures Bijection(Cache(c.jobs[id := job], c.bots[bot := record]))
  {
    var d := Cache(c.jobs[id := job], c.bots[bot := record]);
    assert WorksOn(c, bot, id);
    forall b, k
      ensures WorksOn(d, b, k) <==> HeldBy(d, k, b)
    {
      assert WorksOn(c, b, k) <==> HeldBy(c, k, b);
    }
  }

  /** A job that nobody holds may change as long as nobody comes to hold it. */
  lemma FreeJobKeepsBijection(c: Cache, id: string, job: Job)
    requires Bijection(c) && (id in c.jobs ==> !Active(c.jobs[id]))
    requires !Active(job) && job.assignedBot.None?
    ensures Bijection(c.(jobs := c.jobs[id := job]))
  {
    var d := c.(jobs := c.jobs[id := job]);
    forall b, k
      ensures WorksOn(d, b, k) <==> HeldBy(d, k, b)
    {
      assert WorksOn(c, b, k) <==> HeldBy(c, k, b);
    }
  }

  /** A bot without a job may change as long as it gets none. */
  lemma FreeBotKeepsBijection(c: Cache, bot: string, record: Bot)
    requires Bijection(c) && (bot in c.bots ==> c.bots[bot].currentJob.None?)
    requires !record.status.Busy? && record.currentJob.None?
    ensures Bijection(c.(bots := c.bots[bot := record]))
  {
    var d := c.(bots := c.bots[bot := record]);
    forall b, k
      ensures WorksOn(d, b, k) <==> HeldBy(d, k, b)
    {
      assert WorksOn(c, b, k) <==> HeldBy(c, k, b);
    }
  }

  lemma PairKeepsBijection(c: Cache, bot: string, id: string, now: int)
    requires Bijection(c) && Possible(c, Assign(bot, Some(id), true), now)
    ensures Bijection(Hand(c, bot, id, now, true))
  {
    var d := Hand(c, bot, id, now, true);
    forall b, k
      ensures WorksOn(d, b, k) <==> HeldBy(d, k, b)
    {
      assert WorksOn(c, b, k) <==> HeldBy(c, k, b);
    }
  }

  /** In a bijective cache whoever is assigned a job also works on it. */
  lemma HolderWorks(c: Cache, id: string)
    requires Bijection(c) && id in c.jobs && c.jobs[id].assignedBot.Some?
    ensures HeldBy(c, id, c.jobs[id].assignedBot.value)
    ensures WorksOn(c, c.jobs[id].assignedBot.value, id)
  {
  }

  lemma CloseKeepsBijection(c: Cache, id: string, bot: string, success: bool, now: int)
    requires Bijection(c)
    ensures Bijection(Close(c, id, bot, success, now))
  {
    if MayClose(c, id, bot) {
      HolderWorks(c, id);
      ReleaseKeepsBijection(c, id, bot, Closed(c.jobs[id], success, now), Freed(c.bots[bot], now));
    }
  }

  lemma FailKeepsBijection(c: Cache, bot: string)
    requires Bijection(c)
    ensures Bijection(FailBot(c, bot, true))
  {
    if bot in c.bots {
      var failed := c.bots[bot].(status := BotFailed, failureCount := c.bots[bot].failureCount + 1);
      if failed.currentJob.None? {
        FreeBotKeepsBijection(c, bot, failed);
      } else {
        var id := failed.currentJob.value;
        assert WorksOn(c, bot, id);
        ReleaseKeepsBijection(c, id, bot, Requeued(c.jobs[id]), failed.(currentJob := None));
      }
    }
  }

  /** A failed bot is marked and counted; its job, if it exists, goes back to the queue, and the bot
      lets go of it unless the job is missing or could not be saved. */
  lemma FailSettles(c: Cache, bot: string, jobSaved: bool)
    requires bot in c.bots
    ensures var d := FailBot(c, bot, jobSaved); var b := c.bots[bot];
            var has := b.currentJob.Some? && b.currentJob.value in c.jobs;
            && d.bots == c.bots[bot := b.(status := BotFailed, failureCount := b.failureCount + 1,
                                          currentJob := if has && jobSaved then None else b.currentJob)]
            && d.jobs == if has then c.jobs[b.currentJob.value := c.jobs[b.currentJob.value].(
                                       status := Pending, assignedBot := None, startedAt := None)]
                         else c.jobs
  {
  }

  /** Cancellation settles every job that has not completed or failed, and frees its holder. */
  lemma CancelSettles(c: Cache, id: string, now: int)
    requires id in c.jobs
    ensures var d := CancelJob(c, id, now); var j := c.jobs[id];
            if j.status == Completed || j.status == Failed then d == c
            else
              && d.jobs == c.jobs[id := j.(status := Cancelled, completedAt := Some(now), assignedBot := None)]
              && d.bots.Keys == c.bots.Keys
              && forall b | b in c.bots ::
                   d.bots[b] == if j.assignedBot == Some(b) then c.bots[b].(status := Idle, currentJob := None) else c.bots[b]
  {
  }

  lemma CancelKeepsBijection(c: Cache, id: string, now: int)
    requires Bijection(c)
    ensures Bijection(CancelJob(c, id, now))
  {
    if id in c.jobs && !c.jobs[id].status.Completed? && !c.jobs[id].status.Failed? {
      var row := c.jobs[id].(status := Cancelled, completedAt := Some(now), assignedBot := None);
      if c.jobs[id].assignedBot.None? {
        FreeJobKeepsBijection(c, id, row);
      } else {
        HolderWorks(c, id);
        var bot := c.jobs[id].assignedBot.value;
        ReleaseKeepsBijection(c, id, bot, row, c.bots[bot].(status := Idle, currentJob := None));
      }
    }
  }

  lemma TimeOutKeepsBijection(c: Cache, id: string, now: int)
    requires Bijection(c)
    ensures Bijection(TimeOutJob(c, id, now))
  {
    if id in c.jobs {
      if c.jobs[id].assignedBot.Some? {
        CloseKeepsBijection(c, id, c.jobs[id].assignedBot.value, false, now);
      } else {
        FreeJobKeepsBijection(c, id, Abandoned(c.jobs[id], now));
      }
    }
  }

  // ---------------------------------------------------------------- where the bijection breaks

  /** Resetting a timed-out bot keeps the bijection exactly when the bot had no job. */
  lemma ResetKeepsBijectionIff(c: Cache, bot: string)
    requires Bijection(c) && bot in c.bots
    ensures Bijection(Reset(c, bot)) <==> c.bots[bot].currentJob.None?
  {
    var d := Reset(c, bot);
    match c.bots[bot].currentJob
    case None =>
      assert forall b, id :: WorksOn(d, b, id) <==> WorksOn(c, b, id);
      assert forall b, id :: HeldBy(d, id, b) <==> HeldBy(c, id, b);
    case Some(id) =>
      assert WorksOn(c, bot, id);
      assert HeldBy(d, id, bot) && !WorksOn(d, bot, id);
  }

  /** An assignment attempt keeps the bijection exactly when its store succeeds. */
  lemma HandKeepsBijectionIff(c: Cache, bot: string, id: string, now: int, stored: bool)
    requires Bijection(c) && Possible(c, Assign(bot, Some(id), stored), now)
    ensures Bijection(Hand(c, bot, id, now, stored)) <==> stored
  {
    if stored {
      PairKeepsBijection(c, bot, id, now);
    } else {
      var d := Hand(c, bot, id, now, false);
      assert HeldBy(d, id, bot) && !WorksOn(d, bot, id);
    }
  }

  /** Handling a bot failure keeps it exactly when there was no job to save or it was saved. */
  lemma FailKeepsBijectionIff(c: Cache, bot: string, jobSaved: bool)
    requires Bijection(c) && bot in c.bots
    ensures Bijection(FailBot(c, bot, jobSaved)) <==> (c.bots[bot].currentJob.None? || jobSaved)
  {
    var d := FailBot(c, bot, jobSaved);
    match c.bots[bot].currentJob
    case None =>
      assert d == FailBot(c, bot, true);
      FailKeepsBijection(c, bot);
    case Some(id) =>
      assert WorksOn(c, bot, id);
      if jobSaved {
        FailKeepsBijection(c, bot);
      } else {
        assert WorksOn(d, bot, id) && !HeldBy(d, id, bot);
      }
  }

  /** A heartbeat keeps it exactly when it names the job the master has on record, and busy
      goes with having one. */
  lemma HeardKeepsBijectionIff(c: Cache, bot: string, status: BotStatus, current: Option<string>,
                               timeout: int, now: int)
    requires Bijection(c) && bot in c.bots
    ensures Bijection(Heard(c, bot, status, current, timeout, now)) <==> Confirms(c.bots[bot], status, current)
  {
    var d := Heard(c, bot, status, current, timeout, now);
    assert forall b, id :: HeldBy(d, id, b) <==> HeldBy(c, id, b);
    if current == c.bots[bot].currentJob {
      assert forall b, id :: WorksOn(d, b, id) <==> WorksOn(c, b, id);
      assert d.bots[bot].status == status && d.bots[bot].currentJob == current;
    } else {
      var id := if current.Some? then current.value else c.bots[bot].currentJob.value;
      assert WorksOn(d, bot, id) != WorksOn(c, bot, id);
    }
  }

  /** The poller reports a bot without a job as idle with a reference to the empty identifier;
      that breaks it every time. */
  lemma IdlePollBreaksBijection(c: Cache, bot: string, timeout: int, now: int)
    requires Bijection(c) && bot in c.bots
    ensures !Bijection(Heard(c, bot, Idle, Some(""), timeout, now))
  {
    HeardKeepsBijectionIff(c, bot, Idle, Some(""), timeout, now);
  }

  /** Over all steps: the bijection survives exactly the orderly ones. */
  lemma StepKeepsBijectionIff(c: Cache, e: Event, now: int)
    requires Bijection(c) && Possible(c, e, now)
    ensures Bijection(Apply(c, e, now)) <==> Orderly(c, e)
  {
    match e
    case Create(id, row) => FreeJobKeepsBijection(c, id, row);
    case Register(bot, record) => FreeBotKeepsBijection(c, bot, record);
    case Assign(bot, pick, stored) =>
      if pick.Some? {
        HandKeepsBijectionIff(c, bot, pick.value, now, stored);
      }
    case Complete(id, bot, success) => CloseKeepsBijection(c, id, bot, success, now);
    case JobTimeout(id) => TimeOutKeepsBijection(c, id, now);
    case BotFailure(bot, jobSaved) =>
      if bot in c.bots {
        FailKeepsBijectionIff(c, bot, jobSaved);
      }
    case Cancel(id) => CancelKeepsBijection(c, id, now);
    case BotReset(bot) =>
      if bot in c.bots {
        ResetKeepsBijectionIff(c, bot);
      }
    case Heartbeat(bot, status, current, timeout) =>
      if bot in c.bots {
        HeardKeepsBijectionIff(c, bot, status, current, timeout, now);
      }
  }

  // ---------------------------------------------------------------- runs

  datatype Run = Run(states: seq<Cache>, events: seq<Event>, times: seq<int>)

  ghost predicate StepAt(r: Run, i: nat)
    requires |r.states| == |r.events| + 1 && |r.times| == |r.events| && i < |r.events|
  {
    Possible(r.states[i], r.events[i], r.times[i]) &&
    r.states[i + 1] == Apply(r.states[i], r.events[i], r.times[i])
  }

  /** Any run, from any state. */
  ghost predicate Valid(r: Run) {
    |r.states| == |r.events| + 1 && |r.times| == |r.events| &&
    forall i: nat | i < |r.events| :: StepAt(r, i)
  }

  ghost predicate OrderlyRun(r: Run) {
    Valid(r) && Bijection(r.states[0]) && forall i: nat | i < |r.events| :: Orderly(r.states[i], r.events[i])
  }

  /** The bijection holds in every state of an orderly run. */
  lemma {:induction false} BijectionAlways(r: Run, i: nat)
    requires OrderlyRun(r) && i <= |r.events|
    ensures Bijection(r.states[i])
  {
    if i > 0 {
      BijectionAlways(r, i - 1);
      assert StepAt(r, i - 1);
      StepKeepsBijectionIff(r.states[i - 1], r.events[i - 1], r.times[i - 1]);
    }
  }

  /** ... and in no other run that starts with it does it hold throughout. */
  lemma BijectionAlwaysIff(r: Run)
    requires Valid(r) && Bijection(r.states[0])
    ensures (forall i: nat | i <= |r.events| :: Bijection(r.states[i])) <==> OrderlyRun(r)
  {
    if OrderlyRun(r) {
      forall i: nat | i <= |r.events|
        ensures Bijection(r.states[i])
      {
        BijectionAlways(r, i);
      }
    } else {
      var i: nat :| i < |r.events| && !Orderly(r.states[i], r.events[i]);
      assert StepAt(r, i);
      if Bijection(r.states[i]) {
        StepKeepsBijectionIff(r.states[i], r.events[i], r.times[i]);
        assert !Bijection(r.states[i + 1]);
      }
    }
  }

  /** A job is assigned to a bot exactly while it is active, and that bot exists. */
  ghost predicate Accounted(c: Cache) {
    forall id | id in c.jobs ::
      (Active(c.jobs[id]) <==> c.jobs[id].assignedBot.Some?) &&
      (c.jobs[id].assignedBot.Some? ==> c.jobs[id].assignedBot.value in c.bots)
  }

  lemma StepKeepsAccounted(c: Cache, e: Event, now: int)
    requires Accounted(c) && Possible(c, e, now)
    ensures Accounted(Apply(c, e, now))
  {
  }

  /** So it is in every state of every run, whatever fails or is reported. */
  lemma {:induction false} AccountedAlways(r: Run, i: nat)
    requires Valid(r) && Accounted(r.states[0]) && i <= |r.events|
    ensures Accounted(r.states[i])
  {
    if i > 0 {
      AccountedAlways(r, i - 1);
      assert StepAt(r, i - 1);
      StepKeepsAccounted(r.states[i - 1], r.events[i - 1], r.times[i - 1]);
    }
  }

  function ActiveJobs(c: Cache): set<string> {
    set id | id in c.jobs && Active(c.jobs[id])
  }

  function BusyBots(c: Cache): set<string> {
    set bot | bot in c.bots && c.bots[bot].status.Busy?
  }

  ghost function Holders(c: Cache, ids: set<string>): set<string>
    requires ids <= ActiveJobs(c) && Bijection(c)
  {
    set id | id in ids :: c.jobs[id].assignedBot.value
  }

  lemma {:induction false} HoldersAreDistinct(c: Cache, ids: set<string>)
    requires Bijection(c) && ids <= ActiveJobs(c)
    ensures |Holders(c, ids)| == |ids|
  {
    if ids != {} {
      var id :| id in ids;
      var bot := c.jobs[id].assignedBot.value;
      HoldersAreDistinct(c, ids - {id});
      assert WorksOn(c, bot, id) by {
        assert HeldBy(c, id, bot);
      }
      assert bot !in Holders(c, ids - {id}) by {
        forall k | k in ids - {id} && c.jobs[k].assignedBot.value == bot
          ensures false
        {
          assert HeldBy(c, k, bot);
        }
      }
      assert Holders(c, ids) == Holders(c, ids - {id}) + {bot};
    }
  }

  /** In every state of an orderly run there are exactly as many active jobs as busy bots. */
  lemma ActiveJobsEqualBusyBots(r: Run, i: nat)
    requires OrderlyRun(r) && i <= |r.events|
    ensures |ActiveJobs(r.states[i])| == |BusyBots(r.states[i])|
  {
    BijectionAlways(r, i);
    var c := r.states[i];
    HoldersAreDistinct(c, ActiveJobs(c));
    forall bot
      ensures bot in Holders(c, ActiveJobs(c)) <==> bot in BusyBots(c)
    {
      if bot in BusyBots(c) {
        var id := c.bots[bot].currentJob.value;
        assert WorksOn(c, bot, id);
        assert id in ActiveJobs(c);
      }
      if bot in Holders(c, ActiveJobs(c)) {
        var id :| id in ActiveJobs(c) && c.jobs[id].assignedBot.value == bot;
        assert HeldBy(c, id, bot);
        assert WorksOn(c, bot, id);
      }
    }
    assert Holders(c, ActiveJobs(c)) == BusyBots(c);
  }

  // ---------------------------------------------------------------- leaked jobs

  /** The assignment retried after failed stores: each attempt finds another pending job. */
  ghost predicate PicksAvailable(c: Cache, bot: string, picks: seq<string>, now: int)
    decreases picks
  {
    picks == [] ||
    (Available(c, bot, picks[0], now) && PicksAvailable(Hand(c, bot, picks[0], now, false), bot, picks[1..], now))
  }

  ghost function AfterFailedStores(c: Cache, bot: string, picks: seq<string>, now: int): Cache
    requires PicksAvailable(c, bot, picks, now)
    decreases picks
  {
    if picks == [] then c else AfterFailedStores(Hand(c, bot, picks[0], now, false), bot, picks[1..], now)
  }

  /** Every failed attempt leaks a different job: after n of them n distinct cached jobs are
      assigned to a bot that was never told about any. */
  lemma {:induction false} RetriesLeakJobs(c: Cache, bot: string, picks: seq<string>, now: int)
    requires PicksAvailable(c, bot, picks, now)
    ensures var d := AfterFailedStores(c, bot, picks, now);
            && d.bots == c.bots && d.jobs.Keys == c.jobs.Keys
            && (forall id | id in picks :: HeldBy(d, id, bot))
            && (forall id | id in c.jobs && id !in picks :: d.jobs[id] == c.jobs[id])
            && (forall id | id in picks :: id in c.jobs && c.jobs[id].status.Pending?)
            && (forall i, k | 0 <= i < k < |picks| :: picks[i] != picks[k])
    decreases picks
  {
    if picks != [] {
      var e := Hand(c, bot, picks[0], now, false);
      RetriesLeakJobs(e, bot, picks[1..], now);
      assert picks == [picks[0]] + picks[1..];
      assert picks[0] !in picks[1..] by {
        assert !e.jobs[picks[0]].status.Pending?;
      }
    }
  }

  // ---------------------------------------------------------------- the cache as an object

  class PersistentState {
    var jobs: map<string, Job>
    var bots: map<string, Bot>

    ghost function View(): Cache
      reads this
    {
      Cache(jobs, bots)
    }

    constructor ()
      ensures View() == Cache(map[], map[]) && Bijection(View())
    {
      jobs, bots := map[], map[];
    }

    /** Looks through the jobs, in no particular order, for one the bot may run. */
    method FindAvailableJob(botID: string, now: int) returns (r: Option<string>)
      requires botID in bots
      ensures r.Some? ==> Available(View(), botID, r.value, now)
      ensures r.None? ==> forall id :: !Available(View(), botID, id, now)
      ensures r.Some? ==> r.value in jobs && jobs[r.value].status == Pending && now < jobs[r.value].timeoutAt &&
                          exists name | name in bots[botID].capabilities :: SameFuzzer(name, jobs[r.value].fuzzer)
      ensures r.None? ==> forall id, name | id in jobs && name in bots[botID].capabilities ::
                            jobs[id].status == Pending && now < jobs[id].timeoutAt ==> !SameFuzzer(name, jobs[id].fuzzer)
    {
      var names := set cap | cap in bots[botID].capabilities :: Normalize(cap);
      var rest := jobs.Keys;
      while rest != {}
        invariant rest <= jobs.Keys
        invariant forall id | id in jobs && id !in rest :: !Available(View(), botID, id, now)
        decreases rest
      {
        var id :| id in rest;
        rest := rest - {id};
        var job := jobs[id];
        if job.status == Pending && now < job.timeoutAt && Normalize(job.fuzzer) in names {
          ghost var name :| name in bots[botID].capabilities && Normalize(name) == Normalize(job.fuzzer);
          NormalizeIff(name, job.fuzzer);
          return Some(id);
        }
      }
      forall id, name | id in jobs && name in bots[botID].capabilities && jobs[id].status == Pending && now < jobs[id].timeoutAt
        ensures !SameFuzzer(name, jobs[id].fuzzer)
      {
        assert !Available(View(), botID, id, now);
        NormalizeIff(name, jobs[id].fuzzer);
      }
      return None;
    }

    /** One attempt of the assignment; `stored` says whether the transaction went through. */
    method AssignJob(botID: string, now: int, stored: bool) returns (r: Result<string>, ghost pick: Option<string>)
      modifies this
      ensures pick.Some? ==> old(Possible(View(), Assign(botID, pick, stored), now))
      ensures View() == if pick.Some? then Hand(old(View()), botID, pick.value, now, stored) else old(View())
      ensures pick.Some? ==>
                pick.value in old(jobs) && botID in old(bots) &&
                jobs == old(jobs)[pick.value := old(jobs)[pick.value].(status := Assigned, assignedBot := Some(botID),
                                                                       startedAt := Some(now))] &&
                bots == if stored
                        then old(bots)[botID := old(bots)[botID].(status := Busy, currentJob := pick, lastSeen := now)]
                        else old(bots)
      ensures r.Ok? ==> stored && pick == Some(r.value)
      ensures pick.Some? <==> botID in old(bots) && old(bots)[botID].status.Idle? &&
                              exists id :: Available(old(View()), botID, id, now)
      ensures r.Ok? <==> pick.Some? && stored
      ensures r == Err(NotFound) <==> !exists id :: Available(old(View()), botID, id, now)
      ensures old(Bijection(View())) ==> (Bijection(View()) <==> (pick.Some? ==> stored))
    {
      ghost var before := View();
      pick := None;
      if botID !in bots {
        return Err(NotFound), pick;
      }
      var found := FindAvailableJob(botID, now);
      if found.None? {
        return Err(NotFound), pick;
      }
      assert Available(before, botID, found.value, now);
      if bots[botID].status != Idle {
        return Err(Unavailable), pick;
      }
      var id := found.value;
      pick := found;
      if Bijection(before) {
        HandKeepsBijectionIff(before, botID, id, now, stored);
      }
      jobs := jobs[id := jobs[id].(status := Assigned, assignedBot := Some(botID), startedAt := Some(now))];
      if !stored {
        return Err(StoreFailed), pick;
      }
      bots := bots[botID := bots[botID].(status := Busy, currentJob := Some(id), lastSeen := now)];
      return Ok(id), pick;
    }

    method CompleteJob(id: string, botID: string, success: bool, now: int, stored: bool) returns (r: Result<()>)
      modifies this
      ensures View() == Apply(old(View()), Complete(id, botID, success), now)
      ensures if id in old(jobs) && botID in old(bots) && old(jobs)[id].assignedBot == Some(botID)
              then jobs == old(jobs)[id := old(jobs)[id].(status := if success then Completed else Failed,
                                                          completedAt := Some(now), assignedBot := None)] &&
                   bots == old(bots)[botID := old(bots)[botID].(status := Idle, currentJob := None, lastSeen := now)]
              else jobs == old(jobs) && bots == old(bots)
      ensures r.Ok? <==> stored && old(MayClose(View(), id, botID))
      ensures old(Bijection(View())) ==> Bijection(View())
    {
      ghost var before := View();
      if Bijection(before) {
        CloseKeepsBijection(before, id, botID, success, now);
      }
      if id !in jobs || botID !in bots {
        return Err(NotFound);
      }
      if jobs[id].assignedBot != Some(botID) {
        return Err(NotAssigned);
      }
      jobs := jobs[id := Closed(jobs[id], success, now)];
      bots := bots[botID := Freed(bots[botID], now)];
      return if stored then Ok(()) else Err(StoreFailed);
    }

    /** Marks a pending job as failed by timeout; any other job is left alone. */
    method UpdateJobStatusToTimedOut(id: string, now: int) returns (r: Result<()>)
      modifies this
      ensures r.Ok? <==> id in old(jobs)
      ensures View() == if id in old(jobs) && old(jobs)[id].status.Pending?
                        then old(View()).(jobs := old(jobs)[id := old(jobs)[id].(status := Failed, completedAt := Some(now))])
                        else old(View())
    {
      if id !in jobs {
        return Err(NotFound);
      }
      if jobs[id].status == Pending {
        jobs := jobs[id := Abandoned(jobs[id], now)];
      }
      return Ok(());
    }

    method ResetBot(botID: string) returns (r: Result<()>)
      modifies this
      ensures r.Ok? <==> botID in old(bots)
      ensures View() == Reset(old(View()), botID)
      ensures r.Ok? ==> jobs == old(jobs) &&
                        bots == old(bots)[botID := old(bots)[botID].(status := BotTimedOut, currentJob := None,
                                                                     failureCount := old(bots)[botID].failureCount + 1)]
    {
      if botID !in bots {
        return Err(NotFound);
      }
      bots := bots[botID := ResetRow(bots[botID])];
      return Ok(());
    }

    /** The cached side of a heartbeat. */
    method UpdateBotInCache(botID: string, status: BotStatus, current: Option<string>, now: int, timeoutAt: int)
      modifies this
      ensures View() == Heard(old(View()), botID, status, current, timeoutAt, now)
      ensures jobs == old(jobs) &&
              bots == if botID in old(bots)
                      then old(bots)[botID := old(bots)[botID].(status := status, currentJob := current, lastSeen := now,
                                                                timeoutAt := timeoutAt, online := true)]
                      else old(bots)
      ensures old(Bijection(View())) && botID in old(bots) ==>
                (Bijection(View()) <==> Confirms(old(bots)[botID], status, current))
    {
      if Bijection(View()) && botID in bots {
        HeardKeepsBijectionIff(View(), botID, status, current, timeoutAt, now);
      }
      if botID in bots {
        bots := bots[botID := bots[botID].(status := status, currentJob := current, lastSeen := now,
                                           timeoutAt := timeoutAt, online := true)];
      }
    }

    method SaveJob(id: string, job: Job)
      modifies this
      ensures View() == old(View()).(jobs := old(jobs)[id := job])
    {
      jobs := jobs[id := job];
    }

    method SaveBot(id: string, bot: Bot)
      modifies this
      ensures View() == old(View()).(bots := old(bots)[id := bot])
    {
      bots := bots[id := bot];
    }

    method DeleteJob(id: string)
      modifies this
      ensures View() == old(View()).(jobs := old(jobs) - {id})
    {
      jobs := jobs - {id};
    }
  }
}
