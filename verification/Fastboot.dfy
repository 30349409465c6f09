/** The fastboot suspend thread and the callbacks around it.  Nothing here holds a
    lock, so every load and every store of the status word, of wakelock_occur_count
    and of ignore_wakelock is a step of its own, with the other threads free in
    between; an increment of the count is a load and a store. */
module Fastboot {
  datatype Status =
    EARLY_SUSPEND_PENDING | SUSPEND_PENDING | RESUME_OK | LATE_RESUME_OK | READY_TO_PWROFF | READY_TO_FAKE_PWROFF

  /** haslock_resume_times, max_wait_unlock_time, and whether the board looks for
      wake locks that must not be ignored. */
  datatype Config = Config(hasLockTimes: int, maxWait: int, looksForLocks: bool)

  /** The next thing thread_fastboot_suspend does, with its time_count `n` and the
      value `v` it has loaded from the count. */
  datatype Thread =
    | Waiting                      // wait_for_completion(&suspend_start)
    | Polling(n: nat)              // sleep, then read the status
    | Leaving(n: nat)              // the status was not pending: give up the episode
    | Seen(n: nat)                 // it was: test the clock block
    | Looking(n: nat)              // look for the wake lock
    | Weighing(n: nat)             // test it
    | Blocked(n: nat)              // blocked and count < 5: load the count
    | BlockAdding(n: nat, v: int)  // and store it, incremented
    | Timing(n: nat)               // test time_count; after ten minutes forget the count
    | Counting(n: nat)             // a timeout: load the count
    | TimeAdding(n: nat, v: int)   // and store it, incremented
    | Judging(n: nat)              // compare the count with haslock_resume_times
    | Quickening(n: nat)           // counted: make it a quick resume
    | Dropping(n: nat)             // too many: forget the count
    | Forcing(n: nat)              // look at the status again
    | Committing(n: nat)           // still pending: ignore the wake locks

  /** The next thing fastboot_resume does. */
  datatype Resumer = Idle | Respecting | Forgetting

  /** What happened, as an observer would log it. */
  datatype Event =
    | Episode | Polled(seen: Status) | LockSeen | CountLoaded(v: int) | CountStored
    | QuickResume | Rare | Overrun | CountReset | Looked(seen: Status) | Forced | DeviceResumed | FlagsCleared

  /** `late`: fastboot_late_resume is about to set the status. */
  datatype State = State(
    status: Status, count: int, ignoreWakelock: bool, quick: bool, clkBlock: bool, hasLock: bool,
    suspendStart: nat, lateSuspendStart: nat, thread: Thread, resumer: Resumer, late: bool, log: seq<Event>)

  /** The next step of the suspend thread, of a callback, or of the rest of the
      system.  `adspHeld`: the lock that must not be ignored is active; `longAgo`:
      more than ten minutes have passed since the last timeout. */
  datatype Step =
    Go(adspHeld: bool, longAgo: bool) | EarlySuspend | LateResume | DeviceResume | SetStatus(to: Status)

  function Max(a: int, b: int): int { if a > b then a else b }

  /** The polls an episode can take. */
  function PollLimit(c: Config): int { Max(1, c.maxWait) }

  /** What the count can reach. */
  function QuickLimit(c: Config): (r: nat) {
    if c.looksForLocks then Max(5, c.hasLockTimes) else Max(0, c.hasLockTimes)
  }

  /** Neither a lock nor a timeout ever ends in a quick resume. */
  predicate NeverQuick(c: Config) { !c.looksForLocks && c.hasLockTimes < 0 }

  const BOOT := State(LATE_RESUME_OK, 0, false, false, false, false, 0, 0, Waiting, Idle, false, [])

  /** The suspend thread executes the next thing it does. */
  function Advance(c: Config, s: State, adspHeld: bool, longAgo: bool): State {
    match s.thread
    case Waiting =>
      if s.suspendStart == 0 then s
      else s.(suspendStart := s.suspendStart - 1, thread := Polling(0), log := s.log + [Episode])
    case Polling(n) =>
      s.(thread := if s.status.EARLY_SUSPEND_PENDING? then Seen(n + 1) else Leaving(n + 1),
         log := s.log + [Polled(s.status)])
    case Leaving(n) =>
      s.(lateSuspendStart := s.lateSuspendStart + 1, count := 0, thread := Waiting, log := s.log + [CountReset])
    case Seen(n) =>
      s.(thread := if s.clkBlock && s.count < 5 then Blocked(n) else if c.looksForLocks then Looking(n) else Timing(n))
    case Looking(n) =>
      if adspHeld then s.(hasLock := true, thread := Weighing(n), log := s.log + [LockSeen])
      else s.(thread := Weighing(n))
    case Weighing(n) => s.(thread := if s.hasLock && s.count < 5 then Blocked(n) else Timing(n))
    case Blocked(n) => s.(thread := BlockAdding(n, s.count), log := s.log + [CountLoaded(s.count)])
    case BlockAdding(n, v) => s.(count := v + 1, thread := Quickening(n), log := s.log + [CountStored])
    case Timing(n) =>
      if n < c.maxWait then s.(thread := Polling(n))
      else if longAgo then s.(count := 0, thread := Counting(n), log := s.log + [Rare, CountReset])
      else s.(thread := Counting(n))
    case Counting(n) => s.(thread := TimeAdding(n, s.count), log := s.log + [CountLoaded(s.count)])
    case TimeAdding(n, v) => s.(count := v + 1, thread := Judging(n), log := s.log + [CountStored])
    case Judging(n) => s.(thread := if s.count <= c.hasLockTimes then Quickening(n) else Dropping(n))
    case Quickening(n) => s.(quick := true, thread := Waiting, log := s.log + [QuickResume])
    case Dropping(n) => s.(count := 0, thread := Forcing(n), log := s.log + [Overrun, CountReset])
    case Forcing(n) =>
      if s.status.EARLY_SUSPEND_PENDING? then s.(thread := Committing(n), log := s.log + [Looked(s.status)])
      else s.(lateSuspendStart := s.lateSuspendStart + 1, thread := Waiting, log := s.log + [Looked(s.status)])
    case Committing(n) => s.(ignoreWakelock := true, thread := Waiting, log := s.log + [Forced])
  }

  function Next(c: Config, s: State, step: Step): State {
    match step
    case Go(adspHeld, longAgo) => Advance(c, s, adspHeld, longAgo)
    case EarlySuspend => s.(clkBlock := false, suspendStart := s.suspendStart + 1)
    case LateResume =>
      if s.late then s.(status := LATE_RESUME_OK, late := false)
      else if s.quick then
        s.(hasLock := false, clkBlock := false, quick := false, late := true, log := s.log + [FlagsCleared])
      else s.(late := true)
    case DeviceResume => (
      match s.resumer
      case Idle => s.(status := RESUME_OK, resumer := Respecting)
      case Respecting => s.(ignoreWakelock := false, resumer := Forgetting, log := s.log + [DeviceResumed])
      case Forgetting => s.(count := 0, resumer := Idle, log := s.log + [CountReset])
    )
    case SetStatus(to) => s.(status := to)
  }

  function RunFrom(c: Config, s: State, steps: seq<Step>): State {
    if steps == [] then s else Next(c, RunFrom(c, s, steps[..|steps| - 1]), steps[|steps| - 1])
  }

  function Run(c: Config, steps: seq<Step>): State { RunFrom(c, BOOT, steps) }

  /** The driver's globals and fb_data; the methods are the steps of its threads. */
  class Driver {
    const c: Config
    var status: Status
    var count: int            // wakelock_occur_count
    var ignoreWakelock: bool
    var quick: bool           // is_quick_resume
    var clkBlock: bool        // clk_block_suspend
    var hasLock: bool         // has_wakelock_can_not_ignore
    var suspendStart: nat     // completions
    var lateSuspendStart: nat
    var thread: Thread
    var resumer: Resumer
    var late: bool
    ghost var log: seq<Event>

    ghost function S(): State
      reads this
    {
      State(status, count, ignoreWakelock, quick, clkBlock, hasLock, suspendStart, lateSuspendStart,
            thread, resumer, late, log)
    }

    constructor (c: Config)
      ensures this.c == c && S() == BOOT
    {
      this.c := c;
      status, count, ignoreWakelock, quick, clkBlock, hasLock := LATE_RESUME_OK, 0, false, false, false, false;
      suspendStart, lateSuspendStart, thread, resumer, late, log := 0, 0, Waiting, Idle, false, [];
    }

    /** thread_fastboot_suspend, statement by statement. */
    method ThreadStep(adspHeld: bool, longAgo: bool)
      modifies this
      ensures S() == Advance(c, old(S()), adspHeld, longAgo)
    {
      hide Advance;
      if InPoll(thread) {
        PollStatus(adspHeld, longAgo);
      } else if InBlock(thread) {
        CheckBlocked(adspHeld, longAgo);
      } else if InTime(thread) {
        CheckTime(adspHeld, longAgo);
      } else if InJudgement(thread) {
        Judge(adspHeld, longAgo);
      } else {
        Force(adspHeld, longAgo);
      }
    }

    /** The start of an episode, the poll, and the exit when nothing is pending. */
    method PollStatus(adspHeld: bool, longAgo: bool)
      requires InPoll(thread)
      modifies this`suspendStart, this`lateSuspendStart, this`count, this`thread, this`log
      ensures S() == Advance(c, old(S()), adspHeld, longAgo)
    {
      match thread {
        case Waiting =>
          if suspendStart > 0 {
            suspendStart, thread := suspendStart - 1, Polling(0);
            log := log + [Episode];
          }
        case Polling(n) =>
          log := log + [Polled(status)];
          thread := if status.EARLY_SUSPEND_PENDING? then Seen(n + 1) else Leaving(n + 1);
        case Leaving(n) =>
          lateSuspendStart, count, thread := lateSuspendStart + 1, 0, Waiting;
          log := log + [CountReset];
      }
    }

    /** The blocked clock and the wake lock that must not be ignored. */
    method CheckBlocked(adspHeld: bool, longAgo: bool)
      requires InBlock(thread)
      modifies this`hasLock, this`count, this`thread, this`log
      ensures S() == Advance(c, old(S()), adspHeld, longAgo)
    {
      match thread {
        case Seen(n) =>
          if clkBlock && count < 5 {
            thread := Blocked(n);
          } else {
            thread := if c.looksForLocks then Looking(n) else Timing(n);
          }
        case Looking(n) =>
          if adspHeld { hasLock, log := true, log + [LockSeen]; }
          thread := Weighing(n);
        case Weighing(n) => thread := if hasLock && count < 5 then Blocked(n) else Timing(n);
        case Blocked(n) => thread, log := BlockAdding(n, count), log + [CountLoaded(count)];
        case BlockAdding(n, v) =>
          count, thread := v + 1, Quickening(n);
          log := log + [CountStored];
      }
    }

    /** The test of time_count; after ten quiet minutes a timeout starts the count afresh. */
    method CheckTime(adspHeld: bool, longAgo: bool)
      requires InTime(thread)
      modifies this`count, this`thread, this`log
      ensures S() == Advance(c, old(S()), adspHeld, longAgo)
    {
      match thread {
        case Timing(n) =>
          if n < c.maxWait {
            thread := Polling(n);
          } else {
            thread := Counting(n);
            if longAgo { count, log := 0, log + [Rare, CountReset]; }
          }
        case Counting(n) => thread, log := TimeAdding(n, count), log + [CountLoaded(count)];
        case TimeAdding(n, v) =>
          count, thread := v + 1, Judging(n);
          log := log + [CountStored];
      }
    }

    /** The judgement of the count. */
    method Judge(adspHeld: bool, longAgo: bool)
      requires InJudgement(thread)
      modifies this`count, this`quick, this`thread, this`log
      ensures S() == Advance(c, old(S()), adspHeld, longAgo)
    {
      match thread {
        case Judging(n) => thread := if count <= c.hasLockTimes then Quickening(n) else Dropping(n);
        case Quickening(n) =>
          quick, thread := true, Waiting;
          log := log + [QuickResume];
        case Dropping(n) =>
          count, thread := 0, Forcing(n);
          log := log + [Overrun, CountReset];
      }
    }

    /** The second look, and the forced suspend. */
    method Force(adspHeld: bool, longAgo: bool)
      requires thread.Forcing? || thread.Committing?
      modifies this`thread, this`log, this`lateSuspendStart, this`ignoreWakelock
      ensures S() == Advance(c, old(S()), adspHeld, longAgo)
    {
      match thread {
        case Forcing(n) =>
          log := log + [Looked(status)];
          if status.EARLY_SUSPEND_PENDING? {
            thread := Committing(n);
          } else {
            lateSuspendStart, thread := lateSuspendStart + 1, Waiting;
          }
        case Committing(n) =>
          ignoreWakelock, thread := true, Waiting;
          log := log + [Forced];
      }
    }

    /** fastboot_early_suspend. */
    method OnEarlySuspend()
      modifies this
      ensures S() == Next(c, old(S()), EarlySuspend)
    {
      clkBlock, suspendStart := false, suspendStart + 1;
    }

    /** fastboot_late_resume, its flags and its status. */
    method OnLateResume()
      modifies this
      ensures S() == Next(c, old(S()), LateResume)
    {
      if late {
        status, late := LATE_RESUME_OK, false;
      } else {
        if quick {
          hasLock, clkBlock, quick := false, false, false;
          log := log + [FlagsCleared];
        }
        late := true;
      }
    }

    /** fastboot_resume, store by store. */
    method OnResume()
      modifies this
      ensures S() == Next(c, old(S()), DeviceResume)
    {
      match resumer {
        case Idle => status, resumer := RESUME_OK, Respecting;
        case Respecting =>
          ignoreWakelock, resumer := false, Forgetting;
          log := log + [DeviceResumed];
        case Forgetting =>
          count, resumer := 0, Idle;
          log := log + [CountReset];
      }
    }

    /** Any interleaving of the threads and the environment, from the start of the driver. */
    method RunAll(steps: seq<Step>)
      requires S() == BOOT
      modifies this
      ensures S() == Run(c, steps) && Inv(c, S())
    {
      hide Advance, Inv;
      var i := 0;
      while i < |steps|
        invariant 0 <= i <= |steps| && S() == Run(c, steps[..i])
      {
        assert steps[..i + 1][..i] == steps[..i];
        match steps[i] {
          case Go(adspHeld, longAgo) => ThreadStep(adspHeld, longAgo);
          case EarlySuspend => OnEarlySuspend();
          case LateResume => OnLateResume();
          case DeviceResume => OnResume();
          case SetStatus(to) => status := to;
        }
        i := i + 1;
      }
      assert steps[..i] == steps;
      AlwaysInv(c, steps);
    }
  }

  // ---- the parts of the suspend thread ----

  predicate InPoll(t: Thread) { t.Waiting? || t.Polling? || t.Leaving? }

  predicate InBlock(t: Thread) { t.Seen? || t.Looking? || t.Weighing? || t.Blocked? || t.BlockAdding? }

  predicate InTime(t: Thread) { t.Timing? || t.Counting? || t.TimeAdding? }

  predicate InJudgement(t: Thread) { t.Judging? || t.Quickening? || t.Dropping? }

  // ---- reading the log ----

  /** An increment under way: the count is loaded, or stored, and whether it was
      reset since. */
  datatype Phase = Shut | Loaded(v: int, reset: bool) | Stored(reset: bool)

  /** How the last reset went wrong: it fell between the store of an increment and
      the quick resume, which then goes uncounted, or between the load of `v` and
      the store, which then restores what the reset should have cleared. */
  datatype Fault = Sound | Slipped | Overwritten(v: int)

  function Gap(f: Fault): int { match f case Sound => 0 case Slipped => -1 case Overwritten(v) => v }

  /** What a log says about the present: `quicks` quick resumes since the last reset
      of the count; `polls` of the current episode, of which the last `pending` in a
      row saw the suspend pending, and `recent` did so after the last device resume;
      `resumed` says that a device resume came after the first poll of the episode,
      `confirmed` that its second look saw the suspend pending too, and `forced` that
      a suspend was forced since the last device resume. */
  datatype Reading = Reading(
    quicks: nat, phase: Phase, fault: Fault, polls: nat, pending: nat, recent: nat, resumed: bool,
    confirmed: bool, forced: bool)

  function Absorb(r: Reading, e: Event): Reading {
    match e
    case Episode => r.(polls := 0, pending := 0, recent := 0, resumed := false, confirmed := false)
    case Polled(seen) =>
      if seen.EARLY_SUSPEND_PENDING? then r.(polls := r.polls + 1, pending := r.pending + 1, recent := r.recent + 1)
      else r.(polls := r.polls + 1, pending := 0, recent := 0)
    case Looked(seen) => r.(confirmed := seen.EARLY_SUSPEND_PENDING?)
    case CountLoaded(v) => r.(phase := Loaded(v, false))
    case CountStored =>
      if r.phase.Loaded? && r.phase.reset then r.(phase := Stored(false), fault := Overwritten(r.phase.v))
      else r.(phase := Stored(false))
    case QuickResume =>
      r.(quicks := r.quicks + 1, phase := Shut, fault := if r.phase == Stored(true) then Slipped else r.fault)
    case Overrun => r.(phase := Shut)
    case CountReset =>
      r.(quicks := 0, fault := Sound, phase := if r.phase.Shut? then Shut else r.phase.(reset := true))
    case Forced => r.(forced := true)
    case DeviceResumed => r.(forced := false, recent := 0, resumed := r.resumed || r.polls > 0)
    case Rare => r
    case LockSeen => r
    case FlagsCleared => r
  }

  function Read(log: seq<Event>): Reading {
    if log == [] then Reading(0, Shut, Sound, 0, 0, 0, false, false, false)
    else Absorb(Read(log[..|log| - 1]), log[|log| - 1])
  }

  lemma ReadSnoc(log: seq<Event>, e: Event)
    ensures Read(log + [e]) == Absorb(Read(log), e)
  {
    assert (log + [e])[..|log|] == log;
  }

  /** Of any log, no reading is out of range. */
  ghost predicate Bounded(c: Config, r: Reading) {
    && r.quicks <= QuickLimit(c) + (if r.fault.Slipped? then 1 else 0)
    && (NeverQuick(c) ==> r.quicks == 0)
    && r.polls <= PollLimit(c)
  }

  /** A suspend may be forced here: the whole episode, and a full one, saw the
      suspend pending, and all of it after the last device resume exactly when no
      device resume fell inside the episode. */
  ghost predicate MayForce(c: Config, r: Reading) {
    && r.polls == r.pending == PollLimit(c) && r.confirmed
    && (r.recent >= PollLimit(c) <==> !r.resumed)
  }

  ghost predicate LogOk(c: Config, log: seq<Event>) {
    forall j | 0 <= j <= |log| ::
      Bounded(c, Read(log[..j])) && (j < |log| && log[j].Forced? ==> MayForce(c, Read(log[..j])))
  }

  lemma LogGrows(c: Config, log: seq<Event>, e: Event)
    requires LogOk(c, log) && Bounded(c, Absorb(Read(log), e)) && (e.Forced? ==> MayForce(c, Read(log)))
    ensures LogOk(c, log + [e]) && Read(log + [e]) == Absorb(Read(log), e)
  {
    hide Bounded, MayForce, Absorb;
    ReadSnoc(log, e);
    var l := log + [e];
    forall j | 0 <= j <= |l|
      ensures Bounded(c, Read(l[..j])) && (j < |l| && l[j].Forced? ==> MayForce(c, Read(l[..j])))
    {
      if j <= |log| {
        assert l[..j] == log[..j];
        assert j == |log| ==> log[..j] == log;
      } else {
        assert l[..j] == l;
      }
    }
  }

  /** The poll readings of any log. */
  ghost predicate PollsMatch(r: Reading) {
    && r.recent <= r.pending <= r.polls && (r.resumed ==> r.polls > 0)
    && (r.pending == r.polls ==> (r.recent == r.polls <==> !r.resumed))
  }

  /** The increment under way is the thread's. */
  ghost predicate PhaseMatches(c: Config, s: State, p: Phase) {
    match s.thread
    case Looking(_) => p.Shut? && c.looksForLocks
    case Weighing(_) => p.Shut? && c.looksForLocks
    case Blocked(_) => p.Shut? && c.looksForLocks && s.count < 5
    case BlockAdding(_, v) => p.Loaded? && p.v == v && c.looksForLocks && 0 <= v < 5
    case TimeAdding(_, v) => p.Loaded? && p.v == v && 0 <= v <= QuickLimit(c)
    case Judging(_) => p.Stored?
    case Quickening(_) => p.Stored? && s.count <= QuickLimit(c) && !NeverQuick(c)
    case Dropping(_) => p.Stored?
    case _ => p.Shut?
  }

  /** The count against the log: they differ by the fault of the last reset and by
      what is stored but not yet concluded. */
  ghost predicate CountMatches(c: Config, s: State, r: Reading) {
    var extra := if r.phase == Stored(false) then 1 else 0;
    && !s.clkBlock && PhaseMatches(c, s, r.phase)
    && s.count == r.quicks + Gap(r.fault) + extra && 0 <= s.count <= QuickLimit(c) + extra
    && (r.fault.Slipped? ==> r.quicks > 0)
    && (r.fault.Overwritten? ==> r.fault.v >= 0 && (r.quicks > 0 || extra == 1))
    && (!r.phase.Shut? && r.phase.reset ==> r.quicks == 0 && r.fault.Sound?)
    && (r.phase.Loaded? && !r.phase.reset ==> r.phase.v == s.count)
  }

  ghost predicate ThreadMatches(c: Config, t: Thread, r: Reading) {
    match t
    case Waiting => true
    case Polling(n) => n == r.polls == r.pending && n < PollLimit(c)
    case Leaving(_) => true
    case Quickening(_) => true
    case Counting(n) => PollLimit(c) <= n == r.polls == r.pending
    case TimeAdding(n, _) => PollLimit(c) <= n == r.polls == r.pending
    case Judging(n) => PollLimit(c) <= n == r.polls == r.pending
    case Dropping(n) => PollLimit(c) <= n == r.polls == r.pending
    case Forcing(n) => PollLimit(c) <= n == r.polls == r.pending
    case Committing(n) => PollLimit(c) <= n == r.polls == r.pending && r.confirmed
    case _ => 1 <= t.n == r.polls == r.pending
  }

  ghost predicate Inv(c: Config, s: State) {
    var r := Read(s.log);
    && LogOk(c, s.log) && Bounded(c, r) && PollsMatch(r)
    && CountMatches(c, s, r) && ThreadMatches(c, s.thread, r)
    && s.ignoreWakelock == r.forced
  }

  // ---- every step keeps the invariant ----

  lemma WakeStep(c: Config, s: State, adspHeld: bool, longAgo: bool)
    requires Inv(c, s) && s.thread.Waiting?
    ensures Inv(c, Advance(c, s, adspHeld, longAgo))
  {
    hide LogOk, Read;
    LogGrows(c, s.log, Episode);
  }

  lemma PollStep(c: Config, s: State, adspHeld: bool, longAgo: bool)
    requires Inv(c, s) && s.thread.Polling?
    ensures Inv(c, Advance(c, s, adspHeld, longAgo))
  {
    hide LogOk, Read, Bounded, PollsMatch;
    PollKeeps(c, Read(s.log), s.status);
    LogGrows(c, s.log, Polled(s.status));
  }

  lemma PollKeeps(c: Config, r: Reading, seen: Status)
    requires Bounded(c, r) && PollsMatch(r) && r.polls < PollLimit(c) && r.polls == r.pending
    ensures Bounded(c, Absorb(r, Polled(seen))) && PollsMatch(Absorb(r, Polled(seen)))
  {}

  lemma LeaveStep(c: Config, s: State, adspHeld: bool, longAgo: bool)
    requires Inv(c, s) && s.thread.Leaving?
    ensures Inv(c, Advance(c, s, adspHeld, longAgo))
  {
    hide LogOk, Read;
    LogGrows(c, s.log, CountReset);
  }

  lemma LookStep(c: Config, s: State, adspHeld: bool, longAgo: bool)
    requires Inv(c, s) && (s.thread.Seen? || s.thread.Looking? || s.thread.Weighing?)
    ensures Inv(c, Advance(c, s, adspHeld, longAgo))
  {
    hide LogOk, Read;
    LogGrows(c, s.log, LockSeen);
  }

  lemma LoadStep(c: Config, s: State, adspHeld: bool, longAgo: bool)
    requires Inv(c, s) && (s.thread.Blocked? || s.thread.Counting?)
    ensures Inv(c, Advance(c, s, adspHeld, longAgo))
  {
    hide LogOk, Read;
    LogGrows(c, s.log, CountLoaded(s.count));
  }

  lemma StoreStep(c: Config, s: State, adspHeld: bool, longAgo: bool)
    requires Inv(c, s) && (s.thread.BlockAdding? || s.thread.TimeAdding?)
    ensures Inv(c, Advance(c, s, adspHeld, longAgo))
  {
    hide LogOk, Read;
    LogGrows(c, s.log, CountStored);
  }

  lemma TimeStep(c: Config, s: State, adspHeld: bool, longAgo: bool)
    requires Inv(c, s) && s.thread.Timing?
    ensures Inv(c, Advance(c, s, adspHeld, longAgo))
  {
    hide LogOk, Read, Bounded, PollsMatch;
    if s.thread.n >= c.maxWait && longAgo {
      LogGrows(c, s.log, Rare);
      ResetKeeps(c, Read(s.log));
      LogGrows(c, s.log + [Rare], CountReset);
      assert s.log + [Rare] + [CountReset] == s.log + [Rare, CountReset];
    }
  }

  lemma ResetKeeps(c: Config, r: Reading)
    requires Bounded(c, r) && PollsMatch(r)
    ensures Bounded(c, Absorb(r, CountReset)) && PollsMatch(Absorb(r, CountReset))
  {}

  lemma JudgeStep(c: Config, s: State, adspHeld: bool, longAgo: bool)
    requires Inv(c, s) && (s.thread.Judging? || s.thread.Quickening?)
    ensures Inv(c, Advance(c, s, adspHeld, longAgo))
  {
    hide LogOk, Read;
    if s.thread.Quickening? { LogGrows(c, s.log, QuickResume); }
  }

  lemma DropStep(c: Config, s: State, adspHeld: bool, longAgo: bool)
    requires Inv(c, s) && s.thread.Dropping?
    ensures Inv(c, Advance(c, s, adspHeld, longAgo))
  {
    hide LogOk, Read;
    LogGrows(c, s.log, Overrun);
    LogGrows(c, s.log + [Overrun], CountReset);
    assert s.log + [Overrun] + [CountReset] == s.log + [Overrun, CountReset];
  }

  lemma ForceStep(c: Config, s: State, adspHeld: bool, longAgo: bool)
    requires Inv(c, s) && s.thread.Forcing?
    ensures Inv(c, Advance(c, s, adspHeld, longAgo))
  {
    hide LogOk, Read, Bounded, PollsMatch, PhaseMatches, ThreadMatches, Gap;
    LookKeeps(c, Read(s.log), s.status);
    LogGrows(c, s.log, Looked(s.status));
    ForcingEnds(c, s, Read(s.log), Advance(c, s, adspHeld, longAgo).thread);
  }

  /** Behind a second look nothing is being counted. */
  lemma ForcingEnds(c: Config, s: State, r: Reading, t: Thread)
    requires s.thread.Forcing? && PhaseMatches(c, s, r.phase) && ThreadMatches(c, s.thread, r)
    requires t.Waiting? || t == Committing(s.thread.n)
    ensures r.phase.Shut? && PhaseMatches(c, s.(thread := t), r.phase)
    ensures forall r': Reading | r' == r.(confirmed := t.Committing?) :: ThreadMatches(c, t, r')
    ensures forall s': State | s'.thread == t :: PhaseMatches(c, s', r.phase)
  {}

  lemma LookKeeps(c: Config, r: Reading, seen: Status)
    requires Bounded(c, r) && PollsMatch(r)
    ensures Bounded(c, Absorb(r, Looked(seen))) && PollsMatch(Absorb(r, Looked(seen)))
  {}

  lemma CommitStep(c: Config, s: State, adspHeld: bool, longAgo: bool)
    requires Inv(c, s) && s.thread.Committing?
    ensures Inv(c, Advance(c, s, adspHeld, longAgo))
  {
    hide LogOk, Read;
    LogGrows(c, s.log, Forced);
  }

  /** The other threads, wherever the suspend thread stands. */
  lemma OtherStep(c: Config, s: State, step: Step)
    requires Inv(c, s) && (step.EarlySuspend? || step.LateResume? || step.SetStatus?)
    ensures Inv(c, Next(c, s, step))
  {
    hide LogOk, Read, PollsMatch, ThreadMatches, Advance;
    LogGrows(c, s.log, FlagsCleared);
  }

  lemma ResumeStep(c: Config, s: State)
    requires Inv(c, s) && !s.resumer.Forgetting?
    ensures Inv(c, Next(c, s, DeviceResume))
  {
    hide LogOk, Read, Advance;
    if s.resumer.Respecting? { LogGrows(c, s.log, DeviceResumed); }
  }

  lemma ForgetStep(c: Config, s: State)
    requires Inv(c, s) && s.resumer.Forgetting?
    ensures Inv(c, Next(c, s, DeviceResume))
  {
    hide LogOk, Read, Advance, Bounded, PollsMatch;
    ResetKeeps(c, Read(s.log));
    LogGrows(c, s.log, CountReset);
  }

  lemma StepKeeps(c: Config, s: State, step: Step)
    requires Inv(c, s)
    ensures Inv(c, Next(c, s, step))
  {
    hide Inv, Advance;
    match step {
      case Go(adspHeld, longAgo) =>
        match s.thread {
          case Waiting => WakeStep(c, s, adspHeld, longAgo);
          case Polling(_) => PollStep(c, s, adspHeld, longAgo);
          case Leaving(_) => LeaveStep(c, s, adspHeld, longAgo);
          case Seen(_) => LookStep(c, s, adspHeld, longAgo);
          case Looking(_) => LookStep(c, s, adspHeld, longAgo);
          case Weighing(_) => LookStep(c, s, adspHeld, longAgo);
          case Blocked(_) => LoadStep(c, s, adspHeld, longAgo);
          case BlockAdding(_, _) => StoreStep(c, s, adspHeld, longAgo);
          case Timing(_) => TimeStep(c, s, adspHeld, longAgo);
          case Counting(_) => LoadStep(c, s, adspHeld, longAgo);
          case TimeAdding(_, _) => StoreStep(c, s, adspHeld, longAgo);
          case Judging(_) => JudgeStep(c, s, adspHeld, longAgo);
          case Quickening(_) => JudgeStep(c, s, adspHeld, longAgo);
          case Dropping(_) => DropStep(c, s, adspHeld, longAgo);
          case Forcing(_) => ForceStep(c, s, adspHeld, longAgo);
          case Committing(_) => CommitStep(c, s, adspHeld, longAgo);
        }
      case DeviceResume => if s.resumer.Forgetting? { ForgetStep(c, s); } else { ResumeStep(c, s); }
      case _ => OtherStep(c, s, step);
    }
  }

  /** Every run of every interleaving: the count is the number of quick resumes
      since its last reset, corrected by the fault of that reset; both stay bounded;
      no episode takes more polls than the limit; wake locks are ignored exactly
      when a suspend was forced since the last device resume, and only a full
      episode that saw the suspend pending at every poll forces one. */
  lemma {:induction false} AlwaysInv(c: Config, steps: seq<Step>)
    ensures Inv(c, Run(c, steps))
  {
    if steps == [] {
      assert BOOT.log[..0] == [];
    } else {
      AlwaysInv(c, steps[..|steps| - 1]);
      StepKeeps(c, Run(c, steps[..|steps| - 1]), steps[|steps| - 1]);
    }
  }

  // ---- how episodes end ----

  /** A poll or a second look that saw another status. */
  predicate Lapse(e: Event) { (e.Polled? || e.Looked?) && !e.seen.EARLY_SUSPEND_PENDING? }

  /** What ends an episode. */
  predicate Ends(e: Event) { Lapse(e) || e.QuickResume? || e.Forced? }

  function Lapses(log: seq<Event>): nat {
    if log == [] then 0 else Lapses(log[..|log| - 1]) + if Lapse(log[|log| - 1]) then 1 else 0
  }

  /** An episode has begun and not yet ended. */
  predicate InEpisode(log: seq<Event>) {
    log != [] && (log[|log| - 1].Episode? || (!Ends(log[|log| - 1]) && InEpisode(log[..|log| - 1])))
  }

  /** Every episode begins after the last one has ended, and every end is the end of one. */
  ghost predicate Alternates(log: seq<Event>) {
    forall j | 0 <= j < |log| ::
      (log[j].Episode? ==> !InEpisode(log[..j])) && (Ends(log[j]) ==> InEpisode(log[..j]))
  }

  /** The lock was seen since the flags were last cleared. */
  predicate LockHeld(log: seq<Event>) {
    log != [] && (log[|log| - 1].LockSeen? || (!log[|log| - 1].FlagsCleared? && LockHeld(log[..|log| - 1])))
  }

  /** A quick resume was taken since the flags were last cleared. */
  predicate Hurried(log: seq<Event>) {
    log != [] && (log[|log| - 1].QuickResume? || (!log[|log| - 1].FlagsCleared? && Hurried(log[..|log| - 1])))
  }

  lemma LogOne(log: seq<Event>, e: Event)
    requires Alternates(log) && (e.Episode? ==> !InEpisode(log)) && (Ends(e) ==> InEpisode(log))
    ensures Alternates(log + [e]) && Lapses(log + [e]) == Lapses(log) + if Lapse(e) then 1 else 0
    ensures InEpisode(log + [e]) <==> e.Episode? || (!Ends(e) && InEpisode(log))
    ensures LockHeld(log + [e]) <==> e.LockSeen? || (!e.FlagsCleared? && LockHeld(log))
    ensures Hurried(log + [e]) <==> e.QuickResume? || (!e.FlagsCleared? && Hurried(log))
  {
    hide Ends;
    var l := log + [e];
    assert l[..|log|] == log;
    forall j | 0 <= j < |l|
      ensures (l[j].Episode? ==> !InEpisode(l[..j])) && (Ends(l[j]) ==> InEpisode(l[..j]))
    {
      if j < |log| { assert l[..j] == log[..j]; }
    }
  }

  /** The late suspend thread is woken once for every episode that lapsed; the flags
      and the thread are what the log says. */
  ghost predicate Ledger(s: State) {
    && s.lateSuspendStart + (if s.thread.Leaving? then 1 else 0) == Lapses(s.log)
    && Alternates(s.log) && (InEpisode(s.log) <==> !Resting(s.thread))
    && (s.hasLock <==> LockHeld(s.log)) && (s.quick <==> Hurried(s.log))
  }

  /** What the suspend thread logs next. */
  function Entries(c: Config, s: State, adspHeld: bool, longAgo: bool): seq<Event> {
    match s.thread
    case Waiting => if s.suspendStart == 0 then [] else [Episode]
    case Polling(_) => [Polled(s.status)]
    case Leaving(_) => [CountReset]
    case Looking(_) => if adspHeld then [LockSeen] else []
    case Blocked(_) => [CountLoaded(s.count)]
    case BlockAdding(_, _) => [CountStored]
    case Timing(n) => if n >= c.maxWait && longAgo then [Rare, CountReset] else []
    case Counting(_) => [CountLoaded(s.count)]
    case TimeAdding(_, _) => [CountStored]
    case Quickening(_) => [QuickResume]
    case Dropping(_) => [Overrun, CountReset]
    case Forcing(_) => [Looked(s.status)]
    case Committing(_) => [Forced]
    case _ => []
  }

  predicate Resting(t: Thread) { t.Waiting? || t.Leaving? }

  /** What a step of the suspend thread does, seen from its entries. */
  ghost predicate Effect(s: State, l: seq<Event>, r: State) {
    var last := if |l| == 1 then l[0] else Overrun;
    && r.log == s.log + l && r.status == s.status && r.resumer == s.resumer && r.late == s.late
    && (last.Episode? ==> s.thread.Waiting?) && (Ends(last) ==> !Resting(s.thread))
    && r.suspendStart == s.suspendStart - (if last.Episode? then 1 else 0)
    && r.hasLock == (s.hasLock || last.LockSeen?) && r.quick == (s.quick || last.QuickResume?)
    && (Resting(r.thread) <==> Ends(last) || (Resting(s.thread) && !last.Episode?))
    && r.lateSuspendStart + (if r.thread.Leaving? then 1 else 0)
    == s.lateSuspendStart + (if s.thread.Leaving? then 1 else 0) + (if Lapse(last) then 1 else 0)
  }

  lemma PollEffect(c: Config, s: State, adspHeld: bool, longAgo: bool)
    requires InPoll(s.thread)
    ensures Effect(s, Entries(c, s, adspHeld, longAgo), Advance(c, s, adspHeld, longAgo))
  {}

  lemma BlockEffect(c: Config, s: State, adspHeld: bool, longAgo: bool)
    requires InBlock(s.thread)
    ensures Effect(s, Entries(c, s, adspHeld, longAgo), Advance(c, s, adspHeld, longAgo))
  {
    match s.thread {
      case Seen(_) =>
      case Looking(_) =>
      case Weighing(_) =>
      case Blocked(_) =>
      case BlockAdding(_, _) =>
    }
  }

  lemma TimeEffect(c: Config, s: State, adspHeld: bool, longAgo: bool)
    requires InTime(s.thread)
    ensures Effect(s, Entries(c, s, adspHeld, longAgo), Advance(c, s, adspHeld, longAgo))
  {
    match s.thread {
      case Timing(_) =>
      case Counting(_) =>
      case TimeAdding(_, _) =>
    }
  }

  lemma JudgeEffect(c: Config, s: State, adspHeld: bool, longAgo: bool)
    requires InJudgement(s.thread)
    ensures Effect(s, Entries(c, s, adspHeld, longAgo), Advance(c, s, adspHeld, longAgo))
  {
    match s.thread {
      case Judging(_) =>
      case Quickening(_) =>
      case Dropping(_) =>
    }
  }

  lemma ForceEffect(c: Config, s: State, adspHeld: bool, longAgo: bool)
    requires s.thread.Forcing? || s.thread.Committing?
    ensures Effect(s, Entries(c, s, adspHeld, longAgo), Advance(c, s, adspHeld, longAgo))
  {}

  lemma AdvanceEffect(c: Config, s: State, adspHeld: bool, longAgo: bool)
    ensures Effect(s, Entries(c, s, adspHeld, longAgo), Advance(c, s, adspHeld, longAgo))
  {
    hide Effect, Entries, Advance;
    if InPoll(s.thread) {
      PollEffect(c, s, adspHeld, longAgo);
    } else if InBlock(s.thread) {
      BlockEffect(c, s, adspHeld, longAgo);
    } else if InTime(s.thread) {
      TimeEffect(c, s, adspHeld, longAgo);
    } else if InJudgement(s.thread) {
      JudgeEffect(c, s, adspHeld, longAgo);
    } else {
      ForceEffect(c, s, adspHeld, longAgo);
    }
  }

  lemma LedgerAdvances(c: Config, s: State, adspHeld: bool, longAgo: bool)
    requires Ledger(s)
    ensures Ledger(Advance(c, s, adspHeld, longAgo))
  {
    hide Lapses, InEpisode, Alternates, LockHeld, Hurried, Advance, Entries;
    var l := Entries(c, s, adspHeld, longAgo);
    AdvanceEffect(c, s, adspHeld, longAgo);
    EntriesAre(c, s, adspHeld, longAgo);
    if |l| == 1 {
      LogOne(s.log, l[0]);
    } else if |l| == 2 {
      LogOne(s.log, l[0]);
      LogOne(s.log + [l[0]], CountReset);
      assert s.log + [l[0]] + [CountReset] == s.log + l;
    } else {
      assert s.log + l == s.log;
    }
  }

  lemma EntriesAre(c: Config, s: State, adspHeld: bool, longAgo: bool)
    ensures var l := Entries(c, s, adspHeld, longAgo);
            && (|l| <= 1 || l in {[Overrun, CountReset], [Rare, CountReset]})
            && DeviceResumed !in l && FlagsCleared !in l
            && (|l| == 1 ==> l == [l[0]])
  {}

  lemma LedgerKeeps(c: Config, s: State, step: Step)
    requires Ledger(s)
    ensures Ledger(Next(c, s, step))
  {
    hide Lapses, InEpisode, Alternates, LockHeld, Hurried, Advance;
    match step {
      case Go(adspHeld, longAgo) => LedgerAdvances(c, s, adspHeld, longAgo);
      case LateResume => LogOne(s.log, FlagsCleared);
      case DeviceResume => LogOne(s.log, if s.resumer.Respecting? then DeviceResumed else CountReset);
      case _ =>
    }
  }

  lemma {:induction false} AlwaysLedger(c: Config, steps: seq<Step>)
    ensures Ledger(Run(c, steps))
  {
    hide Next;
    if steps != [] {
      AlwaysLedger(c, steps[..|steps| - 1]);
      LedgerKeeps(c, Run(c, steps[..|steps| - 1]), steps[|steps| - 1]);
    }
  }

  /** In a log of alternating beginnings and ends, what began has ended in one of the three ways. */
  lemma {:induction false} EndsAddUp(log: seq<Event>)
    requires Alternates(log)
    ensures Times(log, Episode) == Lapses(log) + Times(log, QuickResume) + Times(log, Forced) +
                                      if InEpisode(log) then 1 else 0
  {
    if log != [] {
      var before, e := log[..|log| - 1], log[|log| - 1];
      assert log == before + [e];
      forall j | 0 <= j < |before|
        ensures (before[j].Episode? ==> !InEpisode(before[..j])) && (Ends(before[j]) ==> InEpisode(before[..j]))
      {
        assert before[..j] == log[..j];
      }
      EndsAddUp(before);
    }
  }

  /** Every run: each episode that has ended did exactly one of waking the late
      suspend thread, a quick resume and a forced suspend; the late suspend thread
      is woken exactly once for every poll or second look that saw another status. */
  lemma HowEpisodesEnd(c: Config, steps: seq<Step>)
    ensures var s := Run(c, steps);
            var late := s.lateSuspendStart + if s.thread.Leaving? then 1 else 0;
            && late == Lapses(s.log) && Alternates(s.log)
            && Times(s.log, Episode) == late + Times(s.log, QuickResume) + Times(s.log, Forced) +
                                           if Resting(s.thread) then 0 else 1
  {
    hide Run;
    AlwaysLedger(c, steps);
    EndsAddUp(Run(c, steps).log);
  }

  /** The flags of every run: the lock counts as held exactly if it was seen since a
      late resume last cleared the flags, which it does after a quick resume only. */
  lemma FlagsInLog(c: Config, steps: seq<Step>)
    ensures var s := Run(c, steps); (s.hasLock <==> LockHeld(s.log)) && (s.quick <==> Hurried(s.log))
  {
    hide Run;
    AlwaysLedger(c, steps);
  }

  /** A late resume uses up the quick resume: behind its flags none is left over,
      and the lock that led to one no longer counts as held. */
  lemma LateResumeClears(c: Config, steps: seq<Step>)
    requires Times(steps, LateResume) % 2 == 0
    ensures var s0, s := Run(c, steps), Run(c, steps + [LateResume]);
            && !Hurried(s.log) && !s.quick
            && (Hurried(s0.log) ==> !LockHeld(s.log) && !s.hasLock)
            && (!Hurried(s0.log) ==> s.log == s0.log && s.hasLock == s0.hasLock)
  {
    hide Run, Hurried, LockHeld, Times;
    ToldFromSteps(c, steps);
    FlagsInLog(c, steps);
    FlagsInLog(c, steps + [LateResume]);
    Extend(c, steps, LateResume);
  }

  // ---- what the callbacks do, told from the steps ----

  /** How often `x` occurs in `xs`. */
  function Times<T(==)>(xs: seq<T>, x: T): nat { multiset(xs)[x] }

  lemma TimesSnoc<T>(xs: seq<T>, y: T, x: T)
    ensures Times(xs + [y], x) == Times(xs, x) + if x == y then 1 else 0
  {}

  /** The last write of the status: the first of every three stores of
      fastboot_resume, the second of every two steps of fastboot_late_resume, or
      that of another thread. */
  function LastStatus(steps: seq<Step>): Status {
    if steps == [] then LATE_RESUME_OK
    else
      var before := steps[..|steps| - 1];
      match steps[|steps| - 1]
      case SetStatus(to) => to
      case DeviceResume => if Times(before, DeviceResume) % 3 == 0 then RESUME_OK else LastStatus(before)
      case LateResume => if Times(before, LateResume) % 2 == 1 then LATE_RESUME_OK else LastStatus(before)
      case _ => LastStatus(before)
  }

  function Stores(r: Resumer): nat { match r case Idle => 0 case Respecting => 1 case Forgetting => 2 }

  function Third(n: nat): nat { n / 3 }

  lemma Thirds(n: nat)
    ensures (n + 1) % 3 == if n % 3 == 2 then 0 else n % 3 + 1
    ensures Third(n + 1) == Third(n) + if n % 3 == 2 then 1 else 0
  {}

  /** The status, the callbacks under way, the episodes begun and owed, and the
      device resumes seen follow from the steps of the callbacks alone. */
  ghost predicate Told(steps: seq<Step>, s: State) {
    var resumes := Times(steps, DeviceResume);
    && s.status == LastStatus(steps)
    && s.suspendStart + Times(s.log, Episode) == Times(steps, EarlySuspend)
    && Stores(s.resumer) == resumes % 3 && Times(s.log, DeviceResumed) == Third(resumes + 1)
    && (s.late <==> Times(steps, LateResume) % 2 == 1)
  }

  lemma {:induction false} ToldFromSteps(c: Config, steps: seq<Step>)
    ensures Told(steps, Run(c, steps))
  {
    if steps != [] {
      var before, step := steps[..|steps| - 1], steps[|steps| - 1];
      ToldFromSteps(c, before);
      assert steps == before + [step];
      ToldOneMore(c, before, Run(c, before), step);
    }
  }

  lemma ToldOneMore(c: Config, before: seq<Step>, s: State, step: Step)
    requires Told(before, s)
    ensures Told(before + [step], Next(c, s, step))
  {
    hide Times, Advance, Entries, Third;
    assert (before + [step])[..|before|] == before;
    Thirds(Times(before, DeviceResume));
    Thirds(Times(before, DeviceResume) + 1);
    TimesSnoc(before, step, DeviceResume);
    TimesSnoc(before, step, LateResume);
    TimesSnoc(before, step, EarlySuspend);
    if step.Go? {
      AdvanceEffect(c, s, step.adspHeld, step.longAgo);
      EntriesCount(c, s, step.adspHeld, step.longAgo);
    } else {
      TimesSnoc(s.log, CountReset, Episode);
      TimesSnoc(s.log, CountReset, DeviceResumed);
      TimesSnoc(s.log, FlagsCleared, Episode);
      TimesSnoc(s.log, FlagsCleared, DeviceResumed);
      TimesSnoc(s.log, DeviceResumed, Episode);
      TimesSnoc(s.log, DeviceResumed, DeviceResumed);
    }
  }

  /** The suspend thread logs no device resume, and one episode for each completion it takes. */
  lemma EntriesCount(c: Config, s: State, adspHeld: bool, longAgo: bool)
    ensures var l := Entries(c, s, adspHeld, longAgo);
            && Times(s.log + l, DeviceResumed) == Times(s.log, DeviceResumed)
            && Times(s.log + l, Episode) == Times(s.log, Episode) + if |l| == 1 && l[0].Episode? then 1 else 0
  {
    hide Times, Entries;
    var l := Entries(c, s, adspHeld, longAgo);
    EntriesAre(c, s, adspHeld, longAgo);
    if |l| == 1 {
      TimesSnoc(s.log, l[0], DeviceResumed);
      TimesSnoc(s.log, l[0], Episode);
    } else if |l| == 2 {
      assert s.log + l == (s.log + [l[0]]) + [CountReset];
      TimesSnoc(s.log, l[0], DeviceResumed);
      TimesSnoc(s.log, l[0], Episode);
      TimesSnoc(s.log + [l[0]], CountReset, DeviceResumed);
      TimesSnoc(s.log + [l[0]], CountReset, Episode);
    } else {
      assert s.log + l == s.log;
    }
  }

  // ---- where the resets come from ----

  /** A reset counts 1, and what the suspend thread must reset the count for -1: a poll
      that saw another status, a timeout after ten minutes, and one timeout too many. */
  function Weight(e: Event): int {
    match e
    case CountReset => 1
    case Rare => -1
    case Overrun => -1
    case Polled(seen) => if seen.EARLY_SUSPEND_PENDING? then 0 else -1
    case _ => 0
  }

  function Weigh(log: seq<Event>): int {
    if log == [] then 0 else Weigh(log[..|log| - 1]) + Weight(log[|log| - 1])
  }

  lemma WeighSnoc(log: seq<Event>, e: Event)
    ensures Weigh(log + [e]) == Weigh(log) + Weight(e)
  {
    assert (log + [e])[..|log|] == log;
  }

  function Due(t: Thread): int { if t.Leaving? then 1 else 0 }

  /** Every run: one reset for each of its causes, none left out and none besides;
      the resets left over are those of the device resumes. */
  lemma {:induction false} ResetsAddUp(c: Config, steps: seq<Step>)
    ensures var s := Run(c, steps);
            Weigh(s.log) + Due(s.thread) == Third(Times(steps, DeviceResume))
  {
    hide Times, Third;
    if steps != [] {
      var before, step := steps[..|steps| - 1], steps[|steps| - 1];
      assert steps == before + [step];
      ResetsAddUp(c, before);
      ToldFromSteps(c, before);
      ResetsOneMore(c, Run(c, before), step);
      TimesSnoc(before, step, DeviceResume);
      Thirds(Times(before, DeviceResume));
    } else {
      NoSteps();
    }
  }

  lemma NoSteps()
    ensures Third(Times<Step>([], DeviceResume)) == 0
  {}

  lemma ResetsOneMore(c: Config, s: State, step: Step)
    ensures var r := Next(c, s, step);
            Weigh(r.log) + Due(r.thread) == Weigh(s.log) + Due(s.thread) +
                                            if step.DeviceResume? && s.resumer.Forgetting? then 1 else 0
  {
    hide Weigh, Advance, Entries;
    if step.Go? {
      var l := Entries(c, s, step.adspHeld, step.longAgo);
      AdvanceEffect(c, s, step.adspHeld, step.longAgo);
      EntriesAre(c, s, step.adspHeld, step.longAgo);
      DueNext(c, s, step.adspHeld, step.longAgo);
      if |l| == 1 {
        WeighSnoc(s.log, l[0]);
      } else if |l| == 2 {
        assert s.log + l == (s.log + [l[0]]) + [CountReset];
        WeighSnoc(s.log, l[0]);
        WeighSnoc(s.log + [l[0]], CountReset);
      } else {
        assert s.log + l == s.log;
      }
    } else {
      WeighSnoc(s.log, CountReset);
      WeighSnoc(s.log, DeviceResumed);
      WeighSnoc(s.log, FlagsCleared);
    }
  }

  /** A reset is due from the poll that calls for it to the step that does it. */
  ghost predicate DueShifts(l: seq<Event>, t: Thread, t': Thread) {
    Due(t') + (if |l| == 1 then Weight(l[0]) else 0) == Due(t)
  }

  lemma DueInPoll(c: Config, s: State, adspHeld: bool, longAgo: bool)
    requires InPoll(s.thread)
    ensures DueShifts(Entries(c, s, adspHeld, longAgo), s.thread, Advance(c, s, adspHeld, longAgo).thread)
  {}

  lemma DueInBlock(c: Config, s: State, adspHeld: bool, longAgo: bool)
    requires InBlock(s.thread)
    ensures DueShifts(Entries(c, s, adspHeld, longAgo), s.thread, Advance(c, s, adspHeld, longAgo).thread)
  {
    match s.thread {
      case Seen(_) =>
      case Looking(_) =>
      case Weighing(_) =>
      case Blocked(_) =>
      case BlockAdding(_, _) =>
    }
  }

  lemma DueInTime(c: Config, s: State, adspHeld: bool, longAgo: bool)
    requires InTime(s.thread)
    ensures DueShifts(Entries(c, s, adspHeld, longAgo), s.thread, Advance(c, s, adspHeld, longAgo).thread)
  {
    match s.thread {
      case Timing(_) =>
      case Counting(_) =>
      case TimeAdding(_, _) =>
    }
  }

  lemma DueInEnd(c: Config, s: State, adspHeld: bool, longAgo: bool)
    requires InJudgement(s.thread) || s.thread.Forcing? || s.thread.Committing?
    ensures DueShifts(Entries(c, s, adspHeld, longAgo), s.thread, Advance(c, s, adspHeld, longAgo).thread)
  {
    match s.thread {
      case Judging(_) =>
      case Quickening(_) =>
      case Dropping(_) =>
      case Forcing(_) =>
      case Committing(_) =>
    }
  }

  lemma DueNext(c: Config, s: State, adspHeld: bool, longAgo: bool)
    ensures DueShifts(Entries(c, s, adspHeld, longAgo), s.thread, Advance(c, s, adspHeld, longAgo).thread)
  {
    hide Entries, Advance, DueShifts;
    if InPoll(s.thread) {
      DueInPoll(c, s, adspHeld, longAgo);
    } else if InBlock(s.thread) {
      DueInBlock(c, s, adspHeld, longAgo);
    } else if InTime(s.thread) {
      DueInTime(c, s, adspHeld, longAgo);
    } else {
      DueInEnd(c, s, adspHeld, longAgo);
    }
  }

  // ---- timeouts more than ten minutes apart ----

  /** No forced suspend is under way, and the count starts afresh at every timeout. */
  ghost predicate CalmThread(s: State) {
    && !s.ignoreWakelock && !s.thread.Dropping? && !s.thread.Forcing? && !s.thread.Committing?
    && (s.thread.Counting? ==> s.count == 0)
    && (s.thread.TimeAdding? ==> s.thread.v == 0)
    && (s.thread.Judging? ==> s.count <= 1)
  }

  ghost predicate Calm(s: State) { CalmThread(s) && Overrun !in s.log && Forced !in s.log }

  /** If timeouts are always more than ten minutes apart, and one quick resume is
      allowed, no suspend is ever forced, however often the waits time out. */
  lemma {:induction false} RareTimeouts(c: Config, steps: seq<Step>)
    requires c.hasLockTimes >= 1 && forall step | step in steps && step.Go? :: step.longAgo
    ensures Calm(Run(c, steps))
  {
    hide Calm, Next;
    if steps == [] {
      CalmAtBoot();
    } else {
      var before, step := steps[..|steps| - 1], steps[|steps| - 1];
      assert step in steps && forall x | x in before :: x in steps;
      RareTimeouts(c, before);
      CalmKeeps(c, Run(c, before), step);
    }
  }

  lemma CalmAtBoot()
    ensures Calm(BOOT)
  {}

  lemma CalmKeeps(c: Config, s: State, step: Step)
    requires Calm(s) && c.hasLockTimes >= 1 && (step.Go? ==> step.longAgo)
    ensures Calm(Next(c, s, step))
  {
    hide Advance, CalmThread;
    if step.Go? {
      if InPoll(s.thread) || InBlock(s.thread) {
        CalmPoll(c, s, step.adspHeld);
      } else {
        CalmTime(c, s, step.adspHeld);
      }
      AdvanceEffect(c, s, step.adspHeld, true);
    } else {
      CalmOther(c, s, step);
    }
  }

  lemma CalmPoll(c: Config, s: State, adspHeld: bool)
    requires CalmThread(s) && (InPoll(s.thread) || InBlock(s.thread))
    ensures CalmThread(Advance(c, s, adspHeld, true))
    ensures Overrun !in Entries(c, s, adspHeld, true) && Forced !in Entries(c, s, adspHeld, true)
  {
    match s.thread {
      case Waiting =>
      case Polling(_) =>
      case Leaving(_) =>
      case Seen(_) =>
      case Looking(_) =>
      case Weighing(_) =>
      case Blocked(_) =>
      case BlockAdding(_, _) =>
    }
  }

  lemma CalmTime(c: Config, s: State, adspHeld: bool)
    requires CalmThread(s) && c.hasLockTimes >= 1 && !InPoll(s.thread) && !InBlock(s.thread)
    ensures CalmThread(Advance(c, s, adspHeld, true))
    ensures Overrun !in Entries(c, s, adspHeld, true) && Forced !in Entries(c, s, adspHeld, true)
  {}

  lemma CalmOther(c: Config, s: State, step: Step)
    requires CalmThread(s) && !step.Go?
    ensures CalmThread(Next(c, s, step))
  {
    hide Advance;
  }

  // ---- what it means for a whole run ----

  function Quicks(log: seq<Event>): nat {
    if log == [] then 0 else Quicks(log[..|log| - 1]) + if log[|log| - 1].QuickResume? then 1 else 0
  }

  lemma NoQuicks()
    ensures Quicks([]) == 0
  {}

  lemma QuicksSnoc(log: seq<Event>, e: Event)
    ensures Quicks(log + [e]) == Quicks(log) + if e.QuickResume? then 1 else 0
  {
    assert (log + [e])[..|log|] == log;
  }

  lemma {:induction false} QuicksBound(log: seq<Event>, from: nat, upTo: nat)
    requires from <= upTo <= |log| && forall i | from <= i < upTo :: !log[i].CountReset?
    ensures Quicks(log[from..upTo]) <= Read(log[..upTo]).quicks
    decreases upTo
  {
    hide Read, Quicks;
    if from < upTo {
      var e := log[upTo - 1];
      QuicksBound(log, from, upTo - 1);
      assert log[from..upTo] == log[from..upTo - 1] + [e] && log[..upTo] == log[..upTo - 1] + [e];
      QuicksSnoc(log[from..upTo - 1], e);
      ReadSnoc(log[..upTo - 1], e);
    } else {
      assert log[from..upTo] == [] && Quicks([]) == 0 by { NoQuicks(); }
    }
  }

  /** The quick resumes that fit between two resets. */
  function QuickBound(c: Config): nat { if NeverQuick(c) then 0 else QuickLimit(c) + 1 }

  /** A stretch of a run without a reset has no more quick resumes than the count
      can reach, and one more only if one of them went uncounted. */
  lemma QuickResumesBounded(c: Config, steps: seq<Step>, from: nat, upTo: nat)
    requires from <= upTo <= |Run(c, steps).log|
    requires forall i | from <= i < upTo :: !Run(c, steps).log[i].CountReset?
    ensures var log := Run(c, steps).log;
            && Quicks(log[from..upTo]) <= QuickBound(c)
            && (!Read(log[..upTo]).fault.Slipped? ==> Quicks(log[from..upTo]) <= QuickLimit(c))
  {
    AlwaysInv(c, steps);
    QuicksBound(Run(c, steps).log, from, upTo);
    assert Bounded(c, Read(Run(c, steps).log[..upTo]));
  }

  /** Aside from an increment under way the count is exact unless the last reset
      fell between the load of a value other than 0 and the quick resume; it is at
      most one short, and too high by at most what a load can restore. */
  lemma CountIsQuicks(c: Config, steps: seq<Step>)
    requires Read(Run(c, steps).log).phase.Shut?
    ensures var s, r := Run(c, steps), Read(Run(c, steps).log);
            && s.count == r.quicks + Gap(r.fault) && 0 <= s.count <= QuickLimit(c)
            && (s.count == r.quicks <==> r.fault in {Sound, Overwritten(0)})
            && -1 <= s.count - r.quicks <= Max(0, QuickLimit(c) - 1)
  {
    hide Run, Read, LogOk, Bounded, PollsMatch, ThreadMatches;
    AlwaysInv(c, steps);
  }

  /** Every forced suspend of every run: at least the limit of pending polls lies
      after the last device resume exactly when none fell inside the episode. */
  lemma ForcedAfterResume(c: Config, steps: seq<Step>, f: nat)
    requires f < |Run(c, steps).log| && Run(c, steps).log[f].Forced?
    ensures var r := Read(Run(c, steps).log[..f]);
            r.polls == r.pending == PollLimit(c) && r.confirmed && (r.recent >= PollLimit(c) <==> !r.resumed)
  {
    AlwaysInv(c, steps);
  }

  // ---- runs that reach the limits ----

  lemma Extend(c: Config, steps: seq<Step>, step: Step)
    ensures Run(c, steps + [step]) == Next(c, Run(c, steps), step)
  {
    assert (steps + [step])[..|steps|] == steps;
  }

  /** The suspend thread moves on; no lock is held and no ten minutes have passed. */
  lemma GoOn(c: Config, steps0: seq<Step>) returns (steps: seq<Step>)
    ensures Run(c, steps) == Advance(c, Run(c, steps0), false, false)
  {
    hide Advance;
    steps := steps0 + [Go(false, false)];
    Extend(c, steps0, Go(false, false));
  }

  /** fastboot_resume, from its first store to its last. */
  lemma Resume(c: Config, steps0: seq<Step>) returns (steps: seq<Step>)
    requires Run(c, steps0).resumer.Idle?
    ensures var s := Run(c, steps0);
            && Run(c, steps) == s.(status := RESUME_OK, ignoreWakelock := false, count := 0,
                                   log := s.log + [DeviceResumed] + [CountReset])
            && Read(Run(c, steps).log) == Absorb(Absorb(Read(s.log), DeviceResumed), CountReset)
  {
    hide Run, Advance, Read, Absorb;
    var log := Run(c, steps0).log;
    ReadSnoc(log, DeviceResumed);
    ReadSnoc(log + [DeviceResumed], CountReset);
    Extend(c, steps0, DeviceResume);
    steps := steps0 + [DeviceResume];
    Extend(c, steps, DeviceResume);
    steps := steps + [DeviceResume];
    Extend(c, steps, DeviceResume);
    steps := steps + [DeviceResume];
  }

  /** A new episode. */
  lemma Begin(c: Config, steps0: seq<Step>) returns (steps: seq<Step>)
    requires Run(c, steps0).thread.Waiting? && !Run(c, steps0).clkBlock
    ensures var s := Run(c, steps0);
            && Run(c, steps) == s.(status := EARLY_SUSPEND_PENDING, thread := Polling(0), log := s.log + [Episode])
            && Read(Run(c, steps).log) == Absorb(Read(s.log), Episode)
  {
    hide Run, Read, Absorb;
    ReadSnoc(Run(c, steps0).log, Episode);
    Extend(c, steps0, EarlySuspend);
    steps := GoOn(c, steps0 + [EarlySuspend]);
    Extend(c, steps, SetStatus(EARLY_SUSPEND_PENDING));
    steps := steps + [SetStatus(EARLY_SUSPEND_PENDING)];
  }

  /** One poll that sees the suspend pending. */
  lemma Poll(c: Config, steps0: seq<Step>) returns (steps: seq<Step>)
    requires var s := Run(c, steps0); s.thread.Polling? && s.status.EARLY_SUSPEND_PENDING? && !s.clkBlock
    ensures var s := Run(c, steps0);
            var n := s.thread.n + 1;
            && Run(c, steps) == s.(thread := if c.looksForLocks then Looking(n) else Timing(n),
                                   log := s.log + [Polled(EARLY_SUSPEND_PENDING)])
            && Read(Run(c, steps).log) == Absorb(Read(s.log), Polled(EARLY_SUSPEND_PENDING))
  {
    hide Run, Read, Absorb;
    ReadSnoc(Run(c, steps0).log, Polled(EARLY_SUSPEND_PENDING));
    steps := GoOn(c, steps0);
    steps := GoOn(c, steps);
  }

  /** A run from `steps0` to the point where the count is loaded and nothing else is changed. */
  ghost predicate Loads(c: Config, steps0: seq<Step>, steps: seq<Step>) {
    var s0, s := Run(c, steps0), Run(c, steps);
    var r0, r := Read(s0.log), Read(s.log);
    && (s.thread.BlockAdding? || s.thread.TimeAdding?) && s.thread.v == s.count == s0.count
    && s.resumer == s0.resumer && s.clkBlock == s0.clkBlock
    && r.phase == Loaded(s0.count, false) && r.quicks == r0.quicks && r.fault == r0.fault
  }

  /** No lock is in the way. */
  predicate Clear(c: Config, s: State) { c.looksForLocks ==> !s.hasLock || s.count >= 5 }

  /** A poll that finds no lock in the way. */
  lemma Round(c: Config, steps0: seq<Step>) returns (steps: seq<Step>)
    requires var s := Run(c, steps0);
             s.thread.Polling? && s.status.EARLY_SUSPEND_PENDING? && !s.clkBlock && Clear(c, s)
    ensures var s := Run(c, steps0);
            && Run(c, steps) == s.(thread := Timing(s.thread.n + 1), log := s.log + [Polled(EARLY_SUSPEND_PENDING)])
            && Read(Run(c, steps).log) == Absorb(Read(s.log), Polled(EARLY_SUSPEND_PENDING))
  {
    hide Run, Read, Absorb;
    steps := Poll(c, steps0);
    if c.looksForLocks {
      steps := GoOn(c, steps);
      steps := GoOn(c, steps);
    }
  }

  /** Polling until the wait times out. */
  lemma {:induction false} Wait(c: Config, steps0: seq<Step>) returns (steps: seq<Step>)
    requires var s := Run(c, steps0);
             s.thread.Polling? && s.status.EARLY_SUSPEND_PENDING? && !s.clkBlock && Clear(c, s)
    ensures Loads(c, steps0, steps) && Run(c, steps).thread.TimeAdding?
    ensures Run(c, steps).hasLock == Run(c, steps0).hasLock
    decreases c.maxWait - Run(c, steps0).thread.n
  {
    hide Run, Read;
    var s0 := Run(c, steps0);
    steps := Round(c, steps0);
    steps := GoOn(c, steps);
    if s0.thread.n + 1 < c.maxWait {
      steps := Wait(c, steps);
    } else {
      ReadSnoc(Run(c, steps).log, CountLoaded(s0.count));
      steps := GoOn(c, steps);
    }
  }

  /** A poll that finds the wake lock. */
  lemma Lock(c: Config, steps0: seq<Step>) returns (steps: seq<Step>)
    requires var s := Run(c, steps0);
             s.thread.Polling? && s.status.EARLY_SUSPEND_PENDING? && !s.clkBlock && c.looksForLocks && s.count < 5
    ensures Loads(c, steps0, steps) && Run(c, steps).thread.BlockAdding?
  {
    hide Run, Read;
    steps := Poll(c, steps0);
    ReadSnoc(Run(c, steps).log, LockSeen);
    Extend(c, steps, Go(true, false));
    steps := GoOn(c, steps + [Go(true, false)]);
    ReadSnoc(Run(c, steps).log, CountLoaded(Run(c, steps).count));
    steps := GoOn(c, steps);
  }

  /** The suspend thread rests; `k` is the count. */
  ghost predicate Rest(s: State, k: int) {
    s.thread.Waiting? && !s.clkBlock && s.resumer.Idle? && s.count == k && Read(s.log).phase.Shut?
  }

  /** An episode up to the load of the count: by a lock if one counts, else by waiting. */
  lemma Load(c: Config, steps0: seq<Step>, k: int) returns (steps: seq<Step>)
    requires Rest(Run(c, steps0), k)
    ensures Loads(c, steps0, steps)
    ensures Run(c, steps).thread.BlockAdding? <==> c.looksForLocks && k < 5
  {
    hide Run, Read;
    steps := Begin(c, steps0);
    if c.looksForLocks && k < 5 { steps := Lock(c, steps); } else { steps := Wait(c, steps); }
  }

  /** The store of the incremented count. */
  lemma Store(c: Config, steps0: seq<Step>) returns (steps: seq<Step>)
    requires Run(c, steps0).thread.BlockAdding? || Run(c, steps0).thread.TimeAdding?
    ensures var s := Run(c, steps0);
            var n := s.thread.n;
            && Run(c, steps) == s.(thread := if s.thread.BlockAdding? then Quickening(n) else Judging(n),
                                   count := s.thread.v + 1, log := s.log + [CountStored])
            && Read(Run(c, steps).log) == Absorb(Read(s.log), CountStored)
  {
    hide Run, Read, Absorb;
    ReadSnoc(Run(c, steps0).log, CountStored);
    steps := GoOn(c, steps0);
  }

  /** From the store to the quick resume. */
  lemma Quicken(c: Config, steps0: seq<Step>) returns (steps: seq<Step>)
    requires var s := Run(c, steps0);
             s.thread.Quickening? || (s.thread.Judging? && s.count <= c.hasLockTimes)
    ensures var s := Run(c, steps0);
            && Run(c, steps) == s.(thread := Waiting, quick := true, log := s.log + [QuickResume])
            && Read(Run(c, steps).log) == Absorb(Read(s.log), QuickResume)
  {
    hide Run, Read, Absorb;
    ReadSnoc(Run(c, steps0).log, QuickResume);
    steps := steps0;
    if Run(c, steps0).thread.Judging? { steps := GoOn(c, steps); }
    steps := GoOn(c, steps);
  }

  lemma NothingYet()
    ensures forall c :: Run(c, []) == BOOT
    ensures Read([]) == Reading(0, Shut, Sound, 0, 0, 0, false, false, false)
  {}

  /** From rest, `k` undisturbed quick resumes. */
  lemma {:induction false} Climb(c: Config, steps0: seq<Step>, k: nat) returns (steps: seq<Step>)
    requires Rest(Run(c, steps0), 0) && k <= QuickLimit(c)
    ensures var r0, r := Read(Run(c, steps0).log), Read(Run(c, steps).log);
            Rest(Run(c, steps), k) && r.quicks == r0.quicks + k && r.fault == r0.fault
  {
    hide Run, Read, Advance;
    steps := steps0;
    if k > 0 {
      steps := Climb(c, steps0, k - 1);
      steps := Load(c, steps, k - 1);
      steps := Store(c, steps);
      steps := Quicken(c, steps);
    }
  }

  /** A device resume between the store and the quick resume: one goes uncounted. */
  lemma Slip(c: Config) returns (steps: seq<Step>)
    requires !NeverQuick(c)
    ensures Rest(Run(c, steps), 0) && Read(Run(c, steps).log).quicks == 1
  {
    hide Run, Read, Advance;
    NothingYet();
    steps := Load(c, [], 0);
    steps := Store(c, steps);
    steps := Resume(c, steps);
    steps := Quicken(c, steps);
  }

  /** The least bound on the quick resumes between two resets that every run
      respects: one more than the count can reach, and 0 where nothing is ever counted. */
  lemma QuickLimitExact(c: Config, m: int)
    ensures (forall steps: seq<Step> :: Read(Run(c, steps).log).quicks <= m) <==> QuickBound(c) <= m
  {
    hide Run, Read, Rest;
    if QuickBound(c) <= m {
      forall steps: seq<Step> ensures Read(Run(c, steps).log).quicks <= m {
        AlwaysInv(c, steps);
      }
    } else if NeverQuick(c) {
      NothingYet();
      assert Read(Run(c, []).log).quicks == 0;
    } else {
      var steps := Slip(c);
      steps := Climb(c, steps, QuickLimit(c));
      assert Read(Run(c, steps).log).quicks == QuickLimit(c) + 1;
    }
  }

  /** A device resume between the load and the store is lost: the count stands at its
      limit after a single quick resume. */
  lemma LostReset(c: Config) returns (steps: seq<Step>)
    requires QuickLimit(c) >= 1
    ensures Rest(Run(c, steps), QuickLimit(c)) && Read(Run(c, steps).log).quicks == 1
  {
    hide Run, Read, Advance;
    NothingYet();
    steps := Climb(c, [], QuickLimit(c) - 1);
    steps := Load(c, steps, QuickLimit(c) - 1);
    steps := Resume(c, steps);
    steps := Store(c, steps);
    steps := Quicken(c, steps);
  }

  /** The least bound on how far the count at rest exceeds the quick resumes. */
  lemma ExcessExact(c: Config, m: int)
    ensures (forall steps: seq<Step> | Read(Run(c, steps).log).phase.Shut? ::
               Run(c, steps).count - Read(Run(c, steps).log).quicks <= m) <==> Max(0, QuickLimit(c) - 1) <= m
  {
    hide Run, Read;
    if Max(0, QuickLimit(c) - 1) <= m {
      forall steps: seq<Step> | Read(Run(c, steps).log).phase.Shut?
        ensures Run(c, steps).count - Read(Run(c, steps).log).quicks <= m
      {
        CountIsQuicks(c, steps);
      }
    } else if QuickLimit(c) == 0 {
      NothingYet();
      assert Run(c, []).count - Read(Run(c, []).log).quicks == 0;
    } else {
      var steps := LostReset(c);
      assert Run(c, steps).count - Read(Run(c, steps).log).quicks == QuickLimit(c) - 1;
    }
  }

  /** At rest, with no lock seen, after `k` timeouts that ended in quick resumes. */
  lemma {:induction false} Timeouts(c: Config, k: nat) returns (steps: seq<Step>)
    requires k <= Max(0, c.hasLockTimes)
    ensures Rest(Run(c, steps), k) && !Run(c, steps).hasLock
  {
    hide Run, Read, Advance;
    if k == 0 {
      NothingYet();
      steps := [];
    } else {
      steps := Timeouts(c, k - 1);
      steps := Begin(c, steps);
      steps := Wait(c, steps);
      steps := Store(c, steps);
      steps := Quicken(c, steps);
    }
  }

  /** One timeout too many leads to the forced suspend. */
  lemma ToForcing(c: Config) returns (steps: seq<Step>)
    ensures var s := Run(c, steps); s.thread.Forcing? && s.resumer.Idle? && Read(s.log).polls > 0
  {
    hide Run, Read;
    steps := Timeouts(c, Max(0, c.hasLockTimes));
    steps := Begin(c, steps);
    steps := Wait(c, steps);
    steps := Store(c, steps);
    steps := GoOn(c, steps);
    steps := GoOn(c, steps);
    ForcingPolled(c, steps);
  }

  lemma ForcingPolled(c: Config, steps: seq<Step>)
    requires Run(c, steps).thread.Forcing?
    ensures Read(Run(c, steps).log).polls > 0
  {
    hide Run, LogOk, Read, Bounded, PollsMatch, CountMatches;
    AlwaysInv(c, steps);
  }

  /** Whatever the parameters, a suspend can be forced by polls that all came
      before the last device resume: the resume, and a status set to pending again,
      fall before the second look. */
  lemma StaleForce(c: Config) returns (steps: seq<Step>, f: nat)
    ensures var s := Run(c, steps);
            && s.ignoreWakelock && f < |s.log| && s.log[f].Forced?
            && Read(s.log[..f]).recent == 0 && Read(s.log[..f]).resumed
  {
    hide Run, Read;
    steps := ToForcing(c);
    steps := Resume(c, steps);
    ReadSnoc(Run(c, steps).log, Looked(EARLY_SUSPEND_PENDING));
    Extend(c, steps, SetStatus(EARLY_SUSPEND_PENDING));
    steps := GoOn(c, steps + [SetStatus(EARLY_SUSPEND_PENDING)]);
    var before := Run(c, steps).log;
    f := |before|;
    steps := GoOn(c, steps);
    assert Run(c, steps).log[..f] == before;
  }
}
