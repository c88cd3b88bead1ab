/** What passes through the IO queue is neither lost nor doubled: tasks, timers, and the
    bytes that wake the loop. */
module IoqTasks {
  import opened Ioq

  // -------------------------------------------------------------------- tasks

  /** The tasks that a step gives to the run queue, by the rules of the interface: one for each
      submission, each expired timer and each descriptor whose wait is over. */
  function Given(s: State, st: Step): seq<Job> {
    match st
    case OfLoop(l) =>
      if l.ExpiredExec? then [OtherTask] else if l.Process? && s.pc.Got? && !s.pc.waiting then [FdTask(s.pc.fd)] else []
    case OfClient(c) => if c.Submit? then [OtherTask] else if c.WaitEmpty? then [FdTask(c.fd)] else []
  }

  /** The task that a step takes out and calls: the first one, if there is one. */
  function Taken(s: State, st: Step): seq<Job> {
    if (st == OfLoop(RunOne) || st == OfClient(WorkerRun)) && s.jobs != [] then [s.jobs[0]] else []
  }

  ghost function GivenIn(u: Use, s: State, run: seq<Step>): seq<Job>
    decreases |run|
  {
    if run == [] || !Enabled(u, s, run[0]) then [] else Given(s, run[0]) + GivenIn(u, Apply(u, s, run[0]), run[1..])
  }

  ghost function TakenIn(u: Use, s: State, run: seq<Step>): seq<Job>
    decreases |run|
  {
    if run == [] || !Enabled(u, s, run[0]) then [] else Taken(s, run[0]) + TakenIn(u, Apply(u, s, run[0]), run[1..])
  }

  /** How a step changes the list. */
  lemma {:induction false} JobsAfter(u: Use, s: State, st: Step)
    requires Enabled(u, s, st)
    ensures s.jobs + Given(s, st) == Taken(s, st) + Apply(u, s, st).jobs
  {
    hide LoopEnabled, LoopApply, ClientApply;
    if s.jobs != [] {
      assert s.jobs == [s.jobs[0]] + s.jobs[1..];
    }
    match st
    case OfLoop(l) => LoopJobs(u, s, l);
    case OfClient(c) => ClientJobs(u, s, c);
  }

  lemma {:induction false} LoopJobs(u: Use, s: State, l: LoopStep)
    requires LoopEnabled(s, l)
    ensures LoopApply(u, s, l).jobs == (if l.RunOne? && s.jobs != [] then s.jobs[1..] else s.jobs + Given(s, OfLoop(l)))
  {
    hide First, Deliverable;
  }

  lemma {:induction false} ClientJobs(u: Use, s: State, c: ClientStep)
    requires ClientEnabled(u, s, c)
    ensures ClientApply(u, s, c).jobs == (if c.WorkerRun? then s.jobs[1..] else s.jobs + Given(s, OfClient(c)))
  {
    hide First, Reusable;
  }

  /** Over every run the tasks leave in the order in which they came, each once. */
  lemma {:induction false} TasksInOrder(u: Use, s: State, run: seq<Step>, s': State)
    requires Reaches(u, s, run, s')
    ensures s.jobs + GivenIn(u, s, run) == TakenIn(u, s, run) + s'.jobs
    decreases |run|
  {
    hide Apply, Enabled, Given, Taken;
    if run != [] {
      var s1 := Apply(u, s, run[0]);
      JobsAfter(u, s, run[0]);
      TasksInOrder(u, s1, run[1..], s');
      var g, t := Given(s, run[0]), Taken(s, run[0]);
      assert s.jobs + (g + GivenIn(u, s1, run[1..])) == (s.jobs + g) + GivenIn(u, s1, run[1..]);
      assert (t + s1.jobs) + GivenIn(u, s1, run[1..]) == t + (s1.jobs + GivenIn(u, s1, run[1..]));
      assert t + (TakenIn(u, s1, run[1..]) + s'.jobs) == (t + TakenIn(u, s1, run[1..])) + s'.jobs;
    }
  }

  /** The task of a descriptor is given as often as its completions are counted. */
  lemma {:induction false} OneTaskEach(u: Use, s: State, run: seq<Step>, s': State, f: nat)
    requires Reaches(u, s, run, s') && f in s.fds
    ensures f in s'.fds && s'.fds[f].execs == s.fds[f].execs + multiset(GivenIn(u, s, run))[FdTask(f)]
    decreases |run|
  {
    hide Apply, Enabled, Given;
    if run != [] {
      ExecsAfter(u, s, run[0], f);
      OneTaskEach(u, Apply(u, s, run[0]), run[1..], s', f);
    }
  }

  lemma {:induction false} ExecsAfter(u: Use, s: State, st: Step, f: nat)
    requires Enabled(u, s, st) && f in s.fds
    ensures f in Apply(u, s, st).fds
    ensures Apply(u, s, st).fds[f].execs == s.fds[f].execs + multiset(Given(s, st))[FdTask(f)]
  {
    hide LoopApply, ClientApply, LoopEnabled, ClientEnabled, Given;
    match st
    case OfLoop(l) => LoopExecs(u, s, l, f);
    case OfClient(c) => ClientExecs(u, s, c, f);
  }

  lemma {:induction false} LoopExecs(u: Use, s: State, l: LoopStep, f: nat)
    requires LoopEnabled(s, l) && f in s.fds
    ensures f in LoopApply(u, s, l).fds
    ensures LoopApply(u, s, l).fds[f].execs == s.fds[f].execs + multiset(Given(s, OfLoop(l)))[FdTask(f)]
  {
    hide First, Deliverable, NextEventStep, MarkReadyStep, DequeueStep, ProcessStep, FinishStep;
    match l
    case Process(ok) => ProcessExecs(u, s, ok, f);
    case NextEvent => FdExecs(s, f);
    case MarkReady => FdExecs(s, f);
    case Dequeue(now) => FdExecs(s, f);
    case Finish => FdExecs(s, f);
    case _ =>
  }

  lemma {:induction false} ProcessExecs(u: Use, s: State, ok: bool, f: nat)
    requires LoopEnabled(s, Process(ok)) && f in s.fds
    ensures f in ProcessStep(u, s, ok).fds
    ensures ProcessStep(u, s, ok).fds[f].execs ==
      s.fds[f].execs + (if !s.pc.waiting && s.pc.fd == f then 1 else 0)
  {
  }

  /** The other steps on descriptors complete none. */
  lemma {:induction false} FdExecs(s: State, f: nat)
    requires f in s.fds
    ensures LoopEnabled(s, NextEvent) ==> f in NextEventStep(s).fds && NextEventStep(s).fds[f].execs == s.fds[f].execs
    ensures LoopEnabled(s, MarkReady) ==> f in MarkReadyStep(s).fds && MarkReadyStep(s).fds[f].execs == s.fds[f].execs
    ensures forall now :: LoopEnabled(s, Dequeue(now)) ==>
      f in DequeueStep(s, now).fds && DequeueStep(s, now).fds[f].execs == s.fds[f].execs
    ensures LoopEnabled(s, Finish) ==> f in FinishStep(s).fds && FinishStep(s).fds[f].execs == s.fds[f].execs
  {
  }

  lemma {:induction false} ClientExecs(u: Use, s: State, c: ClientStep, f: nat)
    requires ClientEnabled(u, s, c) && f in s.fds
    ensures f in ClientApply(u, s, c).fds
    ensures ClientApply(u, s, c).fds[f].execs == s.fds[f].execs + multiset(Given(s, OfClient(c)))[FdTask(f)]
  {
    hide First, Reusable;
    if c.WaitStart? || c.WaitEnqueue? || c.WaitEmpty? || c.Rewait? {
      WaitExecs(u, s, c, f);
    }
  }

  lemma {:induction false} WaitExecs(u: Use, s: State, c: ClientStep, f: nat)
    requires ClientEnabled(u, s, c) && f in s.fds && (c.WaitStart? || c.WaitEnqueue? || c.WaitEmpty? || c.Rewait?)
    ensures f in ClientApply(u, s, c).fds
    ensures ClientApply(u, s, c).fds[f].execs == s.fds[f].execs + multiset(Given(s, OfClient(c)))[FdTask(f)]
  {
    hide First, WaitEnqueueStep, RewaitStep;
    match c
    case WaitStart(_, _, _) =>
    case WaitEmpty(x, who) => WaitEmptyExecs(u, s, x, who, f);
    case WaitEnqueue(x, who) => WaitEnqueueExecs(s, x, who, f);
    case Rewait(x, mask, who) => RewaitExecs(s, x, mask, who, f);
  }

  lemma {:induction false} WaitEmptyExecs(u: Use, s: State, x: nat, who: Who, f: nat)
    requires ClientEnabled(u, s, WaitEmpty(x, who)) && f in s.fds
    ensures var s' := ClientApply(u, s, WaitEmpty(x, who));
      f in s'.fds && s'.fds[f].execs == s.fds[f].execs + (if x == f then 1 else 0)
  {
  }

  lemma {:induction false} WaitEnqueueExecs(s: State, x: nat, who: Who, f: nat)
    requires x in s.fds && f in s.fds
    ensures f in WaitEnqueueStep(s, x, who).fds && WaitEnqueueStep(s, x, who).fds[f].execs == s.fds[f].execs
  {
  }

  lemma {:induction false} RewaitExecs(s: State, x: nat, mask: Mask, who: Who, f: nat)
    requires x in s.fds && f in s.fds
    ensures f in RewaitStep(s, x, mask, who).fds && RewaitStep(s, x, mask, who).fds[f].execs == s.fds[f].execs
  {
  }

  // ------------------------------------------------------------------- timers

  predicate Adds(st: Step, t: Timer) { st.OfClient? && st.client.TimerAdd? && st.client.timer == t }

  predicate Expires(st: Step, t: Timer) { st == OfLoop(Expire(t)) }

  predicate Removes(st: Step, t: Timer) { st.OfClient? && st.client.TimerRemove? && st.client.timer == t }

  function Count(run: seq<Step>, p: Step -> bool): nat {
    if run == [] then 0 else (if p(run[0]) then 1 else 0) + Count(run[1..], p)
  }

  function One(b: bool): nat { if b then 1 else 0 }

  /** Each time a timer is added it leaves once, by expiry or by removal, or is still there. */
  lemma {:induction false} TimersConserved(u: Use, s: State, run: seq<Step>, s': State, t: Timer)
    requires Reaches(u, s, run, s')
    ensures One(t in s.timers) + Count(run, st => Adds(st, t)) ==
      Count(run, st => Expires(st, t)) + Count(run, st => Removes(st, t)) + One(t in s'.timers)
    decreases |run|
  {
    hide Apply, Enabled, Adds, Expires, Removes;
    if run != [] {
      TimersAfter(u, s, run[0], t);
      TimersConserved(u, Apply(u, s, run[0]), run[1..], s', t);
    }
  }

  lemma {:induction false} TimersAfter(u: Use, s: State, st: Step, t: Timer)
    requires Enabled(u, s, st)
    ensures One(t in s.timers) + One(Adds(st, t)) ==
      One(Expires(st, t)) + One(Removes(st, t)) + One(t in Apply(u, s, st).timers)
  {
    hide LoopApply, ClientApply;
    match st
    case OfLoop(l) => LoopTimers(u, s, l);
    case OfClient(c) => ClientTimers(u, s, c);
  }

  lemma {:induction false} LoopTimers(u: Use, s: State, l: LoopStep)
    requires LoopEnabled(s, l)
    ensures LoopApply(u, s, l).timers == if l.Expire? then s.timers - {l.timer} else s.timers
  {
    hide First, Deliverable;
  }

  lemma {:induction false} ClientTimers(u: Use, s: State, c: ClientStep)
    requires ClientEnabled(u, s, c)
    ensures ClientApply(u, s, c).timers ==
      if c.TimerAdd? then s.timers + {c.timer} else if c.TimerRemove? then s.timers - {c.timer} else s.timers
  {
    hide First, Reusable;
  }

  /** The loop has taken out a timer and not given its task yet. */
  predicate InExpiry(pc: Pc) {
    match pc
    case Expired(_) => true
    case Hook(next) => InExpiry(next)
    case HookWrite(next) => InExpiry(next)
    case _ => false
  }

  predicate SomeExpiry(st: Step) { st.OfLoop? && st.loop.Expire? }

  predicate GivesTimer(st: Step) { st == OfLoop(ExpiredExec) }

  /** Each expiry gives one task to the run queue before anything else is expired. */
  lemma {:induction false} ExpiryGivesTask(u: Use, s: State, run: seq<Step>, s': State)
    requires Reaches(u, s, run, s')
    ensures One(InExpiry(s.pc)) + Count(run, SomeExpiry) == Count(run, GivesTimer) + One(InExpiry(s'.pc))
    decreases |run|
  {
    hide LoopApply, ClientApply, LoopEnabled, ClientEnabled, SomeExpiry, GivesTimer;
    if run != [] {
      match run[0] {
        case OfLoop(l) => LoopExpired(u, s, l);
        case OfClient(c) => ClientExpired(u, s, c);
      }
      ExpiryGivesTask(u, Apply(u, s, run[0]), run[1..], s');
    }
  }

  lemma {:induction false} LoopExpired(u: Use, s: State, l: LoopStep)
    requires LoopEnabled(s, l)
    ensures var st := OfLoop(l);
      One(InExpiry(s.pc)) + One(SomeExpiry(st)) == One(GivesTimer(st)) + One(InExpiry(LoopApply(u, s, l).pc))
  {
    hide First, Deliverable;
  }

  lemma {:induction false} ClientExpired(u: Use, s: State, c: ClientStep)
    requires ClientEnabled(u, s, c)
    ensures var st := OfClient(c);
      One(InExpiry(s.pc)) + One(SomeExpiry(st)) == One(GivesTimer(st)) + One(InExpiry(ClientApply(u, s, c).pc))
  {
    hide First, Reusable;
  }

  // ------------------------------------------------------------------ wake-ups

  predicate Writes(st: Step) { st == OfLoop(HookPut) || st == OfClient(NotifyWrite) }

  /** The loop has yet to empty the pipe, or nothing has been written since. */
  predicate Emptied(s: State) { s.pc.Draining? || s.pipe == 0 }

  lemma {:induction false} LoopEmptied(u: Use, s: State, l: LoopStep)
    requires LoopEnabled(s, l) && Emptied(s) && !Writes(OfLoop(l))
    ensures Emptied(LoopApply(u, s, l))
  {
    hide First, Deliverable;
  }

  lemma {:induction false} ClientEmptied(u: Use, s: State, c: ClientStep)
    requires ClientEnabled(u, s, c) && Emptied(s) && !Writes(OfClient(c))
    ensures Emptied(ClientApply(u, s, c))
  {
    hide First, Reusable;
  }

  /** A wake-up is used up: after `intr_ack` has begun, the pipe stays empty until the next
      byte is written, so that `epoll_wait` does not return for it again. */
  lemma {:induction false} WakeupUsedUp(u: Use, s: State, run: seq<Step>, s': State)
    requires Reaches(u, s, run, s') && Emptied(s) && s'.pc.Blocked?
    requires forall i :: 0 <= i < |run| ==> !Writes(run[i])
    ensures s'.pipe == 0 && !Enabled(u, s', OfLoop(Return([Pipe])))
    decreases |run|
  {
    hide LoopApply, ClientApply, LoopEnabled, ClientEnabled, Writes;
    if run == [] {
      NoByte(s');
    } else {
      match run[0] {
        case OfLoop(l) => LoopEmptied(u, s, l);
        case OfClient(c) => ClientEmptied(u, s, c);
      }
      WakeupUsedUp(u, Apply(u, s, run[0]), run[1..], s');
    }
  }

  lemma {:induction false} NoByte(s: State)
    requires s.pipe == 0
    ensures !LoopEnabled(s, Return([Pipe]))
  {
    assert [Pipe][0].Pipe?;
  }

  /** The bytes in the pipe and those about to be written. */
  function Bytes(s: State): nat { s.pipe + s.writes + (if Writing(s.pc) then 1 else 0) }

  predicate Writing(pc: Pc) {
    match pc
    case HookWrite(_) => true
    case _ => false
  }

  lemma {:induction false} LoopBytes(u: Use, s: State, l: LoopStep)
    requires LoopEnabled(s, l) && !l.Clear? && OneHook(s.pc)
    ensures var s' := LoopApply(u, s, l);
      OneHook(s'.pc) && Bytes(s') + One(!s'.intr) <= Bytes(s) + One(!s.intr)
  {
    hide First, Deliverable, NextEventStep, MarkReadyStep, DequeueStep, ProcessStep, FinishStep;
    match l
    case NextEvent => FdStepBytes(u, s, true);
    case MarkReady => FdStepBytes(u, s, true);
    case Dequeue(now) => DequeueBytes(s, now);
    case Process(ok) => FdStepBytes(u, s, ok);
    case Finish => FdStepBytes(u, s, true);
    case _ =>
  }

  /** The steps on descriptors write no byte themselves. */
  ghost predicate NoBytes(s: State, s': State) {
    s'.pipe == s.pipe && s'.writes == s.writes && s'.intr == s.intr && !Writing(s'.pc) && OneHook(s'.pc)
  }

  lemma {:induction false} FdStepBytes(u: Use, s: State, ok: bool)
    ensures LoopEnabled(s, NextEvent) ==> NoBytes(s, NextEventStep(s))
    ensures LoopEnabled(s, MarkReady) ==> NoBytes(s, MarkReadyStep(s))
    ensures LoopEnabled(s, Process(ok)) ==> NoBytes(s, ProcessStep(u, s, ok))
    ensures LoopEnabled(s, Finish) ==> NoBytes(s, FinishStep(s))
  {
  }

  lemma {:induction false} DequeueBytes(s: State, now: int)
    requires LoopEnabled(s, Dequeue(now))
    ensures NoBytes(s, DequeueStep(s, now))
  {
  }

  /** A hook returns to a step that is not a hook. */
  predicate OneHook(pc: Pc) { (pc.Hook? || pc.HookWrite?) ==> !pc.next.Hook? && !pc.next.HookWrite? }

  lemma {:induction false} ClientBytes(u: Use, s: State, c: ClientStep)
    requires ClientEnabled(u, s, c) && OneHook(s.pc)
    ensures var s' := ClientApply(u, s, c);
      OneHook(s'.pc) && Bytes(s') + One(!s'.intr) <= Bytes(s) + One(!s.intr)
  {
    hide First, Reusable;
  }

  /** However many notifications there are, between two acknowledgements at most one byte is
      written. */
  lemma {:induction false} OneByteEach(u: Use, s: State, run: seq<Step>, s': State)
    requires Reaches(u, s, run, s') && OneHook(s.pc) && forall i :: 0 <= i < |run| ==> run[i] != OfLoop(Clear)
    ensures OneHook(s'.pc) && Bytes(s') + One(!s'.intr) <= Bytes(s) + One(!s.intr)
    decreases |run|
  {
    hide LoopApply, ClientApply, LoopEnabled, ClientEnabled, Bytes, OneHook;
    if run != [] {
      match run[0] {
        case OfLoop(l) => LoopBytes(u, s, l);
        case OfClient(c) => ClientBytes(u, s, c);
      }
      OneByteEach(u, Apply(u, s, run[0]), run[1..], s');
    }
  }
}
