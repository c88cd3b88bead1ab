/** io/ioq_linux.c as a transition system, with the parts of io/runq.c and
    io/waitq.c that wake the loop. A region between a lock and its unlock is one
    step; so is every unlocked system call. What the kernel does, and when client
    threads act, is left open. */
module Ioq {

  // ------------------------------------------------------------------- state

  /** The events of `ioq_fd_mask_t`, each of which is one bit. */
  datatype Poll = In | Out | Err | Hup

  type Mask = set<Poll>

  /** `struct ioq_fd`: the three flags, the requested set, the events and the error of
      the last wait, and what is observed about its use: whether a call of
      `ioq_fd_wait` is between its unlocked writes and its lock, and how many waits and
      completions there have been. */
  datatype Fd = Fd(waiting: bool, listed: bool, epoll: bool, requested: Mask, ready: Mask, err: bool,
                   setting: bool, waits: nat, execs: nat)

  datatype Job = FdTask(fd: nat) | OtherTask

  /** A timer is identified by its address and ordered by its deadline first. */
  datatype Timer = Timer(deadline: int, addr: nat)

  /** A result of `epoll_wait`: the pipe, or a descriptor with its events. */
  datatype Event = Pipe | Ready(fd: nat, events: Mask)

  datatype Wake = Never | Until(deadline: int)

  /** Where the thread that runs `ioq_iterate` is. */
  datatype Pc =
    | Idle
    | Blocked(wake: Wake)
    | Draining(evts: seq<Event>)
    | Clearing(evts: seq<Event>)
    | Events(evts: seq<Event>)
    | Deleted(fd: nat, evts: seq<Event>)
    | Mods
    | Got(fd: nat, waiting: bool, epoll: bool, requested: Mask)
    | Stopped(fd: nat)
    | Added(fd: nat)
    | Failed(fd: nat)
    | Timers(now: int)
    | Expired(now: int)
    | Runs
    | Callback
    | Hook(next: Pc)
    | HookWrite(next: Pc)

  datatype State = State(
    fds: map<nat, Fd>, mods: seq<nat>, kernel: map<nat, Mask>, pc: Pc,
    intr: bool, pipe: nat, calls: nat, writes: nat,
    jobs: seq<Job>, timers: set<Timer>)

  /** How the queue is used: with background threads or not, with waits for the
      empty set or not, and with calls of `ioq_fd_rewait` that may come while a
      wait on the same descriptor is still being started, or not. */
  datatype Use = Use(background: bool, emptySets: bool, early: bool)

  /** The thread of the loop, inside a callback, or any other thread. */
  datatype Who = Loop | Other

  // ---------------------------------------------------------------- fragments

  /** `mod_enqueue_nolock` after `g` has been stored for `f`. */
  function Enqueue(s: State, f: nat, g: Fd): State {
    if g.listed then s.(fds := s.fds[f := g])
    else s.(fds := s.fds[f := g.(listed := true)], mods := s.mods + [f])
  }

  /** A call of `ioq_notify` begins. */
  function Notify(s: State, who: Who): State {
    if who.Loop? then s.(pc := Hook(s.pc)) else s.(calls := s.calls + 1)
  }

  /** `runq_task_exec` */
  function Exec(u: Use, s: State, j: Job, who: Who): State {
    var s' := s.(jobs := s.jobs + [j]);
    if s.jobs == [] && !u.background then Notify(s', who) else s'
  }

  predicate Earlier(a: Timer, b: Timer) { a.deadline < b.deadline || (a.deadline == b.deadline && a.addr < b.addr) }

  predicate First(timers: set<Timer>, t: Timer) { t in timers && forall x :: x in timers && x != t ==> Earlier(t, x) }

  predicate MayAct(s: State, who: Who) { who.Loop? ==> s.pc.Callback? }

  /** The descriptor has no wait outstanding and its task is not queued. */
  predicate Reusable(s: State, f: nat) {
    && f in s.fds && !s.fds[f].setting && s.fds[f].waits == s.fds[f].execs && FdTask(f) !in s.jobs
  }

  /** What may be reported of a registered descriptor: errors and hang-ups always are. */
  function Reported(m: Mask): Mask { m + {Err, Hup} }

  /** What `epoll_wait` can return. */
  predicate Deliverable(s: State, evts: seq<Event>) {
    && (forall i :: 0 <= i < |evts| && evts[i].Pipe? ==> s.pipe > 0)
    && (forall i :: 0 <= i < |evts| && evts[i].Ready? ==>
        evts[i].fd in s.kernel && {} < evts[i].events <= Reported(s.kernel[evts[i].fd]))
    && (forall i, j :: 0 <= i < j < |evts| ==>
      evts[i] != evts[j] && (evts[i].Ready? && evts[j].Ready? ==> evts[i].fd != evts[j].fd))
  }

  // -------------------------------------------------------------------- steps

  datatype Step = OfLoop(loop: LoopStep) | OfClient(client: ClientStep)

  datatype LoopStep =
    | Arm(first: Wake) | Return(evts: seq<Event>) | Interrupted | WaitError
    | Drain | Clear | NextEvent | MarkReady
    | Dequeue(now: int) | Process(ok: bool) | Finish
    | Expire(timer: Timer) | NoneExpired | ExpiredExec
    | RunOne | CallbackEnd | HookLock | HookPut

  datatype ClientStep =
    | WaitStart(fd: nat, mask: Mask, who: Who) | WaitEnqueue(fd: nat, who: Who) | WaitEmpty(fd: nat, who: Who)
    | Rewait(fd: nat, mask: Mask, who: Who)
    | NotifyCall(who: Who) | NotifyLock | NotifyWrite
    | Submit(who: Who) | WorkerRun
    | TimerAdd(timer: Timer, who: Who) | TimerRemove(timer: Timer, wake: bool, who: Who)

  ghost predicate Enabled(u: Use, s: State, st: Step) {
    match st
    case OfLoop(l) => LoopEnabled(s, l)
    case OfClient(c) => ClientEnabled(u, s, c)
  }

  function Apply(u: Use, s: State, st: Step): State
    requires Enabled(u, s, st)
  {
    match st
    case OfLoop(l) => LoopApply(u, s, l)
    case OfClient(c) => ClientApply(u, s, c)
  }

  ghost predicate LoopEnabled(s: State, st: LoopStep)
  {
    match st
    case Arm(first) => s.pc.Idle? &&
      if first.Never? then s.timers == {} else exists a :: First(s.timers, Timer(first.deadline, a))
    case Return(evts) => s.pc.Blocked? && Deliverable(s, evts)
    case Interrupted => s.pc.Blocked?
    case WaitError => s.pc.Blocked?
    case Drain => s.pc.Draining?
    case Clear => s.pc.Clearing?
    case NextEvent => s.pc.Events? && (s.pc.evts != [] && s.pc.evts[0].Ready? ==> s.pc.evts[0].fd in s.fds)
    case MarkReady => s.pc.Deleted? && s.pc.fd in s.fds
    case Dequeue(_) => s.pc.Mods? && (s.mods != [] ==> s.mods[0] in s.fds)
    case Process(ok) => s.pc.Got? && s.pc.fd in s.fds &&
      (ok && s.pc.waiting && s.pc.requested != {} ==> (s.pc.epoll <==> s.pc.fd in s.kernel))
    case Finish => (s.pc.Stopped? || s.pc.Added? || s.pc.Failed?) && s.pc.fd in s.fds
    case Expire(t) => s.pc.Timers? && First(s.timers, t) && t.deadline <= s.pc.now
    case NoneExpired => s.pc.Timers? && forall t :: t in s.timers ==> t.deadline > s.pc.now
    case ExpiredExec => s.pc.Expired?
    case RunOne => s.pc.Runs?
    case CallbackEnd => s.pc.Callback?
    case HookLock => s.pc.Hook?
    case HookPut => s.pc.HookWrite?
  }

  predicate ClientEnabled(u: Use, s: State, st: ClientStep)
  {
    match st
    case WaitStart(f, mask, who) => Reusable(s, f) && mask != {} && MayAct(s, who)
    case WaitEnqueue(f, who) => f in s.fds && s.fds[f].setting && MayAct(s, who)
    case WaitEmpty(f, who) => u.emptySets && Reusable(s, f) && MayAct(s, who)
    case Rewait(f, _, who) => f in s.fds && (s.fds[f].setting ==> u.early) && MayAct(s, who)
    case NotifyCall(who) => MayAct(s, who)
    case NotifyLock => s.calls > 0
    case NotifyWrite => s.writes > 0
    case Submit(who) => MayAct(s, who)
    case WorkerRun => u.background && s.jobs != []
    case TimerAdd(t, who) => t !in s.timers && MayAct(s, who)
    case TimerRemove(t, _, who) => t in s.timers && MayAct(s, who)
  }

  function LoopApply(u: Use, s: State, st: LoopStep): State
    requires LoopEnabled(s, st)
  {
    match st
    case Arm(first) => s.(pc := Blocked(first))
    case Return(evts) => s.(pc := Draining(evts))
    case Interrupted => s.(pc := Mods)
    case WaitError => s.(pc := Idle)
    case Drain =>
      if s.pipe == 0 then s.(pc := Clearing(s.pc.evts)) else s.(pipe := if s.pipe <= 128 then 0 else s.pipe - 128)
    case Clear => s.(pc := Events(s.pc.evts), intr := false)
    case NextEvent => NextEventStep(s)
    case MarkReady => MarkReadyStep(s)
    case Dequeue(now) => DequeueStep(s, now)
    case Process(ok) => ProcessStep(u, s, ok)
    case Finish => FinishStep(s)
    case Expire(t) => s.(timers := s.timers - {t}, pc := Expired(s.pc.now))
    case NoneExpired => s.(pc := Runs)
    case ExpiredExec => Exec(u, s.(pc := Timers(s.pc.now)), OtherTask, Loop)
    case RunOne => if s.jobs == [] then s.(pc := Idle) else s.(pc := Callback, jobs := s.jobs[1..])
    case CallbackEnd => s.(pc := Runs)
    case HookLock => s.(pc := if s.intr then s.pc.next else HookWrite(s.pc.next), intr := true)
    case HookPut => s.(pc := s.pc.next, pipe := s.pipe + 1)
  }

  function ClientApply(u: Use, s: State, st: ClientStep): State
    requires ClientEnabled(u, s, st)
  {
    match st
    case WaitStart(f, mask, _) =>
      s.(fds := s.fds[f := Fd(true, false, false, mask, {}, false, true, s.fds[f].waits + 1, s.fds[f].execs)])
    case WaitEnqueue(f, who) => WaitEnqueueStep(s, f, who)
    case WaitEmpty(f, who) =>
      var g := Fd(true, false, false, {}, {}, false, false, s.fds[f].waits + 1, s.fds[f].execs + 1);
      var s' := s.(fds := s.fds[f := g]);
      Exec(u, s', FdTask(f), who)
    case Rewait(f, mask, who) => RewaitStep(s, f, mask, who)
    case NotifyCall(who) => Notify(s, who)
    case NotifyLock => s.(calls := s.calls - 1, writes := s.writes + (if s.intr then 0 else 1), intr := true)
    case NotifyWrite => s.(writes := s.writes - 1, pipe := s.pipe + 1)
    case Submit(who) => Exec(u, s, OtherTask, who)
    case WorkerRun => s.(jobs := s.jobs[1..])
    case TimerAdd(t, who) =>
      var s' := s.(timers := s.timers + {t});
      if First(s'.timers, t) then Notify(s', who) else s'
    case TimerRemove(t, wake, who) =>
      var s' := s.(timers := s.timers - {t});
      if wake then Notify(s', who) else s'
  }

  /** The loop over the events: the descriptor is taken out of the kernel's set. */
  function NextEventStep(s: State): State
    requires s.pc.Events? && (s.pc.evts != [] && s.pc.evts[0].Ready? ==> s.pc.evts[0].fd in s.fds)
  {
    if s.pc.evts == [] then s.(pc := Mods)
    else
      var rest := s.pc.evts[1..];
      match s.pc.evts[0]
      case Pipe => s.(pc := Events(rest))
      case Ready(f, events) =>
        s.(pc := Deleted(f, rest), kernel := s.kernel - {f}, fds := s.fds[f := s.fds[f].(ready := events)])
  }

  function MarkReadyStep(s: State): State
    requires s.pc.Deleted? && s.pc.fd in s.fds
  {
    Enqueue(s.(pc := Events(s.pc.evts)), s.pc.fd, s.fds[s.pc.fd].(epoll := false, waiting := false))
  }

  /** `mod_dequeue` */
  function DequeueStep(s: State, now: int): State
    requires s.mods != [] ==> s.mods[0] in s.fds
  {
    if s.mods == [] then s.(pc := Timers(now))
    else
      var f := s.mods[0];
      var g := s.fds[f].(listed := false);
      s.(mods := s.mods[1..], fds := s.fds[f := g], pc := Got(f, g.waiting, g.epoll, g.requested))
  }

  /** The three branches of `dispatch_mods`, up to their locks. */
  function ProcessStep(u: Use, s: State, ok: bool): State
    requires s.pc.Got? && s.pc.fd in s.fds
  {
    var f := s.pc.fd;
    var g := s.fds[f];
    if !s.pc.waiting then Exec(u, s.(pc := Mods, fds := s.fds[f := g.(execs := g.execs + 1)]), FdTask(f), Loop)
    else if s.pc.requested == {} then
      s.(pc := Stopped(f), fds := s.fds[f := g.(ready := {})],
         kernel := if s.pc.epoll then s.kernel - {f} else s.kernel)
    else if ok then s.(pc := Added(f), kernel := s.kernel[f := s.pc.requested])
    else s.(pc := Failed(f), fds := s.fds[f := g.(err := true)])
  }

  /** The locked ends of the branches of `dispatch_mods`. */
  function FinishStep(s: State): State
    requires (s.pc.Stopped? || s.pc.Added? || s.pc.Failed?) && s.pc.fd in s.fds
  {
    var f := s.pc.fd;
    var g := s.fds[f];
    var s' := s.(pc := Mods);
    if s.pc.Stopped? then Enqueue(s', f, g.(epoll := false, waiting := false))
    else if s.pc.Added? then s'.(fds := s.fds[f := g.(epoll := true)])
    else Enqueue(s', f, g.(requested := {}))
  }

  /** The locked end of `ioq_fd_wait`. */
  function WaitEnqueueStep(s: State, f: nat, who: Who): State
    requires f in s.fds
  {
    var g := s.fds[f].(setting := false);
    var s' := Enqueue(s, f, g);
    if !g.listed && s.mods == [] then Notify(s', who) else s'
  }

  /** `ioq_fd_rewait` */
  function RewaitStep(s: State, f: nat, mask: Mask, who: Who): State
    requires f in s.fds
  {
    var g := s.fds[f];
    if !g.waiting then s
    else
      var s' := Enqueue(s, f, g.(requested := mask));
      if !g.listed && s.mods == [] then Notify(s', who) else s'
  }

  // --------------------------------------------------------------------- runs

  predicate NewFd(g: Fd) { g == Fd(false, false, false, {}, {}, false, false, 0, 0) }

  predicate Initial(s: State) {
    && (forall f :: f in s.fds ==> NewFd(s.fds[f]))
    && s.mods == [] && s.kernel == map[] && s.pc.Idle? && !s.intr && s.pipe == 0 && s.calls == 0 && s.writes == 0
    && s.jobs == [] && s.timers == {}
  }

  /** `s'` is reached from `s` by the steps `run`. */
  ghost predicate Reaches(u: Use, s: State, run: seq<Step>, s': State)
    decreases |run|
  {
    if run == [] then s' == s else Enabled(u, s, run[0]) && Reaches(u, Apply(u, s, run[0]), run[1..], s')
  }
}
