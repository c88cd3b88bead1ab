/** No wake-up of the IO loop in io/ioq_linux.c is lost. */
module IoqWake {
  import opened Ioq

  /** The step of the loop that a hook returns to. */
  function Base(pc: Pc): Pc { if pc.Hook? || pc.HookWrite? then pc.next else pc }

  /** A byte is in the pipe, or a call of `ioq_notify` or its write is under way. */
  predicate Signal(s: State) { s.pipe > 0 || s.writes > 0 || s.calls > 0 || s.pc.Hook? || s.pc.HookWrite? }

  /** The loop has emptied `mod_list` and will not look at it again before it blocks. */
  predicate PastMods(pc: Pc) { pc.Idle? || pc.Blocked? || pc.Timers? || pc.Expired? || pc.Runs? || pc.Callback? }

  /** Some timer is due before the time at which `epoll_wait` will give up. */
  ghost predicate DueBefore(timers: set<Timer>, w: Wake) {
    exists t :: t in timers && (w.Never? || t.deadline < w.deadline)
  }

  ghost predicate HooksReturn(pc: Pc) {
    (pc.Hook? || pc.HookWrite?) ==> pc.next.Mods? || pc.next.Timers? || pc.next.Callback?
  }

  /** `intr_state` is set only while something will wake the loop, except while
      the loop is between draining the pipe and clearing it. */
  ghost predicate IntrBacked(s: State) {
    s.intr && !s.pc.Draining? && !s.pc.Clearing? ==> s.pipe > 0 || s.writes > 0 || s.pc.HookWrite?
  }

  ghost predicate ModsSeen(s: State) { PastMods(Base(s.pc)) && s.mods != [] ==> Signal(s) }

  ghost predicate JobsSeen(u: Use, s: State) {
    !u.background && (s.pc.Idle? || s.pc.Blocked?) && s.jobs != [] ==> Signal(s)
  }

  ghost predicate TimersSeen(s: State) { s.pc.Blocked? && DueBefore(s.timers, s.pc.wake) ==> Signal(s) }

  ghost predicate WakeInv(u: Use, s: State)
  {
    HooksReturn(s.pc) && IntrBacked(s) && ModsSeen(s) && JobsSeen(u, s) && TimersSeen(s)
  }

  lemma {:induction false} WakeInitial(u: Use, s: State)
    requires Initial(s)
    ensures WakeInv(u, s)
  {
  }

  lemma {:induction false} LoopKeepsIntr(u: Use, s: State, st: LoopStep)
    requires HooksReturn(s.pc) && IntrBacked(s) && LoopEnabled(s, st)
    ensures HooksReturn(LoopApply(u, s, st).pc) && IntrBacked(LoopApply(u, s, st))
  {
  }

  lemma {:induction false} ClientKeepsIntr(u: Use, s: State, st: ClientStep)
    requires HooksReturn(s.pc) && IntrBacked(s) && ClientEnabled(u, s, st)
    ensures HooksReturn(ClientApply(u, s, st).pc) && IntrBacked(ClientApply(u, s, st))
  {
    hide First, Reusable;
  }

  lemma {:induction false} LoopKeepsQueues(u: Use, s: State, st: LoopStep)
    requires HooksReturn(s.pc) && IntrBacked(s) && ModsSeen(s) && JobsSeen(u, s) && LoopEnabled(s, st)
    ensures ModsSeen(LoopApply(u, s, st)) && JobsSeen(u, LoopApply(u, s, st))
  {
  }

  lemma {:induction false} ClientKeepsQueues(u: Use, s: State, st: ClientStep)
    requires HooksReturn(s.pc) && IntrBacked(s) && ModsSeen(s) && JobsSeen(u, s) && ClientEnabled(u, s, st)
    ensures ModsSeen(ClientApply(u, s, st)) && JobsSeen(u, ClientApply(u, s, st))
  {
    ClientKeepsMods(u, s, st);
    ClientKeepsJobs(u, s, st);
  }

  lemma {:induction false} ClientKeepsMods(u: Use, s: State, st: ClientStep)
    requires HooksReturn(s.pc) && IntrBacked(s) && ModsSeen(s) && ClientEnabled(u, s, st)
    ensures ModsSeen(ClientApply(u, s, st))
  {
    hide First, Reusable;
  }

  lemma {:induction false} ClientKeepsJobs(u: Use, s: State, st: ClientStep)
    requires HooksReturn(s.pc) && IntrBacked(s) && JobsSeen(u, s) && ClientEnabled(u, s, st)
    ensures JobsSeen(u, ClientApply(u, s, st))
  {
    hide First, Reusable;
  }

  lemma {:induction false} LoopKeepsTimers(u: Use, s: State, st: LoopStep)
    requires HooksReturn(s.pc) && LoopEnabled(s, st)
    ensures TimersSeen(LoopApply(u, s, st))
  {
  }

  /** A timer that is not first leaves the earliest deadline as it was. */
  lemma {:induction false} ClientKeepsTimers(u: Use, s: State, st: ClientStep)
    requires HooksReturn(s.pc) && IntrBacked(s) && TimersSeen(s) && ClientEnabled(u, s, st)
    ensures TimersSeen(ClientApply(u, s, st))
  {
    var s' := ClientApply(u, s, st);
    if s'.pc.Blocked? && DueBefore(s'.timers, s'.pc.wake) && st.TimerAdd? && !First(s'.timers, st.timer) {
      var x :| x in s'.timers && x != st.timer && !Earlier(st.timer, x);
      assert DueBefore(s.timers, s.pc.wake);
    }
  }

  /** Every step keeps it. */
  lemma {:induction false} WakeKept(u: Use, s: State, st: Step)
    requires WakeInv(u, s) && Enabled(u, s, st)
    ensures WakeInv(u, Apply(u, s, st))
  {
    hide LoopApply, ClientApply, LoopEnabled, ClientEnabled, HooksReturn, IntrBacked, ModsSeen, JobsSeen, TimersSeen;
    match st
    case OfLoop(l) =>
      LoopKeepsIntr(u, s, l);
      LoopKeepsQueues(u, s, l);
      LoopKeepsTimers(u, s, l);
    case OfClient(c) =>
      ClientKeepsIntr(u, s, c);
      ClientKeepsQueues(u, s, c);
      ClientKeepsTimers(u, s, c);
  }

  lemma {:induction false} WakeRun(u: Use, s: State, run: seq<Step>, s': State)
    requires WakeInv(u, s) && Reaches(u, s, run, s')
    ensures WakeInv(u, s')
    decreases |run|
  {
    if run != [] {
      WakeKept(u, s, run[0]);
      WakeRun(u, Apply(u, s, run[0]), run[1..], s');
    }
  }

  /** There is something for the loop to do. */
  ghost predicate Work(u: Use, s: State)
    requires s.pc.Blocked?
  {
    s.mods != [] || (!u.background && s.jobs != []) || DueBefore(s.timers, s.pc.wake)
  }

  /** In every run: while the loop is blocked with something to do, a byte is in
      the pipe, or another thread is inside `ioq_notify`; once all those calls are
      done, `epoll_wait` can return. */
  lemma {:induction false} NoLostWakeup(u: Use, s0: State, run: seq<Step>, s: State)
    requires Initial(s0) && Reaches(u, s0, run, s) && s.pc.Blocked? && Work(u, s)
    ensures s.pipe > 0 || s.calls > 0 || s.writes > 0
    ensures s.calls == 0 && s.writes == 0 ==> Enabled(u, s, OfLoop(Return([Pipe])))
  {
    WakeInitial(u, s0);
    WakeRun(u, s0, run, s);
  }

  /** The hook of the timers notifies the loop: when a timer becomes the earliest, and when a
      removal calls it. */
  lemma {:induction false} HookNotifies(u: Use, s: State, c: ClientStep)
    requires ClientEnabled(u, s, c)
    requires || (c.TimerAdd? && First(s.timers + {c.timer}, c.timer))
             || (c.TimerRemove? && c.wake)
    ensures var s' := ClientApply(u, s, c); Signal(s') && (s'.calls > s.calls || s'.pc == Hook(s.pc))
  {
  }
}
