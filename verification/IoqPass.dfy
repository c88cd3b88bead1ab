/** What one pass of the loop in io/ioq_linux.c does for a descriptor: an event, a
    cancellation or a refused registration leads to its callback before the pass is
    over, and nothing else does. */
module IoqPass {
  import opened Ioq
  import opened IoqFd

  /** What the answer to a wait depends on: the descriptor, what the loop has in hand for
      it, and whether an event for it has been returned and not been looked at. */
  datatype Face = Face(g: Fd, hand: Hand, coming: bool)

  ghost predicate Among(evts: seq<Event>, f: nat) { exists i :: 0 <= i < |evts| && evts[i].Ready? && evts[i].fd == f }

  ghost function FaceOf(s: State, f: nat): Face
    requires f in s.fds
  {
    Face(s.fds[f], HandOf(s.pc, f), Among(Pending(s.pc), f))
  }

  /** The wait has been answered, and nothing can take that back. */
  predicate Answered(v: Face) {
    || v.coming || v.hand.OfEvent? || v.hand.OfStop?
    || (v.hand.OfList? && (!v.hand.waiting || v.hand.requested == {}))
    || (!v.g.waiting && v.g.listed)
  }

  /** The wait is for nothing any more, and only a rewait could change that. */
  predicate GivenUp(v: Face) {
    v.g.waiting && !v.g.setting && (v.hand.OfFail? || (v.g.requested == {} && v.g.listed))
  }

  /** A rewait for some event. */
  predicate Revives(st: Step, f: nat) {
    st.OfClient? && st.client.Rewait? && st.client.fd == f && st.client.mask != {}
  }

  /** From `v` to `v'` the answer has not been lost, and the callback made at most once. */
  predicate Onward(v: Face, v': Face, revived: bool) {
    && v.g.execs <= v'.g.execs <= v.g.execs + 1
    && (Answered(v) ==> Answered(v') || v'.g.execs == v.g.execs + 1)
    && (GivenUp(v) && !revived ==> Answered(v') || GivenUp(v') || v'.g.execs == v.g.execs + 1)
  }

  // ---------------------------------------------------------- steps of the loop

  lemma {:induction false} QuietFace(u: Use, s: State, l: LoopStep, f: nat)
    requires FdInv(s) && LoopEnabled(s, l) && !TouchesFd(l) && f in s.fds
    ensures f in LoopApply(u, s, l).fds && FaceOf(LoopApply(u, s, l), f) == FaceOf(s, f)
  {
    hide First, AllOk, ModsOk, KernelOk, EventsOk;
  }

  lemma {:induction false} ReturnFace(s: State, evts: seq<Event>, f: nat)
    requires FdInv(s) && s.pc.Blocked? && Deliverable(s, evts) && f in s.fds
    ensures FaceOf(s.(pc := Draining(evts)), f) == FaceOf(s, f).(coming := Among(evts, f))
    ensures !FaceOf(s, f).coming
  {
  }

  lemma {:induction false} AmongNext(evts: seq<Event>, f: nat)
    requires evts != []
    ensures Among(evts, f) <==> (evts[0].Ready? && evts[0].fd == f) || Among(evts[1..], f)
  {
    var rest := evts[1..];
    if Among(evts, f) {
      var i :| 0 <= i < |evts| && evts[i].Ready? && evts[i].fd == f;
      assert i > 0 ==> rest[i - 1] == evts[i];
    }
    if Among(rest, f) {
      var i :| 0 <= i < |rest| && rest[i].Ready? && rest[i].fd == f;
      assert evts[i + 1] == rest[i];
    }
    if evts[0].Ready? && evts[0].fd == f {
      assert Among(evts, f);
    }
  }

  lemma {:induction false} NextEventFace(s: State, f: nat)
    requires FdInv(s) && s.pc.Events? && f in s.fds
    ensures LoopEnabled(s, NextEvent) && f in NextEventStep(s).fds
    ensures Onward(FaceOf(s, f), FaceOf(NextEventStep(s), f), false)
  {
    hide AllOk, ModsOk, KernelOk;
    NextEventKept(s);
    if s.pc.evts != [] {
      AmongNext(s.pc.evts, f);
    }
  }

  lemma {:induction false} MarkReadyFace(s: State, f: nat)
    requires FdInv(s) && s.pc.Deleted? && f in s.fds
    ensures s.pc.fd in s.fds && f in MarkReadyStep(s).fds
    ensures Onward(FaceOf(s, f), FaceOf(MarkReadyStep(s), f), false)
  {
  }

  lemma {:induction false} DequeueFace(s: State, now: int, f: nat)
    requires FdInv(s) && s.pc.Mods? && f in s.fds
    ensures LoopEnabled(s, Dequeue(now)) && f in DequeueStep(s, now).fds
    ensures Onward(FaceOf(s, f), FaceOf(DequeueStep(s, now), f), false)
  {
    DequeueKept(s, now);
  }

  lemma {:induction false} ProcessFace(u: Use, s: State, ok: bool, f: nat)
    requires FdInv(s) && LoopEnabled(s, Process(ok)) && f in s.fds
    ensures f in ProcessStep(u, s, ok).fds && Onward(FaceOf(s, f), FaceOf(ProcessStep(u, s, ok), f), false)
  {
    hide FdInv;
    ViewNow(s, f);
  }

  lemma {:induction false} FinishFace(s: State, f: nat)
    requires FdInv(s) && LoopEnabled(s, Finish) && f in s.fds
    ensures f in FinishStep(s).fds && Onward(FaceOf(s, f), FaceOf(FinishStep(s), f), false)
  {
    hide FdInv;
    ViewNow(s, f);
  }

  lemma {:induction false} LoopOnward(u: Use, s: State, l: LoopStep, f: nat)
    requires FdInv(s) && LoopEnabled(s, l) && f in s.fds
    ensures f in LoopApply(u, s, l).fds && Onward(FaceOf(s, f), FaceOf(LoopApply(u, s, l), f), false)
  {
    hide FdInv, NextEventStep, MarkReadyStep, DequeueStep, ProcessStep, FinishStep, Exec, First, FaceOf;
    if !TouchesFd(l) {
      QuietFace(u, s, l, f);
    } else {
      match l
      case Return(evts) => ReturnFace(s, evts, f);
      case NextEvent => NextEventFace(s, f);
      case MarkReady => MarkReadyFace(s, f);
      case Dequeue(now) => DequeueFace(s, now, f);
      case Process(ok) => ProcessFace(u, s, ok, f);
      case Finish => FinishFace(s, f);
    }
  }

  // -------------------------------------------------------- steps of the clients

  lemma {:induction false} QuietClient(u: Use, s: State, c: ClientStep, f: nat)
    requires FdInv(s) && ClientEnabled(u, s, c) && !ClientTouchesFd(c) && f in s.fds
    ensures f in ClientApply(u, s, c).fds && FaceOf(ClientApply(u, s, c), f) == FaceOf(s, f)
  {
    hide First, AllOk, ModsOk, KernelOk, EventsOk;
  }

  /** A descriptor whose wait is being started, or can be, has no answer on its way. */
  lemma {:induction false} NoAnswer(s: State, f: nat)
    requires FdInv(s) && f in s.fds && (s.fds[f].setting || s.fds[f].waits == s.fds[f].execs)
    ensures !Answered(FaceOf(s, f)) && !GivenUp(FaceOf(s, f))
  {
    assert ViewOk(ViewOf(s, f));
    EventWaits(s, f);
  }

  /** An event that is still to be looked at is for a registered, waiting descriptor. */
  lemma {:induction false} EventWaits(s: State, f: nat)
    requires FdInv(s)
    ensures Among(Pending(s.pc), f) ==>
      f in s.fds && s.fds[f].waiting && s.fds[f].epoll && f in s.kernel && HandOf(s.pc, f).Free?
  {
    assert forall i :: 0 <= i < |Pending(s.pc)| ==> EventOk(s, Pending(s.pc)[i]);
  }

  lemma {:induction false} WaitStartOnward(u: Use, s: State, c: ClientStep, f: nat)
    requires FdInv(s) && c.WaitStart? && ClientEnabled(u, s, c) && f in s.fds
    ensures f in ClientApply(u, s, c).fds && Onward(FaceOf(s, f), FaceOf(ClientApply(u, s, c), f), false)
  {
    hide FdInv, Answered, GivenUp;
    if c.fd == f {
      NoAnswer(s, f);
    }
  }

  lemma {:induction false} PcAfter(s: State, who: Who)
    requires MayAct(s, who)
    ensures Pending(Notify(s, who).pc) == Pending(s.pc) && forall x :: HandOf(Notify(s, who).pc, x) == HandOf(s.pc, x)
    ensures Notify(s, who).fds == s.fds
  {
  }

  lemma {:induction false} WaitEnqueueOnward(s: State, x: nat, who: Who, f: nat)
    requires FdInv(s) && x in s.fds && s.fds[x].setting && MayAct(s, who) && f in s.fds
    ensures f in WaitEnqueueStep(s, x, who).fds && Onward(FaceOf(s, f), FaceOf(WaitEnqueueStep(s, x, who), f), false)
  {
    hide FdInv, Answered, GivenUp, Notify;
    PcAfter(Enqueue(s, x, s.fds[x].(setting := false)), who);
    if x == f {
      NoAnswer(s, f);
    }
  }

  lemma {:induction false} RewaitOnward(s: State, x: nat, mask: Mask, who: Who, f: nat)
    requires FdInv(s) && x in s.fds && MayAct(s, who) && f in s.fds
    ensures f in RewaitStep(s, x, mask, who).fds
    ensures Onward(FaceOf(s, f), FaceOf(RewaitStep(s, x, mask, who), f), x == f && mask != {})
  {
    hide FdInv, Notify;
    PcAfter(Enqueue(s, x, s.fds[x].(requested := mask)), who);
  }

  lemma {:induction false} ClientOnward(u: Use, s: State, c: ClientStep, f: nat)
    requires !u.emptySets && !u.early && FdInv(s) && ClientEnabled(u, s, c) && f in s.fds
    ensures f in ClientApply(u, s, c).fds
    ensures Onward(FaceOf(s, f), FaceOf(ClientApply(u, s, c), f), Revives(OfClient(c), f))
  {
    hide FdInv, FaceOf, Onward, WaitEnqueueStep, RewaitStep, Exec, Notify, Reusable;
    if !ClientTouchesFd(c) {
      QuietClient(u, s, c, f);
      Unmoved(FaceOf(s, f));
    } else {
      match c
      case WaitStart(_, _, _) => WaitStartOnward(u, s, c, f);
      case WaitEnqueue(x, who) => WaitEnqueueOnward(s, x, who, f);
      case Rewait(x, mask, who) => RewaitOnward(s, x, mask, who, f);
    }
  }

  lemma {:induction false} Unmoved(v: Face)
    ensures Onward(v, v, false)
  {
  }

  // ------------------------------------------------------------------- over runs

  lemma {:induction false} StepOnward(u: Use, s: State, st: Step, f: nat)
    requires !u.emptySets && !u.early && FdInv(s) && Enabled(u, s, st) && f in s.fds
    ensures FdInv(Apply(u, s, st)) && f in Apply(u, s, st).fds
    ensures Onward(FaceOf(s, f), FaceOf(Apply(u, s, st), f), Revives(st, f))
  {
    hide FdInv, LoopApply, ClientApply, LoopEnabled, ClientEnabled, FaceOf, Onward;
    match st
    case OfLoop(l) =>
      LoopKept(u, s, l);
      LoopOnward(u, s, l, f);
    case OfClient(c) =>
      ClientKept(u, s, c);
      ClientOnward(u, s, c, f);
  }

  /** The part of `ioq_iterate` after `dispatch_mods`. */
  predicate PassOver(pc: Pc) {
    var b := if pc.Hook? || pc.HookWrite? then pc.next else pc;
    b.Timers? || b.Expired? || b.Runs? || b.Callback?
  }

  /** The loop ends `dispatch_mods` only when nothing is on the list any more. */
  lemma {:induction false} PassEnds(u: Use, s: State, st: Step)
    requires FdInv(s) && Enabled(u, s, st) && !PassOver(s.pc) && PassOver(Apply(u, s, st).pc)
    ensures s.pc.Mods? && s.mods == []
  {
    hide FdInv, LoopApply, ClientApply, LoopEnabled, ClientEnabled, PassOver;
    PcOkNow(s);
    match st
    case OfLoop(l) => LoopPassEnds(u, s, l);
    case OfClient(c) => ClientPass(u, s, c);
  }

  lemma {:induction false} PcOkNow(s: State)
    requires FdInv(s)
    ensures PcOk(s)
  {
  }

  lemma {:induction false} LoopPassEnds(u: Use, s: State, l: LoopStep)
    requires PcOk(s) && LoopEnabled(s, l) && !PassOver(s.pc) && PassOver(LoopApply(u, s, l).pc)
    ensures s.pc.Mods? && s.mods == []
  {
    hide First, Deliverable, NextEventStep, MarkReadyStep, DequeueStep, ProcessStep, FinishStep;
    match l
    case NextEvent => PcAfterFdStep(u, s, true);
    case MarkReady => PcAfterFdStep(u, s, true);
    case Dequeue(now) => PcAfterDequeue(s, now);
    case Process(ok) => PcAfterFdStep(u, s, ok);
    case Finish => PcAfterFdStep(u, s, true);
    case _ =>
  }

  lemma {:induction false} PcAfterDequeue(s: State, now: int)
    requires LoopEnabled(s, Dequeue(now))
    ensures PassOver(DequeueStep(s, now).pc) <==> s.mods == []
  {
  }

  lemma {:induction false} PcAfterFdStep(u: Use, s: State, ok: bool)
    ensures LoopEnabled(s, NextEvent) ==> !PassOver(NextEventStep(s).pc)
    ensures LoopEnabled(s, MarkReady) ==> !PassOver(MarkReadyStep(s).pc)
    ensures LoopEnabled(s, Process(ok)) ==> !PassOver(ProcessStep(u, s, ok).pc)
    ensures LoopEnabled(s, Finish) ==> !PassOver(FinishStep(s).pc)
  {
  }

  lemma {:induction false} ClientPass(u: Use, s: State, c: ClientStep)
    requires PcOk(s) && ClientEnabled(u, s, c)
    ensures PassOver(ClientApply(u, s, c).pc) == PassOver(s.pc)
  {
    hide First, Reusable;
  }

  /** Then no answer is left waiting. */
  lemma {:induction false} NothingLeft(s: State, f: nat)
    requires FdInv(s) && s.pc.Mods? && s.mods == [] && f in s.fds
    ensures !Answered(FaceOf(s, f)) && !GivenUp(FaceOf(s, f))
  {
    assert ViewOk(ViewOf(s, f));
  }

  /** The descriptor has been called back since it had `n` callbacks, or will be; and with
      `here` that will be before the pass is over. */
  ghost predicate Due(s: State, f: nat, n: nat, here: bool) {
    && f in s.fds && n <= s.fds[f].execs
    && (s.fds[f].execs == n ==> (Answered(FaceOf(s, f)) || GivenUp(FaceOf(s, f))) && (here ==> !PassOver(s.pc)))
  }

  /** The run has no rewait for some event, unless it comes too late. */
  ghost predicate Unrevived(v: Face, run: seq<Step>, f: nat) {
    !Answered(v) ==> forall i :: 0 <= i < |run| ==> !Revives(run[i], f)
  }

  lemma {:induction false} DueKept(u: Use, s: State, st: Step, f: nat, n: nat, here: bool)
    requires !u.emptySets && !u.early && FdInv(s) && Enabled(u, s, st) && Due(s, f, n, here)
    requires Revives(st, f) ==> s.fds[f].execs > n || Answered(FaceOf(s, f))
    ensures FdInv(Apply(u, s, st)) && Due(Apply(u, s, st), f, n, here)
  {
    hide FdInv, Apply, Enabled, FaceOf, Answered, GivenUp, PassOver, Revives;
    StepOnward(u, s, st, f);
    ExecsAre(s, f);
    ExecsAre(Apply(u, s, st), f);
    if here && !PassOver(s.pc) && PassOver(Apply(u, s, st).pc) {
      PassEnds(u, s, st);
      NothingLeft(s, f);
    }
  }

  lemma {:induction false} ExecsAre(s: State, f: nat)
    requires f in s.fds
    ensures FaceOf(s, f).g == s.fds[f]
  {
  }

  lemma {:induction false} DueRun(u: Use, s: State, run: seq<Step>, s': State, f: nat, n: nat, here: bool)
    requires !u.emptySets && !u.early && FdInv(s) && Due(s, f, n, here) && Reaches(u, s, run, s')
    requires f in s.fds && s.fds[f].execs == n ==> Unrevived(FaceOf(s, f), run, f)
    ensures FdInv(s') && Due(s', f, n, here)
    decreases |run|
  {
    hide FdInv, Apply, Enabled, Answered, GivenUp, PassOver, Revives, Due;
    if run != [] {
      var s1 := Apply(u, s, run[0]);
      DueIs(s, f, n, here);
      DueKept(u, s, run[0], f, n, here);
      DueIs(s1, f, n, here);
      StepOnward(u, s, run[0], f);
      if Answered(FaceOf(s, f)) {
        StillAnswered(u, s, run[0], f);
      }
      DueRun(u, s1, run[1..], s', f, n, here);
    }
  }

  lemma {:induction false} DueIs(s: State, f: nat, n: nat, here: bool)
    requires Due(s, f, n, here)
    ensures f in s.fds && n <= s.fds[f].execs
    ensures s.fds[f].execs == n ==> (Answered(FaceOf(s, f)) || GivenUp(FaceOf(s, f))) && (here ==> !PassOver(s.pc))
  {
  }

  lemma {:induction false} StillAnswered(u: Use, s: State, st: Step, f: nat)
    requires !u.emptySets && !u.early && FdInv(s) && Enabled(u, s, st) && f in s.fds && Answered(FaceOf(s, f))
    ensures f in Apply(u, s, st).fds
    ensures Apply(u, s, st).fds[f].execs == s.fds[f].execs ==> Answered(FaceOf(Apply(u, s, st), f))
  {
    hide FdInv, Apply, Enabled, Answered, GivenUp;
    StepOnward(u, s, st, f);
  }

  /** `epoll_wait` returns an event for a descriptor. Whatever clients and the kernel do in
      between, when `dispatch_mods` is over the descriptor has been called back. */
  lemma {:induction false} ReadyCompletes(u: Use, s0: State, before: seq<Step>, s: State, evts: seq<Event>, i: nat,
                                          run: seq<Step>, s': State, f: nat)
    requires !u.emptySets && !u.early && Initial(s0) && Reaches(u, s0, before, s) && f in s.fds
    requires Enabled(u, s, OfLoop(Return(evts))) && i < |evts| && evts[i].Ready? && evts[i].fd == f
    requires Reaches(u, Apply(u, s, OfLoop(Return(evts))), run, s') && PassOver(s'.pc)
    ensures f in s'.fds && s'.fds[f].execs >= s.fds[f].execs + 1
  {
    hide FdInv, Initial, Enabled, Deliverable;
    FdInitial(s0);
    FdRun(u, s0, before, s);
    var s1 := Apply(u, s, OfLoop(Return(evts)));
    StepOnward(u, s, OfLoop(Return(evts)), f);
    assert Among(evts, f);
    assert Due(s1, f, s.fds[f].execs, true);
    DueRun(u, s1, run, s', f, s.fds[f].execs, true);
  }

  /** A waiting descriptor has been asked to wait for nothing, at whatever moment: by the time
      `dispatch_mods` is next over, after any state `m` in which it is not, it has been
      called back, unless a rewait for some event comes first. */
  lemma {:induction false} CancelCompletes(u: Use, s0: State, before: seq<Step>, s: State, who: Who,
                                           run: seq<Step>, m: State, rest: seq<Step>, s': State, f: nat)
    requires !u.emptySets && !u.early && Initial(s0) && Reaches(u, s0, before, s)
    requires Enabled(u, s, OfClient(Rewait(f, {}, who))) && s.fds[f].waiting
    requires Reaches(u, Apply(u, s, OfClient(Rewait(f, {}, who))), run, m) && !PassOver(m.pc)
    requires Reaches(u, m, rest, s') && PassOver(s'.pc)
    requires forall i :: 0 <= i < |run| ==> !Revives(run[i], f)
    requires forall i :: 0 <= i < |rest| ==> !Revives(rest[i], f)
    ensures f in s'.fds && s'.fds[f].execs >= s.fds[f].execs + 1
  {
    hide FdInv, Initial, Revives, PassOver, Due, Apply, Reaches;
    FdInitial(s0);
    FdRun(u, s0, before, s);
    var st, n := OfClient(Rewait(f, {}, who)), s.fds[f].execs;
    CancelDue(u, s, who, f);
    DueRun(u, Apply(u, s, st), run, m, f, n, false);
    DueHere(m, f, n);
    DueRun(u, m, rest, s', f, n, true);
    DueIs(s', f, n, true);
  }

  lemma {:induction false} CancelDue(u: Use, s: State, who: Who, f: nat)
    requires !u.emptySets && !u.early && FdInv(s) && Enabled(u, s, OfClient(Rewait(f, {}, who))) && s.fds[f].waiting
    ensures var s1 := Apply(u, s, OfClient(Rewait(f, {}, who))); FdInv(s1) && Due(s1, f, s.fds[f].execs, false)
  {
    hide FdInv, Answered, PassOver;
    StepOnward(u, s, OfClient(Rewait(f, {}, who)), f);
    assert GivenUp(FaceOf(Apply(u, s, OfClient(Rewait(f, {}, who))), f));
  }

  lemma {:induction false} DueHere(s: State, f: nat, n: nat)
    requires Due(s, f, n, false) && !PassOver(s.pc)
    ensures Due(s, f, n, true)
  {
  }

  /** `epoll_ctl` refuses a registration: by the end of the pass the descriptor has been
      called back, unless a rewait for some event comes first. */
  lemma {:induction false} RefusedCompletes(u: Use, s0: State, before: seq<Step>, s: State, run: seq<Step>, s': State,
                                            f: nat)
    requires !u.emptySets && !u.early && Initial(s0) && Reaches(u, s0, before, s)
    requires Enabled(u, s, OfLoop(Process(false))) && s.pc.fd == f && s.pc.waiting
    requires Reaches(u, Apply(u, s, OfLoop(Process(false))), run, s') && PassOver(s'.pc)
    requires forall i :: 0 <= i < |run| ==> !Revives(run[i], f)
    ensures f in s'.fds && s'.fds[f].execs >= s.fds[f].execs + 1
  {
    hide FdInv, Initial, Revives;
    FdInitial(s0);
    FdRun(u, s0, before, s);
    var st := OfLoop(Process(false));
    var s1 := Apply(u, s, st);
    StepOnward(u, s, st, f);
    AfterRefusal(u, s, f);
    DueRun(u, s1, run, s', f, s.fds[f].execs, true);
  }

  lemma {:induction false} AfterRefusal(u: Use, s: State, f: nat)
    requires FdInv(s) && LoopEnabled(s, Process(false)) && s.pc.fd == f && s.pc.waiting
    ensures f in s.fds && f in ProcessStep(u, s, false).fds && !PassOver(ProcessStep(u, s, false).pc)
    ensures Answered(FaceOf(ProcessStep(u, s, false), f)) || GivenUp(FaceOf(ProcessStep(u, s, false), f))
    ensures ProcessStep(u, s, false).fds[f].execs == s.fds[f].execs
  {
    hide FdInv;
    ViewNow(s, f);
  }

  // ---------------------------------------------------- no callback without cause

  /** The step gives a cause for calling the descriptor back: an event for it, a
      cancellation, or a refused registration. */
  ghost predicate Causes(s: State, st: Step, f: nat) {
    match st
    case OfLoop(l) => (l.Return? && Among(l.evts, f)) || (l == Process(false) && HandOf(s.pc, f).OfList?)
    case OfClient(c) => c.Rewait? && c.fd == f && c.mask == {}
  }

  ghost predicate Uncaused(u: Use, s: State, run: seq<Step>, f: nat)
    decreases |run|
  {
    run != [] ==> Enabled(u, s, run[0]) && !Causes(s, run[0], f) && Uncaused(u, Apply(u, s, run[0]), run[1..], f)
  }

  /** The wait is on, and nothing has answered it. */
  predicate Unanswered(v: Face) {
    v.g.waiting && v.g.requested != {} && !Answered(v) && !v.hand.OfFail?
  }

  /** Without a cause an unanswered wait stays unanswered. */
  predicate Idles(v: Face, v': Face) { Unanswered(v) ==> Unanswered(v') && v'.g.execs == v.g.execs }

  lemma {:induction false} LoopIdles(u: Use, s: State, l: LoopStep, f: nat)
    requires FdInv(s) && LoopEnabled(s, l) && f in s.fds && !Causes(s, OfLoop(l), f)
    ensures f in LoopApply(u, s, l).fds && Idles(FaceOf(s, f), FaceOf(LoopApply(u, s, l), f))
  {
    hide FdInv, NextEventStep, MarkReadyStep, DequeueStep, ProcessStep, FinishStep, Exec, First, FaceOf;
    if !TouchesFd(l) {
      QuietFace(u, s, l, f);
    } else {
      match l
      case Return(evts) => ReturnFace(s, evts, f);
      case NextEvent => NextEventIdles(s, f);
      case MarkReady => MarkReadyIdles(s, f);
      case Dequeue(now) => DequeueIdles(s, now, f);
      case Process(ok) => ProcessIdles(u, s, ok, f);
      case Finish => FinishIdles(s, f);
    }
  }

  lemma {:induction false} NextEventIdles(s: State, f: nat)
    requires FdInv(s) && s.pc.Events? && f in s.fds
    ensures LoopEnabled(s, NextEvent) && f in NextEventStep(s).fds
    ensures Idles(FaceOf(s, f), FaceOf(NextEventStep(s), f))
  {
    hide AllOk, ModsOk, KernelOk;
    NextEventKept(s);
    if s.pc.evts != [] {
      AmongNext(s.pc.evts, f);
    }
  }

  lemma {:induction false} MarkReadyIdles(s: State, f: nat)
    requires FdInv(s) && s.pc.Deleted? && f in s.fds
    ensures s.pc.fd in s.fds && f in MarkReadyStep(s).fds && Idles(FaceOf(s, f), FaceOf(MarkReadyStep(s), f))
  {
  }

  lemma {:induction false} DequeueIdles(s: State, now: int, f: nat)
    requires FdInv(s) && s.pc.Mods? && f in s.fds
    ensures LoopEnabled(s, Dequeue(now)) && f in DequeueStep(s, now).fds
    ensures Idles(FaceOf(s, f), FaceOf(DequeueStep(s, now), f))
  {
    DequeueKept(s, now);
  }

  lemma {:induction false} ProcessIdles(u: Use, s: State, ok: bool, f: nat)
    requires FdInv(s) && LoopEnabled(s, Process(ok)) && f in s.fds && (ok || !HandOf(s.pc, f).OfList?)
    ensures f in ProcessStep(u, s, ok).fds && Idles(FaceOf(s, f), FaceOf(ProcessStep(u, s, ok), f))
  {
    hide FdInv;
    ViewNow(s, f);
  }

  lemma {:induction false} FinishIdles(s: State, f: nat)
    requires FdInv(s) && LoopEnabled(s, Finish) && f in s.fds
    ensures f in FinishStep(s).fds && Idles(FaceOf(s, f), FaceOf(FinishStep(s), f))
  {
    hide FdInv;
    ViewNow(s, f);
  }

  lemma {:induction false} ClientIdles(u: Use, s: State, c: ClientStep, f: nat)
    requires !u.emptySets && !u.early && FdInv(s) && ClientEnabled(u, s, c) && f in s.fds && !Causes(s, OfClient(c), f)
    ensures f in ClientApply(u, s, c).fds && Idles(FaceOf(s, f), FaceOf(ClientApply(u, s, c), f))
  {
    hide FdInv, FaceOf, WaitEnqueueStep, RewaitStep, Exec, Notify, Reusable;
    if !ClientTouchesFd(c) {
      QuietClient(u, s, c, f);
    } else {
      match c
      case WaitStart(_, _, _) => WaitStartIdles(u, s, c, f);
      case WaitEnqueue(x, who) => WaitEnqueueIdles(s, x, who, f);
      case Rewait(x, mask, who) => RewaitIdles(s, x, mask, who, f);
    }
  }

  lemma {:induction false} WaitStartIdles(u: Use, s: State, c: ClientStep, f: nat)
    requires FdInv(s) && c.WaitStart? && ClientEnabled(u, s, c) && f in s.fds
    ensures f in ClientApply(u, s, c).fds && Idles(FaceOf(s, f), FaceOf(ClientApply(u, s, c), f))
  {
    hide FdInv;
    ViewNow(s, f);
  }

  lemma {:induction false} WaitEnqueueIdles(s: State, x: nat, who: Who, f: nat)
    requires x in s.fds && MayAct(s, who) && f in s.fds
    ensures f in WaitEnqueueStep(s, x, who).fds && Idles(FaceOf(s, f), FaceOf(WaitEnqueueStep(s, x, who), f))
  {
    hide Notify;
    PcAfter(Enqueue(s, x, s.fds[x].(setting := false)), who);
  }

  lemma {:induction false} RewaitIdles(s: State, x: nat, mask: Mask, who: Who, f: nat)
    requires x in s.fds && MayAct(s, who) && f in s.fds && (x == f ==> mask != {})
    ensures f in RewaitStep(s, x, mask, who).fds && Idles(FaceOf(s, f), FaceOf(RewaitStep(s, x, mask, who), f))
  {
    hide Notify;
    PcAfter(Enqueue(s, x, s.fds[x].(requested := mask)), who);
  }

  lemma {:induction false} IdleRun(u: Use, s: State, run: seq<Step>, s': State, f: nat)
    requires !u.emptySets && !u.early && FdInv(s) && f in s.fds && Reaches(u, s, run, s') && Uncaused(u, s, run, f)
    requires Unanswered(FaceOf(s, f))
    ensures f in s'.fds && Unanswered(FaceOf(s', f)) && s'.fds[f].execs == s.fds[f].execs
    decreases |run|
  {
    hide FdInv, LoopApply, ClientApply, LoopEnabled, ClientEnabled, Unanswered, Causes;
    if run != [] {
      match run[0] {
        case OfLoop(l) => LoopKept(u, s, l); LoopIdles(u, s, l, f);
        case OfClient(c) => ClientKept(u, s, c); ClientIdles(u, s, c, f);
      }
      IdleRun(u, Apply(u, s, run[0]), run[1..], s', f);
    }
  }

  /** From the start of a wait on, for as long as the kernel reports no event for the
      descriptor and refuses no registration of it, and nobody cancels: no callback. */
  lemma {:induction false} NoCallbackWithoutCause(u: Use, s0: State, before: seq<Step>, s: State, mask: Mask, who: Who,
                                                  run: seq<Step>, s': State, f: nat)
    requires !u.emptySets && !u.early && Initial(s0) && Reaches(u, s0, before, s)
    requires Enabled(u, s, OfClient(WaitStart(f, mask, who)))
    requires Reaches(u, Apply(u, s, OfClient(WaitStart(f, mask, who))), run, s')
    requires Uncaused(u, Apply(u, s, OfClient(WaitStart(f, mask, who))), run, f)
    ensures f in s'.fds && s'.fds[f].waiting && s'.fds[f].execs == s.fds[f].execs
  {
    hide FdInv, Initial;
    FdInitial(s0);
    FdRun(u, s0, before, s);
    var st := OfClient(WaitStart(f, mask, who));
    ClientKept(u, s, st.client);
    NoAnswer(Apply(u, s, st), f);
    assert ViewOk(ViewOf(Apply(u, s, st), f)) by { ViewNow(Apply(u, s, st), f); }
    IdleRun(u, Apply(u, s, st), run, s', f);
  }


  // ------------------------------------------------- the callback sees the events

  /** The events returned for the descriptor are on their way to it, or it has them. */
  ghost predicate Seen(s: State, f: nat, events: Mask) {
    && f in s.fds
    && (Ready(f, events) in Pending(s.pc) ||
        (s.fds[f].ready == events && (HandOf(s.pc, f).OfEvent? || !s.fds[f].waiting)))
  }

  predicate StartsWait(st: Step, f: nat) { st.OfClient? && st.client.WaitStart? && st.client.fd == f }

  lemma {:induction false} SameSeen(s: State, s': State, f: nat, events: Mask)
    requires Seen(s, f, events) && f in s'.fds && Pending(s'.pc) == Pending(s.pc)
    requires HandOf(s'.pc, f) == HandOf(s.pc, f) && s'.fds[f].ready == s.fds[f].ready
    requires s'.fds[f].waiting ==> s.fds[f].waiting
    ensures Seen(s', f, events)
  {
  }

  lemma {:induction false} QuietPending(u: Use, s: State, l: LoopStep)
    requires FdInv(s) && LoopEnabled(s, l) && !TouchesFd(l)
    ensures Pending(LoopApply(u, s, l).pc) == Pending(s.pc) && LoopApply(u, s, l).fds == s.fds
    ensures forall x :: HandOf(LoopApply(u, s, l).pc, x) == HandOf(s.pc, x)
  {
    hide First, AllOk, ModsOk, KernelOk, EventsOk;
  }

  lemma {:induction false} LoopSeen(u: Use, s: State, l: LoopStep, f: nat, events: Mask)
    requires FdInv(s) && LoopEnabled(s, l) && Seen(s, f, events)
    ensures Seen(LoopApply(u, s, l), f, events)
  {
    hide FdInv, NextEventStep, MarkReadyStep, DequeueStep, ProcessStep, FinishStep, Exec, First, Deliverable;
    if !TouchesFd(l) {
      QuietPending(u, s, l);
      SameSeen(s, LoopApply(u, s, l), f, events);
    } else {
      match l
      case Return(evts) =>
      case NextEvent => NextEventSeen(s, f, events);
      case MarkReady => MarkReadySeen(s, f, events);
      case Dequeue(now) => DequeueSeen(s, now, f, events);
      case Process(ok) => ProcessSeen(u, s, ok, f, events);
      case Finish => FinishSeen(s, f, events);
    }
  }

  lemma {:induction false} NextEventSeen(s: State, f: nat, events: Mask)
    requires FdInv(s) && s.pc.Events? && Seen(s, f, events)
    ensures LoopEnabled(s, NextEvent) && Seen(NextEventStep(s), f, events)
  {
    hide AllOk, ModsOk, KernelOk;
    NextEventKept(s);
    EventWaits(s, f);
    if s.pc.evts != [] {
      assert s.pc.evts == [s.pc.evts[0]] + s.pc.evts[1..];
      if s.pc.evts[0].Ready? && s.pc.evts[0].fd == f {
        assert Among(s.pc.evts, f);
        OnlyFirst(s.pc.evts, f, events);
      }
    }
  }

  lemma {:induction false} OnlyFirst(evts: seq<Event>, f: nat, events: Mask)
    requires DistinctFds(evts) && evts != [] && evts[0].Ready? && evts[0].fd == f
    ensures Ready(f, events) in evts ==> evts[0] == Ready(f, events)
  {
  }

  lemma {:induction false} MarkReadySeen(s: State, f: nat, events: Mask)
    requires FdInv(s) && s.pc.Deleted? && Seen(s, f, events)
    ensures s.pc.fd in s.fds && Seen(MarkReadyStep(s), f, events)
  {
  }

  lemma {:induction false} DequeueSeen(s: State, now: int, f: nat, events: Mask)
    requires FdInv(s) && s.pc.Mods? && Seen(s, f, events)
    ensures LoopEnabled(s, Dequeue(now)) && Seen(DequeueStep(s, now), f, events)
  {
    DequeueKept(s, now);
  }

  lemma {:induction false} ProcessSeen(u: Use, s: State, ok: bool, f: nat, events: Mask)
    requires FdInv(s) && LoopEnabled(s, Process(ok)) && Seen(s, f, events)
    ensures Seen(ProcessStep(u, s, ok), f, events)
  {
    hide FdInv;
    ViewNow(s, f);
  }

  lemma {:induction false} FinishSeen(s: State, f: nat, events: Mask)
    requires FdInv(s) && LoopEnabled(s, Finish) && Seen(s, f, events)
    ensures Seen(FinishStep(s), f, events)
  {
    hide FdInv;
    ViewNow(s, f);
  }

  lemma {:induction false} ClientSeen(u: Use, s: State, c: ClientStep, f: nat, events: Mask)
    requires !u.emptySets && !u.early && FdInv(s) && ClientEnabled(u, s, c) && Seen(s, f, events)
    requires !StartsWait(OfClient(c), f)
    ensures Seen(ClientApply(u, s, c), f, events)
  {
    hide FdInv, Seen, Reusable, WaitEnqueueStep, RewaitStep, Exec, Notify;
    SeenIn(s, f, events);
    match c {
      case WaitStart(_, _, _) =>
      case WaitEnqueue(x, who) => WaitEnqueueFields(s, x, who, f);
      case Rewait(x, mask, who) => RewaitFields(s, x, mask, who, f);
      case _ => QuietClient(u, s, c, f); QuietClientPending(u, s, c);
    }
    SameSeen(s, ClientApply(u, s, c), f, events);
  }

  lemma {:induction false} QuietClientPending(u: Use, s: State, c: ClientStep)
    requires ClientEnabled(u, s, c) && !ClientTouchesFd(c)
    ensures Pending(ClientApply(u, s, c).pc) == Pending(s.pc)
  {
    hide First;
  }

  lemma {:induction false} WaitEnqueueFields(s: State, x: nat, who: Who, f: nat)
    requires x in s.fds && MayAct(s, who) && f in s.fds
    ensures var s' := WaitEnqueueStep(s, x, who);
      && f in s'.fds && s'.fds[f].ready == s.fds[f].ready && s'.fds[f].waiting == s.fds[f].waiting
      && HandOf(s'.pc, f) == HandOf(s.pc, f) && Pending(s'.pc) == Pending(s.pc)
  {
    hide Notify;
    PcAfter(Enqueue(s, x, s.fds[x].(setting := false)), who);
  }

  lemma {:induction false} RewaitFields(s: State, x: nat, mask: Mask, who: Who, f: nat)
    requires x in s.fds && MayAct(s, who) && f in s.fds
    ensures var s' := RewaitStep(s, x, mask, who);
      && f in s'.fds && s'.fds[f].ready == s.fds[f].ready && s'.fds[f].waiting == s.fds[f].waiting
      && HandOf(s'.pc, f) == HandOf(s.pc, f) && Pending(s'.pc) == Pending(s.pc)
  {
    hide Notify;
    PcAfter(Enqueue(s, x, s.fds[x].(requested := mask)), who);
  }

  lemma {:induction false} SeenIn(s: State, f: nat, events: Mask)
    requires Seen(s, f, events)
    ensures f in s.fds
  {
  }

  lemma {:induction false} SeenRun(u: Use, s: State, run: seq<Step>, s': State, f: nat, events: Mask)
    requires !u.emptySets && !u.early && FdInv(s) && Seen(s, f, events) && Reaches(u, s, run, s')
    requires forall i :: 0 <= i < |run| ==> !StartsWait(run[i], f)
    ensures Seen(s', f, events)
    decreases |run|
  {
    hide FdInv, Seen, LoopApply, ClientApply, LoopEnabled, ClientEnabled, StartsWait;
    if run != [] {
      match run[0] {
        case OfLoop(l) => LoopKept(u, s, l); LoopSeen(u, s, l, f, events);
        case OfClient(c) => ClientKept(u, s, c); ClientSeen(u, s, c, f, events);
      }
      SeenRun(u, Apply(u, s, run[0]), run[1..], s', f, events);
    }
  }

  /** When `dispatch_mods` is over, and until its next wait, the descriptor holds exactly the
      events that `epoll_wait` has returned for it. */
  lemma {:induction false} EventsReachCallback(u: Use, s0: State, before: seq<Step>, s: State, evts: seq<Event>,
                                               i: nat, run: seq<Step>, s': State, f: nat)
    requires !u.emptySets && !u.early && Initial(s0) && Reaches(u, s0, before, s) && f in s.fds
    requires Enabled(u, s, OfLoop(Return(evts))) && i < |evts| && evts[i].Ready? && evts[i].fd == f
    requires Reaches(u, Apply(u, s, OfLoop(Return(evts))), run, s') && PassOver(s'.pc)
    requires forall k :: 0 <= k < |run| ==> !StartsWait(run[k], f)
    ensures f in s'.fds && s'.fds[f].ready == evts[i].events
  {
    hide FdInv, Initial, Enabled, Deliverable;
    FdInitial(s0);
    FdRun(u, s0, before, s);
    StepOnward(u, s, OfLoop(Return(evts)), f);
    assert evts[i] in evts && evts[i] == Ready(f, evts[i].events);
    SeenRun(u, Apply(u, s, OfLoop(Return(evts))), run, s', f, evts[i].events);
  }

  // --------------------------------------------------------------- errors of a wait

  /** The kernel refuses to register the descriptor. */
  predicate Refuses(s: State, st: Step, f: nat) {
    st == OfLoop(Process(false)) && s.pc.Got? && s.pc.fd == f && s.pc.waiting && s.pc.requested != {}
  }

  lemma {:induction false} LoopError(u: Use, s: State, l: LoopStep, f: nat)
    requires LoopEnabled(s, l) && f in s.fds
    ensures f in LoopApply(u, s, l).fds
    ensures LoopApply(u, s, l).fds[f].err == (s.fds[f].err || Refuses(s, OfLoop(l), f))
  {
    hide First, Deliverable, NextEventStep, MarkReadyStep, DequeueStep, ProcessStep, FinishStep;
    match l
    case NextEvent => OtherErrors(s, f);
    case MarkReady => OtherErrors(s, f);
    case Dequeue(now) => OtherErrors(s, f);
    case Finish => OtherErrors(s, f);
    case Process(ok) => ProcessError(u, s, ok, f);
    case _ =>
  }

  lemma {:induction false} ProcessError(u: Use, s: State, ok: bool, f: nat)
    requires LoopEnabled(s, Process(ok)) && f in s.fds
    ensures f in ProcessStep(u, s, ok).fds
    ensures ProcessStep(u, s, ok).fds[f].err == (s.fds[f].err || Refuses(s, OfLoop(Process(ok)), f))
  {
  }

  lemma {:induction false} OtherErrors(s: State, f: nat)
    requires f in s.fds
    ensures LoopEnabled(s, NextEvent) ==> f in NextEventStep(s).fds && NextEventStep(s).fds[f].err == s.fds[f].err
    ensures LoopEnabled(s, MarkReady) ==> f in MarkReadyStep(s).fds && MarkReadyStep(s).fds[f].err == s.fds[f].err
    ensures forall now :: LoopEnabled(s, Dequeue(now)) ==>
      f in DequeueStep(s, now).fds && DequeueStep(s, now).fds[f].err == s.fds[f].err
    ensures LoopEnabled(s, Finish) ==> f in FinishStep(s).fds && FinishStep(s).fds[f].err == s.fds[f].err
  {
  }

  lemma {:induction false} ClientError(u: Use, s: State, c: ClientStep, f: nat)
    requires !u.emptySets && ClientEnabled(u, s, c) && f in s.fds
    ensures f in ClientApply(u, s, c).fds
    ensures ClientApply(u, s, c).fds[f].err == (s.fds[f].err && !StartsWait(OfClient(c), f))
  {
    hide First, Reusable, WaitEnqueueStep, RewaitStep;
    match c
    case WaitEnqueue(x, who) => WaitEnqueueError(s, x, who, f);
    case Rewait(x, mask, who) => RewaitError(s, x, mask, who, f);
    case _ =>
  }

  lemma {:induction false} WaitEnqueueError(s: State, x: nat, who: Who, f: nat)
    requires x in s.fds && f in s.fds
    ensures f in WaitEnqueueStep(s, x, who).fds && WaitEnqueueStep(s, x, who).fds[f].err == s.fds[f].err
  {
  }

  lemma {:induction false} RewaitError(s: State, x: nat, mask: Mask, who: Who, f: nat)
    requires x in s.fds && f in s.fds
    ensures f in RewaitStep(s, x, mask, who).fds && RewaitStep(s, x, mask, who).fds[f].err == s.fds[f].err
  {
  }

  ghost predicate Unrefused(u: Use, s: State, run: seq<Step>, f: nat)
    decreases |run|
  {
    run != [] ==> Enabled(u, s, run[0]) && !Refuses(s, run[0], f) && Unrefused(u, Apply(u, s, run[0]), run[1..], f)
  }

  lemma {:induction false} StaysClear(u: Use, s: State, run: seq<Step>, s': State, f: nat)
    requires !u.emptySets && f in s.fds && !s.fds[f].err && Reaches(u, s, run, s') && Unrefused(u, s, run, f)
    ensures f in s'.fds && !s'.fds[f].err
    decreases |run|
  {
    hide LoopApply, ClientApply, LoopEnabled, ClientEnabled, Refuses, StartsWait;
    if run != [] {
      match run[0] {
        case OfLoop(l) => LoopError(u, s, l, f);
        case OfClient(c) => ClientError(u, s, c, f);
      }
      StaysClear(u, Apply(u, s, run[0]), run[1..], s', f);
    }
  }

  lemma {:induction false} StaysRefused(u: Use, s: State, run: seq<Step>, s': State, f: nat)
    requires !u.emptySets && f in s.fds && s.fds[f].err && Reaches(u, s, run, s')
    requires forall i :: 0 <= i < |run| ==> !StartsWait(run[i], f)
    ensures f in s'.fds && s'.fds[f].err
    decreases |run|
  {
    hide LoopApply, ClientApply, LoopEnabled, ClientEnabled, Refuses, StartsWait;
    if run != [] {
      match run[0] {
        case OfLoop(l) => LoopError(u, s, l, f);
        case OfClient(c) => ClientError(u, s, c, f);
      }
      StaysRefused(u, Apply(u, s, run[0]), run[1..], s', f);
    }
  }

  /** A descriptor whose registration has been refused tells so to its callback, and one whose
      registration has not been refused since the wait began does not. */
  lemma {:induction false} ErrorMeansRefusal(u: Use, s: State, st: Step, run: seq<Step>, s': State, f: nat)
    requires !u.emptySets && f in s.fds && Enabled(u, s, st) && Reaches(u, Apply(u, s, st), run, s')
    requires StartsWait(st, f) || Refuses(s, st, f)
    requires if StartsWait(st, f) then Unrefused(u, Apply(u, s, st), run, f)
             else forall i :: 0 <= i < |run| ==> !StartsWait(run[i], f)
    ensures f in s'.fds && (s'.fds[f].err <==> !StartsWait(st, f))
  {
    hide LoopApply, ClientApply, LoopEnabled, ClientEnabled;
    match st
    case OfLoop(l) =>
      LoopError(u, s, l, f);
      StaysRefused(u, Apply(u, s, st), run, s', f);
    case OfClient(c) =>
      ClientError(u, s, c, f);
      StaysClear(u, Apply(u, s, st), run, s', f);
  }
}
