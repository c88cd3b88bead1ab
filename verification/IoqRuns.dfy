/** What io/ioq_linux.c promises over whole runs, and how it may be used so that
    the promise holds. */
module IoqRuns {
  import opened Ioq
  import opened IoqFd
  import opened Sequences

  /** In every run without waits for the empty set and without early rewaits:
      each wait leads to one completion and no more; MOD_LIST is set exactly for the
      descriptors on the list, each of which is there once; and a waiting descriptor
      that nobody is about to look at is registered with the latest requested set. */
  lemma {:induction false} OneCallback(u: Use, s0: State, run: seq<Step>, s: State, f: nat)
    requires Initial(s0) && Reaches(u, s0, run, s) && f in s.fds && !u.emptySets && !u.early
    ensures s.fds[f].waits == s.fds[f].execs + (if Outstanding(ViewOf(s, f)) then 1 else 0)
    ensures multiset(s.jobs)[FdTask(f)] <= 1
    ensures (s.fds[f].listed <==> f in s.mods) && multiset(s.mods)[f] <= 1
    ensures s.fds[f].waiting && !s.fds[f].listed && !s.fds[f].setting && HandOf(s.pc, f).Free? ==>
      f in s.kernel && s.kernel[f] == s.fds[f].requested
  {
    FdInitial(s0);
    FdRun(u, s0, run, s);
    assert ViewOk(ViewOf(s, f));
    OnceCount(s.mods, f);
  }

  lemma {:induction false} OnceCount(mods: seq<nat>, f: nat)
    requires Once(mods)
    ensures multiset(mods)[f] <= 1
  {
    if mods != [] {
      OnceCount(mods[1..], f);
      assert mods == [mods[0]] + mods[1..];
      assert mods[0] == f ==> f !in mods[1..];
    }
  }

  /** The order by deadline and address has a least element. */
  lemma {:induction false} FirstExists(timers: set<Timer>) returns (t: Timer)
    requires timers != {}
    ensures First(timers, t)
    decreases timers
  {
    var x :| x in timers;
    var rest := timers - {x};
    assert forall z :: z in timers <==> z == x || z in rest;
    if rest == {} {
      t := x;
    } else {
      var y := FirstExists(rest);
      t := if Earlier(x, y) then x else y;
    }
  }

  /** The loop is never stuck: wherever it is, it has a next step. */
  lemma {:induction false} LoopCanStep(u: Use, s0: State, run: seq<Step>, s: State) returns (st: LoopStep)
    requires Initial(s0) && Reaches(u, s0, run, s) && !u.emptySets && !u.early
    ensures LoopEnabled(s, st)
  {
    FdInitial(s0);
    FdRun(u, s0, run, s);
    st := NextStep(s);
  }

  lemma {:induction false} NextStep(s: State) returns (st: LoopStep)
    requires FdInv(s)
    ensures LoopEnabled(s, st)
  {
    hide AllOk, ModsOk, KernelOk, EventsOk;
    match s.pc
    case Idle =>
      if s.timers == {} {
        st := Arm(Never);
      } else {
        var t := FirstExists(s.timers);
        assert First(s.timers, Timer(t.deadline, t.addr));
        st := Arm(Until(t.deadline));
      }
    case Blocked(_) => st := Interrupted;
    case Draining(_) => st := Drain;
    case Clearing(_) => st := Clear;
    case Events(_) => st := NextEvent; NextEventKept(s);
    case Deleted(_, _) => st := MarkReady; MarkReadyKept(s);
    case Mods => st := Dequeue(0); DequeueKept(s, 0);
    case Got(_, _, _, _) => st := Process(false);
    case Stopped(_) => st := Finish;
    case Added(_) => st := Finish;
    case Failed(_) => st := Finish;
    case Timers(now) =>
      st := NoneExpired;
      if s.timers != {} {
        var t := FirstExists(s.timers);
        st := if t.deadline <= now then Expire(t) else NoneExpired;
      }
    case Expired(_) => st := ExpiredExec;
    case Runs => st := RunOne;
    case Callback => st := CallbackEnd;
    case Hook(_) => st := HookLock;
    case HookWrite(_) => st := HookPut;
  }

  // ------------------------------------------------- when the promise holds

  /** No descriptor is ever completed more often than it was waited for. */
  ghost predicate Promise(u: Use) {
    forall s0, run, s, f :: Initial(s0) && Reaches(u, s0, run, s) && f in s.fds ==> s.fds[f].execs <= s.fds[f].waits
  }

  lemma {:induction false} StepOn(u: Use, s0: State, run: seq<Step>, s: State, st: Step)
    requires Reaches(u, s0, run, s) && Enabled(u, s, st)
    ensures Reaches(u, s0, run + [st], Apply(u, s, st))
    decreases |run|
  {
    if run == [] {
      assert [st][1..] == [];
      assert Reaches(u, Apply(u, s, st), [], Apply(u, s, st));
    } else {
      assert (run + [st])[1..] == run[1..] + [st];
      StepOn(u, Apply(u, s0, run[0]), run[1..], s, st);
    }
  }

  /** A descriptor before its first wait. */
  function NoWaitYet(): Fd { Fd(false, false, false, {}, {}, false, false, 0, 0) }

  /** A state in which descriptor 0 has the fields `g` and one unrelated job is queued. */
  function With(g: Fd, mods: seq<nat>, pc: Pc, calls: nat, tasks: nat): State {
    State(map[0 := g], mods, map[], pc, false, 0, calls, 0, [OtherTask] + seq(tasks, _ => FdTask(0)), {})
  }

  ghost predicate Reachable(u: Use, s: State) { exists s0, run :: Initial(s0) && Reaches(u, s0, run, s) }

  lemma {:induction false} Go(u: Use, s: State, st: Step, s': State)
    requires Reachable(u, s) && Enabled(u, s, st) && Apply(u, s, st) == s'
    ensures Reachable(u, s')
  {
    var s0, run :| Initial(s0) && Reaches(u, s0, run, s);
    StepOn(u, s0, run, s, st);
  }

  /** One unrelated job is queued, and the loop is about to look at the list. */
  lemma {:induction false} Prelude(u: Use)
    ensures Reachable(u, With(NoWaitYet(), [], Mods, if u.background then 0 else 1, 0))
  {
    var g := NoWaitYet();
    var s0 := State(map[0 := g], [], map[], Idle, false, 0, 0, 0, [], {});
    assert Initial(s0) && Reaches(u, s0, [], s0);
    var c := if u.background then 0 else 1;
    assert [OtherTask] + seq(0, _ => FdTask(0)) == [] + [OtherTask];
    Go(u, s0, OfClient(Submit(Other)), With(g, [], Idle, c, 0));
    Go(u, With(g, [], Idle, c, 0), OfLoop(Arm(Never)), With(g, [], Blocked(Never), c, 0));
    Go(u, With(g, [], Blocked(Never), c, 0), OfLoop(Interrupted), With(g, [], Mods, c, 0));
  }

  /** A cancelled descriptor on the list is completed. */
  lemma {:induction false} CancelRun(u: Use, g: Fd, c: nat, tasks: nat)
    requires g.waiting && g.listed && !g.epoll && g.requested == g.ready == {}
    requires Reachable(u, With(g, [0], Mods, c, tasks))
    ensures var g' := g.(waiting := false, listed := false, execs := g.execs + 1);
      Reachable(u, With(g', [], Mods, c, tasks + 1))
  {
    hide Reachable;
    var a := g.(listed := false);
    Go(u, With(g, [0], Mods, c, tasks), OfLoop(Dequeue(0)), With(a, [], Got(0, true, false, {}), c, tasks));
    StopRun(u, a, c, tasks);
    CompleteRun(u, a.(waiting := false, listed := true), c, tasks);
  }

  lemma {:induction false} StopRun(u: Use, a: Fd, c: nat, tasks: nat)
    requires !a.listed && !a.epoll && a.ready == {} && Reachable(u, With(a, [], Got(0, true, false, {}), c, tasks))
    ensures Reachable(u, With(a.(waiting := false, listed := true), [0], Mods, c, tasks))
  {
    hide Reachable;
    Go(u, With(a, [], Got(0, true, false, {}), c, tasks), OfLoop(Process(true)), With(a, [], Stopped(0), c, tasks));
    Go(u, With(a, [], Stopped(0), c, tasks), OfLoop(Finish),
       With(a.(waiting := false, listed := true), [0], Mods, c, tasks));
  }

  /** A descriptor on the list that is not waiting is completed. */
  lemma {:induction false} CompleteRun(u: Use, g: Fd, c: nat, tasks: nat)
    requires !g.waiting && g.listed && !g.epoll && g.requested == {} && Reachable(u, With(g, [0], Mods, c, tasks))
    ensures Reachable(u, With(g.(listed := false, execs := g.execs + 1), [], Mods, c, tasks + 1))
  {
    var a := g.(listed := false);
    Go(u, With(g, [0], Mods, c, tasks), OfLoop(Dequeue(0)), With(a, [], Got(0, false, false, {}), c, tasks));
    assert [OtherTask] + seq(tasks, _ => FdTask(0)) + [FdTask(0)] == [OtherTask] + seq(tasks + 1, _ => FdTask(0));
    Go(u, With(a, [], Got(0, false, false, {}), c, tasks), OfLoop(Process(true)),
       With(a.(execs := a.execs + 1), [], Mods, c, tasks + 1));
  }

  /** A rewait that comes before the wait has taken the lock: the loop completes
      the descriptor, then the wait lists it again, and it is completed twice. */
  lemma {:induction false} EarlyRewait(u: Use)
    requires u.early
    ensures !Promise(u)
  {
    hide Reachable, Promise;
    Prelude(u);
    var g := NoWaitYet();
    var c := if u.background then 0 else 1;
    var w := Fd(true, false, false, {In}, {}, false, true, 1, 0);
    Go(u, With(g, [], Mods, c, 0), OfClient(WaitStart(0, {In}, Other)), With(w, [], Mods, c, 0));
    var r := w.(requested := {}, listed := true);
    Go(u, With(w, [], Mods, c, 0), OfClient(Rewait(0, {}, Other)), With(r, [0], Mods, c + 1, 0));
    CancelRun(u, r, c + 1, 0);
    var d := r.(waiting := false, listed := false, execs := 1);
    var e := d.(setting := false, listed := true);
    Go(u, With(d, [], Mods, c + 1, 1), OfClient(WaitEnqueue(0, Other)), With(e, [0], Mods, c + 2, 1));
    CompleteRun(u, e, c + 2, 1);
    Broken(u, With(e.(listed := false, execs := 2), [], Mods, c + 2, 2));
  }

  /** A wait for the empty set leaves WAITING set, so that a later rewait takes the
      descriptor for a waiting one and it is completed again. */
  lemma {:induction false} EmptySetWait(u: Use)
    requires u.emptySets
    ensures !Promise(u)
  {
    hide Reachable, Promise;
    Prelude(u);
    var g := NoWaitYet();
    var c := if u.background then 0 else 1;
    var w := Fd(true, false, false, {}, {}, false, false, 1, 1);
    assert [OtherTask] + seq(0, _ => FdTask(0)) + [FdTask(0)] == [OtherTask] + seq(1, _ => FdTask(0));
    Go(u, With(g, [], Mods, c, 0), OfClient(WaitEmpty(0, Other)), With(w, [], Mods, c, 1));
    var r := w.(listed := true);
    Go(u, With(w, [], Mods, c, 1), OfClient(Rewait(0, {}, Other)), With(r, [0], Mods, c + 1, 1));
    CancelRun(u, r, c + 1, 1);
    Broken(u, With(r.(waiting := false, listed := false, execs := 2), [], Mods, c + 1, 2));
  }

  lemma {:induction false} Broken(u: Use, s: State)
    requires Reachable(u, s) && 0 in s.fds && s.fds[0].execs > s.fds[0].waits
    ensures !Promise(u)
  {
    var s0, run :| Initial(s0) && Reaches(u, s0, run, s);
  }

  /** Completions never outnumber waits exactly when no wait is for the empty set
      and no rewait comes while a wait on the same descriptor is being started. */
  lemma {:induction false} PromiseHolds(u: Use)
    ensures Promise(u) <==> !u.emptySets && !u.early
  {
    if u.emptySets {
      EmptySetWait(u);
    } else if u.early {
      EarlyRewait(u);
    } else {
      forall s0, run, s, f | Initial(s0) && Reaches(u, s0, run, s) && f in s.fds
        ensures s.fds[f].execs <= s.fds[f].waits {
        OneCallback(u, s0, run, s, f);
      }
    }
  }
}
