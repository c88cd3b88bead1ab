/** What the calls of a run say about the timers of io/waitq.c: when they come, and how
    they come when they have been cancelled or rescheduled. */
module WaitqRuns {
  import opened Waitq

  /** The deadline asked for by the last of the calls in `run`; a cancellation that takes the
      timer out asks for zero. */
  function Asked(run: seq<Step>, t: nat, d: int): int {
    if run == [] then d else Asked(run[1..], t, AskedBy(run[0], t, d))
  }

  function AskedBy(st: Step, t: nat, d: int): int {
    match st
    case Wait(x, y) => if x == t then y else d
    case Move(x, y) => if x == t then y else d
    case ClearDeadline(x) => if x == t then 0 else d
    case _ => d
  }

  /** The last reading of the clock by a dispatch. */
  function Clock(run: seq<Step>, c: int): int {
    if run == [] then c else Clock(run[1..], if run[0].DispatchStart? then run[0].now else c)
  }

  lemma {:induction false} StepAsked(s: State, st: Step, t: nat)
    requires Enabled(s, st) && t in s.deadline
    ensures t in Apply(s, st).deadline && Apply(s, st).deadline[t] == AskedBy(st, t, s.deadline[t])
  {
    hide Queued;
  }

  lemma {:induction false} RunAsked(s: State, run: seq<Step>, s': State, t: nat)
    requires Reaches(s, run, s') && t in s.deadline
    ensures t in s'.deadline && s'.deadline[t] == Asked(run, t, s.deadline[t])
    decreases |run|
  {
    hide Apply, Enabled, AskedBy;
    if run != [] {
      StepAsked(s, run[0], t);
      RunAsked(Apply(s, run[0]), run[1..], s', t);
    }
  }

  /** A dispatch goes by its own reading of the clock. */
  ghost predicate OnClock(s: State, c: int) { !s.dispatch.Off? ==> s.dispatch.now == c }

  lemma {:induction false} StepClock(s: State, st: Step, c: int)
    requires Enabled(s, st) && OnClock(s, c)
    ensures OnClock(Apply(s, st), if st.DispatchStart? then st.now else c)
  {
    hide Queued;
  }

  lemma {:induction false} RunClock(s: State, run: seq<Step>, s': State, c: int)
    requires Reaches(s, run, s') && OnClock(s, c)
    ensures OnClock(s', Clock(run, c))
    decreases |run|
  {
    hide Apply, Enabled, OnClock;
    if run != [] {
      StepClock(s, run[0], c);
      RunClock(Apply(s, run[0]), run[1..], s', if run[0].DispatchStart? then run[0].now else c);
    }
  }

  lemma {:induction false} NoTimersYet(s: State)
    requires Initial(s)
    ensures Inv(s) && OnClock(s, 0) && Submitted(s) == []
  {
    InvInitial(s);
  }

  /** In every run a timer waits, or is with the dispatch, only under the deadline last asked
      for; and the dispatch has it only if that deadline has passed on the clock. */
  lemma {:induction false} UnderAskedDeadline(s0: State, run: seq<Step>, s: State)
    requires Initial(s0) && Reaches(s0, run, s)
    ensures forall x :: x in s.waiting ==>
      x.addr in s0.deadline && x.deadline == Asked(run, x.addr, s0.deadline[x.addr])
    ensures s.dispatch.Holding? ==>
      && s.dispatch.timer.addr in s0.deadline
      && s.dispatch.timer.deadline == Asked(run, s.dispatch.timer.addr, s0.deadline[s.dispatch.timer.addr])
      && s.dispatch.timer.deadline <= Clock(run, 0)
  {
    hide Apply, Enabled, TimerOk, QueuedOnce, Initial;
    NoTimersYet(s0);
    InvRun(s0, run, s);
    RunClock(s0, run, s, 0);
    SameTimers(s0, run, s);
    forall t | t in s0.deadline ensures s.deadline[t] == Asked(run, t, s0.deadline[t]) {
      RunAsked(s0, run, s, t);
    }
  }

  lemma {:induction false} SameTimers(s: State, run: seq<Step>, s': State)
    requires Inv(s) && Reaches(s, run, s')
    ensures s'.deadline.Keys == s.deadline.Keys
    decreases |run|
  {
    hide Apply, Enabled, TimerOk, KeysCurrent, QueuedOnce;
    if run != [] {
      KeysKept(s, run[0]);
      InvKept(s, run[0]);
      SameTimers(Apply(s, run[0]), run[1..], s');
    }
  }

  /** The state before the last step of a run. */
  lemma {:induction false} BeforeLast(s: State, run: seq<Step>, s': State) returns (m: State)
    requires Reaches(s, run, s') && run != []
    ensures Reaches(s, run[..|run| - 1], m) && Enabled(m, run[|run| - 1]) && s' == Apply(m, run[|run| - 1])
    decreases |run|
  {
    hide Apply, Enabled;
    if |run| == 1 {
      m := s;
      assert run[..0] == [] && run[1..] == [];
    } else {
      m := BeforeLast(Apply(s, run[0]), run[1..], s');
      assert run[1..][..|run| - 2] == run[..|run| - 1][1..];
    }
  }

  /** The `i`th task given to the run queue as the expiry of `x` was given by a step of the run
      at which `x.deadline` was the deadline last asked for, and had passed on the clock. */
  ghost predicate GivenAsAsked(s0: State, run: seq<Step>, x: Ioq.Timer) {
    exists k :: 0 <= k < |run| && AskedAt(s0, run, k, x)
  }

  ghost predicate AskedAt(s0: State, run: seq<Step>, k: nat, x: Ioq.Timer)
    requires k < |run|
  {
    && run[k].ExecDue? && x.addr in s0.deadline
    && x.deadline == Asked(run[..k], x.addr, s0.deadline[x.addr]) <= Clock(run[..k], 0)
  }

  lemma {:induction false} DueAsAsked(s0: State, run: seq<Step>, s: State, i: nat)
    requires Initial(s0) && Reaches(s0, run, s) && i < |Submitted(s)| && Submitted(s)[i].Due?
    ensures GivenAsAsked(s0, run, Submitted(s)[i].timer)
    decreases |run|
  {
    hide Apply, Enabled, Submitted, Initial;
    NoTimersYet(s0);
    if run != [] {
      var n := |run| - 1;
      var m := BeforeLast(s0, run, s);
      SubmittedAfter(m, run[n]);
      var x := Submitted(s)[i].timer;
      if i < |Submitted(m)| {
        DueAsAsked(s0, run[..n], m, i);
        var k :| 0 <= k < n && AskedAt(s0, run[..n], k, x);
        assert run[..n][..k] == run[..k];
        assert AskedAt(s0, run, k, x);
      } else {
        UnderAskedDeadline(s0, run[..n], m);
        GivenNow(m, run[n]);
        assert AskedAt(s0, run, n, x);
      }
    }
  }

  lemma {:induction false} GivenNow(s: State, st: Step)
    requires Enabled(s, st) && st.ExecDue?
    ensures s.dispatch.Holding?
  {
  }

  // ------------------------------------------------------------- cancel, reschedule

  /** None of the tasks from the `n`th on is that of timer `t`, but for `e`. */
  ghost predicate OnlyEntry(s: State, n: nat, t: nat, e: Entry) {
    forall i :: n <= i < |Submitted(s)| && Addr(Submitted(s)[i]) == t ==> Submitted(s)[i] == e
  }

  /** A cancellation has taken the timer out, and has yet to clear its deadline, or to give its
      task to the run queue, or has done so. */
  ghost predicate BeingCancelled(s: State, n: nat, t: nat) {
    && t in s.deadline && OnlyEntry(s, n, t, Cancelled(t)) && n <= |Submitted(s)|
    && (s.clearing[t] == 0 ==> s.deadline[t] == 0)
    && (s.clearing[t] == 1 || s.cancelled[t] == 1 ||
        (Held(s, t) == 0 && exists i :: n <= i < |Submitted(s)| && Submitted(s)[i] == Cancelled(t)))
  }

  lemma {:induction false} CancelGoesOn(s: State, st: Step, n: nat, t: nat)
    requires Inv(s) && Enabled(s, st) && BeingCancelled(s, n, t) && !(st.Wait? && st.t == t)
    ensures BeingCancelled(Apply(s, st), n, t)
  {
    hide Submitted, Queued, Apply, Enabled, KeysCurrent, QueuedOnce, Held, SameHands;
    assert TimerOk(s, t);
    SubmittedAfter(s, st);
    if Moves(s, st, t) {
      CancelMoves(s, st, n, t);
    } else {
      HeldStill(s, st, t);
      CancelStill(s, st, t);
      var u, u' := Submitted(s), Submitted(Apply(s, st));
      if i :| n <= i < |u| && u[i] == Cancelled(t) {
        assert u'[i] == Cancelled(t);
      }
    }
  }

  /** A step about another timer. */
  lemma {:induction false} CancelStill(s: State, st: Step, t: nat)
    requires Enabled(s, st) && t in s.deadline && !Moves(s, st, t)
    ensures var s' := Apply(s, st);
      && t in s'.deadline && s'.deadline[t] == s.deadline[t] && s'.clearing[t] == s.clearing[t]
      && s'.cancelled[t] == s.cancelled[t] && (SameHands(s, s', t) ==> Held(s', t) == Held(s, t))
    ensures st.ExecDue? ==> s.dispatch.timer.addr != t
    ensures st.Exec? ==> st.t != t
  {
    hide Queued, Ioq.First, Held;
  }

  /** The two steps of the cancelling thread; no other thread has the timer. */
  lemma {:induction false} CancelMoves(s: State, st: Step, n: nat, t: nat)
    requires Inv(s) && Enabled(s, st) && BeingCancelled(s, n, t) && Moves(s, st, t) && !st.Wait?
    ensures BeingCancelled(Apply(s, st), n, t)
  {
    hide Queued, KeysCurrent, QueuedOnce, Submitted;
    assert TimerOk(s, t);
    SubmittedAfter(s, st);
    var u, u' := Submitted(s), Submitted(Apply(s, st));
    if st == Exec(t) {
      assert u'[|u|] == Cancelled(t);
    } else {
      assert u' == u;
    }
  }

  lemma {:induction false} CancelRun(s: State, run: seq<Step>, s': State, n: nat, t: nat)
    requires Inv(s) && BeingCancelled(s, n, t) && Reaches(s, run, s') && NoWaitOf(run, t)
    ensures Inv(s') && BeingCancelled(s', n, t)
    decreases |run|
  {
    hide Inv, BeingCancelled, Apply, Enabled;
    if run != [] {
      InvKept(s, run[0]);
      CancelGoesOn(s, run[0], n, t);
      CancelRun(Apply(s, run[0]), run[1..], s', n, t);
    }
  }

  predicate NoWaitOf(run: seq<Step>, t: nat) { forall i :: 0 <= i < |run| ==> !(run[i].Wait? && run[i].t == t) }

  /** A cancellation of a waiting timer: the timer is not waiting any more, and its task does not
      come as an expiry. When the wait has been answered, it has been by the cancellation, and
      the timer reads as cancelled. */
  lemma {:induction false} CancelAnswers(s0: State, before: seq<Step>, s: State, t: nat, run: seq<Step>, s': State)
    requires Initial(s0) && Reaches(s0, before, s) && Enabled(s, Cancel(t)) && KeyOf(s, t) in s.waiting
    requires Reaches(Apply(s, Cancel(t)), run, s') && NoWaitOf(run, t)
    ensures t in s'.deadline && forall x :: x in s'.waiting ==> x.addr != t
    ensures OnlyEntry(s', |Submitted(s)|, t, Cancelled(t))
    ensures s'.waits[t] == s'.execs[t] ==>
      s'.deadline[t] == 0 && exists i :: |Submitted(s)| <= i < |Submitted(s')| && Submitted(s')[i] == Cancelled(t)
  {
    hide Submitted, Initial, Queued, QueuedOnce;
    InvInitial(s0);
    InvRun(s0, before, s);
    assert TimerOk(s, t);
    var s1 := Apply(s, Cancel(t));
    InvKept(s, Cancel(t));
    SubmittedAfter(s, Cancel(t));
    assert BeingCancelled(s1, |Submitted(s)|, t);
    CancelRun(s1, run, s', |Submitted(s)|, t);
    assert TimerOk(s', t);
    assert KeyOf(s', t) !in s'.waiting;
    NotInSet(s', t);
  }

  /** A rescheduling has taken the timer out and has not put it back. */
  ghost predicate BeingMoved(s: State, n: nat, t: nat) {
    && t in s.deadline && s.moving[t] + s.adding[t] == 1 && n <= |Submitted(s)|
    && forall i :: n <= i < |Submitted(s)| ==> Addr(Submitted(s)[i]) != t
  }

  lemma {:induction false} MoveGoesOn(s: State, st: Step, n: nat, t: nat)
    requires Inv(s) && Enabled(s, st) && BeingMoved(s, n, t) && st != Add(t)
    ensures BeingMoved(Apply(s, st), n, t)
  {
    hide Queued, KeysCurrent, QueuedOnce, Submitted, Apply, Enabled;
    assert TimerOk(s, t);
    SubmittedAfter(s, st);
    if Moves(s, st, t) {
      MoveMoves(s, st, t);
    } else {
      MoveStill(s, st, t);
    }
  }

  /** A step about another timer. */
  lemma {:induction false} MoveStill(s: State, st: Step, t: nat)
    requires Enabled(s, st) && t in s.deadline && !Moves(s, st, t)
    ensures var s' := Apply(s, st);
      t in s'.deadline && s'.moving[t] == s.moving[t] && s'.adding[t] == s.adding[t]
    ensures st.ExecDue? ==> s.dispatch.timer.addr != t
    ensures st.Exec? ==> st.t != t
  {
    hide Queued, Ioq.First;
  }

  /** Of the steps about this one only the rescheduling thread's can be taken. */
  lemma {:induction false} MoveMoves(s: State, st: Step, t: nat)
    requires Enabled(s, st) && t in s.deadline && Moves(s, st, t) && st != Add(t)
    requires TimerOk(s, t) && s.moving[t] + s.adding[t] == 1
    ensures var s' := Apply(s, st); t in s'.deadline && s'.moving[t] + s'.adding[t] == 1
    ensures !st.ExecDue? && !st.Exec?
  {
    hide Queued;
  }

  lemma {:induction false} MoveRun(s: State, run: seq<Step>, s': State, n: nat, t: nat)
    requires Inv(s) && BeingMoved(s, n, t) && Reaches(s, run, s') && forall i :: 0 <= i < |run| ==> run[i] != Add(t)
    ensures Inv(s') && BeingMoved(s', n, t)
    decreases |run|
  {
    hide Inv, BeingMoved, Apply, Enabled;
    if run != [] {
      InvKept(s, run[0]);
      MoveGoesOn(s, run[0], n, t);
      MoveRun(Apply(s, run[0]), run[1..], s', n, t);
    }
  }

  /** A rescheduling of a waiting timer: until it is added again, which is under the deadline
      asked for, the timer is not waiting, and its task is not given to the run queue. */
  lemma {:induction false} RescheduleHolds(s0: State, before: seq<Step>, s: State, t: nat, run: seq<Step>, s': State)
    requires Initial(s0) && Reaches(s0, before, s) && Enabled(s, Reschedule(t)) && KeyOf(s, t) in s.waiting
    requires Reaches(Apply(s, Reschedule(t)), run, s') && forall i :: 0 <= i < |run| ==> run[i] != Add(t)
    ensures t in s'.deadline && s'.moving[t] + s'.adding[t] == 1 && forall x :: x in s'.waiting ==> x.addr != t
    ensures forall i :: |Submitted(s)| <= i < |Submitted(s')| ==> Addr(Submitted(s')[i]) != t
  {
    hide Submitted, Initial, Queued, QueuedOnce;
    InvInitial(s0);
    InvRun(s0, before, s);
    assert TimerOk(s, t);
    InvKept(s, Reschedule(t));
    SubmittedAfter(s, Reschedule(t));
    MoveRun(Apply(s, Reschedule(t)), run, s', |Submitted(s)|, t);
    assert TimerOk(s', t);
    assert KeyOf(s', t) !in s'.waiting;
    NotInSet(s', t);
  }
}
