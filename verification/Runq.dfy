/** The thread pool of io/runq.c with the events of io/thr.c, as a transition
    system without quit requests. Raising an event and signalling its condition
    variable are separate steps. */
module Runq {
  import opened Sequences

  type Task = nat

  /** Where a worker is: about to test its event, asleep on the condition variable,
      woken and about to clear the event, emptying the job list, or in a task. */
  datatype Pc = Testing | Asleep | Clearing | Draining | Running(task: Task)

  datatype Worker = Worker(pc: Pc, event: bool)

  /** A call of `runq_task_exec` that found the list empty, on its way through the
      workers: it raises the event of `next`, or signals `next`. */
  datatype Raiser = Raising(next: nat) | Signalling(next: nat)

  /** `calling` are the tasks that callers of `runq_dispatch` are in. */
  datatype State = State(workers: seq<Worker>, jobs: seq<Task>, raisers: seq<Raiser>, calling: multiset<Task>,
                         submitted: seq<Task>, popped: seq<Task>, finished: multiset<Task>)

  /** A task may be submitted again once it has left the list ("limited subscription"
      in AsyncIntro.txt). */
  datatype Step =
    | Test(w: nat) | Clear(w: nat) | RunOne(w: nat) | Return(w: nat) | Wakeup(w: nat)
    | Submit(task: Task) | Raise(k: nat) | Dispatch | DispatchReturn(task: Task)

  predicate Enabled(s: State, st: Step)
  {
    match st
    case Test(w) => w < |s.workers| && s.workers[w].pc.Testing?
    case Clear(w) => w < |s.workers| && s.workers[w].pc.Clearing?
    case RunOne(w) => w < |s.workers| && s.workers[w].pc.Draining?
    case Return(w) => w < |s.workers| && s.workers[w].pc.Running?
    case Wakeup(w) => w < |s.workers| && s.workers[w].pc.Asleep?
    case Submit(t) => t !in s.jobs
    case Raise(k) => k < |s.raisers| && s.raisers[k].next < |s.workers|
    case Dispatch => s.jobs != []
    case DispatchReturn(t) => s.calling[t] > 0
  }

  /** The next worker of a raiser, if there is one. */
  function Onward(s: State, k: nat): seq<Raiser>
    requires k < |s.raisers|
  {
    var i := s.raisers[k].next + 1;
    if i < |s.workers| then s.raisers[k := Raising(i)] else s.raisers[..k] + s.raisers[k + 1..]
  }

  function Apply(s: State, st: Step): State
    requires Enabled(s, st)
  {
    match st
    case Test(w) => s.(workers := s.workers[w := s.workers[w].(pc := if s.workers[w].event then Clearing else Asleep)])
    case Clear(w) => s.(workers := s.workers[w := Worker(Draining, false)])
    case RunOne(w) =>
      if s.jobs == [] then s.(workers := s.workers[w := s.workers[w].(pc := Testing)])
      else s.(workers := s.workers[w := s.workers[w].(pc := Running(s.jobs[0]))],
             jobs := s.jobs[1..], popped := s.popped + [s.jobs[0]])
    case Return(w) =>
      s.(workers := s.workers[w := s.workers[w].(pc := Draining)],
         finished := s.finished + multiset{s.workers[w].pc.task})
    case Wakeup(w) => s.(workers := s.workers[w := s.workers[w].(pc := Testing)])
    case Submit(t) =>
      s.(jobs := s.jobs + [t], submitted := s.submitted + [t],
         raisers := if s.jobs == [] && s.workers != [] then s.raisers + [Raising(0)] else s.raisers)
    case Raise(k) => RaiseStep(s, k)
    case Dispatch =>
      s.(jobs := s.jobs[1..], popped := s.popped + [s.jobs[0]], calling := s.calling + multiset{s.jobs[0]})
    case DispatchReturn(t) => s.(calling := s.calling - multiset{t}, finished := s.finished + multiset{t})
  }

  /** `thr_event_raise`: the signal follows only if the event was not raised. */
  function RaiseStep(s: State, k: nat): State
    requires k < |s.raisers| && s.raisers[k].next < |s.workers|
  {
    var w := s.raisers[k].next;
    if s.raisers[k].Signalling? then
      s.(raisers := Onward(s, k),
         workers := if s.workers[w].pc.Asleep? then s.workers[w := s.workers[w].(pc := Testing)] else s.workers)
    else
      s.(raisers := if s.workers[w].event then Onward(s, k) else s.raisers[k := Signalling(w)],
         workers := s.workers[w := s.workers[w].(event := true)])
  }

  predicate Initial(s: State) {
    && (forall w :: 0 <= w < |s.workers| ==> s.workers[w] == Worker(Testing, false))
    && s.jobs == [] && s.raisers == [] && s.submitted == [] && s.popped == []
    && s.calling == multiset{} && s.finished == multiset{}
  }

  predicate Reaches(s: State, run: seq<Step>, s': State)
    decreases |run|
  {
    if run == [] then s' == s else Enabled(s, run[0]) && Reaches(Apply(s, run[0]), run[1..], s')
  }

  // --------------------------------------------------------------- invariants

  predicate Coming(r: Raiser, w: nat) { (r.Raising? && r.next <= w) || (r.Signalling? && r.next < w) }

  /** Some raiser has yet to raise the event of worker `w`. */
  ghost predicate RaiseComing(s: State, w: nat) { exists k :: 0 <= k < |s.raisers| && Coming(s.raisers[k], w) }

  /** Some raiser is about to signal worker `w`. */
  ghost predicate SignalComing(s: State, w: nat) { exists k :: 0 <= k < |s.raisers| && s.raisers[k] == Signalling(w) }

  /** The worker will look at the job list before it sleeps. */
  predicate Active(x: Worker) { x.pc.Clearing? || x.pc.Draining? || x.pc.Running? }

  ghost predicate Attended(s: State, w: nat)
    requires w < |s.workers|
  {
    Active(s.workers[w]) || s.workers[w].event || RaiseComing(s, w)
  }

  ghost predicate AllAttended(s: State) { s.jobs != [] ==> forall w :: 0 <= w < |s.workers| ==> Attended(s, w) }

  /** A worker that sleeps although its event is raised is about to be signalled. */
  ghost predicate NoMissedSignal(s: State) {
    forall w :: 0 <= w < |s.workers| && s.workers[w].pc.Asleep? && s.workers[w].event ==> SignalComing(s, w)
  }

  ghost predicate Inv(s: State) {
    && AllAttended(s) && NoMissedSignal(s) && s.submitted == s.popped + s.jobs && Once(s.jobs)
    && forall k :: 0 <= k < |s.raisers| ==> s.raisers[k].next < |s.workers|
  }

  /** Raisers other than `k` stay; `k` moves on to the workers after it. */
  lemma {:induction false} OnwardKeeps(s: State, k: nat, r: Raiser)
    requires k < |s.raisers| && s.raisers[k].next < |s.workers| && r in s.raisers && r != s.raisers[k]
    ensures r in Onward(s, k)
  {
    var j :| 0 <= j < |s.raisers| && s.raisers[j] == r;
    var o := Onward(s, k);
    if s.raisers[k].next + 1 < |s.workers| {
      assert o[j] == r;
    } else {
      assert o[if j < k then j else j - 1] == r;
    }
  }

  lemma {:induction false} OnwardComing(s: State, k: nat, w: nat)
    requires k < |s.raisers| && s.raisers[k].next < |s.workers| && w < |s.workers| && RaiseComing(s, w)
    requires w != s.raisers[k].next
    ensures exists j :: 0 <= j < |Onward(s, k)| && Coming(Onward(s, k)[j], w)
  {
    var j :| 0 <= j < |s.raisers| && Coming(s.raisers[j], w);
    var o, i := Onward(s, k), s.raisers[k].next + 1;
    if s.raisers[j] == s.raisers[k] {
      assert i <= w && o == s.raisers[k := Raising(i)];
      assert Coming(o[k], w);
    } else {
      assert s.raisers[j] in s.raisers;
      OnwardKeeps(s, k, s.raisers[j]);
      assert s.raisers[j] in o;
    }
  }

  lemma {:induction false} RaiseAttends(s: State, k: nat)
    requires Inv(s) && Enabled(s, Raise(k))
    ensures AllAttended(RaiseStep(s, k))
  {
    var s', x := RaiseStep(s, k), s.raisers[k].next;
    if s.jobs != [] {
      forall w | 0 <= w < |s'.workers| ensures Attended(s', w) {
        assert Attended(s, w);
        if RaiseComing(s, w) && w != x {
          if s.raisers[k].Signalling? || s.workers[x].event {
            OnwardComing(s, k, w);
          } else {
            var j :| 0 <= j < |s.raisers| && Coming(s.raisers[j], w);
            assert Coming(s'.raisers[j], w);
          }
        } else if RaiseComing(s, w) && s.raisers[k].Signalling? {
          var j :| 0 <= j < |s.raisers| && Coming(s.raisers[j], w);
          assert s.raisers[j] in s.raisers;
          OnwardKeeps(s, k, s.raisers[j]);
          assert s.raisers[j] in s'.raisers;
        }
      }
    }
  }

  lemma {:induction false} RaiseSignals(s: State, k: nat)
    requires Inv(s) && Enabled(s, Raise(k))
    ensures NoMissedSignal(RaiseStep(s, k))
    ensures forall j :: 0 <= j < |RaiseStep(s, k).raisers| ==> RaiseStep(s, k).raisers[j].next < |s.workers|
  {
    var s', x := RaiseStep(s, k), s.raisers[k].next;
    forall w | 0 <= w < |s'.workers| && s'.workers[w].pc.Asleep? && s'.workers[w].event ensures SignalComing(s', w) {
      if w == x && s.raisers[k].Raising? && !s.workers[x].event {
        assert s'.raisers[k] == Signalling(w);
      } else {
        var j :| 0 <= j < |s.raisers| && s.raisers[j] == Signalling(w);
        if s.raisers[k].Signalling? || s.workers[x].event {
          assert Signalling(w) in s.raisers;
          OnwardKeeps(s, k, Signalling(w));
          assert Signalling(w) in s'.raisers;
        } else {
          assert s'.raisers[j] == Signalling(w);
        }
      }
    }
  }

  /** A submission to an empty list sets out to every worker. */
  lemma {:induction false} SubmitAttends(s: State, t: Task)
    requires Inv(s) && Enabled(s, Submit(t))
    ensures AllAttended(Apply(s, Submit(t))) && NoMissedSignal(Apply(s, Submit(t)))
  {
    var s' := Apply(s, Submit(t));
    forall w | 0 <= w < |s'.workers| ensures Attended(s', w) {
      if s.jobs == [] {
        assert Coming(s'.raisers[|s.raisers|], w);
      } else {
        assert Attended(s, w);
      }
    }
    forall w | 0 <= w < |s'.workers| && s'.workers[w].pc.Asleep? && s'.workers[w].event ensures SignalComing(s', w) {
      var j :| 0 <= j < |s.raisers| && s.raisers[j] == Signalling(w);
      assert s'.raisers[j] == Signalling(w);
    }
  }

  lemma {:induction false} WorkerKeeps(s: State, st: Step)
    requires Inv(s) && Enabled(s, st) && !st.Submit? && !st.Raise?
    ensures Inv(Apply(s, st))
  {
    hide AllAttended, NoMissedSignal;
    var s' := Apply(s, st);
    WorkerAttends(s, st);
    WorkerSignals(s, st);
    if s'.jobs != s.jobs {
      assert s.jobs == [s.jobs[0]] + s.jobs[1..];
    }
  }

  lemma {:induction false} WorkerAttends(s: State, st: Step)
    requires AllAttended(s) && Enabled(s, st) && !st.Submit? && !st.Raise?
    ensures AllAttended(Apply(s, st))
  {
    var s' := Apply(s, st);
    assert s'.raisers == s.raisers;
    if s'.jobs != [] {
      forall w | 0 <= w < |s'.workers| ensures Attended(s', w) {
        assert Attended(s, w);
        assert RaiseComing(s', w) <==> RaiseComing(s, w);
      }
    }
  }

  lemma {:induction false} WorkerSignals(s: State, st: Step)
    requires NoMissedSignal(s) && Enabled(s, st) && !st.Submit? && !st.Raise?
    ensures NoMissedSignal(Apply(s, st))
  {
    var s' := Apply(s, st);
    assert s'.raisers == s.raisers;
    forall w | 0 <= w < |s'.workers| && s'.workers[w].pc.Asleep? && s'.workers[w].event ensures SignalComing(s', w) {
      assert SignalComing(s, w);
    }
  }

  lemma {:induction false} InvKept(s: State, st: Step)
    requires Inv(s) && Enabled(s, st)
    ensures Inv(Apply(s, st))
  {
    if st.Submit? {
      SubmitAttends(s, st.task);
    } else if st.Raise? {
      RaiseAttends(s, st.k);
      RaiseSignals(s, st.k);
    } else {
      WorkerKeeps(s, st);
    }
  }

  lemma {:induction false} InvRun(s: State, run: seq<Step>, s': State)
    requires Inv(s) && Reaches(s, run, s')
    ensures Inv(s')
    decreases |run|
  {
    hide Inv, Apply, Enabled;
    if run != [] {
      InvKept(s, run[0]);
      InvRun(Apply(s, run[0]), run[1..], s');
    }
  }

  /** In every run: while there are jobs, each worker will look at the list, has its
      event raised or is about to have it raised, and none sleeps without a raise
      or a signal on its way; and tasks leave in the order in which they came, each
      once. */
  lemma {:induction false} PoolAwake(s0: State, run: seq<Step>, s: State)
    requires Initial(s0) && Reaches(s0, run, s)
    ensures s.submitted == s.popped + s.jobs && Once(s.jobs)
    ensures s.jobs != [] ==> forall w :: 0 <= w < |s.workers| ==> Attended(s, w)
    ensures s.jobs != [] && s.raisers == [] ==> forall w :: 0 <= w < |s.workers| ==> !s.workers[w].pc.Asleep?
  {
    InvRun(s0, run, s);
    if s.jobs != [] && s.raisers == [] {
      forall w | 0 <= w < |s.workers| ensures !s.workers[w].pc.Asleep? {
        assert Attended(s, w) && !RaiseComing(s, w);
      }
    }
  }

  // --------------------------------------------------------- each task is called once

  /** The number of workers that are in task `t`. */
  function InWorkers(ws: seq<Worker>, t: Task): nat {
    if ws == [] then 0 else (if ws[0].pc == Running(t) then 1 else 0) + InWorkers(ws[1..], t)
  }

  lemma {:induction false} InWorkersUpdate(ws: seq<Worker>, w: nat, x: Worker, t: Task)
    requires w < |ws|
    ensures InWorkers(ws[w := x], t) ==
      InWorkers(ws, t) + (if x.pc == Running(t) then 1 else 0) - (if ws[w].pc == Running(t) then 1 else 0)
  {
    if w == 0 {
      assert ws[0 := x][1..] == ws[1..];
    } else {
      InWorkersUpdate(ws[1..], w - 1, x, t);
      assert ws[w := x][1..] == ws[1..][w - 1 := x];
    }
  }

  lemma {:induction false} NoneRunning(ws: seq<Worker>, t: Task)
    requires forall w :: 0 <= w < |ws| ==> !ws[w].pc.Running?
    ensures InWorkers(ws, t) == 0
  {
    if ws != [] {
      NoneRunning(ws[1..], t);
    }
  }

  /** A task that has left the list is in a worker, or in a caller of `runq_dispatch`, or has
      been called and has returned; and nothing else has. */
  ghost predicate Accounted(s: State, t: Task) {
    multiset(s.popped)[t] == s.finished[t] + InWorkers(s.workers, t) + s.calling[t]
  }

  lemma {:induction false} PoppedOne(popped: seq<Task>, j: Task, t: Task)
    ensures multiset(popped + [j])[t] == multiset(popped)[t] + (if j == t then 1 else 0)
  {
  }

  lemma {:induction false} AccountedKept(s: State, st: Step, t: Task)
    requires Accounted(s, t) && Enabled(s, st)
    ensures Accounted(Apply(s, st), t)
  {
    hide InWorkers;
    var s' := Apply(s, st);
    if s.jobs != [] {
      PoppedOne(s.popped, s.jobs[0], t);
    }
    match st
    case Submit(_) =>
    case Dispatch =>
    case DispatchReturn(_) =>
    case RunOne(w) => InWorkersUpdate(s.workers, w, s'.workers[w], t);
    case Return(w) => InWorkersUpdate(s.workers, w, s'.workers[w], t);
    case Test(w) => InWorkersUpdate(s.workers, w, s'.workers[w], t);
    case Clear(w) => InWorkersUpdate(s.workers, w, s'.workers[w], t);
    case Wakeup(w) => InWorkersUpdate(s.workers, w, s'.workers[w], t);
    case Raise(k) => RaiseAccounted(s, k, t);
  }

  lemma {:induction false} RaiseAccounted(s: State, k: nat, t: Task)
    requires Accounted(s, t) && Enabled(s, Raise(k))
    ensures Accounted(RaiseStep(s, k), t)
  {
    hide InWorkers, Onward;
    var w, s' := s.raisers[k].next, RaiseStep(s, k);
    InWorkersUpdate(s.workers, w, s'.workers[w], t);
    assert s'.workers == s.workers[w := s'.workers[w]];
  }

  lemma {:induction false} AccountedRun(s: State, run: seq<Step>, s': State, t: Task)
    requires Accounted(s, t) && Reaches(s, run, s')
    ensures Accounted(s', t)
    decreases |run|
  {
    hide Accounted, Apply, Enabled;
    if run != [] {
      AccountedKept(s, run[0], t);
      AccountedRun(Apply(s, run[0]), run[1..], s', t);
    }
  }

  /** In every run, task by task: it has been submitted as often as it is in the list, is being
      called by a worker or a dispatcher, and has returned. */
  lemma {:induction false} EachTaskCalledOnce(s0: State, run: seq<Step>, s: State, t: Task)
    requires Initial(s0) && Reaches(s0, run, s)
    ensures multiset(s.submitted)[t] ==
      multiset(s.jobs)[t] + InWorkers(s.workers, t) + s.calling[t] + s.finished[t]
  {
    hide Apply, Enabled;
    NoneRunning(s0.workers, t);
    AccountedRun(s0, run, s, t);
    PoolAwake(s0, run, s);
    assert multiset(s.popped + s.jobs)[t] == multiset(s.popped)[t] + multiset(s.jobs)[t];
  }

  // ------------------------------------------------------------ events are used up

  predicate Raises(s: State, st: Step, w: nat) { st.Raise? && st.k < |s.raisers| && s.raisers[st.k].next == w }

  ghost predicate Unraised(s: State, run: seq<Step>, w: nat)
    decreases |run|
  {
    run != [] ==> Enabled(s, run[0]) && !Raises(s, run[0], w) && Unraised(Apply(s, run[0]), run[1..], w)
  }

  /** The worker is about to clear its event, or it has been cleared. */
  predicate EventGone(s: State, w: nat) {
    w < |s.workers| && (s.workers[w].pc.Clearing? || !s.workers[w].event)
  }

  lemma {:induction false} EventStaysGone(s: State, st: Step, w: nat)
    requires Enabled(s, st) && EventGone(s, w) && !Raises(s, st, w)
    ensures EventGone(Apply(s, st), w)
  {
    hide Onward;
  }

  /** A raise wakes a worker once: after it has cleared its event and found no more jobs it goes
      to sleep, unless its event has been raised again. */
  lemma {:induction false} EventUsedUp(s: State, run: seq<Step>, s': State, w: nat)
    requires EventGone(s, w) && Reaches(s, run, s') && Unraised(s, run, w)
    ensures w < |s'.workers| && (s'.workers[w].pc.Testing? ==>
      Enabled(s', Test(w)) && Apply(s', Test(w)).workers[w].pc.Asleep?)
    decreases |run|
  {
    hide Raises;
    if run != [] {
      EventStaysGone(s, run[0], w);
      EventUsedUp(Apply(s, run[0]), run[1..], s', w);
    }
  }
}
