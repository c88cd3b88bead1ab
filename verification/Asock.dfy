/** The multiplexing protocol of io/asock_posix.c: several operations share one
    `ioq_fd`, and their callbacks share one dispatch task. Each region under
    `wait_lock` or `dispatch_lock` is one step. That an `ioq_fd` wait leads to one
    call of `wait_end` is the promise of io/ioq_linux.c. */
module Asock {
  import opened Sequences
  import Ioq

  datatype Op = Connect | Accept | Send | Recv | Cancel

  datatype State = State(
    ops: set<Op>,             // wait_ops
    waits: nat,               // calls of ioq_fd_wait whose wait_end has not taken the lock
    transit: seq<set<Op>>,    // calls of dispatch_push that have not taken the lock
    queue: set<Op>,           // dispatch_queue
    execs: nat,               // calls of runq_task_exec for the dispatch task not yet made
    tasks: nat,               // times the dispatch task is in the run queue
    entered: nat,             // dispatch_func called, lock not yet taken
    hands: seq<set<Op>>,      // what each running dispatch_func has left to call
    sock: bool,               // t->sock >= 0
    open: bool,               // the current descriptor is open
    closing: bool,            // asock_close is about to close it itself, and has not returned
    opens: nat,               // descriptors obtained from the system
    closes: nat,              // calls of close()
    started: multiset<Op>, called: multiset<Op>)

  /** How the socket is used: whether it may be connected or set to listen again
      while operations are still pending, which io/asock.h does not rule out. */
  datatype Use = Use(reopen: bool)

  datatype Step =
    | Open
    | Start(op: Op, direct: bool)
    | WaitEnd(ready: Ioq.Mask, done: set<Op>, error: bool)
    | Push(i: nat)
    | Exec
    | TaskStart
    | Take
    | Call(i: nat, op: Op)
    | CloseBegin
    | CloseDirect

  function CountIn(s: seq<set<Op>>, op: Op): nat {
    if s == [] then 0 else (if op in s[0] then 1 else 0) + CountIn(s[1..], op)
  }

  /** How many started operations `op` have not been called back. */
  function Pending(s: State, op: Op): nat {
    (if op in s.ops then 1 else 0) + CountIn(s.transit, op) + (if op in s.queue then 1 else 0) + CountIn(s.hands, op)
  }

  /** The rule of io/asock.h: one operation of each kind at a time, and no connect
      together with an accept. */
  predicate MayStart(s: State, op: Op) {
    && op != Cancel && s.started[op] == s.called[op]
    && (op == Connect ==> s.started[Accept] == s.called[Accept])
    && (op == Accept ==> s.started[Connect] == s.called[Connect])
  }

  /** `dispatch_func` calls back connect or accept first, then send, then receive. */
  predicate NextCall(hand: set<Op>, op: Op) {
    && op in hand
    && match op {
         case Connect => true
         case Accept => true
         case Send => Connect !in hand && Accept !in hand
         case Recv => Connect !in hand && Accept !in hand && Send !in hand
         case Cancel => false
       }
  }

  /** The events on which `wait_connect`, `wait_accept`, `wait_send` and `wait_recv` make their
      system call, or find the end of the stream. Connecting is tried on every event. */
  function Guard(op: Op): Ioq.Mask {
    match op
    case Connect => {Ioq.In, Ioq.Out, Ioq.Err, Ioq.Hup}
    case Accept => {Ioq.In, Ioq.Out, Ioq.Err}
    case Send => {Ioq.Out, Ioq.Err}
    case Recv => {Ioq.In, Ioq.Hup}
    case Cancel => {}
  }

  /** The operation gets its chance. */
  predicate Tried(op: Op, ready: Ioq.Mask) { op == Connect || Guard(op) * ready != {} }

  /** Which operations can get through: those that are tried, as the system calls answer. A
      hang-up ends a receive in any case. */
  predicate Outcome(ops: set<Op>, ready: Ioq.Mask, done: set<Op>) {
    (forall op :: op in done ==> Tried(op, ready)) && (Recv in ops && Ioq.Hup in ready ==> Recv in done)
  }

  predicate Enabled(u: Use, s: State, st: Step)
  {
    match st
    case Open => !s.closing && (s.ops == {} || u.reopen)
    case Start(op, direct) => !s.closing && MayStart(s, op) && (if s.sock then direct ==> op == Connect else direct)
    case WaitEnd(ready, done, error) => s.waits > 0 && done <= s.ops - {Cancel} && Outcome(s.ops, ready, done)
    case Push(i) => i < |s.transit|
    case Exec => s.execs > 0
    case TaskStart => s.tasks > 0
    case Take => s.entered > 0
    case Call(i, op) => i < |s.hands| && NextCall(s.hands[i], op)
    case CloseBegin => s.sock
    case CloseDirect => s.closing
  }

  function Apply(u: Use, s: State, st: Step): State
    requires Enabled(u, s, st)
  {
    match st
    case Open => OpenStep(s)
    case Start(op, direct) => StartStep(s, op, direct)
    case WaitEnd(ready, done, error) => WaitEndStep(s, done, error)
    case Push(i) =>
      s.(transit := Without(s.transit, i), queue := s.queue + s.transit[i],
         execs := s.execs + (if s.queue == {} && s.transit[i] != {} then 1 else 0))
    case Exec => s.(execs := s.execs - 1, tasks := s.tasks + 1)
    case TaskStart => s.(tasks := s.tasks - 1, entered := s.entered + 1)
    case Take => s.(entered := s.entered - 1, hands := s.hands + [s.queue], queue := {})
    case Call(i, op) =>
      s.(hands := s.hands[i := s.hands[i] - (if op == Connect || op == Accept then {Connect, Accept} else {op})],
         called := s.called + multiset{op})
    case CloseBegin =>
      if s.ops == {} then s.(sock := false, closing := true) else s.(sock := false, ops := s.ops + {Cancel})
    case CloseDirect => s.(closing := false, open := false, closes := s.closes + 1)
  }

  /** A new descriptor, for `asock_connect` or `asock_listen`: one that the socket
      still has is closed, and `wait_init` clears `wait_ops`. */
  function OpenStep(s: State): State {
    s.(sock := true, open := true, opens := s.opens + 1, closes := s.closes + (if s.sock then 1 else 0), ops := {})
  }

  /** An operation begins: `wait_begin`, or at once `dispatch_push` without a socket
      and when connecting fails immediately. */
  function StartStep(s: State, op: Op, direct: bool): State {
    var s' := s.(started := s.started + multiset{op});
    if direct then s'.(transit := s.transit + [{op}])
    else s'.(ops := s.ops + {op}, waits := s.waits + (if s.ops == {} then 1 else 0))
  }

  /** The locked part of `wait_end`: which operations got through is up to the kernel. */
  function WaitEndStep(s: State, done: set<Op>, error: bool): State
    requires s.waits > 0
  {
    if Cancel in s.ops || error then
      s.(waits := s.waits - 1, ops := {}, transit := if s.ops == {} then s.transit else s.transit + [s.ops],
         open := s.open && Cancel !in s.ops, closes := s.closes + (if Cancel in s.ops then 1 else 0))
    else
      var left := s.ops - done;
      s.(waits := s.waits - 1 + (if left == {} then 0 else 1), ops := left,
         transit := if done == {} then s.transit else s.transit + [done])
  }

  predicate Initial(s: State) {
    s == State({}, 0, [], {}, 0, 0, 0, [], false, false, false, 0, 0, multiset{}, multiset{})
  }

  predicate Reaches(u: Use, s: State, run: seq<Step>, s': State)
    decreases |run|
  {
    if run == [] then s' == s else Enabled(u, s, run[0]) && Reaches(u, Apply(u, s, run[0]), run[1..], s')
  }

  // --------------------------------------------------------------- invariants

  /** Every started operation is in one place. */
  ghost predicate Conserved(s: State)
  {
    true == (
      && (forall op :: op != Cancel ==> s.started[op] == s.called[op] + Pending(s, op) && Pending(s, op) <= 1)
      && Pending(s, Connect) + Pending(s, Accept) <= 1)
  }

  /** `wait_ops` is non-zero exactly while a wait is outstanding, and then it is one;
      the cancel bit never stands alone. */
  ghost predicate OneWait(s: State) {
    s.waits == (if s.ops == {} then 0 else 1) && (Cancel in s.ops ==> s.ops != {Cancel})
  }

  /** The dispatch task is on its way exactly while the queue is not empty, and then
      once. */
  ghost predicate OneTask(s: State) {
    && s.execs + s.tasks + s.entered == (if s.queue == {} then 0 else 1)
    && (forall i :: 0 <= i < |s.transit| ==> s.transit[i] != {})
  }

  /** Of a closed socket the descriptor is closed, or exactly one party will close it. */
  ghost predicate OneClose(s: State)
  {
    true == (
      && s.opens == s.closes + (if s.open then 1 else 0) && (s.sock ==> s.open && !s.closing && Cancel !in s.ops)
      && (s.closing ==> s.open && s.ops == {}) && (Cancel in s.ops ==> s.open)
      && (s.open && !s.sock ==> s.closing || Cancel in s.ops)
      && (!s.sock && Cancel !in s.ops ==> s.ops == {}))
  }

  ghost predicate Inv(s: State) { Conserved(s) && OneWait(s) && OneTask(s) && OneClose(s) }

  lemma {:induction false} CountAppend(s: seq<set<Op>>, x: set<Op>, op: Op)
    ensures CountIn(s + [x], op) == CountIn(s, op) + (if op in x then 1 else 0)
  {
    if s != [] {
      CountAppend(s[1..], x, op);
      assert (s + [x])[1..] == s[1..] + [x];
    }
  }

  lemma {:induction false} CountWithout(s: seq<set<Op>>, i: nat, op: Op)
    requires i < |s|
    ensures CountIn(s, op) == CountIn(Without(s, i), op) + (if op in s[i] then 1 else 0)
  {
    if i == 0 {
      assert Without(s, 0) == s[1..];
    } else {
      CountWithout(s[1..], i - 1, op);
      assert Without(s, i)[1..] == Without(s[1..], i - 1);
    }
  }

  lemma {:induction false} CountUpdate(s: seq<set<Op>>, i: nat, x: set<Op>, op: Op)
    requires i < |s|
    ensures CountIn(s[i := x], op) == CountIn(s, op) - (if op in s[i] then 1 else 0) + (if op in x then 1 else 0)
  {
    if i > 0 {
      CountUpdate(s[1..], i - 1, x, op);
      assert s[i := x][1..] == s[1..][i - 1 := x];
    } else {
      assert s[i := x][1..] == s[1..];
    }
  }

  lemma {:induction false} CountMember(s: seq<set<Op>>, i: nat, op: Op)
    requires i < |s| && op in s[i]
    ensures CountIn(s, op) >= 1
  {
    if i > 0 {
      CountMember(s[1..], i - 1, op);
    }
  }

  /** How a step changes what is pending. */
  lemma {:induction false} PendingAfter(u: Use, s: State, st: Step, op: Op)
    requires Conserved(s) && Enabled(u, s, st) && op != Cancel
    requires !u.reopen
    ensures Pending(Apply(u, s, st), op) ==
      Pending(s, op) + (if st.Start? && st.op == op then 1 else 0) - (if st.Call? && st.op == op then 1 else 0)
  {
    hide Pending, Conserved, CountIn, MayStart, NextCall;
    match st
    case Start(_, _) => StartPending(u, s, st, op);
    case WaitEnd(_, _, _) => WaitEndPending(u, s, st, op);
    case Push(_) => PushPending(u, s, st, op);
    case Take => TakePending(u, s, op);
    case Call(i, x) => CallPending(u, s, i, x, op);
    case _ => SamePending(s, Apply(u, s, st), op);
  }

  lemma {:induction false} SamePending(s: State, s': State, op: Op)
    requires op != Cancel && s'.ops - {Cancel} == s.ops - {Cancel} && s'.transit == s.transit && s'.queue == s.queue
    requires s'.hands == s.hands
    ensures Pending(s', op) == Pending(s, op)
  {
    assert op in s'.ops <==> op in s'.ops - {Cancel};
    assert op in s.ops <==> op in s.ops - {Cancel};
  }

  lemma {:induction false} StartPending(u: Use, s: State, st: Step, op: Op)
    requires Conserved(s) && st.Start? && Enabled(u, s, st)
    ensures Pending(Apply(u, s, st), op) == Pending(s, op) + (if st.op == op then 1 else 0)
  {
    hide CountIn, MayStart;
    CountAppend(s.transit, {st.op}, op);
    PendingStart(s, st.op);
  }

  lemma {:induction false} WaitEndPending(u: Use, s: State, st: Step, op: Op)
    requires st.WaitEnd? && Enabled(u, s, st)
    ensures Pending(Apply(u, s, st), op) == Pending(s, op)
  {
    hide CountIn;
    CountAppend(s.transit, s.ops, op);
    CountAppend(s.transit, st.done, op);
  }

  lemma {:induction false} PushPending(u: Use, s: State, st: Step, op: Op)
    requires Conserved(s) && st.Push? && Enabled(u, s, st) && op != Cancel
    ensures Pending(Apply(u, s, st), op) == Pending(s, op)
  {
    hide CountIn;
    CountWithout(s.transit, st.i, op);
  }

  lemma {:induction false} TakePending(u: Use, s: State, op: Op)
    requires s.entered > 0
    ensures Pending(Apply(u, s, Take), op) == Pending(s, op)
  {
    hide CountIn;
    CountAppend(s.hands, s.queue, op);
  }

  /** Nothing pending of an operation that may be started. */
  lemma {:induction false} PendingStart(s: State, op: Op)
    requires Conserved(s) && MayStart(s, op)
    ensures Pending(s, op) == 0
  {
  }

  lemma {:induction false} CallPending(u: Use, s: State, i: nat, x: Op, op: Op)
    requires Conserved(s) && i < |s.hands| && NextCall(s.hands[i], x) && op != Cancel
    ensures Pending(Apply(u, s, Call(i, x)), op) == Pending(s, op) - (if x == op then 1 else 0)
  {
    hide CountIn;
    var gone := if x == Connect || x == Accept then {Connect, Accept} else {x};
    CountUpdate(s.hands, i, s.hands[i] - gone, op);
    CountMember(s.hands, i, x);
    if op != x && op in gone && op in s.hands[i] {
      CountMember(s.hands, i, op);
    }
  }

  /** What a step starts and calls back. */
  lemma {:induction false} CountsAfter(u: Use, s: State, st: Step, op: Op)
    requires Enabled(u, s, st)
    ensures Apply(u, s, st).started[op] == s.started[op] + (if st.Start? && st.op == op then 1 else 0)
    ensures Apply(u, s, st).called[op] == s.called[op] + (if st.Call? && st.op == op then 1 else 0)
    ensures st.Start? ==> MayStart(s, st.op)
  {
    hide CountIn, NextCall, MayStart;
  }

  lemma {:induction false} OpConserved(u: Use, s: State, st: Step, op: Op)
    requires !u.reopen && Conserved(s) && Enabled(u, s, st) && op != Cancel
    ensures var s' := Apply(u, s, st); s'.started[op] == s'.called[op] + Pending(s', op) && Pending(s', op) <= 1
  {
    hide Pending, CountIn, Apply, Enabled, MayStart;
    PendingAfter(u, s, st, op);
    CountsAfter(u, s, st, op);
    if st.Start? {
      PendingStart(s, st.op);
    }
  }

  lemma {:induction false} ConservedKept(u: Use, s: State, st: Step)
    requires !u.reopen && Conserved(s) && Enabled(u, s, st)
    ensures Conserved(Apply(u, s, st))
  {
    hide Pending, CountIn, Apply, Enabled, MayStart;
    forall op | op != Cancel
      ensures Apply(u, s, st).started[op] == Apply(u, s, st).called[op] + Pending(Apply(u, s, st), op)
      ensures Pending(Apply(u, s, st), op) <= 1
    {
      OpConserved(u, s, st, op);
    }
    PendingAfter(u, s, st, Connect);
    PendingAfter(u, s, st, Accept);
    if st.Start? {
      CountsAfter(u, s, st, st.op);
      PendingPair(s, st.op);
    }
  }

  /** Connect and accept are not started together. */
  lemma {:induction false} PendingPair(s: State, op: Op)
    requires Conserved(s) && MayStart(s, op)
    ensures op == Connect || op == Accept ==> Pending(s, Connect) == 0 && Pending(s, Accept) == 0
  {
    hide Pending;
  }

  lemma {:induction false} WaitKept(u: Use, s: State, st: Step)
    requires !u.reopen
    requires OneWait(s) && OneClose(s) && Enabled(u, s, st)
    ensures OneWait(Apply(u, s, st))
  {
    hide CountIn;
  }

  lemma {:induction false} TaskKept(u: Use, s: State, st: Step)
    requires !u.reopen
    requires OneWait(s) && OneTask(s) && Enabled(u, s, st)
    ensures OneTask(Apply(u, s, st))
  {
    hide CountIn, MayStart, NextCall;
    if st.Push? {
      PushTaskKept(u, s, st.i);
    } else if st.WaitEnd? {
      WaitEndTaskKept(u, s, st);
    }
  }

  /** The push that finds the queue empty sends the task on its way. */
  lemma {:induction false} PushTaskKept(u: Use, s: State, i: nat)
    requires OneTask(s) && i < |s.transit|
    ensures OneTask(Apply(u, s, Push(i)))
  {
    hide CountIn, MayStart, NextCall, OpenStep, StartStep, WaitEndStep;
    assert s.transit[i] != {};
  }

  lemma {:induction false} WaitEndTaskKept(u: Use, s: State, st: Step)
    requires OneTask(s) && st.WaitEnd? && Enabled(u, s, st)
    ensures OneTask(Apply(u, s, st))
  {
    hide CountIn, MayStart, NextCall, OpenStep, StartStep;
  }

  lemma {:induction false} CloseKept(u: Use, s: State, st: Step)
    requires !u.reopen
    requires OneWait(s) && OneClose(s) && Enabled(u, s, st)
    ensures OneClose(Apply(u, s, st))
  {
    hide CountIn;
  }

  lemma {:induction false} InvRun(u: Use, s: State, run: seq<Step>, s': State)
    requires !u.reopen && Inv(s) && Reaches(u, s, run, s')
    ensures Inv(s')
    decreases |run|
  {
    hide Conserved, OneWait, OneTask, OneClose, Apply, Enabled;
    if run != [] {
      ConservedKept(u, s, run[0]);
      WaitKept(u, s, run[0]);
      TaskKept(u, s, run[0]);
      CloseKept(u, s, run[0]);
      InvRun(u, Apply(u, s, run[0]), run[1..], s');
    }
  }

  /** Each started operation has been called back or is pending in one place; there is
      at most one wait on the descriptor and one dispatch task; and closes balance
      opens, once nothing of a closed socket is left to run. */
  ghost predicate Settled(s: State)
  {
    && (forall op :: op != Cancel ==> s.started[op] == s.called[op] + Pending(s, op) && Pending(s, op) <= 1)
    && s.waits == (if s.ops == {} then 0 else 1) && s.tasks <= 1 && s.closes <= s.opens <= s.closes + 1
    && (!s.sock && !s.closing && s.waits == 0 ==> s.closes == s.opens)
  }

  lemma {:induction false} InvSettled(s: State)
    requires Inv(s)
    ensures Settled(s)
  {
    hide Pending, CountIn;
  }

  lemma {:induction false} InvInitial(s: State)
    requires Initial(s)
    ensures Inv(s)
  {
  }

  /** In every run in which the socket is not opened again with operations pending. */
  lemma {:induction false} OneCallbackEach(u: Use, s0: State, run: seq<Step>, s: State)
    requires Initial(s0) && Reaches(u, s0, run, s) && !u.reopen
    ensures Settled(s)
  {
    hide Inv, Settled, Initial, Apply, Enabled;
    InvInitial(s0);
    InvRun(u, s0, run, s);
    InvSettled(s);
  }

  // ------------------------------------------------------- how operations end

  /** `wait_end` has got through with the operation, or found it cancelled. */
  predicate Ends(s: State, st: Step, op: Op) { st.WaitEnd? && (op in st.done || st.error || Cancel in s.ops) }

  predicate Starts(st: Step, op: Op) { st.Start? && st.op == op }

  /** No call of the client's or of the dispatcher's is under way. */
  predicate AllCalled(s: State) {
    && s.transit == [] && s.execs == 0 && s.tasks == 0 && s.entered == 0
    && forall i :: 0 <= i < |s.hands| ==> s.hands[i] == {}
  }

  lemma {:induction false} NoneIn(s: seq<set<Op>>, op: Op)
    requires forall i :: 0 <= i < |s| ==> s[i] == {}
    ensures CountIn(s, op) == 0
  {
    if s != [] {
      NoneIn(s[1..], op);
    }
  }

  /** Once everything under way is done, exactly the operations still waiting have not been
      called back. */
  lemma {:induction false} CalledUnlessWaiting(s: State, op: Op)
    requires Inv(s) && AllCalled(s) && op != Cancel
    ensures s.started[op] == s.called[op] + (if op in s.ops then 1 else 0)
  {
    NoneIn(s.hands, op);
    assert s.queue == {};
    assert CountIn(s.transit, op) == 0;
  }

  /** A step that starts no `op` leaves an operation that is not waiting out of `wait_ops`. */
  lemma {:induction false} StaysOut(u: Use, s: State, st: Step, op: Op)
    requires Enabled(u, s, st) && op !in s.ops && op != Cancel && !Starts(st, op)
    ensures op !in Apply(u, s, st).ops && Apply(u, s, st).started[op] == s.started[op]
  {
    hide MayStart, NextCall, Outcome;
  }

  lemma {:induction false} StaysOutRun(u: Use, s: State, run: seq<Step>, s': State, op: Op)
    requires Reaches(u, s, run, s') && op !in s.ops && op != Cancel
    requires forall i :: 0 <= i < |run| ==> !Starts(run[i], op)
    ensures op !in s'.ops && s'.started[op] == s.started[op]
    decreases |run|
  {
    hide Apply, Enabled, Starts;
    if run != [] {
      StaysOut(u, s, run[0], op);
      StaysOutRun(u, Apply(u, s, run[0]), run[1..], s', op);
    }
  }

  /** An operation with which `wait_end` has got through, or that it found cancelled, or whose
      wait failed, is called back exactly once, without waiting again. */
  lemma {:induction false} EndedIsCalled(u: Use, s0: State, before: seq<Step>, s: State, st: Step, op: Op,
                                         run: seq<Step>, s': State)
    requires !u.reopen && Initial(s0) && Reaches(u, s0, before, s) && Enabled(u, s, st)
    requires op in s.ops && op != Cancel && Ends(s, st, op)
    requires Reaches(u, Apply(u, s, st), run, s') && AllCalled(s') && forall i :: 0 <= i < |run| ==> !Starts(run[i], op)
    ensures s'.called[op] == s.called[op] + 1
  {
    hide Inv, Initial, Enabled, AllCalled, Starts;
    InvInitial(s0);
    InvRun(u, s0, before, s);
    InvRun(u, s, [st] + run, s') by {
      assert ([st] + run)[1..] == run;
    }
    CalledUnlessWaiting(s', op);
    StaysOutRun(u, Apply(u, s, st), run, s', op);
    OneOutstanding(s, op);
  }

  lemma {:induction false} OneOutstanding(s: State, op: Op)
    requires Inv(s) && op in s.ops && op != Cancel
    ensures s.started[op] == s.called[op] + 1
  {
    hide CountIn;
  }

  /** And one with which it has not stays waiting, and is not called back. */
  lemma {:induction false} WaitsOn(u: Use, s: State, run: seq<Step>, s': State, op: Op)
    requires !u.reopen && Inv(s) && op in s.ops && op != Cancel && Reaches(u, s, run, s') && Unended(u, s, run, op)
    ensures op in s'.ops && s'.called[op] == s.called[op]
    decreases |run|
  {
    hide Inv, Apply, Enabled, Ends;
    if run != [] {
      WaitsOneStep(u, s, run[0], op);
      InvRun(u, s, [run[0]], Apply(u, s, run[0])) by {
        assert Reaches(u, Apply(u, s, run[0]), [], Apply(u, s, run[0])) && [run[0]][1..] == [];
      }
      WaitsOn(u, Apply(u, s, run[0]), run[1..], s', op);
    }
  }

  predicate Unended(u: Use, s: State, run: seq<Step>, op: Op)
    decreases |run|
  {
    run != [] ==> Enabled(u, s, run[0]) && !Ends(s, run[0], op) && Unended(u, Apply(u, s, run[0]), run[1..], op)
  }

  lemma {:induction false} WaitsOneStep(u: Use, s: State, st: Step, op: Op)
    requires !u.reopen && Inv(s) && op in s.ops && op != Cancel && Enabled(u, s, st) && !Ends(s, st, op)
    ensures op in Apply(u, s, st).ops && Apply(u, s, st).called[op] == s.called[op]
  {
    hide CountIn, MayStart, Outcome;
    if st.Call? {
      CountMember(s.hands, st.i, st.op);
    }
  }

  // -------------------------------------------------------- use of the IO queue

  /** `wait_mask` */
  function WaitMask(ops: set<Op>): Ioq.Mask {
    (if Connect in ops || Send in ops then {Ioq.Out} else {}) +
    (if Connect in ops || Accept in ops || Recv in ops then {Ioq.In, Ioq.Err, Ioq.Hup} else {})
  }

  /** What a step asks of the IO queue. Each step under `wait_lock` makes one call at
      most, so no rewait can come while a wait is being started. */
  datatype QueueCall = NoCall | WaitCall(mask: Ioq.Mask) | RewaitCall(mask: Ioq.Mask)

  function CallOf(s: State, st: Step): QueueCall {
    match st
    case Start(op, direct) =>
      if direct then NoCall
      else if s.ops == {} then WaitCall(WaitMask(s.ops + {op})) else RewaitCall(WaitMask(s.ops + {op}))
    case WaitEnd(ready, done, error) =>
      if Cancel in s.ops || error || s.ops - done == {} then NoCall else WaitCall(WaitMask(s.ops - done))
    case CloseBegin => if s.ops == {} then NoCall else RewaitCall({})
    case _ => NoCall
  }

  /** There is something to wait for exactly if an operation other than the
      cancellation is pending. */
  lemma {:induction false} MaskNotEmpty(ops: set<Op>)
    ensures WaitMask(ops) != {} <==> ops - {Cancel} != {}
  {
    if ops - {Cancel} != {} {
      var op :| op in ops - {Cancel};
    }
    assert forall op :: op in ops && op != Cancel ==> op in ops - {Cancel};
  }

  /** The mask asks for what the operations can use: each event on which a pending operation
      is tried may be reported, but for writability of a socket that is only accepting; and
      nothing is asked for that no pending operation needs. */
  lemma {:induction false} MaskFits(ops: set<Op>, op: Op)
    requires op in ops
    ensures Guard(op) <= Ioq.Reported(WaitMask(ops)) + (if op == Accept then {Ioq.Out} else {})
    ensures Ioq.Out in WaitMask(ops) ==> Connect in ops || Send in ops
    ensures Ioq.In in WaitMask(ops) ==> Connect in ops || Accept in ops || Recv in ops
  {
  }

  /** The events wake the socket and no operation is tried, so that it waits again at once: a
      hang-up for accepting and sending alone, or an error for receiving alone. */
  predicate WokenForNothing(ops: set<Op>, ready: Ioq.Mask) {
    || (ready == {Ioq.Hup} && Connect !in ops && Recv !in ops)
    || (ready == {Ioq.Err} && ops == {Recv})
  }

  lemma {:induction false} WokenForNothingIff(ops: set<Op>, ready: Ioq.Mask)
    requires ops != {} && Cancel !in ops && {} < ready <= Ioq.Reported(WaitMask(ops))
    ensures (forall op :: op in ops ==> !Tried(op, ready)) <==> WokenForNothing(ops, ready)
  {
    var e :| e in ready;
    if WokenForNothing(ops, ready) {
      forall op | op in ops ensures !Tried(op, ready) {
      }
    } else {
      SomeTried(ops, ready);
    }
  }

  lemma {:induction false} SomeTried(ops: set<Op>, ready: Ioq.Mask)
    requires ops != {} && Cancel !in ops && {} < ready <= Ioq.Reported(WaitMask(ops)) && !WokenForNothing(ops, ready)
    ensures exists op :: op in ops && Tried(op, ready)
  {
    var op, e :| op in ops && e in ready;
    assert forall x :: x in ops && Connect !in ops && Accept !in ops && Send !in ops ==> x == Recv;
    assert Connect !in ops && Accept !in ops && Send !in ops ==> op == Recv && ops == {Recv};
    assert Ioq.In !in ready && Ioq.Out !in ready && Ioq.Err !in ready ==> e == Ioq.Hup && ready == {Ioq.Hup};
    assert Ioq.In !in ready && Ioq.Out !in ready && Ioq.Hup !in ready ==> e == Ioq.Err && ready == {Ioq.Err};
    if Connect in ops {
      assert Tried(Connect, ready);
    } else if Ioq.In in ready && Recv in ops {
      assert Ioq.In in Guard(Recv) * ready;
    } else if Ioq.In in ready {
      assert Ioq.In in Guard(Accept) * ready && Accept in ops;
    } else if Ioq.Out in ready {
      assert Ioq.Out in Guard(Send) * ready && Send in ops;
    } else if Ioq.Hup in ready && Recv in ops {
      assert Ioq.Hup in Guard(Recv) * ready;
    } else if Ioq.Err in ready && Accept in ops {
      assert Ioq.Err in Guard(Accept) * ready;
    } else if Ioq.Err in ready && Send in ops {
      assert Ioq.Err in Guard(Send) * ready;
    } else {
      assert false;
    }
  }

  /** The socket keeps the rules under which io/ioq_linux.c keeps its promise: every
      wait is for a set that is not empty, and is the only one outstanding. */
  lemma {:induction false} QueueRules(u: Use, s0: State, run: seq<Step>, s: State, st: Step)
    requires Initial(s0) && Reaches(u, s0, run, s) && !u.reopen && Enabled(u, s, st) && CallOf(s, st).WaitCall?
    ensures CallOf(s, st).mask != {} && Apply(u, s, st).waits == 1
  {
    hide Apply, Enabled, CallOf, Initial, Conserved, OneWait, OneTask, OneClose;
    InvInitial(s0);
    InvRun(u, s0, run, s);
    CallRules(u, s, st);
  }

  lemma {:induction false} CallRules(u: Use, s: State, st: Step)
    requires OneWait(s) && OneClose(s) && Enabled(u, s, st) && CallOf(s, st).WaitCall?
    ensures CallOf(s, st).mask != {} && Apply(u, s, st).waits == 1
  {
    hide CountIn;
    if st.Start? {
      MaskNotEmpty(s.ops + {st.op});
      assert st.op in s.ops + {st.op} - {Cancel};
    } else {
      MaskNotEmpty(s.ops - st.done);
      assert s.ops - st.done - {Cancel} == s.ops - st.done;
    }
  }

  // ------------------------------------------------- when the promise holds

  ghost predicate Promise(u: Use) { forall s0, run, s :: Initial(s0) && Reaches(u, s0, run, s) ==> Settled(s) }

  /** Nothing is under way and nothing will be, until the client acts. */
  predicate Quiet(s: State) {
    s.waits == 0 && s.transit == [] && s.queue == {} && s.execs == 0 && s.tasks == 0 && s.entered == 0 && s.hands == []
  }

  ghost predicate Reachable(u: Use, s: State) { exists s0, run :: Initial(s0) && Reaches(u, s0, run, s) }

  lemma {:induction false} Extend(u: Use, s0: State, run: seq<Step>, s: State, st: Step)
    requires Reaches(u, s0, run, s) && Enabled(u, s, st)
    ensures Reaches(u, s0, run + [st], Apply(u, s, st))
    decreases |run|
  {
    hide Enabled, Apply;
    if run == [] {
      assert [st][1..] == [];
      assert Reaches(u, Apply(u, s, st), [], Apply(u, s, st));
    } else {
      assert (run + [st])[1..] == run[1..] + [st];
      Extend(u, Apply(u, s0, run[0]), run[1..], s, st);
    }
  }

  lemma {:induction false} Go(u: Use, s: State, st: Step) returns (s': State)
    requires Reachable(u, s) && Enabled(u, s, st)
    ensures s' == Apply(u, s, st) && Reachable(u, s')
  {
    hide Enabled, Apply, Initial;
    var s0, run :| Initial(s0) && Reaches(u, s0, run, s);
    Extend(u, s0, run, s, st);
    s' := Apply(u, s, st);
  }

  /** A receive is pending, the socket is closed and at once connected again: the
      receive is never called back, and the first descriptor is never closed. */
  lemma {:induction false} ReopenRun(u: Use) returns (s: State)
    requires u.reopen
    ensures Reachable(u, s) && Quiet(s) && !s.sock && !s.closing
    ensures s.started[Recv] == 1 && s.called[Recv] == 0 && Pending(s, Recv) == 0
    ensures s.opens == 2 && s.closes == 1
  {
    s := State({}, 0, [], {}, 0, 0, 0, [], false, false, false, 0, 0, multiset{}, multiset{});
    assert Initial(s) && Reaches(u, s, [], s);
    hide Reachable;
    s := Go(u, s, Open);
    s := Go(u, s, Start(Recv, false));
    s := Go(u, s, CloseBegin);
    s := Go(u, s, Open);
    s := Go(u, s, WaitEnd({}, {}, false));
    s := Go(u, s, CloseBegin);
    s := Go(u, s, CloseDirect);
  }

  /** The promise holds exactly if the socket is never opened again with operations
      pending. */
  lemma {:induction false} PromiseHolds(u: Use)
    ensures Promise(u) <==> !u.reopen
  {
    if u.reopen {
      var s := ReopenRun(u);
      var s0, run :| Initial(s0) && Reaches(u, s0, run, s);
    } else {
      forall s0, run, s | Initial(s0) && Reaches(u, s0, run, s) ensures Settled(s) {
        OneCallbackEach(u, s0, run, s);
      }
    }
  }
}
