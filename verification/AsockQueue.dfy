/** A socket of io/asock_posix.c on the IO queue of io/ioq_linux.c: the two transition
    systems run together, joined where the socket calls `ioq_fd_wait` and
    `ioq_fd_rewait` and where the queue calls `wait_end`. */
module AsockQueue {
  import A = Asock
  import Q = Ioq
  import F = IoqFd
  import P = IoqPass

  /** Both states, with what connects them: how many callbacks of the descriptor have begun
      that have not taken `wait_lock` yet, and whether a thread inside `ioq_fd_wait`
      holds that lock. */
  datatype State = State(sock: A.State, queue: Q.State, begun: nat, locked: bool)

  datatype Step = OfSock(st: A.Step, who: Q.Who) | OfQueue(q: Q.Step)

  const NoReopen := A.Use(false)

  /** The queue, with or without background threads, and other users that keep its rules. */
  function Rules(background: bool): Q.Use { Q.Use(background, false, false) }

  predicate TakesLock(st: A.Step) {
    match st
    case Start(_, direct) => !direct
    case WaitEnd(_, _, _) => true
    case CloseBegin => true
    case Open => true
    case _ => false
  }

  /** The socket may take the step, as far as its own code and callers go. `wait_end` runs when
      the queue has called it, on the events and the error that the descriptor holds. */
  predicate Ready(s: State, f: nat, st: A.Step) {
    && A.Enabled(NoReopen, s.sock, st) && (TakesLock(st) ==> !s.locked)
    && (st.WaitEnd? ==>
        s.begun > 0 && f in s.queue.fds && st.ready == s.queue.fds[f].ready && st.error == s.queue.fds[f].err)
  }

  /** The step of the queue that goes with it. */
  function CallStep(s: State, f: nat, st: A.Step, who: Q.Who): Q.ClientStep
    requires !A.CallOf(s.sock, st).NoCall?
  {
    match A.CallOf(s.sock, st)
    case WaitCall(mask) => Q.WaitStart(f, mask, who)
    case RewaitCall(mask) => Q.Rewait(f, mask, who)
  }

  /** A step of the queue in which the socket is not the caller. */
  predicate NotOurs(q: Q.Step, f: nat) {
    q.OfClient? ==>
      match q.client
      case WaitStart(x, _, _) => x != f
      case WaitEmpty(x, _) => x != f
      case Rewait(x, _, _) => x != f
      case _ => true
  }

  /** The queue calls `wait_end`. */
  predicate Calls(s: Q.State, q: Q.Step, f: nat) {
    (q == Q.OfLoop(Q.RunOne) || q == Q.OfClient(Q.WorkerRun)) && s.jobs != [] && s.jobs[0] == Q.FdTask(f)
  }

  predicate Unlocks(q: Q.Step, f: nat) { q.OfClient? && q.client.WaitEnqueue? && q.client.fd == f }

  ghost predicate Enabled(b: bool, f: nat, s: State, step: Step) {
    match step
    case OfSock(st, who) =>
      Ready(s, f, st) && (!A.CallOf(s.sock, st).NoCall? ==> Q.ClientEnabled(Rules(b), s.queue, CallStep(s, f, st, who)))
    case OfQueue(q) => Q.Enabled(Rules(b), s.queue, q) && NotOurs(q, f)
  }

  function Apply(b: bool, f: nat, s: State, step: Step): State
    requires Enabled(b, f, s, step)
  {
    match step
    case OfSock(st, who) => SockStep(b, f, s, st, who)
    case OfQueue(q) =>
      State(s.sock, Q.Apply(Rules(b), s.queue, q), s.begun + (if Calls(s.queue, q, f) then 1 else 0),
            s.locked && !Unlocks(q, f))
  }

  function SockStep(b: bool, f: nat, s: State, st: A.Step, who: Q.Who): State
    requires Enabled(b, f, s, OfSock(st, who))
  {
    var sock, begun := A.Apply(NoReopen, s.sock, st), s.begun - (if st.WaitEnd? then 1 else 0);
    if A.CallOf(s.sock, st).NoCall? then State(sock, s.queue, begun, s.locked)
    else
      State(sock, Q.ClientApply(Rules(b), s.queue, CallStep(s, f, st, who)), begun, A.CallOf(s.sock, st).WaitCall?)
  }

  predicate Initial(s: State, f: nat) {
    A.Initial(s.sock) && Q.Initial(s.queue) && f in s.queue.fds && s.begun == 0 && !s.locked
  }

  ghost predicate Reaches(b: bool, f: nat, s: State, run: seq<Step>, s': State)
    decreases |run|
  {
    if run == [] then s' == s else Enabled(b, f, s, run[0]) && Reaches(b, f, Apply(b, f, s, run[0]), run[1..], s')
  }

  // --------------------------------------------------------------- the queue's side

  /** How many waits have begun whose callback has not been called. */
  function Owed(s: Q.State, f: nat): int
    requires f in s.fds
  {
    s.fds[f].waits - s.fds[f].execs + multiset(s.jobs)[Q.FdTask(f)]
  }

  /** What a step of the queue on its own does for the descriptor: at most it calls back, or
      gives up on the requested set. */
  ghost predicate Served(s: Q.State, s': Q.State, f: nat, called: bool, unlocked: bool)
    requires f in s.fds
  {
    && f in s'.fds && Owed(s', f) == Owed(s, f) - (if called then 1 else 0)
    && s'.fds[f].setting == (s.fds[f].setting && !unlocked)
    && (s'.fds[f].waiting ==>
        s.fds[f].waiting && (s'.fds[f].requested == s.fds[f].requested || s'.fds[f].requested == {}))
  }

  lemma {:induction false} JobsAfter(jobs: seq<Q.Job>, j: Q.Job, x: Q.Job)
    ensures multiset(jobs + [j])[x] == multiset(jobs)[x] + (if j == x then 1 else 0)
    ensures jobs != [] ==> multiset(jobs[1..])[x] == multiset(jobs)[x] - (if jobs[0] == x then 1 else 0)
  {
    if jobs != [] {
      assert jobs == [jobs[0]] + jobs[1..];
    }
  }

  /** The step changes descriptor `x` at most, and queues its task if the wait is over. */
  ghost predicate Small(s: Q.State, s': Q.State, x: nat, g: Q.Fd, over: bool) {
    && x in s.fds && s'.fds == s.fds[x := g] && s'.jobs == (if over then s.jobs + [Q.FdTask(x)] else s.jobs)
    && g.waits == s.fds[x].waits && g.execs == s.fds[x].execs + (if over then 1 else 0)
    && g.setting == s.fds[x].setting
    && (g.waiting ==> s.fds[x].waiting && (g.requested == s.fds[x].requested || g.requested == {}))
  }

  lemma {:induction false} SmallServes(s: Q.State, s': Q.State, f: nat, x: nat, g: Q.Fd, over: bool)
    requires f in s.fds && Small(s, s', x, g, over)
    ensures Served(s, s', f, false, false)
  {
    JobsAfter(s.jobs, Q.FdTask(x), Q.FdTask(f));
    assert Q.FdTask(x) == Q.FdTask(f) <==> x == f;
  }

  /** Nothing about any descriptor changes. */
  ghost predicate Same(s: Q.State, s': Q.State) {
    s'.fds == s.fds && (s'.jobs == s.jobs || s'.jobs == s.jobs + [Q.OtherTask])
  }

  lemma {:induction false} SameServes(s: Q.State, s': Q.State, f: nat)
    requires f in s.fds && Same(s, s')
    ensures Served(s, s', f, false, false)
  {
    JobsAfter(s.jobs, Q.OtherTask, Q.FdTask(f));
  }

  lemma {:induction false} PopServes(s: Q.State, s': Q.State, f: nat)
    requires f in s.fds && s'.fds == s.fds && s.jobs != [] && s'.jobs == s.jobs[1..]
    ensures Served(s, s', f, s.jobs[0] == Q.FdTask(f), false)
  {
    JobsAfter(s.jobs, Q.OtherTask, Q.FdTask(f));
  }

  /** The steps of the loop that write to a descriptor. */
  predicate OnFds(l: Q.LoopStep) { l.NextEvent? || l.MarkReady? || l.Dequeue? || l.Process? || l.Finish? }

  lemma {:induction false} LoopServes(b: bool, s: Q.State, l: Q.LoopStep, f: nat)
    requires f in s.fds && Q.LoopEnabled(s, l)
    ensures Served(s, Q.LoopApply(Rules(b), s, l), f, Calls(s, Q.OfLoop(l), f), false)
  {
    hide Served;
    var s' := Q.LoopApply(Rules(b), s, l);
    if l.RunOne? && s.jobs != [] {
      PopServes(s, s', f);
    } else if OnFds(l) {
      FdStepServes(b, s, l, f);
    } else {
      OtherSteps(b, s, l);
      SameServes(s, s', f);
    }
  }

  lemma {:induction false} OtherSteps(b: bool, s: Q.State, l: Q.LoopStep)
    requires Q.LoopEnabled(s, l) && !OnFds(l)
    requires l.RunOne? ==> s.jobs == []
    ensures Same(s, Q.LoopApply(Rules(b), s, l))
  {
    hide Q.NextEventStep, Q.MarkReadyStep, Q.DequeueStep, Q.ProcessStep, Q.FinishStep, Q.First, Q.Deliverable;
  }

  lemma {:induction false} FdStepServes(b: bool, s: Q.State, l: Q.LoopStep, f: nat)
    requires f in s.fds && Q.LoopEnabled(s, l) && OnFds(l)
    ensures Served(s, Q.LoopApply(Rules(b), s, l), f, false, false)
  {
    hide Served, Q.NextEventStep, Q.MarkReadyStep, Q.DequeueStep, Q.ProcessStep, Q.FinishStep;
    match l
    case NextEvent => NextEventServes(s, f);
    case MarkReady => MarkReadyServes(s, f);
    case Dequeue(now) => DequeueServes(s, now, f);
    case Process(ok) => ProcessServes(b, s, ok, f);
    case Finish => FinishServes(s, f);
  }

  lemma {:induction false} NextEventServes(s: Q.State, f: nat)
    requires f in s.fds && Q.LoopEnabled(s, Q.NextEvent)
    ensures Served(s, Q.NextEventStep(s), f, false, false)
  {
    hide Served;
    var s' := Q.NextEventStep(s);
    if s.pc.evts == [] || s.pc.evts[0].Pipe? {
      SameServes(s, s', f);
    } else {
      SmallServes(s, s', f, s.pc.evts[0].fd, s'.fds[s.pc.evts[0].fd], false);
    }
  }

  lemma {:induction false} MarkReadyServes(s: Q.State, f: nat)
    requires f in s.fds && Q.LoopEnabled(s, Q.MarkReady)
    ensures Served(s, Q.MarkReadyStep(s), f, false, false)
  {
    hide Served;
    SmallServes(s, Q.MarkReadyStep(s), f, s.pc.fd, Q.MarkReadyStep(s).fds[s.pc.fd], false);
  }

  lemma {:induction false} DequeueServes(s: Q.State, now: int, f: nat)
    requires f in s.fds && Q.LoopEnabled(s, Q.Dequeue(now))
    ensures Served(s, Q.DequeueStep(s, now), f, false, false)
  {
    hide Served;
    var s' := Q.DequeueStep(s, now);
    if s.mods == [] {
      SameServes(s, s', f);
    } else {
      SmallServes(s, s', f, s.mods[0], s'.fds[s.mods[0]], false);
    }
  }

  lemma {:induction false} ProcessServes(b: bool, s: Q.State, ok: bool, f: nat)
    requires f in s.fds && Q.LoopEnabled(s, Q.Process(ok))
    ensures Served(s, Q.ProcessStep(Rules(b), s, ok), f, false, false)
  {
    hide Served;
    var s', x := Q.ProcessStep(Rules(b), s, ok), s.pc.fd;
    assert s.fds == s.fds[x := s.fds[x]];
    SmallServes(s, s', f, x, s'.fds[x], !s.pc.waiting);
  }

  lemma {:induction false} FinishServes(s: Q.State, f: nat)
    requires f in s.fds && Q.LoopEnabled(s, Q.Finish)
    ensures Served(s, Q.FinishStep(s), f, false, false)
  {
    hide Served;
    SmallServes(s, Q.FinishStep(s), f, s.pc.fd, Q.FinishStep(s).fds[s.pc.fd], false);
  }

  lemma {:induction false} ClientServes(b: bool, s: Q.State, c: Q.ClientStep, f: nat)
    requires f in s.fds && Q.ClientEnabled(Rules(b), s, c) && NotOurs(Q.OfClient(c), f)
    ensures Served(s, Q.ClientApply(Rules(b), s, c), f, Calls(s, Q.OfClient(c), f), Unlocks(Q.OfClient(c), f))
  {
    hide Served, Q.First;
    var s' := Q.ClientApply(Rules(b), s, c);
    if c.WorkerRun? {
      PopServes(s, s', f);
    } else if c.WaitStart? || c.WaitEnqueue? || c.Rewait? {
      WaitStepServes(b, s, c, f);
    } else {
      SameServes(s, s', f);
    }
  }

  lemma {:induction false} WaitStepServes(b: bool, s: Q.State, c: Q.ClientStep, f: nat)
    requires f in s.fds && Q.ClientEnabled(Rules(b), s, c) && NotOurs(Q.OfClient(c), f)
    requires c.WaitStart? || c.WaitEnqueue? || c.Rewait?
    ensures Served(s, Q.ClientApply(Rules(b), s, c), f, false, Unlocks(Q.OfClient(c), f))
  {
    hide Q.First;
  }

  // ------------------------------------------------------------- joint invariant

  /** The events that the socket wants. */
  function Wanted(s: A.State): Q.Mask { if A.Cancel in s.ops then {} else A.WaitMask(s.ops) }

  /** The waits that the socket counts are those that the queue owes or has begun to
      answer, and the queue waits for what the socket wants, if it has not given up. */
  ghost predicate Joined(f: nat, s: State) {
    && f in s.queue.fds && s.sock.waits == Owed(s.queue, f) + s.begun && s.locked == s.queue.fds[f].setting
    && (s.queue.fds[f].waiting ==>
        s.queue.fds[f].requested == Wanted(s.sock) || s.queue.fds[f].requested == {})
  }

  ghost predicate Inv(f: nat, s: State) { A.Inv(s.sock) && F.FdInv(s.queue) && Joined(f, s) }

  lemma {:induction false} QueueKept(b: bool, f: nat, s: State, q: Q.Step)
    requires F.FdInv(s.queue) && Joined(f, s) && Enabled(b, f, s, OfQueue(q))
    ensures F.FdInv(Apply(b, f, s, OfQueue(q)).queue) && Joined(f, Apply(b, f, s, OfQueue(q)))
  {
    hide Q.LoopApply, Q.ClientApply, Q.LoopEnabled, Q.ClientEnabled, F.FdInv, Calls, Unlocks, NotOurs, Owed;
    match q
    case OfLoop(l) =>
      F.LoopKept(Rules(b), s.queue, l);
      LoopServes(b, s.queue, l, f);
      LoopKeepsLock(l, f);
    case OfClient(c) =>
      F.ClientKept(Rules(b), s.queue, c);
      ClientServes(b, s.queue, c, f);
  }

  lemma {:induction false} LoopKeepsLock(l: Q.LoopStep, f: nat)
    ensures !Unlocks(Q.OfLoop(l), f)
  {
  }

  /** What the flags say about the waits that are owed. */
  lemma {:induction false} OwedNow(s: Q.State, f: nat)
    requires F.FdInv(s) && f in s.fds
    ensures 0 <= Owed(s, f) <= 1
    ensures Owed(s, f) == 0 ==>
      !s.fds[f].waiting && s.fds[f].waits == s.fds[f].execs && Q.FdTask(f) !in s.jobs
  {
    assert F.ViewOk(F.ViewOf(s, f));
  }

  /** The queue is never called against its rules. */
  lemma {:induction false} CallAllowed(b: bool, f: nat, s: State, st: A.Step, who: Q.Who)
    requires Inv(f, s) && Ready(s, f, st) && !A.CallOf(s.sock, st).NoCall? && Q.MayAct(s.queue, who)
    ensures Q.ClientEnabled(Rules(b), s.queue, CallStep(s, f, st, who))
  {
    hide F.FdInv, Owed, A.Conserved, A.OneTask, A.WaitMask;
    OwedNow(s.queue, f);
    if A.CallOf(s.sock, st).WaitCall? {
      A.CallRules(NoReopen, s.sock, st);
    }
  }

  lemma {:induction false} SockKept(s: A.State, st: A.Step)
    requires A.Inv(s) && A.Enabled(NoReopen, s, st)
    ensures A.Inv(A.Apply(NoReopen, s, st))
  {
    hide A.Conserved, A.OneWait, A.OneTask, A.OneClose, A.Apply, A.Enabled;
    A.ConservedKept(NoReopen, s, st);
    A.WaitKept(NoReopen, s, st);
    A.TaskKept(NoReopen, s, st);
    A.CloseKept(NoReopen, s, st);
  }

  lemma {:induction false} CallKept(b: bool, f: nat, s: State, st: A.Step, who: Q.Who)
    requires Inv(f, s) && Enabled(b, f, s, OfSock(st, who))
    ensures F.FdInv(Apply(b, f, s, OfSock(st, who)).queue)
  {
    hide F.FdInv, Q.ClientApply, Q.ClientEnabled;
    if !A.CallOf(s.sock, st).NoCall? {
      F.ClientKept(Rules(b), s.queue, CallStep(s, f, st, who));
    }
  }

  /** What a step of the socket does to its count of waits and to what it wants. */
  ghost predicate Asks(s: A.State, st: A.Step, s': A.State) {
    var ended := if st.WaitEnd? then 1 else 0;
    match A.CallOf(s, st)
    case WaitCall(mask) => s'.waits == s.waits + 1 - ended && Wanted(s') == mask
    case RewaitCall(mask) => s'.waits == s.waits && Wanted(s') == mask && !st.WaitEnd?
    case NoCall => s'.waits == s.waits - ended && (Wanted(s') == Wanted(s) || st.WaitEnd?)
  }

  lemma {:induction false} SockAsks(s: A.State, st: A.Step)
    requires A.OneWait(s) && A.OneClose(s) && A.Enabled(NoReopen, s, st)
    ensures Asks(s, st, A.Apply(NoReopen, s, st))
  {
    hide A.WaitMask, A.CountIn;
  }

  lemma {:induction false} WaitStartEffect(b: bool, s: Q.State, f: nat, mask: Q.Mask, who: Q.Who)
    requires Q.ClientEnabled(Rules(b), s, Q.WaitStart(f, mask, who))
    ensures var s' := Q.ClientApply(Rules(b), s, Q.WaitStart(f, mask, who));
      f in s'.fds && Owed(s', f) == Owed(s, f) + 1 && s'.fds[f].setting && s'.fds[f].requested == mask
  {
  }

  lemma {:induction false} RewaitEffect(b: bool, s: Q.State, f: nat, mask: Q.Mask, who: Q.Who)
    requires Q.ClientEnabled(Rules(b), s, Q.Rewait(f, mask, who))
    ensures var s' := Q.ClientApply(Rules(b), s, Q.Rewait(f, mask, who));
      && f in s'.fds && Owed(s', f) == Owed(s, f) && s'.fds[f].setting == s.fds[f].setting
      && (s'.fds[f].waiting ==> s'.fds[f].requested == mask)
  {
    hide Q.First, Q.Reusable, Owed, Q.Notify;
    var g := s.fds[f].(requested := mask);
    NotifyKeeps(Q.Enqueue(s, f, g), who);
    SameOwed(s, Q.ClientApply(Rules(b), s, Q.Rewait(f, mask, who)), f);
  }

  lemma {:induction false} NotifyKeeps(s: Q.State, who: Q.Who)
    ensures Q.Notify(s, who).fds == s.fds && Q.Notify(s, who).jobs == s.jobs
  {
  }

  lemma {:induction false} SameOwed(s: Q.State, s': Q.State, f: nat)
    requires f in s.fds && f in s'.fds && s'.jobs == s.jobs
    requires s'.fds[f].waits == s.fds[f].waits && s'.fds[f].execs == s.fds[f].execs
    ensures Owed(s', f) == Owed(s, f)
  {
  }

  lemma {:induction false} SockJoined(b: bool, f: nat, s: State, st: A.Step, who: Q.Who)
    requires Inv(f, s) && Enabled(b, f, s, OfSock(st, who))
    ensures Joined(f, Apply(b, f, s, OfSock(st, who)))
  {
    hide A.Apply, A.Enabled, Q.ClientApply, Q.ClientEnabled, Owed, Wanted, F.FdInv, A.CallOf;
    CallLocks(s, f, st);
    SockAsks(s.sock, st);
    OwedNow(s.queue, f);
    match A.CallOf(s.sock, st)
    case WaitCall(mask) => WaitStartEffect(b, s.queue, f, mask, who);
    case RewaitCall(mask) => RewaitEffect(b, s.queue, f, mask, who);
    case NoCall =>
  }

  lemma {:induction false} CallLocks(s: State, f: nat, st: A.Step)
    requires Ready(s, f, st)
    ensures !A.CallOf(s.sock, st).NoCall? ==> !s.locked
  {
  }

  lemma {:induction false} InvKept(b: bool, f: nat, s: State, step: Step)
    requires Inv(f, s) && Enabled(b, f, s, step)
    ensures Inv(f, Apply(b, f, s, step))
  {
    hide A.Inv, F.FdInv, Joined, A.Apply, A.Enabled, Q.Apply, Q.Enabled, A.CallOf;
    match step
    case OfSock(st, who) =>
      SockKept(s.sock, st);
      CallKept(b, f, s, st, who);
      SockJoined(b, f, s, st, who);
    case OfQueue(q) => QueueKept(b, f, s, q);
  }

  lemma {:induction false} InvInitial(f: nat, s: State)
    requires Initial(s, f)
    ensures Inv(f, s)
  {
    hide A.Inv, F.FdInv;
    A.InvInitial(s.sock);
    F.FdInitial(s.queue);
    assert Q.NewFd(s.queue.fds[f]);
  }

  lemma {:induction false} InvRun(b: bool, f: nat, s: State, run: seq<Step>, s': State)
    requires Inv(f, s) && Reaches(b, f, s, run, s')
    ensures Inv(f, s')
    decreases |run|
  {
    hide Inv, Apply, Enabled;
    if run != [] {
      InvKept(b, f, s, run[0]);
      InvRun(b, f, Apply(b, f, s, run[0]), run[1..], s');
    }
  }

  // ----------------------------------------------------------------- the theorems

  /** Nobody is about to look at the waiting descriptor. */
  predicate AtRest(s: Q.State, f: nat)
    requires f in s.fds
  {
    s.fds[f].waiting && !s.fds[f].listed && !s.fds[f].setting && F.HandOf(s.pc, f).Free?
  }

  /** The registered events are those that the pending operations can use: each event on which
      one of them is tried will be reported, but for writability where only accepting;
      and readable and writable are asked for only if some operation needs them. */
  ghost predicate Fits(m: Q.Mask, ops: set<A.Op>) {
    && m != {}
    && (forall op :: op in ops ==> A.Guard(op) <= Q.Reported(m) + (if op == A.Accept then {Q.Out} else {}))
    && (Q.Out in m ==> A.Connect in ops || A.Send in ops)
    && (Q.In in m ==> A.Connect in ops || A.Accept in ops || A.Recv in ops)
  }

  lemma {:induction false} MaskFits(ops: set<A.Op>)
    requires A.WaitMask(ops) != {}
    ensures Fits(A.WaitMask(ops), ops)
  {
    forall op | op in ops
      ensures A.Guard(op) <= Q.Reported(A.WaitMask(ops)) + (if op == A.Accept then {Q.Out} else {})
    {
      A.MaskFits(ops, op);
    }
    if ops != {} {
      var op :| op in ops;
      A.MaskFits(ops, op);
    }
  }

  /** In every run of a socket on the queue, with any number of other descriptors, threads
      and tasks: operations and descriptors are settled; while an operation is pending the
      queue owes the socket one callback or has begun it, and otherwise none; and a
      descriptor at rest is registered with the kernel for exactly the events that the
      pending operations need. */
  lemma {:induction false} SocketServed(b: bool, f: nat, s0: State, run: seq<Step>, s: State)
    requires Initial(s0, f) && Reaches(b, f, s0, run, s)
    ensures A.Settled(s.sock) && f in s.queue.fds
    ensures Owed(s.queue, f) + s.begun == if s.sock.ops == {} then 0 else 1
    ensures AtRest(s.queue, f) ==> A.Cancel !in s.sock.ops && f in s.queue.kernel
    ensures AtRest(s.queue, f) ==> Fits(s.queue.kernel[f], s.sock.ops) && s.queue.kernel[f] == A.WaitMask(s.sock.ops)
  {
    hide A.WaitMask, Fits, A.Settled, A.Conserved, A.OneTask, A.OneClose, F.FdInv, AtRest, Owed, Reaches, Initial;
    InvInitial(f, s0);
    InvRun(b, f, s0, run, s);
    A.InvSettled(s.sock);
    if AtRest(s.queue, f) {
      Registered(s.queue, f);
      MaskFits(s.sock.ops);
    }
  }

  lemma {:induction false} Registered(s: Q.State, f: nat)
    requires F.FdInv(s) && f in s.fds && AtRest(s, f)
    ensures s.fds[f].waiting && f in s.kernel && s.kernel[f] == s.fds[f].requested != {}
  {
    assert F.ViewOk(F.ViewOf(s, f));
  }

  /** And the queue's own rules never stand in the way of the socket. */
  lemma {:induction false} NeverRefused(b: bool, f: nat, s0: State, run: seq<Step>, s: State, st: A.Step, who: Q.Who)
    requires Initial(s0, f) && Reaches(b, f, s0, run, s) && Ready(s, f, st) && Q.MayAct(s.queue, who)
    ensures Enabled(b, f, s, OfSock(st, who))
  {
    hide Inv, Reaches, Initial;
    InvInitial(f, s0);
    InvRun(b, f, s0, run, s);
    if !A.CallOf(s.sock, st).NoCall? {
      CallAllowed(b, f, s, st, who);
    }
  }

  /** What the queue does in a joint run is a run of the queue. */
  lemma {:induction false} QueueRun(b: bool, f: nat, s: State, run: seq<Step>, s': State) returns (q: seq<Q.Step>)
    requires Reaches(b, f, s, run, s')
    ensures Q.Reaches(Rules(b), s.queue, q, s'.queue)
    decreases |run|
  {
    hide Q.Enabled, Q.Apply, A.Enabled, A.Apply;
    if run == [] {
      q := [];
    } else {
      var s1 := Apply(b, f, s, run[0]);
      var rest := QueueRun(b, f, s1, run[1..], s');
      var first := QueueStep(b, f, s, run[0]);
      q := first + rest;
      if first == [] {
        assert q == rest;
      } else {
        assert first == [first[0]] && q[0] == first[0] && q[1..] == rest;
      }
    }
  }

  lemma {:induction false} QueueStep(b: bool, f: nat, s: State, step: Step) returns (q: seq<Q.Step>)
    requires Enabled(b, f, s, step)
    ensures |q| <= 1
    ensures q == [] ==> Apply(b, f, s, step).queue == s.queue
    ensures q != [] ==>
      Q.Enabled(Rules(b), s.queue, q[0]) && Apply(b, f, s, step).queue == Q.Apply(Rules(b), s.queue, q[0])
  {
    hide Q.LoopApply, Q.ClientApply, Q.LoopEnabled, Q.ClientEnabled, A.Enabled, A.Apply;
    match step
    case OfSock(st, who) =>
      q := if A.CallOf(s.sock, st).NoCall? then [] else [Q.OfClient(CallStep(s, f, st, who))];
    case OfQueue(x) => q := [x];
  }

  /** `epoll_wait` returns an event for the descriptor of the socket: when `dispatch_mods` is over
      the queue has handed the wait back, whatever the socket and all others have done. */
  lemma {:induction false} EventIsServed(b: bool, f: nat, s0: State, before: seq<Step>, s: State, evts: seq<Q.Event>,
                                         i: nat, run: seq<Step>, s': State)
    requires Initial(s0, f) && Reaches(b, f, s0, before, s) && Enabled(b, f, s, OfQueue(Q.OfLoop(Q.Return(evts))))
    requires i < |evts| && evts[i].Ready? && evts[i].fd == f
    requires Reaches(b, f, Apply(b, f, s, OfQueue(Q.OfLoop(Q.Return(evts)))), run, s') && P.PassOver(s'.queue.pc)
    ensures f in s.queue.fds && f in s'.queue.fds && s'.queue.fds[f].execs >= s.queue.fds[f].execs + 1
  {
    hide Q.Initial, A.Initial, P.PassOver, Q.LoopApply, Q.LoopEnabled;
    var q0 := QueueRun(b, f, s0, before, s);
    var q := QueueRun(b, f, Apply(b, f, s, OfQueue(Q.OfLoop(Q.Return(evts)))), run, s');
    SocketServed(b, f, s0, before, s);
    P.ReadyCompletes(Rules(b), s0.queue, q0, s.queue, evts, i, q, s'.queue, f);
  }
}
