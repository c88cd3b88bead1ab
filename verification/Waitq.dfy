/** io/waitq.c: timers in the order of their deadlines. The waiting set is the
    in-order sequence of its red-black tree. */
module Waitq {
  import Ioq

  type Timer = Ioq.Timer

  /** `cmp_by_deadline` */
  function Compare(a: Timer, b: Timer): int {
    if a.deadline < b.deadline then -1 else if a.deadline > b.deadline then 1
    else if a.addr < b.addr then -1 else if a.addr > b.addr then 1 else 0
  }

  /** The comparison is a total order of timers. */
  lemma {:induction false} CompareIsOrder(a: Timer, b: Timer, c: Timer)
    ensures Compare(a, b) == -Compare(b, a) && (Compare(a, b) == 0 <==> a == b)
    ensures Compare(a, b) < 0 && Compare(b, c) < 0 ==> Compare(a, c) < 0
    ensures Compare(a, b) < 0 <==> Ioq.Earlier(a, b)
  {
  }

  predicate Sorted(s: seq<Timer>) { forall i, j :: 0 <= i < j < |s| ==> Compare(s[i], s[j]) < 0 }

  function Elements(s: seq<Timer>): set<Timer> { set x | x in s }

  /** How many timers at the front are due. */
  function DueCount(s: seq<Timer>, now: int): (n: nat)
    ensures n <= |s|
  {
    if s == [] || s[0].deadline > now then 0 else 1 + DueCount(s[1..], now)
  }

  /** In a sorted set the due timers are exactly those at the front. */
  lemma {:induction false} DueInFront(s: seq<Timer>, now: int, i: nat)
    requires Sorted(s) && i < |s|
    ensures s[i].deadline <= now <==> i < DueCount(s, now)
  {
    if s[0].deadline <= now {
      if i > 0 {
        assert s[i] == s[1..][i - 1];
        DueInFront(s[1..], now, i - 1);
      }
    } else if i > 0 {
      assert Compare(s[0], s[i]) < 0;
    }
  }

  lemma {:induction false} SplitDue(s: seq<Timer>, now: int, k: nat)
    requires k < |s| && k <= DueCount(s, now)
    ensures DueCount(s, now) == k + DueCount(s[k..], now)
  {
    if k > 0 {
      SplitDue(s[1..], now, k - 1);
      assert s[1..][k - 1..] == s[k..];
    }
  }

  /** Where the tree puts a timer. */
  function Place(s: seq<Timer>, t: Timer): (k: nat)
    ensures k <= |s| && (forall i :: 0 <= i < k ==> Compare(s[i], t) < 0) && (k < |s| ==> Compare(s[k], t) >= 0)
  {
    if s == [] || Compare(s[0], t) >= 0 then 0 else 1 + Place(s[1..], t)
  }

  class Waitq {
    var waiting: seq<Timer>
    /** The tasks given to the run queue. */
    var run: seq<Timer>

    constructor ()
      ensures waiting == [] && run == []
    {
      waiting, run := [], [];
    }

    /** `expire_one` */
    method ExpireOne(now: int) returns (t: seq<Timer>)
      requires Sorted(waiting)
      modifies this`waiting
      ensures Sorted(waiting) && t + waiting == old(waiting) && |t| <= 1
      ensures |t| == 1 <==> old(waiting) != [] && old(waiting)[0].deadline <= now
    {
      if waiting == [] || waiting[0].deadline > now {
        t := [];
      } else {
        t := [waiting[0]];
        waiting := waiting[1..];
      }
    }

    /** `waitq_dispatch`: with no limit, the timers due at the one reading of the
        clock, and no others, go to the run queue, in the order of their deadlines. */
    method Dispatch(now: int, limit: nat) returns (count: nat)
      requires Sorted(waiting)
      modifies this
      ensures Sorted(waiting) && count <= |old(waiting)|
      ensures run == old(run) + old(waiting)[..count] && waiting == old(waiting)[count..]
      ensures limit != 0 ==> count <= limit
      ensures forall i :: 0 <= i < count ==> old(waiting)[i].deadline <= now
      ensures limit == 0 || count < limit ==> forall t :: t in waiting ==> t.deadline > now
      ensures forall i, j :: 0 <= i < j < count ==> old(waiting)[i].deadline <= old(waiting)[j].deadline
    {
      count := 0;
      ghost var w := waiting;
      while limit == 0 || count < limit
        invariant 0 <= count <= DueCount(w, now) && (limit != 0 ==> count <= limit)
        invariant Sorted(waiting) && waiting == w[count..] && run == old(run) + w[..count]
        decreases |w| - count
      {
        var t := ExpireOne(now);
        if t == [] {
          NoneLeft(w, now, count);
          break;
        }
        OneMoreDue(w, now, count);
        run := run + t;
        count := count + 1;
      }
      forall i | 0 <= i < count ensures w[i].deadline <= now {
        DueInFront(w, now, i);
      }
      SortedDeadlines(w);
    }

    /** `waitq_next_deadline` */
    method NextDeadline(now: int) returns (timeout: int)
      requires Sorted(waiting)
      ensures timeout == -1 <==> waiting == []
      ensures forall t :: t in waiting ==> timeout <= (if t.deadline < now then 0 else t.deadline - now)
      ensures waiting != [] ==> exists t :: t in waiting && timeout == if t.deadline < now then 0 else t.deadline - now
    {
      if waiting == [] {
        return -1;
      }
      timeout := if waiting[0].deadline < now then 0 else waiting[0].deadline - now;
      assert waiting[0] in waiting;
      SortedDeadlines(waiting);
    }

    /** `wset_add`: the wake-up hook is called exactly when the timer is the earliest. */
    method Insert(t: Timer) returns (wake: bool)
      requires Sorted(waiting) && t !in waiting
      modifies this`waiting
      ensures Sorted(waiting) && multiset(waiting) == old(multiset(waiting)) + multiset{t}
      ensures wake <==> Ioq.First(Elements(waiting), t)
    {
      ghost var w := waiting;
      var k := Place(waiting, t);
      InsertSorted(w, t, k);
      waiting := waiting[..k] + [t] + waiting[k..];
      assert w == w[..k] + w[k..];
      assert waiting[k] == t;
      wake := k == 0;
      FirstIsFront(waiting, t, k);
    }
  }

  lemma {:induction false} InsertSorted(w: seq<Timer>, t: Timer, k: nat)
    requires Sorted(w) && t !in w && k <= |w| && (forall i :: 0 <= i < k ==> Compare(w[i], t) < 0)
    requires k < |w| ==> Compare(w[k], t) >= 0
    ensures Sorted(w[..k] + [t] + w[k..])
  {
    var r := w[..k] + [t] + w[k..];
    if k < |w| {
      assert w[k] in w && w[k] != t;
    }
    forall i, j | 0 <= i < j < |r| ensures Compare(r[i], r[j]) < 0 {
      assert i < k ==> r[i] == w[i];
      assert j > k ==> r[j] == w[j - 1];
      assert i > k ==> r[i] == w[i - 1];
      if i == k {
        assert Compare(t, w[k]) < 0;
        assert k < j - 1 ==> Compare(w[k], w[j - 1]) < 0;
      }
    }
  }

  lemma {:induction false} FirstIsFront(s: seq<Timer>, t: Timer, k: nat)
    requires Sorted(s) && k < |s| && s[k] == t
    ensures k == 0 <==> Ioq.First(Elements(s), t)
  {
    if k == 0 {
      forall x | x in s && x != t ensures Ioq.Earlier(t, x) {
        var i :| 0 <= i < |s| && s[i] == x;
        assert Compare(s[0], s[i]) < 0;
      }
    } else {
      assert s[0] in Elements(s) && Compare(s[0], s[k]) < 0;
      CompareIsOrder(s[0], t, t);
    }
  }

  lemma {:induction false} SortedDeadlines(s: seq<Timer>)
    requires Sorted(s)
    ensures forall i, j :: 0 <= i < j < |s| ==> s[i].deadline <= s[j].deadline
  {
    forall i, j | 0 <= i < j < |s| ensures s[i].deadline <= s[j].deadline {
      assert Compare(s[i], s[j]) < 0;
    }
  }

  lemma {:induction false} NoneLeft(w: seq<Timer>, now: int, k: nat)
    requires Sorted(w) && k <= DueCount(w, now) && (w[k..] == [] || w[k..][0].deadline > now)
    ensures forall t :: t in w[k..] ==> t.deadline > now
  {
    SortedDeadlines(w);
  }

  lemma {:induction false} OneMoreDue(w: seq<Timer>, now: int, k: nat)
    requires k < |w| && k <= DueCount(w, now) && w[k].deadline <= now
    ensures k + 1 <= DueCount(w, now)
  {
    SplitDue(w, now, k);
  }

  // ---------------------------------------------------- one wait, one callback

  /** The timers' deadlines, the waiting set, and the threads that are between two
      locks: about to add a timer, about to give it a new deadline, about to clear
      it after cancelling, about to queue the task of a cancelled one. The run queue
      is kept with what has left it. */
  datatype State = State(
    deadline: map<nat, int>, waiting: set<Timer>,
    adding: multiset<nat>, moving: multiset<nat>, clearing: multiset<nat>, cancelled: multiset<nat>,
    dispatch: Dispatch, queue: seq<Entry>, popped: seq<Entry>, waits: multiset<nat>, execs: multiset<nat>)

  /** Whether `waitq_dispatch` is running, its one reading of the clock, and the timer
      that it has taken out and not yet given to the run queue. Between two calls of
      `expire_one` it holds no lock. */
  datatype Dispatch = Off | On(now: int) | Holding(now: int, timer: Timer)

  /** A task in the run queue: given by the dispatch, or by a cancel. */
  datatype Entry = Due(timer: Timer) | Cancelled(t: nat)

  datatype Step =
    | Wait(t: nat, deadline: int) | Add(t: nat)
    | DispatchStart(now: int) | Expire(t: nat) | ExecDue | DispatchEnd
    | Cancel(t: nat) | ClearDeadline(t: nat) | Exec(t: nat)
    | Reschedule(t: nat) | Move(t: nat, deadline: int)
    | Run

  function Addr(e: Entry): nat { if e.Due? then e.timer.addr else e.t }

  /** The tasks in the order in which they were given to the run queue. */
  function Submitted(s: State): seq<Entry> { s.popped + s.queue }

  predicate Queued(s: State, t: nat) { exists i :: 0 <= i < |s.queue| && Addr(s.queue[i]) == t }

  function KeyOf(s: State, t: nat): Timer
    requires t in s.deadline
  {
    Ioq.Timer(s.deadline[t], t)
  }

  predicate Enabled(s: State, st: Step)
  {
    match st
    case DispatchStart(_) => s.dispatch.Off?
    case DispatchEnd => s.dispatch.On? && forall x :: x in s.waiting ==> x.deadline > s.dispatch.now
    case Wait(t, _) => t in s.deadline && s.waits[t] == s.execs[t] && !Queued(s, t)
    case Add(t) => t in s.deadline && s.adding[t] > 0
    case Expire(t) =>
      t in s.deadline && s.dispatch.On? && Ioq.First(s.waiting, KeyOf(s, t)) && s.deadline[t] <= s.dispatch.now
    case ExecDue => s.dispatch.Holding?
    case Cancel(t) => t in s.deadline
    case ClearDeadline(t) => t in s.deadline && s.clearing[t] > 0
    case Exec(t) => t in s.deadline && s.cancelled[t] > 0
    case Reschedule(t) => t in s.deadline
    case Move(t, _) => t in s.deadline && s.moving[t] > 0
    case Run => s.queue != []
  }

  function Apply(s: State, st: Step): State
    requires Enabled(s, st)
  {
    match st
    case DispatchStart(now) => s.(dispatch := On(now))
    case DispatchEnd => s.(dispatch := Off)
    case Wait(t, d) =>
      s.(deadline := s.deadline[t := d], adding := s.adding + multiset{t}, waits := s.waits + multiset{t})
    case Add(t) => s.(adding := s.adding - multiset{t}, waiting := s.waiting + {KeyOf(s, t)})
    case Expire(t) => s.(waiting := s.waiting - {KeyOf(s, t)}, dispatch := Holding(s.dispatch.now, KeyOf(s, t)))
    case ExecDue =>
      var x := s.dispatch.timer;
      s.(dispatch := On(s.dispatch.now), queue := s.queue + [Due(x)], execs := s.execs + multiset{x.addr})
    case Cancel(t) =>
      if KeyOf(s, t) !in s.waiting then s
      else s.(waiting := s.waiting - {KeyOf(s, t)}, clearing := s.clearing + multiset{t})
    case ClearDeadline(t) =>
      s.(deadline := s.deadline[t := 0], clearing := s.clearing - multiset{t}, cancelled := s.cancelled + multiset{t})
    case Exec(t) =>
      s.(cancelled := s.cancelled - multiset{t}, execs := s.execs + multiset{t}, queue := s.queue + [Cancelled(t)])
    case Reschedule(t) =>
      if KeyOf(s, t) !in s.waiting then s
      else s.(waiting := s.waiting - {KeyOf(s, t)}, moving := s.moving + multiset{t})
    case Move(t, d) =>
      s.(deadline := s.deadline[t := d], moving := s.moving - multiset{t}, adding := s.adding + multiset{t})
    case Run => s.(queue := s.queue[1..], popped := s.popped + [s.queue[0]])
  }

  predicate Initial(s: State) {
    && s.dispatch.Off? && s.waiting == {} && s.queue == [] && s.popped == []
    && s.waits == multiset{} && s.execs == multiset{}
    && s.adding == multiset{} && s.moving == multiset{} && s.clearing == multiset{} && s.cancelled == multiset{}
  }

  predicate Reaches(s: State, run: seq<Step>, s': State)
    decreases |run|
  {
    if run == [] then s' == s else Enabled(s, run[0]) && Reaches(Apply(s, run[0]), run[1..], s')
  }

  predicate InDispatch(s: State, t: nat) { s.dispatch.Holding? && s.dispatch.timer.addr == t }

  /** In how many hands a timer is. */
  function Held(s: State, t: nat): nat
    requires t in s.deadline
  {
    (if KeyOf(s, t) in s.waiting then 1 else 0) + (if InDispatch(s, t) then 1 else 0)
    + s.adding[t] + s.moving[t] + s.clearing[t] + s.cancelled[t]
  }

  ghost predicate TimerOk(s: State, t: nat)
    requires t in s.deadline
  {
    s.waits[t] == s.execs[t] + Held(s, t) && Held(s, t) <= 1 && (Queued(s, t) ==> Held(s, t) == 0)
  }

  /** A timer in the set, or held by the dispatch, is there under its current deadline. */
  ghost predicate KeysCurrent(s: State) {
    && (forall x :: x in s.waiting ==> x.addr in s.deadline && s.deadline[x.addr] == x.deadline)
    && (s.dispatch.Holding? ==>
        && s.dispatch.timer.addr in s.deadline && s.deadline[s.dispatch.timer.addr] == s.dispatch.timer.deadline
        && s.dispatch.timer.deadline <= s.dispatch.now)
  }

  /** No task is in the run queue twice. */
  ghost predicate QueuedOnce(s: State) {
    forall i, j :: 0 <= i < j < |s.queue| ==> Addr(s.queue[i]) != Addr(s.queue[j])
  }

  ghost predicate Inv(s: State) {
    KeysCurrent(s) && QueuedOnce(s) && forall t :: t in s.deadline ==> TimerOk(s, t)
  }

  /** A timer that is not in the set under its key is not in it at all. */
  lemma {:induction false} NotInSet(s: State, t: nat)
    requires KeysCurrent(s) && t in s.deadline && KeyOf(s, t) !in s.waiting
    ensures forall x :: x in s.waiting ==> x.addr != t
  {
  }

  lemma {:induction false} InvKept(s: State, st: Step)
    requires Inv(s) && Enabled(s, st)
    ensures Inv(Apply(s, st))
  {
    hide Enabled, Apply, TimerOk, KeysCurrent, QueuedOnce;
    KeysKept(s, st);
    QueueKept(s, st);
    forall t | t in Apply(s, st).deadline ensures TimerOk(Apply(s, st), t) {
      TimerKept(s, st, t);
    }
  }

  /** The timer that a step is about. */
  predicate Moves(s: State, st: Step, t: nat) {
    match st
    case DispatchStart(_) => false
    case DispatchEnd => false
    case Run => false
    case ExecDue => InDispatch(s, t)
    case _ => st.t == t
  }

  lemma {:induction false} KeysKept(s: State, st: Step)
    requires KeysCurrent(s) && (forall t :: t in s.deadline ==> TimerOk(s, t)) && Enabled(s, st)
    ensures KeysCurrent(Apply(s, st)) && Apply(s, st).deadline.Keys == s.deadline.Keys
  {
    hide Queued, TimerOk, KeysCurrent;
    if st.Wait? || st.ClearDeadline? || st.Move? {
      InAnotherHand(s, st);
      NewDeadline(s, Apply(s, st), st.t);
    } else {
      SameDeadlines(s, st);
    }
  }

  lemma {:induction false} NewDeadline(s: State, s': State, t: nat)
    requires KeysCurrent(s) && t in s.deadline && KeyOf(s, t) !in s.waiting && s'.waiting == s.waiting
    requires !InDispatch(s, t)
    requires s'.dispatch == s.dispatch && t in s'.deadline && s'.deadline == s.deadline[t := s'.deadline[t]]
    ensures KeysCurrent(s') && s'.deadline.Keys == s.deadline.Keys
  {
    NotInSet(s, t);
  }

  lemma {:induction false} NoNewKeys(s: State, s': State, added: set<Timer>)
    requires KeysCurrent(s) && s'.waiting <= s.waiting + added && s'.deadline == s.deadline
    requires forall x :: x in added ==> x.addr in s.deadline && s.deadline[x.addr] == x.deadline
    requires s'.dispatch.Holding? ==>
      && s'.dispatch.timer.addr in s.deadline && s.deadline[s'.dispatch.timer.addr] == s'.dispatch.timer.deadline
      && s'.dispatch.timer.deadline <= s'.dispatch.now
    ensures KeysCurrent(s')
  {
  }

  lemma {:induction false} SameDeadlines(s: State, st: Step)
    requires KeysCurrent(s) && Enabled(s, st) && !st.Wait? && !st.ClearDeadline? && !st.Move?
    ensures KeysCurrent(Apply(s, st)) && Apply(s, st).deadline.Keys == s.deadline.Keys
  {
    hide Queued;
    NoNewKeys(s, Apply(s, st), if st.Add? then {KeyOf(s, st.t)} else {});
  }

  /** A timer whose deadline is about to change is not in the set, nor with the dispatch. */
  lemma {:induction false} InAnotherHand(s: State, st: Step)
    requires Enabled(s, st) && (st.Wait? || st.ClearDeadline? || st.Move?) && TimerOk(s, st.t)
    ensures KeyOf(s, st.t) !in s.waiting && !InDispatch(s, st.t)
  {
    hide Queued;
  }

  lemma {:induction false} QueueKept(s: State, st: Step)
    requires Inv(s) && Enabled(s, st)
    ensures QueuedOnce(Apply(s, st))
  {
    if st.ExecDue? {
      assert TimerOk(s, s.dispatch.timer.addr);
    } else if st.Exec? {
      assert TimerOk(s, st.t);
    }
  }

  lemma {:induction false} QueuedAfter(s: State, st: Step, t: nat)
    requires Enabled(s, st) && Queued(Apply(s, st), t)
    ensures Queued(s, t) || ((st.ExecDue? || st.Exec?) && Moves(s, st, t))
  {
    var s' := Apply(s, st);
    var i :| 0 <= i < |s'.queue| && Addr(s'.queue[i]) == t;
    if st.Run? {
      assert Addr(s.queue[i + 1]) == t;
    } else if i < |s.queue| {
      assert Addr(s.queue[i]) == t;
    }
  }

  lemma {:induction false} TimerKept(s: State, st: Step, t: nat)
    requires KeysCurrent(s) && Enabled(s, st) && t in s.deadline && TimerOk(s, t)
    ensures t in Apply(s, st).deadline && TimerOk(Apply(s, st), t)
  {
    if Queued(Apply(s, st), t) {
      QueuedAfter(s, st, t);
    }
    HeldAfter(s, st, t);
  }

  /** A wait brings a timer into a hand, giving it to the run queue takes it out of one,
      and all else leaves it in as many hands. */
  lemma {:induction false} HeldAfter(s: State, st: Step, t: nat)
    requires KeysCurrent(s) && Enabled(s, st) && t in s.deadline && TimerOk(s, t)
    ensures var s' := Apply(s, st);
      t in s'.deadline && s'.waits[t] - s'.execs[t] - Held(s', t) == s.waits[t] - s.execs[t] - Held(s, t)
    ensures Moves(s, st, t) && (st.ExecDue? || st.Exec?) ==> Held(Apply(s, st), t) == 0
    ensures !(Moves(s, st, t) && (st.ExecDue? || st.Exec? || st.Wait?)) ==> Held(Apply(s, st), t) == Held(s, t)
    ensures Held(Apply(s, st), t) <= 1
  {
    hide Queued, KeysCurrent, Held;
    if Moves(s, st, t) {
      HeldMoved(s, st, t);
    } else {
      HeldStill(s, st, t);
    }
  }

  /** Steps of a wait or a reschedule. */
  predicate OfWait(st: Step) { st.Wait? || st.Add? || st.Reschedule? || st.Move? }

  /** Steps of a cancel. */
  predicate OfCancel(st: Step) { st.Cancel? || st.ClearDeadline? || st.Exec? }

  lemma {:induction false} HeldStill(s: State, st: Step, t: nat)
    requires Enabled(s, st) && t in s.deadline && !Moves(s, st, t)
    ensures SameHands(s, Apply(s, st), t)
  {
    hide Apply, Enabled, SameHands, Moves;
    if OfWait(st) {
      HeldInWait(s, st, t);
    } else if OfCancel(st) {
      HeldInCancel(s, st, t);
    } else {
      HeldInDispatch(s, st, t);
    }
  }

  /** As far as `t` is concerned nothing has changed hands. */
  ghost predicate SameHands(s: State, s': State, t: nat)
    requires t in s.deadline
  {
    t in s'.deadline && s'.waits[t] == s.waits[t] && s'.execs[t] == s.execs[t] && Held(s', t) == Held(s, t)
  }

  lemma {:induction false} HeldInWait(s: State, st: Step, t: nat)
    requires Enabled(s, st) && t in s.deadline && !Moves(s, st, t) && OfWait(st)
    ensures SameHands(s, Apply(s, st), t)
  {
    hide Queued, Held, Apply, Enabled, SameHands;
    match st
    case Wait(u, d) => HeldAtWait(s, u, d, t);
    case Add(u) => HeldAtAdd(s, u, t);
    case Reschedule(u) => HeldAtReschedule(s, u, t);
    case Move(u, d) => HeldAtMove(s, u, d, t);
  }

  lemma {:induction false} HeldAtWait(s: State, u: nat, d: int, t: nat)
    requires Enabled(s, Wait(u, d)) && t in s.deadline && u != t
    ensures SameHands(s, Apply(s, Wait(u, d)), t)
  {
  }

  lemma {:induction false} HeldAtAdd(s: State, u: nat, t: nat)
    requires Enabled(s, Add(u)) && t in s.deadline && u != t
    ensures SameHands(s, Apply(s, Add(u)), t)
  {
  }

  lemma {:induction false} HeldAtReschedule(s: State, u: nat, t: nat)
    requires Enabled(s, Reschedule(u)) && t in s.deadline && u != t
    ensures SameHands(s, Apply(s, Reschedule(u)), t)
  {
  }

  lemma {:induction false} HeldAtMove(s: State, u: nat, d: int, t: nat)
    requires Enabled(s, Move(u, d)) && t in s.deadline && u != t
    ensures SameHands(s, Apply(s, Move(u, d)), t)
  {
  }

  lemma {:induction false} HeldInCancel(s: State, st: Step, t: nat)
    requires Enabled(s, st) && t in s.deadline && !Moves(s, st, t) && OfCancel(st)
    ensures SameHands(s, Apply(s, st), t)
  {
    hide Queued, Held, Apply, Enabled, SameHands;
    match st
    case Cancel(u) => HeldAtCancel(s, u, t);
    case ClearDeadline(u) => HeldAtClear(s, u, t);
    case Exec(u) => HeldAtExec(s, u, t);
  }

  lemma {:induction false} HeldAtCancel(s: State, u: nat, t: nat)
    requires Enabled(s, Cancel(u)) && t in s.deadline && u != t
    ensures SameHands(s, Apply(s, Cancel(u)), t)
  {
  }

  lemma {:induction false} HeldAtClear(s: State, u: nat, t: nat)
    requires Enabled(s, ClearDeadline(u)) && t in s.deadline && u != t
    ensures SameHands(s, Apply(s, ClearDeadline(u)), t)
  {
  }

  lemma {:induction false} HeldAtExec(s: State, u: nat, t: nat)
    requires Enabled(s, Exec(u)) && t in s.deadline && u != t
    ensures SameHands(s, Apply(s, Exec(u)), t)
  {
  }

  lemma {:induction false} HeldInDispatch(s: State, st: Step, t: nat)
    requires Enabled(s, st) && t in s.deadline && !Moves(s, st, t) && !OfWait(st) && !OfCancel(st)
    ensures SameHands(s, Apply(s, st), t)
  {
    hide Queued;
  }

  /** A hand passes the timer on. */
  ghost predicate Passed(s: State, st: Step, s': State, t: nat)
    requires t in s.deadline
  {
    && t in s'.deadline && s'.waits[t] == s'.execs[t] + Held(s', t)
    && Held(s', t) == if st.ExecDue? || st.Exec? then 0 else if st.Wait? then 1 else Held(s, t)
  }

  lemma {:induction false} HeldMoved(s: State, st: Step, t: nat)
    requires KeysCurrent(s) && Enabled(s, st) && t in s.deadline && Moves(s, st, t)
    requires s.waits[t] == s.execs[t] + Held(s, t) && Held(s, t) <= 1
    ensures Passed(s, st, Apply(s, st), t)
  {
    hide Apply, Enabled, Passed, Moves, KeysCurrent, Held;
    if OfWait(st) {
      PassedInWait(s, st, t);
    } else if OfCancel(st) {
      PassedInCancel(s, st, t);
    } else {
      PassedInDispatch(s, st, t);
    }
  }

  lemma {:induction false} PassedInWait(s: State, st: Step, t: nat)
    requires KeysCurrent(s) && Enabled(s, st) && t in s.deadline && Moves(s, st, t) && OfWait(st)
    requires s.waits[t] == s.execs[t] + Held(s, t) && Held(s, t) <= 1
    ensures Passed(s, st, Apply(s, st), t)
  {
    hide Queued, Passed, Apply, Held, KeysCurrent;
    match st
    case Wait(_, d) => PassedAtWait(s, t, d);
    case Add(_) => PassedAtAdd(s, t);
    case Reschedule(_) => PassedAtReschedule(s, t);
    case Move(_, d) => PassedAtMove(s, t, d);
  }

  lemma {:induction false} PassedAtWait(s: State, t: nat, d: int)
    requires KeysCurrent(s) && Enabled(s, Wait(t, d)) && s.waits[t] == s.execs[t] + Held(s, t)
    ensures Passed(s, Wait(t, d), Apply(s, Wait(t, d)), t)
  {
    hide Queued;
    NotInSet(s, t);
  }

  lemma {:induction false} PassedAtAdd(s: State, t: nat)
    requires Enabled(s, Add(t)) && s.waits[t] == s.execs[t] + Held(s, t) && Held(s, t) <= 1
    ensures Passed(s, Add(t), Apply(s, Add(t)), t)
  {
  }

  lemma {:induction false} PassedAtReschedule(s: State, t: nat)
    requires Enabled(s, Reschedule(t)) && s.waits[t] == s.execs[t] + Held(s, t) && Held(s, t) <= 1
    ensures Passed(s, Reschedule(t), Apply(s, Reschedule(t)), t)
  {
  }

  lemma {:induction false} PassedAtMove(s: State, t: nat, d: int)
    requires KeysCurrent(s) && Enabled(s, Move(t, d)) && s.waits[t] == s.execs[t] + Held(s, t) && Held(s, t) <= 1
    ensures Passed(s, Move(t, d), Apply(s, Move(t, d)), t)
  {
    NotInSet(s, t);
  }

  lemma {:induction false} PassedInCancel(s: State, st: Step, t: nat)
    requires KeysCurrent(s) && Enabled(s, st) && t in s.deadline && Moves(s, st, t) && OfCancel(st)
    requires s.waits[t] == s.execs[t] + Held(s, t) && Held(s, t) <= 1
    ensures Passed(s, st, Apply(s, st), t)
  {
    hide Queued, Passed, Apply, Held, KeysCurrent;
    match st
    case Cancel(_) => PassedAtCancel(s, t);
    case ClearDeadline(_) => PassedAtClear(s, t);
    case Exec(_) => PassedAtExec(s, t);
  }

  lemma {:induction false} PassedAtCancel(s: State, t: nat)
    requires Enabled(s, Cancel(t)) && s.waits[t] == s.execs[t] + Held(s, t) && Held(s, t) <= 1
    ensures Passed(s, Cancel(t), Apply(s, Cancel(t)), t)
  {
  }

  lemma {:induction false} PassedAtClear(s: State, t: nat)
    requires KeysCurrent(s) && Enabled(s, ClearDeadline(t)) && s.waits[t] == s.execs[t] + Held(s, t) && Held(s, t) <= 1
    ensures Passed(s, ClearDeadline(t), Apply(s, ClearDeadline(t)), t)
  {
    NotInSet(s, t);
  }

  lemma {:induction false} PassedAtExec(s: State, t: nat)
    requires Enabled(s, Exec(t)) && s.waits[t] == s.execs[t] + Held(s, t) && Held(s, t) <= 1
    ensures Passed(s, Exec(t), Apply(s, Exec(t)), t)
  {
  }

  lemma {:induction false} PassedInDispatch(s: State, st: Step, t: nat)
    requires KeysCurrent(s) && Enabled(s, st) && t in s.deadline && Moves(s, st, t) && !OfWait(st) && !OfCancel(st)
    requires s.waits[t] == s.execs[t] + Held(s, t) && Held(s, t) <= 1
    ensures Passed(s, st, Apply(s, st), t)
  {
    hide Queued;
  }

  lemma {:induction false} InvRun(s: State, run: seq<Step>, s': State)
    requires Inv(s) && Reaches(s, run, s')
    ensures Inv(s')
    decreases |run|
  {
    hide Inv, Apply, Enabled;
    if run != [] {
      InvKept(s, run[0]);
      InvRun(Apply(s, run[0]), run[1..], s');
    }
  }

  lemma {:induction false} InvInitial(s: State)
    requires Initial(s)
    ensures Inv(s)
  {
  }

  /** Under any mix of expiries, cancels and reschedules, from any threads, each wait
      gives its task to the run queue once: it is still in one hand, or it has been. */
  lemma {:induction false} OneExecPerWait(s0: State, run: seq<Step>, s: State, t: nat)
    requires Initial(s0) && Reaches(s0, run, s) && t in s.deadline
    ensures s.execs[t] <= s.waits[t] <= s.execs[t] + 1
    ensures s.waits[t] == s.execs[t] + Held(s, t)
    ensures QueuedOnce(s) && (Queued(s, t) ==> Held(s, t) == 0)
    ensures s.dispatch.Holding? ==> s.dispatch.timer.deadline <= s.dispatch.now
    ensures forall x :: x in s.waiting && x.addr == t ==> x.deadline == s.deadline[t]
  {
    InvRun(s0, run, s);
    assert TimerOk(s, t);
  }

  // ------------------------------------------------------ one dispatch on a run

  /** Timer `x` is waiting, or the dispatch has it, or it has been given to the run queue
      as one of the tasks from the `n`th on. */
  ghost predicate OnItsWay(s: State, n: nat, x: Timer) {
    || x in s.waiting || (s.dispatch.Holding? && s.dispatch.timer == x)
    || exists i :: n <= i < |Submitted(s)| && Submitted(s)[i] == Due(x)
  }

  /** The step takes the timer out of the set, other than by expiry. */
  predicate TakesBack(st: Step, t: nat) { (st.Cancel? || st.Reschedule?) && st.t == t }

  lemma {:induction false} SubmittedAfter(s: State, st: Step)
    requires Enabled(s, st)
    ensures Submitted(Apply(s, st)) == Submitted(s) + (
        if st.ExecDue? then [Due(s.dispatch.timer)] else if st.Exec? then [Cancelled(st.t)] else [])
  {
    if st.Run? {
      assert s.queue == [s.queue[0]] + s.queue[1..];
    }
  }

  lemma {:induction false} StaysOnItsWay(s: State, st: Step, n: nat, x: Timer)
    requires Inv(s) && Enabled(s, st) && OnItsWay(s, n, x) && n <= |Submitted(s)| && !TakesBack(st, x.addr)
    ensures OnItsWay(Apply(s, st), n, x) && n <= |Submitted(Apply(s, st))|
  {
    hide Submitted, TimerOk, Queued;
    SubmittedAfter(s, st);
    var u, u' := Submitted(s), Submitted(Apply(s, st));
    if i :| n <= i < |u| && u[i] == Due(x) {
      assert u'[i] == Due(x);
    } else if st.ExecDue? && s.dispatch.timer == x {
      assert u'[|u|] == Due(x);
    }
  }

  lemma {:induction false} OnItsWayOnRun(s: State, run: seq<Step>, s': State, n: nat, x: Timer)
    requires Inv(s) && Reaches(s, run, s') && OnItsWay(s, n, x) && n <= |Submitted(s)|
    requires forall i :: 0 <= i < |run| ==> !TakesBack(run[i], x.addr)
    ensures OnItsWay(s', n, x)
    decreases |run|
  {
    hide Inv, Apply, Enabled, OnItsWay, Submitted;
    if run != [] {
      InvKept(s, run[0]);
      StaysOnItsWay(s, run[0], n, x);
      OnItsWayOnRun(Apply(s, run[0]), run[1..], s', n, x);
    }
  }

  lemma {:induction false} SameDispatch(s: State, run: seq<Step>, s': State)
    requires Reaches(s, run, s') && !s.dispatch.Off? && forall i :: 0 <= i < |run| ==> !run[i].DispatchEnd?
    ensures !s'.dispatch.Off? && s'.dispatch.now == s.dispatch.now
    decreases |run|
  {
    if run != [] {
      SameDispatch(Apply(s, run[0]), run[1..], s');
    }
  }

  /** From its reading of the clock to its end, whatever other threads do in between: a
      dispatch gives every timer that was due at the reading to the run queue, unless a
      cancel or a reschedule takes it out first. */
  lemma {:induction false} DueLeave(s0: State, before: seq<Step>, s: State, run: seq<Step>, s': State, x: Timer)
    requires Initial(s0) && Reaches(s0, before, s) && s.dispatch.On? && x in s.waiting && x.deadline <= s.dispatch.now
    requires Reaches(s, run, s') && Enabled(s', DispatchEnd) && forall i :: 0 <= i < |run| ==> !run[i].DispatchEnd?
    ensures || (exists i :: 0 <= i < |run| && TakesBack(run[i], x.addr))
            || (exists i :: |Submitted(s)| <= i < |Submitted(s')| && Submitted(s')[i] == Due(x))
  {
    hide Inv, Submitted;
    InvInitial(s0);
    InvRun(s0, before, s);
    SameDispatch(s, run, s');
    if forall i :: 0 <= i < |run| ==> !TakesBack(run[i], x.addr) {
      OnItsWayOnRun(s, run, s', |Submitted(s)|, x);
    }
  }

  /** The dispatch gives timers to the run queue in order, from the `n`th task on, and
      all that are waiting come after them. */
  ghost predicate InOrder(s: State, n: nat) {
    var u := Submitted(s);
    && (forall i, j :: n <= i < j < |u| && u[i].Due? && u[j].Due? ==> Ioq.Earlier(u[i].timer, u[j].timer))
    && (forall i, x :: n <= i < |u| && u[i].Due? && x in s.waiting ==> Ioq.Earlier(u[i].timer, x))
    && (s.dispatch.Holding? ==>
        && (forall i :: n <= i < |u| && u[i].Due? ==> Ioq.Earlier(u[i].timer, s.dispatch.timer))
        && (forall x :: x in s.waiting ==> Ioq.Earlier(s.dispatch.timer, x)))
  }

  lemma {:induction false} OrderKept(s: State, st: Step, n: nat)
    requires InOrder(s, n) && n <= |Submitted(s)| && Enabled(s, st) && !st.Add?
    ensures InOrder(Apply(s, st), n) && n <= |Submitted(Apply(s, st))|
  {
    hide Submitted, Queued;
    SubmittedAfter(s, st);
  }

  lemma {:induction false} OrderOnRun(s: State, run: seq<Step>, s': State, n: nat)
    requires InOrder(s, n) && n <= |Submitted(s)| && Reaches(s, run, s') && forall i :: 0 <= i < |run| ==> !run[i].Add?
    ensures InOrder(s', n)
    decreases |run|
  {
    hide InOrder, Submitted, Apply, Enabled;
    if run != [] {
      OrderKept(s, run[0], n);
      OrderOnRun(Apply(s, run[0]), run[1..], s', n);
    }
  }

  /** Between two insertions the timers of all dispatches stand in the run queue in the
      order of their deadlines. */
  lemma {:induction false} SubmissionOrder(s: State, run: seq<Step>, s': State, i: nat, j: nat)
    requires Reaches(s, run, s') && !s.dispatch.Holding? && forall k :: 0 <= k < |run| ==> !run[k].Add?
    requires |Submitted(s)| <= i < j < |Submitted(s')| && Submitted(s')[i].Due? && Submitted(s')[j].Due?
    ensures Ioq.Earlier(Submitted(s')[i].timer, Submitted(s')[j].timer)
    ensures Submitted(s')[i].timer.deadline <= Submitted(s')[j].timer.deadline
  {
    OrderOnRun(s, run, s', |Submitted(s)|);
  }
}
