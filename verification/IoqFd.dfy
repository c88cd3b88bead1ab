/** One wait, one callback: the flags, the modification list and the kernel's
    set in io/ioq_linux.c agree in every interleaving. */
module IoqFd {
  import opened Ioq
  import opened Sequences

  /** What the loop has in hand for a descriptor, between two locks. */
  datatype Hand = Free | OfEvent | OfList(waiting: bool, epoll: bool, requested: Mask) | OfStop | OfAdd | OfFail

  datatype Registration = Absent | Registered(mask: Mask)

  /** Everything the state says about one descriptor. */
  datatype View = View(g: Fd, inMods: bool, reg: Registration, hand: Hand, queued: nat)

  function HandOf(pc: Pc, f: nat): Hand {
    match pc
    case Deleted(x, _) => if x == f then OfEvent else Free
    case Got(x, w, e, r) => if x == f then OfList(w, e, r) else Free
    case Stopped(x) => if x == f then OfStop else Free
    case Added(x) => if x == f then OfAdd else Free
    case Failed(x) => if x == f then OfFail else Free
    case _ => Free
  }

  function RegOf(kernel: map<nat, Mask>, f: nat): Registration { if f in kernel then Registered(kernel[f]) else Absent }

  function ViewOf(s: State, f: nat): View
    requires f in s.fds
  {
    View(s.fds[f], f in s.mods, RegOf(s.kernel, f), HandOf(s.pc, f), multiset(s.jobs)[FdTask(f)])
  }

  /** A wait has begun and its callback has not been queued. */
  predicate Outstanding(v: View) { v.g.waiting || v.g.listed || !v.hand.Free? }

  /** What is in hand matches the flags and the kernel. */
  ghost predicate HandOk(v: View) {
    match v.hand
    case Free => (v.reg.Registered? <==> v.g.epoll)
    case OfEvent => v.g.waiting && v.reg.Absent?
    case OfList(w, e, r) =>
      && w == v.g.waiting && e == v.g.epoll && (v.reg.Registered? <==> e)
      && (!v.g.listed ==> r == v.g.requested) && (!w ==> !v.g.listed && !e)
    case OfStop => v.g.waiting && v.reg.Absent?
    case OfAdd => v.g.waiting && v.reg.Registered? && v.reg.mask != {} && (!v.g.listed ==> v.reg.mask == v.g.requested)
    case OfFail => v.g.waiting && (v.reg.Registered? <==> v.g.epoll)
  }

  ghost predicate ViewOk(v: View)
  {
    true == (
      && (v.g.listed <==> v.inMods)
      && v.g.waits == v.g.execs + (if Outstanding(v) then 1 else 0)
      && v.queued <= (if Outstanding(v) then 0 else 1)
      && (v.g.setting ==> v.g.waiting && !v.g.listed && !v.g.epoll && v.hand.Free? && v.g.requested != {})
      && (!v.g.waiting ==> !v.g.epoll)
      && HandOk(v)
      && (v.g.waiting && !v.g.listed && !v.g.setting && v.hand.Free? ==>
        v.reg == Registered(v.g.requested) && v.g.requested != {}))
  }

  /** The events that `epoll_wait` has returned and that are still to be handled. */
  function Pending(pc: Pc): seq<Event> {
    if pc.Draining? || pc.Clearing? || pc.Events? || pc.Deleted? then pc.evts else []
  }

  ghost predicate EventOk(s: State, e: Event) {
    e.Ready? ==>
      e.fd in s.fds && s.fds[e.fd].waiting && s.fds[e.fd].epoll && e.fd in s.kernel && HandOf(s.pc, e.fd).Free?
  }

  ghost predicate DistinctFds(evts: seq<Event>) {
    forall i, j :: 0 <= i < j < |evts| && evts[i].Ready? && evts[j].Ready? ==> evts[i].fd != evts[j].fd
  }

  ghost predicate Plain(pc: Pc) { pc.Mods? || pc.Timers? || pc.Callback? }

  ghost predicate ModsOk(s: State) { true == (Once(s.mods) && forall f :: f in s.mods ==> f in s.fds) }

  ghost predicate KernelOk(s: State) { forall f :: f in s.kernel ==> f in s.fds }

  ghost predicate EventsOk(s: State) {
    true == ((forall e :: e in Pending(s.pc) ==> EventOk(s, e)) && DistinctFds(Pending(s.pc)))
  }

  ghost predicate PcOk(s: State) {
    && ((s.pc.Hook? || s.pc.HookWrite?) ==> Plain(s.pc.next))
    && ((s.pc.Deleted? || s.pc.Got? || s.pc.Stopped? || s.pc.Added? || s.pc.Failed?) ==> s.pc.fd in s.fds)
  }

  ghost predicate Shape(s: State) { true == (ModsOk(s) && KernelOk(s) && EventsOk(s) && PcOk(s)) }

  ghost predicate AllOk(s: State) { forall f :: f in s.fds ==> ViewOk(ViewOf(s, f)) }

  ghost predicate FdInv(s: State) { Shape(s) && AllOk(s) }

  lemma {:induction false} FdInitial(s: State)
    requires Initial(s)
    ensures FdInv(s)
  {
  }

  /** Every descriptor but `f` looks as it did. */
  ghost predicate OnlyFd(s: State, s': State, f: nat) {
    s'.fds.Keys == s.fds.Keys && forall x :: x in s.fds && x != f ==> ViewOf(s', x) == ViewOf(s, x)
  }

  lemma {:induction false} OthersOk(s: State, s': State, f: nat)
    requires AllOk(s) && OnlyFd(s, s', f) && f in s'.fds && ViewOk(ViewOf(s', f))
    ensures AllOk(s')
  {
    forall x | x in s'.fds ensures ViewOk(ViewOf(s', x)) {
      if x != f {
        assert x in s.fds && ViewOk(ViewOf(s, x));
      }
    }
  }

  lemma {:induction false} NoEvents(s: State)
    requires Pending(s.pc) == []
    ensures EventsOk(s)
  {
  }

  /** `mod_enqueue_nolock` puts the descriptor on the list, once. */
  lemma {:induction false} EnqueueFacts(s: State, f: nat, g: Fd)
    requires ModsOk(s) && f in s.fds && (g.listed <==> f in s.mods)
    ensures var s' := Enqueue(s, f, g);
      && ModsOk(s') && (forall x :: x in s'.mods <==> x in s.mods || x == f)
      && s' == s.(fds := s'.fds, mods := s'.mods) && s'.fds == s.fds[f := g.(listed := true)]
  {
    var s' := Enqueue(s, f, g);
    if !g.listed {
      assert forall x :: x in s'.mods <==> x in s.mods || x == f;
    } else {
      assert g.(listed := true) == g;
    }
  }

  /** A step that stores `g` for `f` and puts `f` on the list, and does nothing
      else to descriptors. */
  ghost predicate Listing(s: State, s': State, f: nat, g: Fd)
  {
    true == (
      && f in s.fds && g.listed == s.fds[f].listed && s'.fds == Enqueue(s, f, g).fds && s'.mods == Enqueue(s, f, g).mods
      && s'.kernel == s.kernel && s'.jobs == s.jobs && (forall x :: x != f ==> HandOf(s'.pc, x) == HandOf(s.pc, x))
      && HandOf(s'.pc, f) == (if s'.pc == s.pc then HandOf(s.pc, f) else Free))
  }

  lemma {:induction false} ListingViews(s: State, s': State, f: nat, g: Fd)
    requires Shape(s) && AllOk(s) && Listing(s, s', f, g)
    requires ViewOk(View(g.(listed := true), true, RegOf(s.kernel, f), HandOf(s'.pc, f), multiset(s.jobs)[FdTask(f)]))
    ensures AllOk(s') && ModsOk(s') && KernelOk(s')
  {
    assert ViewOk(ViewOf(s, f));
    EnqueueFacts(s, f, g);
    assert ViewOf(s', f) ==
      View(g.(listed := true), true, RegOf(s.kernel, f), HandOf(s'.pc, f), multiset(s.jobs)[FdTask(f)]);
    OthersOk(s, s', f);
  }

  /** A step after which `f` has the view `v`; the list and all else stay. */
  ghost predicate Storing(s: State, s': State, f: nat, v: View)
  {
    true == (
      && f in s.fds && s'.fds == s.fds[f := v.g] && s'.mods == s.mods
      && v.inMods == (f in s.mods) && v.reg == RegOf(s'.kernel, f) && v.hand == HandOf(s'.pc, f)
      && v.queued == multiset(s'.jobs)[FdTask(f)]
      && (forall x :: x != f ==> RegOf(s'.kernel, x) == RegOf(s.kernel, x))
      && (forall x :: x != f ==> HandOf(s'.pc, x) == HandOf(s.pc, x))
      && (forall x :: x != f ==> multiset(s'.jobs)[FdTask(x)] == multiset(s.jobs)[FdTask(x)]))
  }

  lemma {:induction false} StoringViews(s: State, s': State, f: nat, v: View)
    requires ModsOk(s) && KernelOk(s) && AllOk(s) && Storing(s, s', f, v) && ViewOk(v)
    ensures AllOk(s') && ModsOk(s') && KernelOk(s')
  {
    assert ViewOf(s', f) == v;
    OthersOk(s, s', f);
    forall x | x in s'.kernel ensures x in s'.fds {
      assert RegOf(s'.kernel, x).Registered?;
    }
  }

  // ------------------------------------------------------- steps of the loop

  lemma {:induction false} RestEvents(evts: seq<Event>)
    requires evts != [] && DistinctFds(evts)
    ensures DistinctFds(evts[1..])
    ensures forall x :: x in evts[1..] ==> x in evts && (x.Ready? && evts[0].Ready? ==> x.fd != evts[0].fd)
  {
    var rest := evts[1..];
    assert forall i :: 0 <= i < |rest| ==> rest[i] == evts[i + 1];
    forall x | x in rest ensures x in evts && (x.Ready? && evts[0].Ready? ==> x.fd != evts[0].fd) {
      var i :| 0 <= i < |rest| && rest[i] == x;
    }
  }

  lemma {:induction false} NextEventKept(s: State)
    requires FdInv(s) && s.pc.Events?
    ensures LoopEnabled(s, NextEvent) && FdInv(NextEventStep(s))
  {
    hide ViewOk, ModsOk, DistinctFds;
    if s.pc.evts == [] {
      NoEvents(s.(pc := Mods));
      SameViews(s, s.(pc := Mods));
    } else {
      RestEvents(s.pc.evts);
      assert s.pc.evts[0] in Pending(s.pc) && EventOk(s, s.pc.evts[0]);
      if s.pc.evts[0].Pipe? {
        SameViews(s, s.(pc := Events(s.pc.evts[1..])));
      } else {
        DeleteKept(s, s.pc.evts[0].fd, s.pc.evts[0].events, s.pc.evts[1..]);
      }
    }
  }

  lemma {:induction false} SameViews(s: State, s': State)
    requires AllOk(s) && ModsOk(s) && KernelOk(s) && s'.fds == s.fds && s'.mods == s.mods && s'.kernel == s.kernel
    requires s'.jobs == s.jobs
    requires forall f :: HandOf(s'.pc, f) == HandOf(s.pc, f)
    ensures AllOk(s') && ModsOk(s') && KernelOk(s')
  {
    forall f | f in s'.fds ensures ViewOk(ViewOf(s', f)) {
      assert ViewOf(s', f) == ViewOf(s, f);
    }
  }

  lemma {:induction false} DeleteKept(s: State, f: nat, events: Mask, rest: seq<Event>)
    requires FdInv(s) && s.pc.Events? && s.pc.evts != [] && s.pc.evts[0] == Ready(f, events) && rest == s.pc.evts[1..]
    requires DistinctFds(rest) && forall x :: x in rest ==> x in s.pc.evts && (x.Ready? ==> x.fd != f)
    ensures f in s.fds && FdInv(NextEventStep(s))
  {
    hide ModsOk, KernelOk;
    assert s.pc.evts[0] in Pending(s.pc) && EventOk(s, s.pc.evts[0]);
    var s', v := NextEventStep(s), ViewOf(s, f);
    assert ViewOk(v);
    assert EventsOk(s') by {
      forall x | x in rest ensures EventOk(s', x) {
        assert EventOk(s, x);
      }
    }
    StoringViews(s, s', f, v.(g := v.g.(ready := events), reg := Absent, hand := OfEvent));
  }

  lemma {:induction false} MarkReadyKept(s: State)
    requires FdInv(s) && s.pc.Deleted?
    ensures LoopEnabled(s, MarkReady) && FdInv(MarkReadyStep(s))
  {
    var f, s' := s.pc.fd, MarkReadyStep(s);
    assert ViewOk(ViewOf(s, f));
    ListingViews(s, s', f, s.fds[f].(epoll := false, waiting := false));
    forall x | x in Pending(s'.pc) ensures EventOk(s', x) {
      assert EventOk(s, x);
    }
  }

  lemma {:induction false} DequeueKept(s: State, now: int)
    requires FdInv(s) && s.pc.Mods?
    ensures LoopEnabled(s, Dequeue(now)) && FdInv(DequeueStep(s, now))
  {
    hide EventsOk;
    if s.mods != [] {
      assert s.mods[0] in s.mods;
    }
    var s' := DequeueStep(s, now);
    NoEvents(s');
    if s.mods == [] {
      SameViews(s, s');
    } else {
      PopKept(s, now);
    }
  }

  lemma {:induction false} PopKept(s: State, now: int)
    requires ModsOk(s) && KernelOk(s) && AllOk(s) && s.pc.Mods? && s.mods != []
    ensures s.mods[0] in s.fds && AllOk(DequeueStep(s, now)) && ModsOk(DequeueStep(s, now))
  {
    var f, s' := s.mods[0], DequeueStep(s, now);
    assert f in s.mods && ViewOk(ViewOf(s, f));
    assert s.mods == [f] + s'.mods;
    assert f !in s'.mods;
    OthersOk(s, s', f);
  }

  lemma {:induction false} ExecCount(u: Use, s: State, j: Job, who: Who, f: nat)
    ensures multiset(Exec(u, s, j, who).jobs)[FdTask(f)] ==
      multiset(s.jobs)[FdTask(f)] + (if j == FdTask(f) then 1 else 0)
  {
  }

  lemma {:induction false} CompleteKept(u: Use, s: State, f: nat)
    requires FdInv(s) && s.pc.Got? && s.pc.fd == f && !s.pc.waiting
    ensures FdInv(ProcessStep(u, s, false))
  {
    hide ModsOk, KernelOk, EventsOk, AllOk, Storing, ViewOk;
    var s', v := ProcessStep(u, s, false), ViewOf(s, f);
    ViewNow(s, f);
    CompleteStores(u, s, f);
    CompleteView(v);
    StoringViews(s, s', f, v.(g := v.g.(execs := v.g.execs + 1), hand := Free, queued := v.queued + 1));
    NoEvents(s');
  }

  lemma {:induction false} CompleteView(v: View)
    requires ViewOk(v) && v.hand.OfList? && !v.hand.waiting
    ensures ViewOk(v.(g := v.g.(execs := v.g.execs + 1), hand := Free, queued := v.queued + 1))
  {
  }

  lemma {:induction false} CompleteStores(u: Use, s: State, f: nat)
    requires s.pc.Got? && s.pc.fd == f && !s.pc.waiting && f in s.fds
    ensures var v := ViewOf(s, f);
      Storing(s, ProcessStep(u, s, false), f,
              v.(g := v.g.(execs := v.g.execs + 1), hand := Free, queued := v.queued + 1))
  {
    var s', g := ProcessStep(u, s, false), s.fds[f];
    var mid := s.(pc := Mods, fds := s.fds[f := g.(execs := g.execs + 1)]);
    forall x ensures multiset(s'.jobs)[FdTask(x)] == multiset(s.jobs)[FdTask(x)] + (if x == f then 1 else 0) {
      ExecCount(u, mid, FdTask(f), Loop, x);
    }
  }

  /** What the kernel is asked for a descriptor that is still waiting. */
  lemma {:induction false} RegisterView(v: View)
    requires ViewOk(v) && v.hand.OfList? && v.hand.waiting
    ensures v.hand.requested == {} ==> ViewOk(v.(g := v.g.(ready := {}), reg := Absent, hand := OfStop))
    ensures v.hand.requested != {} ==> ViewOk(v.(reg := Registered(v.hand.requested), hand := OfAdd))
    ensures ViewOk(v.(g := v.g.(err := true), hand := OfFail)) && (v.reg.Registered? <==> v.hand.epoll)
  {
  }

  /** How the view of a descriptor changes when the kernel has been asked. */
  function AskedView(v: View, ok: bool): View
    requires v.hand.OfList?
  {
    if v.hand.requested == {} then v.(g := v.g.(ready := {}), reg := Absent, hand := OfStop)
    else if ok then v.(reg := Registered(v.hand.requested), hand := OfAdd)
    else v.(g := v.g.(err := true), hand := OfFail)
  }

  lemma {:induction false} AskedStores(u: Use, s: State, ok: bool)
    requires s.pc.Got? && s.pc.fd in s.fds && s.pc.waiting && (s.pc.epoll <==> s.pc.fd in s.kernel)
    ensures Storing(s, ProcessStep(u, s, ok), s.pc.fd, AskedView(ViewOf(s, s.pc.fd), ok))
  {
  }

  lemma {:induction false} ViewNow(s: State, f: nat)
    requires FdInv(s) && f in s.fds
    ensures ViewOk(ViewOf(s, f))
  {
  }

  lemma {:induction false} RegisterKept(u: Use, s: State, ok: bool)
    requires FdInv(s) && LoopEnabled(s, Process(ok)) && s.pc.waiting
    ensures FdInv(ProcessStep(u, s, ok))
  {
    hide ModsOk, KernelOk, EventsOk, ViewOk, Exec, HandOk, Outstanding, Storing, AllOk;
    var f, s' := s.pc.fd, ProcessStep(u, s, ok);
    var v := ViewOf(s, f);
    ViewNow(s, f);
    RegisterView(v);
    AskedStores(u, s, ok);
    StoringViews(s, s', f, AskedView(v, ok));
    NoEvents(s');
  }

  lemma {:induction false} ProcessKept(u: Use, s: State, ok: bool)
    requires FdInv(s) && LoopEnabled(s, Process(ok))
    ensures FdInv(ProcessStep(u, s, ok))
  {
    hide FdInv;
    if s.pc.waiting {
      RegisterKept(u, s, ok);
    } else {
      CompleteKept(u, s, s.pc.fd);
    }
  }

  lemma {:induction false} FinishKept(s: State)
    requires FdInv(s) && (s.pc.Stopped? || s.pc.Added? || s.pc.Failed?)
    ensures LoopEnabled(s, Finish) && FdInv(FinishStep(s))
  {
    hide ModsOk, KernelOk, EventsOk, Enqueue, ViewOk;
    var f := s.pc.fd;
    var v := ViewOf(s, f);
    assert ViewOk(v);
    FinishView(v);
    if s.pc.Added? {
      AddedKept(s);
    } else {
      ListAgain(s, FinishStep(s), f,
                if s.pc.Stopped? then v.g.(epoll := false, waiting := false) else v.g.(requested := {}));
    }
  }

  lemma {:induction false} FinishView(v: View)
    requires ViewOk(v)
    ensures v.hand.OfAdd? ==> ViewOk(v.(g := v.g.(epoll := true), hand := Free))
    ensures v.hand.OfStop? ==>
      ViewOk(v.(g := v.g.(epoll := false, waiting := false, listed := true), inMods := true, hand := Free))
    ensures v.hand.OfFail? ==> ViewOk(v.(g := v.g.(requested := {}, listed := true), inMods := true, hand := Free))
  {
  }

  lemma {:induction false} AddedKept(s: State)
    requires FdInv(s) && s.pc.Added?
    ensures s.pc.fd in s.fds && FdInv(FinishStep(s))
  {
    hide ModsOk, KernelOk, EventsOk, ViewOk;
    var f, s' := s.pc.fd, FinishStep(s);
    var v := ViewOf(s, f);
    assert ViewOk(v);
    FinishView(v);
    StoringViews(s, s', f, v.(g := v.g.(epoll := true), hand := Free));
    NoEvents(s');
  }

  lemma {:induction false} ListAgain(s: State, s': State, f: nat, g: Fd)
    requires FdInv(s) && (s.pc.Stopped? || s.pc.Failed?) && s.pc.fd == f && f in s.fds && g.listed == s.fds[f].listed
    requires s' == Enqueue(s.(pc := Mods), f, g)
    requires ViewOk(View(g.(listed := true), true, RegOf(s.kernel, f), Free, multiset(s.jobs)[FdTask(f)]))
    ensures FdInv(s')
  {
    hide ViewOk, ModsOk, KernelOk, EventsOk, Listing, AllOk;
    ListingAgain(s, s', f, g);
    ListingViews(s, s', f, g);
    NoEvents(s');
  }

  lemma {:induction false} ListingAgain(s: State, s': State, f: nat, g: Fd)
    requires (s.pc.Stopped? || s.pc.Failed?) && s.pc.fd == f && f in s.fds && g.listed == s.fds[f].listed
    requires s' == Enqueue(s.(pc := Mods), f, g)
    ensures Listing(s, s', f, g) && s'.pc == Mods
  {
  }

  // ----------------------------------------------------- steps of the clients

  lemma {:induction false} WaitStartKept(u: Use, s: State, st: ClientStep)
    requires FdInv(s) && st.WaitStart? && ClientEnabled(u, s, st)
    ensures FdInv(ClientApply(u, s, st))
  {
    var s' := ClientApply(u, s, st);
    assert ViewOk(ViewOf(s, st.fd));
    forall x | x in Pending(s'.pc) ensures EventOk(s', x) {
      assert EventOk(s, x);
    }
    OthersOk(s, s', st.fd);
  }

  /** The events still to be handled survive a step of a client. */
  lemma {:induction false} EventsSurvive(s: State, s': State, f: nat)
    requires EventsOk(s) && (s'.pc == s.pc || Pending(s'.pc) == []) && s'.kernel == s.kernel && f in s.fds
    requires f in s'.fds
    requires forall x :: x in s.fds && x != f ==> x in s'.fds && s'.fds[x] == s.fds[x]
    requires s'.fds[f].waiting == s.fds[f].waiting && s'.fds[f].epoll == s.fds[f].epoll
    ensures EventsOk(s')
  {
    forall e | e in Pending(s'.pc) ensures EventOk(s', e) {
      assert EventOk(s, e);
    }
  }

  lemma {:induction false} ActKeepsPc(s: State, f: nat, g: Fd, who: Who)
    requires f in s.fds && g.listed == s.fds[f].listed && MayAct(s, who)
    ensures Listing(s, Enqueue(s, f, g), f, g) && Listing(s, Notify(Enqueue(s, f, g), who), f, g)
  {
  }

  lemma {:induction false} ActPcOk(s: State, f: nat, g: Fd, who: Who)
    requires PcOk(s) && f in s.fds && MayAct(s, who)
    ensures PcOk(Enqueue(s, f, g)) && PcOk(Notify(Enqueue(s, f, g), who))
  {
  }

  lemma {:induction false} ListingKept(s: State, s': State, f: nat, g: Fd, who: Who)
    requires FdInv(s) && f in s.fds && g.waiting == s.fds[f].waiting && g.epoll == s.fds[f].epoll
    requires g.listed == s.fds[f].listed
    requires MayAct(s, who) && (s' == Enqueue(s, f, g) || s' == Notify(Enqueue(s, f, g), who))
    requires ViewOk(View(g.(listed := true), true, RegOf(s.kernel, f), HandOf(s.pc, f), multiset(s.jobs)[FdTask(f)]))
    ensures FdInv(s')
  {
    hide ViewOk, ModsOk, KernelOk, EventsOk, AllOk, Listing, PcOk;
    ActKeepsPc(s, f, g, who);
    ActPcOk(s, f, g, who);
    ListingViews(s, s', f, g);
    EventsSurvive(s, s', f);
  }

  lemma {:induction false} WaitEnqueueKept(s: State, f: nat, who: Who)
    requires FdInv(s) && f in s.fds && s.fds[f].setting && MayAct(s, who)
    ensures FdInv(WaitEnqueueStep(s, f, who))
  {
    hide Shape, Enqueue, Notify;
    assert ViewOk(ViewOf(s, f));
    ListingKept(s, WaitEnqueueStep(s, f, who), f, s.fds[f].(setting := false), who);
  }

  lemma {:induction false} RewaitKept(s: State, f: nat, mask: Mask, who: Who)
    requires FdInv(s) && f in s.fds && !s.fds[f].setting && MayAct(s, who)
    ensures FdInv(RewaitStep(s, f, mask, who))
  {
    hide Shape, Enqueue, Notify;
    assert ViewOk(ViewOf(s, f));
    if s.fds[f].waiting {
      ListingKept(s, RewaitStep(s, f, mask, who), f, s.fds[f].(requested := mask), who);
    }
  }

  // -------------------------------------------- steps that touch no descriptor

  /** Only the program counter, the wake-up state, jobs and timers change. */
  ghost predicate Quiet(s: State, s': State)
  {
    true == (
      && s'.fds == s.fds && s'.mods == s.mods && s'.kernel == s.kernel
      && Fewer(s.jobs, s'.jobs) && QuietPc(s.pc, s'.pc))
  }

  /** No more tasks of descriptors are queued. */
  ghost predicate Fewer(jobs: seq<Job>, jobs': seq<Job>) {
    forall f :: multiset(jobs')[FdTask(f)] <= multiset(jobs)[FdTask(f)]
  }

  ghost predicate InHand(pc: Pc) { pc.Deleted? || pc.Got? || pc.Stopped? || pc.Added? || pc.Failed? }

  ghost predicate QuietPc(pc: Pc, pc': Pc)
  {
    pc' == pc || (
      && !InHand(pc) && !InHand(pc') && ((pc'.Hook? || pc'.HookWrite?) ==> Plain(pc'.next))
      && (Pending(pc') == Pending(pc) || Pending(pc') == []))
  }

  lemma {:induction false} QuietKept(s: State, s': State)
    requires FdInv(s) && Quiet(s, s')
    ensures FdInv(s')
  {
    assert forall f :: HandOf(s'.pc, f) == HandOf(s.pc, f);
    forall f | f in s'.fds ensures ViewOk(ViewOf(s', f)) {
      assert ViewOk(ViewOf(s, f));
    }
    forall e | e in Pending(s'.pc) ensures EventOk(s', e) {
      assert EventOk(s, e);
    }
  }

  predicate TouchesFd(st: LoopStep) {
    st.NextEvent? || st.MarkReady? || st.Dequeue? || st.Process? || st.Finish? || st.Return?
  }

  lemma {:induction false} JobsShrink(jobs: seq<Job>)
    requires jobs != []
    ensures Fewer(jobs, jobs[1..])
  {
    assert jobs == [jobs[0]] + jobs[1..];
  }

  lemma {:induction false} JobsOther(u: Use, s: State, who: Who)
    ensures Fewer(s.jobs, Exec(u, s, OtherTask, who).jobs)
  {
    forall f ensures multiset(Exec(u, s, OtherTask, who).jobs)[FdTask(f)] == multiset(s.jobs)[FdTask(f)] {
      ExecCount(u, s, OtherTask, who, f);
    }
  }

  lemma {:induction false} JobsSame(jobs: seq<Job>)
    ensures Fewer(jobs, jobs)
  {
  }

  lemma {:induction false} LoopQuiet(u: Use, s: State, st: LoopStep)
    requires PcOk(s) && LoopEnabled(s, st) && !TouchesFd(st)
    ensures Quiet(s, LoopApply(u, s, st))
  {
    hide Fewer, First;
    JobsSame(s.jobs);
    if st.ExpiredExec? {
      JobsOther(u, s.(pc := Timers(s.pc.now)), Loop);
    } else if st.RunOne? && s.jobs != [] {
      JobsShrink(s.jobs);
    }
  }

  predicate ClientTouchesFd(st: ClientStep) { st.WaitStart? || st.WaitEnqueue? || st.WaitEmpty? || st.Rewait? }

  lemma {:induction false} ClientQuiet(u: Use, s: State, st: ClientStep)
    requires PcOk(s) && ClientEnabled(u, s, st) && !ClientTouchesFd(st)
    ensures Quiet(s, ClientApply(u, s, st))
  {
    hide Fewer, First;
    JobsSame(s.jobs);
    if st.Submit? {
      JobsOther(u, s, st.who);
    } else if st.WorkerRun? {
      JobsShrink(s.jobs);
    }
  }

  /** What `epoll_wait` returns is registered, hence waiting. */
  lemma {:induction false} ReturnKept(s: State, evts: seq<Event>)
    requires FdInv(s) && s.pc.Blocked? && Deliverable(s, evts)
    ensures FdInv(s.(pc := Draining(evts)))
  {
    var s' := s.(pc := Draining(evts));
    SameViews(s, s');
    forall e | e in evts ensures EventOk(s', e) {
      if e.Ready? {
        assert e.fd in s.kernel && e.fd in s.fds && ViewOk(ViewOf(s, e.fd));
      }
    }
  }

  // --------------------------------------------------------------------- runs

  lemma {:induction false} LoopKept(u: Use, s: State, st: LoopStep)
    requires FdInv(s) && LoopEnabled(s, st)
    ensures FdInv(LoopApply(u, s, st))
  {
    hide AllOk, ModsOk, KernelOk, EventsOk, PcOk, Quiet,
      NextEventStep, MarkReadyStep, DequeueStep, ProcessStep, FinishStep, Exec;
    if !TouchesFd(st) {
      LoopQuiet(u, s, st);
      QuietKept(s, LoopApply(u, s, st));
    } else {
      match st
      case NextEvent => NextEventKept(s);
      case MarkReady => MarkReadyKept(s);
      case Dequeue(now) => DequeueKept(s, now);
      case Process(ok) => ProcessKept(u, s, ok);
      case Finish => FinishKept(s);
      case Return(evts) => ReturnKept(s, evts);
    }
  }

  lemma {:induction false} ClientKept(u: Use, s: State, st: ClientStep)
    requires !u.emptySets && !u.early && FdInv(s) && ClientEnabled(u, s, st)
    ensures FdInv(ClientApply(u, s, st))
  {
    hide AllOk, ModsOk, KernelOk, EventsOk, PcOk, Quiet, WaitEnqueueStep, RewaitStep, Exec, Notify;
    if !ClientTouchesFd(st) {
      ClientQuiet(u, s, st);
      QuietKept(s, ClientApply(u, s, st));
    } else {
      match st
      case WaitStart(_, _, _) => WaitStartKept(u, s, st);
      case WaitEnqueue(f, who) => WaitEnqueueKept(s, f, who);
      case Rewait(f, mask, who) => RewaitKept(s, f, mask, who);
    }
  }

  lemma {:induction false} FdRun(u: Use, s: State, run: seq<Step>, s': State)
    requires !u.emptySets && !u.early && FdInv(s) && Reaches(u, s, run, s')
    ensures FdInv(s')
    decreases |run|
  {
    hide FdInv, LoopApply, ClientApply, LoopEnabled, ClientEnabled;
    if run != [] {
      match run[0] {
        case OfLoop(l) => LoopKept(u, s, l);
        case OfClient(c) => ClientKept(u, s, c);
      }
      FdRun(u, Apply(u, s, run[0]), run[1..], s');
    }
  }
}
