/**
 Who is woken by a signal of the condition variable in ConditionGate: the counters against the threads that
 really wait. The account holds until a timed-out thread leaves while released threads are still on their
 way; one such step can lose a later signal.
 */
module ConditionAccount {
  import opened Wrappers
  import opened ConditionGate

  /** Inside wait: counted by enterWait and not yet counted out. */
  function Waits(p: Pc): nat { if p.EnterRelease? || p.OnQueue? || p.LeaveMutex? || p.Leaving? then 1 else 0 }

  /** Signals on their way: still to be raised, or taken and not yet counted. */
  function Carries(p: Pc): nat {
    match p
    case SignalUnlock(signals) => signals
    case SignalQueue(signals) => signals
    case LeaveMutex(timedOut) => if timedOut then 0 else 1
    case Leaving(timedOut) => if timedOut then 0 else 1
    case _ => 0
  }

  function Total(pc: map<nat, Pc>, n: nat, f: Pc -> nat): nat {
    if n == 0 then 0 else Total(pc, n - 1, f) + if n - 1 in pc then f(pc[n - 1]) else 0
  }

  lemma {:induction false} TotalUpdate(pc: map<nat, Pc>, n: nat, f: Pc -> nat, t: nat, p: Pc)
    ensures Total(pc[t := p], n, f) + (if t in pc && t < n then f(pc[t]) else 0)
            == Total(pc, n, f) + if t < n then f(p) else 0
  {
    if n > 0 {
      TotalUpdate(pc, n - 1, f, t, p);
    }
  }

  predicate Below(pc: map<nat, Pc>, n: nat) { forall t <- pc :: t < n }

  function WaitersOf(s: State, n: nat): nat { Total(s.pc, n, Waits) }

  function SignalsOf(s: State, n: nat): nat { s.queue + Total(s.pc, n, Carries) }

  /** Where the thread stands that holds m_mutex. */
  function Holder(s: State): Option<Pc> {
    if s.mutex.Some? && s.mutex.value in s.pc then Some(s.pc[s.mutex.value]) else None
  }

  /** m_gone has been taken off m_blocked and is about to be cleared. */
  predicate Folded(h: Option<Pc>) { h.Some? && h.value.NormaliseRelease? }

  /** The counters, as `waiters` threads in wait and `signals` signals under way account for them. */
  predicate Balanced(s: State, h: Option<Pc>, waiters: nat, signals: nat) {
    && s.blocked + s.waiting + (if Folded(h) then s.gone else 0) == waiters + s.gone
    && signals == s.waiting
    && (s.waiting > 0 ==> s.gone == 0)
    && s.gone <= GONE_LIMIT
    && (s.gone == GONE_LIMIT <==> h.Some? && (h.value.Normalise? || h.value.Normalising? || h.value.NormaliseRelease?))
    && (h.Some? && h.value.Last? ==> h.value.wasGone == s.gone)
    && (h.Some? && h.value.UnlockingLast? ==> h.value.wasGone == 0)
  }

  predicate NothingToDrain(p: Pc) { p.Drain? ==> p.left == 0 }

  predicate Account(s: State, n: nat) {
    && Below(s.pc, n)
    && Balanced(s, Holder(s), WaitersOf(s, n), SignalsOf(s, n))
    && (forall t <- s.pc :: NothingToDrain(s.pc[t]))
  }

  /** A thread that timed out leaves, and finds m_waiting positive. */
  predicate LeavesLate(s: State, p: Pc) { p == Leaving(true) && s.waiting != 0 }

  predicate Late(s: State, a: Action) { a.Go? && a.t in s.pc && LeavesLate(s, s.pc[a.t]) }

  /** What is known of thread t, the gate and m_mutex before t moves. */
  predicate Placed(s: State, t: nat, p: Pc, o: Owner, h: Option<Pc>) {
    && Shape(s, o) && (Owns(p) <==> o == Thread(t)) && Small(s)
    && (InMutex(p) <==> s.mutex == Some(t)) && (s.mutex == Some(t) ==> h == Some(p)) && (s.mutex.None? <==> h.None?)
    && (h.Some? && Owns(h.value) ==> o.Thread?)
    && (p.Normalise? || p.SignalGate? ==> s.waiting == 0)
    && NothingToDrain(p)
  }

  function NextHolder(s1: State, t: nat, p1: Pc, h: Option<Pc>): Option<Pc> {
    if s1.mutex.None? then None else if s1.mutex == Some(t) then Some(p1) else h
  }

  predicate BalancedAfter(s: State, t: nat, p: Pc, h: Option<Pc>, w: nat, c: nat)
    requires Ready(s, p)
  {
    var (s1, p1) := Move(s, t, p);
    Balanced(s1, NextHolder(s1, t, p1, h), w + Waits(p1), s1.queue + c + Carries(p1)) && NothingToDrain(p1)
  }

  /** Leaving wait: `w` and `c` are the waiters and the signals under way without thread t's own part. */
  lemma LeaveBalances(s: State, t: nat, p: Pc, o: Owner, h: Option<Pc>, w: nat, c: nat)
    requires p.Leaving? && Placed(s, t, p, o, h)
    requires Balanced(s, h, w + Waits(p), s.queue + c + Carries(p)) && !LeavesLate(s, p)
    ensures BalancedAfter(s, t, p, h, w, c)
  {
  }

  lemma SignalBalances(s: State, t: nat, p: Pc, o: Owner, h: Option<Pc>, w: nat, c: nat)
    requires (p.Signalling? || p.SignalHeld?) && Placed(s, t, p, o, h)
    requires Balanced(s, h, w + Waits(p), s.queue + c + Carries(p))
    ensures BalancedAfter(s, t, p, h, w, c)
  {
  }

  lemma MoveBalances(s: State, t: nat, p: Pc, o: Owner, h: Option<Pc>, w: nat, c: nat)
    requires Ready(s, p) && Placed(s, t, p, o, h) && w < 0x8000_0000
    requires Balanced(s, h, w + Waits(p), s.queue + c + Carries(p)) && !LeavesLate(s, p)
    ensures BalancedAfter(s, t, p, h, w, c)
  {
    if p.Leaving? {
      LeaveBalances(s, t, p, o, h, w, c);
    } else if p.Signalling? || p.SignalHeld? {
      SignalBalances(s, t, p, o, h, w, c);
    }
  }

  /** Every leaver is counted out once in m_blocked and m_waiting less m_gone, and a late one twice. */
  lemma LeaverIsCounted(s: State, t: nat, p: Pc)
    requires p.Leaving? && s.gone < WORD - 1
    ensures var (s1, p1) := Move(s, t, p);
            && s1.blocked + s1.waiting - s1.gone == s.blocked + s.waiting - s.gone - (if LeavesLate(s, p) then 2 else 1)
            && (LeavesLate(s, p) ==> s1.waiting == s.waiting - 1 && s1.gone == (if s.blocked == 0 then s.gone + 1 else s.gone))
            && (p1.Last? <==> s.waiting == 1) && (p1.Last? ==> p1.wasGone == s.gone)
  {
  }

  /** A late leaver takes one off m_waiting, and leaves its signal behind. */
  lemma LateUnbalances(s: State, t: nat, p: Pc, h: Option<Pc>, w: nat, c: nat)
    requires LeavesLate(s, p) && Balanced(s, h, w + Waits(p), s.queue + c + Carries(p))
    ensures !BalancedAfter(s, t, p, h, w, c)
  {
  }

  // ----- every step -----

  /** What every state of a run keeps anyway, with `o` the owner of the gate. */
  ghost predicate Ordered(s: State, o: Owner) { MutexHeld(s) && OwnedBy(s, o) && Small(s) }

  lemma IsPlaced(s: State, t: nat, o: Owner, n: nat)
    requires Ordered(s, o) && Account(s, n) && t in s.pc
    ensures Placed(s, t, s.pc[t], o, Holder(s))
  {
  }

  lemma {:induction false} TotalPart(pc: map<nat, Pc>, n: nat, f: Pc -> nat, t: nat)
    requires t in pc && t < n
    ensures Total(pc, n, f) >= f(pc[t])
  {
    if t < n - 1 {
      TotalPart(pc, n - 1, f, t);
    }
  }

  lemma {:induction false} OthersWait(pc: map<nat, Pc>, n: nat, t: nat)
    ensures Total(pc, n, Waits) <= n && (t in pc && t < n ==> Total(pc, n, Waits) - Waits(pc[t]) <= n - 1)
  {
    if n > 0 {
      OthersWait(pc, n - 1, t);
    }
  }

  /** The parts of the totals that are not thread t's, before and after it moves to p. */
  lemma Parts(s: State, n: nat, t: nat, p: Pc) returns (w: nat, c: nat)
    requires Below(s.pc, n) && t in s.pc && n <= 0x8000_0000
    ensures w < 0x8000_0000
    ensures WaitersOf(s, n) == w + Waits(s.pc[t]) && Total(s.pc, n, Carries) == c + Carries(s.pc[t])
    ensures Total(s.pc[t := p], n, Waits) == w + Waits(p) && Total(s.pc[t := p], n, Carries) == c + Carries(p)
  {
    TotalPart(s.pc, n, Waits, t);
    TotalPart(s.pc, n, Carries, t);
    OthersWait(s.pc, n, t);
    TotalUpdate(s.pc, n, Waits, t, p);
    TotalUpdate(s.pc, n, Carries, t, p);
    w, c := WaitersOf(s, n) - Waits(s.pc[t]), Total(s.pc, n, Carries) - Carries(s.pc[t]);
  }

  lemma GoKeepsIff(s: State, t: nat, n: nat, o: Owner)
    requires Ordered(s, o) && Account(s, n) && n <= 0x8000_0000 && Enabled(s, Go(t))
    ensures Account(Apply(s, Go(t)), n) <==> !Late(s, Go(t))
  {
    var p, h := s.pc[t], Holder(s);
    var (s1, p1) := Move(s, t, p);
    var w, c := Parts(s, n, t, p1);
    IsPlaced(s, t, o, n);
    NextHolderIs(s, t, o, n);
    var s' := Apply(s, Go(t));
    assert WaitersOf(s', n) == w + Waits(p1) && SignalsOf(s', n) == s1.queue + c + Carries(p1);
    if LeavesLate(s, p) {
      LateUnbalances(s, t, p, h, w, c);
    } else {
      MoveBalances(s, t, p, o, h, w, c);
    }
  }

  lemma NextHolderIs(s: State, t: nat, o: Owner, n: nat)
    requires Ordered(s, o) && Account(s, n) && Enabled(s, Go(t))
    ensures var (s1, p1) := Move(s, t, s.pc[t]);
            Holder(Apply(s, Go(t))) == NextHolder(s1, t, p1, Holder(s))
  {
    MutexMove(s, t, s.pc[t]);
  }

  lemma OtherKeeps(s: State, a: Action, n: nat, o: Owner)
    requires Ordered(s, o) && Account(s, n) && Enabled(s, a) && !a.Go? && a.t < n
    ensures Account(Apply(s, a), n)
  {
    var p := if a.Spawn? then Idle else if a.Call? then a.entry else LeaveMutex(true);
    TotalUpdate(s.pc, n, Waits, a.t, p);
    TotalUpdate(s.pc, n, Carries, a.t, p);
    assert Holder(Apply(s, a)) == Holder(s);
  }

  /** A step keeps the account exactly if it is not a late leaver's. */
  lemma AccountKeptIff(s: State, a: Action, n: nat, o: Owner)
    requires Ordered(s, o) && Account(s, n) && n <= 0x8000_0000 && Enabled(s, a) && a.t < n
    ensures Account(Apply(s, a), n) <==> !Late(s, a)
  {
    if a.Go? {
      GoKeepsIff(s, a.t, n, o);
    } else {
      OtherKeeps(s, a, n, o);
    }
  }

  // ----- every run without a late leaver -----

  predicate NeverLate(s: State, run: seq<Action>)
    requires Possible(s, run)
    decreases |run|
  {
    run == [] || (!Late(s, run[0]) && NeverLate(Apply(s, run[0]), run[1..]))
  }

  predicate AllBelow(run: seq<Action>, n: nat) { forall i :: 0 <= i < |run| ==> run[i].t < n }

  lemma {:induction false} RunAccount(s: State, run: seq<Action>, n: nat, o: Owner) returns (o': Owner)
    requires Possible(s, run) && NeverLate(s, run) && AllBelow(run, n) && n <= 0x8000_0000
    requires Ordered(s, o) && Account(s, n)
    ensures Ordered(Run(s, run), o') && Account(Run(s, run), n)
    decreases |run|
  {
    o' := o;
    if run != [] {
      AccountKeptIff(s, run[0], n, o);
      GateKept(s, run[0], o);
      MutexKept(s, run[0]);
      var o1 :| OwnedBy(Apply(s, run[0]), o1);
      o' := RunAccount(Apply(s, run[0]), run[1..], n, o1);
    }
  }

  lemma {:induction false} TotalOfNone(n: nat, f: Pc -> nat)
    ensures Total(map[], n, f) == 0
  {
    if n > 0 {
      TotalOfNone(n - 1, f);
    }
  }

  /** Without late leavers the account holds throughout: each signal under way has a waiter that it was meant for. */
  lemma AccountHolds(run: seq<Action>, n: nat)
    requires Possible(START, run) && NeverLate(START, run) && AllBelow(run, n) && n <= 0x8000_0000
    ensures Account(Run(START, run), n)
    ensures SignalsOf(Run(START, run), n) <= WaitersOf(Run(START, run), n)
  {
    TotalOfNone(n, Waits);
    TotalOfNone(n, Carries);
    assert OwnedBy(START, Free);
    var o := RunAccount(START, run, n, Free);
  }

  /** m_gone is folded into m_blocked exactly when it has reached ULONG_MAX / 2. */
  lemma FoldsAt(run: seq<Action>, n: nat)
    requires Possible(START, run) && NeverLate(START, run) && AllBelow(run, n) && n <= 0x8000_0000
    ensures var s := Run(START, run);
            s.gone <= 0xFFFF_FFFF / 2 &&
            (s.gone == 0xFFFF_FFFF / 2 <==>
             exists t <- s.pc :: s.pc[t].Normalise? || s.pc[t].Normalising? || s.pc[t].NormaliseRelease?)
  {
    AccountHolds(run, n);
    GateHasOneOwner(run);
  }

  /** The thread's next step decides whom its signal or broadcast releases. */
  predicate Decides(s: State, p: Pc) { p.SignalHeld? || (p.Signalling? && s.waiting > 0) }

  /**
   A signal releases one of the threads that wait and are not yet released, if there is one, and a broadcast
   all of them.
   */
  lemma SignalReleases(run: seq<Action>, n: nat, t: nat)
    requires Possible(START, run) && NeverLate(START, run) && AllBelow(run, n) && n <= 0x8000_0000
    requires var s := Run(START, run); t in s.pc && Decides(s, s.pc[t])
    ensures var s := Run(START, run);
            var unreleased := WaitersOf(s, n) - SignalsOf(s, n);
            var p := Apply(s, Go(t)).pc[t];
            && unreleased >= 0
            && p == SignalUnlock(if s.pc[t].all || unreleased == 0 then unreleased else 1)
            && SignalsOf(Apply(s, Go(t)), n) == SignalsOf(s, n) + p.signals
  {
    AccountHolds(run, n);
    var s := Run(START, run);
    GateHasOneOwner(run);
    var o :| OwnedBy(s, o);
    DecisionIs(s, t, n, o);
    TotalUpdate(s.pc, n, Carries, t, Apply(s, Go(t)).pc[t]);
  }

  lemma DecisionIs(s: State, t: nat, n: nat, o: Owner)
    requires Ordered(s, o) && Account(s, n) && t in s.pc && Decides(s, s.pc[t])
    ensures var unreleased := WaitersOf(s, n) - SignalsOf(s, n);
            var s' := Apply(s, Go(t));
            s'.pc[t] == SignalUnlock(if s.pc[t].all || unreleased == 0 then unreleased else 1) && s'.queue == s.queue
  {
    IsPlaced(s, t, o, n);
  }

  // ----- every run -----

  /** What a step adds to m_queue: the signals of a signaller. */
  function Raised(s: State, a: Action): nat {
    if a.Go? && a.t in s.pc && s.pc[a.t].SignalQueue? then s.pc[a.t].signals else 0
  }

  /** What a step takes from it: one for a thread that is woken, and one for each late leaver that is made up for. */
  function Taken(s: State, a: Action): nat {
    if a.Go? && a.t in s.pc && (s.pc[a.t].OnQueue? || (s.pc[a.t].Drain? && s.pc[a.t].left > 0)) then 1 else 0
  }

  function RaisedIn(s: State, run: seq<Action>): nat
    requires Possible(s, run)
    decreases |run|
  {
    if run == [] then 0 else Raised(s, run[0]) + RaisedIn(Apply(s, run[0]), run[1..])
  }

  function TakenIn(s: State, run: seq<Action>): nat
    requires Possible(s, run)
    decreases |run|
  {
    if run == [] then 0 else Taken(s, run[0]) + TakenIn(Apply(s, run[0]), run[1..])
  }

  /** In every run, late leavers or not, m_queue holds what was raised and not yet taken. */
  lemma {:induction false} QueueTally(s: State, run: seq<Action>)
    requires Possible(s, run)
    ensures Run(s, run).queue + TakenIn(s, run) == s.queue + RaisedIn(s, run)
    decreases |run|
  {
    if run != [] {
      QueueStep(s, run[0]);
      QueueTally(Apply(s, run[0]), run[1..]);
    }
  }

  lemma QueueStep(s: State, a: Action)
    requires Enabled(s, a)
    ensures Apply(s, a).queue + Taken(s, a) == s.queue + Raised(s, a)
  {
  }

  // ----- a late leaver loses a signal -----

  lemma {:induction false} RunOn(s: State, run: seq<Action>, more: seq<Action>)
    requires Possible(s, run) && Possible(Run(s, run), more)
    ensures Possible(s, run + more) && Run(s, run + more) == Run(Run(s, run), more)
    decreases |run|
  {
    if run == [] {
      assert run + more == more;
    } else {
      assert (run + more)[1..] == run[1..] + more;
      RunOn(Apply(s, run[0]), run[1..], more);
    }
  }

  /** Thread t takes n steps. */
  function Steps(t: nat, n: nat): seq<Action> { if n == 0 then [] else [Go(t)] + Steps(t, n - 1) }

  predicate Leads(s: State, run: seq<Action>, s': State) { Possible(s, run) && Run(s, run) == s' }

  lemma LeadsOn(s: State, run: seq<Action>, s1: State, more: seq<Action>, s2: State)
    requires Leads(s, run, s1) && Leads(s1, more, s2)
    ensures Leads(s, run + more, s2)
  {
    RunOn(s, run, more);
  }

  /** Thread 0 in a timed wait, 1 in a wait, and 2 for signals; the other fields are queue, m_blocked, m_gone, m_waiting. */
  function Trio(queue: nat, blocked: nat, gone: nat, waiting: nat, a: Pc, b: Pc, c: Pc): State {
    State(if waiting == 0 then 1 else 0, queue, None, blocked, gone, waiting, map[0 := a, 1 := b, 2 := c])
  }

  /** enterWait of thread t. */
  function Enter(t: nat, timed: bool): seq<Action> { [Call(t, EnterGate(timed)), Go(t), Go(t), Go(t)] }

  /** signal or broadcast by thread 2, when m_waiting is 0 and somebody is released, or nobody. */
  function Signal(all: bool, released: bool): seq<Action> {
    [Call(2, SignalMutex(all)), Go(2), Go(2), Go(2)] + if released then [Go(2), Go(2), Go(2)] else [Go(2), Go(2)]
  }

  lemma OneStep(s: State, a: Action, s': State)
    requires Enabled(s, a) && Apply(s, a) == s'
    ensures Leads(s, [a], s')
  {
    assert [a][1..] == [];
    assert Run(s', []) == s';
  }

  lemma FourSteps(s: State, a: Action, s1: State, b: Action, s2: State, c: Action, s3: State, d: Action, s4: State)
    requires Leads(s, [a], s1) && Leads(s1, [b], s2) && Leads(s2, [c], s3) && Leads(s3, [d], s4)
    ensures Leads(s, [a, b, c, d], s4)
  {
    LeadsOn(s2, [c], s3, [d], s4);
    LeadsOn(s1, [b], s2, [c] + [d], s4);
    LeadsOn(s, [a], s1, [b] + ([c] + [d]), s4);
    assert [a, b, c, d] == [a] + ([b] + ([c] + [d]));
  }

  /** Thread 2 has taken m_mutex and m_gate. */
  function Held(s: State, all: bool): State { s.(gate := 0, mutex := Some(2), pc := s.pc[2 := SignalHeld(all)]) }

  lemma TakesBoth(s: State, all: bool)
    requires s.gate == 1 && s.mutex.None? && s.waiting == 0 && 2 in s.pc && s.pc[2] == Idle
    ensures Leads(s, [Call(2, SignalMutex(all)), Go(2), Go(2), Go(2)], Held(s, all))
  {
    var called := s.(pc := s.pc[2 := SignalMutex(all)]);
    OneStep(s, Call(2, SignalMutex(all)), called);
    var tested := s.(mutex := Some(2), pc := s.pc[2 := Signalling(all)]);
    assert called.pc[2 := Signalling(all)] == tested.pc;
    OneStep(called, Go(2), tested);
    var inside := s.(mutex := Some(2), pc := s.pc[2 := SignalGate(all)]);
    assert tested.pc[2 := SignalGate(all)] == inside.pc;
    OneStep(tested, Go(2), inside);
    assert inside.pc[2 := SignalHeld(all)] == s.pc[2 := SignalHeld(all)];
    OneStep(inside, Go(2), Held(s, all));
    FourSteps(s, Call(2, SignalMutex(all)), called, Go(2), tested, Go(2), inside, Go(2), Held(s, all));
  }

  /** Thread 0 times out, and leaves late, as the last one that was waited for. */
  const LEAVES_LATE: seq<Action> := [TimeOut(0), Go(0), Go(0), Go(0), Go(0), Go(0)]

  /** Thread 1 takes the signal and returns. */
  const RETURNS: seq<Action> := [Go(1), Go(1), Go(1), Go(1)]

  const SPAWNED: seq<Action> := [Spawn(0), Spawn(1), Spawn(2)]

  const BOTH_WAIT := Trio(0, 2, 0, 0, OnQueue(true), OnQueue(false), Idle)

  lemma TheyEnter()
    ensures Leads(START, SPAWNED + Enter(0, true) + Enter(1, false), BOTH_WAIT)
  {
    var (s, s1) := (Trio(0, 0, 0, 0, Idle, Idle, Idle), Trio(0, 1, 0, 0, OnQueue(true), Idle, Idle));
    assert Leads(START, SPAWNED, s);
    assert Leads(s, Enter(0, true), s1);
    LeadsOn(START, SPAWNED, s, Enter(0, true), s1);
    SecondEnters();
    LeadsOn(START, SPAWNED + Enter(0, true), s1, Enter(1, false), BOTH_WAIT);
  }

  lemma SecondEnters()
    ensures Leads(Trio(0, 1, 0, 0, OnQueue(true), Idle, Idle), Enter(1, false), BOTH_WAIT)
  {
  }

  lemma OneIsSignalled()
    ensures Leads(BOTH_WAIT, Signal(false, true), Trio(1, 1, 0, 1, OnQueue(true), OnQueue(false), Idle))
  {
    var (s, s1) := (Held(BOTH_WAIT, false), Trio(1, 1, 0, 1, OnQueue(true), OnQueue(false), Idle));
    TakesBoth(BOTH_WAIT, false);
    assert Leads(s, [Go(2), Go(2), Go(2)], s1);
    LeadsOn(BOTH_WAIT, [Call(2, SignalMutex(false)), Go(2), Go(2), Go(2)], s, [Go(2), Go(2), Go(2)], s1);
  }

  lemma OtherLeavesLate()
    ensures Leads(Trio(1, 1, 0, 1, OnQueue(true), OnQueue(false), Idle), LEAVES_LATE,
                  Trio(1, 0, 0, 0, Idle, OnQueue(false), Idle))
  {
  }

  lemma OneReturns()
    ensures Leads(Trio(1, 0, 0, 0, Idle, OnQueue(false), Idle), RETURNS, Trio(0, 0, 1, 0, Idle, Idle, Idle))
  {
  }

  /** A thread waits and m_gone hides it. */
  const HIDDEN := Trio(0, 1, 1, 0, Idle, OnQueue(false), Idle)

  lemma OneWaitsAgain()
    ensures Leads(Trio(0, 0, 1, 0, Idle, Idle, Idle), Enter(1, false), HIDDEN)
  {
  }

  lemma SignalIsLost(all: bool)
    ensures Leads(HIDDEN, Signal(all, false), HIDDEN)
  {
    TakesBoth(HIDDEN, all);
    assert Leads(Held(HIDDEN, all), [Go(2), Go(2)], HIDDEN);
    LeadsOn(HIDDEN, [Call(2, SignalMutex(all)), Go(2), Go(2), Go(2)], Held(HIDDEN, all), [Go(2), Go(2)], HIDDEN);
  }

  function Signals(alls: seq<bool>): seq<Action> {
    if alls == [] then [] else Signal(alls[0], false) + Signals(alls[1..])
  }

  lemma {:induction false} SignalsAreLost(alls: seq<bool>)
    ensures Leads(HIDDEN, Signals(alls), HIDDEN)
  {
    if alls != [] {
      SignalIsLost(alls[0]);
      SignalsAreLost(alls[1..]);
      LeadsOn(HIDDEN, Signal(alls[0], false), HIDDEN, Signals(alls[1..]), HIDDEN);
    }
  }

  const HIDING: seq<Action> :=
    SPAWNED + Enter(0, true) + Enter(1, false) + Signal(false, true) + LEAVES_LATE + RETURNS + Enter(1, false)

  lemma RunHides()
    ensures Leads(START, HIDING, HIDDEN)
  {
    TheyEnter();
    var run := SPAWNED + Enter(0, true) + Enter(1, false);
    OneIsSignalled();
    LeadsOn(START, run, BOTH_WAIT, Signal(false, true), Trio(1, 1, 0, 1, OnQueue(true), OnQueue(false), Idle));
    RunHidesFrom(run + Signal(false, true));
  }

  lemma RunHidesFrom(run: seq<Action>)
    requires Leads(START, run, Trio(1, 1, 0, 1, OnQueue(true), OnQueue(false), Idle))
    ensures Leads(START, run + LEAVES_LATE + RETURNS + Enter(1, false), HIDDEN)
  {
    var (s, s1, s2) := (Trio(1, 1, 0, 1, OnQueue(true), OnQueue(false), Idle), Trio(1, 0, 0, 0, Idle, OnQueue(false), Idle),
                        Trio(0, 0, 1, 0, Idle, Idle, Idle));
    OtherLeavesLate();
    LeadsOn(START, run, s, LEAVES_LATE, s1);
    OneReturns();
    LeadsOn(START, run + LEAVES_LATE, s1, RETURNS, s2);
    OneWaitsAgain();
    LeadsOn(START, run + LEAVES_LATE + RETURNS, s2, Enter(1, false), HIDDEN);
  }

  /**
   The run that fails. One of two waiting threads is signalled and the other one times out and leaves before
   the signal is taken. A thread that waits afterwards sleeps through any number of signals and broadcasts.
   */
  lemma LateLeaverLosesSignals(alls: seq<bool>)
    ensures Leads(START, HIDING + Signals(alls), HIDDEN)
  {
    RunHides();
    SignalsAreLost(alls);
    LeadsOn(START, HIDING, HIDDEN, Signals(alls), HIDDEN);
  }
}
