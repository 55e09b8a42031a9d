/**
 The condition variable built from two semaphores and a mutex in xframe/comserv/threadcondition.C
 (the POSIX-conformant build). Any number of threads run wait, timed wait, signal and broadcast;
 each access to a semaphore or to the shared counters is a step of its own.
 */
module ConditionGate {
  import opened Wrappers

  /** Counters are 32-bit unsigned. */
  const WORD: nat := 0x1_0000_0000

  /** ULONG_MAX / 2: the number of time-outs after which m_gone is folded into m_blocked. */
  const GONE_LIMIT: nat := 0x7FFF_FFFF

  /** Where a thread stands; the comment says what its next step does. */
  datatype Pc =
    | Idle
    | EnterGate(timed: bool)        // enterWait: take m_gate
    | Entering(timed: bool)         // ++m_blocked
    | EnterRelease(timed: bool)     // open m_gate
    | OnQueue(timed: bool)          // take m_queue, or time out
    | LeaveMutex(timedOut: bool)    // take m_mutex
    | Leaving(timedOut: bool)       // read m_waiting and m_gone, decrement m_waiting or increment m_gone
    | Normalise                     // take m_gate
    | Normalising                   // m_blocked -= m_gone
    | NormaliseRelease              // open m_gate, clear m_gone
    | Last(wasGone: nat)            // m_waiting reached 0: open m_gate if threads are blocked
    | Unlocking                     // free m_mutex and return
    | UnlockingLast(wasGone: nat)   // free m_mutex
    | Drain(left: nat)              // take m_queue `left` times, then open m_gate
    | SignalMutex(all: bool)        // signal or broadcast: take m_mutex
    | Signalling(all: bool)         // test m_waiting
    | SignalGate(all: bool)         // take m_gate
    | SignalHeld(all: bool)         // choose whom to release
    | SignalUnlock(signals: nat)    // free m_mutex
    | SignalQueue(signals: nat)     // raise m_queue

  datatype State = State(gate: nat, queue: nat, mutex: Option<nat>,
                         blocked: nat, gone: nat, waiting: nat, pc: map<nat, Pc>)

  const START := State(1, 0, None, 0, 0, 0, map[])

  datatype Action = Spawn(t: nat) | Call(t: nat, entry: Pc) | TimeOut(t: nat) | Go(t: nat)

  /** The thread's next step takes a semaphore or the mutex. */
  predicate Ready(s: State, p: Pc) {
    match p
    case Idle => false
    case EnterGate(_) => s.gate > 0
    case Normalise => s.gate > 0
    case SignalGate(_) => s.gate > 0
    case OnQueue(_) => s.queue > 0
    case Drain(left) => left == 0 || s.queue > 0
    case LeaveMutex(_) => s.mutex.None?
    case SignalMutex(_) => s.mutex.None?
    case _ => true
  }

  predicate Enabled(s: State, a: Action) {
    match a
    case Spawn(t) => t !in s.pc
    case Call(t, entry) => t in s.pc && s.pc[t] == Idle && (entry.EnterGate? || entry.SignalMutex?)
    case TimeOut(t) => t in s.pc && s.pc[t] == OnQueue(true)
    case Go(t) => t in s.pc && Ready(s, s.pc[t])
  }

  /** Whom a signaller releases once m_waiting is known to be positive: the gate is already closed. */
  function Join(s: State, all: bool): (State, Pc) {
    if s.blocked == 0 then (s, SignalUnlock(0))
    else if all then (s.(waiting := (s.waiting + s.blocked) % WORD, blocked := 0), SignalUnlock(s.blocked))
    else (s.(waiting := (s.waiting + 1) % WORD, blocked := s.blocked - 1), SignalUnlock(1))
  }

  /** Whom a signaller releases after closing the gate itself. */
  function Open(s: State, all: bool): (State, Pc) {
    if s.blocked <= s.gone then (s.(gate := s.gate + 1), SignalUnlock(0))
    else
      var b := s.blocked - s.gone;
      if all then (s.(gone := 0, waiting := b, blocked := 0), SignalUnlock(b))
      else (s.(gone := 0, waiting := 1, blocked := b - 1), SignalUnlock(1))
  }

  function Leave(s: State, timedOut: bool): (State, Pc) {
    if s.waiting != 0 then
      var s1 := if !timedOut then s
                else if s.blocked != 0 then s.(blocked := s.blocked - 1)
                else s.(gone := (s.gone + 1) % WORD);
      (s1.(waiting := s.waiting - 1), if s.waiting == 1 then Last(s.gone) else Unlocking)
    else
      var gone := (s.gone + 1) % WORD;
      (s.(gone := gone), if gone == GONE_LIMIT then Normalise else Unlocking)
  }

  /** The next step of thread t, which stands at p. */
  function Move(s: State, t: nat, p: Pc): (State, Pc)
    requires Ready(s, p)
  {
    match p
    case EnterGate(timed) => (s.(gate := s.gate - 1), Entering(timed))
    case Entering(timed) => (s.(blocked := (s.blocked + 1) % WORD), EnterRelease(timed))
    case EnterRelease(timed) => (s.(gate := s.gate + 1), OnQueue(timed))
    case OnQueue(_) => (s.(queue := s.queue - 1), LeaveMutex(false))
    case LeaveMutex(timedOut) => (s.(mutex := Some(t)), Leaving(timedOut))
    case Leaving(timedOut) => Leave(s, timedOut)
    case Normalise => (s.(gate := s.gate - 1), Normalising)
    case Normalising => (s.(blocked := (s.blocked - s.gone) % WORD), NormaliseRelease)
    case NormaliseRelease => (s.(gate := s.gate + 1, gone := 0), Unlocking)
    case Last(wasGone) =>
      if s.blocked != 0 then (s.(gate := s.gate + 1), Unlocking) else (s.(gone := 0), UnlockingLast(wasGone))
    case Unlocking => (s.(mutex := None), Idle)
    case UnlockingLast(wasGone) => (s.(mutex := None), Drain(wasGone))
    case Drain(left) =>
      if left > 0 then (s.(queue := s.queue - 1), Drain(left - 1)) else (s.(gate := s.gate + 1), Idle)
    case SignalMutex(all) => (s.(mutex := Some(t)), Signalling(all))
    case Signalling(all) => if s.waiting != 0 then Join(s, all) else (s, SignalGate(all))
    case SignalGate(all) => (s.(gate := s.gate - 1), SignalHeld(all))
    case SignalHeld(all) => Open(s, all)
    case SignalUnlock(signals) => (s.(mutex := None), if signals > 0 then SignalQueue(signals) else Idle)
    case SignalQueue(signals) => (s.(queue := s.queue + signals), Idle)
  }

  function Apply(s: State, a: Action): State
    requires Enabled(s, a)
  {
    match a
    case Spawn(t) => s.(pc := s.pc[t := Idle])
    case Call(t, entry) => s.(pc := s.pc[t := entry])
    case TimeOut(t) => s.(pc := s.pc[t := LeaveMutex(true)])
    case Go(t) => var (s1, p1) := Move(s, t, s.pc[t]); s1.(pc := s.pc[t := p1])
  }

  /** The thread itself holds the closed gate. */
  predicate Owns(p: Pc) {
    p.Entering? || p.EnterRelease? || p.Normalising? || p.NormaliseRelease? || p.Last? || p.UnlockingLast? || p.Drain?
    || p.SignalHeld?
  }

  predicate InMutex(p: Pc) {
    p.Leaving? || p.Normalise? || p.Normalising? || p.NormaliseRelease? || p.Last? || p.Unlocking? || p.UnlockingLast?
    || p.Signalling? || p.SignalGate? || p.SignalHeld? || p.SignalUnlock?
  }

  /** Who holds the gate: nobody (it is open), the batch of released waiters, or one thread. */
  datatype Owner = Free | Batch | Thread(t: nat)

  /** The semaphore and m_waiting are as this owner demands. */
  predicate Shape(s: State, o: Owner) {
    && s.gate == (if o.Free? then 1 else 0)
    && (s.waiting > 0 <==> o.Batch?)
  }

  predicate OwnedBy(s: State, o: Owner) {
    && Shape(s, o)
    && (forall t <- s.pc :: Owns(s.pc[t]) <==> o == Thread(t))
    && (o.Thread? ==> o.t in s.pc)
  }

  ghost predicate GateOwned(s: State) { exists o :: OwnedBy(s, o) }

  /** m_mutex is held by the thread that stands inside it, and a thread queueing for the gate saw m_waiting == 0. */
  predicate MutexHeld(s: State) {
    && (forall t <- s.pc :: InMutex(s.pc[t]) <==> s.mutex == Some(t))
    && (s.mutex.Some? ==> s.mutex.value in s.pc)
    && (forall t <- s.pc :: s.pc[t].Normalise? || s.pc[t].SignalGate? ==> s.waiting == 0)
  }

  /** The counters fit their width, and m_waiting can take up all of m_blocked without wrapping round. */
  predicate Small(s: State) {
    && s.blocked < WORD && s.gone < WORD
    && (s.waiting > 0 ==> s.waiting + s.blocked < WORD)
  }

  /** What one step does to the mutex, seen from the thread that takes it. */
  lemma MutexMove(s: State, t: nat, p: Pc)
    requires Ready(s, p) && (InMutex(p) <==> s.mutex == Some(t))
    requires p.Normalise? || p.SignalGate? ==> s.waiting == 0
    ensures var (s1, p1) := Move(s, t, p);
            && (InMutex(p1) <==> s1.mutex == Some(t))
            && (s1.mutex == s.mutex || ((s.mutex.None? || s.mutex == Some(t)) && (s1.mutex.None? || s1.mutex == Some(t))))
            && (s1.waiting != s.waiting ==> s.mutex == Some(t))
            && (p1.Normalise? || p1.SignalGate? ==> s1.waiting == 0)
  {
  }

  lemma MutexKept(s: State, a: Action)
    requires Enabled(s, a) && MutexHeld(s)
    ensures MutexHeld(Apply(s, a))
  {
    if a.Go? {
      MutexMove(s, a.t, s.pc[a.t]);
    }
  }

  /** The owner after thread t moved to p1. */
  function NextOwner(o: Owner, t: nat, s1: State, p1: Pc): Owner {
    if Owns(p1) then Thread(t)
    else if o.Thread? && o.t != t then o
    else if s1.waiting > 0 then Batch
    else Free
  }

  /**
   While m_waiting is positive the gate is closed: no thread enters and raises m_blocked, and each
   signal only moves counts from m_blocked to m_waiting.
   */
  lemma SmallMove(s: State, t: nat, p: Pc, o: Owner)
    requires Ready(s, p) && Shape(s, o) && (Owns(p) <==> o == Thread(t)) && Small(s)
    requires p.Normalise? || p.SignalGate? ==> s.waiting == 0
    ensures Small(Move(s, t, p).0)
  {
  }

  lemma GateMove(s: State, t: nat, p: Pc, o: Owner)
    requires Ready(s, p) && Shape(s, o) && (Owns(p) <==> o == Thread(t)) && Small(s)
    requires p.Normalise? || p.SignalGate? ==> s.waiting == 0
    ensures var (s1, p1) := Move(s, t, p);
            && Shape(s1, NextOwner(o, t, s1, p1))
            && (o.Thread? && o.t != t ==> !Owns(p1))
  {
  }

  /** Every step keeps the gate owned and the counters small. */
  lemma GateKept(s: State, a: Action, o: Owner)
    requires Enabled(s, a) && MutexHeld(s) && OwnedBy(s, o) && Small(s)
    ensures GateOwned(Apply(s, a)) && Small(Apply(s, a))
  {
    var s' := Apply(s, a);
    if a.Go? {
      GateMove(s, a.t, s.pc[a.t], o);
      SmallMove(s, a.t, s.pc[a.t], o);
      var (s1, p1) := Move(s, a.t, s.pc[a.t]);
      assert OwnedBy(s', NextOwner(o, a.t, s1, p1));
    } else {
      assert OwnedBy(s', o);
    }
  }

  // ----- every interleaving -----

  /** Any order of steps that are enabled in turn. */
  predicate Possible(s: State, run: seq<Action>)
    decreases |run|
  {
    run == [] || (Enabled(s, run[0]) && Possible(Apply(s, run[0]), run[1..]))
  }

  function Run(s: State, run: seq<Action>): State
    requires Possible(s, run)
    decreases |run|
  {
    if run == [] then s else Run(Apply(s, run[0]), run[1..])
  }

  lemma {:induction false} RunKeeps(s: State, run: seq<Action>)
    requires Possible(s, run) && MutexHeld(s) && GateOwned(s) && Small(s)
    ensures MutexHeld(Run(s, run)) && GateOwned(Run(s, run)) && Small(Run(s, run))
    decreases |run|
  {
    if run != [] {
      var o :| OwnedBy(s, o);
      GateKept(s, run[0], o);
      MutexKept(s, run[0]);
      RunKeeps(Apply(s, run[0]), run[1..]);
    }
  }

  lemma GateHasOneOwner(run: seq<Action>)
    requires Possible(START, run)
    ensures MutexHeld(Run(START, run)) && GateOwned(Run(START, run)) && Small(Run(START, run))
  {
    assert OwnedBy(START, Free);
    RunKeeps(START, run);
  }

  /** Every step that opens the gate finds it closed: ReleaseSemaphore(m_gate) goes from 0 to 1. */
  lemma GateOpensFromZero(run: seq<Action>, a: Action)
    requires Possible(START, run) && Enabled(Run(START, run), a)
    ensures var s := Run(START, run);
            Apply(s, a).gate > s.gate ==> s.gate == 0 && Apply(s, a).gate == 1
  {
    GateHasOneOwner(run);
    var s := Run(START, run);
    var o :| OwnedBy(s, o);
    if a.Go? {
      GateMove(s, a.t, s.pc[a.t], o);
    }
  }

  /** The thread's next step reads or writes m_blocked. */
  predicate TouchesBlocked(s: State, p: Pc) {
    || p.Entering? || p.Normalising? || p.Last? || p.SignalHeld?
    || ((p.Leaving? || p.Signalling?) && s.waiting != 0)
  }

  /** m_blocked is guarded by the gate and m_mutex together: no two threads are at it at once. */
  lemma BlockedIsExclusive(run: seq<Action>, t: nat, u: nat)
    requires Possible(START, run)
    requires var s := Run(START, run); t in s.pc && u in s.pc && t != u
    ensures var s := Run(START, run); !(TouchesBlocked(s, s.pc[t]) && TouchesBlocked(s, s.pc[u]))
  {
    GateHasOneOwner(run);
    var s := Run(START, run);
    var o :| OwnedBy(s, o);
    assert InMutex(s.pc[t]) && InMutex(s.pc[u]) ==> s.mutex == Some(t) && s.mutex == Some(u);
  }
}
