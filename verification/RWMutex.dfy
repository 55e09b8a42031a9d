/**
 The writer-priority read/write lock of xframe/comserv/threadmutexRW.C.

 Each pass between two points where `mMutex` is free is one step: entering a lock call, coming
 back from a condition wait, or unlocking. Any number of threads interleave these steps.
 */
module RWMutexModel {

  datatype Counters = Counters(readers: int, writer: bool, pending: int)

  /** What unlock does to the two conditions. */
  datatype Wake = NoWake | SignalWriter | BroadcastReaders

  predicate MayRead(c: Counters) { !(c.writer || c.pending > 0) }

  predicate MayWrite(c: Counters) { !(c.writer || c.readers > 0) }

  function AfterUnlock(c: Counters): (Counters, Wake) {
    if c.writer then (c.(writer := false), if c.pending > 0 then SignalWriter else BroadcastReaders)
    else (c.(readers := c.readers - 1), if c.readers == 1 && c.pending > 0 then SignalWriter else NoWake)
  }

  /** The fields of the lock and the code run on them under `mMutex`. */
  class RWMutex {
    var mReaderCount: int
    var mWriterHasLock: bool
    var mPendingWriterCount: int

    function Value(): Counters reads this { Counters(mReaderCount, mWriterHasLock, mPendingWriterCount) }

    constructor ()
      ensures Value() == Counters(0, false, 0)
    {
      mReaderCount, mWriterHasLock, mPendingWriterCount := 0, false, 0;
    }

    /** One test of the loop in readlock, and the increment after it. */
    method ReadPass() returns (entered: bool)
      modifies this
      ensures entered == old(MayRead(Value()))
      ensures Value() == if entered then old(Value()).(readers := old(mReaderCount) + 1) else old(Value())
    {
      entered := !(mWriterHasLock || mPendingWriterCount > 0);
      if entered {
        mReaderCount := mReaderCount + 1;
      }
    }

    method WriteAnnounce()
      modifies this
      ensures Value() == old(Value()).(pending := old(mPendingWriterCount) + 1)
    {
      mPendingWriterCount := mPendingWriterCount + 1;
    }

    /** One test of the loop in writelock, and the two assignments after it. */
    method WritePass() returns (entered: bool)
      modifies this
      ensures entered == old(MayWrite(Value()))
      ensures Value() == if entered then old(Value()).(pending := old(mPendingWriterCount) - 1, writer := true) else old(Value())
    {
      entered := !(mWriterHasLock || mReaderCount > 0);
      if entered {
        mPendingWriterCount := mPendingWriterCount - 1;
        mWriterHasLock := true;
      }
    }

    method Unlock() returns (wake: Wake)
      requires if mWriterHasLock then mReaderCount == 0 else mReaderCount > 0
      modifies this
      ensures (Value(), wake) == AfterUnlock(old(Value()))
    {
      wake := NoWake;
      if mWriterHasLock {
        assert mReaderCount == 0;
        mWriterHasLock := false;
        if mPendingWriterCount > 0 {
          wake := SignalWriter;
        } else {
          wake := BroadcastReaders;
        }
      } else {
        assert mReaderCount > 0;
        mReaderCount := mReaderCount - 1;
        if mReaderCount == 0 && mPendingWriterCount > 0 {
          wake := SignalWriter;
        }
      }
    }
  }

  /** Unlocking signals a writer exactly if the lock is free and one is pending, and wakes the readers only behind a writer. */
  lemma WakesIff(c: Counters)
    requires if c.writer then c.readers == 0 else c.readers > 0
    ensures var (d, wake) := AfterUnlock(c);
            && d.pending == c.pending && !d.writer && d.readers == Max0(c.readers - 1)
            && (wake == SignalWriter <==> d.readers == 0 && c.pending > 0)
            && (wake == BroadcastReaders <==> c.writer && c.pending <= 0)
  {
  }

  function Max0(n: int): int { if n < 0 then 0 else n }

  // ----- any number of threads -----

  /** `Asleep` threads wait on a condition; `Awake` ones were signalled and have yet to retest. */
  datatype Pc = Idle | ReadAsleep | ReadAwake | Reading | WriteAsleep | WriteAwake | Writing

  datatype State = State(c: Counters, pc: map<nat, Pc>)

  const START := State(Counters(0, false, 0), map[])

  /** `woken` is who a signal happens to reach; Spurious is a wait that returns unsignalled. */
  datatype Action =
    | Spawn(t: nat)
    | ReadTry(t: nat)
    | WriteTry(t: nat)
    | Release(t: nat, woken: set<nat>)
    | Spurious(t: nat)

  function Those(pc: map<nat, Pc>, ps: set<Pc>): set<nat> { set t | t in pc && pc[t] in ps }

  predicate Enabled(s: State, a: Action) {
    match a
    case Spawn(t) => t !in s.pc
    case ReadTry(t) => t in s.pc && s.pc[t] in {Idle, ReadAwake}
    case WriteTry(t) => t in s.pc && s.pc[t] in {Idle, WriteAwake}
    case Spurious(t) => t in s.pc && s.pc[t] in {ReadAsleep, WriteAsleep}
    case Release(t, woken) =>
      && t in s.pc && s.pc[t] in {Reading, Writing}
      && (match AfterUnlock(s.c).1
          case NoWake => woken == {}
          case SignalWriter =>
            // pthread_cond_signal wakes at least one sleeper, if there is any
            woken <= Those(s.pc, {WriteAsleep}) && (woken == {} ==> Those(s.pc, {WriteAsleep}) == {})
          case BroadcastReaders => woken == Those(s.pc, {ReadAsleep}))
  }

  function Awaken(pc: map<nat, Pc>, woken: set<nat>): map<nat, Pc> {
    map t | t in pc :: if t in woken then (if pc[t] == ReadAsleep then ReadAwake else WriteAwake) else pc[t]
  }

  function Apply(s: State, a: Action): State
    requires Enabled(s, a)
  {
    var c := s.c;
    match a
    case Spawn(t) => s.(pc := s.pc[t := Idle])
    case ReadTry(t) =>
      if MayRead(c) then State(c.(readers := c.readers + 1), s.pc[t := Reading]) else s.(pc := s.pc[t := ReadAsleep])
    case WriteTry(t) =>
      var c1 := if s.pc[t] == Idle then c.(pending := c.pending + 1) else c;
      if MayWrite(c1) then State(c1.(pending := c1.pending - 1, writer := true), s.pc[t := Writing])
      else State(c1, s.pc[t := WriteAsleep])
    case Release(t, woken) => State(AfterUnlock(c).0, Awaken(s.pc[t := Idle], woken))
    case Spurious(t) => s.(pc := Awaken(s.pc, {t}))
  }

  predicate Possible(s: State, run: seq<Action>)
    decreases |run|
  {
    run == [] || (Enabled(s, run[0]) && Possible(Apply(s, run[0]), run[1..]))
  }

  function Run(s: State, run: seq<Action>): State
    requires Possible(s, run)
    decreases |run|
  {
    if run == [] then s else Run(Apply(s, run[0]), run[1..])
  }

  /** The counters are the real numbers of holders and waiters, and writers exclude everyone. */
  predicate Counted(s: State) {
    && s.c.readers == |Those(s.pc, {Reading})|
    && s.c.pending == |Those(s.pc, {WriteAsleep, WriteAwake})|
    && (if s.c.writer then 1 else 0) == |Those(s.pc, {Writing})|
    && (s.c.writer ==> s.c.readers == 0)
  }

  /** No wake-up is lost. */
  predicate Signalled(s: State) {
    && (Those(s.pc, {ReadAsleep}) != {} ==> s.c.writer || s.c.pending > 0)
    && (Those(s.pc, {WriteAsleep}) != {} && !s.c.writer && s.c.readers == 0 ==> Those(s.pc, {WriteAwake}) != {})
  }

  /** How one thread's move changes the population of a set of places. */
  lemma Moved(pc: map<nat, Pc>, t: nat, q: Pc, ps: set<Pc>)
    ensures var was := t in pc && pc[t] in ps;
            Those(pc[t := q], ps) == (if q in ps then Those(pc, ps) + {t} else Those(pc, ps) - {t})
            && |Those(pc[t := q], ps)| == |Those(pc, ps)| + (if q in ps then 1 else 0) - (if was then 1 else 0)
  {
    var now := Those(pc[t := q], ps);
    assert now == if q in ps then Those(pc, ps) + {t} else Those(pc, ps) - {t};
  }

  lemma Woken(pc: map<nat, Pc>, woken: set<nat>, ps: set<Pc>)
    requires woken <= Those(pc, {ReadAsleep}) || woken <= Those(pc, {WriteAsleep})
    requires ReadAsleep in ps <==> ReadAwake in ps
    requires WriteAsleep in ps <==> WriteAwake in ps
    ensures Those(Awaken(pc, woken), ps) == Those(pc, ps)
  {
  }

  lemma ReadTryCounted(s: State, a: Action)
    requires a.ReadTry? && Enabled(s, a) && Counted(s)
    ensures Counted(Apply(s, a))
  {
    var q := if MayRead(s.c) then Reading else ReadAsleep;
    Moved(s.pc, a.t, q, {Reading});
    Moved(s.pc, a.t, q, {WriteAsleep, WriteAwake});
    Moved(s.pc, a.t, q, {Writing});
  }

  lemma ReadTryKeeps(s: State, a: Action)
    requires a.ReadTry? && Enabled(s, a) && Counted(s) && Signalled(s)
    ensures Counted(Apply(s, a)) && Signalled(Apply(s, a))
  {
    var q := if MayRead(s.c) then Reading else ReadAsleep;
    ReadTryCounted(s, a);
    Moved(s.pc, a.t, q, {ReadAsleep});
    Moved(s.pc, a.t, q, {WriteAsleep});
    Moved(s.pc, a.t, q, {WriteAwake});
    Within(s.pc, {WriteAsleep}, {WriteAsleep, WriteAwake});
  }

  lemma Within(pc: map<nat, Pc>, ps: set<Pc>, qs: set<Pc>)
    requires ps <= qs
    ensures |Those(pc, ps)| <= |Those(pc, qs)| && (Those(pc, ps) != {} ==> |Those(pc, qs)| > 0)
  {
    assert Those(pc, ps) <= Those(pc, qs);
    Fewer(Those(pc, ps), Those(pc, qs));
  }

  lemma Fewer(a: set<nat>, b: set<nat>)
    requires a <= b
    ensures |a| <= |b|
  {
    assert b == a + (b - a);
  }

  lemma WriteTryCounted(s: State, a: Action)
    requires a.WriteTry? && Enabled(s, a) && Counted(s)
    ensures Counted(Apply(s, a))
  {
    var q := if MayWrite(s.c) then Writing else WriteAsleep;
    Moved(s.pc, a.t, q, {Reading});
    Moved(s.pc, a.t, q, {WriteAsleep, WriteAwake});
    Moved(s.pc, a.t, q, {Writing});
  }

  lemma WriteTryKeeps(s: State, a: Action)
    requires a.WriteTry? && Enabled(s, a) && Counted(s) && Signalled(s)
    ensures Counted(Apply(s, a)) && Signalled(Apply(s, a))
  {
    var q := if MayWrite(s.c) then Writing else WriteAsleep;
    WriteTryCounted(s, a);
    Moved(s.pc, a.t, q, {ReadAsleep});
    Moved(s.pc, a.t, q, {WriteAsleep});
    Moved(s.pc, a.t, q, {WriteAwake});
  }

  lemma IdleKeeps(s: State, a: Action)
    requires (a.Spawn? || a.Spurious?) && Enabled(s, a) && Counted(s) && Signalled(s)
    ensures Counted(Apply(s, a)) && Signalled(Apply(s, a))
  {
    if a.Spawn? {
      Moved(s.pc, a.t, Idle, {Reading});
      Moved(s.pc, a.t, Idle, {WriteAsleep, WriteAwake});
      Moved(s.pc, a.t, Idle, {Writing});
      Moved(s.pc, a.t, Idle, {ReadAsleep});
      Moved(s.pc, a.t, Idle, {WriteAsleep});
      Moved(s.pc, a.t, Idle, {WriteAwake});
    } else {
      AwakenCounted(s, {a.t});
      assert Those(Awaken(s.pc, {a.t}), {ReadAsleep}) <= Those(s.pc, {ReadAsleep});
      assert Those(Awaken(s.pc, {a.t}), {WriteAsleep}) <= Those(s.pc, {WriteAsleep});
      assert Those(Awaken(s.pc, {a.t}), {WriteAwake}) >= Those(s.pc, {WriteAwake});
    }
  }

  /** A thread that holds the lock finds the counter its unlock expects: both asserts of unlock hold. */
  lemma UnlockAsserts(s: State, t: nat)
    requires Counted(s) && t in s.pc && s.pc[t] in {Reading, Writing}
    ensures s.pc[t] == Writing <==> s.c.writer
    ensures if s.c.writer then s.c.readers == 0 else s.c.readers > 0
  {
    assert t in Those(s.pc, {s.pc[t]});
  }

  lemma LeaveCounted(s: State, t: nat)
    requires Counted(s) && t in s.pc && s.pc[t] in {Reading, Writing}
    ensures Counted(State(AfterUnlock(s.c).0, s.pc[t := Idle]))
  {
    UnlockAsserts(s, t);
    Moved(s.pc, t, Idle, {Reading});
    Moved(s.pc, t, Idle, {WriteAsleep, WriteAwake});
    Moved(s.pc, t, Idle, {Writing});
  }

  lemma AwakenCounted(s: State, woken: set<nat>)
    requires Counted(s) && (woken <= Those(s.pc, {ReadAsleep}) || woken <= Those(s.pc, {WriteAsleep}))
    ensures Counted(s.(pc := Awaken(s.pc, woken)))
  {
    Woken(s.pc, woken, {Reading});
    Woken(s.pc, woken, {WriteAsleep, WriteAwake});
    Woken(s.pc, woken, {Writing});
  }

  lemma WokenWereAsleep(s: State, a: Action)
    requires a.Release? && Enabled(s, a)
    ensures var pc1 := s.pc[a.t := Idle];
            a.woken <= Those(pc1, {ReadAsleep}) || a.woken <= Those(pc1, {WriteAsleep})
  {
  }

  lemma ReleaseSignalled(s: State, a: Action)
    requires a.Release? && Enabled(s, a) && Counted(s) && Signalled(s)
    ensures Signalled(Apply(s, a))
  {
    UnlockAsserts(s, a.t);
    var s' := Apply(s, a);
    if AfterUnlock(s.c).1 == SignalWriter && Those(s'.pc, {WriteAsleep}) != {} {
      var u :| u in Those(s'.pc, {WriteAsleep});
      assert u in Those(s.pc, {WriteAsleep});
      var w :| w in a.woken;
      assert w in Those(s'.pc, {WriteAwake});
    }
    if Those(s'.pc, {ReadAsleep}) != {} {
      var u :| u in Those(s'.pc, {ReadAsleep});
      assert u in Those(s.pc, {ReadAsleep});
    }
    if AfterUnlock(s.c).1 != SignalWriter && Those(s'.pc, {WriteAsleep}) != {} {
      var u :| u in Those(s'.pc, {WriteAsleep});
      assert u in Those(s.pc, {WriteAsleep, WriteAwake});
    }
  }

  lemma {:induction false} RunKeeps(s: State, run: seq<Action>)
    requires Possible(s, run) && Counted(s) && Signalled(s)
    ensures Counted(Run(s, run)) && Signalled(Run(s, run))
    decreases |run|
  {
    if run != [] {
      match run[0] {
        case Spawn(_) => IdleKeeps(s, run[0]);
        case Spurious(_) => IdleKeeps(s, run[0]);
        case ReadTry(_) => ReadTryKeeps(s, run[0]);
        case WriteTry(_) => WriteTryKeeps(s, run[0]);
        case Release(t, woken) =>
          LeaveCounted(s, t);
          WokenWereAsleep(s, run[0]);
          AwakenCounted(State(AfterUnlock(s.c).0, s.pc[t := Idle]), woken);
          ReleaseSignalled(s, run[0]);
      }
      RunKeeps(Apply(s, run[0]), run[1..]);
    }
  }

  // ----- theorems over every run -----

  lemma StartGood()
    ensures Counted(START) && Signalled(START)
  {
    assert forall ps: set<Pc> :: Those(START.pc, ps) == {};
  }

  lemma WritersExcludeEveryone(run: seq<Action>, t: nat, u: nat)
    requires Possible(START, run)
    ensures var s := Run(START, run);
            && Counted(s)
            && (t in s.pc && u in s.pc && t != u && s.pc[t] == Writing ==> s.pc[u] !in {Reading, Writing})
  {
    StartGood();
    RunKeeps(START, run);
    var s := Run(START, run);
    if t in s.pc && u in s.pc && t != u && s.pc[t] == Writing {
      assert t in Those(s.pc, {Writing}) && u in Those(s.pc, {s.pc[u]});
      Fewer({t} + {u} * Those(s.pc, {Writing}), Those(s.pc, {Writing}));
    }
  }

  /** A sleeping reader has a writer or a pending writer before it, and a free lock wakes a sleeping writer. */
  lemma NoLostWakeUp(run: seq<Action>)
    requires Possible(START, run)
    ensures Signalled(Run(START, run))
  {
    StartGood();
    RunKeeps(START, run);
  }

  predicate Waits(p: Pc) { p in {ReadAsleep, ReadAwake, WriteAsleep, WriteAwake} }

  /** The thread's next test of its loop succeeds. */
  predicate Enters(s: State, t: nat) {
    && t in s.pc
    && (s.pc[t] == ReadAwake ==> Enabled(s, ReadTry(t)) && Apply(s, ReadTry(t)).pc[t] == Reading)
    && (s.pc[t] == WriteAwake ==> Enabled(s, WriteTry(t)) && Apply(s, WriteTry(t)).pc[t] == Writing)
    && s.pc[t] in {ReadAwake, WriteAwake}
  }

  /** No lost wake-up, no deadlock: while anyone waits, someone holds the lock or is awake and about to get it. */
  lemma WaitersAreServed(run: seq<Action>, t: nat)
    requires Possible(START, run)
    requires var s := Run(START, run); t in s.pc && Waits(s.pc[t])
    ensures var s := Run(START, run);
            exists u :: u in s.pc && (s.pc[u] in {Reading, Writing} || Enters(s, u))
  {
    StartGood();
    RunKeeps(START, run);
    var s := Run(START, run);
    assert t in Those(s.pc, {s.pc[t]});
    if s.c.writer {
      var u :| u in Those(s.pc, {Writing});
    } else if s.c.readers > 0 {
      var u :| u in Those(s.pc, {Reading});
    } else if s.c.pending > 0 {
      var w :| w in Those(s.pc, {WriteAsleep, WriteAwake});
      if s.pc[w] == WriteAsleep {
        assert w in Those(s.pc, {WriteAsleep});
      } else {
        assert w in Those(s.pc, {WriteAwake});
      }
      var u :| u in Those(s.pc, {WriteAwake});
      assert Enters(s, u);
    } else {
      assert t in Those(s.pc, {WriteAsleep, WriteAwake}) <==> s.pc[t] in {WriteAsleep, WriteAwake};
      assert Enters(s, t);
    }
  }

  // ----- who gets the lock: writers come first -----

  lemma NoneOf(pc: map<nat, Pc>, ps: set<Pc>)
    ensures |Those(pc, ps)| == 0 <==> forall u <- pc :: pc[u] !in ps
  {
    if u :| u in pc && pc[u] in ps {
      assert u in Those(pc, ps);
    }
  }

  /** A reader is let in exactly if no thread writes or waits to write. */
  lemma ReaderEntersIff(run: seq<Action>, t: nat)
    requires Possible(START, run) && Enabled(Run(START, run), ReadTry(t))
    ensures var s := Run(START, run);
            Apply(s, ReadTry(t)).pc[t] == Reading <==> forall u <- s.pc :: s.pc[u] !in {Writing, WriteAsleep, WriteAwake}
  {
    StartGood();
    RunKeeps(START, run);
    NoneOf(Run(START, run).pc, {Writing});
    NoneOf(Run(START, run).pc, {WriteAsleep, WriteAwake});
  }

  /** A writer is let in exactly if no thread reads or writes. */
  lemma WriterEntersIff(run: seq<Action>, t: nat)
    requires Possible(START, run) && Enabled(Run(START, run), WriteTry(t))
    ensures var s := Run(START, run);
            Apply(s, WriteTry(t)).pc[t] == Writing <==> forall u <- s.pc :: s.pc[u] !in {Reading, Writing}
  {
    StartGood();
    RunKeeps(START, run);
    NoneOf(Run(START, run).pc, {Writing});
    NoneOf(Run(START, run).pc, {Reading});
  }

  predicate WriterWaits(s: State) { exists u <- s.pc :: s.pc[u] in {WriteAsleep, WriteAwake} }

  /** No step whatever makes a thread a reader while a writer waits. */
  lemma WriterPriority(run: seq<Action>, a: Action, t: nat)
    requires Possible(START, run) && Enabled(Run(START, run), a) && WriterWaits(Run(START, run))
    requires var s' := Apply(Run(START, run), a); t in s'.pc && s'.pc[t] == Reading
    ensures var s := Run(START, run); t in s.pc && s.pc[t] == Reading
  {
    if a.ReadTry? {
      ReaderEntersIff(run, a.t);
    }
  }

  /** Some writer waits before every step of the run. */
  predicate WaitsThroughout(s: State, run: seq<Action>)
    requires Possible(s, run)
    decreases |run|
  {
    run == [] || (WriterWaits(s) && WaitsThroughout(Apply(s, run[0]), run[1..]))
  }

  /** How often a reader leaves. */
  function ReadersLeft(s: State, run: seq<Action>): nat
    requires Possible(s, run)
    decreases |run|
  {
    if run == [] then 0
    else
      (if run[0].Release? && s.pc[run[0].t] == Reading then 1 else 0) + ReadersLeft(Apply(s, run[0]), run[1..])
  }

  function Readers(s: State): set<nat> { Those(s.pc, {Reading}) }

  lemma {:induction false} RunThen(s: State, run: seq<Action>, a: Action)
    requires Possible(s, run) && Enabled(Run(s, run), a)
    ensures Possible(s, run + [a]) && Run(s, run + [a]) == Apply(Run(s, run), a)
    decreases |run|
  {
    if run == [] {
      assert run + [a] == [a];
    } else {
      RunThen(Apply(s, run[0]), run[1..], a);
      assert (run + [a])[1..] == run[1..] + [a];
    }
  }

  lemma OneStepDrains(run: seq<Action>, a: Action)
    requires Possible(START, run) && Enabled(Run(START, run), a) && WriterWaits(Run(START, run))
    ensures var s := Run(START, run);
            Readers(Apply(s, a)) == if a.Release? && s.pc[a.t] == Reading then Readers(s) - {a.t} else Readers(s)
  {
    var s := Run(START, run);
    if a.ReadTry? {
      ReaderEntersIff(run, a.t);
    }
    forall t ensures t in Readers(Apply(s, a)) <==>
                     t in (if a.Release? && s.pc[a.t] == Reading then Readers(s) - {a.t} else Readers(s)) {
    }
  }

  /** While a writer waits the readers only get fewer, by one with every reader that leaves. */
  lemma {:induction false} ReadersDrain(run: seq<Action>, more: seq<Action>)
    requires Possible(START, run) && Possible(Run(START, run), more) && WaitsThroughout(Run(START, run), more)
    ensures var s := Run(START, run);
            && Readers(Run(s, more)) <= Readers(s)
            && |Readers(Run(s, more))| + ReadersLeft(s, more) == |Readers(s)|
    decreases |more|
  {
    if more != [] {
      var s := Run(START, run);
      OneStepDrains(run, more[0]);
      RunThen(START, run, more[0]);
      ReadersDrain(run + [more[0]], more[1..]);
    }
  }

  /** So once as many have left as there were, the lock is written or a waiting writer is awake and gets it. */
  lemma WriterFollowsReaders(run: seq<Action>, more: seq<Action>)
    requires Possible(START, run) && Possible(Run(START, run), more) && WaitsThroughout(Run(START, run), more)
    requires ReadersLeft(Run(START, run), more) == |Readers(Run(START, run))| && WriterWaits(Run(Run(START, run), more))
    ensures var s := Run(Run(START, run), more);
            exists u :: u in s.pc && (s.pc[u] == Writing || (s.pc[u] == WriteAwake && Enters(s, u)))
  {
    ReadersDrain(run, more);
    StartGood();
    RunKeeps(START, run);
    RunKeeps(Run(START, run), more);
    var s := Run(Run(START, run), more);
    if s.c.writer {
      var u :| u in Those(s.pc, {Writing});
    } else {
      var w :| w in s.pc && s.pc[w] in {WriteAsleep, WriteAwake};
      if s.pc[w] == WriteAsleep {
        assert w in Those(s.pc, {WriteAsleep});
      } else {
        assert w in Those(s.pc, {WriteAwake});
      }
      var u :| u in Those(s.pc, {WriteAwake});
      assert Enters(s, u);
    }
  }
}
