/**
 The load balancer of xframe/kernel/taskselector.C: instances of a task are picked in turn, and every
 so often the ones with long queues are blocked. Counters are unbounded.
 */
module TaskSelector {
  import opened Wrappers

  const BALANCE_COUNT_NUMBER := 100

  datatype Inst = Inst(tcid: nat, weight: nat, count: nat, shuttingDown: bool)

  datatype Task = Task(instpos: nat, count: nat, balanceCount: nat, inst: seq<Inst>)

  predicate Eligible(inst: seq<Inst>, i: nat)
    requires i < |inst|
  {
    inst[i].weight == 0 && !inst[i].shuttingDown
  }

  function Following(i: nat, n: nat): nat { if i + 1 >= n then 0 else i + 1 }

  /** The first eligible instance behind `pos`, looking at no more than `tries`. */
  function Search(inst: seq<Inst>, pos: nat, tries: nat): (r: Option<nat>)
    requires pos < |inst|
    ensures r.Some? ==> r.value < |inst| && Eligible(inst, r.value)
    decreases tries
  {
    var next := Following(pos, |inst|);
    if tries == 0 then None
    else if Eligible(inst, next) then Some(next)
    else Search(inst, next, tries - 1)
  }

  function Sum(waits: seq<nat>): nat {
    if waits == [] then 0 else Sum(waits[..|waits| - 1]) + waits[|waits| - 1]
  }

  function Threshold(waits: seq<nat>): nat
    requires waits != []
  {
    Sum(waits) / |waits| + BALANCE_COUNT_NUMBER
  }

  /** balanceCheck: `waits` are the queue lengths of the instances' containers. */
  function Balanced(inst: seq<Inst>, waits: seq<nat>): (r: seq<Inst>)
    requires |waits| == |inst| > 0
    ensures |r| == |inst|
  {
    if |inst| == 1 then inst
    else seq(|inst|, i requires 0 <= i < |inst| => inst[i].(weight := if waits[i] > Threshold(waits) then 1 else 0))
  }

  /** getTask(task, 0), with the queue lengths a balance check would find. */
  function Picked(t: Task, waits: seq<nat>): (Task, Option<nat>)
    requires |waits| == |t.inst|
  {
    if |t.inst| == 0 then (t, None)
    else if |t.inst| == 1 then (t, Some(0))
    else if t.instpos >= |t.inst| then (t, None)
    else
      match Search(t.inst, t.instpos, |t.inst|)
      case None => (t, None)
      case Some(i) =>
        var inst := t.inst[i := t.inst[i].(count := t.inst[i].count + 1)];
        if t.count + 1 > t.balanceCount then (t.(instpos := i, count := 0, inst := Balanced(inst, waits)), Some(i))
        else (t.(instpos := i, count := t.count + 1, inst := inst), Some(i))
  }

  function Registered(t: Task, tcid: nat): Task {
    t.(inst := t.inst + [Inst(tcid, 0, 0, false)], balanceCount := (|t.inst| + 1) * BALANCE_COUNT_NUMBER)
  }

  function FirstRegistered(tcid: nat): Task { Task(0, 0, 0, [Inst(tcid, 0, 0, false)]) }

  /** shutdownTask: no instance takes part in the turns any more. */
  function ShutDown(t: Task): Task {
    t.(inst := seq(|t.inst|, i requires 0 <= i < |t.inst| => t.inst[i].(shuttingDown := true)))
  }

  // ----- the code -----

  method BalanceCheck(inst: seq<Inst>, waits: seq<nat>) returns (r: seq<Inst>)
    requires |waits| == |inst| > 0
    ensures r == Balanced(inst, waits)
    ensures |inst| > 1 ==> forall i :: 0 <= i < |inst| ==> (r[i].weight != 0 <==> TooLong(waits, i))
  {
    BlockedIff(inst, waits);
    var sum := 0;
    for i := 0 to |inst|
      invariant sum == Sum(waits[..i])
    {
      assert waits[..i + 1][..i] == waits[..i];
      sum := sum + waits[i];
    }
    assert waits[..|inst|] == waits;
    if |inst| == 1 {
      return inst;
    }
    sum := sum / |inst|;
    r := inst;
    for i := 0 to |inst|
      invariant |r| == |inst|
      invariant forall k :: 0 <= k < |inst| ==> r[k] == if k < i then Balanced(inst, waits)[k] else inst[k]
    {
      r := r[i := r[i].(weight := if waits[i] > sum + BALANCE_COUNT_NUMBER then 1 else 0)];
    }
  }

  class Selector {
    var mContainerList: set<nat>
    var mTaskList: map<nat, Task>

    constructor ()
      ensures mContainerList == {} && mTaskList == map[]
    {
      mContainerList, mTaskList := {}, map[];
    }

    method RegisterContainer(tcid: nat) returns (ok: bool)
      modifies this`mContainerList
      ensures ok <==> tcid != 0 && tcid !in old(mContainerList)
      ensures mContainerList == if ok then old(mContainerList) + {tcid} else old(mContainerList)
    {
      ok := tcid != 0 && tcid !in mContainerList;
      if ok {
        mContainerList := mContainerList + {tcid};
      }
    }

    /** `accepted` is what the container answers. */
    method RegisterTask(taskid: nat, tcid: nat, accepted: bool) returns (ok: bool)
      modifies this`mTaskList
      ensures ok <==> taskid > 0 && tcid > 0 && tcid in mContainerList && accepted
      ensures mTaskList ==
              if !ok then old(mTaskList)
              else if taskid in old(mTaskList) then old(mTaskList)[taskid := Registered(old(mTaskList)[taskid], tcid)]
              else old(mTaskList)[taskid := FirstRegistered(tcid)]
    {
      if taskid == 0 || tcid == 0 || tcid !in mContainerList || !accepted {
        return false;
      }
      var state := Inst(tcid, 0, 0, false);
      if taskid !in mTaskList {
        mTaskList := mTaskList[taskid := Task(0, 0, 0, [state])];
      } else {
        var ts := mTaskList[taskid];
        var inst := ts.inst + [state];
        mTaskList := mTaskList[taskid := ts.(inst := inst, balanceCount := |inst| * BALANCE_COUNT_NUMBER)];
      }
      ok := true;
    }

    method ShutdownTask(taskid: nat)
      modifies this`mTaskList
      ensures mTaskList == if taskid in old(mTaskList) then old(mTaskList)[taskid := ShutDown(old(mTaskList)[taskid])]
                           else old(mTaskList)
    {
      if taskid in mTaskList {
        var ts := mTaskList[taskid];
        var inst := ts.inst;
        for i := 0 to |inst|
          invariant |inst| == |ts.inst|
          invariant forall k :: 0 <= k < |inst| ==> inst[k] == if k < i then ShutDown(ts).inst[k] else ts.inst[k]
        {
          inst := inst[i := inst[i].(shuttingDown := true)];
        }
        assert inst == ShutDown(ts).inst;
        mTaskList := mTaskList[taskid := ts.(inst := inst)];
      }
    }

    /** The round-robin loop of getTask. */
    method Select(ts: Task, waits: seq<nat>) returns (after: Task, index: Option<nat>)
      requires |waits| == |ts.inst|
      ensures (after, index) == Picked(ts, waits)
    {
      after, index := ts, None;
      if |ts.inst| == 0 {
        return;
      }
      if |ts.inst| == 1 {
        return ts, Some(0);
      }
      if ts.instpos >= |ts.inst| {
        return;
      }
      var pos, i := ts.instpos, 0;
      while i < |ts.inst|
        invariant 0 <= i <= |ts.inst| && 0 <= pos < |ts.inst|
        invariant Search(ts.inst, pos, |ts.inst| - i) == Search(ts.inst, ts.instpos, |ts.inst|)
      {
        pos := pos + 1;
        if pos >= |ts.inst| {
          pos := 0;
        }
        if ts.inst[pos].weight == 0 && !ts.inst[pos].shuttingDown {
          var count := ts.count + 1;
          var inst := ts.inst[pos := ts.inst[pos].(count := ts.inst[pos].count + 1)];
          if count > ts.balanceCount {
            inst := BalanceCheck(inst, waits);
            count := 0;
          }
          return ts.(instpos := pos, count := count, inst := inst), Some(pos);
        }
        i := i + 1;
      }
    }

    /** getTask: a container named by the caller, or the one picked for the task. */
    method GetTask(taskid: nat, tcid: nat, waits: seq<nat>) returns (r: Option<nat>)
      requires taskid in mTaskList ==> |waits| == |mTaskList[taskid].inst|
      modifies this`mTaskList
      ensures taskid > 0 && tcid > 0 && tcid in mContainerList ==> r == Some(tcid) && mTaskList == old(mTaskList)
      ensures taskid > 0 && tcid == 0 && taskid in old(mTaskList) ==>
                var (after, index) := Picked(old(mTaskList)[taskid], waits);
                && mTaskList == old(mTaskList)[taskid := after]
                && r == if index.Some? && index.value < |after.inst| then Some(after.inst[index.value].tcid) else None
      ensures !(taskid > 0 && tcid > 0 && tcid in mContainerList) && !(taskid > 0 && tcid == 0 && taskid in old(mTaskList))
              ==> r == None && mTaskList == old(mTaskList)
    {
      if taskid > 0 && tcid > 0 && tcid in mContainerList {
        return Some(tcid);
      }
      r := None;
      if taskid > 0 && tcid == 0 && taskid in mTaskList {
        var after, index := Select(mTaskList[taskid], waits);
        mTaskList := mTaskList[taskid := after];
        if index.Some? && index.value < |after.inst| {
          r := Some(after.inst[index.value].tcid);
        }
      }
    }
  }

  // ----- some instance always stays eligible -----

  /** No instance is shutting down. */
  predicate Running(inst: seq<Inst>) { forall i :: 0 <= i < |inst| ==> !inst[i].shuttingDown }

  ghost predicate SomeEligible(inst: seq<Inst>) { exists i :: 0 <= i < |inst| && Eligible(inst, i) }

  /** Not every queue can be longer than the mean and a margin. */
  lemma {:induction false} SumExceeds(waits: seq<nat>, bound: nat)
    requires forall i :: 0 <= i < |waits| ==> waits[i] > bound
    ensures Sum(waits) >= |waits| * (bound + 1)
    decreases |waits|
  {
    if waits != [] {
      SumExceeds(waits[..|waits| - 1], bound);
    }
  }

  lemma AboveBound(waits: seq<nat>, bound: nat)
    requires waits != [] && forall i :: 0 <= i < |waits| ==> waits[i] > bound
    ensures Sum(waits) / |waits| > bound
  {
    SumExceeds(waits, bound);
    var n, mean := |waits|, Sum(waits) / |waits|;
    assert n * (bound + 1) <= Sum(waits) < n * (mean + 1);
  }

  lemma BalanceLeavesOne(inst: seq<Inst>, waits: seq<nat>)
    requires |waits| == |inst| > 1 && Running(inst)
    ensures SomeEligible(Balanced(inst, waits)) && Running(Balanced(inst, waits))
  {
    var bound := Threshold(waits);
    if forall i :: 0 <= i < |waits| ==> waits[i] > bound {
      AboveBound(waits, bound);
    }
    var i :| 0 <= i < |waits| && waits[i] <= bound;
    assert Eligible(Balanced(inst, waits), i);
  }

  /** What every history of a registered task keeps. */
  ghost predicate Fine(t: Task) { t.instpos < |t.inst| && SomeEligible(t.inst) && Running(t.inst) }

  /** The search passes every instance, so it finds an eligible one if there is any. */
  lemma {:induction false} SearchFinds(inst: seq<Inst>, pos: nat, tries: nat, e: nat)
    requires pos < |inst| && e < |inst| && Eligible(inst, e)
    requires tries >= (if e > pos then e - pos else e + |inst| - pos)
    ensures Search(inst, pos, tries).Some?
    decreases tries
  {
    var next := Following(pos, |inst|);
    if !Eligible(inst, next) {
      SearchFinds(inst, next, tries - 1, e);
    }
  }

  lemma PickSucceeds(t: Task, waits: seq<nat>)
    requires Fine(t) && |waits| == |t.inst|
    ensures Picked(t, waits).1.Some? && Picked(t, waits).1.value < |t.inst|
    ensures Eligible(t.inst, Picked(t, waits).1.value)
    ensures Fine(Picked(t, waits).0) && |Picked(t, waits).0.inst| == |t.inst|
  {
    var e :| 0 <= e < |t.inst| && Eligible(t.inst, e);
    if |t.inst| > 1 {
      SearchFinds(t.inst, t.instpos, |t.inst|, e);
      var i := Search(t.inst, t.instpos, |t.inst|).value;
      var inst := t.inst[i := t.inst[i].(count := t.inst[i].count + 1)];
      assert Eligible(inst, i);
      BalanceLeavesOne(inst, waits);
    }
  }

  datatype Event = Register(tcid: nat) | Get(waits: seq<nat>)

  predicate Possible(t: Task, events: seq<Event>)
    decreases |events|
  {
    events == [] ||
    match events[0]
    case Register(tcid) => Possible(Registered(t, tcid), events[1..])
    case Get(waits) => |waits| == |t.inst| && Possible(Picked(t, waits).0, events[1..])
  }

  function After(t: Task, events: seq<Event>): Task
    requires Possible(t, events)
    decreases |events|
  {
    if events == [] then t
    else
      match events[0]
      case Register(tcid) => After(Registered(t, tcid), events[1..])
      case Get(waits) => After(Picked(t, waits).0, events[1..])
  }

  lemma RegisterKeeps(t: Task, tcid: nat)
    requires Fine(t)
    ensures Fine(Registered(t, tcid))
  {
    assert Eligible(Registered(t, tcid).inst, |t.inst|);
  }

  lemma {:induction false} AfterKeeps(t: Task, events: seq<Event>)
    requires Fine(t) && Possible(t, events)
    ensures Fine(After(t, events))
    decreases |events|
  {
    if events != [] {
      match events[0] {
        case Register(tcid) =>
          RegisterKeeps(t, tcid);
          AfterKeeps(Registered(t, tcid), events[1..]);
        case Get(waits) =>
          PickSucceeds(t, waits);
          AfterKeeps(Picked(t, waits).0, events[1..]);
      }
    }
  }

  /** After any history of registrations and selections, with any queue lengths, a registered task is served. */
  lemma RegisteredTaskIsServed(tcid: nat, events: seq<Event>, waits: seq<nat>)
    requires Possible(FirstRegistered(tcid), events)
    requires |waits| == |After(FirstRegistered(tcid), events).inst|
    ensures var t := After(FirstRegistered(tcid), events);
            Picked(t, waits).1.Some? && Picked(t, waits).1.value < |t.inst| && Eligible(t.inst, Picked(t, waits).1.value)
  {
    var t := FirstRegistered(tcid);
    assert Eligible(t.inst, 0);
    AfterKeeps(t, events);
    PickSucceeds(After(t, events), waits);
  }

  /** A task that is shut down is served no more, except by an instance that is its only one. */
  lemma ShutDownServedIff(t: Task, waits: seq<nat>)
    requires |waits| == |t.inst|
    ensures Picked(ShutDown(t), waits).1.Some? <==> |t.inst| == 1
  {
    var s := ShutDown(t);
    assert forall i :: 0 <= i < |s.inst| ==> !Eligible(s.inst, i);
  }

  /** An instance once shut down stays so. */
  lemma {:induction false} ShutDownStays(t: Task, events: seq<Event>, i: nat)
    requires Possible(t, events) && i < |t.inst| && t.inst[i].shuttingDown
    ensures i < |After(t, events).inst| && After(t, events).inst[i].shuttingDown
    decreases |events|
  {
    if events != [] {
      match events[0]
      case Register(tcid) => ShutDownStays(Registered(t, tcid), events[1..], i);
      case Get(waits) => ShutDownStays(Picked(t, waits).0, events[1..], i);
    }
  }

  /** Whatever follows a shutdown, only instances registered afterwards are picked, but for a single instance. */
  lemma ShutDownForGood(t: Task, events: seq<Event>, waits: seq<nat>)
    requires Possible(ShutDown(t), events) && |waits| == |After(ShutDown(t), events).inst| > 1
    ensures var pick := Picked(After(ShutDown(t), events), waits).1; pick.Some? ==> pick.value >= |t.inst|
  {
    var s := After(ShutDown(t), events);
    forall i | 0 <= i < |t.inst| ensures i < |s.inst| && !Eligible(s.inst, i) {
      ShutDownStays(ShutDown(t), events, i);
    }
  }

  // ----- fair turns -----

  /** The number of eligible instances before position i. */
  function Rank(inst: seq<Inst>, i: nat): nat
    requires i <= |inst|
  {
    if i == 0 then 0 else Rank(inst, i - 1) + if Eligible(inst, i - 1) then 1 else 0
  }

  lemma {:induction false} RankGrows(inst: seq<Inst>, i: nat, j: nat)
    requires i <= j <= |inst|
    ensures Rank(inst, i) <= Rank(inst, j)
    decreases j
  {
    if i < j {
      RankGrows(inst, i, j - 1);
    }
  }

  /** Eligible instances are told apart by their rank. */
  lemma RankTells(inst: seq<Inst>, i: nat, j: nat)
    requires i < j < |inst| && Eligible(inst, i)
    ensures Rank(inst, i) < Rank(inst, j)
  {
    RankGrows(inst, i + 1, j);
  }

  /** The pick behind `pos` has the next rank, starting over after the last. */
  lemma {:induction false} SearchRank(inst: seq<Inst>, pos: nat, tries: nat)
    requires pos < |inst| && Search(inst, pos, tries).Some? && tries <= |inst|
    ensures var j := Search(inst, pos, tries).value; var total := Rank(inst, |inst|);
            j < |inst| &&
            (Rank(inst, j) == Rank(inst, pos + 1) ||
             (Rank(inst, pos + 1) == total && Rank(inst, j) == 0))
    decreases tries
  {
    var next := Following(pos, |inst|);
    if !Eligible(inst, next) {
      SearchRank(inst, next, tries - 1);
    }
  }

  predicate SameTurns(a: seq<Inst>, b: seq<Inst>) {
    |a| == |b| && forall i :: 0 <= i < |a| ==> a[i].weight == b[i].weight && a[i].shuttingDown == b[i].shuttingDown
  }

  lemma {:induction false} SameRank(a: seq<Inst>, b: seq<Inst>, i: nat)
    requires SameTurns(a, b) && i <= |a|
    ensures Rank(a, i) == Rank(b, i)
    decreases i
  {
    if i > 0 {
      SameRank(a, b, i - 1);
    }
  }

  predicate Fits(t: Task, ws: seq<seq<nat>>) { forall k :: 0 <= k < |ws| ==> |ws[k]| == |t.inst| }

  /** The instances that successive selections pick. */
  ghost function Picks(t: Task, ws: seq<seq<nat>>): (r: seq<nat>)
    requires Fine(t) && Fits(t, ws)
    ensures |r| == |ws|
    decreases |ws|
  {
    if ws == [] then []
    else
      PickSucceeds(t, ws[0]);
      [Picked(t, ws[0]).1.value] + Picks(Picked(t, ws[0]).0, ws[1..])
  }

  function Served(t: Task, ws: seq<seq<nat>>): Task
    requires Fits(t, ws)
    decreases |ws|
  {
    if ws == [] then t else Served(Picked(t, ws[0]).0, ws[1..])
  }

  lemma PickCounts(t: Task, waits: seq<nat>, i: nat)
    requires |waits| == |t.inst| > 1 && i < |t.inst| && Picked(t, waits).1.Some?
    ensures var (after, pick) := Picked(t, waits);
            i < |after.inst| && after.inst[i].count == t.inst[i].count + if pick.value == i then 1 else 0
  {
  }

  lemma FirstPick(t: Task, ws: seq<seq<nat>>)
    requires Fine(t) && Fits(t, ws) && ws != []
    ensures var (after, pick) := Picked(t, ws[0]);
            && pick.Some? && Fine(after) && |after.inst| == |t.inst| && Fits(after, ws[1..])
            && multiset(Picks(t, ws)) == multiset{pick.value} + multiset(Picks(after, ws[1..]))
  {
    PickSucceeds(t, ws[0]);
    var (after, pick) := Picked(t, ws[0]);
    assert Picks(t, ws) == [pick.value] + Picks(after, ws[1..]);
  }

  /** Each instance's counter counts the selections that picked it, through any balance checks. */
  lemma {:induction false} CountsTell(t: Task, ws: seq<seq<nat>>, i: nat)
    requires Fine(t) && Fits(t, ws) && i < |t.inst| && |t.inst| > 1
    ensures |Served(t, ws).inst| == |t.inst|
    ensures Served(t, ws).inst[i].count == t.inst[i].count + multiset(Picks(t, ws))[i]
    decreases |ws|
  {
    if ws != [] {
      FirstPick(t, ws);
      PickCounts(t, ws[0], i);
      CountsTell(Picked(t, ws[0]).0, ws[1..], i);
    }
  }

  /** One selection without a balance check. */
  lemma PickRank(t: Task, waits: seq<nat>)
    requires Fine(t) && |waits| == |t.inst| > 1 && t.count < t.balanceCount
    ensures var (after, index) := Picked(t, waits); var total := Rank(t.inst, |t.inst|);
            && index.Some? && index.value < |t.inst| && Eligible(t.inst, index.value)
            && after.instpos == index.value && after.count == t.count + 1 && after.balanceCount == t.balanceCount
            && SameTurns(after.inst, t.inst)
            && Rank(t.inst, index.value) < total
            && Rank(t.inst, index.value) == (if Rank(t.inst, t.instpos + 1) < total then Rank(t.inst, t.instpos + 1) else 0)
  {
    PickSucceeds(t, waits);
    SearchRank(t.inst, t.instpos, |t.inst|);
    var i := Search(t.inst, t.instpos, |t.inst|).value;
    RankGrows(t.inst, i + 1, |t.inst|);
    RankGrows(t.inst, t.instpos + 1, |t.inst|);
  }

  lemma {:induction false} PicksRank(t: Task, ws: seq<seq<nat>>, k: nat)
    requires Fine(t) && |t.inst| > 1 && Fits(t, ws) && k < |ws| <= Rank(t.inst, |t.inst|)
    requires t.count + |ws| <= t.balanceCount
    ensures var e := Picks(t, ws)[k]; var total := Rank(t.inst, |t.inst|); var r := Rank(t.inst, t.instpos + 1) + k;
            e < |t.inst| && Eligible(t.inst, e) && Rank(t.inst, e) == if r < total then r else r - total
    decreases k
  {
    PickRank(t, ws[0]);
    PickSucceeds(t, ws[0]);
    RankGrows(t.inst, t.instpos + 1, |t.inst|);
    if k > 0 {
      var after := Picked(t, ws[0]).0;
      var n := |t.inst|;
      SameRank(t.inst, after.inst, n);
      PicksRank(after, ws[1..], k - 1);
      SameRank(t.inst, after.inst, after.instpos + 1);
      var e := Picks(after, ws[1..])[k - 1];
      SameRank(t.inst, after.inst, e);
    }
  }

  ghost predicate RoundAhead(t: Task, ws: seq<seq<nat>>) {
    Fine(t) && |t.inst| > 1 && Fits(t, ws) && |ws| == Rank(t.inst, |t.inst|) && t.count + |ws| <= t.balanceCount
  }

  lemma NoOneTwice(t: Task, ws: seq<seq<nat>>, k: nat, l: nat)
    requires RoundAhead(t, ws) && k < l < |ws|
    ensures Picks(t, ws)[k] != Picks(t, ws)[l]
  {
    PicksRank(t, ws, k);
    PicksRank(t, ws, l);
  }

  lemma EveryoneOnce(t: Task, ws: seq<seq<nat>>, e: nat) returns (k: nat)
    requires RoundAhead(t, ws) && e < |t.inst| && Eligible(t.inst, e)
    ensures k < |ws| && Picks(t, ws)[k] == e
  {
    var total, r, target := Rank(t.inst, |t.inst|), Rank(t.inst, t.instpos + 1), Rank(t.inst, e);
    RankGrows(t.inst, t.instpos + 1, |t.inst|);
    RankGrows(t.inst, e + 1, |t.inst|);
    k := if target >= r then target - r else total - r + target;
    PicksRank(t, ws, k);
    var found := Picks(t, ws)[k];
    if found < e {
      RankTells(t.inst, found, e);
    } else if e < found {
      RankTells(t.inst, e, found);
    }
  }

  /** Between two balance checks, a round of as many selections as there are eligible instances picks each of them once. */
  lemma FairTurns(t: Task, ws: seq<seq<nat>>)
    requires RoundAhead(t, ws)
    ensures forall e | 0 <= e < |t.inst| && Eligible(t.inst, e) :: e in Picks(t, ws)
    ensures forall k, l | 0 <= k < l < |ws| :: Picks(t, ws)[k] != Picks(t, ws)[l]
  {
    forall e | 0 <= e < |t.inst| && Eligible(t.inst, e) ensures e in Picks(t, ws) {
      var k := EveryoneOnce(t, ws, e);
    }
    forall k, l | 0 <= k < l < |ws| ensures Picks(t, ws)[k] != Picks(t, ws)[l] {
      NoOneTwice(t, ws, k, l);
    }
  }

  // ----- what a balance check blocks -----

  /** The queue is longer than the mean by more than 100, as a fraction: the mean itself is rounded down. */
  predicate TooLong(waits: seq<nat>, i: int)
    requires 0 <= i < |waits|
  {
    |waits| * (waits[i] as int - 100) > Sum(waits)
  }

  lemma Times(n: nat, a: int, b: int)
    requires a <= b
    ensures n * a <= n * b
  {
    assert n * (b - a) >= 0;
  }

  lemma AboveMeanIff(sum: nat, n: nat, k: int)
    requires n > 0
    ensures k > sum / n <==> n * k > sum
  {
    var q := sum / n;
    assert n * q <= sum < n * q + n;
    if k > q {
      Times(n, q + 1, k);
      assert n * (q + 1) == n * q + n;
    } else {
      Times(n, k, q);
    }
  }

  /** A check of more than one instance blocks exactly those whose queue is too long. */
  lemma BlockedIff(inst: seq<Inst>, waits: seq<nat>)
    requires |waits| == |inst| > 0
    ensures |inst| > 1 ==> forall i :: 0 <= i < |inst| ==> (Balanced(inst, waits)[i].weight != 0 <==> TooLong(waits, i))
  {
    if |inst| > 1 {
      forall i | 0 <= i < |inst| ensures Balanced(inst, waits)[i].weight != 0 <==> TooLong(waits, i) {
        AboveMeanIff(Sum(waits), |waits|, waits[i] as int - 100);
      }
    }
  }

  /** The rounding shows with queues of 201 and 0: the mean counts as 100, and 201 is too long. */
  lemma MeanIsRoundedDown()
    ensures TooLong([201, 0], 0) && !TooLong([200, 0], 0)
  {
    SumOfTwo(201, 0);
    SumOfTwo(200, 0);
  }

  lemma SumOfTwo(a: nat, b: nat)
    ensures Sum([a, b]) == a + b
  {
    assert [a, b][..1] == [a];
    assert [a][..0] == [];
    assert Sum([a]) == a;
  }

  // ----- how it steers the selections -----

  predicate CheckDue(t: Task) { |t.inst| > 1 && t.count == t.balanceCount }

  /** The instances that were there at the last check are blocked or not as that check found them. */
  predicate SetBy(t: Task, waits: seq<nat>) {
    |waits| <= |t.inst| && forall i :: 0 <= i < |waits| ==> (t.inst[i].weight != 0 <==> TooLong(waits, i))
  }

  /** No selection on the way performs a check. */
  predicate NoCheck(t: Task, events: seq<Event>)
    requires Possible(t, events)
    decreases |events|
  {
    events == [] ||
    match events[0]
    case Register(tcid) => NoCheck(Registered(t, tcid), events[1..])
    case Get(waits) => !CheckDue(t) && NoCheck(Picked(t, waits).0, events[1..])
  }

  /** One balance check comes with every 100 selections for each instance. */
  predicate Sized(t: Task) { |t.inst| > 1 ==> t.balanceCount == 100 * |t.inst| }

  predicate InTime(t: Task) { Sized(t) && t.count <= 100 * |t.inst| }

  lemma {:induction false} AfterInTime(t: Task, events: seq<Event>)
    requires InTime(t) && Possible(t, events)
    ensures InTime(After(t, events))
    decreases |events|
  {
    if events != [] {
      match events[0] {
        case Register(tcid) => AfterInTime(Registered(t, tcid), events[1..]);
        case Get(waits) => AfterInTime(Picked(t, waits).0, events[1..]);
      }
    }
  }

  /** A task as any history of registrations and selections leaves it. */
  ghost predicate Reachable(t: Task) {
    exists tcid, events :: Possible(FirstRegistered(tcid), events) && t == After(FirstRegistered(tcid), events)
  }

  lemma ReachableIsFine(t: Task)
    requires Reachable(t)
    ensures Fine(t) && InTime(t)
  {
    var tcid, events :| Possible(FirstRegistered(tcid), events) && t == After(FirstRegistered(tcid), events);
    assert Eligible(FirstRegistered(tcid).inst, 0);
    AfterKeeps(FirstRegistered(tcid), events);
    AfterInTime(FirstRegistered(tcid), events);
  }

  /** The selection that performs a check sets the instances by the queues it finds. */
  lemma CheckSets(t: Task, waits: seq<nat>)
    requires Reachable(t) && |waits| == |t.inst| && CheckDue(t)
    ensures var t' := Picked(t, waits).0;
            SetBy(t', waits) && t'.count == 0 && |t'.inst| == |waits| && Fine(t') && InTime(t')
  {
    ReachableIsFine(t);
    PickSucceeds(t, waits);
    var i := Search(t.inst, t.instpos, |t.inst|).value;
    BlockedIff(t.inst[i := t.inst[i].(count := t.inst[i].count + 1)], waits);
  }

  lemma {:induction false} SetUntilCheck(t: Task, waits: seq<nat>, events: seq<Event>)
    requires Fine(t) && SetBy(t, waits) && |t.inst| > 1 && Possible(t, events) && NoCheck(t, events)
    requires InTime(t)
    ensures SetBy(After(t, events), waits) && |After(t, events).inst| > 1
    decreases |events|
  {
    if events != [] {
      match events[0] {
        case Register(tcid) =>
          RegisterKeeps(t, tcid);
          SetUntilCheck(Registered(t, tcid), waits, events[1..]);
        case Get(ws) =>
          PickSucceeds(t, ws);
          SetUntilCheck(Picked(t, ws).0, waits, events[1..]);
      }
    }
  }

  /** Until the next check no selection picks an instance whose queue was too long. */
  lemma LongQueuesAreSpared(t: Task, waits: seq<nat>, events: seq<Event>, now: seq<nat>)
    requires Reachable(t) && |waits| == |t.inst| && CheckDue(t)
    requires Possible(Picked(t, waits).0, events) && NoCheck(Picked(t, waits).0, events)
    requires |now| == |After(Picked(t, waits).0, events).inst|
    ensures var i := Picked(After(Picked(t, waits).0, events), now).1;
            i.Some? && (i.value < |waits| ==> !TooLong(waits, i.value))
  {
    CheckSets(t, waits);
    var t' := Picked(t, waits).0;
    SetUntilCheck(t', waits, events);
    AfterKeeps(t', events);
    PickSucceeds(After(t', events), now);
  }

  function ShortQueues(waits: seq<nat>): set<nat> { set i: nat | i < |waits| && !TooLong(waits, i) }

  lemma {:induction false} RankIsCount(inst: seq<Inst>, i: nat)
    requires i <= |inst|
    ensures Rank(inst, i) == |set j: nat | j < i && Eligible(inst, j)|
    decreases i
  {
    var those := set j: nat | j < i && Eligible(inst, j);
    if i == 0 {
      assert those == {};
    } else {
      RankIsCount(inst, i - 1);
      var before := set j: nat | j < i - 1 && Eligible(inst, j);
      assert those == if Eligible(inst, i - 1) then before + {i - 1} else before;
    }
  }

  /** And in the round that follows a check the selections pick exactly the instances whose queue was short, each once. */
  lemma ShortQueuesAreServed(t: Task, waits: seq<nat>, ws: seq<seq<nat>>)
    requires Reachable(t) && |waits| == |t.inst| && CheckDue(t)
    requires Fine(Picked(t, waits).0) && Fits(Picked(t, waits).0, ws) && |ws| == |ShortQueues(waits)|
    ensures var picks := Picks(Picked(t, waits).0, ws);
            && (forall e :: 0 <= e < |waits| ==> (e in picks <==> !TooLong(waits, e)))
            && (forall k, l | 0 <= k < l < |ws| :: picks[k] != picks[l])
  {
    CheckSets(t, waits);
    var t' := Picked(t, waits).0;
    var n := |t'.inst|;
    RankIsCount(t'.inst, n);
    assert ShortQueues(waits) == set j: nat | j < n && Eligible(t'.inst, j);
    RankAtMost(t'.inst, n);
    FairTurns(t', ws);
    var picks := Picks(t', ws);
    forall e | 0 <= e < |waits| ensures e in picks <==> !TooLong(waits, e) {
      if e in picks {
        var k :| 0 <= k < |picks| && picks[k] == e;
        PicksRank(t', ws, k);
      } else {
        assert !Eligible(t'.inst, e);
      }
    }
  }

  lemma {:induction false} RankAtMost(inst: seq<Inst>, i: nat)
    requires i <= |inst|
    ensures Rank(inst, i) <= i
    decreases i
  {
    if i > 0 {
      RankAtMost(inst, i - 1);
    }
  }

  /** Selections alone: the check comes with the selection after every 100 for each instance. */
  lemma {:induction false} ChecksAreRegular(t: Task, events: seq<Event>)
    requires Fine(t) && InTime(t) && |t.inst| > 1 && Possible(t, events)
    requires forall k :: 0 <= k < |events| ==> events[k].Get?
    requires t.count + |events| <= 100 * |t.inst|
    ensures NoCheck(t, events)
    ensures CheckDue(After(t, events)) <==> t.count + |events| == 100 * |t.inst|
    decreases |events|
  {
    if events != [] {
      assert events[0].Get?;
      PickSucceeds(t, events[0].waits);
      ChecksAreRegular(Picked(t, events[0].waits).0, events[1..]);
    }
  }
}
