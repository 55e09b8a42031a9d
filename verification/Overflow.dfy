/**
 The per-second overload limiter of xframe/comserv/ofcounter.C and its header: calls are counted
 within a second, every other one is refused above the current limit, all of them are refused once
 the count reaches 120 percent of the configured limit, and a tripped limiter recovers in two stages.

 Seconds are unbounded integers, and the percentages of the limit are exact before truncation.
 */
module Overflow {

  function Max(a: int, b: int): int { if a < b then b else a }

  function Min(a: int, b: int): int { if a < b then a else b }

  /** int(n * percent / 100): conversion truncates toward zero. */
  function Percent(n: int, percent: nat): int {
    if n >= 0 then n * percent / 100 else -(-n * percent / 100)
  }

  datatype Limiter = Limiter(
    caps: int,          // m_caps_limition, the configured limit; the other thresholds derive from it
    preTime: int,
    prePolicy: bool,
    curCaps: nat,
    maxCapsTime: int,
    maxCaps: nat,
    pd: nat,            // recovery stage: 0 normal, 1 and 2 slow start
    curLimit: int,
    flowControl: bool)
  {
    function PdLimit(): int { Percent(caps, 120) }
    function Start1(): int { Percent(caps, 30) }
    function Start2(): int { Percent(caps, 60) }
  }

  function Init(caps: int, now: int): Limiter {
    Limiter(caps, now, true, 0, 0, 0, 0, caps, false)
  }

  /** A further call in the current second. */
  function SameSecond(s: Limiter): (Limiter, bool) {
    var c := s.(curCaps := s.curCaps + 1);
    if c.caps <= 0 then (c, true)
    else if c.flowControl then (c, false)
    else if c.curLimit <= c.curCaps < c.PdLimit() then (c.(prePolicy := !c.prePolicy), !c.prePolicy)
    else if c.curCaps >= c.PdLimit() then (c.(flowControl := true), false)
    else (c, true)
  }

  function Record(s: Limiter): Limiter {
    if s.curCaps > s.maxCaps then s.(maxCapsTime := s.preTime, maxCaps := s.curCaps) else s
  }

  /** The stage and limit after `gap` seconds; a clock that went back changes neither. */
  function Stage(s: Limiter, gap: int): (nat, int) {
    if gap == 1 then
      if s.flowControl then (1, s.Start1())
      else if s.pd == 1 then (2, s.Start2())
      else if s.pd == 2 then (0, s.caps)
      else (s.pd, s.curLimit)
    else if gap == 2 then
      if s.flowControl then (2, s.Start2())
      else if s.pd != 0 then (0, s.caps)
      else (s.pd, s.curLimit)
    else if gap > 2 then (0, s.caps)
    else (s.pd, s.curLimit)
  }

  function NewSecond(s: Limiter, now: int): Limiter {
    var (pd, limit) := Stage(s, now - s.preTime);
    Record(s).(curCaps := 1, preTime := now, pd := pd, curLimit := limit, flowControl := false)
  }

  function Check(s: Limiter, now: int): (Limiter, bool) {
    if now == s.preTime then SameSecond(s) else (NewSecond(s, now), true)
  }

  function Reset(s: Limiter, caps: int): Limiter { s.(caps := caps, curLimit := caps) }

  function Report(s: Limiter): Limiter { s.(maxCaps := 0, maxCapsTime := 0) }

  /** COverflow, field by field. */
  class Counter {
    var capsLimition: int
    var pdLimition: int
    var start1Limition: int
    var start2Limition: int
    var curLimition: int
    var preTime: int
    var curTime: int
    var prePolicy: bool
    var curCaps: nat
    var maxCapsTime: int
    var maxCaps: nat
    var pd: nat
    var flowControl: bool

    ghost predicate Valid()
      reads this
    {
      && pdLimition == Percent(capsLimition, 120)
      && start1Limition == Percent(capsLimition, 30)
      && start2Limition == Percent(capsLimition, 60)
    }

    ghost function State(): Limiter
      reads this
    {
      Limiter(capsLimition, preTime, prePolicy, curCaps, maxCapsTime, maxCaps, pd, curLimition, flowControl)
    }

    constructor (caps: int, clock: int)
      ensures Valid() && State() == Init(caps, clock)
    {
      capsLimition, curLimition := caps, caps;
      pdLimition, start1Limition, start2Limition :=
        Percent(caps, 120), Percent(caps, 30), Percent(caps, 60);
      curTime, preTime, maxCapsTime, curCaps, maxCaps, pd := clock, clock, 0, 0, 0, 0;
      prePolicy, flowControl := true, false;
    }

    method ResetThreshold(caps: int)
      modifies this
      ensures Valid() && State() == Reset(old(State()), caps)
    {
      capsLimition, curLimition := caps, caps;
      pdLimition, start1Limition, start2Limition :=
        Percent(caps, 120), Percent(caps, 30), Percent(caps, 60);
    }

    method GetFlowInfo() returns (caps: nat, time: int)
      requires Valid()
      modifies this
      ensures Valid() && State() == Report(old(State()))
      ensures caps == old(maxCaps) && time == old(maxCapsTime)
    {
      caps, time := maxCaps, maxCapsTime;
      maxCaps, maxCapsTime := 0, 0;
    }

    /** The part of checkOverflow that moves the recovery stage. */
    method NextStage(i: int)
      requires Valid()
      modifies this`pd, this`curLimition
      ensures Valid() && (pd, curLimition) == Stage(old(State()), i)
    {
      if i == 1 {
        if flowControl {
          pd, curLimition := 1, start1Limition;
        } else if pd == 1 {
          pd, curLimition := 2, start2Limition;
        } else if pd == 2 {
          pd, curLimition := 0, capsLimition;
        }
      } else if i == 2 {
        if flowControl {
          pd, curLimition := 2, start2Limition;
        } else if pd != 0 {
          pd, curLimition := 0, capsLimition;
        }
      } else if i > 2 {
        pd, curLimition := 0, capsLimition;
      }
    }

    /** The part of checkOverflow for a further call in the current second. */
    method CountInSecond() returns (ok: bool)
      requires Valid()
      modifies this`curCaps, this`prePolicy, this`flowControl
      ensures Valid() && (State(), ok) == SameSecond(old(State()))
    {
      curCaps := curCaps + 1;
      if capsLimition <= 0 {
        return true;
      }
      if flowControl {
        return false;
      }
      if curCaps >= curLimition && curCaps < pdLimition {
        prePolicy := !prePolicy;
        return prePolicy;
      }
      if curCaps >= pdLimition {
        flowControl := true;
        return false;
      }
      return true;
    }

    /** A `currenttime` of 0 stands for the clock. */
    method CheckOverflow(currenttime: int, clock: int) returns (ok: bool)
      requires Valid()
      modifies this
      ensures Valid()
      ensures (State(), ok) == Check(old(State()), if currenttime != 0 then currenttime else clock)
    {
      if currenttime != 0 {
        curTime := currenttime;
      } else {
        curTime := clock;
      }
      var i := curTime - preTime;
      if i == 0 {
        ok := CountInSecond();
        return;
      }
      if curCaps > maxCaps {
        maxCapsTime := preTime;
        maxCaps := curCaps;
      }
      curCaps := 1;
      preTime := curTime;
      NextStage(i);
      flowControl := false;
      ok := true;
    }
  }

  datatype Event = Call(now: int) | SetLimit(caps: int) | Read

  function After(s: Limiter, e: Event): Limiter {
    match e
    case Call(now) => Check(s, now).0
    case SetLimit(caps) => Reset(s, caps)
    case Read => Report(s)
  }

  function Run(s: Limiter, events: seq<Event>): Limiter {
    if events == [] then s else After(Run(s, events[..|events| - 1]), events[|events| - 1])
  }

  /** In stage 0 the limit is the configured one; no stage has a higher one. */
  predicate Inv(s: Limiter) {
    && s.pd <= 2
    && (s.pd == 0 ==> s.curLimit == s.caps)
    && (s.caps > 0 ==> s.curLimit <= s.caps)
  }

  ghost predicate Reachable(s: Limiter) {
    exists caps, now, events :: s == Run(Init(caps, now), events)
  }

  lemma {:induction false} RunKeeps(s: Limiter, events: seq<Event>)
    requires Inv(s)
    ensures Inv(Run(s, events))
  {
    if events != [] {
      RunKeeps(s, events[..|events| - 1]);
    }
  }

  // Gaps.

  /** One call in each of the `gap` seconds that follow the current one. */
  function EachSecond(s: Limiter, gap: nat): Limiter {
    if gap == 0 then s else Check(EachSecond(s, gap - 1), s.preTime + gap).0
  }

  lemma {:induction false} SettlesInThree(s: Limiter, gap: nat)
    requires Inv(s) && gap >= 3
    ensures EachSecond(s, gap).preTime == s.preTime + gap && EachSecond(s, gap).caps == s.caps
    ensures EachSecond(s, gap).curCaps == 1 && EachSecond(s, gap).prePolicy == s.prePolicy
    ensures EachSecond(s, gap).pd == 0 && EachSecond(s, gap).curLimit == s.caps
    ensures !EachSecond(s, gap).flowControl
  {
    if gap == 3 {
      assert EachSecond(s, 1) == Check(s, s.preTime + 1).0;
      assert EachSecond(s, 2) == Check(EachSecond(s, 1), s.preTime + 2).0;
      assert EachSecond(s, 3) == Check(EachSecond(s, 2), s.preTime + 3).0;
    } else {
      SettlesInThree(s, gap - 1);
    }
  }

  /** One call after a silent gap leaves the limiter where a call in every second of it would have. */
  lemma GapIsOnePerSecond(s: Limiter, gap: nat)
    requires Reachable(s) && gap >= 1
    ensures var late := Check(s, s.preTime + gap);
            late.1 && late.0 == EachSecond(s, gap).(maxCaps := late.0.maxCaps, maxCapsTime := late.0.maxCapsTime)
  {
    var caps, now, events :| s == Run(Init(caps, now), events);
    RunKeeps(Init(caps, now), events);
    assert EachSecond(s, 1) == Check(s, s.preTime + 1).0;
    if gap == 2 {
      assert EachSecond(s, 2) == Check(EachSecond(s, 1), s.preTime + 2).0;
    } else if gap >= 3 {
      SettlesInThree(s, gap);
    }
  }

  // Acceptance within one second.

  /** The limiter after the first `n` calls of the second `now`, and how many of them it accepted. */
  function Burst(s: Limiter, now: int, n: nat): (Limiter, nat) {
    if n == 0 then (s, 0)
    else
      var (before, accepted) := Burst(s, now, n - 1);
      var (after, ok) := Check(before, now);
      (after, accepted + if ok then 1 else 0)
  }

  /** What a second accepts of `n` calls: all below the limit, every other one up to `p`, none above. */
  function Accepted(limit: int, p: int, n: nat, policy: bool): int {
    var l := Max(limit, 2);
    Min(n, l - 1) + (if policy then Band(l, p, n) / 2 else (Band(l, p, n) + 1) / 2)
  }

  function Band(l: int, p: int, n: nat): nat { Max(0, Min(n - (l - 1), p - l)) }

  /** The limiter after `n` calls of a second that opened in `o`. */
  function Within(o: Limiter, n: nat): Limiter {
    var (l, p) := (Max(o.curLimit, 2), o.PdLimit());
    o.(curCaps := n, flowControl := n >= p, prePolicy := (o.prePolicy == (Band(l, p, n) % 2 == 0)))
  }

  lemma ThresholdsOrdered(s: Limiter)
    requires s.caps >= 2 && s.curLimit <= s.caps
    ensures Max(s.curLimit, 2) <= s.PdLimit()
  {
  }

  lemma WithinStep(o: Limiter, p: int, n: nat)
    requires o.caps >= 2 && n >= 1 && p == o.PdLimit() && Max(o.curLimit, 2) <= p
    ensures Check(Within(o, n), o.preTime).0 == Within(o, n + 1)
    ensures Accepted(o.curLimit, p, n + 1, o.prePolicy)
            == Accepted(o.curLimit, p, n, o.prePolicy) + (if Check(Within(o, n), o.preTime).1 then 1 else 0)
  {
    var l := Max(o.curLimit, 2);
    if l <= n + 1 < p {
      assert Band(l, p, n + 1) == Band(l, p, n) + 1;
    } else {
      assert Band(l, p, n + 1) == Band(l, p, n);
    }
  }

  lemma WithinFirst(o: Limiter, p: int)
    requires o.caps >= 2 && p == o.PdLimit() && Max(o.curLimit, 2) <= p
    requires o.curCaps == 1 && !o.flowControl
    ensures Within(o, 1) == o && Accepted(o.curLimit, p, 1, o.prePolicy) == 1
  {
  }

  lemma BurstStep(s: Limiter, now: int, n: nat, b: Limiter, t: Limiter, ok: bool)
    requires n >= 1 && Burst(s, now, n - 1).0 == b && Check(b, now) == (t, ok)
    ensures Burst(s, now, n).0 == t
    ensures Burst(s, now, n).1 == Burst(s, now, n - 1).1 + if ok then 1 else 0
  {
  }

  lemma {:induction false} BurstFrom(s: Limiter, o: Limiter, p: int, n: nat)
    requires o.caps >= 2 && p == o.PdLimit() && Max(o.curLimit, 2) <= p && n >= 1
    requires Check(s, o.preTime) == (o, true) && o.curCaps == 1 && !o.flowControl
    ensures Burst(s, o.preTime, n).0 == Within(o, n)
    ensures Burst(s, o.preTime, n).1 == Accepted(o.curLimit, p, n, o.prePolicy)
  {
    if n == 1 {
      WithinFirst(o, p);
      BurstStep(s, o.preTime, 1, s, o, true);
    } else {
      BurstFrom(s, o, p, n - 1);
      WithinStep(o, p, n - 1);
      var b := Within(o, n - 1);
      var next := Check(b, o.preTime);
      BurstStep(s, o.preTime, n, b, next.0, next.1);
    }
  }

  lemma BurstIsAccepted(s: Limiter, now: int, n: nat)
    requires Inv(s) && s.caps >= 2 && now != s.preTime && n >= 1
    ensures var o := NewSecond(s, now);
            && Max(o.curLimit, 2) <= o.PdLimit()
            && Burst(s, now, n) == (Within(o, n), Accepted(o.curLimit, o.PdLimit(), n, o.prePolicy))
  {
    var o := NewSecond(s, now);
    ThresholdsOrdered(o);
    BurstFrom(s, o, o.PdLimit(), n);
  }

  /** The bound on a second, whatever happened before it and however many calls it sees. */
  lemma SecondIsBounded(s: Limiter, now: int, n: nat)
    requires Reachable(s) && s.caps >= 2 && now != s.preTime && n >= 1
    ensures var o := NewSecond(s, now);
            var l := Max(o.curLimit, 2);
            var p := s.caps * 120 / 100;
            && l <= p
            && Burst(s, now, n).1 == Accepted(o.curLimit, p, n, o.prePolicy)
            && Burst(s, now, n).1 <= l - 1 + (p - l + 1) / 2
  {
    var caps, start, events :| s == Run(Init(caps, start), events);
    RunKeeps(Init(caps, start), events);
    BurstIsAccepted(s, now, n);
  }

  /** The second in which the limiter is created has the bound of stage 0. */
  lemma FirstSecondIsBounded(caps: int, now: int, n: nat)
    requires caps >= 2 && n >= 1
    ensures var p := caps * 120 / 100;
            && Burst(Init(caps, now), now, n).1 == Accepted(caps, p, n, true)
            && Burst(Init(caps, now), now, n).1 <= caps - 1 + (p - caps + 1) / 2
  {
    var o := Init(caps, now).(curCaps := 1);
    ThresholdsOrdered(o);
    BurstFrom(Init(caps, now), o, o.PdLimit(), n);
  }

  /** The bound is met: with the policy last refusing, `p` calls reach it. */
  lemma BoundIsReached(s: Limiter, now: int)
    requires Reachable(s) && s.caps >= 2 && now != s.preTime && !s.prePolicy
    ensures var o := NewSecond(s, now);
            var l := Max(o.curLimit, 2);
            var p := s.caps * 120 / 100;
            p >= 2 && Burst(s, now, p).1 == l - 1 + (p - l + 1) / 2
  {
    var o := NewSecond(s, now);
    SecondIsBounded(s, now, 1);
    SecondIsBounded(s, now, o.PdLimit());
  }

  /**
   A second of `n` calls under a limit: all below the limit are accepted, every other one from there to
   `p`, and none from `p` on.
   */
  predicate Shares(n: nat, accepted: int, limit: int, p: int) {
    var l := Max(limit, 2);
    if n < l then accepted == n
    else if n < p then l - 1 + (n - l + 1) / 2 <= accepted <= l - 1 + (n - l + 2) / 2
    else l - 1 + (p - l) / 2 <= accepted <= l - 1 + (p - l + 1) / 2
  }

  lemma AcceptedShares(limit: int, p: int, n: nat, policy: bool)
    requires Max(limit, 2) <= p
    ensures Shares(n, Accepted(limit, p, n, policy), limit, p)
  {
  }

  lemma SecondShares(s: Limiter, n: nat, limit: int)
    requires Inv(s) && s.caps >= 2 && n >= 1 && limit == NewSecond(s, s.preTime + 1).curLimit
    ensures Shares(n, Burst(s, s.preTime + 1, n).1, limit, s.caps * 120 / 100)
    ensures Inv(Burst(s, s.preTime + 1, n).0)
    ensures var t := Burst(s, s.preTime + 1, n).0;
            && t.preTime == s.preTime + 1 && t.caps == s.caps && t.pd == NewSecond(s, s.preTime + 1).pd
            && (t.flowControl <==> n >= s.caps * 120 / 100)
  {
    var o := NewSecond(s, s.preTime + 1);
    BurstIsAccepted(s, s.preTime + 1, n);
    AcceptedShares(o.curLimit, o.PdLimit(), n, o.prePolicy);
  }

  /**
   The slow start: the first second after a tripped one has 30 percent of the configured limit, the second
   one 60, and the third all of it, as long as none of them is tripped in its turn.
   */
  lemma SlowStart(s: Limiter, n1: nat, n2: nat, n3: nat)
    requires Reachable(s) && s.caps >= 2 && s.flowControl && n1 >= 1 && n2 >= 1 && n3 >= 1
    ensures var p := s.caps * 120 / 100;
            var b1 := Burst(s, s.preTime + 1, n1);
            var b2 := Burst(b1.0, s.preTime + 2, n2);
            var b3 := Burst(b2.0, s.preTime + 3, n3);
            && Shares(n1, b1.1, s.caps * 30 / 100, p)
            && (n1 < p ==> Shares(n2, b2.1, s.caps * 60 / 100, p))
            && (n1 < p && n2 < p ==> Shares(n3, b3.1, s.caps, p))
            && (n1 >= p ==> Shares(n2, b2.1, s.caps * 30 / 100, p))
  {
    var caps, start, events :| s == Run(Init(caps, start), events);
    RunKeeps(Init(caps, start), events);
    SecondShares(s, n1, s.caps * 30 / 100);
    var s1 := Burst(s, s.preTime + 1, n1).0;
    SecondShares(s1, n2, if n1 < s.caps * 120 / 100 then s.caps * 60 / 100 else s.caps * 30 / 100);
    var s2 := Burst(s1, s1.preTime + 1, n2).0;
    if n1 < s.caps * 120 / 100 && n2 < s.caps * 120 / 100 {
      SecondShares(s2, n3, s.caps);
    }
  }

  /** A new limit does not end the slow start: the seconds to come have their part of the new limit. */
  lemma NewLimitInSlowStart(s: Limiter, caps: int, n: nat)
    requires Reachable(s) && caps >= 2 && n >= 1
    ensures var r := Reset(s, caps);
            var b := Burst(r, s.preTime + 1, n);
            Shares(n, b.1, if s.flowControl then caps * 30 / 100 else if s.pd == 1 then caps * 60 / 100 else caps, caps * 120 / 100)
  {
    var caps0, start, events :| s == Run(Init(caps0, start), events);
    var e := SetLimit(caps);
    assert (events + [e])[..|events|] == events;
    assert Reset(s, caps) == Run(Init(caps0, start), events + [e]);
    RunKeeps(Init(caps0, start), events + [e]);
    SecondShares(Reset(s, caps), n, if s.flowControl then caps * 30 / 100 else if s.pd == 1 then caps * 60 / 100 else caps);
  }

  /** A second that reaches 120 percent is tripped: the calls that follow in it are all refused. */
  lemma TrippedRefuses(s: Limiter, now: int, n: nat, more: nat)
    requires Reachable(s) && s.caps >= 2 && now != s.preTime && n >= s.caps * 120 / 100 && more >= n
    ensures Burst(s, now, n).0.flowControl && Burst(s, now, more).1 == Burst(s, now, n).1
  {
    SecondIsBounded(s, now, n);
    SecondIsBounded(s, now, more);
    var caps, start, events :| s == Run(Init(caps, start), events);
    RunKeeps(Init(caps, start), events);
    BurstIsAccepted(s, now, n);
  }

  /** A clock that was set back opens a second, and takes back a trip, but changes neither stage nor limit. */
  lemma ClockSetBack(s: Limiter, now: int)
    requires now < s.preTime
    ensures var (t, ok) := Check(s, now);
            ok && t.pd == s.pd && t.curLimit == s.curLimit && !t.flowControl && t.curCaps == 1 && t.preTime == now
  {
  }

  /** With a limit of one, each second accepts its first call and no other. */
  lemma {:induction false} LimitOfOne(s: Limiter, now: int, n: nat)
    requires s.caps == 1 && now != s.preTime && n >= 1
    ensures Burst(s, now, n).1 == 1
    ensures Burst(s, now, n).0 ==
            NewSecond(s, now).(curCaps := n, flowControl := n >= 2)
  {
    assert Burst(s, now, 0) == (s, 0);
    if n >= 2 {
      LimitOfOne(s, now, n - 1);
    }
  }

  /** Without a positive limit nothing is ever refused. */
  lemma {:induction false} NoLimit(s: Limiter, now: int, n: nat)
    requires s.caps <= 0
    ensures Burst(s, now, n).1 == n && Burst(s, now, n).0.caps == s.caps
  {
    if n >= 1 {
      NoLimit(s, now, n - 1);
    }
  }

  // The record of the busiest second.

  datatype Second = Second(time: int, calls: nat)

  /** The seconds completed since the last report, oldest first; one is complete when a call comes at another time. */
  function Completed(s: Limiter, events: seq<Event>): seq<Second> {
    if events == [] then []
    else
      var before := events[..|events| - 1];
      var t := Run(s, before);
      match events[|events| - 1]
      case Call(now) => Completed(s, before) + (if now == t.preTime then [] else [Second(t.preTime, t.curCaps)])
      case SetLimit(_) => Completed(s, before)
      case Read => []
  }

  /** Some completed second is the record, and all earlier ones had fewer calls. */
  predicate First(done: seq<Second>, peak: Second) {
    exists i | 0 <= i < |done| :: done[i] == peak && forall j :: 0 <= j < i ==> done[j].calls < peak.calls
  }

  predicate Peak(s: Limiter, done: seq<Second>) {
    && (forall i :: 0 <= i < |done| ==> done[i].calls <= s.maxCaps)
    && (s.maxCaps == 0 ==> s.maxCapsTime == 0)
    && (s.maxCaps > 0 ==> First(done, Second(s.maxCapsTime, s.maxCaps)))
  }

  lemma RecordKeepsPeak(s: Limiter, done: seq<Second>)
    requires Peak(s, done)
    ensures Peak(Record(s), done + [Second(s.preTime, s.curCaps)])
  {
    var more := done + [Second(s.preTime, s.curCaps)];
    if s.curCaps > s.maxCaps {
      assert more[|done|] == Second(s.preTime, s.curCaps);
    } else if s.maxCaps > 0 {
      var peak := Second(s.maxCapsTime, s.maxCaps);
      var i :| 0 <= i < |done| && done[i] == peak && forall j :: 0 <= j < i ==> done[j].calls < peak.calls;
      assert more[i] == peak;
    }
  }

  /** The record holds the first of the busiest seconds, or nothing. */
  lemma {:induction false} RecordIsPeak(caps: int, now: int, events: seq<Event>)
    ensures Peak(Run(Init(caps, now), events), Completed(Init(caps, now), events))
  {
    if events != [] {
      var before := events[..|events| - 1];
      RecordIsPeak(caps, now, before);
      var t, was := Run(Init(caps, now), before), Completed(Init(caps, now), before);
      match events[|events| - 1]
      case Call(at) =>
        if at == t.preTime {
          assert Completed(Init(caps, now), events) == was;
        } else {
          RecordKeepsPeak(t, was);
        }
      case SetLimit(_) =>
      case Read =>
    }
  }
}
