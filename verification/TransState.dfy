/**
 The transaction state machines of xframe/transport/transstate.C.

 `Entry` is the value of one `TTransState` object; `ClientStep`, `ServerStep` and
 `TimerStep` give its transitions, and the classes below perform them in place.
 */
module TransState {
  import opened Wrappers

  datatype MsgName = Req | Rsp | Tmp

  /** A CStr: its bytes may hold a 0, at which the C functions stop. */
  datatype TransId = TransId(text: string)

  function CText(s: string): string {
    if s == "" || s[0] == '\0' then "" else [s[0]] + CText(s[1..])
  }

  /** What the table compares: CStr's operator< is strcmp. */
  function KeyOf(id: TransId): string { CText(id.text) }

  /** The text up to its first 0. */
  lemma {:induction false} KeyIsPrefix(s: string)
    ensures var k := CText(s); k <= s && '\0' !in k && (|k| < |s| ==> s[|k|] == '\0')
  {
    if s != "" {
      KeyIsPrefix(s[1..]);
    }
  }

  /** The parameter a timer is started with, transID.str(): a copy, but NULL for an empty id. */
  function Para(id: TransId): Option<string> { if id.text == "" then None else Some(id.text) }

  datatype ComHdr = ComHdr(status: int, pri: int)

  /** The fields of a TUniNetMsg that the transaction layer reads or copies. */
  datatype Msg = Msg(name: MsgName, oAddr: int, tAddr: int, kind: int,
                     transId: Option<TransId>, cseq: Option<int>, hdr: Option<ComHdr>, body: string)

  function GenComMsgResp(m: Msg, code: int): Msg {
    Msg(if code == 100 then Tmp else Rsp, m.tAddr, m.oAddr, m.kind, m.transId, m.cseq,
        if m.hdr.Some? then Some(m.hdr.value.(status := code)) else None, "")
  }

  /** The provisional acknowledgement the machines send. */
  function Ack(m: Msg): Msg { GenComMsgResp(m, 100) }

  function GetComMsgPri(m: Msg): int {
    if m.hdr.Some? then m.hdr.value.pri else 0
  }

  datatype TsState = Init | Forward | Temporary | Terminated

  datatype TsCode = TscNull | TscForward | TscRefuse | TscResend

  datatype Entry = Entry(tssend: bool, tsstate: TsState, tschange: bool, tschangeFrom: TsState,
                         timer: nat, msg: Option<Msg>, needrsp: int, cseq: int, transID: TransId)

  function NewEntry(tssend: bool, transID: TransId): Entry {
    Entry(tssend, Init, false, Init, 0, None, 0, 0, transID)
  }

  datatype Outcome = Outcome(entry: Entry, code: TsCode, resp: Option<Msg>)

  function Move(e: Entry, to: TsState): Entry {
    e.(tschange := true, tschangeFrom := e.tsstate, tsstate := to)
  }

  function Stay(e: Entry): Entry { e.(tschange := false) }

  function CSeqOf(m: Msg, default: int): int {
    if m.cseq.Some? then m.cseq.value else default
  }

  /** TSClient_CHANGE; `key` is what setResendTimer returns if the step arms the timer. */
  function ClientStep(e: Entry, m: Msg, key: nat): Outcome {
    match (e.tsstate, m.name)
    case (Init, Req) =>
      Outcome(Move(e, Forward).(msg := Some(m), timer := key, needrsp := GetComMsgPri(m), cseq := CSeqOf(m, e.cseq)),
              TscForward, None)
    case (Forward, Rsp) => Outcome(Move(e, Terminated).(timer := 0, msg := None), TscForward, None)
    case (Forward, Tmp) =>
      Outcome(Move(e, if e.needrsp != 0 then Temporary else Terminated).(timer := 0, msg := None), TscNull, None)
    case (Temporary, Rsp) => Outcome(Move(e, Terminated), TscForward, Some(Ack(m)))
    case (Terminated, Rsp) => Outcome(Stay(e), TscRefuse, Some(Ack(m)))
    case _ => Outcome(Stay(e), TscNull, None)
  }

  /** TSServer_CHANGE. */
  function ServerStep(e: Entry, m: Msg, key: nat): Outcome {
    match (e.tsstate, m.name)
    case (Init, Req) =>
      var pri := GetComMsgPri(m);
      Outcome(Move(e, if pri != 0 then Forward else Terminated).(needrsp := pri, cseq := CSeqOf(m, e.cseq)),
              TscForward, if pri != 0 then None else Some(Ack(m)))
    case (Forward, Req) => Outcome(Move(e, Temporary), TscRefuse, Some(Ack(m)))
    case (Forward, Rsp) => Outcome(Move(e, Terminated).(msg := Some(m)), TscForward, None)
    case (Temporary, Rsp) => Outcome(Move(e, Terminated).(msg := Some(m), timer := key), TscForward, None)
    case (Temporary, Req) => Outcome(Stay(e), TscRefuse, Some(Ack(m)))
    case (Terminated, Req) =>
      if e.msg.Some? then Outcome(Stay(e), TscRefuse, e.msg)
      else if e.needrsp == 0 then Outcome(Stay(e), TscRefuse, Some(Ack(m)))
      else Outcome(Stay(e), TscNull, None)
    case (Terminated, Tmp) => Outcome(Stay(e).(timer := 0), TscNull, None)
    case _ => Outcome(Stay(e), TscNull, None)
  }

  function MsgStep(e: Entry, m: Msg, key: nat): Outcome {
    if e.tssend then ClientStep(e, m, key) else ServerStep(e, m, key)
  }

  /** The timer overload of TS_CHANGE: `fired` expired, `key` is the next timer. */
  function TimerStep(e: Entry, fired: nat, key: nat): Outcome {
    if fired > 0 && e.timer == fired && (if e.tssend then e.tsstate == Forward else e.tsstate == Terminated)
    then Outcome(e.(timer := key), TscResend, e.msg)
    else Outcome(e, TscNull, None)
  }

  /** What holds of an entry between calls: no timer runs in a phase that would arm one. */
  predicate Rested(e: Entry) {
    e.tsstate == Init || e.tsstate == Temporary || (!e.tssend && e.tsstate == Forward) ==> e.timer == 0
  }

  function Rank(s: TsState): nat {
    match s case Init => 0 case Forward => 1 case Temporary => 2 case Terminated => 3
  }

  /** The states are passed in one direction, and tschange with tschange_from tells exactly what the last message did. */
  lemma MovesForward(e: Entry, m: Msg, key: nat)
    ensures var o := MsgStep(e, m, key).entry;
            && Rank(o.tsstate) >= Rank(e.tsstate)
            && (o.tschange <==> o.tsstate != e.tsstate)
            && o.tschangeFrom == (if o.tschange then e.tsstate else e.tschangeFrom)
            && o.tssend == e.tssend && o.transID == e.transID
  {
  }

  /** An acknowledgement goes back where the message came from, with its id and sequence number, status 100 and no body. */
  lemma AckGoesBack(m: Msg)
    ensures Ack(m).name == Tmp && Ack(m).oAddr == m.tAddr && Ack(m).tAddr == m.oAddr && Ack(m).kind == m.kind
    ensures Ack(m).transId == m.transId && Ack(m).cseq == m.cseq && Ack(m).body == ""
    ensures Ack(m).hdr.Some? <==> m.hdr.Some?
    ensures m.hdr.Some? ==> Ack(m).hdr.value.status == 100 && GetComMsgPri(Ack(m)) == GetComMsgPri(m)
  {
  }

  datatype Taken = Taken(entry: Option<Entry>, code: TsCode, resp: Option<Msg>)

  /** processTM for a message of the entry's own id: requests make entries, seen from the wire as servers. */
  function Take(entry: Option<Entry>, fromwire: bool, m: Msg, key: nat): Taken
    requires m.transId.Some?
  {
    if entry.None? && m.name != Req then Taken(None, TscNull, None)
    else
      var o := MsgStep(if entry.Some? then entry.value else NewEntry(!fromwire, m.transId.value), m, key);
      Taken(Some(o.entry), o.code, o.resp)
  }

  /** processTM for an expired timer of the entry's own id. */
  function Expire(entry: Option<Entry>, fired: nat, key: nat): Taken {
    if fired > 0 && entry.Some? then
      var o := TimerStep(entry.value, fired, key);
      Taken(Some(o.entry), o.code, o.resp)
    else Taken(entry, TscNull, None)
  }

  function TimerOf(entry: Option<Entry>): nat {
    if entry.Some? then entry.value.timer else 0
  }

  function Lookup(table: map<string, Entry>, k: string): Option<Entry> {
    if k in table then Some(table[k]) else None
  }

  function Update(table: map<string, Entry>, k: string, entry: Option<Entry>): map<string, Entry> {
    if entry.Some? then table[k := entry.value] else table
  }

  type Timers = map<nat, Option<string>>

  /** How a transition of an entry changes the parent's running timers. */
  function Rearm(timers: Timers, before: nat, after: nat, para: Option<string>): Timers {
    if before == after then timers
    else
      var rest := timers - {before};
      if after == 0 then rest else rest[after := para]
  }

  function RearmFor(timers: Timers, before: nat, entry: Option<Entry>): Timers {
    if entry.None? then timers else Rearm(timers, before, entry.value.timer, Para(entry.value.transID))
  }

  /** The timers behind setResendTimer and delResendTimer: each running key carries its parameter. */
  class TimerQueue {
    var running: Timers
    var last: nat

    ghost predicate Valid() reads this { forall k <- running :: 0 < k <= last }

    constructor ()
      ensures Valid() && running == map[] && last == 0
    {
      running, last := map[], 0;
    }

    method SetResendTimer(para: Option<string>) returns (key: nat)
      requires Valid()
      modifies this
      ensures Valid() && key == last == old(last) + 1
      ensures key !in old(running) && running == old(running)[key := para]
    {
      last := last + 1;
      key := last;
      running := running[key := para];
    }

    method DelResendTimer(key: nat)
      requires Valid()
      modifies this`running
      ensures Valid() && running == old(running) - {key}
    {
      running := running - {key};
    }
  }

  class TransEntry {
    const tssend: bool
    const transID: TransId
    var tsstate: TsState
    var tschange: bool
    var tschangeFrom: TsState
    var timer: nat
    var msg: Option<Msg>
    var needrsp: int
    var cseq: int

    function Value(): Entry reads this {
      Entry(tssend, tsstate, tschange, tschangeFrom, timer, msg, needrsp, cseq, transID)
    }

    constructor (tssend: bool, transID: TransId)
      ensures Value() == NewEntry(tssend, transID)
    {
      this.tssend, this.transID := tssend, transID;
      tsstate, tschange, tschangeFrom, timer, msg, needrsp, cseq := Init, false, Init, 0, None, 0, 0;
    }

    method StopTimer(timers: TimerQueue)
      requires timers.Valid()
      modifies this`timer, timers`running
      ensures timers.Valid() && timer == 0
      ensures timers.running == Rearm(old(timers.running), old(timer), 0, Para(transID))
    {
      if timer != 0 {
        timers.DelResendTimer(timer);
      }
      timer := 0;
    }

    method ClientChange(m: Msg, timers: TimerQueue) returns (code: TsCode, resp: Option<Msg>)
      requires timers.Valid() && (tsstate == Init ==> timer == 0)
      modifies this, timers
      ensures timers.Valid()
      ensures Outcome(Value(), code, resp) == ClientStep(old(Value()), m, old(timers.last) + 1)
      ensures timers.running == Rearm(old(timers.running), old(timer), timer, Para(transID))
    {
      code, resp := TscNull, None;
      match tsstate {
        case Init =>
          tschange := false;
          if m.name == Req {
            msg := Some(m);
            timer := timers.SetResendTimer(Para(transID));
            needrsp := GetComMsgPri(m);
            tschange, tschangeFrom, tsstate := true, tsstate, Forward;
            if m.cseq.Some? {
              cseq := m.cseq.value;
            }
            assert old(timers.running) - {0} == old(timers.running);
            code := TscForward;
          }
        case Forward =>
          tschange := false;
          if m.name == Rsp {
            StopTimer(timers);
            msg := None;
            tschange, tschangeFrom, tsstate := true, tsstate, Terminated;
            code := TscForward;
          } else if m.name == Tmp {
            StopTimer(timers);
            msg := None;
            tschange, tschangeFrom := true, tsstate;
            if needrsp != 0 {
              tsstate := Temporary;
            } else {
              tsstate := Terminated;
            }
          }
        case Temporary =>
          tschange := false;
          if m.name == Rsp {
            resp := Some(GenComMsgResp(m, 100));
            tschange, tschangeFrom, tsstate := true, tsstate, Terminated;
            code := TscForward;
          }
        case Terminated =>
          tschange := false;
          if m.name == Rsp {
            resp := Some(GenComMsgResp(m, 100));
            code := TscRefuse;
          }
      }
    }

    method ServerChange(m: Msg, timers: TimerQueue) returns (code: TsCode, resp: Option<Msg>)
      requires timers.Valid() && (tsstate == Temporary ==> timer == 0)
      modifies this, timers
      ensures timers.Valid()
      ensures Outcome(Value(), code, resp) == ServerStep(old(Value()), m, old(timers.last) + 1)
      ensures timers.running == Rearm(old(timers.running), old(timer), timer, Para(transID))
    {
      code, resp := TscNull, None;
      match tsstate {
        case Init =>
          tschange := false;
          if m.name == Req {
            needrsp := GetComMsgPri(m);
            if m.cseq.Some? {
              cseq := m.cseq.value;
            }
            tschange, tschangeFrom := true, tsstate;
            if needrsp != 0 {
              tsstate := Forward;
            } else {
              tsstate := Terminated;
              resp := Some(GenComMsgResp(m, 100));
            }
            code := TscForward;
          }
        case Forward =>
          tschange := false;
          if m.name == Req {
            tschange, tschangeFrom, tsstate := true, tsstate, Temporary;
            resp := Some(GenComMsgResp(m, 100));
            code := TscRefuse;
          } else if m.name == Rsp {
            msg := Some(m);
            tschange, tschangeFrom, tsstate := true, tsstate, Terminated;
            code := TscForward;
          }
        case Temporary =>
          tschange := false;
          if m.name == Rsp {
            msg := Some(m);
            timer := timers.SetResendTimer(Para(transID));
            assert old(timers.running) - {0} == old(timers.running);
            tschange, tschangeFrom, tsstate := true, tsstate, Terminated;
            code := TscForward;
          } else if m.name == Req {
            resp := Some(GenComMsgResp(m, 100));
            code := TscRefuse;
          }
        case Terminated =>
          tschange := false;
          if m.name == Req {
            if msg.Some? {
              resp := msg;
              code := TscRefuse;
            } else if needrsp == 0 {
              resp := Some(GenComMsgResp(m, 100));
              code := TscRefuse;
            }
          } else if m.name == Tmp {
            StopTimer(timers);
          }
      }
    }

    method TsChange(m: Msg, timers: TimerQueue) returns (code: TsCode, resp: Option<Msg>)
      requires timers.Valid() && Rested(Value())
      modifies this, timers
      ensures timers.Valid() && Rested(Value())
      ensures Outcome(Value(), code, resp) == MsgStep(old(Value()), m, old(timers.last) + 1)
      ensures timers.running == Rearm(old(timers.running), old(timer), timer, Para(transID))
    {
      if tssend {
        code, resp := ClientChange(m, timers);
      } else {
        code, resp := ServerChange(m, timers);
      }
    }

    /** The timer queue has already dropped the expired key when it calls back. */
    method TimerChange(fired: nat, timers: TimerQueue) returns (code: TsCode, resend: Option<Msg>)
      requires timers.Valid() && fired <= timers.last && fired !in timers.running
      modifies this, timers
      ensures timers.Valid()
      ensures Outcome(Value(), code, resend) == TimerStep(old(Value()), fired, old(timers.last) + 1)
      ensures timers.running == Rearm(old(timers.running), old(timer), timer, Para(transID))
    {
      code, resend := TscNull, None;
      if fired > 0 && timer == fired {
        if (tsstate == Forward && tssend) || (tsstate == Terminated && !tssend) {
          resend := msg;
          assert old(timers.running) - {fired} == old(timers.running);
          timer := timers.SetResendTimer(Para(transID));
          code := TscResend;
        }
      }
    }
  }

  /** TTransMachine: the table mTSState, without expiry. */
  class TransMachine {
    var mTSState: map<string, TransEntry>
    const timers: TimerQueue

    ghost predicate Valid()
      reads this, timers, mTSState.Values
    {
      && timers.Valid()
      && (forall k <- mTSState :: KeyOf(mTSState[k].transID) == k)
      && (forall k <- mTSState :: Rested(mTSState[k].Value()))
    }

    ghost function Table(): map<string, Entry>
      reads this, mTSState.Values
    {
      map k | k in mTSState :: mTSState[k].Value()
    }

    constructor ()
      ensures Valid() && fresh(timers) && Table() == map[] && timers.running == map[]
    {
      mTSState := map[];
      timers := new TimerQueue();
    }

    /** state->TS_CHANGE(msg, resp) for the entry at `k`. */
    method Dispatch(k: string, m: Msg) returns (code: TsCode, resp: Option<Msg>)
      requires Valid() && k in mTSState
      modifies timers, mTSState.Values
      ensures Valid()
      ensures Outcome(Table()[k], code, resp) == MsgStep(old(Table())[k], m, old(timers.last) + 1)
      ensures Table() == old(Table())[k := Table()[k]]
      ensures timers.running ==
              Rearm(old(timers.running), old(Table())[k].timer, Table()[k].timer, Para(Table()[k].transID))
    {
      var state := mTSState[k];
      OthersDiffer(k);
      code, resp := state.TsChange(m, timers);
      OneChanged(k);
    }

    lemma OthersDiffer(k: string)
      requires Valid() && k in mTSState
      ensures forall j <- mTSState | j != k :: mTSState[j] != mTSState[k]
    {
    }

    /** The table behind a change of the entry at `k` alone. */
    twostate lemma OneChanged(k: string)
      requires old(Valid()) && timers.Valid() && mTSState == old(mTSState) && k in mTSState
      requires forall j <- mTSState | j != k :: mTSState[j].Value() == old(mTSState[j].Value())
      requires Rested(mTSState[k].Value())
      ensures Valid() && Table() == old(Table())[k := mTSState[k].Value()]
      ensures old(Table())[k] == old(mTSState[k].Value())
    {
    }

    method ProcessTM(fromwire: bool, msg: Option<Msg>) returns (code: TsCode, resp: Option<Msg>)
      requires Valid()
      modifies this, timers, mTSState.Values
      ensures Valid() && fresh(mTSState.Values - old(mTSState.Values))
      ensures msg.None? || msg.value.transId.None? ==>
                (code, resp) == (TscNull, None) && Table() == old(Table()) && timers.running == old(timers.running)
      ensures msg.Some? && msg.value.transId.Some? ==>
                var k := KeyOf(msg.value.transId.value);
                && Taken(Lookup(Table(), k), code, resp)
                   == Take(Lookup(old(Table()), k), fromwire, msg.value, old(timers.last) + 1)
                && Table() == Update(old(Table()), k, Lookup(Table(), k))
                && timers.running == RearmFor(old(timers.running), TimerOf(Lookup(old(Table()), k)), Lookup(Table(), k))
    {
      code, resp := TscNull, None;
      if msg.Some? && msg.value.transId.Some? {
        code, resp := Deliver(KeyOf(msg.value.transId.value), fromwire, msg.value);
      }
    }

    /** The part of processTM for a message that carries an id with the key `k`. */
    method Deliver(k: string, fromwire: bool, m: Msg) returns (code: TsCode, resp: Option<Msg>)
      requires Valid() && m.transId.Some? && KeyOf(m.transId.value) == k
      modifies this, timers, mTSState.Values
      ensures Valid() && fresh(mTSState.Values - old(mTSState.Values))
      ensures Taken(Lookup(Table(), k), code, resp)
              == Take(Lookup(old(Table()), k), fromwire, m, old(timers.last) + 1)
      ensures Table() == Update(old(Table()), k, Lookup(Table(), k))
      ensures timers.running == RearmFor(old(timers.running), TimerOf(Lookup(old(Table()), k)), Lookup(Table(), k))
    {
      if k in mTSState {
        code, resp := Dispatch(k, m);
      } else if m.name == Req {
        code, resp := Begin(k, fromwire, m);
      } else {
        code, resp := TscNull, None;
      }
    }

    /** A request that is the first message of its transaction. */
    method Begin(k: string, fromwire: bool, m: Msg) returns (code: TsCode, resp: Option<Msg>)
      requires Valid() && m.transId.Some? && KeyOf(m.transId.value) == k && k !in mTSState
      modifies this`mTSState, timers, mTSState.Values
      ensures Valid() && fresh(mTSState.Values - old(mTSState.Values)) && k in Table()
      ensures Outcome(Table()[k], code, resp)
              == MsgStep(NewEntry(!fromwire, m.transId.value), m, old(timers.last) + 1)
      ensures Table() == old(Table())[k := Table()[k]]
      ensures timers.running == Rearm(old(timers.running), 0, Table()[k].timer, Para(Table()[k].transID))
    {
      ghost var before := Table();
      Push(k, m.transId.value, !fromwire);
      code, resp := Dispatch(k, m);
      UpdateTwice(before, k, NewEntry(!fromwire, m.transId.value), Table()[k]);
    }

    lemma UpdateTwice(table: map<string, Entry>, k: string, e: Entry, f: Entry)
      ensures table[k := e][k := f] == table[k := f] && table[k := e][k] == e && table[k := f][k] == f
    {
    }

    /** mTSState.push(transid, new TTransState(...)). */
    method Push(k: string, id: TransId, tssend: bool)
      requires Valid() && k == KeyOf(id) && k !in mTSState
      modifies this`mTSState
      ensures Valid() && k in mTSState && fresh(mTSState.Values - old(mTSState.Values))
      ensures Table() == old(Table())[k := NewEntry(tssend, id)]
    {
      var state := new TransEntry(tssend, id);
      mTSState := mTSState[k := state];
      assert Table() == old(Table())[k := state.Value()];
    }

    /** An expired timer. nTransfer takes the length of its parameter, so that must not be NULL. */
    method ProcessExpired(tk: nat, para: Option<string>) returns (code: TsCode, resend: Option<Msg>)
      requires Valid() && tk <= timers.last && tk !in timers.running && para.Some?
      modifies timers, mTSState.Values
      ensures Valid()
      ensures var k := CText(para.value);
              && Taken(Lookup(Table(), k), code, resend) == Expire(Lookup(old(Table()), k), tk, old(timers.last) + 1)
              && Table() == Update(old(Table()), k, Lookup(Table(), k))
              && timers.running == RearmFor(old(timers.running), TimerOf(Lookup(old(Table()), k)), Lookup(Table(), k))
    {
      var k := CText(para.value);
      code, resend := TscNull, None;
      if tk > 0 && k in mTSState {
        code, resend := Fire(tk, k);
      }
    }

    /** state->TS_CHANGE(tk, resend) for the entry at `k`. */
    method Fire(tk: nat, k: string) returns (code: TsCode, resend: Option<Msg>)
      requires Valid() && tk <= timers.last && tk !in timers.running && k in mTSState
      modifies timers, mTSState.Values
      ensures Valid()
      ensures Outcome(Table()[k], code, resend) == TimerStep(old(Table())[k], tk, old(timers.last) + 1)
      ensures Table() == old(Table())[k := Table()[k]]
      ensures timers.running ==
              Rearm(old(timers.running), old(Table())[k].timer, Table()[k].timer, Para(Table()[k].transID))
    {
      var state := mTSState[k];
      OthersDiffer(k);
      code, resend := state.TimerChange(tk, timers);
      OneChanged(k);
    }
  }
}
