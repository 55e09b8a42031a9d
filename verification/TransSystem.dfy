/**
 Two transaction machines, their applications and a network that loses, duplicates and
 reorders messages. A run is any sequence of actions on any transactions; the theorems
 at the end hold of every transaction in every run.

 The state is kept per transaction id as the table compares it: `processTM` looks up and changes only
 the entry of the message's own id (`TransMachine.ProcessTM`), and every message in flight carries it.
 */
module TransSystem {
  import opened Wrappers
  import opened TransState

  /** What the two applications have seen and said about one transaction. */
  datatype History = History(asked: Option<Msg>, delivered: seq<Msg>, answers: seq<Msg>, received: seq<Msg>)

  datatype Tx = Tx(client: Option<Entry>, clientTimers: set<nat>,
                   server: Option<Entry>, serverTimers: set<nat>,
                   toServer: set<Msg>, toClient: set<Msg>, history: History)

  const IDLE := Tx(None, {}, None, {}, {}, {}, History(None, [], [], []))

  /** `key` is the value setResendTimer returns if the step arms a timer; `keep` leaves a duplicate in flight. */
  datatype Action =
    | Ask(m: Msg, key: nat)
    | Answer(m: Msg, key: nat)
    | ToServer(m: Msg, keep: bool, key: nat)
    | ToClient(m: Msg, keep: bool, key: nat)
    | ClientTimer(fired: nat, key: nat)
    | ServerTimer(fired: nat, key: nat)
    | LoseToServer(m: Msg)
    | LoseToClient(m: Msg)

  predicate About(m: Msg, id: string) { m.transId.Some? && KeyOf(m.transId.value) == id }

  predicate FreshKey(timers: set<nat>, key: nat) { key != 0 && key !in timers }

  /** The parameter that a running timer of this entry carries. */
  function ParaOf(entry: Option<Entry>): Option<string> {
    if entry.Some? then Para(entry.value.transID) else None
  }

  /**
   The requesting application only asks and the answering one only answers; all else is up to the network.
   A timer expires with a parameter that is not NULL: processTM takes its length.
   */
  predicate Enabled(t: Tx, id: string, a: Action) {
    match a
    case Ask(m, key) => m.name == Req && About(m, id) && FreshKey(t.clientTimers, key)
    case Answer(m, key) => m.name == Rsp && About(m, id) && FreshKey(t.serverTimers, key)
    case ToServer(m, _, key) => m in t.toServer && About(m, id) && FreshKey(t.serverTimers, key)
    case ToClient(m, _, key) => m in t.toClient && About(m, id) && FreshKey(t.clientTimers, key)
    case ClientTimer(fired, key) => fired in t.clientTimers && FreshKey(t.clientTimers, key) && ParaOf(t.client).Some?
    case ServerTimer(fired, key) => fired in t.serverTimers && FreshKey(t.serverTimers, key) && ParaOf(t.server).Some?
    case LoseToServer(m) => true
    case LoseToClient(m) => true
  }

  function Sent(o: Option<Msg>): set<Msg> {
    if o.Some? then {o.value} else {}
  }

  function RearmKey(timers: set<nat>, before: nat, after: nat): set<nat> {
    if before == after then timers else timers - {before} + (if after == 0 then {} else {after})
  }

  /** What the caller of processTM puts on the wire: transstate.h:63-69 ties `resp` to the return code. */
  function Reply(o: Taken): set<Msg> {
    if o.code in {TscForward, TscRefuse, TscResend} then Sent(o.resp) else {}
  }

  function ClientAfter(t: Tx, o: Taken): Tx {
    t.(client := o.entry, clientTimers := RearmKey(t.clientTimers, TimerOf(t.client), TimerOf(o.entry)),
       toServer := t.toServer + Reply(o))
  }

  function ServerAfter(t: Tx, o: Taken): Tx {
    t.(server := o.entry, serverTimers := RearmKey(t.serverTimers, TimerOf(t.server), TimerOf(o.entry)),
       toClient := t.toClient + Reply(o))
  }

  /** The effect of each return code is the one transstate.h:57-69 prescribes to the caller of processTM. */
  function Apply(t: Tx, id: string, a: Action): Tx
    requires Enabled(t, id, a)
  {
    var h := t.history;
    match a
    case Ask(m, key) =>
      var o := Take(t.client, false, m, key);
      var t1 := ClientAfter(t, o);
      if o.code != TscForward then t1
      else t1.(toServer := t1.toServer + {m}, history := h.(asked := Some(m)))
    case Answer(m, key) =>
      var o := Take(t.server, false, m, key);
      var t1 := ServerAfter(t, o);
      var t2 := if o.code != TscForward then t1 else t1.(toClient := t1.toClient + {m});
      if h.delivered == [] then t2 else t2.(history := h.(answers := h.answers + [m]))
    case ToServer(m, keep, key) =>
      var o := Take(t.server, true, m, key);
      var t1 := ServerAfter(t.(toServer := if keep then t.toServer else t.toServer - {m}), o);
      if o.code != TscForward then t1 else t1.(history := h.(delivered := h.delivered + [m]))
    case ToClient(m, keep, key) =>
      var o := Take(t.client, true, m, key);
      var t1 := ClientAfter(t.(toClient := if keep then t.toClient else t.toClient - {m}), o);
      if o.code != TscForward then t1 else t1.(history := h.(received := h.received + [m]))
    case ClientTimer(fired, key) =>
      ClientAfter(t.(clientTimers := t.clientTimers - {fired}), Expire(t.client, fired, key))
    case ServerTimer(fired, key) =>
      ServerAfter(t.(serverTimers := t.serverTimers - {fired}), Expire(t.server, fired, key))
    case LoseToServer(m) => t.(toServer := t.toServer - {m})
    case LoseToClient(m) => t.(toClient := t.toClient - {m})
  }

  // ----- all transactions together -----

  type World = map<string, Tx>

  function At(w: World, id: string): Tx { if id in w then w[id] else IDLE }

  datatype Event = Event(id: string, action: Action)

  predicate Possible(w: World, run: seq<Event>)
    decreases |run|
  {
    run == [] ||
    (Enabled(At(w, run[0].id), run[0].id, run[0].action) && Possible(Next(w, run[0]), run[1..]))
  }

  function Next(w: World, e: Event): World
    requires Enabled(At(w, e.id), e.id, e.action)
  {
    w[e.id := Apply(At(w, e.id), e.id, e.action)]
  }

  function Run(w: World, run: seq<Event>): World
    requires Possible(w, run)
    decreases |run|
  {
    if run == [] then w else Run(Next(w, run[0]), run[1..])
  }

  // ----- the invariant of one transaction -----

  predicate TimerIs(timers: set<nat>, timer: nat) {
    timers == if timer == 0 then {} else {timer}
  }

  predicate ClientInv(c: Entry, q: Msg) {
    && c.tssend
    && c.tsstate != Init
    && q.name == Req
    && c.needrsp == GetComMsgPri(q)
    && Some(c.transID) == q.transId && c.cseq == CSeqOf(q, 0)
    && (c.tsstate == Forward ==> c.timer != 0 && c.msg == Some(q))
    && (c.tsstate != Forward ==> c.timer == 0 && c.msg == None)
    && (c.tsstate == Temporary ==> c.needrsp != 0)
  }

  predicate ServerInv(s: Entry, q: Msg, h: History) {
    && !s.tssend
    && s.tsstate != Init
    && s.needrsp == GetComMsgPri(q)
    && Some(s.transID) == q.transId && s.cseq == CSeqOf(q, 0)
    && h.delivered == [q]
    && (s.tsstate == Forward || s.tsstate == Temporary ==>
          s.needrsp != 0 && s.timer == 0 && s.msg == None && h.answers == [])
    && (s.tsstate == Terminated && s.needrsp != 0 ==> h.answers != [] && s.msg == Some(h.answers[0]))
    && (s.needrsp == 0 ==> s.timer == 0 && s.msg == None)
  }

  predicate ServerPast(t: Tx) { t.server.Some? && t.server.value.tsstate in {Temporary, Terminated} }

  /** What may be in flight, given where the machines stand. */
  predicate WireInv(t: Tx, c: Entry, q: Msg) {
    && (forall m <- t.toServer :: m == q || (m.name == Tmp && c.tsstate == Terminated))
    && (forall m <- t.toClient ::
          && t.server.Some?
          && (m.name == Rsp ==> GetComMsgPri(q) != 0 && t.history.answers != [] && m == t.history.answers[0])
          && (m.name == Tmp ==> ServerPast(t))
          && m.name != Req)
  }

  /** A provisional ack in flight or received means the server's answer is still guarded by its timer. */
  predicate AckGuard(t: Tx, c: Entry) {
    && (c.tsstate == Temporary || c.tsstate == Terminated ==> ServerPast(t))
    && (t.server.Some? && t.server.value.needrsp != 0 && t.server.value.tsstate == Terminated && t.server.value.timer == 0 ==>
          c.tsstate == Terminated || (c.tsstate == Forward && forall m <- t.toClient :: m.name == Rsp))
  }

  predicate EndInv(c: Entry, h: History) {
    && (h.received != [] ==>
          c.tsstate == Terminated && c.needrsp != 0 && h.answers != [] && h.received == [h.answers[0]])
    && (c.tsstate == Terminated && c.needrsp != 0 ==> h.received != [])
  }

  predicate Inv(t: Tx, id: string) {
    var h := t.history;
    && TimerIs(t.clientTimers, TimerOf(t.client))
    && TimerIs(t.serverTimers, TimerOf(t.server))
    && (forall m <- t.toServer + t.toClient :: About(m, id))
    && (h.answers != [] ==> h.answers[0].name == Rsp && About(h.answers[0], id))
    && if t.client.None? then t == IDLE
       else
         && h.asked.Some? && About(h.asked.value, id)
         && ClientInv(t.client.value, h.asked.value)
         && WireInv(t, t.client.value, h.asked.value)
         && AckGuard(t, t.client.value)
         && EndInv(t.client.value, h)
         && (t.server.Some? ==> ServerInv(t.server.value, h.asked.value, h))
         && (t.server.None? ==> h.delivered == [] && h.answers == [])
  }

  lemma AskKeeps(t: Tx, id: string, a: Action)
    requires a.Ask? && Enabled(t, id, a) && Inv(t, id)
    ensures Inv(Apply(t, id, a), id)
  {
  }

  lemma AnswerKeeps(t: Tx, id: string, a: Action)
    requires a.Answer? && Enabled(t, id, a) && Inv(t, id)
    ensures Inv(Apply(t, id, a), id)
  {
  }

  lemma FirstDeliveryKeeps(t: Tx, id: string, a: Action)
    requires a.ToServer? && Enabled(t, id, a) && Inv(t, id) && t.server.None?
    ensures Inv(Apply(t, id, a), id)
  {
  }

  lemma LaterDeliveryKeeps(t: Tx, id: string, a: Action)
    requires a.ToServer? && Enabled(t, id, a) && Inv(t, id) && t.server.Some?
    ensures Inv(Apply(t, id, a), id)
  {
    assert a.m == t.history.asked.value || a.m.name == Tmp;
  }

  lemma FinalDeliveryKeeps(t: Tx, id: string, a: Action)
    requires a.ToClient? && a.m.name == Rsp && Enabled(t, id, a) && Inv(t, id)
    ensures Inv(Apply(t, id, a), id)
  {
  }

  lemma AckDeliveryKeeps(t: Tx, id: string, a: Action)
    requires a.ToClient? && a.m.name == Tmp && Enabled(t, id, a) && Inv(t, id)
    ensures Inv(Apply(t, id, a), id)
  {
  }

  lemma TimerKeeps(t: Tx, id: string, a: Action)
    requires (a.ClientTimer? || a.ServerTimer?) && Enabled(t, id, a) && Inv(t, id)
    ensures Inv(Apply(t, id, a), id)
  {
  }

  lemma LosingKeeps(t: Tx, id: string, a: Action)
    requires (a.LoseToServer? || a.LoseToClient?) && Inv(t, id)
    ensures Inv(Apply(t, id, a), id)
  {
  }

  lemma StepKeeps(t: Tx, id: string, a: Action)
    requires Enabled(t, id, a) && Inv(t, id)
    ensures Inv(Apply(t, id, a), id)
  {
    match a
    case Ask(_, _) => AskKeeps(t, id, a);
    case Answer(_, _) => AnswerKeeps(t, id, a);
    case ToServer(_, _, _) =>
      if t.server.None? {
        FirstDeliveryKeeps(t, id, a);
      } else {
        LaterDeliveryKeeps(t, id, a);
      }
    case ToClient(m, _, _) =>
      if m.name == Rsp {
        FinalDeliveryKeeps(t, id, a);
      } else {
        AckDeliveryKeeps(t, id, a);
      }
    case ClientTimer(_, _) => TimerKeeps(t, id, a);
    case ServerTimer(_, _) => TimerKeeps(t, id, a);
    case LoseToServer(_) => LosingKeeps(t, id, a);
    case LoseToClient(_) => LosingKeeps(t, id, a);
  }

  lemma {:induction false} RunKeeps(w: World, run: seq<Event>, id: string)
    requires Possible(w, run) && Inv(At(w, id), id)
    ensures Inv(At(Run(w, run), id), id)
    decreases |run|
  {
    if run != [] {
      if run[0].id == id {
        StepKeeps(At(w, id), id, run[0].action);
      }
      RunKeeps(Next(w, run[0]), run[1..], id);
    }
  }

  // ----- theorems over every run -----

  predicate Unfinished(t: Tx) {
    t.client.Some? && t.client.value.needrsp != 0 && t.client.value.tsstate != Terminated
  }

  /**
   No stuck transaction: a client that still waits for its final response either resends on its own
   timer, or faces a server that waits for its application or resends the stored answer on a timer.
   */
  lemma NoStuckTransaction(run: seq<Event>, id: string)
    requires Possible(map[], run)
    ensures var t := At(Run(map[], run), id);
            Unfinished(t) ==>
              var c := t.client.value;
              || (c.tsstate == Forward && c.timer in t.clientTimers && c.msg == t.history.asked && c.msg.Some?)
              || (c.tsstate == Temporary && t.server.Some? &&
                  var s := t.server.value;
                  || (s.tsstate == Temporary && |t.history.delivered| == 1 && t.history.answers == [])
                  || (s.tsstate == Terminated && s.timer in t.serverTimers
                      && t.history.answers != [] && s.msg == Some(t.history.answers[0])))
  {
    RunKeeps(map[], run, id);
  }

  /**
   End-to-end agreement: one delivery of the asked request, one accepted answer, and at most one final
   response handed up, which is the first answer the server application gave.
   */
  lemma EndToEndAgreement(run: seq<Event>, id: string)
    requires Possible(map[], run)
    ensures var t := At(Run(map[], run), id); var h := t.history;
            && (h.delivered == [] || (h.asked.Some? && h.delivered == [h.asked.value]))
            && (h.answers != [] ==> h.delivered != [])
            && (forall m <- t.toClient | m.name == Rsp :: h.answers != [] && m == h.answers[0])
            && (h.received == [] || (h.answers != [] && h.received == [h.answers[0]]))
            && (t.client.Some? && t.client.value.needrsp != 0 ==>
                  (t.client.value.tsstate == Terminated <==> |h.received| == 1))
  {
    RunKeeps(map[], run, id);
  }

  /** Every running timer is the one its entry waits for, and its expiry resends a stored message. */
  lemma ResendCarriesStored(run: seq<Event>, id: string, fired: nat, key: nat)
    requires Possible(map[], run) && key != 0
    ensures var t := At(Run(map[], run), id); var h := t.history;
            && (fired in t.clientTimers ==>
                  var o := Expire(t.client, fired, key); o.code == TscResend && h.asked.Some? && o.resp == h.asked)
            && (fired in t.serverTimers ==>
                  var o := Expire(t.server, fired, key);
                  o.code == TscResend && h.answers != [] && o.resp == Some(h.answers[0]))
  {
    RunKeeps(map[], run, id);
  }

  // ----- every unfinished transaction can still finish -----

  function Final(q: Msg): Msg { Msg(Rsp, 0, 0, 0, q.transId, None, None, "") }

  /** Steps of one transaction taken in order, if each is enabled in turn. */
  predicate PossibleAt(t: Tx, id: string, acts: seq<Action>)
    decreases |acts|
  {
    acts == [] || (Enabled(t, id, acts[0]) && PossibleAt(Apply(t, id, acts[0]), id, acts[1..]))
  }

  function RunAt(t: Tx, id: string, acts: seq<Action>): Tx
    requires PossibleAt(t, id, acts)
    decreases |acts|
  {
    if acts == [] then t else RunAt(Apply(t, id, acts[0]), id, acts[1..])
  }

  predicate Finishes(t: Tx, id: string, acts: seq<Action>) {
    && PossibleAt(t, id, acts)
    && RunAt(t, id, acts).client.Some?
    && RunAt(t, id, acts).client.value.tsstate == Terminated
    && |RunAt(t, id, acts).history.received| == 1
  }

  function OtherKey(timers: set<nat>, timer: nat): (key: nat)
    requires TimerIs(timers, timer)
    ensures FreshKey(timers, key)
  {
    timer + 1
  }

  lemma FinishesLater(t: Tx, id: string, a: Action, rest: seq<Action>)
    requires Enabled(t, id, a) && Finishes(Apply(t, id, a), id, rest)
    ensures Finishes(t, id, [a] + rest)
  {
    assert ([a] + rest)[1..] == rest;
  }

  /** The answer is in flight: delivering it ends the transaction. */
  lemma FinishByDelivery(t: Tx, id: string) returns (acts: seq<Action>)
    requires Inv(t, id) && Unfinished(t)
    requires t.history.answers != [] && t.history.answers[0] in t.toClient
    ensures |acts| <= 1 && Finishes(t, id, acts)
  {
    var a := ToClient(t.history.answers[0], false, OtherKey(t.clientTimers, TimerOf(t.client)));
    StepKeeps(t, id, a);
    assert Finishes(Apply(t, id, a), id, []);
    FinishesLater(t, id, a, []);
    acts := [a] + [];
  }

  /** The server still waits for its application: an answer goes on the wire. */
  lemma FinishByAnswer(t: Tx, id: string) returns (acts: seq<Action>)
    requires Inv(t, id) && Unfinished(t)
    requires t.server.Some? && t.server.value.tsstate != Terminated
    ensures |acts| <= 2 && Finishes(t, id, acts)
  {
    var a := Answer(Final(t.history.asked.value), OtherKey(t.serverTimers, TimerOf(t.server)));
    StepKeeps(t, id, a);
    var rest := FinishByDelivery(Apply(t, id, a), id);
    FinishesLater(t, id, a, rest);
    acts := [a] + rest;
  }

  /** The request is in flight: delivering it makes the server answer, acknowledge or repeat its answer. */
  lemma FinishByRequest(t: Tx, id: string) returns (acts: seq<Action>)
    requires Inv(t, id) && Unfinished(t)
    requires t.client.value.tsstate == Forward && t.history.asked.value in t.toServer
    ensures |acts| <= 3 && Finishes(t, id, acts)
  {
    var a := ToServer(t.history.asked.value, false, OtherKey(t.serverTimers, TimerOf(t.server)));
    StepKeeps(t, id, a);
    var t1 := Apply(t, id, a);
    var rest;
    if t1.server.value.tsstate == Terminated {
      rest := FinishByDelivery(t1, id);
    } else {
      rest := FinishByAnswer(t1, id);
    }
    FinishesLater(t, id, a, rest);
    acts := [a] + rest;
  }

  /** The request's id is not empty. */
  predicate Named(t: Tx) {
    && t.history.asked.Some? && t.history.asked.value.transId.Some?
    && t.history.asked.value.transId.value.text != ""
  }

  /**
   However the run went, and whatever the network lost on the way, at most four further steps end an
   unfinished transaction: some timer or application brings back what is missing.
   */
  lemma CanAlwaysFinish(run: seq<Event>, id: string) returns (acts: seq<Action>)
    requires Possible(map[], run) && Unfinished(At(Run(map[], run), id))
    requires Named(At(Run(map[], run), id))
    ensures |acts| <= 4 && Finishes(At(Run(map[], run), id), id, acts)
  {
    var t := At(Run(map[], run), id);
    RunKeeps(map[], run, id);
    var a;
    var rest;
    if t.client.value.tsstate == Forward {
      a := ClientTimer(t.client.value.timer, OtherKey(t.clientTimers, TimerOf(t.client)));
      StepKeeps(t, id, a);
      rest := FinishByRequest(Apply(t, id, a), id);
    } else if t.server.value.tsstate == Temporary {
      acts := FinishByAnswer(t, id);
      return;
    } else {
      a := ServerTimer(t.server.value.timer, OtherKey(t.serverTimers, TimerOf(t.server)));
      StepKeeps(t, id, a);
      rest := FinishByDelivery(Apply(t, id, a), id);
    }
    FinishesLater(t, id, a, rest);
    acts := [a] + rest;
  }

  // ----- every transaction can come to rest -----

  /** Both sides are through, and no timer runs. */
  predicate Quiet(t: Tx) {
    && t.client.Some? && t.client.value.tsstate == Terminated && t.clientTimers == {}
    && t.server.Some? && t.server.value.tsstate == Terminated && t.serverTimers == {}
  }

  predicate Quietens(t: Tx, id: string, acts: seq<Action>) {
    PossibleAt(t, id, acts) && Quiet(RunAt(t, id, acts))
  }

  lemma QuietensLater(t: Tx, id: string, a: Action, rest: seq<Action>)
    requires Enabled(t, id, a) && Quietens(Apply(t, id, a), id, rest)
    ensures Quietens(t, id, [a] + rest)
  {
    assert ([a] + rest)[1..] == rest;
  }

  function DeliverToServer(t: Tx, m: Msg): Action
    requires TimerIs(t.serverTimers, TimerOf(t.server))
  {
    ToServer(m, false, OtherKey(t.serverTimers, TimerOf(t.server)))
  }

  function DeliverToClient(t: Tx, m: Msg): Action
    requires TimerIs(t.clientTimers, TimerOf(t.client))
  {
    ToClient(m, false, OtherKey(t.clientTimers, TimerOf(t.client)))
  }

  /** A repeated request is answered: acknowledged while the answer is due, then with the stored answer. */
  lemma RepeatIsAnswered(t: Tx, id: string)
    requires Inv(t, id) && t.client.Some? && t.server.Some? && t.history.asked.value in t.toServer
    ensures var q := t.history.asked.value; var t1 := Apply(t, id, DeliverToServer(t, q));
            && t1.history.delivered == t.history.delivered
            && (if t.server.value.tsstate == Terminated && t.client.value.needrsp != 0
                then t.history.answers != [] && t1.toClient == t.toClient + {t.history.answers[0]}
                else t1.toClient == t.toClient + {Ack(q)})
  {
  }

  /** An acknowledgement ends the client's resending. */
  lemma AckSilencesClient(t: Tx, id: string, m: Msg)
    requires Inv(t, id) && t.client.Some? && m in t.toClient && m.name == Tmp
    ensures var t1 := Apply(t, id, DeliverToClient(t, m));
            t1.clientTimers == {} && t1.history.received == t.history.received && t1.client.value.tsstate != Forward
  {
    StepKeeps(t, id, DeliverToClient(t, m));
  }

  /** Asking again neither sends nor starts anything. */
  lemma AskedOnce(t: Tx, id: string, m: Msg, key: nat)
    requires Inv(t, id) && t.client.Some? && Enabled(t, id, Ask(m, key))
    ensures var t1 := Apply(t, id, Ask(m, key));
            t1.toServer == t.toServer && t1.clientTimers == t.clientTimers && t1.history == t.history
            && t1.client.value.tsstate == t.client.value.tsstate
  {
  }

  /** The client's acknowledgement ends the server's resending for good. */
  lemma AckSilencesServer(t: Tx, id: string, m: Msg)
    requires Inv(t, id) && t.server.Some? && t.server.value.tsstate == Terminated
    requires m in t.toServer && m.name == Tmp
    ensures var t1 := Apply(t, id, DeliverToServer(t, m));
            Inv(t1, id) && t1.serverTimers == {} && t1.server.value.tsstate == Terminated && t1.client == t.client
  {
    StepKeeps(t, id, DeliverToServer(t, m));
  }

  /** A final response that reaches a client past FORWARD is acknowledged, be it the first or a repeated one. */
  lemma FinalIsAcked(t: Tx, id: string, m: Msg)
    requires Inv(t, id) && t.client.Some? && t.client.value.tsstate in {Temporary, Terminated}
    requires m in t.toClient && m.name == Rsp
    ensures var t1 := Apply(t, id, DeliverToClient(t, m));
            Inv(t1, id) && Ack(m) in t1.toServer && t1.client.value.tsstate == Terminated
            && t1.clientTimers == {} && t1.server == t.server && t1.serverTimers == t.serverTimers
  {
    StepKeeps(t, id, DeliverToClient(t, m));
  }

  /** One that finds the client in FORWARD ends the transaction without a word: the server had no timer to stop, or will resend. */
  lemma FinalInForward(t: Tx, id: string, m: Msg)
    requires Inv(t, id) && t.client.Some? && t.client.value.tsstate == Forward
    requires m in t.toClient && m.name == Rsp
    ensures var t1 := Apply(t, id, DeliverToClient(t, m));
            Inv(t1, id) && t1.toServer == t.toServer && t1.client.value.tsstate == Terminated && t1.clientTimers == {}
  {
    StepKeeps(t, id, DeliverToClient(t, m));
  }

  lemma SilentByAck(t: Tx, id: string, m: Msg) returns (acts: seq<Action>)
    requires Inv(t, id) && t.client.Some? && t.client.value.tsstate in {Temporary, Terminated}
    requires t.server.Some? && t.server.value.tsstate == Terminated && m in t.toClient && m.name == Rsp
    ensures |acts| <= 2 && Quietens(t, id, acts)
  {
    var a := DeliverToClient(t, m);
    FinalIsAcked(t, id, m);
    var t1 := Apply(t, id, a);
    var b := DeliverToServer(t1, Ack(m));
    AckSilencesServer(t1, id, Ack(m));
    assert Quietens(Apply(t1, id, b), id, []);
    QuietensLater(t1, id, b, []);
    QuietensLater(t, id, a, [b] + []);
    acts := [a] + ([b] + []);
  }

  /** The server's timer brings the response back, and its acknowledgement stops the timer. */
  lemma SilentByTimer(t: Tx, id: string) returns (acts: seq<Action>)
    requires Inv(t, id) && Named(t) && t.client.Some? && t.client.value.tsstate in {Temporary, Terminated}
    requires t.server.Some? && t.server.value.tsstate == Terminated && t.serverTimers != {}
    ensures |acts| <= 3 && Quietens(t, id, acts)
  {
    var a := ServerTimer(t.server.value.timer, OtherKey(t.serverTimers, TimerOf(t.server)));
    StepKeeps(t, id, a);
    var rest := SilentByAck(Apply(t, id, a), id, t.history.answers[0]);
    QuietensLater(t, id, a, rest);
    acts := [a] + rest;
  }

  /** A client that was acknowledged: it may still lack its response, which is then acknowledged at once. */
  lemma QuietFromAcked(t: Tx, id: string) returns (acts: seq<Action>)
    requires Inv(t, id) && Named(t) && t.client.Some? && t.client.value.tsstate in {Temporary, Terminated}
    ensures |acts| <= 3 && Quietens(t, id, acts)
  {
    if t.server.value.tsstate == Temporary {
      var a := Answer(Final(t.history.asked.value), OtherKey(t.serverTimers, TimerOf(t.server)));
      StepKeeps(t, id, a);
      var rest := SilentByAck(Apply(t, id, a), id, Final(t.history.asked.value));
      QuietensLater(t, id, a, rest);
      acts := [a] + rest;
    } else if t.serverTimers != {} {
      acts := SilentByTimer(t, id);
    } else {
      acts := [];
    }
  }

  /** A final response ends a waiting client, whose server may still resend. */
  lemma QuietByResponse(t: Tx, id: string) returns (acts: seq<Action>)
    requires Inv(t, id) && Named(t) && t.client.Some? && t.client.value.tsstate == Forward
    requires t.history.answers != [] && t.history.answers[0] in t.toClient
    ensures |acts| <= 4 && Quietens(t, id, acts)
  {
    var a := DeliverToClient(t, t.history.answers[0]);
    StepKeeps(t, id, a);
    var rest := QuietFromAcked(Apply(t, id, a), id);
    QuietensLater(t, id, a, rest);
    acts := [a] + rest;
  }

  /** No response is wanted: the acknowledgement alone ends the client. */
  lemma QuietByAck(t: Tx, id: string, m: Msg) returns (acts: seq<Action>)
    requires Inv(t, id) && t.client.Some? && t.client.value.tsstate == Forward && t.client.value.needrsp == 0
    requires m in t.toClient
    ensures |acts| <= 1 && Quietens(t, id, acts)
  {
    var a := DeliverToClient(t, m);
    StepKeeps(t, id, a);
    assert Quietens(Apply(t, id, a), id, []);
    QuietensLater(t, id, a, []);
    acts := [a] + [];
  }

  /** The client's timer brings the request to the server. */
  lemma AskAgain(t: Tx, id: string) returns (a: Action, b: Action)
    requires Inv(t, id) && Named(t) && t.client.Some? && t.client.value.tsstate == Forward
    ensures Enabled(t, id, a) && Enabled(Apply(t, id, a), id, b)
    ensures var t2 := Apply(Apply(t, id, a), id, b);
            && Inv(t2, id) && Named(t2) && t2.client.Some? && t2.client.value.tsstate == Forward
            && t2.client.value.needrsp == t.client.value.needrsp && t2.server.Some?
            && (t.server.None? && t.client.value.needrsp != 0 ==> t2.server.value.tsstate == Forward)
            && (t.client.value.needrsp == 0 ==> t2.toClient != {})
            && (t.server.Some? && t.server.value.tsstate == Terminated && t.client.value.needrsp != 0 ==>
                  t2.history.answers != [] && t2.history.answers[0] in t2.toClient && t2.serverTimers == t.serverTimers)
  {
    a := ClientTimer(t.client.value.timer, OtherKey(t.clientTimers, TimerOf(t.client)));
    StepKeeps(t, id, a);
    var t1 := Apply(t, id, a);
    b := DeliverToServer(t1, t.history.asked.value);
    StepKeeps(t1, id, b);
    var t2 := Apply(t1, id, b);
    if t.client.value.needrsp == 0 {
      assert Ack(t.history.asked.value) in t2.toClient;
    }
  }

  /** The server's application answers. */
  lemma QuietByAnswer(t: Tx, id: string) returns (acts: seq<Action>)
    requires Inv(t, id) && Named(t) && t.client.Some? && t.client.value.tsstate == Forward
    requires t.server.Some? && t.server.value.tsstate in {Forward, Temporary}
    ensures |acts| <= 5 && Quietens(t, id, acts)
    ensures t.server.value.tsstate == Forward ==> |acts| <= 2
  {
    var a := Answer(Final(t.history.asked.value), OtherKey(t.serverTimers, TimerOf(t.server)));
    StepKeeps(t, id, a);
    var t1 := Apply(t, id, a);
    var rest;
    if t.server.value.tsstate == Forward {
      var b := DeliverToClient(t1, t1.history.answers[0]);
      StepKeeps(t1, id, b);
      assert Quietens(Apply(t1, id, b), id, []);
      QuietensLater(t1, id, b, []);
      rest := [b] + [];
    } else {
      rest := QuietByResponse(t1, id);
    }
    QuietensLater(t, id, a, rest);
    acts := [a] + rest;
  }

  lemma QuietFromForward(t: Tx, id: string) returns (acts: seq<Action>)
    requires Inv(t, id) && Named(t) && t.client.Some? && t.client.value.tsstate == Forward
    ensures |acts| <= 6 && Quietens(t, id, acts)
  {
    if t.server.Some? && t.server.value.tsstate in {Forward, Temporary} {
      acts := QuietByAnswer(t, id);
      return;
    }
    var a, b := AskAgain(t, id);
    var t1 := Apply(t, id, a);
    var t2 := Apply(t1, id, b);
    var rest;
    if t.client.value.needrsp == 0 {
      var m :| m in t2.toClient;
      rest := QuietByAck(t2, id, m);
    } else if t.server.None? {
      rest := QuietByAnswer(t2, id);
    } else {
      rest := QuietByResponse(t2, id);
    }
    QuietensLater(t1, id, b, rest);
    QuietensLater(t, id, a, [b] + rest);
    acts := [a] + ([b] + rest);
  }

  /**
   Resending ends: from every reachable state of an asked transaction whose id is not empty, whether it
   wants a response or not, a few further steps bring both sides to TERMINATED with no timer running.
   Three are enough once the client was acknowledged.
   */
  lemma CanAlwaysComeToRest(run: seq<Event>, id: string) returns (acts: seq<Action>)
    requires Possible(map[], run) && Named(At(Run(map[], run), id))
    ensures var t := At(Run(map[], run), id);
            && |acts| <= 6 && Quietens(t, id, acts)
            && (t.client.Some? && t.client.value.tsstate != Forward ==> |acts| <= 3)
  {
    var t := At(Run(map[], run), id);
    RunKeeps(map[], run, id);
    if t.client.value.tsstate == Forward {
      acts := QuietFromForward(t, id);
    } else {
      acts := QuietFromAcked(t, id);
    }
  }

  /** And rest is lasting: no step starts a timer again. */
  lemma RestLasts(t: Tx, id: string, a: Action)
    requires Inv(t, id) && Quiet(t) && Enabled(t, id, a)
    ensures Quiet(Apply(t, id, a))
  {
    StepKeeps(t, id, a);
  }

  // ----- the empty transaction id -----

  /**
   A running timer expires with a parameter that is not NULL exactly if the request's id is not empty:
   transID.str() gives NULL for an empty id, and the expiry passes it to strlen.
   */
  lemma ExpiryDefinedIff(run: seq<Event>, id: string, fired: nat)
    requires Possible(map[], run)
    ensures var t := At(Run(map[], run), id);
            fired in t.clientTimers || fired in t.serverTimers ==>
              && t.history.asked.Some? && t.history.asked.value.transId.Some?
              && (var para := ParaOf(if fired in t.clientTimers then t.client else t.server);
                  para.Some? <==> t.history.asked.value.transId.value.text != "")
  {
    RunKeeps(map[], run, id);
  }

  /** Waiting on a timer whose parameter is NULL, with nothing in flight and no server entry. */
  predicate OnlyExpiryLeft(t: Tx) {
    && t.client.Some? && t.client.value.tssend && t.client.value.tsstate == Forward
    && t.client.value.timer in t.clientTimers && ParaOf(t.client).None?
    && t.server.None? && t.serverTimers == {} && t.toServer == {} && t.toClient == {}
  }

  lemma {:induction false} OnlyExpiryStays(t: Tx, id: string, acts: seq<Action>)
    requires OnlyExpiryLeft(t) && PossibleAt(t, id, acts)
    ensures OnlyExpiryLeft(RunAt(t, id, acts))
    decreases |acts|
  {
    if acts != [] {
      OnlyExpiryStays(Apply(t, id, acts[0]), id, acts[1..]);
    }
  }

  /**
   The input that fails: once a request with the empty id is lost, no step but the expiry of its timer
   can help, and that one takes the length of NULL.
   */
  lemma EmptyIdExpiresWithNull(m: Msg, key: nat, acts: seq<Action>)
    requires m.name == Req && m.transId == Some(TransId("")) && key != 0
    ensures var lost := Apply(Apply(IDLE, "", Ask(m, key)), "", LoseToServer(m));
            OnlyExpiryLeft(lost) && (PossibleAt(lost, "", acts) ==> !Finishes(lost, "", acts))
  {
    var lost := Apply(Apply(IDLE, "", Ask(m, key)), "", LoseToServer(m));
    if PossibleAt(lost, "", acts) {
      OnlyExpiryStays(lost, "", acts);
    }
  }
}
