/**
 The reply side of the NATS RPC client (rpc/base/nats_client.go) as a protocol between
 callers, a timeout path, any number of closers and one receiver goroutine.

 Every section the program runs under `cmutex` is one atomic action; the receiver has an
 explicit program counter, so that any action may fall between two of its steps. What the
 network, the clock and the scheduler decide is an argument of the action.
 */
module NatsClient {
  import opened Wrappers

  type Cid = string
  type ChanId = nat
  type SubId = nat

  /** rpcpb.ResultInfo: the correlation id and an uninterpreted body. */
  datatype Msg = Msg(cid: Cid, body: string)

  /** A callback channel: the call it was registered for, its capacity, all that was ever
      sent on it, how much of that was received, and how often it was closed. */
  datatype Chan = Chan(cid: Cid, cap: nat, sent: seq<Msg>, received: nat, closes: nat)

  datatype Pc =
    | Top                                      // select on done
    | Fetch                                    // copy c.subs under the lock
    | Waiting(sub: SubId)                      // in NextMsg
    | Erred(sub: SubId, timedOut: bool)        // NextMsg failed, before the lock
    | Backoff                                  // the 100 ms select
    | Matching(msg: Msg)                       // before the lock of the table lookup
    | Deliver(cb: ChanId, msg: Msg)            // select: send or done
    | CloseCb(cb: ChanId)                      // before CloseFch
    | FinStop | FinDrain | FinSignal | Exited  // the deferred finish

  datatype State = State(
    isClose: bool,
    doneCloses: nat,                    // how often `done` was closed
    stoppedCloses: nat,                 // how often `stopped` was closed
    subs: SubId,
    valid: set<SubId>,                  // subscriptions the connection still serves
    nextSub: SubId,
    callinfos: map<Cid, Option<ChanId>>, // None is a nil callback
    chans: map<ChanId, Chan>,           // callbacks of accepted calls
    used: set<Cid>,                     // ids of accepted calls
    withdrawn: set<ChanId>,             // callbacks whose entry a caller deleted
    fault: bool,                        // a send on, or a close of, a closed channel happened
    pc: Pc)

  datatype CallOutcome = MarshalFailed | PublishFailed | Published
  datatype Resubscribe = Rebuilt | RebuildTimedOut | RebuildFailed
  datatype Reply = TimedOut | Failed | Garbled | Arrived(msg: Msg)

  datatype ReceiverStep =
    | CheckDone
    | CopySub
    | NextMsg(reply: Reply)
    | HandleError(connClosed: bool, resub: Resubscribe)
    | BackoffEnds(byDone: bool)
    | Lookup
    | Send(handoff: bool)    // handoff: a caller was already waiting on the channel
    | SendAborted            // the done case of the select
    | CloseCallback
    | FinishStop
    | FinishDrain
    | CloseStopped

  datatype Action =
    | Call(cid: Cid, cb: Option<ChanId>, cap: nat, outcome: CallOutcome)
    | CallNR(nr: CallOutcome)
    | Delete(cid: Cid)
    | Stop
    | Receive(ch: ChanId)    // a caller takes a reply from its channel
    | DropSub(sub: SubId)    // the connection invalidates a subscription
    | Recv(step: ReceiverStep)

  predicate Init(s: State) {
    s == State(false, 0, 0, 0, {0}, 1, map[], map[], {}, {}, false, Top)
  }

  /** Ids come from uuid.Rand() and callbacks from make(chan): neither is ever reused. */
  predicate Fresh(s: State, a: Action) {
    a.Call? ==> a.cid !in s.used && (a.cb.Some? ==> a.cb.value !in s.chans)
  }

  predicate StepEnabled(s: State, r: ReceiverStep) {
    match r
    case CheckDone => s.pc.Top?
    case CopySub => s.pc.Fetch?
    case NextMsg(_) => s.pc.Waiting?
    case HandleError(_, _) => s.pc.Erred?
    case BackoffEnds(byDone) => s.pc.Backoff? && (byDone ==> s.doneCloses > 0)
    case Lookup => s.pc.Matching?
    case Send(handoff) =>
      && s.pc.Deliver? && s.pc.cb in s.chans
      && var c := s.chans[s.pc.cb];
         c.closes > 0 || handoff || |c.sent| < c.received + c.cap
    case SendAborted => s.pc.Deliver? && s.doneCloses > 0
    case CloseCallback => s.pc.CloseCb?
    case FinishStop => s.pc.FinStop?
    case FinishDrain => s.pc.FinDrain?
    case CloseStopped => s.pc.FinSignal?
  }

  predicate Enabled(s: State, a: Action) {
    match a
    case Receive(ch) => ch in s.chans && s.chans[ch].received < |s.chans[ch].sent|
    case Recv(r) => StepEnabled(s, r)
    case _ => true
  }

  function CloseChan(s: State, ch: ChanId): State {
    if ch !in s.chans then s else
    var c := s.chans[ch];
    s.(chans := s.chans[ch := c.(closes := c.closes + 1)], fault := s.fault || c.closes > 0)
  }

  /** stop(): publish the closed state, close `done`, cancel the current subscription. */
  function StopEffect(s: State): State {
    if s.isClose then s else
    s.(isClose := true, doneCloses := s.doneCloses + 1, valid := s.valid - {s.subs})
  }

  predicate InTable(s: State, ch: ChanId) {
    ch in s.chans && s.chans[ch].cid in s.callinfos && s.callinfos[s.chans[ch].cid] == Some(ch)
  }

  predicate TableIsClean(s: State) {
    forall c :: c in s.callinfos && s.callinfos[c].Some? ==>
      && s.callinfos[c].value in s.chans
      && s.chans[s.callinfos[c].value].cid == c
      && s.chans[s.callinfos[c].value].closes == 0
  }

  /** The locked loop of finish(): close every callback left in the table and empty it. */
  function DrainEffect(s: State): State {
    s.(chans := map ch | ch in s.chans ::
                  if InTable(s, ch) then s.chans[ch].(closes := s.chans[ch].closes + 1) else s.chans[ch],
       callinfos := map[],
       fault := s.fault || !TableIsClean(s))
  }

  function CallEffect(s: State, cid: Cid, cb: Option<ChanId>, cap: nat, outcome: CallOutcome): State {
    if s.isClose || outcome.MarshalFailed? then s
    else if outcome.PublishFailed? then s.(callinfos := s.callinfos - {cid})
    else s.(callinfos := s.callinfos[cid := cb],
            used := s.used + {cid},
            chans := if cb.Some? then s.chans[cb.value := Chan(cid, cap, [], 0, 0)] else s.chans)
  }

  function DeleteEffect(s: State, cid: Cid): State {
    s.(callinfos := s.callinfos - {cid},
       withdrawn := if cid in s.callinfos && s.callinfos[cid].Some?
                    then s.withdrawn + {s.callinfos[cid].value} else s.withdrawn)
  }

  function LookupEffect(s: State): State
    requires s.pc.Matching?
  {
    var m := s.pc.msg;
    var next := if m.cid in s.callinfos && s.callinfos[m.cid].Some?
                then Deliver(s.callinfos[m.cid].value, m) else Top;
    s.(callinfos := s.callinfos - {m.cid}, pc := next)
  }

  function ErrorEffect(s: State, connClosed: bool, resub: Resubscribe): State
    requires s.pc.Erred?
  {
    if s.isClose || connClosed then s.(pc := FinStop)
    else if s.pc.sub !in s.valid then
      match resub
      case Rebuilt => s.(subs := s.nextSub, valid := s.valid + {s.nextSub}, nextSub := s.nextSub + 1, pc := Top)
      case RebuildTimedOut => s.(pc := Top)
      case RebuildFailed => s.(pc := Backoff)
    else s.(pc := if s.pc.timedOut then Top else Backoff)
  }

  function ApplyStep(s: State, r: ReceiverStep): State
    requires StepEnabled(s, r)
  {
    match r
    case CheckDone => s.(pc := if s.doneCloses > 0 then FinStop else Fetch)
    case CopySub => s.(pc := Waiting(s.subs))
    case NextMsg(reply) =>
      s.(pc := match reply
               case TimedOut => Erred(s.pc.sub, true)
               case Failed => Erred(s.pc.sub, false)
               case Garbled => Top
               case Arrived(m) => Matching(m))
    case HandleError(connClosed, resub) => ErrorEffect(s, connClosed, resub)
    case BackoffEnds(byDone) => s.(pc := if byDone then FinStop else Top)
    case Lookup => LookupEffect(s)
    case Send(handoff) =>
      var c := s.chans[s.pc.cb];
      if c.closes > 0 then s.(fault := true, pc := FinStop)
      else s.(chans := s.chans[s.pc.cb := c.(sent := c.sent + [s.pc.msg],
                                              received := if handoff then c.received + 1 else c.received)],
              pc := CloseCb(s.pc.cb))
    case SendAborted => s.(pc := CloseCb(s.pc.cb))
    case CloseCallback => CloseChan(s, s.pc.cb).(pc := Top)
    case FinishStop => StopEffect(s).(pc := FinDrain)
    case FinishDrain => DrainEffect(s).(pc := FinSignal)
    case CloseStopped => s.(stoppedCloses := s.stoppedCloses + 1, pc := Exited)
  }

  function Apply(s: State, a: Action): State
    requires Enabled(s, a)
  {
    match a
    case Call(cid, cb, cap, outcome) => CallEffect(s, cid, cb, cap, outcome)
    case CallNR(_) => s
    case Delete(cid) => DeleteEffect(s, cid)
    case Stop => StopEffect(s)
    case Receive(ch) =>
      s.(chans := s.chans[ch := s.chans[ch].(received := s.chans[ch].received + 1)])
    case DropSub(sub) => s.(valid := s.valid - {sub})
    case Recv(r) => ApplyStep(s, r)
  }

  /** Call or CallNR returns without an error. */
  predicate Accepted(s: State, a: Action) {
    !s.isClose && ((a.Call? && a.outcome.Published?) || (a.CallNR? && a.nr.Published?))
  }

  // ----- ownership

  predicate Held(s: State, ch: ChanId) {
    (s.pc.Deliver? || s.pc.CloseCb?) && s.pc.cb == ch
  }

  /** In how many of the four places (table, receiver, closed, withdrawn) a callback is. */
  function Places(s: State, ch: ChanId): nat
    requires ch in s.chans
  {
    (if InTable(s, ch) then 1 else 0) + (if Held(s, ch) then 1 else 0)
    + (if s.chans[ch].closes > 0 then 1 else 0) + (if ch in s.withdrawn then 1 else 0)
  }

  predicate TableInv(s: State) {
    && s.callinfos.Keys <= s.used
    && (forall ch :: ch in s.chans ==> s.chans[ch].cid in s.used)
    && (forall c1, c2 :: c1 in s.chans && c2 in s.chans && s.chans[c1].cid == s.chans[c2].cid ==> c1 == c2)
    && (forall c :: c in s.callinfos && s.callinfos[c].Some? ==>
          s.callinfos[c].value in s.chans && s.chans[s.callinfos[c].value].cid == c)
    && s.withdrawn <= s.chans.Keys
  }

  predicate ChanOk(s: State, ch: ChanId)
    requires ch in s.chans
  {
    var c := s.chans[ch];
    && Places(s, ch) == 1
    && c.closes <= 1 && |c.sent| <= 1 && c.received <= |c.sent|
    && (c.sent != [] ==> c.sent[0].cid == c.cid)
    && (c.sent != [] ==> c.closes > 0 || s.pc == CloseCb(ch))
    && (c.sent == [] && (c.closes > 0 || s.pc == CloseCb(ch)) ==> s.isClose)
  }

  predicate Inv(s: State) {
    && TableInv(s)
    && (forall ch :: ch in s.chans ==> ChanOk(s, ch))
    && (s.pc.Deliver? || s.pc.CloseCb? ==> s.pc.cb in s.chans)
    && (s.pc.Deliver? ==> s.pc.msg.cid == s.chans[s.pc.cb].cid)
    && !s.fault
    && s.doneCloses == (if s.isClose then 1 else 0)
    && s.stoppedCloses == (if s.pc.Exited? then 1 else 0)
    && s.subs < s.nextSub
    && (s.pc.Waiting? || s.pc.Erred? ==> s.pc.sub == s.subs)
    && s.valid <= {s.subs}
    && (s.isClose ==> s.valid == {})
    && (s.pc.FinDrain? || s.pc.FinSignal? || s.pc.Exited? ==> s.isClose)
    && (s.pc.FinSignal? || s.pc.Exited? ==> s.callinfos == map[])
  }

  lemma {:induction false} InitInv(s: State)
    requires Init(s)
    ensures Inv(s)
  {
  }

  lemma {:induction false} CallKeepsInv(s: State, a: Action)
    requires Inv(s) && a.Call? && Fresh(s, a)
    ensures Inv(Apply(s, a))
  {
    var t := Apply(s, a);
    if !s.isClose && a.outcome.Published? {
      forall ch | ch in t.chans
        ensures ChanOk(t, ch)
      {
        if ch in s.chans {
          assert ChanOk(s, ch) && t.chans[ch] == s.chans[ch] && s.chans[ch].cid != a.cid;
        }
      }
      assert TableInv(t);
    } else {
      assert t == s by {
        assert a.cid !in s.callinfos;
        assert s.callinfos - {a.cid} == s.callinfos;
      }
    }
  }

  lemma {:induction false} DeleteKeepsInv(s: State, cid: Cid)
    requires Inv(s)
    ensures Inv(DeleteEffect(s, cid))
  {
    var t := DeleteEffect(s, cid);
    forall ch | ch in t.chans
      ensures ChanOk(t, ch)
    {
      assert ChanOk(s, ch);
    }
  }

  lemma {:induction false} LookupKeepsInv(s: State)
    requires Inv(s) && s.pc.Matching?
    ensures Inv(LookupEffect(s))
  {
    var t := LookupEffect(s);
    forall ch | ch in t.chans
      ensures ChanOk(t, ch)
    {
      assert ChanOk(s, ch);
    }
  }

  lemma {:induction false} SendKeepsInv(s: State, handoff: bool)
    requires Inv(s) && StepEnabled(s, Send(handoff))
    ensures Inv(ApplyStep(s, Send(handoff)))
  {
    var t := ApplyStep(s, Send(handoff));
    assert ChanOk(s, s.pc.cb);
    forall ch | ch in t.chans
      ensures ChanOk(t, ch)
    {
      assert ChanOk(s, ch);
    }
  }

  lemma {:induction false} CloseKeepsInv(s: State)
    requires Inv(s) && s.pc.CloseCb?
    ensures Inv(ApplyStep(s, CloseCallback))
  {
    var t := ApplyStep(s, CloseCallback);
    assert ChanOk(s, s.pc.cb);
    forall ch | ch in t.chans
      ensures ChanOk(t, ch)
    {
      assert ChanOk(s, ch);
    }
  }

  lemma {:induction false} DrainKeepsInv(s: State)
    requires Inv(s) && s.pc.FinDrain?
    ensures Inv(ApplyStep(s, FinishDrain))
  {
    var t := ApplyStep(s, FinishDrain);
    forall ch | ch in t.chans
      ensures ChanOk(t, ch)
    {
      assert ChanOk(s, ch);
    }
    forall c | c in s.callinfos && s.callinfos[c].Some?
      ensures s.chans[s.callinfos[c].value].closes == 0
    {
      assert ChanOk(s, s.callinfos[c].value);
    }
  }

  lemma {:induction false} AbortKeepsInv(s: State)
    requires Inv(s) && StepEnabled(s, SendAborted)
    ensures Inv(ApplyStep(s, SendAborted))
  {
    var t := ApplyStep(s, SendAborted);
    forall ch | ch in t.chans
      ensures ChanOk(t, ch)
    {
      assert ChanOk(s, ch);
    }
  }

  /** A step that leaves table and callbacks alone, while the receiver holds none of them. */
  lemma {:induction false} QuietStep(s: State, t: State)
    requires Inv(s) && !s.pc.Deliver? && !s.pc.CloseCb? && !t.pc.Deliver? && !t.pc.CloseCb?
    requires t.chans == s.chans && t.callinfos == s.callinfos && t.used == s.used
    requires t.withdrawn == s.withdrawn && (s.isClose ==> t.isClose)
    ensures TableInv(t) && forall ch :: ch in t.chans ==> ChanOk(t, ch)
  {
    forall ch | ch in t.chans
      ensures ChanOk(t, ch)
    {
      assert ChanOk(s, ch);
    }
  }

  lemma {:induction false} ReceiverKeepsInv(s: State, r: ReceiverStep)
    requires Inv(s) && StepEnabled(s, r)
    ensures Inv(ApplyStep(s, r))
  {
    match r
    case Lookup => LookupKeepsInv(s);
    case Send(handoff) => SendKeepsInv(s, handoff);
    case SendAborted => AbortKeepsInv(s);
    case CloseCallback => CloseKeepsInv(s);
    case FinishDrain => DrainKeepsInv(s);
    case _ => QuietStep(s, ApplyStep(s, r));
  }

  lemma {:induction false} ReceiveKeepsInv(s: State, ch: ChanId)
    requires Inv(s) && Enabled(s, Receive(ch))
    ensures Inv(Apply(s, Receive(ch)))
  {
    var t := Apply(s, Receive(ch));
    forall c | c in t.chans
      ensures ChanOk(t, c)
    {
      assert ChanOk(s, c);
    }
  }

  /** CallNR, stop and a lost subscription touch neither the table nor the callbacks. */
  lemma {:induction false} BystanderKeepsInv(s: State, a: Action)
    requires Inv(s) && (a.CallNR? || a.Stop? || a.DropSub?)
    ensures Inv(Apply(s, a))
  {
    var t := Apply(s, a);
    assert TableInv(t);
    forall c | c in t.chans
      ensures ChanOk(t, c)
    {
      assert ChanOk(s, c);
    }
  }

  /** Every action, whoever takes it and whenever, keeps the ownership invariant. */
  lemma {:induction false} ActionKeepsInv(s: State, a: Action)
    requires Inv(s) && Enabled(s, a) && Fresh(s, a)
    ensures Inv(Apply(s, a))
  {
    match a
    case Call(_, _, _, _) => CallKeepsInv(s, a);
    case Delete(cid) => DeleteKeepsInv(s, cid);
    case Receive(ch) => ReceiveKeepsInv(s, ch);
    case Recv(r) => ReceiverKeepsInv(s, r);
    case _ => BystanderKeepsInv(s, a);
  }

  // ----- runs

  /** A finite interleaving: the states it passes through and the actions taken between them. */
  ghost predicate Exec(ss: seq<State>, acts: seq<Action>) {
    && |ss| == |acts| + 1
    && forall i :: 0 <= i < |acts| ==>
         Enabled(ss[i], acts[i]) && Fresh(ss[i], acts[i]) && ss[i + 1] == Apply(ss[i], acts[i])
  }

  lemma {:induction false} ExecKeepsInv(ss: seq<State>, acts: seq<Action>, i: nat)
    requires Exec(ss, acts) && Inv(ss[0]) && i < |ss|
    ensures Inv(ss[i])
  {
    if i > 0 {
      ExecKeepsInv(ss, acts, i - 1);
      ActionKeepsInv(ss[i - 1], acts[i - 1]);
    }
  }

  /** Safety over every interleaving: no channel is closed twice or sent to after its close (the
      program never faults), every callback is in exactly one place, and it carries at most one
      reply, which answers its own call. `done` and `stopped` are closed at most once, and at
      most one reply subscription is valid. */
  lemma {:induction false} OwnershipHolds(ss: seq<State>, acts: seq<Action>, i: nat)
    requires Exec(ss, acts) && Init(ss[0]) && i < |ss|
    ensures !ss[i].fault && ss[i].doneCloses <= 1 && ss[i].stoppedCloses <= 1
    ensures |ss[i].valid| <= 1
    ensures forall ch :: ch in ss[i].chans ==>
              var c := ss[i].chans[ch];
              Places(ss[i], ch) == 1 && c.closes <= 1 && |c.sent| <= 1 && forall m :: m in c.sent ==> m.cid == c.cid
  {
    InitInv(ss[0]);
    ExecKeepsInv(ss, acts, i);
    var s := ss[i];
    assert s.valid == {} || s.valid == {s.subs};
    forall ch | ch in s.chans
      ensures Places(s, ch) == 1 && s.chans[ch].closes <= 1 && |s.chans[ch].sent| <= 1
      ensures forall m :: m in s.chans[ch].sent ==> m.cid == s.chans[ch].cid
    {
      assert ChanOk(s, ch);
    }
  }

  /** What later states may do to a callback: no reply or close is retracted, nothing is sent once
      it is closed or withdrawn. */
  predicate Extends(s: State, t: State, ch: ChanId)
    requires ch in s.chans
  {
    && ch in t.chans && s.chans[ch].sent <= t.chans[ch].sent && s.chans[ch].closes <= t.chans[ch].closes
    && s.chans[ch].cid == t.chans[ch].cid && s.chans[ch].cap == t.chans[ch].cap
    && (ch in s.withdrawn ==> ch in t.withdrawn && t.chans[ch].closes == 0 && t.chans[ch].sent == [])
    && (s.chans[ch].closes > 0 ==> t.chans[ch].sent == s.chans[ch].sent)
  }

  lemma {:induction false} ReceiverExtends(s: State, r: ReceiverStep, ch: ChanId)
    requires Inv(s) && StepEnabled(s, r) && ch in s.chans
    ensures Extends(s, ApplyStep(s, r), ch)
  {
    assert ChanOk(s, ch);
    if !r.FinishDrain? && !r.Send? && !r.CloseCallback? {
      assert ApplyStep(s, r).chans == s.chans && ApplyStep(s, r).withdrawn == s.withdrawn;
    }
  }

  lemma {:induction false} ActionExtends(s: State, a: Action, ch: ChanId)
    requires Inv(s) && Enabled(s, a) && Fresh(s, a) && ch in s.chans
    ensures Extends(s, Apply(s, a), ch)
  {
    assert ChanOk(s, ch);
    if a.Recv? {
      ReceiverExtends(s, a.step, ch);
    }
  }

  lemma {:induction false} HistoryIsStable(ss: seq<State>, acts: seq<Action>, i: nat, j: nat, ch: ChanId)
    requires Exec(ss, acts) && Init(ss[0]) && i <= j < |ss| && ch in ss[i].chans
    ensures Extends(ss[i], ss[j], ch)
    decreases j
  {
    InitInv(ss[0]);
    if i < j {
      HistoryIsStable(ss, acts, i, j - 1, ch);
      ExecKeepsInv(ss, acts, j - 1);
      ActionExtends(ss[j - 1], acts[j - 1], ch);
    } else {
      ExecKeepsInv(ss, acts, i);
      assert ChanOk(ss[i], ch);
    }
  }

  // ----- shutdown

  /** What holds from the moment `stopped` is closed. */
  predicate Quiescent(s: State) {
    && s.isClose && s.valid == {} && s.callinfos == map[] && s.pc.Exited?
    && forall ch :: ch in s.chans ==> s.chans[ch].closes == 1 || ch in s.withdrawn
  }

  lemma {:induction false} ExitedIsQuiescent(s: State)
    requires Inv(s) && s.stoppedCloses > 0
    ensures Quiescent(s)
  {
    forall ch | ch in s.chans
      ensures s.chans[ch].closes == 1 || ch in s.withdrawn
    {
      assert ChanOk(s, ch);
    }
  }

  lemma {:induction false} QuiescentStep(s: State, a: Action)
    requires Quiescent(s) && Enabled(s, a)
    ensures var t := Apply(s, a);
            && t.pc == s.pc && t.stoppedCloses == s.stoppedCloses && t.used == s.used
            && t.chans.Keys == s.chans.Keys
            && forall ch :: ch in s.chans ==> t.chans[ch].sent == s.chans[ch].sent
  {
  }

  /** Once `stopped` is closed: quiescent for ever, no call is accepted, no reply is written. */
  lemma {:induction false} StoppedIsFinal(ss: seq<State>, acts: seq<Action>, i: nat, j: nat)
    requires Exec(ss, acts) && Init(ss[0]) && i <= j < |ss| && ss[i].stoppedCloses > 0
    ensures ss[j].stoppedCloses > 0 && Quiescent(ss[j])
    ensures ss[j].chans.Keys == ss[i].chans.Keys && ss[j].used == ss[i].used
    ensures forall ch :: ch in ss[i].chans ==> ss[j].chans[ch].sent == ss[i].chans[ch].sent
    ensures j < |acts| ==> !Accepted(ss[j], acts[j])
    decreases j
  {
    if i < j {
      StoppedIsFinal(ss, acts, i, j - 1);
      QuiescentStep(ss[j - 1], acts[j - 1]);
    }
    assert Inv(ss[j]) by {
      InitInv(ss[0]);
      ExecKeepsInv(ss, acts, j);
    }
    ExitedIsQuiescent(ss[j]);
  }

  function Rank(pc: Pc): nat {
    match pc
    case Fetch => 9
    case Waiting(_) => 8
    case Matching(_) => 7
    case Deliver(_, _) => 6
    case CloseCb(_) => 5
    case Erred(_, _) => 5
    case Backoff => 5
    case Top => 4
    case FinStop => 3
    case FinDrain => 2
    case FinSignal => 1
    case Exited => 0
  }

  /** After close, each step of the receiver lowers the rank and nobody else touches it. */
  lemma {:induction false} RankDecreases(s: State, a: Action)
    requires Inv(s) && s.isClose && Enabled(s, a)
    ensures Apply(s, a).isClose
    ensures if a.Recv? then Rank(Apply(s, a).pc) < Rank(s.pc) else Apply(s, a).pc == s.pc
  {
  }

  /** After close the receiver is never stuck before `stopped` is closed; in NextMsg this is the
      assumption that NextMsg returns, everywhere else it needs nobody. */
  lemma {:induction false} ReceiverNeverStuck(s: State) returns (r: ReceiverStep)
    requires Inv(s) && s.isClose && s.stoppedCloses == 0
    ensures StepEnabled(s, r)
  {
    r := match s.pc
      case Top => CheckDone
      case Fetch => CopySub
      case Waiting(_) => NextMsg(Failed)
      case Erred(_, _) => HandleError(false, Rebuilt)
      case Backoff => BackoffEnds(true)
      case Matching(_) => Lookup
      case Deliver(_, _) => SendAborted
      case CloseCb(_) => CloseCallback
      case FinStop => FinishStop
      case FinDrain => FinishDrain
      case _ => CloseStopped;
  }

  function ReceiverSteps(acts: seq<Action>): nat {
    if acts == [] then 0
    else ReceiverSteps(acts[..|acts| - 1]) + (if acts[|acts| - 1].Recv? then 1 else 0)
  }

  /** Whatever the callers do, a closed client's receiver takes at most nine more steps: after
      Rank-many of them `stopped` is closed. */
  lemma {:induction false} ShutdownIsBounded(ss: seq<State>, acts: seq<Action>)
    requires Exec(ss, acts) && Inv(ss[0]) && ss[0].isClose
    ensures ss[|acts|].isClose && ReceiverSteps(acts) + Rank(ss[|acts|].pc) <= Rank(ss[0].pc) <= 9
    ensures ReceiverSteps(acts) >= Rank(ss[0].pc) ==> ss[|acts|].stoppedCloses == 1
    decreases |acts|
  {
    ExecKeepsInv(ss, acts, |acts|);
    if acts != [] {
      var n := |acts| - 1;
      var before, ahead := ss[..|acts|], acts[..n];
      assert Exec(before, ahead);
      ShutdownIsBounded(before, ahead);
      ExecKeepsInv(ss, acts, n);
      RankDecreases(ss[n], acts[n]);
    }
  }

  // ----- the caller

  /** With the one-slot callback of CallArgs a delivery never waits for the caller. */
  lemma {:induction false} DeliveryNeverBlocks(s: State)
    requires Inv(s) && s.pc.Deliver? && s.chans[s.pc.cb].cap >= 1
    ensures StepEnabled(s, Send(false))
  {
    assert ChanOk(s, s.pc.cb);
  }

  /** What the select of CallArgs can see on its callback, in every reachable state: a reply is
      the reply to this call; "client closed" (closed and empty, nothing ever sent) is only seen on a
      closed client; and once the receiver is gone a callback that was not given up is readable. */
  lemma {:induction false} CallArgsOutcome(ss: seq<State>, acts: seq<Action>, i: nat, ch: ChanId)
    requires Exec(ss, acts) && Init(ss[0]) && i < |ss| && ch in ss[i].chans
    ensures var c := ss[i].chans[ch];
            && (c.received < |c.sent| ==> c.sent[c.received].cid == c.cid)
            && (c.closes > 0 && c.sent == [] ==> ss[i].isClose)
            && (ss[i].stoppedCloses > 0 && ch !in ss[i].withdrawn ==> c.closes == 1)
  {
    InitInv(ss[0]);
    ExecKeepsInv(ss, acts, i);
    assert ChanOk(ss[i], ch);
  }

  /** The freshness of call ids is what ownership rests on. A call that gets past the closed and
      marshalling checks under any id keeps every callback in exactly one place if and only if the
      id does not name an entry with a callback in the table. */
  lemma {:induction false} CallOwnershipExact(s: State, cid: Cid, ch: ChanId, cap: nat, published: bool)
    requires Inv(s) && !s.isClose && ch !in s.chans
    ensures var t := CallEffect(s, cid, Some(ch), cap, if published then Published else PublishFailed);
            (forall c :: c in t.chans ==> Places(t, c) == 1)
            <==> !(cid in s.callinfos && s.callinfos[cid].Some?)
  {
    var t := CallEffect(s, cid, Some(ch), cap, if published then Published else PublishFailed);
    if cid in s.callinfos && s.callinfos[cid].Some? {
      var lost := s.callinfos[cid].value;
      assert ChanOk(s, lost);
      assert lost in t.chans && Places(t, lost) == 0;
    } else {
      forall c | c in t.chans
        ensures Places(t, c) == 1
      {
        if c in s.chans { assert ChanOk(s, c); } else { assert !Held(t, c); }
      }
    }
  }

  // ----- the locked sections as code

  /** Partway through the loop of finish: `rest` is still in the table, all else is closed. */
  ghost predicate Draining(s: State, rest: map<Cid, Option<ChanId>>, chans: map<ChanId, Chan>) {
    && (forall c :: c in rest ==> c in s.callinfos && rest[c] == s.callinfos[c])
    && chans.Keys == s.chans.Keys
    && forall ch :: ch in chans ==>
         chans[ch] == if InTable(s, ch) && s.chans[ch].cid !in rest
                      then s.chans[ch].(closes := s.chans[ch].closes + 1) else s.chans[ch]
  }

  lemma {:induction false} DrainOne(s: State, rest: map<Cid, Option<ChanId>>, chans: map<ChanId, Chan>, key: Cid)
    requires TableIsClean(s) && Draining(s, rest, chans) && key in rest
    ensures rest[key].Some? ==> rest[key].value in chans && chans[rest[key].value].closes == 0
    ensures var chans' := if rest[key].Some?
              then chans[rest[key].value := chans[rest[key].value].(closes := 1)] else chans;
            Draining(s, rest - {key}, chans')
  {
    if rest[key].Some? {
      assert InTable(s, rest[key].value);
    }
  }

  lemma {:induction false} DrainDone(s: State, chans: map<ChanId, Chan>)
    requires TableIsClean(s) && Draining(s, map[], chans)
    ensures s.(callinfos := map[], chans := chans) == DrainEffect(s)
  {
    assert chans == DrainEffect(s).chans;
  }

  lemma {:induction false} InvMeansCleanTable(s: State)
    requires Inv(s)
    ensures TableIsClean(s)
  {
    forall c | c in s.callinfos && s.callinfos[c].Some?
      ensures s.chans[s.callinfos[c].value].closes == 0
    {
      assert ChanOk(s, s.callinfos[c].value);
    }
  }

  /** The client object. Each method is one section run under `cmutex`; its contract is the
      action of the protocol above that the section implements. */
  class Client {
    var isClose: bool
    var doneCloses: nat
    var stoppedCloses: nat
    var subs: SubId
    var valid: set<SubId>
    var nextSub: SubId
    var callinfos: map<Cid, Option<ChanId>>
    var chans: map<ChanId, Chan>
    var fault: bool
    var pc: Pc
    ghost var used: set<Cid>
    ghost var withdrawn: set<ChanId>

    ghost function View(): State
      reads this
    {
      State(isClose, doneCloses, stoppedCloses, subs, valid, nextSub, callinfos, chans, used, withdrawn, fault, pc)
    }

    constructor ()
      ensures Init(View()) && Inv(View())
    {
      isClose, doneCloses, stoppedCloses := false, 0, 0;
      subs, valid, nextSub := 0, {0}, 1;
      callinfos, chans, fault, pc := map[], map[], false, Top;
      used, withdrawn := {}, {};
    }

    method Call(cid: Cid, cb: Option<ChanId>, cap: nat, outcome: CallOutcome) returns (accepted: bool)
      requires Inv(View()) && Fresh(View(), Action.Call(cid, cb, cap, outcome))
      modifies this
      ensures View() == CallEffect(old(View()), cid, cb, cap, outcome) && Inv(View())
      ensures accepted <==> Accepted(old(View()), Action.Call(cid, cb, cap, outcome))
    {
      CallKeepsInv(View(), Action.Call(cid, cb, cap, outcome));
      if isClose || outcome.MarshalFailed? {
        return false;
      }
      callinfos := callinfos[cid := cb];
      if outcome.PublishFailed? {
        callinfos := callinfos - {cid};
        assert callinfos == old(callinfos) - {cid};
        return false;
      }
      used := used + {cid};
      if cb.Some? {
        chans := chans[cb.value := Chan(cid, cap, [], 0, 0)];
      }
      return true;
    }

    method CallNR(outcome: CallOutcome) returns (accepted: bool)
      ensures accepted <==> Accepted(View(), Action.CallNR(outcome))
    {
      if isClose {
        return false;
      }
      accepted := outcome.Published?;
    }

    method Delete(cid: Cid)
      requires Inv(View())
      modifies this`callinfos, this`withdrawn
      ensures View() == DeleteEffect(old(View()), cid) && Inv(View())
    {
      DeleteKeepsInv(View(), cid);
      if cid in callinfos && callinfos[cid].Some? {
        withdrawn := withdrawn + {callinfos[cid].value};
      }
      callinfos := callinfos - {cid};
    }

    method Stop()
      requires Inv(View())
      modifies this`isClose, this`doneCloses, this`valid
      ensures View() == StopEffect(old(View())) && Inv(View())
    {
      ActionKeepsInv(View(), Action.Stop);
      if isClose {
        return;
      }
      isClose := true;
      doneCloses := doneCloses + 1;
      valid := valid - {subs};
    }

    method CloseFch(ch: ChanId)
      requires ch in chans
      modifies this`chans, this`fault
      ensures View() == CloseChan(old(View()), ch)
      ensures chans == old(chans)[ch := old(chans)[ch].(closes := old(chans)[ch].closes + 1)]
      ensures fault == (old(fault) || old(chans)[ch].closes > 0)
    {
      fault := fault || chans[ch].closes > 0;
      chans := chans[ch := chans[ch].(closes := chans[ch].closes + 1)];
    }

    /** One turn of the loop of finish: close the callback of an entry and drop the entry. */
    method DrainKey(ghost s: State, key: Cid)
      requires TableIsClean(s) && Draining(s, callinfos, chans) && !fault && key in callinfos
      modifies this`callinfos, this`chans, this`fault
      ensures Draining(s, callinfos, chans) && !fault && callinfos == old(callinfos) - {key}
    {
      DrainOne(s, callinfos, chans, key);
      if callinfos[key].Some? {
        CloseFch(callinfos[key].value);
      }
      callinfos := callinfos - {key};
    }

    /** The loop of finish over the entries left in the table, in the map's arbitrary order. */
    method DrainTable()
      requires TableIsClean(View()) && !fault
      modifies this`callinfos, this`chans, this`fault
      ensures View() == DrainEffect(old(View()))
    {
      ghost var s := View();
      while callinfos.Keys != {}
        invariant Draining(s, callinfos, chans) && !fault
        decreases |callinfos.Keys|
      {
        var key :| key in callinfos.Keys;
        assert (callinfos - {key}).Keys == callinfos.Keys - {key};
        DrainKey(s, key);
      }
      assert callinfos == map[];
      DrainDone(s, chans);
    }

    method Drain()
      requires Inv(View()) && pc.FinDrain?
      modifies this`callinfos, this`chans, this`fault, this`pc
      ensures View() == ApplyStep(old(View()), FinishDrain) && Inv(View())
    {
      InvMeansCleanTable(View());
      DrainKeepsInv(View());
      DrainTable();
      pc := FinSignal;
    }

    /** Take the entry of an arrived reply out of the table; from here the receiver owns it. */
    method Take()
      requires Inv(View()) && pc.Matching?
      modifies this`callinfos, this`pc
      ensures View() == LookupEffect(old(View())) && Inv(View())
    {
      LookupKeepsInv(View());
      var msg := pc.msg;
      var info := if msg.cid in callinfos then callinfos[msg.cid] else None;
      callinfos := callinfos - {msg.cid};
      pc := if info.Some? then Deliver(info.value, msg) else Top;
    }

    /** The section after a failed NextMsg: leave, keep or rebuild the subscription. */
    method RecoverSubscription(connClosed: bool, resub: Resubscribe)
      requires Inv(View()) && pc.Erred?
      modifies this`subs, this`valid, this`nextSub, this`pc
      ensures View() == ErrorEffect(old(View()), connClosed, resub) && Inv(View())
    {
      ReceiverKeepsInv(View(), HandleError(connClosed, resub));
      if isClose || connClosed {
        pc := FinStop;
        return;
      }
      var failed := !pc.timedOut;
      if pc.sub !in valid {
        failed := resub.RebuildFailed?;
        if resub.Rebuilt? {
          subs, valid, nextSub := nextSub, valid + {nextSub}, nextSub + 1;
        }
      }
      pc := if failed then Backoff else Top;
    }
  }
}
