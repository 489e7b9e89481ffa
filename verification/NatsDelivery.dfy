/** What the reply client does for its callers while it is open: calls are tabled, replies delivered. */
module NatsDelivery {
  import opened Wrappers
  import opened NatsClient

  // ----- one step

  /** An accepted call is in the table under its id with its callback, which is empty and open; a refused
      one changes no other call's entry. */
  lemma {:induction false} CallIsTabled(s: State, cid: Cid, cb: Option<ChanId>, cap: nat, outcome: CallOutcome)
    ensures var a := Action.Call(cid, cb, cap, outcome);
            var t := Apply(s, a);
            && (Accepted(s, a) ==> cid in t.callinfos && t.callinfos[cid] == cb && cid in t.used)
            && (Accepted(s, a) && cb.Some? ==> cb.value in t.chans && t.chans[cb.value] == Chan(cid, cap, [], 0, 0))
            && (!Accepted(s, a) && cid !in s.callinfos ==> t == s)
            && (forall c :: c != cid ==> (c in t.callinfos <==> c in s.callinfos) && (c in s.callinfos ==> t.callinfos[c] == s.callinfos[c]))
  {
  }

  /** A caller that gives up takes its entry out and nobody else's. */
  lemma {:induction false} DeleteWithdraws(s: State, cid: Cid)
    ensures var t := Apply(s, Action.Delete(cid));
            && cid !in t.callinfos && t.chans == s.chans
            && (cid in s.callinfos && s.callinfos[cid].Some? ==> s.callinfos[cid].value in t.withdrawn)
            && (forall c :: c != cid ==> (c in t.callinfos <==> c in s.callinfos) && (c in s.callinfos ==> t.callinfos[c] == s.callinfos[c]))
  {
  }

  lemma {:induction false} StopCloses(s: State)
    requires Inv(s)
    ensures var t := Apply(s, Action.Stop);
            t.isClose && t.doneCloses == 1 && t.subs !in t.valid && t.callinfos == s.callinfos && t.chans == s.chans
  {
  }

  /** The lookup of an arrived reply takes the call out of the table and goes on to deliver to its
      callback; a reply to no tabled call, or to one without a callback, is dropped. */
  lemma {:induction false} LookupTakes(s: State)
    requires s.pc.Matching?
    ensures var m, t := s.pc.msg, Apply(s, Recv(Lookup));
            && m.cid !in t.callinfos && t.chans == s.chans
            && t.pc == (if m.cid in s.callinfos && s.callinfos[m.cid].Some? then Deliver(s.callinfos[m.cid].value, m) else Top)
            && (forall c :: c != m.cid ==> (c in t.callinfos <==> c in s.callinfos) && (c in s.callinfos ==> t.callinfos[c] == s.callinfos[c]))
  {
  }

  /** A delivery writes the reply, then the callback is closed. */
  lemma {:induction false} SendWrites(s: State, handoff: bool)
    requires Inv(s) && s.pc.Deliver? && StepEnabled(s, Send(handoff))
    ensures var t := Apply(s, Recv(Send(handoff)));
            && t.chans[s.pc.cb].sent == [s.pc.msg] && t.pc == CloseCb(s.pc.cb)
            && (Enabled(t, Receive(s.pc.cb)) <==> !handoff)
            && Apply(t, Recv(CloseCallback)).chans[s.pc.cb].closes == 1 && Apply(t, Recv(CloseCallback)).pc == Top
  {
    assert ChanOk(s, s.pc.cb);
  }

  /** A stopped client's receiver leaves its loop wherever it looks at done. */
  lemma {:induction false} StopIsSeen(s: State)
    requires Inv(s) && s.isClose
    ensures s.pc.Top? ==> Apply(s, Recv(CheckDone)) == s.(pc := FinStop)
    ensures s.pc.Backoff? ==> Enabled(s, Recv(BackoffEnds(true))) && Apply(s, Recv(BackoffEnds(true))) == s.(pc := FinStop)
    ensures s.pc.Deliver? ==> Enabled(s, Recv(SendAborted)) && Apply(s, Recv(SendAborted)) == s.(pc := CloseCb(s.pc.cb))
  {
  }

  /** What the receiver does with its subscription while the client is open: it reads from the current
      one, and after a failure has exactly one valid subscription again unless rebuilding failed. */
  lemma {:induction false} ReceiverReads(s: State, r: ReceiverStep)
    requires Inv(s) && !s.isClose && StepEnabled(s, r)
    ensures var t := Apply(s, Recv(r));
            match r
            case CheckDone => t == s.(pc := Fetch)
            case CopySub => t == s.(pc := Waiting(s.subs))
            case NextMsg(Arrived(m)) => t == s.(pc := Matching(m))
            case NextMsg(Garbled) => t == s.(pc := Top)
            case NextMsg(TimedOut) => t == s.(pc := Erred(s.pc.sub, true))
            case NextMsg(Failed) => t == s.(pc := Erred(s.pc.sub, false))
            case HandleError(connClosed, resub) =>
              if connClosed then t.pc == FinStop
              else if s.pc.sub in s.valid then t == s.(pc := if s.pc.timedOut then Top else Backoff)
              else if resub.Rebuilt? then t.pc == Top && t.subs in t.valid && t.subs !in s.valid && s.subs < t.subs
              else t == s.(pc := if resub.RebuildTimedOut? then Top else Backoff)
            case BackoffEnds(_) => t == s.(pc := Top)
            case _ => true
  {
  }

  // ----- over runs

  /** A reply m that arrived for callback ch: about to be looked up, being delivered, or written. */
  predicate Underway(s: State, ch: ChanId, m: Msg) {
    ch in s.chans &&
    (|| (s.pc == Matching(m) && m.cid in s.callinfos && s.callinfos[m.cid] == Some(ch))
     || s.pc == Deliver(ch, m)
     || (s.chans[ch].sent == [m] && (s.chans[ch].closes == 1 || s.pc == CloseCb(ch))))
  }

  /** ... or the caller gave up, or the client was closed. */
  predicate UnderwayOrOver(s: State, ch: ChanId, m: Msg) {
    Underway(s, ch, m) || ch in s.withdrawn || s.isClose
  }

  lemma {:induction false} OthersKeepUnderway(s: State, a: Action, ch: ChanId, m: Msg)
    requires Inv(s) && Enabled(s, a) && Fresh(s, a) && !a.Recv? && Underway(s, ch, m) && ch !in s.withdrawn && !s.isClose
    ensures UnderwayOrOver(Apply(s, a), ch, m)
  {
    assert ChanOk(s, ch);
  }

  lemma {:induction false} ReceiverKeepsUnderway(s: State, r: ReceiverStep, ch: ChanId, m: Msg)
    requires Inv(s) && StepEnabled(s, r) && Underway(s, ch, m) && ch !in s.withdrawn && !s.isClose
    ensures UnderwayOrOver(ApplyStep(s, r), ch, m)
  {
    assert ChanOk(s, ch);
    if r.Lookup? {
      LookupTakes(s);
    }
  }

  lemma {:induction false} StepKeepsUnderway(s: State, a: Action, ch: ChanId, m: Msg)
    requires Inv(s) && Enabled(s, a) && Fresh(s, a) && UnderwayOrOver(s, ch, m)
    ensures UnderwayOrOver(Apply(s, a), ch, m)
  {
    if ch in s.withdrawn || s.isClose {
      StaysOver(s, a, ch);
    } else if a.Recv? {
      ReceiverKeepsUnderway(s, a.step, ch, m);
    } else {
      OthersKeepUnderway(s, a, ch, m);
    }
  }

  lemma {:induction false} StaysOver(s: State, a: Action, ch: ChanId)
    requires Enabled(s, a) && (ch in s.withdrawn || s.isClose)
    ensures ch in Apply(s, a).withdrawn || Apply(s, a).isClose
  {
    match a
    case Recv(r) => ReceiverStaysOver(s, r, ch);
    case _ =>
  }

  lemma {:induction false} ReceiverStaysOver(s: State, r: ReceiverStep, ch: ChanId)
    requires StepEnabled(s, r)
    ensures ApplyStep(s, r).withdrawn == s.withdrawn && (s.isClose ==> ApplyStep(s, r).isClose)
  {
  }

  lemma {:induction false} StaysUnderway(ss: seq<State>, acts: seq<Action>, i: nat, j: nat, ch: ChanId, m: Msg)
    requires Exec(ss, acts) && Init(ss[0]) && i <= j < |ss| && UnderwayOrOver(ss[i], ch, m)
    ensures UnderwayOrOver(ss[j], ch, m)
    decreases j
  {
    if i < j {
      StaysUnderway(ss, acts, i, j - 1, ch, m);
      InitInv(ss[0]);
      ExecKeepsInv(ss, acts, j - 1);
      StepKeepsUnderway(ss[j - 1], acts[j - 1], ch, m);
    }
  }

  /** A reply that arrives for a tabled call is delivered: when the receiver is next at the top of its
      loop, with the client open and the caller still waiting, the call's callback has been sent exactly
      that message and closed. */
  lemma {:induction false} ReplyIsDelivered(ss: seq<State>, acts: seq<Action>, i: nat, j: nat, ch: ChanId, m: Msg)
    requires Exec(ss, acts) && Init(ss[0]) && i < j < |ss| && acts[i] == Recv(NextMsg(Arrived(m)))
    requires m.cid in ss[i].callinfos && ss[i].callinfos[m.cid] == Some(ch)
    requires ss[j].pc == Top && !ss[j].isClose && ch !in ss[j].withdrawn
    ensures ch in ss[j].chans && ss[j].chans[ch].sent == [m] && ss[j].chans[ch].closes == 1
  {
    InitInv(ss[0]);
    ExecKeepsInv(ss, acts, i);
    assert ss[i + 1] == Apply(ss[i], acts[i]);
    assert Underway(ss[i + 1], ch, m);
    StaysUnderway(ss, acts, i + 1, j, ch, m);
  }

  /** The call waits in the table, and no reply to it is being looked up. */
  predicate Awaiting(s: State, cid: Cid, ch: ChanId) {
    cid in s.callinfos && s.callinfos[cid] == Some(ch) && !(s.pc.Matching? && s.pc.msg.cid == cid)
  }

  predicate AwaitingOrOver(s: State, cid: Cid, ch: ChanId) {
    Awaiting(s, cid, ch) || ch in s.withdrawn || s.isClose
  }

  predicate Replies(a: Action, cid: Cid) {
    a.Recv? && a.step.NextMsg? && a.step.reply.Arrived? && a.step.reply.msg.cid == cid
  }

  lemma {:induction false} StepKeepsAwaiting(s: State, a: Action, cid: Cid, ch: ChanId)
    requires Inv(s) && Enabled(s, a) && Fresh(s, a) && AwaitingOrOver(s, cid, ch) && !Replies(a, cid)
    ensures AwaitingOrOver(Apply(s, a), cid, ch)
  {
    if ch in s.withdrawn || s.isClose {
      StaysOver(s, a, ch);
    } else if a.Recv? {
      if a.step.Lookup? {
        LookupTakes(s);
      }
    }
  }

  lemma {:induction false} StaysAwaiting(ss: seq<State>, acts: seq<Action>, i: nat, j: nat, cid: Cid, ch: ChanId)
    requires Exec(ss, acts) && Init(ss[0]) && i <= j < |ss| && AwaitingOrOver(ss[i], cid, ch)
    requires forall n :: i <= n < j ==> !Replies(acts[n], cid)
    ensures AwaitingOrOver(ss[j], cid, ch)
    decreases j
  {
    if i < j {
      StaysAwaiting(ss, acts, i, j - 1, cid, ch);
      InitInv(ss[0]);
      ExecKeepsInv(ss, acts, j - 1);
      StepKeepsAwaiting(ss[j - 1], acts[j - 1], cid, ch);
    }
  }

  /** From call to answer: an accepted call with a callback gets the first reply that arrives under its
      id, provided the client stays open and the caller keeps waiting until the receiver is back at the
      top of its loop. */
  lemma {:induction false} CallGetsFirstReply(ss: seq<State>, acts: seq<Action>, i: nat, k: nat, j: nat, ch: ChanId, m: Msg)
    requires Exec(ss, acts) && Init(ss[0]) && i < k < j < |ss|
    requires acts[i].Call? && acts[i].cid == m.cid && acts[i].cb == Some(ch) && Accepted(ss[i], acts[i])
    requires !(ss[i].pc.Matching? && ss[i].pc.msg.cid == m.cid)
    requires acts[k] == Recv(NextMsg(Arrived(m))) && forall n :: i < n < k ==> !Replies(acts[n], m.cid)
    requires ss[j].pc == Top && !ss[j].isClose && ch !in ss[j].withdrawn
    ensures ch in ss[j].chans && ss[j].chans[ch].sent == [m] && ss[j].chans[ch].closes == 1
  {
    assert ss[i + 1] == Apply(ss[i], acts[i]);
    CallIsTabled(ss[i], m.cid, Some(ch), acts[i].cap, acts[i].outcome);
    assert Awaiting(ss[i + 1], m.cid, ch);
    StaysAwaiting(ss, acts, i + 1, k, m.cid, ch);
    if ch in ss[k].withdrawn || ss[k].isClose {
      OverLasts(ss, acts, k, j, ch);
    }
    ReplyIsDelivered(ss, acts, k, j, ch, m);
  }

  lemma {:induction false} OverLasts(ss: seq<State>, acts: seq<Action>, i: nat, j: nat, ch: ChanId)
    requires Exec(ss, acts) && i <= j < |ss| && (ch in ss[i].withdrawn || ss[i].isClose)
    ensures ch in ss[j].withdrawn || ss[j].isClose
    decreases j - i
  {
    if i < j {
      StaysOver(ss[i], acts[i], ch);
      assert ss[i + 1] == Apply(ss[i], acts[i]);
      OverLasts(ss, acts, i + 1, j, ch);
    }
  }

  // ----- the receiver keeps listening

  /** The receive loop was left. */
  predicate Left(s: State) {
    s.pc.FinStop? || s.pc.FinDrain? || s.pc.FinSignal? || s.pc.Exited?
  }

  predicate ConnectionClosed(a: Action) {
    a.Recv? && a.step.HandleError? && a.step.connClosed
  }

  lemma {:induction false} StepKeepsListening(s: State, a: Action)
    requires Inv(s) && Enabled(s, a) && (Left(s) ==> s.isClose) && !ConnectionClosed(a)
    ensures Left(Apply(s, a)) ==> Apply(s, a).isClose
  {
    if a.Recv? && a.step.Send? {
      assert ChanOk(s, s.pc.cb);
    }
  }

  /** The receiver leaves its loop only when the client was closed or the connection was: no reply, no
      timeout, no lost subscription and no failed rebuilding ends it. */
  lemma {:induction false} ReceiverLives(ss: seq<State>, acts: seq<Action>, j: nat)
    requires Exec(ss, acts) && Init(ss[0]) && j < |ss|
    requires forall n :: 0 <= n < j ==> !ConnectionClosed(acts[n])
    ensures Left(ss[j]) ==> ss[j].isClose
    decreases j
  {
    if j > 0 {
      ReceiverLives(ss, acts, j - 1);
      InitInv(ss[0]);
      ExecKeepsInv(ss, acts, j - 1);
      StepKeepsListening(ss[j - 1], acts[j - 1]);
    }
  }

  // ----- a reply is taken once

  /** A caller takes a reply from its callback, buffered before or handed over by the receiver. */
  predicate Takes(s: State, a: Action, ch: ChanId) {
    a == Receive(ch) || (a == Recv(Send(true)) && s.pc.Deliver? && s.pc.cb == ch)
  }

  predicate Taken(s: State, ch: ChanId) {
    ch in s.chans && s.chans[ch].received == 1 && |s.chans[ch].sent| == 1
  }

  lemma {:induction false} StepTakes(s: State, a: Action, ch: ChanId)
    requires Inv(s) && Enabled(s, a) && Fresh(s, a) && (Takes(s, a, ch) || Taken(s, ch))
    ensures Taken(Apply(s, a), ch)
  {
    assert ch in s.chans && ChanOk(s, ch);
    if a.Recv? && a.step.Send? {
      assert ChanOk(s, s.pc.cb);
    }
  }

  lemma {:induction false} StaysTaken(ss: seq<State>, acts: seq<Action>, i: nat, j: nat, ch: ChanId)
    requires Exec(ss, acts) && Init(ss[0]) && i <= j < |ss| && Taken(ss[i], ch)
    ensures Taken(ss[j], ch)
    decreases j
  {
    if i < j {
      StaysTaken(ss, acts, i, j - 1, ch);
      InitInv(ss[0]);
      ExecKeepsInv(ss, acts, j - 1);
      StepTakes(ss[j - 1], acts[j - 1], ch);
    }
  }

  /** Once a caller has taken its reply there is never another to take. */
  lemma {:induction false} TakenOnce(ss: seq<State>, acts: seq<Action>, i: nat, j: nat, ch: ChanId)
    requires Exec(ss, acts) && Init(ss[0]) && i < j < |ss| && Takes(ss[i], acts[i], ch)
    ensures !Enabled(ss[j], Receive(ch))
  {
    InitInv(ss[0]);
    ExecKeepsInv(ss, acts, i);
    StepTakes(ss[i], acts[i], ch);
    StaysTaken(ss, acts, i + 1, j, ch);
  }
}
