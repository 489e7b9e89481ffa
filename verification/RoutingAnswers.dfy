/** What lookups and removals give: answers where there is one, and none only for a reason. */
module RoutingAnswers {
  import opened Wrappers
  import opened Registry
  import opened Routing
  import Lifecycle

  // ----- one step

  /** A logical server that is routed, or an instance that is listed, is answered at once; anything else
      goes on to discovery. */
  lemma {:induction false} HitAnswers(s: State, t: Thread, server: ServerID, id: InstanceID, found: bool)
    requires Inv(s) && PhaseOf(s, t) == Free
    ensures var u := Apply(s, AskServer(t, server));
            if server in s.tb.logicalRoutes
            then u.answers == s.answers + [ByServer(server, s.tb.logicalRoutes[server])] && u.threads[t] == Free
            else u.answers == s.answers && u.threads[t] == Discovering(server)
    ensures var u := Apply(s, AskInstance(t, id, found));
            if id in s.tb.serverList then u.answers == s.answers + [ByInstance(id, id)] && u.threads[t] == Free
            else u.answers == s.answers && u.threads[t] == if found then Collect(ForInstance(id), [id], []) else Free
  {
  }

  /** A list of instances, or those discovered for a server, are all collected. */
  lemma {:induction false} AskDoes(s: State, t: Thread, snapshot: seq<Service>, ids: seq<InstanceID>)
    ensures PhaseOf(s, t).Free? ==> Apply(s, AskList(t, ids)).threads[t] == Collect(ForList, ids, [])
    ensures Enabled(s, Discover(t, snapshot, ids)) ==>
              Apply(s, Discover(t, snapshot, ids)).threads[t] == Collect(RouteGoal(PhaseOf(s, t).server, snapshot, ids), ids, [])
  {
  }

  /** Collecting: a listed instance gives its listed session; one that is not gives a new session of its
      own, which is then the listed one unless another goroutine was first, whose session is taken. */
  lemma {:induction false} CollectDoes(s: State, t: Thread, sid: SessionId)
    requires Inv(s) && PhaseOf(s, t).Collect? && PhaseOf(s, t).todo != [] && sid !in s.tb.sessions
    ensures var p, u := PhaseOf(s, t), Apply(s, Load(t));
            && u.tb == s.tb
            && u.threads[t] == if p.todo[0] in s.tb.serverList
                               then Collect(p.goal, p.todo[1..], p.got + [s.tb.serverList[p.todo[0]]])
                               else Missed(p.goal, p.todo, p.got)
  {
  }

  lemma {:induction false} NewDoes(s: State, t: Thread, sid: SessionId)
    requires Inv(s) && PhaseOf(s, t).Missed? && PhaseOf(s, t).todo != [] && sid !in s.tb.sessions
    ensures var p, u := PhaseOf(s, t), Apply(s, New(t, sid, true));
            && u.threads[t] == Made(p.goal, p.todo, p.got, sid) && u.tb.serverList == s.tb.serverList
            && sid in u.tb.sessions && u.tb.sessions[sid] == Session(p.todo[0], s.serverOf(p.todo[0]), 0)
    ensures var p, u := PhaseOf(s, t), Apply(s, New(t, sid, false));
            u.tb == s.tb && u.threads[t] == if p.goal.ForInstance? then Free else Collect(p.goal, p.todo[1..], p.got)
  {
  }

  lemma {:induction false} StoreDoes(s: State, t: Thread)
    requires Inv(s) && PhaseOf(s, t).Made?
    ensures var p := PhaseOf(s, t);
            p.todo != [] && Enabled(s, LoadOrStore(t)) &&
            var u := Apply(s, LoadOrStore(t));
            && p.todo[0] in u.tb.serverList
            && if p.todo[0] in s.tb.serverList
               then u.tb == s.tb && u.threads[t] == Lost(p.goal, p.todo, p.got, p.sid, s.tb.serverList[p.todo[0]])
               else u.tb.serverList[p.todo[0]] == p.sid && u.threads[t] == Collect(p.goal, p.todo[1..], p.got + [p.sid])
  {
    assert PhaseOk(s, t, s.threads[t]);
  }

  lemma {:induction false} LoserDoes(s: State, t: Thread)
    requires Inv(s) && PhaseOf(s, t).Lost?
    ensures var p := PhaseOf(s, t);
            p.todo != [] && Enabled(s, CloseLoser(t)) &&
            var u := Apply(s, CloseLoser(t));
            && u.threads[t] == Collect(p.goal, p.todo[1..], p.got + [p.other])
            && p.sid in u.tb.sessions && u.tb.sessions[p.sid].closes == 1 && u.tb.serverList == s.tb.serverList
  {
    assert PhaseOk(s, t, s.threads[t]);
    assert PlaceOk(s, PhaseOf(s, t).sid);
  }

  /** A lookup by instance that collected a session answers with that instance; a lookup by server goes
      on to try its candidates, all of them and in order. */
  lemma {:induction false} CollectedDoes(s: State, t: Thread)
    requires Inv(s) && PhaseOf(s, t).Collect? && PhaseOf(s, t).todo == []
    ensures var p, u := PhaseOf(s, t), Apply(s, Collected(t));
            match p.goal
            case ForRoute(_, _, _) => u.threads[t] == Bind(p.goal, p.got) && u.answers == s.answers
            case ForInstance(id) =>
              u.threads[t] == Free && u.answers == if p.got != [] then s.answers + [ByInstance(id, id)] else s.answers
            case ForList => u.threads[t] == Free && u.answers == s.answers
  {
    assert PhaseOk(s, t, s.threads[t]);
    if PhaseOf(s, t).got == [] {
      assert s.answers + [] == s.answers;
    }
  }

  /** The watcher takes the instance out of the list and out of the routes, and closes its session. */
  lemma {:induction false} WatchDoes(s: State, t: Thread, instance: InstanceID)
    requires Inv(s) && PhaseOf(s, t) == Free
    ensures var u := Apply(s, Watch(t, instance));
            && instance !in u.tb.serverList
            && (forall k :: k in u.tb.logicalRoutes ==> u.tb.logicalRoutes[k] != instance)
            && (forall i :: i != instance ==> (i in u.tb.serverList <==> i in s.tb.serverList)
                                              && (i in s.tb.serverList ==> u.tb.serverList[i] == s.tb.serverList[i]))
            && (instance in s.tb.serverList ==> u.threads[t] == Removing(s.tb.serverList[instance]))
  {
    if instance in s.tb.serverList {
      assert PlaceOk(s, s.tb.serverList[instance]);
    }
  }

  lemma {:induction false} RemovedIsClosed(s: State, t: Thread)
    requires Inv(s) && PhaseOf(s, t).Removing?
    ensures var sid, u := PhaseOf(s, t).sid, Apply(s, CloseRemoved(t));
            sid in u.tb.sessions && u.tb.sessions[sid].closes == 1 && u.threads[t] == Free
  {
    assert PhaseOk(s, t, s.threads[t]);
    assert PlaceOk(s, PhaseOf(s, t).sid);
  }

  // ----- collecting leaves nothing out

  predicate Collecting(p: Phase, goal: Goal, ids: seq<InstanceID>, c: nat) {
    (p.Collect? || p.Missed? || p.Made? || p.Lost?) && p.goal == goal && c <= |ids| && p.todo == ids[c..]
  }

  /** The goroutine could not make a client for the first of todo. */
  predicate FailsToMake(s: State, a: Action, t: Thread, todo: seq<InstanceID>) {
    a.New? && a.t == t && !a.ok && PhaseOf(s, t).Missed? && PhaseOf(s, t).todo == todo
  }

  /** Instance number k of ids has a session in got, or no client could be made for it since i. */
  ghost predicate Served(ss: seq<State>, acts: seq<Action>, i: nat, n: nat, t: Thread, ids: seq<InstanceID>, got: seq<SessionId>, k: nat)
    requires n < |ss| && n <= |acts| && k < |ids|
  {
    || (exists j :: 0 <= j < |got| && got[j] in ss[n].tb.sessions && ss[n].tb.sessions[got[j]].instance == ids[k])
    || (exists m :: i <= m < n && FailsToMake(ss[m], acts[m], t, ids[k..]))
  }

  ghost predicate AllServed(ss: seq<State>, acts: seq<Action>, i: nat, n: nat, t: Thread, ids: seq<InstanceID>, got: seq<SessionId>, c: nat)
    requires n < |ss| && n <= |acts| && c <= |ids|
  {
    forall k :: 0 <= k < c ==> Served(ss, acts, i, n, t, ids, got, k)
  }

  lemma {:induction false} SessionsStay(s: State, a: Action, sid: SessionId)
    requires Enabled(s, a) && sid in s.tb.sessions
    ensures sid in Apply(s, a).tb.sessions && Apply(s, a).tb.sessions[sid].instance == s.tb.sessions[sid].instance
  {
  }

  lemma {:induction false} StaysServed(ss: seq<State>, acts: seq<Action>, i: nat, n: nat, t: Thread, ids: seq<InstanceID>, got: seq<SessionId>, more: seq<SessionId>, k: nat)
    requires Exec(ss, acts) && i <= n < |acts| && k < |ids| && got <= more && Served(ss, acts, i, n, t, ids, got, k)
    ensures Served(ss, acts, i, n + 1, t, ids, more, k)
  {
    if j :| 0 <= j < |got| && got[j] in ss[n].tb.sessions && ss[n].tb.sessions[got[j]].instance == ids[k] {
      SessionsStay(ss[n], acts[n], got[j]);
      assert more[j] == got[j];
    }
  }

  /** A step of the goroutine: the first of todo stays first, or is served and the next one comes. */
  lemma {:induction false} CollectStep(s: State, a: Action, t: Thread)
    requires Inv(s) && Enabled(s, a) && PhaseOf(Apply(s, a), t) != Free && !PhaseOf(Apply(s, a), t).Bind?
    requires var p := PhaseOf(s, t); p.Collect? || p.Missed? || p.Made? || p.Lost?
    ensures var p, u := PhaseOf(s, t), Apply(s, a);
            var q := PhaseOf(u, t);
            && (q.Collect? || q.Missed? || q.Made? || q.Lost?) && q.goal == p.goal && p.got <= q.got
            && (q.todo == p.todo
                || (p.todo != [] && q.todo == p.todo[1..]
                    && (FailsToMake(s, a, t, p.todo)
                        || (|q.got| == |p.got| + 1 && var sid := q.got[|p.got|];
                            sid in u.tb.sessions && u.tb.sessions[sid].instance == p.todo[0]))))
  {
    var p := PhaseOf(s, t);
    if a.t == t {
      assert PhaseOk(s, t, p);
    }
  }

  lemma {:induction false} CollectedSoFar(ss: seq<State>, acts: seq<Action>, i: nat, n: nat, t: Thread, goal: Goal, ids: seq<InstanceID>) returns (c: nat)
    requires Exec(ss, acts) && Init(ss[0]) && i <= n < |ss| && PhaseOf(ss[i], t) == Collect(goal, ids, [])
    requires forall m :: i <= m <= n ==> PhaseOf(ss[m], t) != Free && !PhaseOf(ss[m], t).Bind?
    ensures Collecting(PhaseOf(ss[n], t), goal, ids, c)
    ensures AllServed(ss, acts, i, n, t, ids, PhaseOf(ss[n], t).got, c)
    decreases n
  {
    if n == i {
      c := 0;
    } else {
      c := CollectedSoFar(ss, acts, i, n - 1, t, goal, ids);
      ExecKeepsInv(ss, acts, n - 1);
      c := OneMoreCollected(ss, acts, i, n - 1, t, goal, ids, c);
    }
  }

  lemma {:induction false} OneMoreCollected(ss: seq<State>, acts: seq<Action>, i: nat, n: nat, t: Thread, goal: Goal, ids: seq<InstanceID>, c: nat) returns (c': nat)
    requires Exec(ss, acts) && i <= n < |acts| && Inv(ss[n]) && Collecting(PhaseOf(ss[n], t), goal, ids, c)
    requires PhaseOf(ss[n + 1], t) != Free && !PhaseOf(ss[n + 1], t).Bind?
    requires AllServed(ss, acts, i, n, t, ids, PhaseOf(ss[n], t).got, c)
    ensures Collecting(PhaseOf(ss[n + 1], t), goal, ids, c')
    ensures AllServed(ss, acts, i, n + 1, t, ids, PhaseOf(ss[n + 1], t).got, c')
  {
    var p, q, next := PhaseOf(ss[n], t), PhaseOf(ss[n + 1], t), n + 1;
    CollectStep(ss[n], acts[n], t);
    forall k | 0 <= k < c
      ensures Served(ss, acts, i, next, t, ids, q.got, k)
    {
      StaysServed(ss, acts, i, n, t, ids, p.got, q.got, k);
    }
    if q.todo == p.todo {
      c' := c;
    } else {
      c' := c + 1;
      assert ids[c..][1..] == ids[c + 1..] && ids[c..][0] == ids[c];
      assert Served(ss, acts, i, n + 1, t, ids, q.got, c);
    }
  }

  /** When a goroutine has collected, every instance it was to collect, whether asked for or discovered,
      has a session among those it got, unless no client could be made for it. */
  lemma {:induction false} CollectsAll(ss: seq<State>, acts: seq<Action>, i: nat, n: nat, t: Thread, goal: Goal, ids: seq<InstanceID>)
    requires Exec(ss, acts) && Init(ss[0]) && i <= n < |ss| && PhaseOf(ss[i], t) == Collect(goal, ids, [])
    requires forall m :: i <= m <= n ==> PhaseOf(ss[m], t) != Free && !PhaseOf(ss[m], t).Bind?
    requires PhaseOf(ss[n], t).Collect? && PhaseOf(ss[n], t).todo == []
    ensures PhaseOf(ss[n], t).goal == goal
    ensures AllServed(ss, acts, i, n, t, ids, PhaseOf(ss[n], t).got, |ids|)
  {
    var c := CollectedSoFar(ss, acts, i, n, t, goal, ids);
    assert |ids[c..]| == |ids| - c;
  }

  // ----- the loop over the candidates

  /** A candidate of the server with a route there already, or with its own instance listed. */
  predicate Usable(s: State, sid: SessionId, server: ServerID) {
    && sid in s.tb.sessions && s.tb.sessions[sid].server == server
    && (server in s.tb.logicalRoutes || s.tb.sessions[sid].instance in s.tb.serverList)
  }

  /** A usable candidate is answered: with the route that is there, or else with its own instance, to
      which the route is then bound. An unusable one is passed over. */
  lemma {:induction false} BindAnswers(s: State, t: Thread)
    requires Inv(s) && PhaseOf(s, t).Bind? && PhaseOf(s, t).got != []
    ensures Enabled(s, TryBind(t))
    ensures var p, u := PhaseOf(s, t), Apply(s, TryBind(t));
            var k, sid := p.goal.server, p.got[0];
            if Usable(s, sid, k)
            then && k in u.tb.logicalRoutes && u.threads[t] == Free
                 && u.answers == s.answers + [ByServer(k, u.tb.logicalRoutes[k])]
                 && u.tb.logicalRoutes[k] == if k in s.tb.logicalRoutes then s.tb.logicalRoutes[k] else s.tb.sessions[sid].instance
            else u.tb == s.tb && u.answers == s.answers && u.threads[t] == Bind(p.goal, p.got[1..])
  {
    assert PhaseOk(s, t, s.threads[t]);
    assert PlaceOk(s, PhaseOf(s, t).got[0]);
    assert s.answers + [] == s.answers;
  }

  /** Candidate number i of the list was tried between c and n, and was of no use at its own try. */
  ghost predicate TriedInVain(ss: seq<State>, acts: seq<Action>, c: nat, n: nat, t: Thread, got: seq<SessionId>, i: nat, server: ServerID)
    requires Exec(ss, acts) && c <= n < |ss| && i < |got|
  {
    exists m :: c <= m < n && FailsAt(ss[m], acts[m], t, got[i..], server)
  }

  /** A try of the first of these candidates, which is of no use. */
  predicate FailsAt(s: State, a: Action, t: Thread, got: seq<SessionId>, server: ServerID) {
    a == TryBind(t) && PhaseOf(s, t).Bind? && got != [] && PhaseOf(s, t).got == got && !Usable(s, got[0], server)
  }

  /** Where the loop of a goroutine stands: the candidates it passed over were each of no use when tried. */
  ghost predicate Stands(ss: seq<State>, acts: seq<Action>, c: nat, n: nat, t: Thread, p: Phase, k: nat)
    requires Exec(ss, acts) && c <= n < |ss|
  {
    && p.Bind? && p.goal.ForRoute? && k <= |p.got| && PhaseOf(ss[n], t) == Bind(p.goal, p.got[k..])
    && forall i :: 0 <= i < k ==> TriedInVain(ss, acts, c, n, t, p.got, i, p.goal.server)
  }

  lemma {:induction false} LoopStep(ss: seq<State>, acts: seq<Action>, c: nat, n: nat, t: Thread, p: Phase, k: nat) returns (k': nat)
    requires Exec(ss, acts) && c <= n < |acts| && Inv(ss[n]) && Stands(ss, acts, c, n, t, p, k) && PhaseOf(ss[n + 1], t).Bind?
    ensures Stands(ss, acts, c, n + 1, t, p, k')
  {
    var s, a := ss[n], acts[n];
    assert ss[n + 1] == Apply(s, a);
    KeepTried(ss, acts, c, n, n + 1, t, p.got, k, p.goal.server);
    if a.t != t {
      OthersStay(s, a, t);
      k' := k;
    } else {
      OnlyTriesInBind(s, a);
      assert a == TryBind(t);
      TryPasses(s, t);
      assert p.got[k..][1..] == p.got[k + 1..];
      assert FailsAt(s, a, t, p.got[k..], p.goal.server);
      k' := k + 1;
    }
  }

  lemma {:induction false} LoopStarts(ss: seq<State>, acts: seq<Action>, c: nat, t: Thread)
    requires Exec(ss, acts) && c < |ss| && Inv(ss[c]) && PhaseOf(ss[c], t).Bind?
    ensures Stands(ss, acts, c, c, t, PhaseOf(ss[c], t), 0)
  {
    var p := PhaseOf(ss[c], t);
    assert PhaseOk(ss[c], t, ss[c].threads[t]);
    assert p.got[0..] == p.got;
  }

  lemma {:induction false} LoopStands(ss: seq<State>, acts: seq<Action>, c: nat, n: nat, t: Thread) returns (k: nat)
    requires Exec(ss, acts) && Init(ss[0]) && c <= n < |ss|
    requires forall m :: c <= m <= n ==> PhaseOf(ss[m], t).Bind?
    ensures Stands(ss, acts, c, n, t, PhaseOf(ss[c], t), k)
    decreases n
  {
    if c == n {
      ExecKeepsInv(ss, acts, c);
      LoopStarts(ss, acts, c, t);
      k := 0;
    } else {
      k := LoopStands(ss, acts, c, n - 1, t);
      ExecKeepsInv(ss, acts, n - 1);
      k := LoopStep(ss, acts, c, n - 1, t, PhaseOf(ss[c], t), k);
    }
  }

  lemma {:induction false} OnlyTriesInBind(s: State, a: Action)
    requires Enabled(s, a) && PhaseOf(s, a.t).Bind?
    ensures a.TryBind?
  {
  }

  /** A try that leaves the goroutine in the loop was on a candidate of no use. */
  lemma {:induction false} TryPasses(s: State, t: Thread)
    requires Inv(s) && PhaseOf(s, t).Bind? && Enabled(s, TryBind(t)) && PhaseOf(Apply(s, TryBind(t)), t).Bind?
    ensures var p := PhaseOf(s, t);
            && p.got != [] && !Usable(s, p.got[0], p.goal.server)
            && PhaseOf(Apply(s, TryBind(t)), t) == Bind(p.goal, p.got[1..])
  {
    if PhaseOf(s, t).got != [] {
      BindAnswers(s, t);
    }
  }

  lemma {:induction false} KeepTried(ss: seq<State>, acts: seq<Action>, c: nat, b: nat, n: nat, t: Thread, got: seq<SessionId>, k: nat, server: ServerID)
    requires Exec(ss, acts) && c <= b <= n < |ss| && k <= |got|
    requires forall i :: 0 <= i < k ==> TriedInVain(ss, acts, c, b, t, got, i, server)
    ensures forall i :: 0 <= i < k ==> TriedInVain(ss, acts, c, n, t, got, i, server)
  {
    forall i | 0 <= i < k
      ensures TriedInVain(ss, acts, c, n, t, got, i, server)
    {
      assert TriedInVain(ss, acts, c, b, t, got, i, server);
    }
  }

  /** GetServerByID ends without an answer only when every candidate was of another server, or had left
      the list by its own try with no route to fall back on. */
  lemma {:induction false} NoAnswerMeans(ss: seq<State>, acts: seq<Action>, c: nat, n: nat, t: Thread)
    requires Exec(ss, acts) && Init(ss[0]) && c <= n < |acts| && acts[n] == TryBind(t)
    requires forall m :: c <= m <= n ==> PhaseOf(ss[m], t).Bind?
    requires PhaseOf(ss[n + 1], t) == Free && ss[n + 1].answers == ss[n].answers
    ensures var p := PhaseOf(ss[c], t);
            && p.goal.ForRoute? && PhaseOf(ss[n], t).got == []
            && forall i :: 0 <= i < |p.got| ==> TriedInVain(ss, acts, c, n, t, p.got, i, p.goal.server)
  {
    var k := LoopStands(ss, acts, c, n, t);
    ExecKeepsInv(ss, acts, n);
    if PhaseOf(ss[n], t).got != [] {
      BindAnswers(ss[n], t);
    }
  }

  /** No client could be made for instance number k, or one of the collected sessions is that instance's
      and was of no use when tried. */
  ghost predicate Hopeless(ss: seq<State>, acts: seq<Action>, i: nat, c: nat, n: nat, t: Thread, ids: seq<InstanceID>, k: nat)
    requires Exec(ss, acts) && c <= n < |ss| && k < |ids| && PhaseOf(ss[c], t).Bind? && PhaseOf(ss[c], t).goal.ForRoute?
  {
    var got := PhaseOf(ss[c], t).got;
    || (exists m :: i <= m < c && FailsToMake(ss[m], acts[m], t, ids[k..]))
    || (exists j :: 0 <= j < |got| && got[j] in ss[c].tb.sessions && ss[c].tb.sessions[got[j]].instance == ids[k]
                    && TriedInVain(ss, acts, c, n, t, got, j, PhaseOf(ss[c], t).goal.server))
  }

  /** From discovery to the end: a lookup of a logical server ends without an answer only when for every
      discovered instance no client could be made, or its session was of another server, or it had left
      the list by its own try with no route to fall back on. */
  lemma {:induction false} NothingFound(ss: seq<State>, acts: seq<Action>, i: nat, c: nat, n: nat, t: Thread, goal: Goal, ids: seq<InstanceID>)
    requires Exec(ss, acts) && Init(ss[0]) && i < c <= n < |acts| && PhaseOf(ss[i], t) == Collect(goal, ids, [])
    requires forall m :: i <= m < c ==> PhaseOf(ss[m], t) != Free && !PhaseOf(ss[m], t).Bind?
    requires acts[c - 1] == Collected(t) && (forall m :: c <= m <= n ==> PhaseOf(ss[m], t).Bind?)
    requires acts[n] == TryBind(t) && PhaseOf(ss[n + 1], t) == Free && ss[n + 1].answers == ss[n].answers
    ensures PhaseOf(ss[c], t).goal == goal && goal.ForRoute?
    ensures forall k :: 0 <= k < |ids| ==> Hopeless(ss, acts, i, c, n, t, ids, k)
  {
    var b := c - 1;
    var got := PhaseOf(ss[b], t).got;
    CollectsAll(ss, acts, i, b, t, goal, ids);
    ExecKeepsInv(ss, acts, b);
    CollectedDoes(ss[b], t);
    NoAnswerMeans(ss, acts, c, n, t);
    forall k | 0 <= k < |ids|
      ensures Hopeless(ss, acts, i, c, n, t, ids, k)
    {
      assert Served(ss, acts, i, b, t, ids, got, k);
      if j :| 0 <= j < |got| && got[j] in ss[b].tb.sessions && ss[b].tb.sessions[got[j]].instance == ids[k] {
        SessionsStay(ss[b], acts[b], got[j]);
        assert TriedInVain(ss, acts, c, n, t, got, j, goal.server);
      }
    }
  }

  // ----- the server ids that modules register under

  /** The id a module registers under is its name, a separator and its own id; a lookup of it that has no
      route goes on to discovery if and only if neither part contains the separator, and is refused as
      malformed otherwise. */
  lemma {:induction false} RegisteredIsDiscoverable(o: Lifecycle.Options, s: State, t: Thread, snapshot: seq<Service>, ids: seq<InstanceID>)
    requires PhaseOf(s, t) == Discovering(Lifecycle.ServerId(o))
    ensures var id := Lifecycle.ServerId(o);
            |id| > |o.name| && id[..|o.name|] == o.name && id[|o.name|] == '@' && id[|o.name| + 1..] == o.id
    ensures Enabled(s, Discover(t, snapshot, ids)) <==> '@' !in o.name && '@' !in o.id
  {
    var id, n := Lifecycle.ServerId(o), |o.name|;
    assert id[n] == '@';
    assert forall i :: 0 <= i < n ==> id[i] == o.name[i];
    assert forall i :: 0 <= i < |o.id| ==> id[n + 1 + i] == o.id[i];
    if '@' !in o.name && '@' !in o.id {
      forall j | 0 <= j < |id| && j != n
        ensures id[j] != '@'
      {
        assert j > n ==> id[j] == o.id[j - n - 1];
      }
    } else if '@' in o.name {
      var i :| 0 <= i < n && o.name[i] == '@';
      assert id[i] == '@';
    } else {
      var i :| 0 <= i < |o.id| && o.id[i] == '@';
      assert id[n + 1 + i] == '@';
    }
  }
}
