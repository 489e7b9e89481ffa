/**
 Instance routing (app/app.go): the instance list and the logical routes, changed by concurrent
 lookups and by the deletion watcher.

 A section under `serverListMu`, and a single sync.Map operation outside it, is one action; any
 number of goroutines interleave. Discovery answers, failures to create a session and the choice of
 the goroutine that moves are arguments of the actions.
 */
module Routing {
  import opened Wrappers
  import opened Registry
  import opened Latest
  import opened LatestProofs

  type InstanceID = string
  type ServerID = string
  type SessionId = nat
  type Thread = nat

  /** A client session: the instance and logical server of its node, and how often its RPC client
      was closed. */
  datatype Session = Session(instance: InstanceID, server: ServerID, closes: nat)

  /** Where a session is; history, not program state. */
  datatype Place = Creator(t: Thread) | Listed | Remover(t: Thread) | Closed

  /** What a lookup is for: one instance, a list of them, or the route of a logical server. */
  datatype Goal = ForInstance(id: InstanceID) | ForList | ForRoute(server: ServerID, snapshot: seq<Service>, ids: set<InstanceID>)

  datatype Phase =
    | Free
    | Discovering(server: ServerID)       // GetServerByID found no route
    | Collect(goal: Goal, todo: seq<InstanceID>, got: seq<SessionId>)  // before getServerSession
    | Missed(goal: Goal, todo: seq<InstanceID>, got: seq<SessionId>)   // its Load found nothing
    | Made(goal: Goal, todo: seq<InstanceID>, got: seq<SessionId>, sid: SessionId)
    | Lost(goal: Goal, todo: seq<InstanceID>, got: seq<SessionId>, sid: SessionId, other: SessionId)
    | Bind(goal: Goal, got: seq<SessionId>)  // the loop over the candidates
    | Removing(sid: SessionId)            // Watcher, between unlock and Done

  datatype Answer = ByServer(server: ServerID, instance: InstanceID) | ByInstance(id: InstanceID, instance: InstanceID)

  datatype Tables = Tables(
    serverList: map<InstanceID, SessionId>,
    logicalRoutes: map<ServerID, InstanceID>,
    sessions: map<SessionId, Session>,    // every session ever created
    place: map<SessionId, Place>)

  datatype State = State(
    tb: Tables,
    threads: map<Thread, Phase>,
    answers: seq<Answer>,                 // what lookups returned, in order
    serverOf: InstanceID -> ServerID)     // the fixed logical server of each instance

  datatype Action =
    | Watch(t: Thread, instance: InstanceID)
    | CloseRemoved(t: Thread)
    | AskInstance(t: Thread, id: InstanceID, found: bool)
    | AskList(t: Thread, ids: seq<InstanceID>)
    | AskServer(t: Thread, server: ServerID)
    | Discover(t: Thread, snapshot: seq<Service>, ids: seq<InstanceID>)
    | DiscoverFails(t: Thread)            // malformed id or registry error
    | Load(t: Thread)
    | New(t: Thread, sid: SessionId, ok: bool)
    | LoadOrStore(t: Thread)
    | CloseLoser(t: Thread)
    | Collected(t: Thread)
    | TryBind(t: Thread)

  predicate Init(s: State) {
    s.tb == Tables(map[], map[], map[], map[]) && s.threads == map[] && s.answers == []
  }

  function PhaseOf(s: State, t: Thread): Phase {
    if t in s.threads then s.threads[t] else Free
  }

  function RouteGoal(server: ServerID, snapshot: seq<Service>, ids: seq<InstanceID>): Goal {
    ForRoute(server, snapshot, set i | 0 <= i < |ids| :: ids[i])
  }

  /** strings.Split(id, "@") has two parts. */
  predicate TwoParts(id: string) {
    exists i :: 0 <= i < |id| && id[i] == '@' && forall j :: 0 <= j < |id| && j != i ==> id[j] != '@'
  }

  predicate Enabled(s: State, a: Action) {
    var p := PhaseOf(s, a.t);
    match a
    case Watch(_, _) => p.Free?
    case CloseRemoved(_) => p.Removing?
    case AskInstance(_, _, _) => p.Free?
    case AskList(_, _) => p.Free?
    case AskServer(_, _) => p.Free?
    case Discover(_, _, _) => p.Discovering? && TwoParts(p.server)
    case DiscoverFails(_) => p.Discovering?
    case Load(_) => p.Collect? && p.todo != []
    case New(_, sid, _) => p.Missed? && p.todo != [] && sid !in s.tb.sessions
    case LoadOrStore(_) => p.Made? && p.todo != [] && p.sid in s.tb.sessions
    case CloseLoser(_) => p.Lost? && p.todo != []
    case Collected(_) => p.Collect? && p.todo == []
    case TryBind(_) => p.Bind? && p.goal.ForRoute? && (p.got != [] ==> p.got[0] in s.tb.sessions)
  }

  /** What an action does: the tables after it, where its goroutine goes on, what it returned. */
  datatype Effect = Effect(tb: Tables, next: Phase, said: seq<Answer>)

  function Go(s: State, next: Phase): Effect {
    Effect(s.tb, next, [])
  }

  function Say(s: State, answer: Answer): Effect {
    Effect(s.tb, Free, [answer])
  }

  function CloseSession(tb: Tables, sid: SessionId): Tables {
    if sid !in tb.sessions then tb else
    tb.(sessions := tb.sessions[sid := tb.sessions[sid].(closes := tb.sessions[sid].closes + 1)],
        place := tb.place[sid := Closed])
  }

  function InstanceOf(s: State, sid: SessionId): InstanceID {
    if sid in s.tb.sessions then s.tb.sessions[sid].instance else ""
  }

  predicate RouteHit(s: State, server: ServerID) {
    server in s.tb.logicalRoutes && s.tb.logicalRoutes[server] in s.tb.serverList
  }

  /** The session GetServerByID returns on a hit, by its instance. */
  function RouteAnswer(s: State, server: ServerID): Answer
    requires RouteHit(s, server)
  {
    ByServer(server, InstanceOf(s, s.tb.serverList[s.tb.logicalRoutes[server]]))
  }

  /** The locked section of Watcher. */
  function Unlist(tb: Tables, t: Thread, instance: InstanceID): Tables
    requires instance in tb.serverList
  {
    var sid := tb.serverList[instance];
    var server := if sid in tb.sessions then tb.sessions[sid].server else "";
    tb.(serverList := tb.serverList - {instance},
        logicalRoutes := if server in tb.logicalRoutes && tb.logicalRoutes[server] == instance
                         then tb.logicalRoutes - {server} else tb.logicalRoutes,
        place := tb.place[sid := Remover(t)])
  }

  /** The second locked section of GetServerByID, for the candidate p.got[0]. */
  function BindEffect(s: State, p: Phase): Effect
    requires p.Bind? && p.goal.ForRoute? && p.got != [] && p.got[0] in s.tb.sessions
  {
    var server, instance := p.goal.server, s.tb.sessions[p.got[0]].instance;
    if s.tb.sessions[p.got[0]].server != server then Go(s, Bind(p.goal, p.got[1..]))
    else if RouteHit(s, server) then Say(s, RouteAnswer(s, server))
    else if instance in s.tb.serverList then
      Effect(s.tb.(logicalRoutes := s.tb.logicalRoutes[server := instance]), Free, [ByServer(server, instance)])
    else Go(s, Bind(p.goal, p.got[1..]))
  }

  function EffectOf(s: State, a: Action): Effect
    requires Enabled(s, a)
  {
    var t, p := a.t, PhaseOf(s, a.t);
    match a
    case Watch(_, instance) =>
      if instance in s.tb.serverList
      then Effect(Unlist(s.tb, t, instance), Removing(s.tb.serverList[instance]), []) else Go(s, Free)
    case CloseRemoved(_) => Effect(CloseSession(s.tb, p.sid), Free, [])
    case AskInstance(_, id, found) =>
      if id in s.tb.serverList then Say(s, ByInstance(id, InstanceOf(s, s.tb.serverList[id])))
      else if found then Go(s, Collect(ForInstance(id), [id], [])) else Go(s, Free)
    case AskList(_, ids) => Go(s, Collect(ForList, ids, []))
    case AskServer(_, server) => if RouteHit(s, server) then Say(s, RouteAnswer(s, server)) else Go(s, Discovering(server))
    case Discover(_, snapshot, ids) => Go(s, Collect(RouteGoal(p.server, snapshot, ids), ids, []))
    case DiscoverFails(_) => Go(s, Free)
    case Load(_) =>
      if p.todo[0] in s.tb.serverList
      then Go(s, Collect(p.goal, p.todo[1..], p.got + [s.tb.serverList[p.todo[0]]]))
      else Go(s, Missed(p.goal, p.todo, p.got))
    case New(_, sid, ok) =>
      if ok then
        Effect(s.tb.(sessions := s.tb.sessions[sid := Session(p.todo[0], s.serverOf(p.todo[0]), 0)],
                     place := s.tb.place[sid := Creator(t)]), Made(p.goal, p.todo, p.got, sid), [])
      else if p.goal.ForInstance? then Go(s, Free)
      else Go(s, Collect(p.goal, p.todo[1..], p.got))
    case LoadOrStore(_) =>
      if p.todo[0] in s.tb.serverList
      then Go(s, Lost(p.goal, p.todo, p.got, p.sid, s.tb.serverList[p.todo[0]]))
      else Effect(s.tb.(serverList := s.tb.serverList[p.todo[0] := p.sid], place := s.tb.place[p.sid := Listed]),
                  Collect(p.goal, p.todo[1..], p.got + [p.sid]), [])
    case CloseLoser(_) => Effect(CloseSession(s.tb, p.sid), Collect(p.goal, p.todo[1..], p.got + [p.other]), [])
    case Collected(_) =>
      (match p.goal
       case ForRoute(_, _, _) => Go(s, Bind(p.goal, p.got))
       case ForInstance(id) => if p.got != [] then Say(s, ByInstance(id, InstanceOf(s, p.got[0]))) else Go(s, Free)
       case ForList => Go(s, Free))
    case TryBind(_) => if p.got == [] then Go(s, Free) else BindEffect(s, p)
  }

  function Step(s: State, t: Thread, e: Effect): State {
    State(e.tb, s.threads[t := e.next], s.answers + e.said, s.serverOf)
  }

  function Apply(s: State, a: Action): State
    requires Enabled(s, a)
  {
    Step(s, a.t, EffectOf(s, a))
  }

  // ----- the invariant

  function Holding(p: Phase): Option<SessionId> {
    if p.Made? || p.Lost? || p.Removing? then Some(p.sid) else None
  }

  predicate PlaceOk(s: State, sid: SessionId)
    requires sid in s.tb.sessions
  {
    && sid in s.tb.place
    && s.tb.sessions[sid].closes == (if s.tb.place[sid].Closed? then 1 else 0)
    && s.tb.sessions[sid].server == s.serverOf(s.tb.sessions[sid].instance)
    && match s.tb.place[sid]
       case Creator(t) => t in s.threads && !s.threads[t].Removing? && Holding(s.threads[t]) == Some(sid)
       case Listed => s.tb.sessions[sid].instance in s.tb.serverList && s.tb.serverList[s.tb.sessions[sid].instance] == sid
       case Remover(t) => t in s.threads && s.threads[t] == Removing(sid)
       case Closed => true
  }

  predicate ListOk(s: State) {
    forall i :: i in s.tb.serverList ==>
      && s.tb.serverList[i] in s.tb.sessions && s.tb.serverList[i] in s.tb.place
      && s.tb.sessions[s.tb.serverList[i]].instance == i && s.tb.place[s.tb.serverList[i]] == Listed
  }

  predicate RoutesOk(s: State) {
    forall k :: k in s.tb.logicalRoutes ==> s.tb.logicalRoutes[k] in s.tb.serverList && s.serverOf(s.tb.logicalRoutes[k]) == k
  }

  /** What a goroutine has collected fits what it is collecting for. */
  predicate GoalOk(s: State, goal: Goal, todo: seq<InstanceID>, got: seq<SessionId>) {
    && (forall i :: 0 <= i < |got| ==> got[i] in s.tb.sessions)
    && (goal.ForInstance? ==>
          && (forall i :: 0 <= i < |todo| ==> todo[i] == goal.id)
          && forall i :: 0 <= i < |got| ==> s.tb.sessions[got[i]].instance == goal.id)
    && (goal.ForRoute? ==>
          && (forall i :: 0 <= i < |todo| ==> todo[i] in goal.ids)
          && forall i :: 0 <= i < |got| ==> s.tb.sessions[got[i]].instance in goal.ids)
  }

  predicate PhaseOk(s: State, t: Thread, p: Phase) {
    && (Holding(p).Some? ==>
          && p.sid in s.tb.sessions && p.sid in s.tb.place
          && s.tb.place[p.sid] == if p.Removing? then Remover(t) else Creator(t))
    && (p.Collect? || p.Missed? || p.Made? || p.Lost? ==> GoalOk(s, p.goal, p.todo, p.got))
    && (p.Made? || p.Lost? ==> p.todo != [] && s.tb.sessions[p.sid].instance == p.todo[0])
    && (p.Lost? ==> p.other in s.tb.sessions && s.tb.sessions[p.other].instance == p.todo[0])
    && (p.Missed? ==> p.todo != [])
    && (p.Bind? ==> p.goal.ForRoute? && GoalOk(s, p.goal, [], p.got))
  }

  /** Sessions, list and routes fit together. */
  predicate TablesOk(s: State) {
    && (forall sid :: sid in s.tb.sessions ==> PlaceOk(s, sid))
    && s.tb.place.Keys == s.tb.sessions.Keys
    && ListOk(s) && RoutesOk(s)
  }

  predicate Inv(s: State) {
    && TablesOk(s)
    && forall t :: t in s.threads ==> PhaseOk(s, t, s.threads[t])
  }

  lemma {:induction false} InitInv(s: State)
    requires Init(s)
    ensures Inv(s)
  {
  }

  /** States that agree on who owns what and on all old sessions' identities. */
  ghost predicate Grows(s: State, u: State) {
    && u.serverOf == s.serverOf && s.tb.sessions.Keys <= u.tb.sessions.Keys
    && forall sid :: sid in s.tb.sessions ==> u.tb.sessions[sid].instance == s.tb.sessions[sid].instance
  }

  lemma {:induction false} GoalOkGrows(s: State, u: State, goal: Goal, todo: seq<InstanceID>, got: seq<SessionId>)
    requires Grows(s, u) && GoalOk(s, goal, todo, got)
    ensures GoalOk(u, goal, todo, got)
  {
  }

  /** Another goroutine's phase stays fine when its own session stays where it is. */
  lemma {:induction false} PhaseOkGrows(s: State, u: State, t: Thread, p: Phase)
    requires Grows(s, u) && PhaseOk(s, t, p)
    requires Holding(p).Some? ==> p.sid in u.tb.place && u.tb.place[p.sid] == s.tb.place[p.sid]
    ensures PhaseOk(u, t, p)
  {
    if p.Collect? || p.Missed? || p.Made? || p.Lost? {
      GoalOkGrows(s, u, p.goal, p.todo, p.got);
    }
    if p.Bind? {
      GoalOkGrows(s, u, p.goal, [], p.got);
    }
  }

  /** Whatever goroutine t does to its own session, the others are not disturbed. */
  lemma {:induction false} OtherPhases(s: State, u: State, t: Thread)
    requires Inv(s) && Grows(s, u) && (forall q :: q in u.threads && q != t ==> q in s.threads && u.threads[q] == s.threads[q])
    requires forall sid :: sid in s.tb.place && (s.tb.place[sid].Creator? || s.tb.place[sid].Remover?) && s.tb.place[sid].t != t ==>
               sid in u.tb.place && u.tb.place[sid] == s.tb.place[sid]
    ensures forall q :: q in u.threads && q != t ==> PhaseOk(u, q, u.threads[q])
  {
    forall q | q in u.threads && q != t
      ensures PhaseOk(u, q, u.threads[q])
    {
      PhaseOkGrows(s, u, q, u.threads[q]);
    }
  }

  /** A step that leaves sessions and list alone and whose goroutine keeps holding what it held. */
  lemma {:induction false} LocalStep(s: State, t: Thread, e: Effect)
    requires Inv(s) && e.tb == s.tb.(logicalRoutes := e.tb.logicalRoutes)
    requires PhaseOk(Step(s, t, e), t, e.next) && RoutesOk(Step(s, t, e))
    requires Holding(e.next) == Holding(PhaseOf(s, t)) && e.next.Removing? == PhaseOf(s, t).Removing?
    ensures Inv(Step(s, t, e))
  {
    var u := Step(s, t, e);
    forall sid | sid in u.tb.sessions
      ensures PlaceOk(u, sid)
    {
      assert PlaceOk(s, sid);
    }
    OtherPhases(s, u, t);
  }

  /** A step that does change them, once the tables are known to be fine. */
  lemma {:induction false} TableStep(s: State, t: Thread, e: Effect)
    requires Inv(s) && Grows(s, Step(s, t, e)) && TablesOk(Step(s, t, e)) && PhaseOk(Step(s, t, e), t, e.next)
    requires forall sid :: sid in s.tb.place && (s.tb.place[sid].Creator? || s.tb.place[sid].Remover?) && s.tb.place[sid].t != t ==>
               sid in e.tb.place && e.tb.place[sid] == s.tb.place[sid]
    ensures Inv(Step(s, t, e))
  {
    OtherPhases(s, Step(s, t, e), t);
  }

  lemma {:induction false} AskKeepsInv(s: State, a: Action)
    requires Inv(s) && Enabled(s, a)
    requires a.AskInstance? || a.AskList? || a.AskServer? || a.Discover? || a.DiscoverFails?
    ensures Inv(Apply(s, a))
  {
    LocalStep(s, a.t, EffectOf(s, a));
  }

  lemma {:induction false} CollectedKeepsInv(s: State, t: Thread)
    requires Inv(s) && Enabled(s, Collected(t))
    ensures Inv(Apply(s, Collected(t)))
  {
    GoalOkGrows(s, Apply(s, Collected(t)), PhaseOf(s, t).goal, [], PhaseOf(s, t).got);
    LocalStep(s, t, EffectOf(s, Collected(t)));
  }

  lemma {:induction false} LoadKeepsInv(s: State, t: Thread)
    requires Inv(s) && Enabled(s, Load(t))
    ensures Inv(Apply(s, Load(t)))
  {
    var u := Apply(s, Load(t));
    var p := PhaseOf(s, t);
    if p.todo[0] in s.tb.serverList {
      assert GoalOk(u, p.goal, p.todo[1..], p.got + [s.tb.serverList[p.todo[0]]]);
    } else {
      GoalOkGrows(s, u, p.goal, p.todo, p.got);
    }
    LocalStep(s, t, EffectOf(s, Load(t)));
  }

  lemma {:induction false} WatchTables(s: State, t: Thread, instance: InstanceID)
    requires Inv(s) && PhaseOf(s, t).Free? && instance in s.tb.serverList
    ensures TablesOk(Apply(s, Watch(t, instance)))
  {
    var u := Apply(s, Watch(t, instance));
    assert PlaceOk(s, s.tb.serverList[instance]);
    forall sid | sid in u.tb.sessions
      ensures PlaceOk(u, sid)
    {
      assert PlaceOk(s, sid);
    }
  }

  lemma {:induction false} WatchKeepsInv(s: State, t: Thread, instance: InstanceID)
    requires Inv(s) && PhaseOf(s, t).Free?
    ensures Inv(Apply(s, Watch(t, instance)))
  {
    if instance in s.tb.serverList {
      WatchTables(s, t, instance);
      TableStep(s, t, EffectOf(s, Watch(t, instance)));
    } else {
      LocalStep(s, t, EffectOf(s, Watch(t, instance)));
    }
  }

  lemma {:induction false} CloseTables(s: State, t: Thread, next: Phase)
    requires Inv(s) && Holding(PhaseOf(s, t)).Some? && Holding(next).None?
    ensures TablesOk(Step(s, t, Effect(CloseSession(s.tb, PhaseOf(s, t).sid), next, [])))
  {
    var mine := PhaseOf(s, t).sid;
    var u := Step(s, t, Effect(CloseSession(s.tb, mine), next, []));
    assert PlaceOk(s, mine);
    forall sid | sid in u.tb.sessions
      ensures PlaceOk(u, sid)
    {
      assert PlaceOk(s, sid);
    }
  }

  lemma {:induction false} CloseKeepsInv(s: State, t: Thread, next: Phase)
    requires Inv(s) && Holding(PhaseOf(s, t)).Some? && Holding(next).None? && PhaseOk(s, t, next)
    ensures Inv(Step(s, t, Effect(CloseSession(s.tb, PhaseOf(s, t).sid), next, [])))
  {
    var e := Effect(CloseSession(s.tb, PhaseOf(s, t).sid), next, []);
    CloseTables(s, t, next);
    PhaseOkGrows(s, Step(s, t, e), t, next);
    TableStep(s, t, e);
  }

  lemma {:induction false} NewFailsKeepsInv(s: State, t: Thread, sid: SessionId)
    requires Inv(s) && Enabled(s, New(t, sid, false))
    ensures Inv(Apply(s, New(t, sid, false)))
  {
    var u := Apply(s, New(t, sid, false));
    var p := PhaseOf(s, t);
    GoalOkGrows(s, u, p.goal, p.todo[1..], p.got);
    LocalStep(s, t, EffectOf(s, New(t, sid, false)));
  }

  lemma {:induction false} NewTables(s: State, t: Thread, made: SessionId)
    requires Inv(s) && Enabled(s, New(t, made, true))
    ensures TablesOk(Apply(s, New(t, made, true)))
  {
    var u := Apply(s, New(t, made, true));
    forall sid | sid in u.tb.sessions
      ensures PlaceOk(u, sid)
    {
      assert sid in s.tb.sessions ==> PlaceOk(s, sid);
    }
  }

  lemma {:induction false} NewKeepsInv(s: State, t: Thread, made: SessionId)
    requires Inv(s) && Enabled(s, New(t, made, true))
    ensures Inv(Apply(s, New(t, made, true)))
  {
    var p := PhaseOf(s, t);
    NewTables(s, t, made);
    GoalOkGrows(s, Apply(s, New(t, made, true)), p.goal, p.todo, p.got);
    TableStep(s, t, EffectOf(s, New(t, made, true)));
  }

  lemma {:induction false} StoreTables(s: State, t: Thread)
    requires Inv(s) && Enabled(s, LoadOrStore(t)) && PhaseOf(s, t).todo[0] !in s.tb.serverList
    ensures TablesOk(Apply(s, LoadOrStore(t)))
  {
    var u := Apply(s, LoadOrStore(t));
    assert PlaceOk(s, PhaseOf(s, t).sid);
    forall sid | sid in u.tb.sessions
      ensures PlaceOk(u, sid)
    {
      assert PlaceOk(s, sid);
    }
  }

  lemma {:induction false} StoreKeepsInv(s: State, t: Thread)
    requires Inv(s) && Enabled(s, LoadOrStore(t))
    ensures Inv(Apply(s, LoadOrStore(t)))
  {
    var u, e := Apply(s, LoadOrStore(t)), EffectOf(s, LoadOrStore(t));
    var p := PhaseOf(s, t);
    if p.todo[0] in s.tb.serverList {
      GoalOkGrows(s, u, p.goal, p.todo, p.got);
      LocalStep(s, t, e);
    } else {
      StoreTables(s, t);
      assert GoalOk(u, p.goal, p.todo[1..], p.got + [p.sid]);
      TableStep(s, t, e);
    }
  }

  lemma {:induction false} BindKeepsInv(s: State, t: Thread)
    requires Inv(s) && Enabled(s, TryBind(t))
    ensures Inv(Apply(s, TryBind(t)))
  {
    var u, e := Apply(s, TryBind(t)), EffectOf(s, TryBind(t));
    var p := PhaseOf(s, t);
    if p.got != [] {
      assert PlaceOk(s, p.got[0]);
      GoalOkGrows(s, u, p.goal, [], p.got[1..]);
    }
    LocalStep(s, t, e);
  }

  /** Every action of every goroutine keeps the invariant. */
  lemma {:induction false} ActionKeepsInv(s: State, a: Action)
    requires Inv(s) && Enabled(s, a)
    ensures Inv(Apply(s, a))
  {
    var p := PhaseOf(s, a.t);
    match a
    case Watch(t, instance) => WatchKeepsInv(s, t, instance);
    case CloseRemoved(t) => CloseKeepsInv(s, t, Free);
    case Load(t) => LoadKeepsInv(s, t);
    case New(t, sid, ok) => if ok { NewKeepsInv(s, t, sid); } else { NewFailsKeepsInv(s, t, sid); }
    case LoadOrStore(t) => StoreKeepsInv(s, t);
    case CloseLoser(t) => CloseKeepsInv(s, t, Collect(p.goal, p.todo[1..], p.got + [p.other]));
    case TryBind(t) => BindKeepsInv(s, t);
    case Collected(t) => CollectedKeepsInv(s, t);
    case _ => AskKeepsInv(s, a);
  }

  // ----- runs

  ghost predicate Exec(ss: seq<State>, acts: seq<Action>) {
    && |ss| == |acts| + 1
    && forall i :: 0 <= i < |acts| ==> Enabled(ss[i], acts[i]) && ss[i + 1] == Apply(ss[i], acts[i])
  }

  lemma {:induction false} ExecKeepsInv(ss: seq<State>, acts: seq<Action>, i: nat)
    requires Exec(ss, acts) && Init(ss[0]) && i < |ss|
    ensures Inv(ss[i])
  {
    if i == 0 {
      InitInv(ss[0]);
    } else {
      ExecKeepsInv(ss, acts, i - 1);
      ActionKeepsInv(ss[i - 1], acts[i - 1]);
    }
  }

  predicate IsListed(s: State, sid: SessionId) {
    exists i :: i in s.tb.serverList && s.tb.serverList[i] == sid
  }

  predicate Holds(s: State, t: Thread, sid: SessionId) {
    t in s.threads && Holding(s.threads[t]) == Some(sid)
  }

  /** In every reachable state each session ever created is in exactly one place: in the list under
      its own instance, held by exactly one goroutine (its creator or its remover), or closed, once. */
  lemma {:induction false} SessionInOnePlace(ss: seq<State>, acts: seq<Action>, n: nat, sid: SessionId)
    requires Exec(ss, acts) && Init(ss[0]) && n < |ss| && sid in ss[n].tb.sessions
    ensures var s := ss[n];
            && s.tb.sessions[sid].closes <= 1
            && (IsListed(s, sid) || (exists t :: Holds(s, t, sid)) || s.tb.sessions[sid].closes == 1)
            && (forall t :: Holds(s, t, sid) ==> !IsListed(s, sid) && s.tb.sessions[sid].closes == 0)
            && (forall t, q :: Holds(s, t, sid) && Holds(s, q, sid) ==> t == q)
            && (IsListed(s, sid) ==> s.tb.sessions[sid].closes == 0)
            && (forall i :: i in s.tb.serverList && s.tb.serverList[i] == sid ==> s.tb.sessions[sid].instance == i)
  {
    ExecKeepsInv(ss, acts, n);
    var s := ss[n];
    assert PlaceOk(s, sid);
    match s.tb.place[sid]
    case Creator(t) => assert Holds(s, t, sid);
    case Remover(t) => assert Holds(s, t, sid);
    case Listed => assert IsListed(s, sid);
    case Closed =>
  }

  /** Once no lookup or removal is under way, every session is listed or closed: all losers of a
      LoadOrStore race are closed and one session per instance is left. */
  lemma {:induction false} LosersAreClosed(ss: seq<State>, acts: seq<Action>, n: nat)
    requires Exec(ss, acts) && Init(ss[0]) && n < |ss|
    requires forall t :: t in ss[n].threads ==> Holding(ss[n].threads[t]).None?
    ensures forall sid :: sid in ss[n].tb.sessions ==>
              var c := ss[n].tb.sessions[sid];
              c.closes == if c.instance in ss[n].tb.serverList && ss[n].tb.serverList[c.instance] == sid then 0 else 1
  {
    ExecKeepsInv(ss, acts, n);
    forall sid | sid in ss[n].tb.sessions
      ensures var c := ss[n].tb.sessions[sid];
              c.closes == if c.instance in ss[n].tb.serverList && ss[n].tb.serverList[c.instance] == sid then 0 else 1
    {
      assert PlaceOk(ss[n], sid);
    }
  }

  /** No dangling route: it points at a listed instance of the server it is for. */
  lemma {:induction false} RoutesNeverDangle(ss: seq<State>, acts: seq<Action>, n: nat, k: ServerID)
    requires Exec(ss, acts) && Init(ss[0]) && n < |ss| && k in ss[n].tb.logicalRoutes
    ensures var s := ss[n];
            && s.tb.logicalRoutes[k] in s.tb.serverList && s.tb.serverList[s.tb.logicalRoutes[k]] in s.tb.sessions
            && s.tb.sessions[s.tb.serverList[s.tb.logicalRoutes[k]]].server == k
  {
    ExecKeepsInv(ss, acts, n);
    assert PlaceOk(ss[n], ss[n].tb.serverList[ss[n].tb.logicalRoutes[k]]);
  }

  /** A route is changed or dropped only by the watcher removing the instance it points at. */
  lemma {:induction false} RouteStep(s: State, a: Action, k: ServerID)
    requires RoutesOk(s) && Enabled(s, a) && k in s.tb.logicalRoutes && !(a.Watch? && a.instance == s.tb.logicalRoutes[k])
    ensures k in Apply(s, a).tb.logicalRoutes && Apply(s, a).tb.logicalRoutes[k] == s.tb.logicalRoutes[k]
  {
  }

  lemma {:induction false} RouteIsSticky(ss: seq<State>, acts: seq<Action>, i: nat, j: nat, k: ServerID)
    requires Exec(ss, acts) && Init(ss[0]) && i <= j < |ss| && k in ss[i].tb.logicalRoutes
    requires forall n :: i <= n < j ==> !(acts[n].Watch? && acts[n].instance == ss[i].tb.logicalRoutes[k])
    ensures k in ss[j].tb.logicalRoutes && ss[j].tb.logicalRoutes[k] == ss[i].tb.logicalRoutes[k]
    decreases j
  {
    if i < j {
      RouteIsSticky(ss, acts, i, j - 1, k);
      ExecKeepsInv(ss, acts, j - 1);
      RouteStep(ss[j - 1], acts[j - 1], k);
    }
  }

  /** The answer an action gives, if it gives one. */
  ghost predicate Gives(s: State, a: Action, answer: Answer)
    requires Enabled(s, a)
  {
    Apply(s, a).answers == s.answers + [answer]
  }

  /** A lookup by logical id answers with what the route then is; a lookup by instance answers with
      that instance and no other. */
  lemma {:induction false} AnswerIsRoute(s: State, a: Action, answer: Answer)
    requires Inv(s) && Enabled(s, a) && Gives(s, a, answer)
    ensures match answer
            case ByServer(k, instance) =>
              var u := Apply(s, a);
              k in u.tb.logicalRoutes && u.tb.logicalRoutes[k] == instance && instance in u.tb.serverList && s.serverOf(instance) == k
            case ByInstance(id, instance) => instance == id
  {
    var u := Apply(s, a);
    assert u.answers[|s.answers|] == answer && |u.answers| == |s.answers| + 1;
    if a.TryBind? {
      assert PlaceOk(s, PhaseOf(s, a.t).got[0]);
    }
  }

  /** GetServerByID is sticky over all interleavings: two lookups of one logical server answer with
      different instances only if the first one was removed in between. */
  lemma {:induction false} LookupIsSticky(ss: seq<State>, acts: seq<Action>, i: nat, j: nat, k: ServerID, first: InstanceID, second: InstanceID)
    requires Exec(ss, acts) && Init(ss[0]) && i < j < |acts|
    requires Gives(ss[i], acts[i], ByServer(k, first)) && Gives(ss[j], acts[j], ByServer(k, second))
    ensures first != second ==> exists n :: i < n <= j && acts[n].Watch? && acts[n].instance == first
  {
    ExecKeepsInv(ss, acts, i);
    ExecKeepsInv(ss, acts, j);
    AnswerIsRoute(ss[i], acts[i], ByServer(k, first));
    AnswerIsRoute(ss[j], acts[j], ByServer(k, second));
    if forall n :: i < n <= j ==> !(acts[n].Watch? && acts[n].instance == first) {
      RouteIsSticky(ss, acts, i + 1, j + 1, k);
    }
  }

  // ----- the first binding is the latest instance

  predicate HasGoal(p: Phase) {
    p.Collect? || p.Missed? || p.Made? || p.Lost? || p.Bind?
  }

  lemma {:induction false} OthersStay(s: State, a: Action, t: Thread)
    requires Enabled(s, a) && t != a.t
    ensures PhaseOf(Apply(s, a), t) == PhaseOf(s, t)
  {
  }

  lemma {:induction false} DiscoverGoal(s: State, a: Action)
    requires Enabled(s, a) && a.Discover?
    ensures PhaseOf(Apply(s, a), a.t).Collect? && PhaseOf(s, a.t).server != ""
    ensures PhaseOf(Apply(s, a), a.t).goal == RouteGoal(PhaseOf(s, a.t).server, a.snapshot, a.ids)
  {
  }

  lemma {:induction false} AskGoal(s: State, a: Action)
    requires Enabled(s, a) && (a.AskInstance? || a.AskList? || a.AskServer? || a.Watch? || a.CloseRemoved? || a.DiscoverFails?)
    requires HasGoal(PhaseOf(Apply(s, a), a.t))
    ensures !PhaseOf(Apply(s, a), a.t).goal.ForRoute?
  {
  }

  lemma {:induction false} CollectGoal(s: State, a: Action)
    requires Enabled(s, a) && (a.Load? || a.New? || a.LoadOrStore? || a.CloseLoser? || a.Collected? || a.TryBind?)
    requires HasGoal(PhaseOf(Apply(s, a), a.t))
    ensures HasGoal(PhaseOf(s, a.t)) && PhaseOf(s, a.t).goal == PhaseOf(Apply(s, a), a.t).goal
  {
  }

  lemma {:induction false} GoalWasDiscovered(ss: seq<State>, acts: seq<Action>, n: nat, t: Thread) returns (m: nat)
    requires Exec(ss, acts) && Init(ss[0]) && n < |ss|
    requires HasGoal(PhaseOf(ss[n], t)) && PhaseOf(ss[n], t).goal.ForRoute?
    ensures var goal := PhaseOf(ss[n], t).goal;
            m < n && acts[m].Discover? && goal.server != "" && goal == RouteGoal(goal.server, acts[m].snapshot, acts[m].ids)
    decreases n
  {
    m := n - 1;
    var s, a := ss[m], acts[m];
    if t != a.t {
      OthersStay(s, a, t);
      m := GoalWasDiscovered(ss, acts, n - 1, t);
    } else if a.Discover? {
      DiscoverGoal(s, a);
    } else if a.AskInstance? || a.AskList? || a.AskServer? || a.Watch? || a.CloseRemoved? || a.DiscoverFails? {
      AskGoal(s, a);
    } else {
      CollectGoal(s, a);
      m := GoalWasDiscovered(ss, acts, n - 1, t);
    }
  }

  /** The instances LatestServices leaves of a snapshot, in order. */
  ghost predicate IsCandidates(ids: seq<InstanceID>, snapshot: seq<Service>) {
    var out := Flat(LatestOf(snapshot));
    |ids| == |out| && forall i :: 0 <= i < |ids| ==> ids[i] == out[i].node.instanceID
  }

  /** A discovery answer lists services of one name, whose nodes carry the ServerID of their instance;
      the lookup goes through what LatestServices leaves of it. */
  ghost predicate DiscoveryOk(serverOf: InstanceID -> ServerID, snapshot: seq<Service>, ids: seq<InstanceID>) {
    && IsCandidates(ids, snapshot)
    && (forall i, j :: 0 <= i < |snapshot| && 0 <= j < |snapshot| ==> snapshot[i].name == snapshot[j].name)
    && forall i :: 0 <= i < |Flat(snapshot)| ==>
         Flat(snapshot)[i].node.serverID == serverOf(Flat(snapshot)[i].node.instanceID)
  }

  /** A candidate of a snapshot with the wanted logical id exceeds all instances of that id. */
  lemma {:induction false} CandidateIsLatest(serverOf: InstanceID -> ServerID, snapshot: seq<Service>, ids: seq<InstanceID>, q: nat, i: nat)
    requires DiscoveryOk(serverOf, snapshot, ids) && q < |ids| && serverOf(ids[q]) != ""
    requires i < |Flat(snapshot)| && Flat(snapshot)[i].node.serverID == serverOf(ids[q])
    ensures NodeLe(Flat(snapshot)[i].node, Flat(LatestOf(snapshot))[q].node)
  {
    var flat := Flat(snapshot);
    LatestListing(snapshot);
    SourcesExact(flat, Flags(flat), |flat|);
    var w := Sources(Flags(flat), |flat|)[q];
    assert flat[w] == Flat(LatestOf(snapshot))[q];
    FlatName(snapshot, |snapshot|, w);
    FlatName(snapshot, |snapshot|, i);
    LatestIsMaximal(snapshot, q, i);
  }

  lemma {:induction false} FlatName(ss: seq<Service>, k: nat, i: nat)
    requires 0 < k <= |ss| && i < Offset(ss, k)
    requires forall a, b :: 0 <= a < |ss| && 0 <= b < |ss| ==> ss[a].name == ss[b].name
    ensures FlatTo(ss, k)[i].name == ss[0].name
  {
    if i < Offset(ss, k - 1) {
      FlatName(ss, k - 1, i);
    } else {
      assert FlatTo(ss, k)[i] == ItemOf(ss[k - 1], i - Offset(ss, k - 1));
    }
  }

  /** Only the second locked section of GetServerByID sets a route, to its candidate's instance. */
  lemma {:induction false} OnlyTryBindBinds(s: State, a: Action, k: ServerID)
    requires Inv(s) && Enabled(s, a) && k in Apply(s, a).tb.logicalRoutes
    requires !(k in s.tb.logicalRoutes && s.tb.logicalRoutes[k] == Apply(s, a).tb.logicalRoutes[k])
    ensures a.TryBind? && a.t in s.threads && s.threads[a.t].Bind?
    ensures var p := s.threads[a.t];
            && p.goal.ForRoute? && p.goal.server == k
            && Apply(s, a).tb.logicalRoutes[k] in p.goal.ids && s.serverOf(Apply(s, a).tb.logicalRoutes[k]) == k
  {
    assert a.TryBind?;
    assert PhaseOk(s, a.t, s.threads[a.t]);
    assert PlaceOk(s, s.threads[a.t].got[0]);
  }

  /** Whenever an action binds a route anew, the bound instance was found by an earlier discovery m: it
      is a node of that snapshot with that logical server, and among all of those it has maximal
      (StartedAt, InstanceID). */
  lemma {:induction false} FirstBindingIsLatest(ss: seq<State>, acts: seq<Action>, n: nat, k: ServerID) returns (m: nat, best: Item)
    requires Exec(ss, acts) && Init(ss[0]) && n < |acts| && k in ss[n + 1].tb.logicalRoutes
    requires !(k in ss[n].tb.logicalRoutes && ss[n].tb.logicalRoutes[k] == ss[n + 1].tb.logicalRoutes[k])
    requires forall i :: 0 <= i < |acts| && acts[i].Discover? ==> DiscoveryOk(ss[n].serverOf, acts[i].snapshot, acts[i].ids)
    ensures m < n && acts[m].Discover?
    ensures best in Flat(acts[m].snapshot) && best.node.serverID == k
    ensures best.node.instanceID == ss[n + 1].tb.logicalRoutes[k]
    ensures forall x :: x in Flat(acts[m].snapshot) && x.node.serverID == k ==> NodeLe(x.node, best.node)
  {
    var s := ss[n];
    assert Inv(s) by { ExecKeepsInv(ss, acts, n); }
    OnlyTryBindBinds(s, acts[n], k);
    assert PhaseOf(s, acts[n].t) == s.threads[acts[n].t];
    m := GoalWasDiscovered(ss, acts, n, acts[n].t);
    var snapshot, ids := acts[m].snapshot, acts[m].ids;
    var q :| 0 <= q < |ids| && ids[q] == ss[n + 1].tb.logicalRoutes[k];
    best := Flat(LatestOf(snapshot))[q];
    var w := SourceOf(snapshot, q);
    assert Flat(snapshot)[w] == best;
    forall i | 0 <= i < |Flat(snapshot)| && Flat(snapshot)[i].node.serverID == k
      ensures NodeLe(Flat(snapshot)[i].node, best.node)
    {
      CandidateIsLatest(s.serverOf, snapshot, ids, q, i);
    }
  }
}
