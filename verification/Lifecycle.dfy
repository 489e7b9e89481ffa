/**
 The life of one module's service (service/service.go, module/base/base_module.go,
 server/rpc_server.go): the renewal loop, the goroutine that waits for cancellation, and the module
 manager that starts and destroys the module, as interleaved steps.

 A tick of the renewal ticker is an action that may come at any time. Whether the address can be
 extracted and what the registry and the start hooks answer are arguments. Stop hooks are left out: no
 branch depends on them.
 */
module Lifecycle {
  import opened Wrappers

  datatype Outcome = NoAddress | Refused | Done

  datatype Event =
    | Register(instance: string, startedAt: int, server: string, outcome: Outcome)
    | Deregister(instance: string, outcome: Outcome)
    | Close                    // of the underlying RPC server

  datatype Options = Options(name: string, id: string)

  /** rpcServer; `open` says that the server field is not nil. */
  datatype Server = Server(instance: string, startedAt: int, opts: Options, registered: bool, open: bool, log: seq<Event>)

  datatype MainPc = Before | Up | Crashed | AwaitService | Closing | Gone

  datatype WaiterPc = Unborn | Spawn | AwaitCancel | CloseExit | AwaitRunner | Deregistering | StopServer | CloseStopped | Finished

  datatype RunnerPc = NoRunner | Entry | Select | Registering | Leaving | Ended

  datatype State = State(
    server: Server,
    started: bool,             // BaseModule.serviceStarted
    cancelled: bool,           // the service's context
    serviceStopped: bool,      // the channel is closed
    exit: bool,                // closed, by Wait
    stopped: bool,             // closed, by the renewal goroutine
    renews: bool,              // RegisterInterval > 0
    main: MainPc,
    waiter: WaiterPc,
    runner: RunnerPc)

  datatype Action =
    | Reconfigure(opts: Options)
    | OnReady(before: bool, outcome: Outcome, after: bool)
    | DestroyCancel
    | DestroyAwait
    | DestroyClose
    | WaiterStep
    | WaiterDeregister(outcome: Outcome)
    | Tick
    | RunnerRegister(outcome: Outcome)
    | RunnerStep

  // ----- the server's methods

  function ServerId(o: Options): string {
    o.name + "@" + o.id
  }

  /** newRPCServer: an instance id below the server id, both fixed from here on. */
  function NewServer(opts: Options, unique: string, startedAt: int): Server {
    Server(ServerId(opts) + "#" + unique, startedAt, opts, false, true, [])
  }

  function Registered(s: Server, outcome: Outcome): Server {
    s.(log := s.log + [Register(s.instance, s.startedAt, ServerId(s.opts), outcome)],
       registered := s.registered || outcome == Done)
  }

  function Deregistered(s: Server, outcome: Outcome): Server {
    s.(log := s.log + [Deregister(s.instance, outcome)], registered := s.registered && outcome != Done)
  }

  function Stopped(s: Server): Server {
    if s.open then s.(log := s.log + [Close], open := false) else s
  }

  // ----- the steps

  predicate Init(s: State) {
    && s.server.open && !s.server.registered && s.server.log == []
    && !s.started && !s.cancelled && !s.serviceStopped && !s.exit && !s.stopped
    && s.main == Before && s.waiter == Unborn && s.runner == NoRunner
  }

  function ReadyEffect(s: State, before: bool, outcome: Outcome, after: bool): State {
    if !before then s.(main := Crashed)
    else if outcome != Done || !after then s.(main := Crashed, server := Registered(s.server, outcome))
    else s.(main := Up, started := true, server := Registered(s.server, outcome), waiter := Spawn)
  }

  predicate WaiterEnabled(s: State) {
    match s.waiter
    case Unborn => false
    case AwaitCancel => s.cancelled
    case AwaitRunner => s.stopped
    case Deregistering => false
    case Finished => false
    case _ => true
  }

  function WaiterEffect(s: State): State
    requires WaiterEnabled(s)
  {
    match s.waiter
    case Spawn => s.(runner := Entry, waiter := AwaitCancel)
    case AwaitCancel => s.(waiter := CloseExit)
    case CloseExit => s.(exit := true, waiter := AwaitRunner)
    case AwaitRunner => s.(waiter := Deregistering)
    case StopServer => s.(server := Stopped(s.server), waiter := CloseStopped)
    case CloseStopped => s.(serviceStopped := true, waiter := Finished)
  }

  predicate RunnerEnabled(s: State) {
    s.runner == Entry || (s.runner == Select && s.exit) || s.runner == Leaving
  }

  function RunnerEffect(s: State): State
    requires RunnerEnabled(s)
  {
    match s.runner
    case Entry => s.(runner := if s.renews then Select else Leaving)
    case Select => s.(runner := Leaving)
    case Leaving => s.(stopped := true, runner := Ended)
  }

  predicate Enabled(s: State, a: Action) {
    match a
    case Reconfigure(_) => true
    case OnReady(_, _, _) => s.main == Before
    case DestroyCancel => s.main in {Before, Up, Crashed, Gone}
    case DestroyAwait => s.main == AwaitService && s.serviceStopped
    case DestroyClose => s.main == Closing
    case WaiterStep => WaiterEnabled(s)
    case WaiterDeregister(_) => s.waiter == Deregistering
    case Tick => s.runner == Select
    case RunnerRegister(_) => s.runner == Registering
    case RunnerStep => RunnerEnabled(s)
  }

  function Apply(s: State, a: Action): State
    requires Enabled(s, a)
  {
    match a
    case Reconfigure(opts) => s.(server := s.server.(opts := opts))
    case OnReady(before, outcome, after) => ReadyEffect(s, before, outcome, after)
    case DestroyCancel => s.(cancelled := true, main := if s.started then AwaitService else Closing)
    case DestroyAwait => s.(main := Closing)
    case DestroyClose => s.(server := Stopped(s.server), main := Gone)
    case WaiterStep => WaiterEffect(s)
    case WaiterDeregister(outcome) =>
      s.(server := Deregistered(s.server, outcome), waiter := if outcome == Done then StopServer else CloseStopped)
    case Tick => s.(runner := Registering)
    case RunnerRegister(outcome) => s.(server := Registered(s.server, outcome), runner := Select)
    case RunnerStep => RunnerEffect(s)
  }

  // ----- what every step keeps

  predicate Deregisters(log: seq<Event>) {
    exists i :: 0 <= i < |log| && log[i].Deregister?
  }

  predicate Closes(log: seq<Event>) {
    exists i :: 0 <= i < |log| && log[i].Close?
  }

  /** No registration comes after a deregistration. */
  predicate NoLateRegister(log: seq<Event>) {
    forall i, j :: 0 <= i < j < |log| && log[i].Deregister? ==> !log[j].Register?
  }

  predicate ClosedOnce(log: seq<Event>) {
    forall i, j :: 0 <= i < j < |log| && log[i].Close? ==> !log[j].Close?
  }

  /** Every close comes after an attempt to deregister. */
  predicate CloseAfterDeregister(log: seq<Event>) {
    forall j :: 0 <= j < |log| && log[j].Close? ==> Deregisters(log[..j])
  }

  /** Every event carries the identity that the server got when it was made. */
  predicate SameIdentity(log: seq<Event>, instance: string, startedAt: int) {
    && (forall i :: 0 <= i < |log| && log[i].Register? ==> log[i].instance == instance && log[i].startedAt == startedAt)
    && (forall i :: 0 <= i < |log| && log[i].Deregister? ==> log[i].instance == instance)
  }

  predicate LogOk(v: Server, started: bool) {
    && NoLateRegister(v.log) && ClosedOnce(v.log) && SameIdentity(v.log, v.instance, v.startedAt)
    && (v.open <==> !Closes(v.log))
    && (started ==> CloseAfterDeregister(v.log))
  }

  predicate Control(s: State) {
    && (s.started <==> s.waiter != Unborn)
    && (s.main in {Before, Up, Crashed} ==> !s.cancelled)
    && (s.main == Before ==> !s.started) && (s.main == Crashed ==> !s.started) && (s.main == Up ==> s.started)
    && (s.waiter in {Unborn, Spawn} <==> s.runner == NoRunner)
    && (s.waiter in {Deregistering, StopServer, CloseStopped, Finished} ==> s.runner == Ended)
    && (s.stopped <==> s.runner == Ended)
    && (s.waiter !in {Unborn, Spawn, AwaitCancel} ==> s.cancelled)
    && (s.exit <==> s.waiter in {AwaitRunner, Deregistering, StopServer, CloseStopped, Finished})
    && (s.serviceStopped <==> s.waiter == Finished)
    && (s.main in {Closing, Gone} && s.started ==> s.serviceStopped)
    && (s.main in {AwaitService, Closing, Gone} ==> s.cancelled)
    && (s.main == AwaitService ==> s.started)
  }

  predicate Inv(s: State) {
    && Control(s) && LogOk(s.server, s.started)
    && (Deregisters(s.server.log) <==> s.waiter in {StopServer, CloseStopped, Finished})
    && (s.main == Gone ==> !s.server.open)
    && (!s.started && s.main in {Before, Up, Crashed} ==> s.server.open)
  }

  lemma {:induction false} Appended(log: seq<Event>, e: Event)
    ensures Deregisters(log + [e]) <==> Deregisters(log) || e.Deregister?
    ensures Closes(log + [e]) <==> Closes(log) || e.Close?
    ensures NoLateRegister(log + [e]) <==> NoLateRegister(log) && !(Deregisters(log) && e.Register?)
    ensures ClosedOnce(log + [e]) <==> ClosedOnce(log) && !(Closes(log) && e.Close?)
    ensures CloseAfterDeregister(log + [e]) <==> CloseAfterDeregister(log) && (e.Close? ==> Deregisters(log))
  {
    var r := log + [e];
    assert r[|log|] == e && r[..|log|] == log;
    assert forall i :: 0 <= i < |log| ==> r[i] == log[i] && r[..i] == log[..i];
  }

  lemma {:induction false} IdentityAppended(log: seq<Event>, e: Event, instance: string, startedAt: int)
    requires SameIdentity(log, instance, startedAt) && SameIdentity([e], instance, startedAt)
    ensures SameIdentity(log + [e], instance, startedAt)
  {
    assert [e][0] == e;
  }

  lemma {:induction false} InitHolds(s: State)
    requires Init(s)
    ensures Inv(s)
  {
  }

  lemma {:induction false} RegisterKeepsLog(v: Server, started: bool, outcome: Outcome)
    requires LogOk(v, started) && !Deregisters(v.log)
    ensures LogOk(Registered(v, outcome), started) && !Deregisters(Registered(v, outcome).log)
  {
    var e := Register(v.instance, v.startedAt, ServerId(v.opts), outcome);
    Appended(v.log, e);
    IdentityAppended(v.log, e, v.instance, v.startedAt);
  }

  lemma {:induction false} DeregisterKeepsLog(v: Server, started: bool, outcome: Outcome)
    requires LogOk(v, started)
    ensures LogOk(Deregistered(v, outcome), started) && Deregisters(Deregistered(v, outcome).log)
  {
    var e := Deregister(v.instance, outcome);
    Appended(v.log, e);
    IdentityAppended(v.log, e, v.instance, v.startedAt);
  }

  lemma {:induction false} StopKeepsLog(v: Server, started: bool)
    requires LogOk(v, started) && (started ==> Deregisters(v.log))
    ensures LogOk(Stopped(v), started) && !Stopped(v).open && Deregisters(Stopped(v).log) == Deregisters(v.log)
  {
    Appended(v.log, Close);
    IdentityAppended(v.log, Close, v.instance, v.startedAt);
  }

  lemma {:induction false} ReadyKeepsInv(s: State, before: bool, outcome: Outcome, after: bool)
    requires Inv(s) && s.main == Before
    ensures Inv(ReadyEffect(s, before, outcome, after))
  {
    RegisterKeepsLog(s.server, s.started, outcome);
    Appended(s.server.log, Register(s.server.instance, s.server.startedAt, ServerId(s.server.opts), outcome));
  }

  lemma {:induction false} WaiterKeepsInv(s: State)
    requires Inv(s) && WaiterEnabled(s)
    ensures Inv(WaiterEffect(s))
  {
    if s.waiter == StopServer {
      StopKeepsLog(s.server, s.started);
    }
  }

  lemma {:induction false} RunnerKeepsInv(s: State)
    requires Inv(s) && RunnerEnabled(s)
    ensures Inv(RunnerEffect(s))
  {
  }

  lemma {:induction false} ActionKeepsInv(s: State, a: Action)
    requires Inv(s) && Enabled(s, a)
    ensures Inv(Apply(s, a))
  {
    match a
    case OnReady(before, outcome, after) => ReadyKeepsInv(s, before, outcome, after);
    case DestroyClose => StopKeepsLog(s.server, s.started);
    case WaiterStep => WaiterKeepsInv(s);
    case WaiterDeregister(outcome) => DeregisterKeepsLog(s.server, s.started, outcome);
    case RunnerRegister(outcome) => RegisterKeepsLog(s.server, s.started, outcome);
    case RunnerStep => RunnerKeepsInv(s);
    case _ =>
  }

  predicate Possible(s: State, run: seq<Action>)
    decreases |run|
  {
    run == [] || (Enabled(s, run[0]) && Possible(Apply(s, run[0]), run[1..]))
  }

  function Exec(s: State, run: seq<Action>): State
    requires Possible(s, run)
    decreases |run|
  {
    if run == [] then s else Exec(Apply(s, run[0]), run[1..])
  }

  /** Every step leaves the server alone or does one of its four operations. */
  lemma {:induction false} ServerStep(s: State, a: Action)
    requires Enabled(s, a)
    ensures var v, v' := s.server, Apply(s, a).server;
            || v' == v || v' == Stopped(v) || (a.Reconfigure? && v' == v.(opts := a.opts))
            || (a.OnReady? && v' == Registered(v, a.outcome)) || (a.RunnerRegister? && v' == Registered(v, a.outcome))
            || (a.WaiterDeregister? && v' == Deregistered(v, a.outcome))
  {
    match a
    case OnReady(before, outcome, after) => assert Apply(s, a) == ReadyEffect(s, before, outcome, after);
    case WaiterStep => assert Apply(s, a) == WaiterEffect(s);
    case RunnerStep => assert Apply(s, a) == RunnerEffect(s);
    case _ =>
  }

  lemma {:induction false} ExecKeepsInv(s: State, run: seq<Action>)
    requires Inv(s) && Possible(s, run)
    ensures Inv(Exec(s, run))
    ensures Exec(s, run).server.instance == s.server.instance && Exec(s, run).server.startedAt == s.server.startedAt
    decreases |run|
  {
    if run != [] {
      ActionKeepsInv(s, run[0]);
      ServerStep(s, run[0]);
      ExecKeepsInv(Apply(s, run[0]), run[1..]);
    }
  }

  // ----- what follows for whole runs

  /** In every interleaving, no registration follows a deregistration, every event carries the identity
      the server was made with, the RPC server is closed at most once, and a started module's server
      only after the attempt to deregister. */
  lemma {:induction false} OrderlyShutdown(s: State, run: seq<Action>)
    requires Init(s) && Possible(s, run)
    ensures var r := Exec(s, run);
            && NoLateRegister(r.server.log) && SameIdentity(r.server.log, s.server.instance, s.server.startedAt)
            && ClosedOnce(r.server.log) && (r.started ==> CloseAfterDeregister(r.server.log))
  {
    InitHolds(s);
    ExecKeepsInv(s, run);
  }

  /** Once OnDestroy has returned, whichever way, the RPC server was closed, exactly once. */
  lemma {:induction false} DestroyedIsClosed(s: State, run: seq<Action>)
    requires Init(s) && Possible(s, run) && Exec(s, run).main == Gone
    ensures Closes(Exec(s, run).server.log) && ClosedOnce(Exec(s, run).server.log)
  {
    InitHolds(s);
    ExecKeepsInv(s, run);
  }

  /** OnDestroy has returned at least once. */
  predicate Over(s: State) {
    !s.server.open && (s.started ==> s.serviceStopped) && s.main !in {Before, Up, Crashed}
  }

  lemma {:induction false} OverStep(s: State, a: Action)
    requires Inv(s) && Over(s) && Enabled(s, a)
    ensures Over(Apply(s, a)) && Apply(s, a).server.log == s.server.log
  {
  }

  /** After OnDestroy has returned nothing registers, deregisters or closes again, even if OnDestroy is
      called once more. */
  lemma {:induction false} GoneIsQuiet(s: State, run: seq<Action>)
    requires Inv(s) && (s.main == Gone || Over(s)) && Possible(s, run)
    ensures Exec(s, run).server.log == s.server.log
    decreases |run|
  {
    if run != [] {
      OverStep(s, run[0]);
      ActionKeepsInv(s, run[0]);
      GoneIsQuiet(Apply(s, run[0]), run[1..]);
    }
  }

  // ----- shutdown ends

  /** Steps that the waiting goroutine and the renewal loop still have to take, at the most. */
  function Rank(s: State): nat {
    (match s.waiter
     case Unborn => 0
     case Spawn => 10
     case AwaitCancel => 6
     case CloseExit => 5
     case AwaitRunner => 4
     case Deregistering => 3
     case StopServer => 2
     case CloseStopped => 1
     case Finished => 0)
    + (match s.runner
       case NoRunner => 0
       case Entry => 3
       case Registering => 3
       case Select => 2
       case Leaving => 1
       case Ended => 0)
  }

  /** The steps of the two goroutines, apart from the ticker's. */
  predicate OwnStep(a: Action) {
    a.WaiterStep? || a.WaiterDeregister? || a.RunnerRegister? || a.RunnerStep?
  }

  /** A step that leaves others out: no renewal loop, or no close after a failed deregistration. */
  predicate Shortcut(s: State, a: Action) {
    (a.RunnerStep? && s.runner == Entry && !s.renews) || (a.WaiterDeregister? && a.outcome != Done)
  }

  /** Each of their steps lowers the rank, by exactly one unless it leaves others out. */
  lemma {:induction false} RankDecreases(s: State, a: Action)
    requires Inv(s) && Enabled(s, a) && OwnStep(a)
    ensures if Shortcut(s, a) then Rank(Apply(s, a)) < Rank(s) else Rank(Apply(s, a)) + 1 == Rank(s)
  {
  }

  /** Neither goroutine has a step to take, whatever the registry would answer. */
  predicate Idle(s: State) {
    !WaiterEnabled(s) && s.waiter != Deregistering && s.runner != Registering && !RunnerEnabled(s)
  }

  lemma {:induction false} IdleExactly(s: State)
    ensures Idle(s) <==> forall a :: OwnStep(a) ==> !Enabled(s, a)
  {
    if !Idle(s) {
      var a := if WaiterEnabled(s) then WaiterStep else if s.waiter == Deregistering then WaiterDeregister(Done)
               else if s.runner == Registering then RunnerRegister(Done) else RunnerStep;
      assert OwnStep(a) && Enabled(s, a);
    }
  }

  /** Once a started module is cancelled, one of the two goroutines can move until the service has
      stopped: OnDestroy never waits in vain, provided calls into the registry return. */
  lemma {:induction false} NeverStuck(s: State) returns (a: Action)
    requires Inv(s) && s.started && s.cancelled && !s.serviceStopped
    ensures OwnStep(a) && Enabled(s, a)
  {
    if WaiterEnabled(s) {
      a := WaiterStep;
    } else if s.waiter == Deregistering {
      a := WaiterDeregister(Done);
    } else if s.runner == Registering {
      a := RunnerRegister(Done);
    } else {
      a := RunnerStep;
    }
  }

  /** From any point of a shutdown, at most Rank steps of the two goroutines let OnDestroy go on. */
  lemma {:induction false} ShutdownEnds(s: State) returns (run: seq<Action>)
    requires Inv(s) && s.main == AwaitService
    ensures Possible(s, run) && |run| <= Rank(s) && Exec(s, run).serviceStopped && Exec(s, run).main == AwaitService
    ensures forall i :: 0 <= i < |run| ==> OwnStep(run[i])
    decreases Rank(s)
  {
    if s.serviceStopped {
      run := [];
    } else {
      var a := NeverStuck(s);
      ActionKeepsInv(s, a);
      RankDecreases(s, a);
      var rest := ShutdownEnds(Apply(s, a));
      run := [a] + rest;
      assert run[1..] == rest;
    }
  }

  function OwnSteps(run: seq<Action>): nat {
    if run == [] then 0 else (if OwnStep(run[0]) then 1 else 0) + OwnSteps(run[1..])
  }

  function Ticks(run: seq<Action>): nat {
    if run == [] then 0 else (if run[0].Tick? then 1 else 0) + Ticks(run[1..])
  }

  lemma {:induction false} OtherStepsKeepRank(s: State, a: Action)
    requires Inv(s) && s.started && Enabled(s, a) && !OwnStep(a)
    ensures Apply(s, a).started && Rank(Apply(s, a)) == Rank(s) + if a.Tick? then 1 else 0
  {
  }

  /** Whatever else happens, the two goroutines of a started module take at most Rank steps, which is at
      most ten, and one more for each tick; and a run that was cancelled and goes on until they have no
      step left has stopped the service. */
  lemma {:induction false} ShutdownIsBounded(s: State, run: seq<Action>)
    requires Inv(s) && s.started && Possible(s, run)
    ensures OwnSteps(run) + Rank(Exec(s, run)) <= Rank(s) + Ticks(run) <= 10 + Ticks(run)
    ensures Exec(s, run).cancelled && Idle(Exec(s, run)) ==> Exec(s, run).serviceStopped
    ensures OwnSteps(run) == Rank(s) + Ticks(run) ==> Exec(s, run).serviceStopped
    decreases |run|
  {
    if run != [] {
      ActionKeepsInv(s, run[0]);
      if OwnStep(run[0]) {
        RankDecreases(s, run[0]);
        OwnStepKeepsStarted(s, run[0]);
      } else {
        OtherStepsKeepRank(s, run[0]);
      }
      ShutdownIsBounded(Apply(s, run[0]), run[1..]);
    } else if s.cancelled && !s.serviceStopped {
      var a := NeverStuck(s);
      IdleExactly(s);
    }
  }

  lemma {:induction false} OwnStepKeepsStarted(s: State, a: Action)
    requires s.started && Enabled(s, a) && OwnStep(a)
    ensures Apply(s, a).started
  {
  }

  predicate OneServerId(log: seq<Event>, id: string) {
    forall i :: 0 <= i < |log| && log[i].Register? ==> log[i].server == id
  }

  lemma {:induction false} StepKeepsServerId(s: State, a: Action)
    requires Enabled(s, a) && !a.Reconfigure? && OneServerId(s.server.log, ServerId(s.server.opts))
    ensures Apply(s, a).server.opts == s.server.opts
    ensures OneServerId(Apply(s, a).server.log, ServerId(s.server.opts))
  {
    ServerStep(s, a);
  }

  /** Unless the options are changed on the way, every registration names the same logical server. */
  lemma {:induction false} ServerIdIsFixed(s: State, run: seq<Action>)
    requires Possible(s, run) && OneServerId(s.server.log, ServerId(s.server.opts))
    requires forall i :: 0 <= i < |run| ==> !run[i].Reconfigure?
    ensures OneServerId(Exec(s, run).server.log, ServerId(s.server.opts))
    decreases |run|
  {
    if run != [] {
      StepKeepsServerId(s, run[0]);
      ServerIdIsFixed(Apply(s, run[0]), run[1..]);
    }
  }

  // ----- which calls the registry gets

  /** A call into the registry, and its outcome. */
  datatype Call = Registers(outcome: Outcome) | Unregisters(outcome: Outcome)

  /** The calls among the first n events. */
  function Calls(log: seq<Event>, n: nat): seq<Call>
    requires n <= |log|
  {
    if n == 0 then [] else
    match log[n - 1]
    case Register(_, _, _, outcome) => Calls(log, n - 1) + [Registers(outcome)]
    case Deregister(_, outcome) => Calls(log, n - 1) + [Unregisters(outcome)]
    case Close => Calls(log, n - 1)
  }

  /** The call an action stands for: a start whose first hook lets it, a renewal, a deregistration. */
  function Asked(a: Action): Option<Call> {
    match a
    case OnReady(before, outcome, _) => if before then Some(Registers(outcome)) else None
    case RunnerRegister(outcome) => Some(Registers(outcome))
    case WaiterDeregister(outcome) => Some(Unregisters(outcome))
    case _ => None
  }

  function AskedBy(run: seq<Action>): seq<Call> {
    if run == [] then []
    else if Asked(run[0]).Some? then [Asked(run[0]).value] + AskedBy(run[1..])
    else AskedBy(run[1..])
  }

  lemma {:induction false} CallsOfPrefix(log: seq<Event>, e: Event, n: nat)
    requires n <= |log|
    ensures Calls(log + [e], n) == Calls(log, n)
  {
    if n > 0 {
      CallsOfPrefix(log, e, n - 1);
    }
  }

  /** What a step adds to the log: the call its action stands for, under the server's identity. */
  lemma {:induction false} StepLogs(s: State, a: Action)
    requires Enabled(s, a)
    ensures var v, log' := s.server, Apply(s, a).server.log;
            match Asked(a)
            case Some(Registers(outcome)) => log' == v.log + [Register(v.instance, v.startedAt, ServerId(v.opts), outcome)]
            case Some(Unregisters(outcome)) => log' == v.log + [Deregister(v.instance, outcome)]
            case None => log' == v.log || log' == v.log + [Close]
  {
    match a
    case OnReady(before, outcome, after) => assert Apply(s, a) == ReadyEffect(s, before, outcome, after);
    case WaiterStep => assert Apply(s, a) == WaiterEffect(s);
    case RunnerStep => assert Apply(s, a) == RunnerEffect(s);
    case _ =>
  }

  lemma {:induction false} EventCalls(log: seq<Event>, e: Event)
    ensures var calls := Calls(log, |log|);
            Calls(log + [e], |log| + 1) == match e
                                           case Register(_, _, _, outcome) => calls + [Registers(outcome)]
                                           case Deregister(_, outcome) => calls + [Unregisters(outcome)]
                                           case Close => calls
  {
    CallsOfPrefix(log, e, |log|);
  }

  lemma {:induction false} StepCalls(s: State, a: Action, log: seq<Event>, log': seq<Event>)
    requires Enabled(s, a) && log == s.server.log && log' == Apply(s, a).server.log
    ensures Calls(log', |log'|) == if Asked(a).Some? then Calls(log, |log|) + [Asked(a).value] else Calls(log, |log|)
  {
    StepLogs(s, a);
    if log' != log {
      EventCalls(log, log'[|log|]);
    }
  }

  /** In every run the registry gets exactly the calls of the run's actions, in their order: one for the
      start, one for every renewal, one for the deregistration. */
  lemma {:induction false} CallsExactly(s: State, run: seq<Action>)
    requires Possible(s, run)
    ensures var log, log' := s.server.log, Exec(s, run).server.log; Calls(log', |log'|) == Calls(log, |log|) + AskedBy(run)
    decreases |run|
  {
    if run != [] {
      StepCalls(s, run[0], s.server.log, Apply(s, run[0]).server.log);
      CallsExactly(Apply(s, run[0]), run[1..]);
    }
  }

  function Renewals(run: seq<Action>): nat {
    if run == [] then 0 else (if run[0].RunnerRegister? then 1 else 0) + Renewals(run[1..])
  }

  function Due(s: State): nat {
    if s.runner == Registering then 1 else 0
  }

  /** Every tick is followed by its renewal: only the one under way, if any, is still to come. */
  lemma {:induction false} TicksRenew(s: State, run: seq<Action>)
    requires Inv(s) && Possible(s, run)
    ensures Ticks(run) + Due(s) == Renewals(run) + Due(Exec(s, run))
    decreases |run|
  {
    if run != [] {
      ActionKeepsInv(s, run[0]);
      TicksRenew(Apply(s, run[0]), run[1..]);
    }
  }

  /** A registration succeeded and no deregistration since. */
  predicate Stands(log: seq<Event>) {
    exists i :: 0 <= i < |log| && log[i].Register? && log[i].outcome == Done
                && forall j :: i < j < |log| && log[j].Deregister? ==> log[j].outcome != Done
  }

  lemma {:induction false} StandsAppended(log: seq<Event>, e: Event)
    ensures Stands(log + [e]) <==>
            (e.Register? && e.outcome == Done) || (Stands(log) && !(e.Deregister? && e.outcome == Done))
  {
    var r := log + [e];
    assert r[|log|] == e && forall i :: 0 <= i < |log| ==> r[i] == log[i];
    if Stands(log) && !(e.Deregister? && e.outcome == Done) {
      var i :| 0 <= i < |log| && log[i].Register? && log[i].outcome == Done
               && forall j :: i < j < |log| && log[j].Deregister? ==> log[j].outcome != Done;
      assert r[i].Register?;
    }
    if Stands(r) {
      var i :| 0 <= i < |r| && r[i].Register? && r[i].outcome == Done
               && forall j :: i < j < |r| && r[j].Deregister? ==> r[j].outcome != Done;
      if i < |log| {
        assert log[i].Register?;
        assert e == r[|log|];
      }
    }
  }

  predicate SignedOff(log: seq<Event>) {
    exists i :: 0 <= i < |log| && log[i].Deregister? && log[i].outcome == Done
  }

  lemma {:induction false} SignedOffAppended(log: seq<Event>, e: Event)
    ensures SignedOff(log + [e]) <==> SignedOff(log) || (e.Deregister? && e.outcome == Done)
  {
    var r := log + [e];
    assert r[|log|] == e && forall i :: 0 <= i < |log| ==> r[i] == log[i];
    if SignedOff(log) {
      var i :| 0 <= i < |log| && log[i].Deregister? && log[i].outcome == Done;
      assert r[i].Deregister?;
    }
  }

  /** The flag is what the log says, a module that was started has been registered first of all, and a
      renewal loop goes on until it is told to leave. Stopping closes the server exactly when the
      deregistration succeeded. */
  predicate Announced(s: State) {
    && (s.runner in {Leaving, Ended} ==> s.exit || !s.renews) && (s.runner in {Select, Registering} ==> s.renews)
    && (s.waiter == StopServer ==> SignedOff(s.server.log))
    && (s.started && !s.serviceStopped ==> (!s.server.open <==> s.waiter == CloseStopped && SignedOff(s.server.log)))
    && (s.server.registered <==> Stands(s.server.log))
    && (s.main == Before ==> s.server.log == [])
    && (s.started ==> s.server.log != [] && var e := s.server.log[0];
                      e.Register? && e.instance == s.server.instance && e.startedAt == s.server.startedAt && e.outcome == Done)
  }

  lemma {:induction false} StepKeepsAnnounced(s: State, a: Action)
    requires Inv(s) && Announced(s) && Enabled(s, a)
    ensures Announced(Apply(s, a))
  {
    var log, log' := s.server.log, Apply(s, a).server.log;
    ServerStep(s, a);
    if log' != log {
      StandsAppended(log, log'[|log|]);
      SignedOffAppended(log, log'[|log|]);
      assert log' == log + [log'[|log|]];
    }
  }

  lemma {:induction false} ExecKeepsAnnounced(s: State, run: seq<Action>)
    requires Inv(s) && Announced(s) && Possible(s, run)
    ensures Announced(Exec(s, run))
    decreases |run|
  {
    if run != [] {
      ActionKeepsInv(s, run[0]);
      StepKeepsAnnounced(s, run[0]);
      ExecKeepsAnnounced(Apply(s, run[0]), run[1..]);
    }
  }

  /** In every run a started module was registered, successfully and before anything else happened to its
      server; the server takes itself for registered exactly when a registration succeeded and no
      deregistration since; the registry got exactly the calls of the run, with a renewal for every tick
      but the one under way; a renewal loop runs until Wait tells it to leave; and as long as the service
      has not stopped, the RPC server is closed exactly after a deregistration that succeeded. */
  lemma {:induction false} StartedIsRegistered(s: State, run: seq<Action>)
    requires Init(s) && Possible(s, run)
    ensures var r := Exec(s, run);
            && (r.started ==> r.server.log != []
                              && exists id :: r.server.log[0] == Register(s.server.instance, s.server.startedAt, id, Done))
            && (r.server.registered <==> Stands(r.server.log))
            && Calls(r.server.log, |r.server.log|) == AskedBy(run)
            && Ticks(run) == Renewals(run) + Due(r)
            && (r.started && r.renews && !r.exit && r.waiter != Spawn ==> r.runner in {Entry, Select, Registering})
            && (r.started && !r.serviceStopped ==> (!r.server.open <==> r.waiter == CloseStopped && SignedOff(r.server.log)))
  {
    var r := Exec(s, run);
    InitHolds(s);
    ExecKeepsAnnounced(s, run);
    ExecKeepsInv(s, run);
    if r.started {
      var e := r.server.log[0];
      assert e == Register(s.server.instance, s.server.startedAt, e.server, Done);
    }
    CallsExactly(s, run);
    assert [] + AskedBy(run) == AskedBy(run);
    TicksRenew(s, run);
  }

  // ----- the server object

  class RpcServer {
    const instanceID: string
    const startedAt: int
    var opts: Options
    var registered: bool
    var open: bool
    ghost var log: seq<Event>

    ghost function View(): Server
      reads this
    {
      Server(instanceID, startedAt, opts, registered, open, log)
    }

    constructor (opts: Options, unique: string, startedAt: int)
      ensures View() == NewServer(opts, unique, startedAt) && LogOk(View(), false)
    {
      this.opts, this.startedAt := opts, startedAt;
      instanceID := opts.name + "@" + opts.id + "#" + unique;
      registered, open, log := false, true, [];
    }

    method ServiceRegister(outcome: Outcome) returns (node: (string, string, int), ok: bool)
      modifies this`registered, this`log
      ensures View() == Registered(old(View()), outcome) && ok == (outcome == Done)
      ensures node == (ServerId(opts), instanceID, startedAt)
    {
      node := (opts.name + "@" + opts.id, instanceID, startedAt);
      log := log + [Register(node.1, node.2, node.0, outcome)];
      ok := outcome == Done;
      if !ok || registered {
        return;
      }
      registered := true;
    }

    method ServiceDeregister(outcome: Outcome) returns (ok: bool)
      modifies this`registered, this`log
      ensures View() == Deregistered(old(View()), outcome) && ok == (outcome == Done)
    {
      log := log + [Deregister(instanceID, outcome)];
      if outcome != Done {
        return false;
      }
      if registered {
        registered := false;
      }
      ok := true;
    }

    /** Stop, which OnDestroy calls too: the second call finds no server. */
    method Stop()
      modifies this`open, this`log
      ensures View() == Stopped(old(View())) && !open
    {
      if open {
        log := log + [Close];
        open := false;
      }
    }

    /** service.Stop: deregister, and close the RPC server if that went well. */
    method StopService(outcome: Outcome) returns (ok: bool)
      modifies this`registered, this`open, this`log
      ensures ok == (outcome == Done)
      ensures View() == if ok then Stopped(Deregistered(old(View()), outcome)) else Deregistered(old(View()), outcome)
    {
      ok := ServiceDeregister(outcome);
      if ok {
        Stop();
      }
    }
  }
}
