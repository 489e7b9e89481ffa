/** The application object (app/app.go): each method is one section that other goroutines see as one
    step of the module Routing, or a lookup made of such sections. */
module RoutingApp {
  import opened Wrappers
  import opened Routing

  class App {
    var serverList: map<InstanceID, SessionId>
    var logicalRoutes: map<ServerID, InstanceID>
    var sessions: map<SessionId, Session>
    ghost var place: map<SessionId, Place>

    ghost function View(): Tables
      reads this
    {
      Tables(serverList, logicalRoutes, sessions, place)
    }

    /** The tables with no goroutine in them. */
    ghost function Alone(serverOf: InstanceID -> ServerID): State
      reads this
    {
      State(View(), map[], [], serverOf)
    }

    ghost predicate Listed()
      reads this
    {
      forall i :: i in serverList ==> serverList[i] in sessions
    }

    constructor ()
      ensures View() == Tables(map[], map[], map[], map[]) && Listed()
    {
      serverList, logicalRoutes, sessions, place := map[], map[], map[], map[];
    }

    /** The locked section of Watcher. */
    method TakeOut(t: Thread, instance: InstanceID) returns (session: Option<SessionId>)
      requires Listed()
      modifies this
      ensures Listed() && session == if instance in old(serverList) then Some(old(serverList)[instance]) else None
      ensures View() == if session.Some? then Unlist(old(View()), t, instance) else old(View())
    {
      if instance !in serverList {
        return None;
      }
      var sid := serverList[instance];
      serverList := serverList - {instance};
      var server := sessions[sid].server;
      if server in logicalRoutes && logicalRoutes[server] == instance {
        logicalRoutes := logicalRoutes - {server};
      }
      place := place[sid := Remover(t)];
      session := Some(sid);
    }

    /** GetRPC().Done() of a session. */
    method Done(sid: SessionId)
      requires sid in sessions && Listed()
      modifies this`sessions, this`place
      ensures View() == CloseSession(old(View()), sid) && Listed()
    {
      sessions := sessions[sid := sessions[sid].(closes := sessions[sid].closes + 1)];
      place := place[sid := Closed];
    }

    /** Watcher: the listed session of the instance leaves both tables, and is closed. */
    method Watcher(t: Thread, instance: InstanceID)
      requires Listed()
      modifies this
      ensures Listed() && instance !in serverList
      ensures View() == if instance in old(serverList)
                        then CloseSession(Unlist(old(View()), t, instance), old(serverList)[instance]) else old(View())
    {
      var session := TakeOut(t, instance);
      if session.Some? {
        Done(session.value);
      }
    }

    /** The first locked section of GetServerByID. */
    method FindRoute(server: ServerID, ghost serverOf: InstanceID -> ServerID) returns (session: Option<SessionId>)
      ensures session.Some? <==> RouteHit(Alone(serverOf), server)
      ensures session.Some? ==> session.value == serverList[logicalRoutes[server]]
    {
      if server in logicalRoutes && logicalRoutes[server] in serverList {
        return Some(serverList[logicalRoutes[server]]);
      }
      session := None;
    }

    /** The locked section of getServerSession: an instance that is listed already keeps its session. */
    method LoadOrStore(instance: InstanceID, sid: SessionId) returns (actual: SessionId, loaded: bool)
      requires Listed() && sid in sessions
      modifies this`serverList, this`place
      ensures Listed() && loaded == (instance in old(serverList)) && serverList[instance := actual] == serverList
      ensures View() == if loaded then old(View())
                        else old(View()).(serverList := old(serverList)[instance := sid], place := old(place)[sid := Place.Listed])
    {
      loaded := instance in serverList;
      if loaded {
        return serverList[instance], true;
      }
      serverList := serverList[instance := sid];
      place := place[sid := Place.Listed];
      actual := sid;
    }

    /** The second locked section of GetServerByID, for one candidate of the right server. */
    method TryCandidate(server: ServerID, sid: SessionId, ghost goal: Goal, ghost serverOf: InstanceID -> ServerID)
      returns (session: Option<SessionId>)
      requires Listed() && sid in sessions && goal.ForRoute? && goal.server == server
      modifies this`logicalRoutes
      ensures var e := BindEffect(old(Alone(serverOf)), Bind(goal, [sid]));
              && View() == e.tb
              && (session.Some? <==> e.next.Free?)
              && (session.Some? ==> session.value in sessions && e.said == [ByServer(server, sessions[session.value].instance)])
    {
      if sessions[sid].server != server {
        return None;
      }
      session := FindRoute(server, serverOf);
      if session.Some? {
        return;
      }
      var instance := sessions[sid].instance;
      if instance in serverList {
        logicalRoutes := logicalRoutes[server := instance];
        session := Some(sid);
      }
    }
  }
}
