/** registry/consul_watcher.go: turn registry snapshots into create, update and delete events. */
module ConsulWatcher {
  import opened Registry
  import opened Events

  /** One health entry of a service, its tags and metadata already decoded. */
  datatype Entry = Entry(
    service: string, version: string, endpoints: seq<string>,
    id: string, address: string, nodeAddress: string, port: int,
    startedAt: int, serverID: string, metadata: map<string, string>,
    checks: seq<string>)

  predicate Critical(e: Entry) {
    "critical" in e.checks
  }

  function NodeOf(e: Entry): Node {
    Node(e.startedAt, e.serverID, e.id, if e.address == "" then e.nodeAddress else e.address, e.port, e.metadata)
  }

  /** serviceMap after the first n entries. */
  function Group(entries: seq<Entry>, n: nat): map<string, Service>
    requires n <= |entries|
  {
    if n == 0 then map[] else
    var m, e := Group(entries, n - 1), entries[n - 1];
    var svc := if e.version in m then m[e.version] else Service(e.service, e.version, e.endpoints, []);
    m[e.version := if Critical(e) then svc else svc.(nodes := svc.nodes + [NodeOf(e)])]
  }

  /** The healthy nodes of version v among the first n entries, in order. */
  function Healthy(entries: seq<Entry>, v: string, n: nat): seq<Node>
    requires n <= |entries|
  {
    if n == 0 then [] else
    var e := entries[n - 1];
    Healthy(entries, v, n - 1) + if e.version == v && !Critical(e) then [NodeOf(e)] else []
  }

  /** Grouping loses and invents nothing: a version is listed exactly when an entry has it, with
      exactly its healthy nodes. */
  lemma {:induction false} GroupExact(entries: seq<Entry>, v: string, n: nat)
    requires n <= |entries|
    ensures v in Group(entries, n) <==> exists i :: 0 <= i < n && entries[i].version == v
    ensures v in Group(entries, n) ==> Group(entries, n)[v].version == v && Group(entries, n)[v].nodes == Healthy(entries, v, n)
    ensures v !in Group(entries, n) ==> Healthy(entries, v, n) == []
  {
    if n > 0 {
      GroupExact(entries, v, n - 1);
    }
  }

  // ----- what a snapshot says about the answer, entry by entry

  /** The node carries what the entry says: the service's own address, or the host's when it has none. */
  predicate Carries(x: Node, e: Entry) {
    && x.instanceID == e.id && x.startedAt == e.startedAt && x.serverID == e.serverID
    && x.port == e.port && x.metadata == e.metadata
    && x.address == if e.address != "" then e.address else e.nodeAddress
  }

  /** The entries of version v among the first n without a critical check, in order. */
  function Picks(entries: seq<Entry>, v: string, n: nat): (r: seq<nat>)
    requires n <= |entries|
    ensures forall j :: 0 <= j < |r| ==> r[j] < n && entries[r[j]].version == v && "critical" !in entries[r[j]].checks
    ensures forall i :: 0 <= i < n && entries[i].version == v && "critical" !in entries[i].checks ==> i in r
    ensures forall j, k :: 0 <= j < k < |r| ==> r[j] < r[k]
  {
    if n == 0 then []
    else if entries[n - 1].version == v && "critical" !in entries[n - 1].checks then Picks(entries, v, n - 1) + [n - 1]
    else Picks(entries, v, n - 1)
  }

  /** The nodes are those of the picked entries, one for each and in their order. */
  predicate NodesOf(nodes: seq<Node>, entries: seq<Entry>, picks: seq<nat>) {
    |nodes| == |picks| && forall j :: 0 <= j < |nodes| ==> picks[j] < |entries| && Carries(nodes[j], entries[picks[j]])
  }

  lemma {:induction false} HealthyIs(entries: seq<Entry>, v: string, n: nat)
    requires n <= |entries|
    ensures NodesOf(Healthy(entries, v, n), entries, Picks(entries, v, n))
  {
    if n > 0 {
      HealthyIs(entries, v, n - 1);
    }
  }

  /** Entry i is the first with its version. */
  predicate FirstOf(entries: seq<Entry>, i: nat) {
    i < |entries| && forall j :: 0 <= j < i ==> entries[j].version != entries[i].version
  }

  /** Name and endpoints of a version are those of its first entry. */
  lemma {:induction false} GroupFirst(entries: seq<Entry>, v: string, n: nat) returns (i: nat)
    requires n <= |entries| && v in Group(entries, n)
    ensures i < n && entries[i].version == v && FirstOf(entries, i)
    ensures Group(entries, n)[v].name == entries[i].service && Group(entries, n)[v].endpoints == entries[i].endpoints
  {
    if v in Group(entries, n - 1) {
      i := GroupFirst(entries, v, n - 1);
    } else {
      GroupExact(entries, v, n - 1);
      i := n - 1;
    }
  }

  ghost predicate ListsVersion(snapshot: seq<Service>, entries: seq<Entry>, v: string) {
    NodesOf(NodesAt(snapshot, v), entries, Picks(entries, v, |entries|))
    && (HasVersion(snapshot, v) <==> exists i :: 0 <= i < |entries| && entries[i].version == v)
  }

  /** The service has the name and the endpoints of the first entry with its version. */
  ghost predicate NamedByFirst(svc: Service, entries: seq<Entry>) {
    exists i: nat :: FirstOf(entries, i) && entries[i].version == svc.version
                     && entries[i].service == svc.name && entries[i].endpoints == svc.endpoints
  }

  /** The snapshot lists the answer: its versions, under each the nodes of its entries without a critical
      check in their order, and its first entry's name and endpoints. */
  ghost predicate ListsAnswer(snapshot: seq<Service>, entries: seq<Entry>) {
    && (forall v :: ListsVersion(snapshot, entries, v))
    && forall k :: 0 <= k < |snapshot| ==> NamedByFirst(snapshot[k], entries)
  }

  lemma {:induction false} VersionIsListed(snapshot: seq<Service>, entries: seq<Entry>, v: string)
    requires Enumerates(snapshot, Group(entries, |entries|))
    ensures ListsVersion(snapshot, entries, v)
  {
    GroupExact(entries, v, |entries|);
    HealthyIs(entries, v, |entries|);
    assert HasVersion(snapshot, v) <==> v in Group(entries, |entries|);
  }

  lemma {:induction false} SnapshotListsAnswer(snapshot: seq<Service>, entries: seq<Entry>)
    requires Enumerates(snapshot, Group(entries, |entries|))
    ensures ListsAnswer(snapshot, entries)
  {
    forall v
      ensures ListsVersion(snapshot, entries, v)
    {
      VersionIsListed(snapshot, entries, v);
    }
    forall k | 0 <= k < |snapshot|
      ensures NamedByFirst(snapshot[k], entries)
    {
      var i := GroupFirst(entries, snapshot[k].version, |entries|);
    }
  }

  /** Both directions, entry by entry: an entry without a critical check is listed under its version with
      all it says, and every listed node comes from such an entry. */
  lemma {:induction false} EntriesAreNodes(snapshot: seq<Service>, entries: seq<Entry>)
    requires ListsAnswer(snapshot, entries)
    ensures forall i :: 0 <= i < |entries| && "critical" !in entries[i].checks ==>
              exists x :: x in NodesAt(snapshot, entries[i].version) && Carries(x, entries[i])
    ensures forall v, x :: x in NodesAt(snapshot, v) ==>
              exists i :: 0 <= i < |entries| && entries[i].version == v && "critical" !in entries[i].checks && Carries(x, entries[i])
  {
    forall i | 0 <= i < |entries| && "critical" !in entries[i].checks
      ensures exists x :: x in NodesAt(snapshot, entries[i].version) && Carries(x, entries[i])
    {
      var v := entries[i].version;
      assert ListsVersion(snapshot, entries, v);
      var picks, nodes := Picks(entries, v, |entries|), NodesAt(snapshot, v);
      var j :| 0 <= j < |picks| && picks[j] == i;
      assert nodes[j] in nodes && Carries(nodes[j], entries[i]);
    }
    forall v, x | x in NodesAt(snapshot, v)
      ensures exists i :: 0 <= i < |entries| && entries[i].version == v && "critical" !in entries[i].checks && Carries(x, entries[i])
    {
      assert ListsVersion(snapshot, entries, v);
      var picks, nodes := Picks(entries, v, |entries|), NodesAt(snapshot, v);
      var j :| 0 <= j < |nodes| && nodes[j] == x;
      assert Carries(x, entries[picks[j]]);
    }
  }

  // ----- the events of a new snapshot

  /** Deletes for the nodes that version svc.version had in the first n old services and lost. */
  function LostNodes(old_: seq<Service>, svc: Service, n: nat): seq<Result>
    requires n <= |old_|
  {
    if n == 0 then [] else
    var o := old_[n - 1];
    var lost := Select(o.nodes, svc.nodes, false);
    if o.version == svc.version && lost != [] then LostNodes(old_, svc, n - 1) + [Result(Delete, o.(nodes := lost))]
    else LostNodes(old_, svc, n - 1)
  }

  function VersionEvents(old_: seq<Service>, svc: Service): seq<Result> {
    LostNodes(old_, svc, |old_|) + [Result(if HasVersion(old_, svc.version) then Update else Create, svc)]
  }

  function NewEvents(old_: seq<Service>, new_: seq<Service>, n: nat): seq<Result>
    requires n <= |new_|
  {
    if n == 0 then [] else NewEvents(old_, new_, n - 1) + VersionEvents(old_, new_[n - 1])
  }

  /** Deletes for the first n old services whose version is gone. */
  function DroppedEvents(old_: seq<Service>, new_: seq<Service>, n: nat): seq<Result>
    requires n <= |old_|
  {
    if n == 0 then []
    else if HasVersion(new_, old_[n - 1].version) then DroppedEvents(old_, new_, n - 1)
    else DroppedEvents(old_, new_, n - 1) + [Result(Delete, old_[n - 1])]
  }

  function Diff(old_: seq<Service>, new_: seq<Service>): seq<Result> {
    NewEvents(old_, new_, |new_|) + DroppedEvents(old_, new_, |old_|)
  }

  /** new_ lists the services of m, each once, in whatever order the map was walked. */
  ghost predicate Enumerates(new_: seq<Service>, m: map<string, Service>) {
    && DistinctVersions(new_)
    && (forall i :: 0 <= i < |new_| ==> new_[i].version in m && m[new_[i].version] == new_[i])
    && forall v :: v in m ==> HasVersion(new_, v)
  }

  class Watcher {
    var services: map<string, seq<Service>>
    var watchers: set<string>
    var next: seq<Result>       // everything ever sent on the channel
    const only: string          // wo.Service

    constructor (only: string)
      ensures services == map[] && watchers == {} && next == [] && this.only == only
    {
      this.only := only;
      services, watchers, next := map[], {}, [];
    }

    ghost function Snapshot(name: string): seq<Service>
      reads this`services
    {
      if name in services then services[name] else []
    }

    method GroupEntries(entries: seq<Entry>) returns (serviceMap: map<string, Service>, serviceName: string)
      ensures serviceMap == Group(entries, |entries|)
      ensures serviceName == if entries == [] then "" else entries[|entries| - 1].service
    {
      serviceMap, serviceName := map[], "";
      for i := 0 to |entries|
        invariant serviceMap == Group(entries, i)
        invariant serviceName == if i == 0 then "" else entries[i - 1].service
      {
        var e := entries[i];
        serviceName := e.service;
        var svc := if e.version in serviceMap then serviceMap[e.version] else Service(e.service, e.version, e.endpoints, []);
        serviceMap := serviceMap[e.version := svc];
        if Critical(e) {
          continue;
        }
        serviceMap := serviceMap[e.version := svc.(nodes := svc.nodes + [NodeOf(e)])];
      }
    }

    /** The inner loop over the old services for one new version. */
    method EmitVersion(oldServices: seq<Service>, svc: Service)
      modifies this`next
      ensures next == old(next) + VersionEvents(oldServices, svc)
    {
      var action := Create;
      for i := 0 to |oldServices|
        invariant next == old(next) + LostNodes(oldServices, svc, i)
        invariant action == if FindVersion(oldServices, svc.version, i) >= 0 then Update else Create
      {
        var o := oldServices[i];
        if o.version != svc.version {
          continue;
        }
        action := Update;
        var _, nodes := Split(o.nodes, svc.nodes);
        if |nodes| > 0 {
          next := next + [Result(Delete, o.(nodes := nodes))];
        }
      }
      next := next + [Result(action, svc)];
    }

    /** The walk of serviceMap: emit each version's events and collect the new snapshot. */
    method EmitNew(oldServices: seq<Service>, walk: seq<Service>) returns (snapshot: seq<Service>)
      modifies this`next
      ensures snapshot == walk && next == old(next) + NewEvents(oldServices, walk, |walk|)
    {
      snapshot := [];
      for i := 0 to |walk|
        invariant snapshot == walk[..i]
        invariant next == old(next) + NewEvents(oldServices, walk, i)
      {
        snapshot := snapshot + [walk[i]];
        EmitVersion(oldServices, walk[i]);
      }
    }

    method EmitDropped(oldServices: seq<Service>, m: map<string, Service>, ghost snapshot: seq<Service>)
      requires Enumerates(snapshot, m)
      modifies this`next
      ensures next == old(next) + DroppedEvents(oldServices, snapshot, |oldServices|)
    {
      for i := 0 to |oldServices|
        invariant next == old(next) + DroppedEvents(oldServices, snapshot, i)
      {
        if oldServices[i].version !in m {
          next := next + [Result(Delete, oldServices[i])];
        }
      }
    }

    method EmitDiff(oldServices: seq<Service>, m: map<string, Service>, walk: seq<Service>)
      returns (snapshot: seq<Service>)
      requires Enumerates(walk, m)
      modifies this`next
      ensures snapshot == walk && next == old(next) + Diff(oldServices, snapshot)
    {
      snapshot := EmitNew(oldServices, walk);
      EmitDropped(oldServices, m, snapshot);
    }

    /** A new answer for one service: emit the differences to the last snapshot and remember the
        new one, which is returned. `walk` is the order in which Go walks serviceMap. */
    method ServiceHandler(entries: seq<Entry>, walk: seq<Service>) returns (snapshot: seq<Service>)
      requires Enumerates(walk, Group(entries, |entries|))
      modifies this`services, this`next
      ensures var name := if entries == [] then "" else entries[|entries| - 1].service;
              && services == old(services)[name := snapshot]
              && next == old(next) + Diff(old(Snapshot(name)), snapshot)
      ensures snapshot == walk && Enumerates(snapshot, Group(entries, |entries|)) && ListsAnswer(snapshot, entries)
    {
      SnapshotListsAnswer(walk, entries);
      var serviceMap, name := GroupEntries(entries);
      var oldServices := if name in services then services[name] else [];
      snapshot := EmitDiff(oldServices, serviceMap, walk);
      services := services[name := snapshot];
    }

    method EmitNames(action: Action, order: seq<string>)
      modifies this`next
      ensures next == old(next) + Announce(action, order, |order|)
    {
      for i := 0 to |order|
        invariant next == old(next) + Announce(action, order, i)
      {
        next := next + [Announcement(action, order[i])];
      }
    }

    /** The catalogue of service names changed: watch new ones, forget the others. `added` and `gone`
        are the orders in which Go walks the two maps; no watch can be made for the names in `failed`,
        which are neither watched nor announced. */
    method Handle(names: set<string>, failed: set<string>, added: seq<string>, gone: seq<string>)
      requires Lists(added, Wanted(names) - watchers - failed) && Lists(gone, watchers - names)
      modifies this`services, this`watchers, this`next
      ensures services == map n | n in old(services) && n in names :: old(services)[n]
      ensures watchers == (old(watchers) * names) + (Wanted(names) - failed)
      ensures next == old(next) + Announce(Create, added, |added|) + Announce(Delete, gone, |gone|)
    {
      EmitNames(Create, added);
      watchers := watchers + (Wanted(names) - failed);
      services := map n | n in services && n in names :: services[n];
      EmitNames(Delete, gone);
      watchers := watchers * names;
    }

    /** The names the watch options let through. */
    function Wanted(names: set<string>): set<string> {
      set n | n in names && (only == "" || n == only)
    }
  }

  lemma {:induction false} FindAppend(ss: seq<Service>, s: Service, v: string, n: nat)
    requires n <= |ss|
    ensures FindVersion(ss + [s], v, n) == FindVersion(ss, v, n)
  {
    if n > 0 {
      FindAppend(ss, s, v, n - 1);
    }
  }

  /** A service-wide event: an action and a name, without version or nodes. */
  function Announcement(action: Action, name: string): Result {
    Result(action, Service(name, "", [], []))
  }

  function Announce(action: Action, names: seq<string>, n: nat): seq<Result>
    requires n <= |names|
  {
    if n == 0 then [] else Announce(action, names, n - 1) + [Announcement(action, names[n - 1])]
  }

  /** xs lists the elements of s, each once. */
  ghost predicate Lists(xs: seq<string>, s: set<string>) {
    && (forall i, j :: 0 <= i < j < |xs| ==> xs[i] != xs[j])
    && (forall i :: 0 <= i < |xs| ==> xs[i] in s)
    && forall x :: x in s ==> x in xs
  }

  /** One announcement for each name, in order, with that action and no nodes. */
  lemma {:induction false} AnnounceExact(action: Action, names: seq<string>, n: nat, i: nat)
    requires i < n <= |names|
    ensures |Announce(action, names, n)| == n
    ensures var ev := Announce(action, names, n)[i]; ev.action == action && ev.service.name == names[i] && ev.service.nodes == []
    decreases n
  {
    if i < n - 1 {
      AnnounceExact(action, names, n - 1, i);
    } else if n > 1 {
      AnnounceExact(action, names, n - 1, 0);
    }
  }

  lemma {:induction false} LostAreDeletes(old_: seq<Service>, svc: Service, n: nat, ev: Result)
    requires n <= |old_| && ev in LostNodes(old_, svc, n)
    ensures ev.action == Delete
  {
    if ev !in LostNodes(old_, svc, n - 1) {
      assert LostNodes(old_, svc, n) == LostNodes(old_, svc, n - 1) + [ev];
    } else {
      LostAreDeletes(old_, svc, n - 1, ev);
    }
  }

  lemma {:induction false} AnnouncedLast(before: seq<Result>, lost: seq<Result>, ev: Result)
    ensures ev in before + (lost + [ev])
  {
    assert (lost + [ev])[|lost|] == ev;
  }

  /** Every new version is announced: as an update exactly when the old snapshot listed it. */
  lemma {:induction false} NewAreAnnounced(old_: seq<Service>, new_: seq<Service>, n: nat, k: nat)
    requires k < n <= |new_|
    ensures Result(if HasVersion(old_, new_[k].version) then Update else Create, new_[k]) in NewEvents(old_, new_, n)
    decreases n
  {
    if k < n - 1 {
      NewAreAnnounced(old_, new_, n - 1, k);
    } else {
      AnnouncedLast(NewEvents(old_, new_, k), LostNodes(old_, new_[k], |old_|),
                    Result(if HasVersion(old_, new_[k].version) then Update else Create, new_[k]));
    }
  }

  lemma {:induction false} AnnouncedAreNew(old_: seq<Service>, new_: seq<Service>, n: nat, ev: Result) returns (k: nat)
    requires n <= |new_| && ev in NewEvents(old_, new_, n) && ev.action != Delete
    ensures k < n && ev == Result(if HasVersion(old_, new_[k].version) then Update else Create, new_[k])
    decreases n
  {
    if ev in NewEvents(old_, new_, n - 1) {
      k := AnnouncedAreNew(old_, new_, n - 1, ev);
    } else {
      k := n - 1;
      assert ev in VersionEvents(old_, new_[k]);
      if ev in LostNodes(old_, new_[k], |old_|) {
        LostAreDeletes(old_, new_[k], |old_|, ev);
      }
    }
  }

  lemma {:induction false} DroppedAreDeletes(old_: seq<Service>, new_: seq<Service>, n: nat, ev: Result)
    requires n <= |old_| && ev in DroppedEvents(old_, new_, n)
    ensures ev.action == Delete
  {
    if ev in DroppedEvents(old_, new_, n - 1) {
      DroppedAreDeletes(old_, new_, n - 1, ev);
    }
  }

  /** The creates and updates of a difference announce exactly the new versions: by an update when the
      old snapshot listed the version, by a create when it did not. */
  lemma {:induction false} DiffAnnounces(old_: seq<Service>, new_: seq<Service>, ev: Result)
    requires ev.action != Delete
    ensures ev in Diff(old_, new_) <==>
            exists k :: 0 <= k < |new_| && ev.service == new_[k] && (ev.action == Update <==> HasVersion(old_, new_[k].version))
  {
    var news, dropped := NewEvents(old_, new_, |new_|), DroppedEvents(old_, new_, |old_|);
    if ev in Diff(old_, new_) {
      if ev in dropped {
        DroppedAreDeletes(old_, new_, |old_|, ev);
      }
      var k := AnnouncedAreNew(old_, new_, |new_|, ev);
      assert ev.service == new_[k];
    }
    if k :| 0 <= k < |new_| && ev.service == new_[k] && (ev.action == Update <==> HasVersion(old_, new_[k].version)) {
      NewAreAnnounced(old_, new_, |new_|, k);
      assert ev == Result(if HasVersion(old_, new_[k].version) then Update else Create, new_[k]);
    }
  }
}
