/** Events between the registry watcher and the selector's cache, and list helpers both use.
    An event carries its Service as a value; the program passes a pointer. */
module Events {
  import opened Registry

  datatype Action = Create | Update | Delete
  datatype Result = Result(action: Action, service: Service)

  predicate HasID(nodes: seq<Node>, id: string) {
    exists i :: 0 <= i < |nodes| && nodes[i].instanceID == id
  }

  /** The nodes whose instance id is (keep) or is not (!keep) among those of `other`, in order. */
  function Select(nodes: seq<Node>, other: seq<Node>, keep: bool): seq<Node> {
    if nodes == [] then [] else
    var last := nodes[|nodes| - 1];
    Select(nodes[..|nodes| - 1], other, keep)
    + if HasID(other, last.instanceID) == keep then [last] else []
  }

  /** Index of the last of the first n services that has version v, or -1. */
  function FindVersion(ss: seq<Service>, v: string, n: nat): (i: int)
    requires n <= |ss|
    ensures -1 <= i < n
    ensures i >= 0 ==> ss[i].version == v
    ensures forall j :: i < j < n ==> ss[j].version != v
  {
    if n == 0 then -1 else if ss[n - 1].version == v then n - 1 else FindVersion(ss, v, n - 1)
  }

  predicate HasVersion(ss: seq<Service>, v: string) {
    FindVersion(ss, v, |ss|) >= 0
  }

  /** The nodes listed under version v; none when the version is not listed. */
  function NodesAt(ss: seq<Service>, v: string): seq<Node> {
    var i := FindVersion(ss, v, |ss|);
    if i < 0 then [] else ss[i].nodes
  }

  predicate DistinctVersions(ss: seq<Service>) {
    forall i, j :: 0 <= i < j < |ss| ==> ss[i].version != ss[j].version
  }

  predicate DistinctIDs(nodes: seq<Node>) {
    forall i, j :: 0 <= i < j < |nodes| ==> nodes[i].instanceID != nodes[j].instanceID
  }

  method Seen(nodes: seq<Node>, id: string) returns (seen: bool)
    ensures seen <==> HasID(nodes, id)
  {
    for i := 0 to |nodes|
      invariant !HasID(nodes[..i], id)
    {
      if nodes[i].instanceID == id {
        return true;
      }
    }
    assert nodes[..|nodes|] == nodes;
    return false;
  }

  /** The nested loops that split a node list on the instance ids of another. */
  method Split(nodes: seq<Node>, other: seq<Node>) returns (kept: seq<Node>, rest: seq<Node>)
    ensures kept == Select(nodes, other, true) && rest == Select(nodes, other, false)
  {
    kept, rest := [], [];
    for i := 0 to |nodes|
      invariant kept == Select(nodes[..i], other, true) && rest == Select(nodes[..i], other, false)
    {
      var seen := Seen(other, nodes[i].instanceID);
      assert nodes[..i + 1][..i] == nodes[..i];
      if seen {
        kept := kept + [nodes[i]];
      } else {
        rest := rest + [nodes[i]];
      }
    }
    assert nodes[..|nodes|] == nodes;
  }

  // ----- facts about Select

  lemma {:induction false} SelectAppend(nodes: seq<Node>, x: Node, other: seq<Node>, keep: bool)
    ensures Select(nodes + [x], other, keep)
            == Select(nodes, other, keep) + if HasID(other, x.instanceID) == keep then [x] else []
  {
    assert (nodes + [x])[..|nodes|] == nodes;
  }

  lemma {:induction false} SelectMembers(nodes: seq<Node>, other: seq<Node>, keep: bool)
    ensures forall x :: x in Select(nodes, other, keep) <==> x in nodes && HasID(other, x.instanceID) == keep
  {
    if nodes != [] {
      SelectMembers(nodes[..|nodes| - 1], other, keep);
      assert nodes == nodes[..|nodes| - 1] + [nodes[|nodes| - 1]];
    }
  }

  /** Dropping the ids of m and then those of n drops the ids of both. */
  lemma {:induction false} SelectTwice(nodes: seq<Node>, m: seq<Node>, n: seq<Node>, both: seq<Node>)
    requires forall x :: x in nodes ==> (HasID(both, x.instanceID) <==> HasID(m, x.instanceID) || HasID(n, x.instanceID))
    ensures Select(Select(nodes, m, false), n, false) == Select(nodes, both, false)
  {
    if nodes != [] {
      var front, last := nodes[..|nodes| - 1], nodes[|nodes| - 1];
      SelectTwice(front, m, n, both);
      if !HasID(m, last.instanceID) {
        SelectAppend(Select(front, m, false), last, n, false);
      } else {
        assert Select(nodes, m, false) == Select(front, m, false);
      }
    }
  }

  lemma {:induction false} SelectSame(nodes: seq<Node>, m: seq<Node>, n: seq<Node>)
    requires forall x :: x in nodes ==> (HasID(m, x.instanceID) <==> HasID(n, x.instanceID))
    ensures Select(nodes, m, false) == Select(nodes, n, false)
  {
    if nodes != [] {
      SelectSame(nodes[..|nodes| - 1], m, n);
    }
  }

  lemma {:induction false} SelectNone(nodes: seq<Node>)
    ensures Select(nodes, [], false) == nodes
  {
    if nodes != [] {
      SelectNone(nodes[..|nodes| - 1]);
      assert nodes == nodes[..|nodes| - 1] + [nodes[|nodes| - 1]];
    }
  }

  lemma {:induction false} SelectPartition(nodes: seq<Node>, other: seq<Node>)
    ensures multiset(nodes) == multiset(Select(nodes, other, true)) + multiset(Select(nodes, other, false))
  {
    if nodes != [] {
      var front, last := nodes[..|nodes| - 1], nodes[|nodes| - 1];
      SelectPartition(front, other);
      assert nodes == front + [last];
      var a, b := Select(front, other, true), Select(front, other, false);
      if HasID(other, last.instanceID) {
        assert Select(nodes, other, true) == a + [last] && Select(nodes, other, false) == b;
      } else {
        assert Select(nodes, other, true) == a && Select(nodes, other, false) == b + [last];
      }
    }
  }

  lemma {:induction false} SelectDistinct(nodes: seq<Node>, other: seq<Node>, keep: bool)
    requires DistinctIDs(nodes)
    ensures DistinctIDs(Select(nodes, other, keep))
  {
    if nodes != [] {
      var front := nodes[..|nodes| - 1];
      SelectDistinct(front, other, keep);
      SelectMembers(front, other, keep);
      var s := Select(front, other, keep);
      assert forall i :: 0 <= i < |s| ==> s[i] in front;
    }
  }

  lemma {:induction false} FindFirst(ss: seq<Service>, i: nat, n: nat)
    requires DistinctVersions(ss) && i < n <= |ss|
    ensures FindVersion(ss, ss[i].version, n) == i
    decreases n
  {
    if i < n - 1 {
      FindFirst(ss, i, n - 1);
    }
  }
}

/** selector/cache/cache.go: the selector's cached copy of the registry. */
module CacheSelector {
  import opened Wrappers
  import opened Registry
  import opened Events

  /** What an event does to an existing cache entry: the new entry (None: dropped), the nodes
      reported to a configured Watcher, and whether the entry's time-to-live was renewed. */
  datatype Patch = Patch(entry: Option<seq<Service>>, reported: seq<Node>, renewed: bool)

  function AllNodes(ss: seq<Service>): seq<Node> {
    if ss == [] then [] else AllNodes(ss[..|ss| - 1]) + ss[|ss| - 1].nodes
  }

  function OtherVersions(ss: seq<Service>, v: string): seq<Service> {
    if ss == [] then [] else
    OtherVersions(ss[..|ss| - 1], v) + if ss[|ss| - 1].version != v then [ss[|ss| - 1]] else []
  }

  function PatchEntry(services: seq<Service>, ev: Result): Patch {
    var svc := ev.service;
    var at := FindVersion(services, svc.version, |services|);
    if svc.nodes == [] then
      if ev.action.Delete? then Patch(None, AllNodes(services), false) else Patch(Some(services), [], false)
    else if !ev.action.Delete? then
      if at < 0 then Patch(Some(services + [svc]), [], true)
      else Patch(Some(services[at := svc.(nodes := svc.nodes + Select(services[at].nodes, svc.nodes, false))]), [], true)
    else if at < 0 then Patch(Some(services), [], false)
    else
      var left := Select(services[at].nodes, svc.nodes, false);
      var gone := Select(services[at].nodes, svc.nodes, true);
      if left != [] then Patch(Some(services[at := services[at].(nodes := left)]), gone, true)
      else if |services| == 1 then Patch(None, gone, false)
      else Patch(Some(OtherVersions(services, svc.version)), gone, true)
  }

  predicate Named(ss: seq<Service>, name: string) {
    forall i :: 0 <= i < |ss| ==> ss[i].name == name
  }

  lemma {:induction false} OthersNamed(ss: seq<Service>, v: string, name: string)
    requires Named(ss, name)
    ensures Named(OtherVersions(ss, v), name)
  {
    if ss != [] {
      OthersNamed(ss[..|ss| - 1], v, name);
    }
  }

  datatype Answer = Found(services: seq<Service>) | NotFound | Failed
  datatype Reply = Services(services: seq<Service>) | ErrNotFound | ErrRegistry

  class Selector {
    var cache: map<string, seq<Service>>
    var ttls: map<string, int>
    var watched: set<string>
    var reported: seq<Node>     // what the Watcher was called with, in order
    const hasWatcher: bool
    const ttl: int

    /** Entries are filed under the name their services carry. */
    ghost predicate Valid()
      reads this`cache
    {
      forall name :: name in cache ==> Named(cache[name], name)
    }

    constructor (hasWatcher: bool, ttl: int)
      ensures Valid()
      ensures cache == map[] && ttls == map[] && watched == {} && reported == []
      ensures this.hasWatcher == hasWatcher && this.ttl == ttl
    {
      this.hasWatcher, this.ttl := hasWatcher, ttl;
      cache, ttls, watched, reported := map[], map[], {}, [];
    }

    method Del(service: string)
      modifies this`cache, this`ttls
      ensures cache == old(cache) - {service} && ttls == old(ttls) - {service}
    {
      cache := cache - {service};
      ttls := ttls - {service};
    }

    method Set(service: string, services: seq<Service>, now: int)
      requires Valid() && Named(services, service)
      modifies this`cache, this`ttls
      ensures Valid()
      ensures cache == old(cache)[service := services] && ttls == old(ttls)[service := now + ttl]
    {
      cache := cache[service := services];
      ttls := ttls[service := now + ttl];
    }

    method Reset(service: string)
      modifies this`cache, this`ttls
      ensures service !in cache && forall s :: s != service ==> (s in cache <==> s in old(cache)) && (s in cache ==> cache[s] == old(cache)[s])
    {
      Del(service);
    }

    method Report(nodes: seq<Node>)
      modifies this`reported
      ensures reported == old(reported) + if hasWatcher then nodes else []
    {
      if hasWatcher {
        for i := 0 to |nodes|
          invariant reported == old(reported) + nodes[..i]
        {
          reported := reported + [nodes[i]];
        }
        assert nodes[..|nodes|] == nodes;
      }
    }

    /** A lookup. `answer` is what the registry says if it is asked. An entry is served from the
        cache until two time-to-lives after it was set: the stored deadline is already now + ttl
        and is compared with ttl again. An expired entry that the registry fails on is answered
        with an empty list, not with the expired copy. */
    method Get(service: string, now: int, answer: Answer) returns (r: Reply)
      requires Valid() && (answer.Found? ==> Named(answer.services, service))
      modifies this`cache, this`ttls, this`watched
      ensures Valid() && watched == old(watched) + {service}
      ensures var hit := service in old(cache) && old(cache)[service] != [];
              var recent := hit && service in old(ttls) && now - old(ttls)[service] < ttl;
              if recent then r == Services(old(cache)[service]) && cache == old(cache) && ttls == old(ttls)
              else match answer
                   case Found(ss) => r == Services(ss) && cache == old(cache)[service := ss]
                                     && ttls == old(ttls)[service := now + ttl]
                   case NotFound => r == (if hit then ErrNotFound else ErrRegistry) && cache == old(cache) && ttls == old(ttls)
                   case Failed => r == (if hit then Services([]) else ErrRegistry) && cache == old(cache) && ttls == old(ttls)
    {
      watched := watched + {service};
      var hit := service in cache && cache[service] != [];
      if hit && service in ttls && now - ttls[service] < ttl {
        return Services(cache[service]);
      }
      match answer
      case Found(ss) =>
        Set(service, ss, now);
        return Services(ss);
      case NotFound =>
        return if hit then ErrNotFound else ErrRegistry;
      case Failed =>
        return if hit then Services([]) else ErrRegistry;
    }

    method FindLast(services: seq<Service>, v: string) returns (at: int)
      ensures at == FindVersion(services, v, |services|)
    {
      at := -1;
      for i := 0 to |services|
        invariant at == FindVersion(services, v, i)
      {
        if services[i].version == v {
          at := i;
        }
      }
    }

    /** Apply one watcher event. Nothing is cached for a service nobody looked up. */
    method Update(ev: Result, now: int)
      requires Valid()
      modifies this`cache, this`ttls, this`reported
      ensures Valid()
      ensures var name := ev.service.name;
              if name !in old(cache) then cache == old(cache) && ttls == old(ttls) && reported == old(reported)
              else
                var p := PatchEntry(old(cache)[name], ev);
                && cache == (if p.entry.None? then old(cache) - {name} else old(cache)[name := p.entry.value])
                && reported == old(reported) + (if hasWatcher then p.reported else [])
                && ttls == (if p.entry.None? then old(ttls) - {name}
                            else if p.renewed then old(ttls)[name := now + ttl] else old(ttls))
    {
      var svc := ev.service;
      if svc.name !in cache {
        return;
      }
      var services := cache[svc.name];
      if |svc.nodes| == 0 {
        if ev.action.Delete? {
          for i := 0 to |services|
            invariant cache == old(cache) && ttls == old(ttls)
            invariant reported == old(reported) + if hasWatcher then AllNodes(services[..i]) else []
          {
            Report(services[i].nodes);
            assert services[..i + 1][..i] == services[..i];
          }
          assert services[..|services|] == services;
          Del(svc.name);
        }
        return;
      }
      var at := FindLast(services, svc.version);
      if !ev.action.Delete? {
        if at < 0 {
          Set(svc.name, services + [svc], now);
          return;
        }
        var _, unseen := Split(services[at].nodes, svc.nodes);
        Set(svc.name, services[at := svc.(nodes := svc.nodes + unseen)], now);
        return;
      }
      if at < 0 {
        return;
      }
      var gone, left := Split(services[at].nodes, svc.nodes);
      Report(gone);
      if |left| > 0 {
        Set(services[at].name, services[at := services[at].(nodes := left)], now);
      } else if |services| == 1 {
        Del(services[at].name);
      } else {
        var others := DropVersion(services, services[at].version);
        OthersNamed(services, services[at].version, services[at].name);
        Set(services[at].name, others, now);
      }
    }

    method DropVersion(services: seq<Service>, v: string) returns (others: seq<Service>)
      ensures others == OtherVersions(services, v)
    {
      others := [];
      for i := 0 to |services|
        invariant others == OtherVersions(services[..i], v)
      {
        assert services[..i + 1][..i] == services[..i];
        if services[i].version != v {
          others := others + [services[i]];
        }
      }
      assert services[..|services|] == services;
    }
  }
}
