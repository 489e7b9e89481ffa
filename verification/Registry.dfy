/** The discovery records (registry/service.go). Pointers are modelled as values. */
module Registry {
  datatype Node = Node(
    startedAt: int,
    serverID: string,
    instanceID: string,
    address: string,
    port: int,
    metadata: map<string, string>)

  datatype Service = Service(
    name: string,
    version: string,
    endpoints: seq<string>,
    nodes: seq<Node>)
}

/** Go's byte-wise string comparison, as a total order. */
module StringOrder {
  predicate StrLe(a: string, b: string) {
    a == [] || (b != [] && (a[0] < b[0] || (a[0] == b[0] && StrLe(a[1..], b[1..]))))
  }

  /** The strings agree before position k, and a ends there or has the smaller character there. */
  predicate PartAt(a: string, b: string, k: nat) {
    && k <= |a| && k <= |b| && (forall i :: 0 <= i < k ==> a[i] == b[i])
    && (k == |a| || (k < |b| && a[k] < b[k]))
  }

  /** The comparison is the lexicographic one. */
  lemma {:induction false} StrLeLexicographic(a: string, b: string)
    ensures StrLe(a, b) <==> exists k: nat :: PartAt(a, b, k)
  {
    if a == [] {
      assert PartAt(a, b, 0);
    } else if b != [] && a[0] == b[0] {
      StrLeLexicographic(a[1..], b[1..]);
      if k: nat :| PartAt(a[1..], b[1..], k) {
        assert forall i :: 1 <= i < k + 1 ==> a[i] == a[1..][i - 1] && b[i] == b[1..][i - 1];
        assert PartAt(a, b, k + 1);
      }
      if k: nat :| PartAt(a, b, k) {
        assert PartAt(a[1..], b[1..], k - 1);
      }
    } else if b != [] && a[0] < b[0] {
      assert PartAt(a, b, 0);
    }
  }

  lemma {:induction false} StrLeTotal(a: string, b: string)
    ensures StrLe(a, b) || StrLe(b, a)
  {
    if a != [] && b != [] {
      StrLeTotal(a[1..], b[1..]);
    }
  }

  lemma {:induction false} StrLeAntisymmetric(a: string, b: string)
    requires StrLe(a, b) && StrLe(b, a)
    ensures a == b
  {
    if a != [] && b != [] {
      StrLeAntisymmetric(a[1..], b[1..]);
      assert a == [a[0]] + a[1..] && b == [b[0]] + b[1..];
    }
  }

  lemma {:induction false} StrLeTransitive(a: string, b: string, c: string)
    requires StrLe(a, b) && StrLe(b, c)
    ensures StrLe(a, c)
  {
    if a != [] && a[0] == b[0] == c[0] {
      StrLeTransitive(a[1..], b[1..], c[1..]);
    }
  }
}

/** registry/latest.go: per logical server keep the most recently started instance. */
module Latest {
  import opened Registry
  import opened StringOrder

  /** (StartedAt, InstanceID) order: the loop drops a node that is at most the current one. */
  predicate NodeLe(m: Node, n: Node) {
    m.startedAt < n.startedAt || (m.startedAt == n.startedAt && StrLe(m.instanceID, n.instanceID))
  }

  lemma {:induction false} NodeLeOrder(a: Node, b: Node, c: Node)
    ensures NodeLe(a, b) || NodeLe(b, a)
    ensures NodeLe(a, b) && NodeLe(b, c) ==> NodeLe(a, c)
    ensures NodeLe(a, b) && NodeLe(b, a) ==> a.startedAt == b.startedAt && a.instanceID == b.instanceID
  {
    StrLeTotal(a.instanceID, b.instanceID);
    if StrLe(a.instanceID, b.instanceID) && StrLe(b.instanceID, c.instanceID) {
      StrLeTransitive(a.instanceID, b.instanceID, c.instanceID);
    }
    if StrLe(a.instanceID, b.instanceID) && StrLe(b.instanceID, a.instanceID) {
      StrLeAntisymmetric(a.instanceID, b.instanceID);
    }
  }

  /** A node together with the service name and the map key it is listed under. */
  datatype Item = Item(name: string, key: string, node: Node)

  function KeyOf(name: string, serverID: string): string {
    name + "\0" + serverID
  }

  function ItemOf(s: Service, n: nat): Item
    requires n < |s.nodes|
  {
    Item(s.name, KeyOf(s.name, s.nodes[n].serverID), s.nodes[n])
  }

  function Items(s: Service): (xs: seq<Item>)
    ensures |xs| == |s.nodes| && forall i :: 0 <= i < |xs| ==> xs[i] == ItemOf(s, i)
  {
    seq(|s.nodes|, i requires 0 <= i < |s.nodes| => ItemOf(s, i))
  }

  /** The nodes of the first k services of a snapshot in listing order. */
  function FlatTo(ss: seq<Service>, k: nat): seq<Item>
    requires k <= |ss|
  {
    if k == 0 then [] else FlatTo(ss, k - 1) + Items(ss[k - 1])
  }

  /** All nodes of a snapshot in listing order. */
  function Flat(ss: seq<Service>): seq<Item> {
    FlatTo(ss, |ss|)
  }

  /** Where service k's nodes start in the listing. */
  function Offset(ss: seq<Service>, k: nat): nat
    requires k <= |ss|
  {
    |FlatTo(ss, k)|
  }

  lemma {:induction false} FlatPrefix(ss: seq<Service>, k: nat, m: nat)
    requires k <= m <= |ss|
    ensures Offset(ss, k) <= Offset(ss, m)
    ensures forall i :: 0 <= i < Offset(ss, k) ==> FlatTo(ss, m)[i] == FlatTo(ss, k)[i]
    decreases m
  {
    if k < m {
      FlatPrefix(ss, k, m - 1);
    }
  }

  lemma {:induction false} FlatSplit(ss: seq<Service>, k: nat)
    requires k < |ss|
    ensures Offset(ss, k + 1) == Offset(ss, k) + |ss[k].nodes| <= |Flat(ss)|
    ensures forall n :: 0 <= n < |ss[k].nodes| ==> Flat(ss)[Offset(ss, k) + n] == ItemOf(ss[k], n)
  {
    FlatPrefix(ss, k + 1, |ss|);
    forall n | 0 <= n < |ss[k].nodes|
      ensures Flat(ss)[Offset(ss, k) + n] == ItemOf(ss[k], n)
    {
      assert FlatTo(ss, k + 1)[Offset(ss, k) + n] == ItemOf(ss[k], n);
    }
  }

  // ----- the reference definition

  /** Among the first m items, i is the first one that no other item with its key exceeds. */
  ghost predicate Winner(flat: seq<Item>, m: nat, i: nat)
    requires m <= |flat|
  {
    && i < m && flat[i].node.serverID != ""
    && forall j :: 0 <= j < m && flat[j].node.serverID != "" && flat[j].key == flat[i].key ==>
         NodeLe(flat[j].node, flat[i].node) && (NodeLe(flat[i].node, flat[j].node) ==> i <= j)
  }

  ghost predicate Kept(flat: seq<Item>, i: nat)
    requires i < |flat|
  {
    flat[i].node.serverID == "" || Winner(flat, |flat|, i)
  }

  ghost function Flags(flat: seq<Item>): (flags: seq<bool>)
    ensures |flags| == |flat| && forall i :: 0 <= i < |flat| ==> flags[i] == Kept(flat, i)
  {
    seq(|flat|, i requires 0 <= i < |flat| => Kept(flat, i))
  }

  ghost function KeepItems(flat: seq<Item>, flags: seq<bool>, n: nat): seq<Item>
    requires n <= |flat| == |flags|
  {
    if n == 0 then [] else
    KeepItems(flat, flags, n - 1) + if flags[n - 1] then [flat[n - 1]] else []
  }

  /** The flagged ones of the first n of some nodes whose listing starts at off. */
  ghost function KeepNodes(flags: seq<bool>, off: nat, nodes: seq<Node>, n: nat): seq<Node>
    requires off + |nodes| <= |flags| && n <= |nodes|
  {
    if n == 0 then [] else
    KeepNodes(flags, off, nodes, n - 1) + if flags[off + n - 1] then [nodes[n - 1]] else []
  }

  ghost function KeepServices(ss: seq<Service>, flags: seq<bool>, k: nat): seq<Service>
    requires k <= |ss| && |flags| == |Flat(ss)|
  {
    if k == 0 then [] else
    FlatSplit(ss, k - 1);
    var s := ss[k - 1];
    var nodes := KeepNodes(flags, Offset(ss, k - 1), s.nodes, |s.nodes|);
    KeepServices(ss, flags, k - 1) + if nodes == [] then [] else [s.(nodes := nodes)]
  }

  /** The snapshot reduced to its kept nodes; services left without nodes are dropped. */
  ghost function LatestOf(ss: seq<Service>): seq<Service> {
    KeepServices(ss, Flags(Flat(ss)), |ss|)
  }

  // ----- the loops

  datatype Position = Position(service: nat, node: nat)

  ghost predicate PositionOk(ss: seq<Service>, p: Position) {
    p.service < |ss| && p.node < |ss[p.service].nodes|
  }

  ghost function Index(ss: seq<Service>, p: Position): nat
    requires PositionOk(ss, p)
  {
    Offset(ss, p.service) + p.node
  }

  lemma {:induction false} ItemAt(ss: seq<Service>, p: Position)
    requires PositionOk(ss, p)
    ensures Index(ss, p) < |Flat(ss)|
    ensures Flat(ss)[Index(ss, p)] == ItemOf(ss[p.service], p.node)
  {
    FlatSplit(ss, p.service);
  }

  lemma {:induction false} IndexInjective(ss: seq<Service>, p: Position, q: Position)
    requires PositionOk(ss, p) && PositionOk(ss, q) && p.service <= q.service
    ensures Index(ss, p) == Index(ss, q) ==> p == q
  {
    if p.service < q.service {
      FlatSplit(ss, p.service);
      FlatPrefix(ss, p.service + 1, q.service);
    }
  }

  /** The first loop's map after m items: every key seen so far points at its winner. */
  ghost predicate Tracks(ss: seq<Service>, m: nat, latest: map<string, Position>)
    requires m <= |Flat(ss)|
  {
    var flat := Flat(ss);
    && (forall k :: k in latest ==>
          PositionOk(ss, latest[k]) && Index(ss, latest[k]) < m
          && Winner(flat, m, Index(ss, latest[k])) && flat[Index(ss, latest[k])].key == k)
    && forall j :: 0 <= j < m && flat[j].node.serverID != "" ==> flat[j].key in latest
  }

  lemma {:induction false} WinnerStays(flat: seq<Item>, m: nat, w: nat)
    requires m < |flat| && Winner(flat, m, w)
    requires flat[m].node.serverID == "" || flat[m].key != flat[w].key || NodeLe(flat[m].node, flat[w].node)
    ensures Winner(flat, m + 1, w)
  {
  }

  lemma {:induction false} WinnerReplaced(flat: seq<Item>, m: nat, w: nat)
    requires m < |flat| && Winner(flat, m, w) && flat[m].key == flat[w].key
    requires flat[m].node.serverID != "" && !NodeLe(flat[m].node, flat[w].node)
    ensures Winner(flat, m + 1, m)
  {
    var x := flat[m].node;
    NodeLeOrder(x, flat[w].node, x);
    forall j | 0 <= j < m && flat[j].node.serverID != "" && flat[j].key == flat[m].key
      ensures NodeLe(flat[j].node, x) && !NodeLe(x, flat[j].node)
    {
      NodeLeOrder(flat[j].node, flat[w].node, x);
      NodeLeOrder(x, flat[j].node, flat[w].node);
    }
    NodeLeOrder(x, x, x);
  }

  /** One turn of the inner loop keeps the map tracking. */
  lemma {:induction false} TrackOne(ss: seq<Service>, m: nat, latest: map<string, Position>, p: Position)
    requires m < |Flat(ss)| && Tracks(ss, m, latest) && PositionOk(ss, p) && Index(ss, p) == m
    ensures var x := Flat(ss)[m];
            var wins := x.node.serverID != ""
              && !(x.key in latest && NodeLe(x.node, Flat(ss)[Index(ss, latest[x.key])].node));
            Tracks(ss, m + 1, if wins then latest[x.key := p] else latest)
  {
    var flat := Flat(ss);
    var x := flat[m];
    var wins := x.node.serverID != "" && !(x.key in latest && NodeLe(x.node, flat[Index(ss, latest[x.key])].node));
    var next := if wins then latest[x.key := p] else latest;
    if wins {
      if x.key in latest {
        WinnerReplaced(flat, m, Index(ss, latest[x.key]));
      } else {
        NodeLeOrder(x.node, x.node, x.node);
      }
    }
    forall k | k in next
      ensures PositionOk(ss, next[k]) && Index(ss, next[k]) < m + 1
      ensures Winner(flat, m + 1, Index(ss, next[k])) && flat[Index(ss, next[k])].key == k
    {
      if !wins || k != x.key {
        WinnerStays(flat, m, Index(ss, latest[k]));
      }
    }
  }

  /** At the end the map decides exactly which positions are kept. */
  lemma {:induction false} TracksDecides(ss: seq<Service>, latest: map<string, Position>, p: Position)
    requires Tracks(ss, |Flat(ss)|, latest) && PositionOk(ss, p)
    ensures Index(ss, p) < |Flat(ss)|
    ensures var x := Flat(ss)[Index(ss, p)];
            && x == ItemOf(ss[p.service], p.node)
            && (x.node.serverID != "" ==> x.key in latest)
            && (Kept(Flat(ss), Index(ss, p)) <==> x.node.serverID == "" || latest[x.key] == p)
  {
    ItemAt(ss, p);
    var i := Index(ss, p);
    var x := Flat(ss)[i];
    if x.node.serverID != "" {
      var q := latest[x.key];
      if Kept(Flat(ss), i) {
        assert Winner(Flat(ss), |Flat(ss)|, Index(ss, q));
        NodeLeOrder(x.node, x.node, x.node);
        assert Index(ss, q) == i;
        if p.service <= q.service { IndexInjective(ss, p, q); } else { IndexInjective(ss, q, p); }
      }
    }
  }

  /** One turn of the inner loop of the first pass. */
  method Consider(services: seq<Service>, p: Position, before: map<string, Position>)
    returns (latest: map<string, Position>)
    requires PositionOk(services, p) && Index(services, p) < |Flat(services)|
    requires Tracks(services, Index(services, p), before)
    ensures Tracks(services, Index(services, p) + 1, latest)
  {
    var node := services[p.service].nodes[p.node];
    var key := KeyOf(services[p.service].name, node.serverID);
    TrackOne(services, Index(services, p), before, p);
    ItemAt(services, p);
    latest := before;
    if node.serverID == "" {
      return;
    }
    if key in latest {
      var previous := services[latest[key].service].nodes[latest[key].node];
      ItemAt(services, latest[key]);
      if node.startedAt < previous.startedAt
         || (node.startedAt == previous.startedAt && StrLe(node.instanceID, previous.instanceID)) {
        return;
      }
    }
    latest := latest[key := p];
  }

  /** The inner loop of the first pass. */
  method ScanService(services: seq<Service>, si: nat, before: map<string, Position>)
    returns (latest: map<string, Position>)
    requires si < |services| && Offset(services, si + 1) <= |Flat(services)|
    requires Offset(services, si) <= |Flat(services)| && Tracks(services, Offset(services, si), before)
    ensures Tracks(services, Offset(services, si + 1), latest)
  {
    latest := before;
    FlatSplit(services, si);
    ghost var m := Offset(services, si);
    var ni := 0;
    while ni < |services[si].nodes|
      invariant 0 <= ni <= |services[si].nodes|
      invariant Tracks(services, m + ni, latest)
    {
      latest := Consider(services, Position(si, ni), latest);
      ni := ni + 1;
    }
  }

  /** The first pass: where each logical server's most recent instance is listed. */
  method FindLatest(services: seq<Service>) returns (latest: map<string, Position>)
    ensures Tracks(services, |Flat(services)|, latest)
  {
    latest := map[];
    for si := 0 to |services|
      invariant Offset(services, si) <= |Flat(services)| && Tracks(services, Offset(services, si), latest)
    {
      FlatPrefix(services, si + 1, |services|);
      latest := ScanService(services, si, latest);
    }
  }

  /** The map's verdict on every node of service si agrees with the flags. */
  ghost predicate Decides(s: Service, si: nat, latest: map<string, Position>, flags: seq<bool>, off: nat) {
    && off + |s.nodes| <= |flags|
    && forall ni :: 0 <= ni < |s.nodes| ==>
         var key := KeyOf(s.name, s.nodes[ni].serverID);
         && (s.nodes[ni].serverID != "" ==> key in latest)
         && flags[off + ni] == (s.nodes[ni].serverID == "" || latest[key] == Position(si, ni))
  }

  lemma {:induction false} TracksDecidesOne(ss: seq<Service>, latest: map<string, Position>, si: nat, ni: nat)
    requires si < |ss| && ni < |ss[si].nodes| && Tracks(ss, |Flat(ss)|, latest)
    ensures Offset(ss, si) + ni < |Flat(ss)|
    ensures var key := KeyOf(ss[si].name, ss[si].nodes[ni].serverID);
            && (ss[si].nodes[ni].serverID != "" ==> key in latest)
            && Flags(Flat(ss))[Offset(ss, si) + ni] == (ss[si].nodes[ni].serverID == "" || latest[key] == Position(si, ni))
  {
    TracksDecides(ss, latest, Position(si, ni));
  }

  lemma {:induction false} TracksDecidesAll(ss: seq<Service>, latest: map<string, Position>, si: nat, flags: seq<bool>)
    requires si < |ss| && Tracks(ss, |Flat(ss)|, latest) && flags == Flags(Flat(ss))
    ensures Decides(ss[si], si, latest, flags, Offset(ss, si))
  {
    assert Offset(ss, si) + |ss[si].nodes| <= |flags| by { FlatSplit(ss, si); }
    forall ni | 0 <= ni < |ss[si].nodes|
      ensures var key := KeyOf(ss[si].name, ss[si].nodes[ni].serverID);
              && (ss[si].nodes[ni].serverID != "" ==> key in latest)
              && flags[Offset(ss, si) + ni] == (ss[si].nodes[ni].serverID == "" || latest[key] == Position(si, ni))
    {
      TracksDecidesOne(ss, latest, si, ni);
    }
  }

  /** The inner loop of the second pass. */
  method FilterNodes(s: Service, si: nat, latest: map<string, Position>, ghost flags: seq<bool>, ghost off: nat)
    returns (nodes: seq<Node>)
    requires Decides(s, si, latest, flags, off)
    ensures nodes == KeepNodes(flags, off, s.nodes, |s.nodes|)
  {
    nodes := [];
    for ni := 0 to |s.nodes|
      invariant nodes == KeepNodes(flags, off, s.nodes, ni)
    {
      var node := s.nodes[ni];
      if node.serverID != "" && latest[KeyOf(s.name, node.serverID)] != Position(si, ni) {
        continue;
      }
      nodes := nodes + [node];
    }
  }

  method LatestServices(services: seq<Service>) returns (result: seq<Service>)
    ensures result == LatestOf(services)
  {
    var latest := FindLatest(services);
    ghost var flags := Flags(Flat(services));
    result := [];
    for si := 0 to |services|
      invariant result == KeepServices(services, flags, si)
    {
      TracksDecidesAll(services, latest, si, flags);
      var nodes := FilterNodes(services[si], si, latest, flags, Offset(services, si));
      if |nodes| > 0 {
        result := result + [services[si].(nodes := nodes)];
      }
    }
  }
}
