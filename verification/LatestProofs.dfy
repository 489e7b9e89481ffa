/** What LatestServices promises (registry/latest.go:3-6), proved of the reference LatestOf. */
module LatestProofs {
  import opened Registry
  import opened StringOrder
  import opened Latest

  // ----- the result lists exactly the kept items, in order

  lemma {:induction false} FlatToSame(ss: seq<Service>, tt: seq<Service>, k: nat)
    requires k <= |ss| && k <= |tt| && forall i :: 0 <= i < k ==> ss[i] == tt[i]
    ensures FlatTo(ss, k) == FlatTo(tt, k)
  {
    if k > 0 {
      FlatToSame(ss, tt, k - 1);
    }
  }

  lemma {:induction false} FlatAppend(ss: seq<Service>, s: Service)
    ensures Flat(ss + [s]) == Flat(ss) + Items(s)
  {
    FlatToSame(ss + [s], ss, |ss|);
  }

  lemma {:induction false} KeepNodesItems(flat: seq<Item>, flags: seq<bool>, off: nat, s: Service, n: nat)
    requires off + |s.nodes| <= |flat| == |flags| && n <= |s.nodes|
    requires forall i :: 0 <= i < |s.nodes| ==> flat[off + i] == ItemOf(s, i)
    ensures KeepItems(flat, flags, off + n)
            == KeepItems(flat, flags, off) + Items(s.(nodes := KeepNodes(flags, off, s.nodes, n)))
  {
    if n > 0 {
      KeepNodesItems(flat, flags, off, s, n - 1);
      var before := s.(nodes := KeepNodes(flags, off, s.nodes, n - 1));
      var after := s.(nodes := KeepNodes(flags, off, s.nodes, n));
      if flags[off + n - 1] {
        assert forall i :: 0 <= i < |before.nodes| ==> ItemOf(after, i) == ItemOf(before, i);
        assert ItemOf(after, |before.nodes|) == ItemOf(s, n - 1) == flat[off + n - 1];
        assert Items(after) == Items(before) + [flat[off + n - 1]];
      } else {
        assert after == before;
      }
    }
  }

  lemma {:induction false} FlatKeepServices(ss: seq<Service>, flags: seq<bool>, k: nat)
    requires k <= |ss| && |flags| == |Flat(ss)| && Offset(ss, k) <= |Flat(ss)|
    ensures Flat(KeepServices(ss, flags, k)) == KeepItems(Flat(ss), flags, Offset(ss, k))
  {
    if k > 0 {
      FlatSplit(ss, k - 1);
      FlatKeepServices(ss, flags, k - 1);
      var s, off := ss[k - 1], Offset(ss, k - 1);
      KeepNodesItems(Flat(ss), flags, off, s, |s.nodes|);
      var kept := s.(nodes := KeepNodes(flags, off, s.nodes, |s.nodes|));
      if kept.nodes == [] {
        assert Items(kept) == [];
        assert KeepServices(ss, flags, k) == KeepServices(ss, flags, k - 1);
      } else {
        FlatAppend(KeepServices(ss, flags, k - 1), kept);
      }
    }
  }

  /** The listing of the result is the listing of the input with the other items left out. */
  lemma {:induction false} LatestListing(ss: seq<Service>)
    ensures Flat(LatestOf(ss)) == KeepItems(Flat(ss), Flags(Flat(ss)), |Flat(ss)|)
  {
    FlatKeepServices(ss, Flags(Flat(ss)), |ss|);
  }

  /** The indices the kept items come from. */
  ghost function Sources(flags: seq<bool>, n: nat): seq<nat>
    requires n <= |flags|
  {
    if n == 0 then [] else Sources(flags, n - 1) + if flags[n - 1] then [n - 1] else []
  }

  lemma {:induction false} SourcesExact(flat: seq<Item>, flags: seq<bool>, n: nat)
    requires n <= |flat| == |flags|
    ensures |Sources(flags, n)| == |KeepItems(flat, flags, n)|
    ensures forall p :: 0 <= p < |Sources(flags, n)| ==>
              Sources(flags, n)[p] < n && flags[Sources(flags, n)[p]]
              && KeepItems(flat, flags, n)[p] == flat[Sources(flags, n)[p]]
    ensures forall p, q :: 0 <= p < q < |Sources(flags, n)| ==> Sources(flags, n)[p] < Sources(flags, n)[q]
    ensures forall i :: 0 <= i < n && flags[i] ==> i in Sources(flags, n)
  {
    if n > 0 {
      SourcesExact(flat, flags, n - 1);
    }
  }

  // ----- each logical server keeps exactly its most recent instance

  lemma {:induction false} WinnerExists(flat: seq<Item>, m: nat, i: nat) returns (w: nat)
    requires i < m <= |flat| && flat[i].node.serverID != ""
    ensures Winner(flat, m, w) && flat[w].key == flat[i].key
    decreases m
  {
    var x := flat[m - 1];
    if i < m - 1 {
      w := WinnerExists(flat, m - 1, i);
      if x.node.serverID != "" && x.key == flat[w].key && !NodeLe(x.node, flat[w].node) {
        WinnerReplaced(flat, m - 1, w);
        w := m - 1;
      } else {
        WinnerStays(flat, m - 1, w);
      }
    } else if j :| 0 <= j < m - 1 && flat[j].node.serverID != "" && flat[j].key == x.key {
      w := WinnerExists(flat, m - 1, j);
      if NodeLe(x.node, flat[w].node) {
        WinnerStays(flat, m - 1, w);
      } else {
        WinnerReplaced(flat, m - 1, w);
        w := m - 1;
      }
    } else {
      NodeLeOrder(x.node, x.node, x.node);
      w := m - 1;
    }
  }

  predicate NulFree(s: string) {
    forall i :: 0 <= i < |s| ==> s[i] != '\0'
  }

  /** A condition on the names alone that keeps the keys apart (NulFreeSeparates). */
  predicate NamesNulFree(ss: seq<Service>) {
    forall i :: 0 <= i < |ss| ==> NulFree(ss[i].name)
  }

  lemma {:induction false} KeyInjective(n1: string, s1: string, n2: string, s2: string)
    requires NulFree(n1) && NulFree(n2)
    ensures KeyOf(n1, s1) == KeyOf(n2, s2) <==> n1 == n2 && s1 == s2
  {
    var a, b := KeyOf(n1, s1), KeyOf(n2, s2);
    if a == b {
      assert a[|n1|] == '\0' && b[|n2|] == '\0';
      assert forall i :: 0 <= i < |n1| ==> a[i] == n1[i];
      assert forall i :: 0 <= i < |n2| ==> b[i] == n2[i];
      assert |n1| == |n2|;
      assert n1 == a[..|n1|] && n2 == b[..|n2|];
      assert s1 == a[|n1| + 1..] && s2 == b[|n2| + 1..];
    }
  }

  lemma {:induction false} ItemKey(ss: seq<Service>, k: nat, i: nat)
    requires k <= |ss| && i < Offset(ss, k)
    ensures var x := FlatTo(ss, k)[i]; x.key == KeyOf(x.name, x.node.serverID) && exists s :: s in ss && s.name == x.name
  {
    if i < Offset(ss, k - 1) {
      ItemKey(ss, k - 1, i);
    } else {
      assert FlatTo(ss, k)[i] == ItemOf(ss[k - 1], i - Offset(ss, k - 1));
      assert ss[k - 1] in ss;
    }
  }

  ghost predicate SameServer(x: Item, y: Item) {
    x.name == y.name && x.node.serverID == y.node.serverID != ""
  }

  /** No two logical servers of a snapshot share a map key. */
  ghost predicate KeysSeparate(ss: seq<Service>) {
    forall x, y :: x in Flat(ss) && y in Flat(ss) && x.node.serverID != "" && y.node.serverID != "" && x.key == y.key ==>
      SameServer(x, y)
  }

  lemma {:induction false} KeyOfItem(ss: seq<Service>, x: Item)
    requires x in Flat(ss)
    ensures x.key == KeyOf(x.name, x.node.serverID) && exists s :: s in ss && s.name == x.name
  {
    var i :| 0 <= i < |Flat(ss)| && Flat(ss)[i] == x;
    ItemKey(ss, |ss|, i);
  }

  lemma {:induction false} NulFreeSeparates(ss: seq<Service>)
    requires NamesNulFree(ss)
    ensures KeysSeparate(ss)
  {
    forall x, y | x in Flat(ss) && y in Flat(ss) && x.node.serverID != "" && y.node.serverID != "" && x.key == y.key
      ensures SameServer(x, y)
    {
      KeyOfItem(ss, x);
      KeyOfItem(ss, y);
      KeyInjective(x.name, x.node.serverID, y.name, y.node.serverID);
    }
  }

  /** Where an item of the result comes from: a kept item of the input. */
  lemma {:induction false} SourceOf(ss: seq<Service>, p: nat) returns (w: nat)
    requires p < |Flat(LatestOf(ss))|
    ensures w < |Flat(ss)| && Kept(Flat(ss), w) && Flat(ss)[w] == Flat(LatestOf(ss))[p]
    ensures p < |Sources(Flags(Flat(ss)), |Flat(ss)|)| && w == Sources(Flags(Flat(ss)), |Flat(ss)|)[p]
  {
    LatestListing(ss);
    SourcesExact(Flat(ss), Flags(Flat(ss)), |Flat(ss)|);
    w := Sources(Flags(Flat(ss)), |Flat(ss)|)[p];
  }

  /** What is listed for a logical server is a maximum of (StartedAt, InstanceID) over the whole
      snapshot, across versions. */
  lemma {:induction false} LatestIsMaximal(ss: seq<Service>, p: nat, i: nat)
    requires p < |Flat(LatestOf(ss))| && i < |Flat(ss)|
    requires SameServer(Flat(LatestOf(ss))[p], Flat(ss)[i])
    ensures NodeLe(Flat(ss)[i].node, Flat(LatestOf(ss))[p].node)
    ensures var x, kept := Flat(ss)[i].node, Flat(LatestOf(ss))[p].node;
            x.startedAt <= kept.startedAt
            && (x.startedAt == kept.startedAt ==> exists k: nat :: PartAt(x.instanceID, kept.instanceID, k))
  {
    var w := SourceOf(ss, p);
    KeyOfItem(ss, Flat(ss)[w]);
    KeyOfItem(ss, Flat(ss)[i]);
    StrLeLexicographic(Flat(ss)[i].node.instanceID, Flat(LatestOf(ss))[p].node.instanceID);
  }

  /** At most one instance is listed per logical server ... */
  lemma {:induction false} LatestIsUnique(ss: seq<Service>, p: nat, q: nat)
    requires p < q < |Flat(LatestOf(ss))|
    ensures !SameServer(Flat(LatestOf(ss))[p], Flat(LatestOf(ss))[q])
  {
    var v := SourceOf(ss, p);
    var w := SourceOf(ss, q);
    assert v < w by {
      SourcesExact(Flat(ss), Flags(Flat(ss)), |Flat(ss)|);
    }
    KeyOfItem(ss, Flat(ss)[v]);
    KeyOfItem(ss, Flat(ss)[w]);
  }

  /** The winner of an item's key is listed. */
  lemma {:induction false} WinnerIsListed(ss: seq<Service>, i: nat) returns (p: nat)
    requires i < |Flat(ss)| && Flat(ss)[i].node.serverID != ""
    ensures p < |Flat(LatestOf(ss))| && Flat(LatestOf(ss))[p].key == Flat(ss)[i].key
    ensures Flat(LatestOf(ss))[p].node.serverID != "" && Flat(LatestOf(ss))[p] in Flat(ss)
    ensures forall y :: y in Flat(ss) && y.node.serverID != "" && y.key == Flat(ss)[i].key ==>
              NodeLe(y.node, Flat(LatestOf(ss))[p].node)
  {
    var flat := Flat(ss);
    LatestListing(ss);
    SourcesExact(flat, Flags(flat), |flat|);
    var w := WinnerExists(flat, |flat|, i);
    assert Flags(flat)[w];
    p :| 0 <= p < |Sources(Flags(flat), |flat|)| && Sources(Flags(flat), |flat|)[p] == w;
  }

  /** Every logical server that occurs keeps a node. */
  ghost predicate Complete(ss: seq<Service>) {
    forall x :: x in Flat(ss) && x.node.serverID != "" ==> exists y :: y in Flat(LatestOf(ss)) && SameServer(y, x)
  }

  lemma {:induction false} CollisionLoses(ss: seq<Service>, x: Item, y: Item)
    requires Complete(ss) && x in Flat(ss) && y in Flat(ss)
    requires x.node.serverID != "" && y.node.serverID != "" && x.key == y.key
    ensures SameServer(x, y)
  {
    var out := Flat(LatestOf(ss));
    var a :| a in out && SameServer(a, x);
    var b :| b in out && SameServer(b, y);
    var p :| 0 <= p < |out| && out[p] == a;
    var q :| 0 <= q < |out| && out[q] == b;
    var v := SourceOf(ss, p);
    var w := SourceOf(ss, q);
    KeyOfItem(ss, x);
    KeyOfItem(ss, y);
    KeyOfItem(ss, Flat(ss)[v]);
    KeyOfItem(ss, Flat(ss)[w]);
    assert v == w;
  }

  /** ... and none that has an instance is left out, if and only if no two share a key. */
  lemma {:induction false} LatestIsComplete(ss: seq<Service>)
    ensures Complete(ss) <==> KeysSeparate(ss)
  {
    if KeysSeparate(ss) {
      forall x | x in Flat(ss) && x.node.serverID != ""
        ensures exists y :: y in Flat(LatestOf(ss)) && SameServer(y, x)
      {
        var i :| 0 <= i < |Flat(ss)| && Flat(ss)[i] == x;
        var p := WinnerIsListed(ss, i);
        assert SameServer(Flat(LatestOf(ss))[p], x);
      }
    }
    if Complete(ss) {
      forall x, y | x in Flat(ss) && y in Flat(ss) && x.node.serverID != "" && y.node.serverID != "" && x.key == y.key
        ensures SameServer(x, y)
      {
        CollisionLoses(ss, x, y);
      }
    }
  }

  /** Items without a logical id. */
  function Anonymous(xs: seq<Item>, n: nat): seq<Item>
    requires n <= |xs|
  {
    if n == 0 then [] else Anonymous(xs, n - 1) + if xs[n - 1].node.serverID == "" then [xs[n - 1]] else []
  }

  lemma {:induction false} AnonymousAppend(xs: seq<Item>, ys: seq<Item>, n: nat)
    requires n <= |ys|
    ensures Anonymous(xs + ys, |xs| + n) == Anonymous(xs, |xs|) + Anonymous(ys, n)
  {
    if n > 0 {
      AnonymousAppend(xs, ys, n - 1);
    } else {
      AnonymousPrefix(xs + ys, xs, |xs|);
    }
  }

  lemma {:induction false} AnonymousPrefix(xs: seq<Item>, ys: seq<Item>, n: nat)
    requires n <= |xs| && n <= |ys| && forall i :: 0 <= i < n ==> xs[i] == ys[i]
    ensures Anonymous(xs, n) == Anonymous(ys, n)
  {
    if n > 0 {
      AnonymousPrefix(xs, ys, n - 1);
    }
  }

  lemma {:induction false} KeepsAnonymous(flat: seq<Item>, flags: seq<bool>, n: nat)
    requires n <= |flat| == |flags|
    requires forall i :: 0 <= i < n && flat[i].node.serverID == "" ==> flags[i]
    ensures Anonymous(KeepItems(flat, flags, n), |KeepItems(flat, flags, n)|) == Anonymous(flat, n)
  {
    if n > 0 {
      KeepsAnonymous(flat, flags, n - 1);
      if flags[n - 1] {
        AnonymousAppend(KeepItems(flat, flags, n - 1), [flat[n - 1]], 1);
        assert Anonymous([flat[n - 1]], 1) == if flat[n - 1].node.serverID == "" then [flat[n - 1]] else [];
      } else {
        assert KeepItems(flat, flags, n) == KeepItems(flat, flags, n - 1);
      }
    }
  }

  /** Nodes without a ServerID are all kept, in order. */
  lemma {:induction false} LatestKeepsAnonymous(ss: seq<Service>)
    ensures var out := Flat(LatestOf(ss)); Anonymous(out, |out|) == Anonymous(Flat(ss), |Flat(ss)|)
  {
    LatestListing(ss);
    KeepsAnonymous(Flat(ss), Flags(Flat(ss)), |Flat(ss)|);
  }

  // ----- idempotence and independence of the input order

  lemma {:induction false} KeepAll(ss: seq<Service>, flags: seq<bool>, k: nat)
    requires k <= |ss| && |flags| == |Flat(ss)| && forall i :: 0 <= i < |flags| ==> flags[i]
    requires forall i :: 0 <= i < |ss| ==> ss[i].nodes != []
    ensures KeepServices(ss, flags, k) == ss[..k]
  {
    if k > 0 {
      KeepAll(ss, flags, k - 1);
      FlatSplit(ss, k - 1);
      var s := ss[k - 1];
      KeepAllNodes(flags, Offset(ss, k - 1), s.nodes, |s.nodes|);
      assert s.(nodes := s.nodes[..|s.nodes|]) == s;
      assert ss[..k] == ss[..k - 1] + [ss[k - 1]];
    }
  }

  lemma {:induction false} KeepAllNodes(flags: seq<bool>, off: nat, nodes: seq<Node>, n: nat)
    requires off + |nodes| <= |flags| && n <= |nodes| && forall i :: 0 <= i < |flags| ==> flags[i]
    ensures KeepNodes(flags, off, nodes, n) == nodes[..n]
  {
    if n > 0 {
      KeepAllNodes(flags, off, nodes, n - 1);
      assert nodes[..n] == nodes[..n - 1] + [nodes[n - 1]];
    }
  }

  lemma {:induction false} NoEmptyServices(ss: seq<Service>, flags: seq<bool>, k: nat)
    requires k <= |ss| && |flags| == |Flat(ss)|
    ensures forall i :: 0 <= i < |KeepServices(ss, flags, k)| ==> KeepServices(ss, flags, k)[i].nodes != []
  {
    if k > 0 {
      NoEmptyServices(ss, flags, k - 1);
    }
  }

  lemma {:induction false} LatestIdempotent(ss: seq<Service>)
    ensures LatestOf(LatestOf(ss)) == LatestOf(ss)
  {
    var flat, out := Flat(ss), Flat(LatestOf(ss));
    LatestListing(ss);
    SourcesExact(flat, Flags(flat), |flat|);
    forall p | 0 <= p < |out|
      ensures Kept(out, p)
    {
      var sources := Sources(Flags(flat), |flat|);
      NodeLeOrder(out[p].node, out[p].node, out[p].node);
      forall q | 0 <= q < |out| && out[p].node.serverID != "" && out[q].node.serverID != "" && out[q].key == out[p].key
        ensures q == p
      {
        assert Kept(flat, sources[p]) && Kept(flat, sources[q]);
        assert sources[p] == sources[q];
      }
    }
    NoEmptyServices(ss, Flags(flat), |ss|);
    KeepAll(LatestOf(ss), Flags(out), |LatestOf(ss)|);
    assert LatestOf(ss)[..|LatestOf(ss)|] == LatestOf(ss);
  }

  /** Two snapshots with the same nodes, listed in whatever order and grouping, select the same
      instances: each key the same, which is the same server when keys are separate. */
  lemma {:induction false} LatestIgnoresOrder(ss: seq<Service>, tt: seq<Service>, p: nat) returns (q: nat)
    requires forall x :: x in Flat(ss) <==> x in Flat(tt)
    requires p < |Flat(LatestOf(ss))| && Flat(LatestOf(ss))[p].node.serverID != ""
    ensures q < |Flat(LatestOf(tt))|
    ensures var x, y := Flat(LatestOf(ss))[p], Flat(LatestOf(tt))[q];
            && x.key == y.key && x.node.startedAt == y.node.startedAt && x.node.instanceID == y.node.instanceID
            && (KeysSeparate(ss) ==> SameServer(x, y))
  {
    var w := SourceOf(ss, p);
    var x := Flat(ss)[w];
    assert x in Flat(ss);
    var i :| 0 <= i < |Flat(tt)| && Flat(tt)[i] == x;
    q := WinnerIsListed(tt, i);
    var y := Flat(LatestOf(tt))[q];
    assert y in Flat(ss) && NodeLe(x.node, y.node);
    var j :| 0 <= j < |Flat(ss)| && Flat(ss)[j] == y;
    assert Winner(Flat(ss), |Flat(ss)|, w);
    NodeLeOrder(x.node, y.node, x.node);
  }

  lemma {:induction false} OneNode(s: Service, n: Node)
    requires s.nodes == [n]
    ensures Items(s) == [Item(s.name, KeyOf(s.name, n.serverID), n)]
  {
  }

  /** Two services, each with one instance of a logical server of its own, whose keys are equal
      because a name holds a NUL byte: LatestServices loses the server that started first. */
  lemma {:induction false} NulNameLosesServer()
    ensures var first := Service("a\0b", "1", [], [Node(1, "c", "i", "", 0, map[])]);
            var second := Service("a", "1", [], [Node(2, "b\0c", "j", "", 0, map[])]);
            LatestOf([first, second]) == [second]
  {
    var m, n := Node(1, "c", "i", "", 0, map[]), Node(2, "b\0c", "j", "", 0, map[]);
    var first, second := Service("a\0b", "1", [], [m]), Service("a", "1", [], [n]);
    var ss := [first, second];
    OneNode(first, m);
    OneNode(second, n);
    var key := "a\0b\0c";
    assert KeyOf("a\0b", "c") == key && KeyOf("a", "b\0c") == key;
    assert FlatTo(ss, 0) == [] && FlatTo(ss, 1) == [Item("a\0b", key, m)];
    var flat := Flat(ss);
    assert flat == [Item("a\0b", key, m), Item("a", key, n)];
    NodeLeOrder(n, n, n);
    assert !Kept(flat, 0) && Kept(flat, 1);
    var flags := Flags(flat);
    assert KeepNodes(flags, 0, [m], 1) == [];
    assert KeepServices(ss, flags, 1) == [];
    assert KeepNodes(flags, 1, [n], 0) == [] && KeepNodes(flags, 1, [n], 1) == [n];
    assert second.(nodes := [n]) == second;
    assert KeepServices(ss, flags, 2) == [] + [second];
  }
}
