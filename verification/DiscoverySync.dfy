/** The watcher's events, applied by the cache, reproduce the registry's snapshot. */
module DiscoverySync {
  import opened Wrappers
  import opened Registry
  import opened Events
  import opened CacheSelector
  import opened ConsulWatcher

  // ----- one event, one version

  /** What an event does to the nodes cached for its own version, while the entry survives. */
  function PatchNodes(cur: seq<Node>, ev: Result): seq<Node> {
    var nodes := ev.service.nodes;
    if ev.action.Delete? then Select(cur, nodes, false)
    else if nodes == [] then cur
    else nodes + Select(cur, nodes, false)
  }

  lemma {:induction false} NodesAtIs(ss: seq<Service>, v: string, i: nat)
    requires DistinctVersions(ss) && i < |ss| && ss[i].version == v
    ensures NodesAt(ss, v) == ss[i].nodes
  {
    FindFirst(ss, i, |ss|);
  }

  lemma {:induction false} OthersExact(ss: seq<Service>, v: string)
    requires DistinctVersions(ss)
    ensures DistinctVersions(OtherVersions(ss, v))
    ensures forall s :: s in OtherVersions(ss, v) <==> s in ss && s.version != v
  {
    if ss != [] {
      var front := ss[..|ss| - 1];
      OthersExact(front, v);
      assert ss == front + [ss[|ss| - 1]];
      var o := OtherVersions(front, v);
      assert forall i :: 0 <= i < |o| ==> o[i] in front;
    }
  }

  /** Lists with the same services, in any order, agree on every version. */
  lemma {:induction false} SameServicesSameNodes(ss: seq<Service>, tt: seq<Service>, w: string)
    requires DistinctVersions(ss) && DistinctVersions(tt)
    requires forall s: Service :: s.version == w ==> (s in ss <==> s in tt)
    ensures NodesAt(ss, w) == NodesAt(tt, w)
  {
    var i, j := FindVersion(ss, w, |ss|), FindVersion(tt, w, |tt|);
    if i >= 0 {
      assert ss[i] in tt;
      var k :| 0 <= k < |tt| && tt[k] == ss[i];
      NodesAtIs(tt, w, k);
    }
  }

  /** The version-wise meaning of an event: it touches its own version only. */
  lemma {:induction false} PatchAt(services: seq<Service>, ev: Result, v: string)
    requires DistinctVersions(services) && PatchEntry(services, ev).entry.Some?
    ensures var after := PatchEntry(services, ev).entry.value;
            && DistinctVersions(after)
            && NodesAt(after, v)
               == if v == ev.service.version then PatchNodes(NodesAt(services, v), ev) else NodesAt(services, v)
  {
    var svc := ev.service;
    var after := PatchEntry(services, ev).entry.value;
    var at := FindVersion(services, svc.version, |services|);
    if svc.nodes == [] {
      return;
    }
    if at < 0 {
      if !ev.action.Delete? {
        FindAppend(services, svc, v, |services|);
      }
      return;
    }
    if ev.action.Delete? && Select(services[at].nodes, svc.nodes, false) == [] {
      OthersExact(services, svc.version);
      if v == svc.version {
        assert forall s :: s in after ==> s.version != v;
      } else {
        SameServicesSameNodes(after, services, v);
      }
      return;
    }
    if v == svc.version {
      NodesAtIs(after, v, at);
    } else {
      var i := FindVersion(services, v, |services|);
      if i >= 0 {
        NodesAtIs(after, v, i);
      }
    }
  }

  // ----- a list of events

  /** The entry after the first n events; a dropped entry stays dropped. */
  function ApplyTo(entry: Option<seq<Service>>, evs: seq<Result>, n: nat): Option<seq<Service>>
    requires n <= |evs|
  {
    if n == 0 then entry else
    match ApplyTo(entry, evs, n - 1)
    case None => None
    case Some(ss) => PatchEntry(ss, evs[n - 1]).entry
  }

  function ApplyAll(entry: Option<seq<Service>>, evs: seq<Result>): Option<seq<Service>> {
    ApplyTo(entry, evs, |evs|)
  }

  function FoldTo(cur: seq<Node>, evs: seq<Result>, v: string, n: nat): seq<Node>
    requires n <= |evs|
  {
    if n == 0 then cur
    else if evs[n - 1].service.version == v then PatchNodes(FoldTo(cur, evs, v, n - 1), evs[n - 1])
    else FoldTo(cur, evs, v, n - 1)
  }

  function FoldNodes(cur: seq<Node>, evs: seq<Result>, v: string): seq<Node> {
    FoldTo(cur, evs, v, |evs|)
  }

  lemma {:induction false} ApplyToAt(services: seq<Service>, evs: seq<Result>, v: string, n: nat)
    requires n <= |evs| && DistinctVersions(services) && ApplyTo(Some(services), evs, n).Some?
    ensures var after := ApplyTo(Some(services), evs, n).value;
            DistinctVersions(after) && NodesAt(after, v) == FoldTo(NodesAt(services, v), evs, v, n)
  {
    if n > 0 {
      ApplyToAt(services, evs, v, n - 1);
      PatchAt(ApplyTo(Some(services), evs, n - 1).value, evs[n - 1], v);
    }
  }

  lemma {:induction false} ApplyAllAt(services: seq<Service>, evs: seq<Result>, v: string)
    requires DistinctVersions(services) && ApplyAll(Some(services), evs).Some?
    ensures var after := ApplyAll(Some(services), evs).value;
            DistinctVersions(after) && NodesAt(after, v) == FoldNodes(NodesAt(services, v), evs, v)
  {
    ApplyToAt(services, evs, v, |evs|);
  }

  lemma {:induction false} FoldSame(cur: seq<Node>, a: seq<Result>, b: seq<Result>, v: string, n: nat)
    requires n <= |a| && n <= |b| && forall i :: 0 <= i < n ==> a[i] == b[i]
    ensures FoldTo(cur, a, v, n) == FoldTo(cur, b, v, n)
  {
    if n > 0 {
      FoldSame(cur, a, b, v, n - 1);
    }
  }

  lemma {:induction false} FoldOne(cur: seq<Node>, evs: seq<Result>, ev: Result, v: string)
    ensures FoldNodes(cur, evs + [ev], v)
            == if ev.service.version == v then PatchNodes(FoldNodes(cur, evs, v), ev) else FoldNodes(cur, evs, v)
  {
    FoldSame(cur, evs + [ev], evs, v, |evs|);
  }

  lemma {:induction false} FoldAppendTo(cur: seq<Node>, a: seq<Result>, b: seq<Result>, v: string, n: nat)
    requires n <= |b|
    ensures FoldTo(cur, a + b, v, |a| + n) == FoldTo(FoldNodes(cur, a, v), b, v, n)
  {
    if n == 0 {
      FoldSame(cur, a + b, a, v, |a|);
    } else {
      FoldAppendTo(cur, a, b, v, n - 1);
      assert (a + b)[|a| + n - 1] == b[n - 1];
    }
  }

  lemma {:induction false} FoldAppend(cur: seq<Node>, a: seq<Result>, b: seq<Result>, v: string)
    ensures FoldNodes(cur, a + b, v) == FoldNodes(FoldNodes(cur, a, v), b, v)
  {
    FoldAppendTo(cur, a, b, v, |b|);
  }

  // ----- the events of a snapshot

  /** The cached nodes of a version that neither snapshot knows by id. */
  function Stale(cur: seq<Node>, old_: seq<Node>, new_: seq<Node>): seq<Node> {
    Select(cur, old_ + new_, false)
  }

  lemma {:induction false} HasIDAppend(a: seq<Node>, b: seq<Node>, id: string)
    ensures HasID(a + b, id) <==> HasID(a, id) || HasID(b, id)
  {
    if HasID(a, id) {
      var i :| 0 <= i < |a| && a[i].instanceID == id;
      assert (a + b)[i].instanceID == id;
    }
    if HasID(b, id) {
      var i :| 0 <= i < |b| && b[i].instanceID == id;
      assert (a + b)[|a| + i].instanceID == id;
    }
    if HasID(a + b, id) {
      var i :| 0 <= i < |a + b| && (a + b)[i].instanceID == id;
      assert i < |a| ==> a[i].instanceID == id;
      assert i >= |a| ==> b[i - |a|].instanceID == id;
    }
  }

  lemma {:induction false} SelectHasID(nodes: seq<Node>, other: seq<Node>, id: string)
    ensures HasID(Select(nodes, other, false), id) <==> HasID(nodes, id) && !HasID(other, id)
  {
    SelectMembers(nodes, other, false);
    var s := Select(nodes, other, false);
    if HasID(s, id) {
      var i :| 0 <= i < |s| && s[i].instanceID == id;
      assert s[i] in nodes;
    }
    if HasID(nodes, id) && !HasID(other, id) {
      var i :| 0 <= i < |nodes| && nodes[i].instanceID == id;
      assert nodes[i] in s;
    }
  }

  /** Delete what was lost, then update: the new nodes, and what neither snapshot knew. */
  lemma {:induction false} DeleteThenUpdate(cur: seq<Node>, old_: seq<Node>, new_: seq<Node>)
    ensures var kept := Select(cur, Select(old_, new_, false), false);
            (if new_ == [] then kept else new_ + Select(kept, new_, false)) == new_ + Stale(cur, old_, new_)
  {
    var lost := Select(old_, new_, false);
    forall x | x in cur
      ensures HasID(old_ + new_, x.instanceID) <==> HasID(lost, x.instanceID) || HasID(new_, x.instanceID)
    {
      HasIDAppend(old_, new_, x.instanceID);
      SelectHasID(old_, new_, x.instanceID);
    }
    SelectTwice(cur, lost, new_, old_ + new_);
    if new_ == [] {
      SelectNone(Select(cur, lost, false));
    }
  }

  lemma {:induction false} LostNodesNone(old_: seq<Service>, svc: Service, n: nat)
    requires n <= |old_| && FindVersion(old_, svc.version, n) < 0
    ensures LostNodes(old_, svc, n) == []
  {
    if n > 0 {
      LostNodesNone(old_, svc, n - 1);
    }
  }

  lemma {:induction false} FoldLost(cur: seq<Node>, old_: seq<Service>, svc: Service, n: nat)
    requires DistinctVersions(old_) && n <= |old_| && FindVersion(old_, svc.version, n) >= 0
    ensures FoldNodes(cur, LostNodes(old_, svc, n), svc.version)
            == Select(cur, Select(old_[FindVersion(old_, svc.version, n)].nodes, svc.nodes, false), false)
  {
    var o, before := old_[n - 1], LostNodes(old_, svc, n - 1);
    if o.version == svc.version {
      var lost := Select(o.nodes, svc.nodes, false);
      assert FindVersion(old_, svc.version, n - 1) < 0;
      LostNodesNone(old_, svc, n - 1);
      if lost == [] {
        SelectNone(cur);
      } else {
        FoldOne(cur, [], Result(Delete, o.(nodes := lost)), svc.version);
      }
    } else {
      FoldLost(cur, old_, svc, n - 1);
      assert LostNodes(old_, svc, n) == before;
    }
  }

  lemma {:induction false} FoldLostOther(cur: seq<Node>, old_: seq<Service>, svc: Service, n: nat, v: string)
    requires n <= |old_| && v != svc.version
    ensures FoldNodes(cur, LostNodes(old_, svc, n), v) == cur
  {
    if n > 0 {
      FoldLostOther(cur, old_, svc, n - 1, v);
      var o, before := old_[n - 1], LostNodes(old_, svc, n - 1);
      var lost := Select(o.nodes, svc.nodes, false);
      if o.version == svc.version && lost != [] {
        FoldOne(cur, before, Result(Delete, o.(nodes := lost)), v);
      } else {
        assert LostNodes(old_, svc, n) == before;
      }
    }
  }

  lemma {:induction false} FoldVersion(cur: seq<Node>, old_: seq<Service>, svc: Service, v: string)
    requires DistinctVersions(old_)
    ensures FoldNodes(cur, VersionEvents(old_, svc), v)
            == if v == svc.version then svc.nodes + Stale(cur, NodesAt(old_, v), svc.nodes) else cur
  {
    var lost := LostNodes(old_, svc, |old_|);
    FoldOne(cur, lost, Result(if HasVersion(old_, svc.version) then Update else Create, svc), v);
    if v == svc.version {
      if HasVersion(old_, v) {
        FoldLost(cur, old_, svc, |old_|);
      } else {
        LostNodesNone(old_, svc, |old_|);
        SelectNone(cur);
      }
      DeleteThenUpdate(cur, NodesAt(old_, v), svc.nodes);
    } else {
      FoldLostOther(cur, old_, svc, |old_|, v);
    }
  }

  lemma {:induction false} FoldNew(cur: seq<Node>, old_: seq<Service>, new_: seq<Service>, n: nat, v: string)
    requires DistinctVersions(old_) && DistinctVersions(new_) && n <= |new_|
    ensures FoldNodes(cur, NewEvents(old_, new_, n), v)
            == if FindVersion(new_, v, n) >= 0
               then NodesAt(new_, v) + Stale(cur, NodesAt(old_, v), NodesAt(new_, v)) else cur
  {
    if n > 0 {
      var before, svc := NewEvents(old_, new_, n - 1), new_[n - 1];
      FoldNew(cur, old_, new_, n - 1, v);
      FoldAppend(cur, before, VersionEvents(old_, svc), v);
      FoldVersion(FoldNodes(cur, before, v), old_, svc, v);
      if svc.version == v {
        NodesAtIs(new_, v, n - 1);
      }
    }
  }

  lemma {:induction false} FoldDropped(cur: seq<Node>, old_: seq<Service>, new_: seq<Service>, n: nat, v: string)
    requires DistinctVersions(old_) && n <= |old_|
    ensures var i := FindVersion(old_, v, n);
            FoldNodes(cur, DroppedEvents(old_, new_, n), v)
            == if HasVersion(new_, v) || i < 0 then cur else Select(cur, old_[i].nodes, false)
  {
    if n > 0 {
      FoldDropped(cur, old_, new_, n - 1, v);
      var o, before := old_[n - 1], DroppedEvents(old_, new_, n - 1);
      if HasVersion(new_, o.version) {
        assert DroppedEvents(old_, new_, n) == before;
      } else {
        FoldOne(cur, before, Result(Delete, o), v);
      }
    }
  }

  lemma {:induction false} FoldDiff(cur: seq<Node>, old_: seq<Service>, new_: seq<Service>, v: string)
    requires DistinctVersions(old_) && DistinctVersions(new_)
    ensures FoldNodes(cur, Diff(old_, new_), v) == NodesAt(new_, v) + Stale(cur, NodesAt(old_, v), NodesAt(new_, v))
  {
    var news, dropped := NewEvents(old_, new_, |new_|), DroppedEvents(old_, new_, |old_|);
    FoldAppend(cur, news, dropped, v);
    FoldNew(cur, old_, new_, |new_|, v);
    FoldDropped(FoldNodes(cur, news, v), old_, new_, |old_|, v);
    if !HasVersion(new_, v) {
      assert NodesAt(old_, v) + [] == NodesAt(old_, v);
      if !HasVersion(old_, v) {
        SelectNone(cur);
      }
    }
  }

  /** The exact result of a snapshot's events on a cache entry that survives them: under every
      version the new snapshot's nodes, followed by the cached nodes neither snapshot knows. */
  lemma {:induction false} SyncExact(services: seq<Service>, old_: seq<Service>, new_: seq<Service>, v: string)
    requires DistinctVersions(services) && DistinctVersions(old_) && DistinctVersions(new_)
    requires ApplyAll(Some(services), Diff(old_, new_)).Some?
    ensures NodesAt(ApplyAll(Some(services), Diff(old_, new_)).value, v)
            == NodesAt(new_, v) + Stale(NodesAt(services, v), NodesAt(old_, v), NodesAt(new_, v))
  {
    ApplyAllAt(services, Diff(old_, new_), v);
    FoldDiff(NodesAt(services, v), old_, new_, v);
  }

  ghost predicate Agrees(services: seq<Service>, snapshot: seq<Service>) {
    forall v :: NodesAt(services, v) == NodesAt(snapshot, v)
  }

  /** Every cached node is known, by id and under its version, to one of the two snapshots. */
  ghost predicate Covered(services: seq<Service>, old_: seq<Service>, new_: seq<Service>) {
    forall v, x :: x in NodesAt(services, v) ==>
      HasID(NodesAt(old_, v), x.instanceID) || HasID(NodesAt(new_, v), x.instanceID)
  }

  /** A surviving entry ends up equal to the new snapshot if and only if it was covered. */
  lemma {:induction false} SyncAgreesExactly(services: seq<Service>, old_: seq<Service>, new_: seq<Service>)
    requires DistinctVersions(services) && DistinctVersions(old_) && DistinctVersions(new_)
    requires ApplyAll(Some(services), Diff(old_, new_)).Some?
    ensures Agrees(ApplyAll(Some(services), Diff(old_, new_)).value, new_) <==> Covered(services, old_, new_)
  {
    var after := ApplyAll(Some(services), Diff(old_, new_)).value;
    forall v
      ensures NodesAt(after, v) == NodesAt(new_, v) <==>
              forall x :: x in NodesAt(services, v) ==>
                HasID(NodesAt(old_, v), x.instanceID) || HasID(NodesAt(new_, v), x.instanceID)
    {
      SyncExact(services, old_, new_, v);
      var cur, o, n := NodesAt(services, v), NodesAt(old_, v), NodesAt(new_, v);
      SelectMembers(cur, o + n, false);
      forall x: Node
        ensures HasID(o + n, x.instanceID) <==> HasID(o, x.instanceID) || HasID(n, x.instanceID)
      {
        HasIDAppend(o, n, x.instanceID);
      }
      var stale := Stale(cur, o, n);
      assert |NodesAt(after, v)| == |n| + |stale|;
      if stale != [] { assert stale[0] in stale; }
    }
  }

  /** The theorem callers rely on: an entry that held the watcher's old nodes, in any order, is after
      the events of the next snapshot either dropped or equal to that snapshot. */
  lemma {:induction false} SyncFromOld(services: seq<Service>, old_: seq<Service>, new_: seq<Service>)
    requires DistinctVersions(services) && DistinctVersions(old_) && DistinctVersions(new_)
    requires forall v, x :: x in NodesAt(services, v) <==> x in NodesAt(old_, v)
    ensures var after := ApplyAll(Some(services), Diff(old_, new_));
            after.None? || Agrees(after.value, new_)
  {
    if ApplyAll(Some(services), Diff(old_, new_)).Some? {
      forall v, x | x in NodesAt(services, v)
        ensures HasID(NodesAt(old_, v), x.instanceID)
      {
        var o := NodesAt(old_, v);
        assert x in o;
      }
      SyncAgreesExactly(services, old_, new_);
    }
  }

  /** The entry after the events of snapshots 1 to n, each diffed against the one before. */
  function ApplySnapshots(entry: Option<seq<Service>>, snaps: seq<seq<Service>>, n: nat): Option<seq<Service>>
    requires n < |snaps|
  {
    if n == 0 then entry else ApplyAll(ApplySnapshots(entry, snaps, n - 1), Diff(snaps[n - 1], snaps[n]))
  }

  lemma {:induction false} AbsentStaysAbsent(evs: seq<Result>, n: nat)
    requires n <= |evs|
    ensures ApplyTo(None, evs, n) == None
  {
    if n > 0 {
      AbsentStaysAbsent(evs, n - 1);
    }
  }

  /** The entry is gone or is the snapshot. */
  ghost predicate GoneOrIs(entry: Option<seq<Service>>, snapshot: seq<Service>) {
    entry.Some? ==> DistinctVersions(entry.value) && Agrees(entry.value, snapshot)
  }

  /** One snapshot further. */
  lemma {:induction false} SyncStep(entry: Option<seq<Service>>, old_: seq<Service>, new_: seq<Service>)
    requires DistinctVersions(old_) && DistinctVersions(new_) && GoneOrIs(entry, old_)
    ensures GoneOrIs(ApplyAll(entry, Diff(old_, new_)), new_)
  {
    if entry.None? {
      AbsentStaysAbsent(Diff(old_, new_), |Diff(old_, new_)|);
    } else if ApplyAll(entry, Diff(old_, new_)).Some? {
      ApplyAllAt(entry.value, Diff(old_, new_), "");
      SyncFromOld(entry.value, old_, new_);
    }
  }

  /** Over any run of snapshots, after each of them: the entry is gone or is that snapshot. */
  lemma {:induction false} SyncRun(services: seq<Service>, snaps: seq<seq<Service>>, n: nat)
    requires n < |snaps| && DistinctVersions(services)
    requires forall i :: 0 <= i < |snaps| ==> DistinctVersions(snaps[i])
    requires Agrees(services, snaps[0])
    ensures GoneOrIs(ApplySnapshots(Some(services), snaps, n), snaps[n])
  {
    if n > 0 {
      SyncRun(services, snaps, n - 1);
      SyncStep(ApplySnapshots(Some(services), snaps, n - 1), snaps[n - 1], snaps[n]);
    }
  }

  /** The remembered snapshot lists under each version exactly the healthy nodes of the answer. */
  lemma {:induction false} SnapshotIsHealthy(entries: seq<Entry>, snapshot: seq<Service>, v: string)
    requires Enumerates(snapshot, Group(entries, |entries|))
    ensures DistinctVersions(snapshot) && NodesAt(snapshot, v) == Healthy(entries, v, |entries|)
  {
    GroupExact(entries, v, |entries|);
  }

  /** An answer without entries names no service, so the handler takes it for the service named "". No
      event is sent, the snapshot of every real service stays, and so does what the cache holds of it:
      which is what the registry now says if and only if there were no nodes before. */
  method EmptyAnswerLeavesCache(w: Watcher, name: string, ghost services: seq<Service>)
    requires name != "" && w.Snapshot("") == [] && Agrees(services, w.Snapshot(name))
    modifies w`services, w`next
    ensures w.next == old(w.next) && w.Snapshot("") == [] && w.Snapshot(name) == old(w.Snapshot(name))
    ensures ApplyAll(Some(services), w.next[|old(w.next)|..]) == Some(services)
    ensures (forall v :: NodesAt(services, v) == Healthy([], v, 0)) <==> forall v :: NodesAt(old(w.Snapshot(name)), v) == []
  {
    assert Enumerates([], Group([], 0));
    var snapshot := w.ServiceHandler([], []);
    assert Diff([], []) == [];
    assert old(w.next) + [] == old(w.next);
  }

  // ----- what is reported to the Watcher

  lemma {:induction false} LostEvents(old_: seq<Service>, svc: Service, n: nat, i: nat)
    requires DistinctVersions(old_) && n <= |old_| && i < |LostNodes(old_, svc, n)|
    ensures var ev := LostNodes(old_, svc, n)[i];
            ev.action.Delete? && ev.service.version == svc.version && ev.service.nodes != []
            && ev.service.nodes == Select(NodesAt(old_, svc.version), svc.nodes, false)
  {
    if i < |LostNodes(old_, svc, n - 1)| {
      LostEvents(old_, svc, n - 1, i);
    } else {
      NodesAtIs(old_, svc.version, n - 1);
    }
  }

  /** A delete event with nodes names only instances its version had and has no more. */
  ghost predicate OnlyGone(ev: Result, old_: seq<Service>, new_: seq<Service>) {
    ev.action.Delete? ==> forall id :: HasID(ev.service.nodes, id) ==>
      HasID(NodesAt(old_, ev.service.version), id) && !HasID(NodesAt(new_, ev.service.version), id)
  }

  lemma {:induction false} NewEventsOnlyGone(old_: seq<Service>, new_: seq<Service>, n: nat, i: nat)
    requires DistinctVersions(old_) && DistinctVersions(new_) && n <= |new_| && i < |NewEvents(old_, new_, n)|
    ensures OnlyGone(NewEvents(old_, new_, n)[i], old_, new_)
    ensures NewEvents(old_, new_, n)[i].action.Delete? ==> NewEvents(old_, new_, n)[i].service.nodes != []
  {
    var before, svc := NewEvents(old_, new_, n - 1), new_[n - 1];
    if i < |before| {
      NewEventsOnlyGone(old_, new_, n - 1, i);
    } else {
      var lost := LostNodes(old_, svc, |old_|);
      if i - |before| < |lost| {
        LostEvents(old_, svc, |old_|, i - |before|);
        NodesAtIs(new_, svc.version, n - 1);
        forall id
          ensures HasID(lost[i - |before|].service.nodes, id) ==>
                  HasID(NodesAt(old_, svc.version), id) && !HasID(svc.nodes, id)
        {
          SelectHasID(NodesAt(old_, svc.version), svc.nodes, id);
        }
      }
    }
  }

  lemma {:induction false} DroppedOnlyGone(old_: seq<Service>, new_: seq<Service>, n: nat, i: nat)
    requires DistinctVersions(old_) && n <= |old_| && i < |DroppedEvents(old_, new_, n)|
    ensures var ev := DroppedEvents(old_, new_, n)[i];
            OnlyGone(ev, old_, new_) && ev.action.Delete? && ev.service in old_ && !HasVersion(new_, ev.service.version)
  {
    if i < |DroppedEvents(old_, new_, n - 1)| {
      DroppedOnlyGone(old_, new_, n - 1, i);
    } else {
      NodesAtIs(old_, old_[n - 1].version, n - 1);
    }
  }

  /** An old version without nodes that the new snapshot does not list at all. */
  ghost predicate EmptyVersionDropped(old_: seq<Service>, new_: seq<Service>) {
    exists i :: 0 <= i < |old_| && old_[i].nodes == [] && !HasVersion(new_, old_[i].version)
  }

  predicate ServiceWide(ev: Result) {
    ev.action.Delete? && ev.service.nodes == []
  }

  lemma {:induction false} DroppedListed(old_: seq<Service>, new_: seq<Service>, n: nat, i: nat)
    requires i < n <= |old_| && !HasVersion(new_, old_[i].version)
    ensures Result(Delete, old_[i]) in DroppedEvents(old_, new_, n)
  {
    if i < n - 1 {
      DroppedListed(old_, new_, n - 1, i);
    }
  }

  /** Deletes name only instances that vanished from their version; and a snapshot causes a service-wide delete, which takes
      every cached instance with it, if and only if it drops a version that had no nodes. */
  lemma {:induction false} DiffDeletes(old_: seq<Service>, new_: seq<Service>)
    requires DistinctVersions(old_) && DistinctVersions(new_)
    ensures forall ev :: ev in Diff(old_, new_) ==> OnlyGone(ev, old_, new_)
    ensures (exists ev :: ev in Diff(old_, new_) && ServiceWide(ev)) <==> EmptyVersionDropped(old_, new_)
  {
    var news, dropped := NewEvents(old_, new_, |new_|), DroppedEvents(old_, new_, |old_|);
    forall ev | ev in Diff(old_, new_)
      ensures OnlyGone(ev, old_, new_)
      ensures ServiceWide(ev) ==> EmptyVersionDropped(old_, new_)
    {
      if ev in news {
        var i :| 0 <= i < |news| && news[i] == ev;
        NewEventsOnlyGone(old_, new_, |new_|, i);
      } else {
        assert ev in dropped;
        var i :| 0 <= i < |dropped| && dropped[i] == ev;
        DroppedOnlyGone(old_, new_, |old_|, i);
        var k :| 0 <= k < |old_| && old_[k] == ev.service;
      }
    }
    if EmptyVersionDropped(old_, new_) {
      var i :| 0 <= i < |old_| && old_[i].nodes == [] && !HasVersion(new_, old_[i].version);
      DroppedListed(old_, new_, |old_|, i);
      assert Result(Delete, old_[i]) in Diff(old_, new_);
    }
  }

  /** Without a service-wide delete, every node an event reports to the Watcher was cached under the
      event's version, was known to the old snapshot there, and is gone from that version of the new
      one. What a whole snapshot reports is in DiscoveryReports. */
  lemma {:induction false} ReportsOnlyGone(services: seq<Service>, ev: Result, old_: seq<Service>, new_: seq<Service>, x: Node)
    requires DistinctVersions(services) && OnlyGone(ev, old_, new_) && !ServiceWide(ev)
    requires x in PatchEntry(services, ev).reported
    ensures x in NodesAt(services, ev.service.version)
    ensures HasID(NodesAt(old_, ev.service.version), x.instanceID) && !HasID(NodesAt(new_, ev.service.version), x.instanceID)
  {
    SelectMembers(NodesAt(services, ev.service.version), ev.service.nodes, true);
  }

  /** The dropped empty version is a real hazard: a live instance of another version is reported. */
  lemma {:induction false} LiveInstanceReported()
    ensures var live := Node(1, "s", "i", "", 0, map[]);
            var keep := Service("svc", "v2", [], [live]);
            var old_, new_ := [Service("svc", "v1", [], []), keep], [keep];
            var last := Diff(old_, new_)[|Diff(old_, new_)| - 1];
            && PatchEntry([keep], last) == Patch(None, [live], false)
            && HasID(NodesAt(new_, "v2"), live.instanceID)
  {
    var live := Node(1, "s", "i", "", 0, map[]);
    var keep := Service("svc", "v2", [], [live]);
    var empty := Service("svc", "v1", [], []);
    var old_, new_ := [empty, keep], [keep];
    assert DroppedEvents(old_, new_, 1) == [Result(Delete, empty)] by {
      assert FindVersion(new_, "v1", 1) == -1;
    }
    assert DroppedEvents(old_, new_, 2) == DroppedEvents(old_, new_, 1);
    assert AllNodes([keep]) == AllNodes([]) + [live];
    assert NodesAt(new_, "v2") == [live] && [live][0].instanceID == "i";
  }

  // ----- what every event keeps

  predicate WellFormed(ss: seq<Service>, name: string) {
    DistinctVersions(ss) && Named(ss, name) && forall i :: 0 <= i < |ss| ==> DistinctIDs(ss[i].nodes)
  }

  lemma {:induction false} OthersFrom(ss: seq<Service>, v: string)
    ensures forall s :: s in OtherVersions(ss, v) ==> s in ss
  {
    if ss != [] {
      OthersFrom(ss[..|ss| - 1], v);
    }
  }

  lemma {:induction false} MergeDistinct(cur: seq<Node>, nodes: seq<Node>)
    requires DistinctIDs(cur) && DistinctIDs(nodes)
    ensures DistinctIDs(nodes + Select(cur, nodes, false))
  {
    var extra := Select(cur, nodes, false);
    SelectDistinct(cur, nodes, false);
    SelectMembers(cur, nodes, false);
    assert forall i :: 0 <= i < |extra| ==> extra[i] in extra && !HasID(nodes, extra[i].instanceID);
  }

  lemma {:induction false} ReplaceKeepsWellFormed(ss: seq<Service>, name: string, at: nat, s: Service)
    requires WellFormed(ss, name) && at < |ss|
    requires s.version == ss[at].version && s.name == name && DistinctIDs(s.nodes)
    ensures WellFormed(ss[at := s], name)
  {
  }

  lemma {:induction false} OthersWellFormed(ss: seq<Service>, name: string, v: string)
    requires WellFormed(ss, name)
    ensures WellFormed(OtherVersions(ss, v), name)
  {
    OthersFrom(ss, v);
    OthersNamed(ss, v, name);
    OthersExact(ss, v);
    var others := OtherVersions(ss, v);
    assert forall i :: 0 <= i < |others| ==> others[i] in ss;
  }

  /** Versions stay distinct, instance ids stay distinct within a version, names stay the key. */
  lemma {:induction false} PatchKeepsWellFormed(services: seq<Service>, ev: Result, name: string)
    requires WellFormed(services, name) && ev.service.name == name && DistinctIDs(ev.service.nodes)
    ensures PatchEntry(services, ev).entry.Some? ==> WellFormed(PatchEntry(services, ev).entry.value, name)
  {
    var svc, at := ev.service, FindVersion(services, ev.service.version, |services|);
    if at >= 0 {
      var cur := services[at].nodes;
      MergeDistinct(cur, svc.nodes);
      SelectDistinct(cur, svc.nodes, false);
      ReplaceKeepsWellFormed(services, name, at, svc.(nodes := svc.nodes + Select(cur, svc.nodes, false)));
      ReplaceKeepsWellFormed(services, name, at, services[at].(nodes := Select(cur, svc.nodes, false)));
      OthersWellFormed(services, name, svc.version);
    }
  }

  lemma {:induction false} ReplacedOnly(ss: seq<Service>, at: nat, x: Service, s: Service)
    requires DistinctVersions(ss) && at < |ss| && x.version == ss[at].version
    ensures s.version != x.version ==> (s in ss[at := x] <==> s in ss)
    ensures s in ss[at := x] && s.version == x.version ==> s == x
  {
    var after := ss[at := x];
    if s in ss {
      var i :| 0 <= i < |ss| && ss[i] == s;
      assert i != at ==> after[i] == s;
    }
  }

  /** An event leaves the other versions as they are, their endpoints and order of nodes included. What it
      leaves of its own version has the endpoints of the event for a create or an update, and those it had
      for a delete; an event without nodes changes nothing of it. */
  lemma {:induction false} PatchTouchesOne(services: seq<Service>, ev: Result, s: Service)
    requires DistinctVersions(services) && PatchEntry(services, ev).entry.Some?
    ensures var after := PatchEntry(services, ev).entry.value;
            && (s.version != ev.service.version ==> (s in after <==> s in services))
            && (s in after && s.version == ev.service.version ==>
                  if !ev.action.Delete? && ev.service.nodes != [] then s.name == ev.service.name && s.endpoints == ev.service.endpoints
                  else exists o :: o in services && o.version == s.version && o.name == s.name && o.endpoints == s.endpoints)
  {
    var svc, after := ev.service, PatchEntry(services, ev).entry.value;
    var at := FindVersion(services, svc.version, |services|);
    if at >= 0 {
      assert services[at] in services;
    }
    if svc.nodes == [] || at < 0 {
      return;
    }
    if ev.action.Delete? && Select(services[at].nodes, svc.nodes, false) == [] {
      OthersExact(services, svc.version);
    } else {
      ReplacedOnly(services, at, after[at], s);
    }
  }

  /** The time-to-live of an entry is renewed exactly by the events that carry nodes and touch it, and a
      dropped entry's never is. */
  lemma {:induction false} RenewedExactly(services: seq<Service>, ev: Result)
    ensures var p := PatchEntry(services, ev);
            p.renewed <==> p.entry.Some? && ev.service.nodes != [] && (ev.action.Delete? ==> HasVersion(services, ev.service.version))
  {
  }

  /** A create or update loses no cached instance of any version, and reports none. */
  lemma {:induction false} CreateLosesNothing(services: seq<Service>, ev: Result, v: string, id: string)
    requires DistinctVersions(services) && !ev.action.Delete? && HasID(NodesAt(services, v), id)
    ensures PatchEntry(services, ev).entry.Some? && HasID(NodesAt(PatchEntry(services, ev).entry.value, v), id)
    ensures PatchEntry(services, ev).reported == []
  {
    PatchAt(services, ev, v);
    var cur, nodes := NodesAt(services, v), ev.service.nodes;
    HasIDAppend(nodes, Select(cur, nodes, false), id);
    SelectHasID(cur, nodes, id);
  }

  /** How often a node record is cached. */
  ghost function Copies(ss: seq<Service>, x: Node): nat {
    if ss == [] then 0 else Copies(ss[..|ss| - 1], x) + multiset(ss[|ss| - 1].nodes)[x]
  }

  lemma {:induction false} CopiesIsCount(ss: seq<Service>, x: Node)
    ensures Copies(ss, x) == multiset(AllNodes(ss))[x]
  {
    if ss != [] {
      CopiesIsCount(ss[..|ss| - 1], x);
    }
  }

  lemma {:induction false} CopiesReplace(ss: seq<Service>, at: nat, s: Service, x: Node)
    requires at < |ss|
    ensures Copies(ss[at := s], x) + multiset(ss[at].nodes)[x] == Copies(ss, x) + multiset(s.nodes)[x]
  {
    var front, n := ss[..|ss| - 1], |ss| - 1;
    if at == n {
      assert ss[at := s][..n] == front;
    } else {
      CopiesReplace(front, at, s, x);
      assert ss[at := s][..n] == front[at := s];
    }
  }

  lemma {:induction false} CopiesAppend(ss: seq<Service>, s: Service, x: Node)
    ensures Copies(ss + [s], x) == Copies(ss, x) + multiset(s.nodes)[x]
  {
    assert (ss + [s])[..|ss|] == ss;
  }

  lemma {:induction false} CopiesOthers(ss: seq<Service>, at: nat, x: Node)
    requires DistinctVersions(ss) && at < |ss|
    ensures Copies(OtherVersions(ss, ss[at].version), x) + multiset(ss[at].nodes)[x] == Copies(ss, x)
  {
    var front, n, v := ss[..|ss| - 1], |ss| - 1, ss[at].version;
    if at == n {
      OthersAll(front, v);
      assert OtherVersions(ss, v) == front;
    } else {
      CopiesOthers(front, at, x);
      CopiesAppend(OtherVersions(front, v), ss[n], x);
      assert OtherVersions(ss, v) == OtherVersions(front, v) + [ss[n]];
    }
  }

  lemma {:induction false} OthersAll(ss: seq<Service>, v: string)
    requires forall i :: 0 <= i < |ss| ==> ss[i].version != v
    ensures OtherVersions(ss, v) == ss
  {
    if ss != [] {
      OthersAll(ss[..|ss| - 1], v);
      assert ss == ss[..|ss| - 1] + [ss[|ss| - 1]];
    }
  }

  /** Conservation: what was cached before a delete is what is cached after it plus, exactly, what
      a configured Watcher is told. */
  lemma {:induction false} DeleteConserves(services: seq<Service>, ev: Result, x: Node)
    requires DistinctVersions(services) && ev.action.Delete?
    ensures var p := PatchEntry(services, ev);
            multiset(AllNodes(services))[x]
            == multiset(if p.entry.Some? then AllNodes(p.entry.value) else [])[x] + multiset(p.reported)[x]
  {
    var svc, at := ev.service, FindVersion(services, ev.service.version, |services|);
    var p := PatchEntry(services, ev);
    CopiesIsCount(services, x);
    if p.entry.Some? {
      CopiesIsCount(p.entry.value, x);
    }
    if svc.nodes != [] && at >= 0 {
      var cur := services[at].nodes;
      var left := Select(cur, svc.nodes, false);
      SelectPartition(cur, svc.nodes);
      if left != [] {
        CopiesReplace(services, at, services[at].(nodes := left), x);
      } else if |services| == 1 {
        assert services == [services[at]] && services[..0] == [];
      } else {
        CopiesOthers(services, at, x);
      }
    }
  }
}
