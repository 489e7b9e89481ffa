/**
 What the events of a snapshot make the cache report to its Watcher, and when they make it drop the
 entry: exactly, for every cache entry and every two snapshots.
 */
module DiscoveryReports {
  import opened Wrappers
  import opened Registry
  import opened Events
  import opened CacheSelector
  import opened ConsulWatcher
  import opened DiscoverySync

  // ----- a list of events

  /** Everything reported while the first n events are applied. */
  function ReportedTo(entry: Option<seq<Service>>, evs: seq<Result>, n: nat): seq<Node>
    requires n <= |evs|
  {
    if n == 0 then [] else
    match ApplyTo(entry, evs, n - 1)
    case None => ReportedTo(entry, evs, n - 1)
    case Some(ss) => ReportedTo(entry, evs, n - 1) + PatchEntry(ss, evs[n - 1]).reported
  }

  function Reported(entry: Option<seq<Service>>, evs: seq<Result>): seq<Node> {
    ReportedTo(entry, evs, |evs|)
  }

  lemma {:induction false} SamePrefix(entry: Option<seq<Service>>, a: seq<Result>, b: seq<Result>, n: nat)
    requires n <= |a| && n <= |b| && forall i :: 0 <= i < n ==> a[i] == b[i]
    ensures ApplyTo(entry, a, n) == ApplyTo(entry, b, n) && ReportedTo(entry, a, n) == ReportedTo(entry, b, n)
  {
    if n > 0 {
      SamePrefix(entry, a, b, n - 1);
    }
  }

  lemma {:induction false} OneMore(entry: Option<seq<Service>>, evs: seq<Result>, ev: Result)
    ensures ApplyAll(entry, evs + [ev]) == (match ApplyAll(entry, evs) case None => None case Some(ss) => PatchEntry(ss, ev).entry)
    ensures Reported(entry, evs + [ev])
            == (match ApplyAll(entry, evs)
                case None => Reported(entry, evs)
                case Some(ss) => Reported(entry, evs) + PatchEntry(ss, ev).reported)
  {
    SamePrefix(entry, evs + [ev], evs, |evs|);
  }

  /** A dropped entry stays dropped, and nothing more is reported. */
  lemma {:induction false} NothingMore(entry: Option<seq<Service>>, evs: seq<Result>, k: nat, m: nat)
    requires k <= m <= |evs| && ApplyTo(entry, evs, k).None?
    ensures ApplyTo(entry, evs, m).None? && ReportedTo(entry, evs, m) == ReportedTo(entry, evs, k)
    decreases m
  {
    if k < m {
      NothingMore(entry, evs, k, m - 1);
    }
  }

  lemma {:induction false} NothingAfter(entry: Option<seq<Service>>, all: seq<Result>, part: seq<Result>)
    requires part <= all && ApplyAll(entry, part).None?
    ensures ApplyAll(entry, all).None? && Reported(entry, all) == Reported(entry, part)
  {
    SamePrefix(entry, all, part, |part|);
    NothingMore(entry, all, |part|, |all|);
  }

  // ----- one event

  lemma {:induction false} VersionIn(ss: seq<Service>, v: string, n: nat)
    requires n <= |ss|
    ensures FindVersion(ss, v, n) >= 0 <==> exists i :: 0 <= i < n && ss[i].version == v
  {
    if n > 0 {
      VersionIn(ss, v, n - 1);
    }
  }

  ghost predicate OnlyVersion(ss: seq<Service>, v: string) {
    forall w :: HasVersion(ss, w) ==> w == v
  }

  lemma {:induction false} OneService(ss: seq<Service>, v: string)
    requires DistinctVersions(ss) && HasVersion(ss, v)
    ensures |ss| == 1 <==> OnlyVersion(ss, v)
  {
    var at := FindVersion(ss, v, |ss|);
    if |ss| == 1 {
      forall w | HasVersion(ss, w)
        ensures w == v
      {
        assert FindVersion(ss, w, 1) == 0;
      }
    } else {
      var i := if at == 0 then 1 else 0;
      FindFirst(ss, i, |ss|);
      assert HasVersion(ss, ss[i].version) && ss[i].version != v;
    }
  }

  /** A create or update with nodes adds its version, one without nodes does nothing. */
  lemma {:induction false} CreateFacts(ss: seq<Service>, ev: Result, w: string)
    requires DistinctVersions(ss) && !ev.action.Delete?
    ensures var p := PatchEntry(ss, ev);
            && p.reported == [] && p.entry.Some? && DistinctVersions(p.entry.value)
            && (HasVersion(p.entry.value, w) <==> HasVersion(ss, w) || (w == ev.service.version && ev.service.nodes != []))
  {
    PatchAt(ss, ev, w);
    var after := PatchEntry(ss, ev).entry.value;
    VersionIn(ss, w, |ss|);
    VersionIn(after, w, |after|);
    var at := FindVersion(ss, ev.service.version, |ss|);
    if ev.service.nodes != [] {
      if at < 0 {
        assert after == ss + [ev.service] && after[|ss|] == ev.service;
        assert forall i :: 0 <= i < |ss| ==> after[i] == ss[i];
      } else {
        assert forall i :: 0 <= i < |ss| ==> after[i].version == ss[i].version;
      }
    }
  }

  lemma {:induction false} OthersHave(ss: seq<Service>, v: string, w: string)
    requires DistinctVersions(ss)
    ensures HasVersion(OtherVersions(ss, v), w) <==> HasVersion(ss, w) && w != v
  {
    var others := OtherVersions(ss, v);
    OthersExact(ss, v);
    VersionIn(ss, w, |ss|);
    VersionIn(others, w, |others|);
    if HasVersion(ss, w) && w != v {
      var i :| 0 <= i < |ss| && ss[i].version == w;
      assert ss[i] in others;
    }
    if HasVersion(others, w) {
      var i :| 0 <= i < |others| && others[i].version == w;
      assert others[i] in ss;
    }
  }

  /** A delete with nodes reports what it names of its version; it drops the version when nothing is
      left of it, and the entry when no other version is there. */
  lemma {:induction false} DeleteFacts(ss: seq<Service>, o: Service, w: string)
    requires DistinctVersions(ss) && o.nodes != []
    ensures var p, cur := PatchEntry(ss, Result(Delete, o)), NodesAt(ss, o.version);
            var left := Select(cur, o.nodes, false);
            && p.reported == Select(cur, o.nodes, true)
            && (p.entry.None? <==> HasVersion(ss, o.version) && left == [] && OnlyVersion(ss, o.version))
            && (p.entry.Some? ==>
                  && DistinctVersions(p.entry.value)
                  && (HasVersion(p.entry.value, w) <==> HasVersion(ss, w) && (w != o.version || left != [])))
  {
    var ev := Result(Delete, o);
    var p, at := PatchEntry(ss, ev), FindVersion(ss, o.version, |ss|);
    if at >= 0 {
      OneService(ss, o.version);
    }
    if p.entry.Some? {
      PatchAt(ss, ev, w);
      var after := p.entry.value;
      OthersHave(ss, o.version, w);
      VersionIn(ss, w, |ss|);
      VersionIn(after, w, |after|);
      if at >= 0 && Select(ss[at].nodes, o.nodes, false) != [] {
        assert forall i :: 0 <= i < |ss| ==> after[i].version == ss[i].version;
      }
    }
  }

  /** What DeleteFacts says, for every version. */
  ghost predicate DeleteShape(ss: seq<Service>, o: Service, entry: Option<seq<Service>>, reported: seq<Node>) {
    var cur := NodesAt(ss, o.version);
    var left := Select(cur, o.nodes, false);
    && reported == Select(cur, o.nodes, true)
    && (entry.None? <==> HasVersion(ss, o.version) && left == [] && OnlyVersion(ss, o.version))
    && (entry.Some? ==> DistinctVersions(entry.value))
    && (entry.Some? ==> forall w :: HasVersion(entry.value, w) <==> HasVersion(ss, w) && (w != o.version || left != []))
  }

  lemma {:induction false} DeleteHasShape(ss: seq<Service>, o: Service)
    requires DistinctVersions(ss) && o.nodes != []
    ensures DeleteShape(ss, o, PatchEntry(ss, Result(Delete, o)).entry, PatchEntry(ss, Result(Delete, o)).reported)
  {
    DeleteFacts(ss, o, o.version);
    var entry := PatchEntry(ss, Result(Delete, o)).entry;
    if entry.Some? {
      forall w
        ensures HasVersion(entry.value, w)
                <==> HasVersion(ss, w) && (w != o.version || Select(NodesAt(ss, o.version), o.nodes, false) != [])
      {
        DeleteFacts(ss, o, w);
      }
    }
  }

  // ----- the conditions

  /** The nodes of version v that the new snapshot does not list there any more. */
  function Lost(old_: seq<Service>, new_: seq<Service>, v: string): seq<Node> {
    Select(NodesAt(old_, v), NodesAt(new_, v), false)
  }

  /** A cached node whose id the new snapshot does not list under its version any more. */
  predicate LostNode(services: seq<Service>, old_: seq<Service>, new_: seq<Service>, v: string, x: Node) {
    x in NodesAt(services, v) && HasID(Lost(old_, new_, v), x.instanceID)
  }

  /** The delete for version v leaves nothing of it in the cache. */
  predicate Emptied(services: seq<Service>, old_: seq<Service>, new_: seq<Service>, v: string) {
    Lost(old_, new_, v) != [] && Select(NodesAt(services, v), Lost(old_, new_, v), false) == []
  }

  /** Version v comes among the first n of the new snapshot, with no nodes listed before it. */
  predicate EarlyNew(new_: seq<Service>, n: nat, v: string)
    requires n <= |new_|
  {
    exists m :: 0 <= m < n && new_[m].version == v && forall j :: 0 <= j < m ==> new_[j].nodes == []
  }

  predicate NoNodes(new_: seq<Service>) {
    forall j :: 0 <= j < |new_| ==> new_[j].nodes == []
  }

  /** The delete for version v comes before the cache gets any node of the new snapshot; k counts the
      old services whose disappearance was handled. */
  predicate Early(old_: seq<Service>, new_: seq<Service>, k: nat, v: string)
    requires k <= |old_|
  {
    EarlyNew(new_, |new_|, v) || (NoNodes(new_) && !HasVersion(new_, v) && FindVersion(old_, v, k) >= 0)
  }

  /** Every cached version is emptied before the cache gets any node of the new snapshot. */
  ghost predicate AllEmptied(services: seq<Service>, old_: seq<Service>, new_: seq<Service>) {
    services != [] && forall v :: HasVersion(services, v) ==> Emptied(services, old_, new_, v) && Early(old_, new_, |old_|, v)
  }

  // ----- the events for the new versions

  ghost predicate GoneNew(services: seq<Service>, old_: seq<Service>, new_: seq<Service>, n: nat)
    requires n <= |new_|
  {
    services != [] && forall v :: HasVersion(services, v) ==> Emptied(services, old_, new_, v) && EarlyNew(new_, n, v)
  }

  predicate PresentNew(services: seq<Service>, old_: seq<Service>, new_: seq<Service>, n: nat, v: string)
    requires n <= |new_|
  {
    if FindVersion(new_, v, n) >= 0
    then NodesAt(new_, v) != [] || (HasVersion(services, v) && !Emptied(services, old_, new_, v))
    else HasVersion(services, v)
  }

  ghost predicate ReportedNew(services: seq<Service>, old_: seq<Service>, new_: seq<Service>, n: nat, x: Node)
    requires n <= |new_|
  {
    exists v :: FindVersion(new_, v, n) >= 0 && LostNode(services, old_, new_, v, x)
  }

  /** Entry and reports after the events of the first n new versions. */
  ghost predicate NewShape(services: seq<Service>, old_: seq<Service>, new_: seq<Service>, n: nat, e: Option<seq<Service>>, r: seq<Node>)
    requires n <= |new_|
  {
    && (e.None? <==> GoneNew(services, old_, new_, n))
    && (e.Some? ==> DistinctVersions(e.value))
    && (e.Some? ==> forall v :: HasVersion(e.value, v) <==> PresentNew(services, old_, new_, n, v))
    && (forall x :: x in r <==> ReportedNew(services, old_, new_, n, x))
  }

  ghost predicate AfterNew(services: seq<Service>, old_: seq<Service>, new_: seq<Service>, n: nat)
    requires n <= |new_|
  {
    var evs := NewEvents(old_, new_, n);
    NewShape(services, old_, new_, n, ApplyAll(Some(services), evs), Reported(Some(services), evs))
  }

  lemma {:induction false} LostNodesIs(old_: seq<Service>, svc: Service, n: nat)
    requires DistinctVersions(old_) && n <= |old_| && FindVersion(old_, svc.version, n) >= 0
    ensures var o := old_[FindVersion(old_, svc.version, n)];
            var lost := Select(o.nodes, svc.nodes, false);
            LostNodes(old_, svc, n) == if lost == [] then [] else [Result(Delete, o.(nodes := lost))]
  {
    if old_[n - 1].version == svc.version {
      Unseen(old_, n - 1);
      LostNodesNone(old_, svc, n - 1);
    } else {
      LostNodesIs(old_, svc, n - 1);
    }
  }

  /** The event, if any, for what a new version lost. */
  lemma {:induction false} LostEvent(old_: seq<Service>, new_: seq<Service>, n: nat) returns (o: Service)
    requires DistinctVersions(old_) && DistinctVersions(new_) && n < |new_|
    ensures o.version == new_[n].version && o.nodes == Lost(old_, new_, new_[n].version)
    ensures LostNodes(old_, new_[n], |old_|) == if o.nodes == [] then [] else [Result(Delete, o)]
  {
    var svc := new_[n];
    Unseen(new_, n);
    if HasVersion(old_, svc.version) {
      LostNodesIs(old_, svc, |old_|);
      o := old_[FindVersion(old_, svc.version, |old_|)].(nodes := Lost(old_, new_, svc.version));
    } else {
      LostNodesNone(old_, svc, |old_|);
      o := svc.(nodes := []);
    }
  }

  /** A version that comes at n was not seen before. */
  lemma {:induction false} Unseen(ss: seq<Service>, n: nat)
    requires DistinctVersions(ss) && n < |ss|
    ensures FindVersion(ss, ss[n].version, n) < 0 && NodesAt(ss, ss[n].version) == ss[n].nodes
    ensures forall w :: FindVersion(ss, w, n + 1) >= 0 <==> FindVersion(ss, w, n) >= 0 || w == ss[n].version
  {
    NodesAtIs(ss, ss[n].version, n);
    VersionIn(ss, ss[n].version, n);
  }

  /** Between the delete and the update of the version at n. */
  ghost predicate MidNew(services: seq<Service>, old_: seq<Service>, new_: seq<Service>, n: nat, e: Option<seq<Service>>, r: seq<Node>)
    requires n < |new_|
  {
    var v := new_[n].version;
    && (e.None? <==> GoneNew(services, old_, new_, n + 1))
    && (e.Some? ==> DistinctVersions(e.value))
    && (e.Some? ==> forall w :: HasVersion(e.value, w) <==>
          if w == v then HasVersion(services, v) && !Emptied(services, old_, new_, v) else PresentNew(services, old_, new_, n, w))
    && (forall x :: x in r <==> ReportedNew(services, old_, new_, n + 1, x))
  }

  /** The entry goes with version n exactly when that is the last cached version left. */
  lemma {:induction false} GoneWith(services: seq<Service>, old_: seq<Service>, new_: seq<Service>, n: nat)
    requires DistinctVersions(new_) && n < |new_| && !GoneNew(services, old_, new_, n)
    ensures var v := new_[n].version;
            GoneNew(services, old_, new_, n + 1) <==>
            && HasVersion(services, v) && Emptied(services, old_, new_, v)
            && forall w :: PresentNew(services, old_, new_, n, w) ==> w == v
  {
    var v := new_[n].version;
    Unseen(new_, n);
    if HasVersion(services, v) && Emptied(services, old_, new_, v) && forall w :: PresentNew(services, old_, new_, n, w) ==> w == v {
      OnlyOneLeft(services, old_, new_, n);
    }
    if GoneNew(services, old_, new_, n + 1) {
      LastOneGoes(services, old_, new_, n);
    }
  }

  lemma {:induction false} OnlyOneLeft(services: seq<Service>, old_: seq<Service>, new_: seq<Service>, n: nat)
    requires DistinctVersions(new_) && n < |new_|
    requires HasVersion(services, new_[n].version) && Emptied(services, old_, new_, new_[n].version)
    requires forall w :: PresentNew(services, old_, new_, n, w) ==> w == new_[n].version
    ensures GoneNew(services, old_, new_, n + 1)
  {
    forall j | 0 <= j < n
      ensures new_[j].nodes == []
    {
      NodesAtIs(new_, new_[j].version, j);
      VersionIn(new_, new_[j].version, n);
      assert !PresentNew(services, old_, new_, n, new_[j].version);
    }
    forall w | HasVersion(services, w)
      ensures Emptied(services, old_, new_, w) && EarlyNew(new_, n + 1, w)
    {
      VersionIn(new_, w, n);
      if w == new_[n].version {
        assert new_[n].version == w;
      } else {
        assert !PresentNew(services, old_, new_, n, w);
      }
    }
  }

  lemma {:induction false} LastOneGoes(services: seq<Service>, old_: seq<Service>, new_: seq<Service>, n: nat)
    requires DistinctVersions(new_) && n < |new_|
    requires !GoneNew(services, old_, new_, n) && GoneNew(services, old_, new_, n + 1)
    ensures HasVersion(services, new_[n].version) && Emptied(services, old_, new_, new_[n].version)
    ensures forall w :: PresentNew(services, old_, new_, n, w) ==> w == new_[n].version
  {
    var u :| HasVersion(services, u) && !(Emptied(services, old_, new_, u) && EarlyNew(new_, n, u));
    var m :| 0 <= m < n + 1 && new_[m].version == u && forall j :: 0 <= j < m ==> new_[j].nodes == [];
    assert m == n;
    forall w | PresentNew(services, old_, new_, n, w)
      ensures w == new_[n].version
    {
      NoOtherPresent(services, old_, new_, n, w);
    }
  }

  lemma {:induction false} NoOtherPresent(services: seq<Service>, old_: seq<Service>, new_: seq<Service>, n: nat, w: string)
    requires DistinctVersions(new_) && n < |new_| && GoneNew(services, old_, new_, n + 1)
    requires forall j :: 0 <= j < n ==> new_[j].nodes == []
    requires PresentNew(services, old_, new_, n, w)
    ensures w == new_[n].version
  {
    var i := FindVersion(new_, w, n);
    if i >= 0 {
      NodesAtIs(new_, w, i);
    } else {
      var m :| 0 <= m < n + 1 && new_[m].version == w;
      VersionIn(new_, w, n);
    }
  }

  /** Nothing of the version at n is cached when the entry is gone before it. */
  lemma {:induction false} GoneBefore(services: seq<Service>, old_: seq<Service>, new_: seq<Service>, n: nat)
    requires DistinctVersions(new_) && n < |new_| && GoneNew(services, old_, new_, n)
    ensures NodesAt(services, new_[n].version) == [] && GoneNew(services, old_, new_, n + 1)
  {
    forall w | HasVersion(services, w)
      ensures Emptied(services, old_, new_, w) && EarlyNew(new_, n + 1, w) && w != new_[n].version
    {
      var m :| 0 <= m < n && new_[m].version == w && forall j :: 0 <= j < m ==> new_[j].nodes == [];
    }
    assert !HasVersion(services, new_[n].version);
  }

  lemma {:induction false} ReportedOneMore(services: seq<Service>, old_: seq<Service>, new_: seq<Service>, n: nat, x: Node)
    requires DistinctVersions(new_) && n < |new_|
    ensures ReportedNew(services, old_, new_, n + 1, x)
            <==> ReportedNew(services, old_, new_, n, x) || LostNode(services, old_, new_, new_[n].version, x)
  {
    Unseen(new_, n);
    if LostNode(services, old_, new_, new_[n].version, x) {
      assert FindVersion(new_, new_[n].version, n + 1) >= 0;
    }
  }

  /** From before the delete to after it. */
  lemma {:induction false} MidStage(services: seq<Service>, old_: seq<Service>, new_: seq<Service>, n: nat, o: Service,
                 ss: seq<Service>, r: seq<Node>, entry: Option<seq<Service>>, reported: seq<Node>)
    requires DistinctVersions(new_) && n < |new_| && NewShape(services, old_, new_, n, Some(ss), r)
    requires o.version == new_[n].version && o.nodes == Lost(old_, new_, new_[n].version) != []
    requires NodesAt(ss, o.version) == NodesAt(services, o.version) && DeleteShape(ss, o, entry, reported)
    ensures MidNew(services, old_, new_, n, entry, r + reported)
  {
    assert PresentNew(services, old_, new_, n, o.version) <==> HasVersion(services, o.version) by {
      Unseen(new_, n);
    }
    assert entry.None? <==> GoneNew(services, old_, new_, n + 1) by {
      GoneWith(services, old_, new_, n);
    }
    forall x
      ensures x in r + reported <==> ReportedNew(services, old_, new_, n + 1, x)
    {
      SelectMembers(NodesAt(services, o.version), o.nodes, true);
      ReportedOneMore(services, old_, new_, n, x);
    }
  }

  lemma {:induction false} DeleteStage(services: seq<Service>, old_: seq<Service>, new_: seq<Service>, n: nat, o: Service)
    requires DistinctVersions(services) && DistinctVersions(old_) && DistinctVersions(new_) && n < |new_|
    requires AfterNew(services, old_, new_, n) && ApplyAll(Some(services), NewEvents(old_, new_, n)).Some?
    requires o.version == new_[n].version && o.nodes == Lost(old_, new_, new_[n].version) != []
    ensures var evs := NewEvents(old_, new_, n) + [Result(Delete, o)];
            MidNew(services, old_, new_, n, ApplyAll(Some(services), evs), Reported(Some(services), evs))
  {
    var v, evs := new_[n].version, NewEvents(old_, new_, n);
    var ss := ApplyAll(Some(services), evs).value;
    OneMore(Some(services), evs, Result(Delete, o));
    Unseen(new_, n);
    ApplyAllAt(services, evs, v);
    FoldNew(NodesAt(services, v), old_, new_, n, v);
    DeleteHasShape(ss, o);
    var p := PatchEntry(ss, Result(Delete, o));
    MidStage(services, old_, new_, n, o, ss, Reported(Some(services), evs), p.entry, p.reported);
  }

  lemma {:induction false} NothingLost(services: seq<Service>, old_: seq<Service>, new_: seq<Service>, n: nat)
    requires DistinctVersions(services) && DistinctVersions(old_) && DistinctVersions(new_) && n < |new_|
    requires AfterNew(services, old_, new_, n) && Lost(old_, new_, new_[n].version) == []
    requires ApplyAll(Some(services), NewEvents(old_, new_, n)).Some?
    ensures var evs := NewEvents(old_, new_, n);
            MidNew(services, old_, new_, n, ApplyAll(Some(services), evs), Reported(Some(services), evs))
  {
    var v := new_[n].version;
    Unseen(new_, n);
    GoneWith(services, old_, new_, n);
    forall x
      ensures ReportedNew(services, old_, new_, n + 1, x) <==> ReportedNew(services, old_, new_, n, x)
    {
      ReportedOneMore(services, old_, new_, n, x);
    }
  }

  lemma {:induction false} UpdateStage(services: seq<Service>, old_: seq<Service>, new_: seq<Service>, n: nat, evs: seq<Result>, ev: Result)
    requires DistinctVersions(new_) && n < |new_| && !ev.action.Delete? && ev.service == new_[n]
    requires MidNew(services, old_, new_, n, ApplyAll(Some(services), evs), Reported(Some(services), evs))
    requires NewEvents(old_, new_, n + 1) == evs + [ev]
    ensures AfterNew(services, old_, new_, n + 1)
  {
    OneMore(Some(services), evs, ev);
    Unseen(new_, n);
    var e := ApplyAll(Some(services), evs);
    if e.Some? {
      forall w
        ensures HasVersion(PatchEntry(e.value, ev).entry.value, w) <==> PresentNew(services, old_, new_, n + 1, w)
      {
        CreateFacts(e.value, ev, w);
      }
      CreateFacts(e.value, ev, new_[n].version);
    }
  }

  lemma {:induction false} NewEventsExact(services: seq<Service>, old_: seq<Service>, new_: seq<Service>, n: nat)
    requires DistinctVersions(services) && DistinctVersions(old_) && DistinctVersions(new_) && n <= |new_|
    ensures AfterNew(services, old_, new_, n)
  {
    NewStart(services, old_, new_);
    NewOnwards(services, old_, new_, 0, n);
  }

  lemma {:induction false} NewOnwards(services: seq<Service>, old_: seq<Service>, new_: seq<Service>, i: nat, n: nat)
    requires DistinctVersions(services) && DistinctVersions(old_) && DistinctVersions(new_) && i <= n <= |new_|
    requires AfterNew(services, old_, new_, i)
    ensures AfterNew(services, old_, new_, n)
    decreases n - i
  {
    if i < n {
      NewStep(services, old_, new_, i);
      NewOnwards(services, old_, new_, i + 1, n);
    }
  }

  lemma {:induction false} NewStart(services: seq<Service>, old_: seq<Service>, new_: seq<Service>)
    requires DistinctVersions(services)
    ensures AfterNew(services, old_, new_, 0)
  {
    if services != [] {
      FindFirst(services, 0, |services|);
      assert HasVersion(services, services[0].version) && !EarlyNew(new_, 0, services[0].version);
    }
  }

  lemma {:induction false} NewStep(services: seq<Service>, old_: seq<Service>, new_: seq<Service>, n: nat)
    requires DistinctVersions(services) && DistinctVersions(old_) && DistinctVersions(new_) && n < |new_|
    requires AfterNew(services, old_, new_, n)
    ensures AfterNew(services, old_, new_, n + 1)
  {
    var before := NewEvents(old_, new_, n);
    var o, ev := EventsAt(old_, new_, n);
    if ApplyAll(Some(services), before).None? {
      GoneStep(services, old_, new_, n);
    } else if o.nodes == [] {
      NothingLost(services, old_, new_, n);
      UpdateStage(services, old_, new_, n, before, ev);
    } else {
      DeleteStage(services, old_, new_, n, o);
      UpdateStage(services, old_, new_, n, before + [Result(Delete, o)], ev);
    }
  }

  /** The one or two events for the version at n. */
  lemma {:induction false} EventsAt(old_: seq<Service>, new_: seq<Service>, n: nat) returns (o: Service, ev: Result)
    requires DistinctVersions(old_) && DistinctVersions(new_) && n < |new_|
    ensures o.version == new_[n].version && o.nodes == Lost(old_, new_, new_[n].version)
    ensures !ev.action.Delete? && ev.service == new_[n]
    ensures NewEvents(old_, new_, n + 1)
            == (if o.nodes == [] then NewEvents(old_, new_, n) else NewEvents(old_, new_, n) + [Result(Delete, o)]) + [ev]
  {
    o := LostEvent(old_, new_, n);
    ev := Result(if HasVersion(old_, new_[n].version) then Update else Create, new_[n]);
    var before := NewEvents(old_, new_, n);
    if o.nodes == [] {
      assert before + ([] + [ev]) == before + [ev];
    } else {
      assert before + ([Result(Delete, o)] + [ev]) == before + [Result(Delete, o)] + [ev];
    }
  }

  lemma {:induction false} GoneStep(services: seq<Service>, old_: seq<Service>, new_: seq<Service>, n: nat)
    requires DistinctVersions(new_) && n < |new_|
    requires AfterNew(services, old_, new_, n) && ApplyAll(Some(services), NewEvents(old_, new_, n)).None?
    ensures AfterNew(services, old_, new_, n + 1)
  {
    var before, all := NewEvents(old_, new_, n), NewEvents(old_, new_, n + 1);
    NothingAfter(Some(services), all, before);
    GoneBefore(services, old_, new_, n);
    forall x
      ensures ReportedNew(services, old_, new_, n + 1, x) <==> ReportedNew(services, old_, new_, n, x)
    {
      ReportedOneMore(services, old_, new_, n, x);
    }
  }

  // ----- the deletes for the versions that are gone

  /** None of the first k old services makes a service-wide delete. */
  predicate NoneWide(old_: seq<Service>, new_: seq<Service>, k: nat)
    requires k <= |old_|
  {
    forall i :: 0 <= i < k && !HasVersion(new_, old_[i].version) ==> old_[i].nodes != []
  }

  ghost predicate Gone(services: seq<Service>, old_: seq<Service>, new_: seq<Service>, k: nat)
    requires k <= |old_|
  {
    services != [] && forall v :: HasVersion(services, v) ==> Emptied(services, old_, new_, v) && Early(old_, new_, k, v)
  }

  predicate Seen(old_: seq<Service>, new_: seq<Service>, k: nat, v: string)
    requires k <= |old_|
  {
    HasVersion(new_, v) || FindVersion(old_, v, k) >= 0
  }

  predicate Present(services: seq<Service>, old_: seq<Service>, new_: seq<Service>, k: nat, v: string)
    requires k <= |old_|
  {
    || (HasVersion(new_, v) && NodesAt(new_, v) != [])
    || (HasVersion(services, v) && !(Seen(old_, new_, k, v) && Emptied(services, old_, new_, v)))
  }

  ghost predicate ReportedOld(services: seq<Service>, old_: seq<Service>, new_: seq<Service>, k: nat, x: Node)
    requires k <= |old_|
  {
    exists v :: Seen(old_, new_, k, v) && LostNode(services, old_, new_, v, x)
  }

  /** The difference up to the first k old services. */
  function DiffTo(old_: seq<Service>, new_: seq<Service>, k: nat): seq<Result>
    requires k <= |old_|
  {
    if k == 0 then NewEvents(old_, new_, |new_|)
    else if HasVersion(new_, old_[k - 1].version) then DiffTo(old_, new_, k - 1)
    else DiffTo(old_, new_, k - 1) + [Result(Delete, old_[k - 1])]
  }

  lemma {:induction false} DiffToIs(old_: seq<Service>, new_: seq<Service>, k: nat)
    requires k <= |old_|
    ensures DiffTo(old_, new_, k) == NewEvents(old_, new_, |new_|) + DroppedEvents(old_, new_, k)
  {
    if k > 0 {
      DiffToIs(old_, new_, k - 1);
    }
  }

  /** Entry and reports after all events for new versions and those for the first k old services. */
  ghost predicate OldShape(services: seq<Service>, old_: seq<Service>, new_: seq<Service>, k: nat, e: Option<seq<Service>>, r: seq<Node>)
    requires k <= |old_|
  {
    && (e.None? <==> Gone(services, old_, new_, k))
    && (e.Some? ==> DistinctVersions(e.value))
    && (e.Some? ==> forall v :: HasVersion(e.value, v) <==> Present(services, old_, new_, k, v))
    && (forall x :: x in r <==> ReportedOld(services, old_, new_, k, x))
  }

  ghost predicate AfterOld(services: seq<Service>, old_: seq<Service>, new_: seq<Service>, k: nat)
    requires k <= |old_|
  {
    var evs := DiffTo(old_, new_, k);
    OldShape(services, old_, new_, k, ApplyAll(Some(services), evs), Reported(Some(services), evs))
  }

  lemma {:induction false} OldStart(services: seq<Service>, old_: seq<Service>, new_: seq<Service>)
    requires DistinctVersions(services) && DistinctVersions(old_) && DistinctVersions(new_)
    ensures AfterOld(services, old_, new_, 0)
  {
    NewEventsExact(services, old_, new_, |new_|);
    var evs := NewEvents(old_, new_, |new_|);
    assert forall v :: Early(old_, new_, 0, v) <==> EarlyNew(new_, |new_|, v);
    assert Gone(services, old_, new_, 0) <==> GoneNew(services, old_, new_, |new_|);
    assert forall v :: Present(services, old_, new_, 0, v) <==> PresentNew(services, old_, new_, |new_|, v);
    forall x
      ensures ReportedOld(services, old_, new_, 0, x) <==> ReportedNew(services, old_, new_, |new_|, x)
    {
      assert forall v :: Seen(old_, new_, 0, v) <==> FindVersion(new_, v, |new_|) >= 0;
    }
  }

  /** A version that is in the new snapshot makes no event here. */
  lemma {:induction false} SkipStep(services: seq<Service>, old_: seq<Service>, new_: seq<Service>, k: nat)
    requires DistinctVersions(old_) && k < |old_| && HasVersion(new_, old_[k].version) && AfterOld(services, old_, new_, k)
    ensures AfterOld(services, old_, new_, k + 1)
  {
    var evs := DiffTo(old_, new_, k);
    assert DiffTo(old_, new_, k + 1) == evs;
    SameShape(services, old_, new_, k, ApplyAll(Some(services), evs), Reported(Some(services), evs));
  }

  lemma {:induction false} SameShape(services: seq<Service>, old_: seq<Service>, new_: seq<Service>, k: nat, e: Option<seq<Service>>, r: seq<Node>)
    requires DistinctVersions(old_) && k < |old_| && HasVersion(new_, old_[k].version) && OldShape(services, old_, new_, k, e, r)
    ensures OldShape(services, old_, new_, k + 1, e, r)
  {
    Unseen(old_, k);
    assert forall v :: Seen(old_, new_, k + 1, v) <==> Seen(old_, new_, k, v);
    assert forall v :: Early(old_, new_, k + 1, v) <==> Early(old_, new_, k, v);
    assert Gone(services, old_, new_, k + 1) <==> Gone(services, old_, new_, k);
    assert forall v :: Present(services, old_, new_, k + 1, v) <==> Present(services, old_, new_, k, v);
    assert forall x :: ReportedOld(services, old_, new_, k + 1, x) <==> ReportedOld(services, old_, new_, k, x);
  }

  /** What a dropped version lost is all it had. */
  lemma {:induction false} LostAll(old_: seq<Service>, new_: seq<Service>, k: nat)
    requires DistinctVersions(old_) && k < |old_| && !HasVersion(new_, old_[k].version)
    ensures Lost(old_, new_, old_[k].version) == old_[k].nodes
  {
    NodesAtIs(old_, old_[k].version, k);
    SelectNone(old_[k].nodes);
  }

  lemma {:induction false} OldReportedOneMore(services: seq<Service>, old_: seq<Service>, new_: seq<Service>, k: nat, x: Node)
    requires DistinctVersions(old_) && k < |old_|
    ensures ReportedOld(services, old_, new_, k + 1, x)
            <==> ReportedOld(services, old_, new_, k, x) || LostNode(services, old_, new_, old_[k].version, x)
  {
    Unseen(old_, k);
    if LostNode(services, old_, new_, old_[k].version, x) {
      assert Seen(old_, new_, k + 1, old_[k].version);
    }
  }

  lemma {:induction false} OldOnlyOneLeft(services: seq<Service>, old_: seq<Service>, new_: seq<Service>, k: nat)
    requires DistinctVersions(old_) && DistinctVersions(new_) && k < |old_| && !HasVersion(new_, old_[k].version)
    requires HasVersion(services, old_[k].version) && Emptied(services, old_, new_, old_[k].version)
    requires forall w :: Present(services, old_, new_, k, w) ==> w == old_[k].version
    ensures Gone(services, old_, new_, k + 1)
  {
    Unseen(old_, k);
    forall j | 0 <= j < |new_|
      ensures new_[j].nodes == []
    {
      FindFirst(new_, j, |new_|);
      assert !Present(services, old_, new_, k, new_[j].version);
    }
    forall w | HasVersion(services, w)
      ensures Emptied(services, old_, new_, w) && Early(old_, new_, k + 1, w)
    {
      if w != old_[k].version {
        assert !Present(services, old_, new_, k, w);
        if HasVersion(new_, w) {
          assert EarlyNew(new_, |new_|, w) by {
            assert new_[FindVersion(new_, w, |new_|)].version == w;
          }
        }
      }
    }
  }

  lemma {:induction false} OldLastOneGoes(services: seq<Service>, old_: seq<Service>, new_: seq<Service>, k: nat)
    requires DistinctVersions(old_) && DistinctVersions(new_) && k < |old_| && !HasVersion(new_, old_[k].version)
    requires !Gone(services, old_, new_, k) && Gone(services, old_, new_, k + 1)
    ensures HasVersion(services, old_[k].version) && Emptied(services, old_, new_, old_[k].version)
    ensures forall w :: Present(services, old_, new_, k, w) ==> w == old_[k].version
  {
    Unseen(old_, k);
    var u :| HasVersion(services, u) && !(Emptied(services, old_, new_, u) && Early(old_, new_, k, u));
    assert u == old_[k].version && NoNodes(new_);
    forall w | Present(services, old_, new_, k, w)
      ensures w == old_[k].version
    {
      OldNoOtherPresent(services, old_, new_, k, w);
    }
  }

  lemma {:induction false} OldNoOtherPresent(services: seq<Service>, old_: seq<Service>, new_: seq<Service>, k: nat, w: string)
    requires DistinctVersions(old_) && k < |old_| && Gone(services, old_, new_, k + 1) && NoNodes(new_)
    requires Present(services, old_, new_, k, w)
    ensures w == old_[k].version
  {
    Unseen(old_, k);
    VersionIn(new_, w, |new_|);
  }

  lemma {:induction false} OldGoneWith(services: seq<Service>, old_: seq<Service>, new_: seq<Service>, k: nat)
    requires DistinctVersions(old_) && DistinctVersions(new_) && k < |old_| && !HasVersion(new_, old_[k].version)
    requires !Gone(services, old_, new_, k)
    ensures var v := old_[k].version;
            Gone(services, old_, new_, k + 1) <==>
            && HasVersion(services, v) && Emptied(services, old_, new_, v)
            && forall w :: Present(services, old_, new_, k, w) ==> w == v
  {
    var v := old_[k].version;
    if HasVersion(services, v) && Emptied(services, old_, new_, v) && forall w :: Present(services, old_, new_, k, w) ==> w == v {
      OldOnlyOneLeft(services, old_, new_, k);
    }
    if Gone(services, old_, new_, k + 1) {
      OldLastOneGoes(services, old_, new_, k);
    }
  }

  lemma {:induction false} OldGoneBefore(services: seq<Service>, old_: seq<Service>, new_: seq<Service>, k: nat)
    requires DistinctVersions(old_) && k < |old_| && !HasVersion(new_, old_[k].version) && Gone(services, old_, new_, k)
    ensures NodesAt(services, old_[k].version) == [] && Gone(services, old_, new_, k + 1)
  {
    Unseen(old_, k);
    VersionIn(new_, old_[k].version, |new_|);
    assert !Early(old_, new_, k, old_[k].version);
    assert !HasVersion(services, old_[k].version);
    forall w | HasVersion(services, w)
      ensures Emptied(services, old_, new_, w) && Early(old_, new_, k + 1, w)
    {
      assert Early(old_, new_, k, w);
    }
  }

  /** The nodes cached under a version after the events so far. */
  lemma {:induction false} NodesSoFar(services: seq<Service>, old_: seq<Service>, new_: seq<Service>, k: nat, v: string)
    requires DistinctVersions(services) && DistinctVersions(old_) && DistinctVersions(new_) && k <= |old_|
    requires ApplyAll(Some(services), DiffTo(old_, new_, k)).Some?
    ensures NodesAt(ApplyAll(Some(services), DiffTo(old_, new_, k)).value, v)
            == if Seen(old_, new_, k, v) then NodesAt(new_, v) + Stale(NodesAt(services, v), NodesAt(old_, v), NodesAt(new_, v))
               else NodesAt(services, v)
  {
    var cur, news := NodesAt(services, v), NewEvents(old_, new_, |new_|);
    ApplyAllAt(services, DiffTo(old_, new_, k), v);
    DiffToIs(old_, new_, k);
    FoldAppend(cur, news, DroppedEvents(old_, new_, k), v);
    FoldNew(cur, old_, new_, |new_|, v);
    FoldDropped(FoldNodes(cur, news, v), old_, new_, k, v);
    if !HasVersion(new_, v) && FindVersion(old_, v, k) >= 0 {
      NodesAtIs(old_, v, FindVersion(old_, v, k));
      assert NodesAt(old_, v) + [] == NodesAt(old_, v);
    }
  }

  lemma {:induction false} DropShape(services: seq<Service>, old_: seq<Service>, new_: seq<Service>, k: nat,
                  ss: seq<Service>, r: seq<Node>, entry: Option<seq<Service>>, reported: seq<Node>)
    requires DistinctVersions(old_) && DistinctVersions(new_) && k < |old_|
    requires !HasVersion(new_, old_[k].version) && old_[k].nodes != []
    requires OldShape(services, old_, new_, k, Some(ss), r)
    requires NodesAt(ss, old_[k].version) == NodesAt(services, old_[k].version) && DeleteShape(ss, old_[k], entry, reported)
    ensures OldShape(services, old_, new_, k + 1, entry, r + reported)
  {
    var o := old_[k];
    LostAll(old_, new_, k);
    assert entry.None? <==> Gone(services, old_, new_, k + 1) by {
      OldGoneWith(services, old_, new_, k);
      Unseen(old_, k);
    }
    if entry.Some? {
      forall w
        ensures HasVersion(entry.value, w) <==> Present(services, old_, new_, k + 1, w)
      {
        PresentStep(services, old_, new_, k, w);
      }
    }
    forall x
      ensures x in r + reported <==> ReportedOld(services, old_, new_, k + 1, x)
    {
      SelectMembers(NodesAt(services, o.version), o.nodes, true);
      OldReportedOneMore(services, old_, new_, k, x);
    }
  }

  lemma {:induction false} PresentStep(services: seq<Service>, old_: seq<Service>, new_: seq<Service>, k: nat, w: string)
    requires DistinctVersions(old_) && k < |old_| && !HasVersion(new_, old_[k].version) && old_[k].nodes != []
    ensures Present(services, old_, new_, k + 1, w) <==>
            Present(services, old_, new_, k, w)
            && (w != old_[k].version || Select(NodesAt(services, w), old_[k].nodes, false) != [])
  {
    Unseen(old_, k);
    LostAll(old_, new_, k);
  }

  lemma {:induction false} DropStage(services: seq<Service>, old_: seq<Service>, new_: seq<Service>, k: nat)
    requires DistinctVersions(services) && DistinctVersions(old_) && DistinctVersions(new_) && k < |old_|
    requires AfterOld(services, old_, new_, k) && ApplyAll(Some(services), DiffTo(old_, new_, k)).Some?
    requires !HasVersion(new_, old_[k].version) && old_[k].nodes != []
    ensures AfterOld(services, old_, new_, k + 1)
  {
    var o, evs := old_[k], DiffTo(old_, new_, k);
    var ss := ApplyAll(Some(services), evs).value;
    DropEvent(old_, new_, k);
    OneMore(Some(services), evs, Result(Delete, o));
    Unseen(old_, k);
    NodesSoFar(services, old_, new_, k, o.version);
    DeleteHasShape(ss, o);
    var p := PatchEntry(ss, Result(Delete, o));
    DropShape(services, old_, new_, k, ss, Reported(Some(services), evs), p.entry, p.reported);
  }

  lemma {:induction false} DropEvent(old_: seq<Service>, new_: seq<Service>, k: nat)
    requires k < |old_| && !HasVersion(new_, old_[k].version)
    ensures DiffTo(old_, new_, k + 1) == DiffTo(old_, new_, k) + [Result(Delete, old_[k])]
  {
  }

  lemma {:induction false} DropGone(services: seq<Service>, old_: seq<Service>, new_: seq<Service>, k: nat)
    requires DistinctVersions(old_) && k < |old_| && !HasVersion(new_, old_[k].version)
    requires AfterOld(services, old_, new_, k) && ApplyAll(Some(services), DiffTo(old_, new_, k)).None?
    ensures AfterOld(services, old_, new_, k + 1)
  {
    DropEvent(old_, new_, k);
    OneMore(Some(services), DiffTo(old_, new_, k), Result(Delete, old_[k]));
    OldGoneBefore(services, old_, new_, k);
    forall x
      ensures ReportedOld(services, old_, new_, k + 1, x) <==> ReportedOld(services, old_, new_, k, x)
    {
      OldReportedOneMore(services, old_, new_, k, x);
    }
  }

  lemma {:induction false} OldEventsExact(services: seq<Service>, old_: seq<Service>, new_: seq<Service>, k: nat)
    requires DistinctVersions(services) && DistinctVersions(old_) && DistinctVersions(new_) && k <= |old_|
    requires NoneWide(old_, new_, k)
    ensures AfterOld(services, old_, new_, k)
  {
    OldStart(services, old_, new_);
    OldOnwards(services, old_, new_, 0, k);
  }

  lemma {:induction false} OldOnwards(services: seq<Service>, old_: seq<Service>, new_: seq<Service>, i: nat, k: nat)
    requires DistinctVersions(services) && DistinctVersions(old_) && DistinctVersions(new_) && i <= k <= |old_|
    requires NoneWide(old_, new_, k) && AfterOld(services, old_, new_, i)
    ensures AfterOld(services, old_, new_, k)
    decreases k - i
  {
    if i < k {
      OldStep(services, old_, new_, i);
      OldOnwards(services, old_, new_, i + 1, k);
    }
  }

  lemma {:induction false} OldStep(services: seq<Service>, old_: seq<Service>, new_: seq<Service>, k: nat)
    requires DistinctVersions(services) && DistinctVersions(old_) && DistinctVersions(new_) && k < |old_|
    requires AfterOld(services, old_, new_, k) && NoneWide(old_, new_, k + 1)
    ensures AfterOld(services, old_, new_, k + 1)
  {
    if HasVersion(new_, old_[k].version) {
      SkipStep(services, old_, new_, k);
    } else if ApplyAll(Some(services), DiffTo(old_, new_, k)).None? {
      DropGone(services, old_, new_, k);
    } else {
      DropStage(services, old_, new_, k);
    }
  }

  // ----- the whole difference

  lemma {:induction false} FirstWide(old_: seq<Service>, new_: seq<Service>, k: nat) returns (i: nat)
    requires k <= |old_| && !NoneWide(old_, new_, k)
    ensures i < k && NoneWide(old_, new_, i) && !HasVersion(new_, old_[i].version) && old_[i].nodes == []
    decreases k
  {
    if NoneWide(old_, new_, k - 1) {
      i := k - 1;
    } else {
      i := FirstWide(old_, new_, k - 1);
    }
  }

  lemma {:induction false} DiffToPrefix(old_: seq<Service>, new_: seq<Service>, i: nat, k: nat)
    requires i <= k <= |old_|
    ensures DiffTo(old_, new_, i) <= DiffTo(old_, new_, k)
    decreases k
  {
    if i < k {
      DiffToPrefix(old_, new_, i, k - 1);
    }
  }

  lemma {:induction false} DiffPrefix(old_: seq<Service>, new_: seq<Service>, i: nat)
    requires i <= |old_|
    ensures DiffTo(old_, new_, i) <= Diff(old_, new_)
  {
    DiffToPrefix(old_, new_, i, |old_|);
    DiffToIs(old_, new_, |old_|);
  }

  lemma {:induction false} NodesListed(ss: seq<Service>, x: Node)
    requires DistinctVersions(ss)
    ensures x in AllNodes(ss) <==> exists v :: x in NodesAt(ss, v)
  {
    if x in AllNodes(ss) {
      var i := ListedAt(ss, x);
      NodesAtIs(ss, ss[i].version, i);
    }
    if v :| x in NodesAt(ss, v) {
      ListedIn(ss, FindVersion(ss, v, |ss|), x);
    }
  }

  lemma {:induction false} ListedAt(ss: seq<Service>, x: Node) returns (i: nat)
    requires x in AllNodes(ss)
    ensures i < |ss| && x in ss[i].nodes
  {
    if x in ss[|ss| - 1].nodes {
      i := |ss| - 1;
    } else {
      i := ListedAt(ss[..|ss| - 1], x);
    }
  }

  lemma {:induction false} ListedIn(ss: seq<Service>, i: nat, x: Node)
    requires i < |ss| && x in ss[i].nodes
    ensures x in AllNodes(ss)
  {
    if i < |ss| - 1 {
      ListedIn(ss[..|ss| - 1], i, x);
    }
  }

  lemma {:induction false} WideStep(services: seq<Service>, old_: seq<Service>, new_: seq<Service>, i: nat)
    requires i < |old_| && !HasVersion(new_, old_[i].version) && old_[i].nodes == []
    ensures ApplyAll(Some(services), DiffTo(old_, new_, i + 1)).None?
    ensures var e := ApplyAll(Some(services), DiffTo(old_, new_, i));
            Reported(Some(services), DiffTo(old_, new_, i + 1))
            == Reported(Some(services), DiffTo(old_, new_, i)) + if e.Some? then AllNodes(e.value) else []
  {
    DropEvent(old_, new_, i);
    OneMore(Some(services), DiffTo(old_, new_, i), Result(Delete, old_[i]));
  }

  /** A service-wide delete reports whatever is cached and drops the entry for good. */
  lemma {:induction false} WideDelete(services: seq<Service>, old_: seq<Service>, new_: seq<Service>, i: nat)
    requires i < |old_| && !HasVersion(new_, old_[i].version) && old_[i].nodes == []
    ensures ApplyAll(Some(services), Diff(old_, new_)).None?
    ensures var e := ApplyAll(Some(services), DiffTo(old_, new_, i));
            Reported(Some(services), Diff(old_, new_))
            == Reported(Some(services), DiffTo(old_, new_, i)) + if e.Some? then AllNodes(e.value) else []
  {
    WideStep(services, old_, new_, i);
    DiffPrefix(old_, new_, i + 1);
    NothingAfter(Some(services), Diff(old_, new_), DiffTo(old_, new_, i + 1));
  }

  lemma {:induction false} WideIsDropped(old_: seq<Service>, new_: seq<Service>)
    ensures NoneWide(old_, new_, |old_|) <==> !EmptyVersionDropped(old_, new_)
  {
  }

  /** When the events of a snapshot drop the entry: exactly if an old version without nodes is gone, or
      every cached version is emptied before the cache gets any node of the new snapshot. */
  lemma {:induction false} DroppedExactly(services: seq<Service>, old_: seq<Service>, new_: seq<Service>)
    requires DistinctVersions(services) && DistinctVersions(old_) && DistinctVersions(new_)
    ensures ApplyAll(Some(services), Diff(old_, new_)).None?
            <==> EmptyVersionDropped(old_, new_) || AllEmptied(services, old_, new_)
  {
    WideIsDropped(old_, new_);
    if EmptyVersionDropped(old_, new_) {
      var i := FirstWide(old_, new_, |old_|);
      WideDelete(services, old_, new_, i);
    } else {
      OldEventsExact(services, old_, new_, |old_|);
      DiffToIs(old_, new_, |old_|);
    }
  }

  /** Cached or new nodes that a service-wide delete finds. */
  predicate Remaining(services: seq<Service>, old_: seq<Service>, new_: seq<Service>, v: string, x: Node) {
    x in NodesAt(new_, v) + Stale(NodesAt(services, v), NodesAt(old_, v), NodesAt(new_, v))
  }

  /** A node is lost, or was known to neither snapshot, or is listed anew. */
  lemma {:induction false} CachedIsLostOrStale(services: seq<Service>, old_: seq<Service>, new_: seq<Service>, v: string, x: Node)
    requires x in NodesAt(services, v) && NodesAt(new_, v) == []
    ensures LostNode(services, old_, new_, v, x) || Remaining(services, old_, new_, v, x)
  {
    var cur, o, n := NodesAt(services, v), NodesAt(old_, v), NodesAt(new_, v);
    SelectHasID(o, n, x.instanceID);
    SelectMembers(cur, o + n, false);
    HasIDAppend(o, n, x.instanceID);
  }

  /** What neither snapshot knows is cached, and no delete takes it. */
  lemma {:induction false} StaleIsKept(services: seq<Service>, old_: seq<Service>, new_: seq<Service>, v: string, x: Node)
    ensures x in Stale(NodesAt(services, v), NodesAt(old_, v), NodesAt(new_, v)) ==>
              x in NodesAt(services, v) && x in Select(NodesAt(services, v), Lost(old_, new_, v), false)
  {
    var cur, o, n, lost := NodesAt(services, v), NodesAt(old_, v), NodesAt(new_, v), Lost(old_, new_, v);
    SelectMembers(cur, o + n, false);
    HasIDAppend(o, n, x.instanceID);
    SelectHasID(o, n, x.instanceID);
    SelectMembers(cur, lost, false);
  }

  /** The nodes of an entry after the events for i old services. */
  ghost predicate NodesShape(services: seq<Service>, old_: seq<Service>, new_: seq<Service>, i: nat, ss: seq<Service>)
    requires i <= |old_|
  {
    DistinctVersions(ss) && forall v ::
      NodesAt(ss, v)
      == if Seen(old_, new_, i, v) then NodesAt(new_, v) + Stale(NodesAt(services, v), NodesAt(old_, v), NodesAt(new_, v))
         else NodesAt(services, v)
  }

  /** Where the service-wide delete finds a node. */
  lemma {:induction false} FoundAtWide(services: seq<Service>, old_: seq<Service>, new_: seq<Service>, i: nat, ss: seq<Service>, x: Node)
    requires i < |old_| && NodesShape(services, old_, new_, i, ss)
    ensures ReportedOld(services, old_, new_, i, x) || x in AllNodes(ss)
            <==> exists v :: LostNode(services, old_, new_, v, x) || Remaining(services, old_, new_, v, x)
  {
    NodesListed(ss, x);
    if v :| x in NodesAt(ss, v) {
      if Seen(old_, new_, i, v) {
        assert Remaining(services, old_, new_, v, x);
      } else {
        CachedIsLostOrStale(services, old_, new_, v, x);
      }
    }
    if v :| LostNode(services, old_, new_, v, x) || Remaining(services, old_, new_, v, x) {
      FoundHere(services, old_, new_, i, ss, v, x);
    }
  }

  lemma {:induction false} FoundHere(services: seq<Service>, old_: seq<Service>, new_: seq<Service>, i: nat, ss: seq<Service>, v: string, x: Node)
    requires i < |old_| && NodesShape(services, old_, new_, i, ss)
    requires LostNode(services, old_, new_, v, x) || Remaining(services, old_, new_, v, x)
    ensures ReportedOld(services, old_, new_, i, x) || x in NodesAt(ss, v)
  {
    StaleIsKept(services, old_, new_, v, x);
    assert Seen(old_, new_, i, v) || NodesAt(ss, v) == NodesAt(services, v);
  }

  /** Once the entry is gone early, nothing is left that was not lost. */
  lemma {:induction false} GoneIsLost(services: seq<Service>, old_: seq<Service>, new_: seq<Service>, i: nat, v: string, x: Node)
    requires i <= |old_| && Gone(services, old_, new_, i) && LostNode(services, old_, new_, v, x)
    ensures ReportedOld(services, old_, new_, i, x)
  {
    assert HasVersion(services, v);
    assert Early(old_, new_, i, v);
    VersionIn(new_, v, |new_|);
    assert Seen(old_, new_, i, v);
  }

  lemma {:induction false} GoneLater(services: seq<Service>, old_: seq<Service>, new_: seq<Service>, i: nat)
    requires DistinctVersions(old_) && i <= |old_| && Gone(services, old_, new_, i)
    ensures AllEmptied(services, old_, new_)
  {
    forall v | HasVersion(services, v)
      ensures Emptied(services, old_, new_, v) && Early(old_, new_, |old_|, v)
    {
      assert Early(old_, new_, i, v);
      VersionIn(old_, v, i);
      VersionIn(old_, v, |old_|);
    }
  }

  lemma {:induction false} EmptiedHasNoStale(services: seq<Service>, old_: seq<Service>, new_: seq<Service>, v: string, x: Node)
    requires HasVersion(services, v) ==> Emptied(services, old_, new_, v)
    ensures x !in Stale(NodesAt(services, v), NodesAt(old_, v), NodesAt(new_, v))
  {
    StaleIsKept(services, old_, new_, v, x);
  }

  /** All emptied, yet not gone by the service-wide delete: then the new snapshot has no nodes and
      nothing remains but what was lost. */
  lemma {:induction false} NothingRemains(services: seq<Service>, old_: seq<Service>, new_: seq<Service>, i: nat, v: string, x: Node)
    requires i <= |old_| && AllEmptied(services, old_, new_) && !Gone(services, old_, new_, i)
    ensures !Remaining(services, old_, new_, v, x)
  {
    var u :| HasVersion(services, u) && !(Emptied(services, old_, new_, u) && Early(old_, new_, i, u));
    assert Early(old_, new_, |old_|, u) && NoNodes(new_);
    EmptiedHasNoStale(services, old_, new_, v, x);
  }

  /** A node the events report: its version lost it; or an old version without nodes is gone, the entry
      was not emptied first, and it remains. */
  ghost predicate Reports(services: seq<Service>, old_: seq<Service>, new_: seq<Service>, x: Node) {
    || (exists v :: LostNode(services, old_, new_, v, x))
    || (EmptyVersionDropped(old_, new_) && !AllEmptied(services, old_, new_) && exists v :: Remaining(services, old_, new_, v, x))
  }

  /** Exactly what the events of a snapshot report: the cached nodes that their version lost; and, if an
      old version without nodes is gone and the entry was not emptied first, everything else too. */
  lemma {:induction false} ReportedExactly(services: seq<Service>, old_: seq<Service>, new_: seq<Service>, x: Node)
    requires DistinctVersions(services) && DistinctVersions(old_) && DistinctVersions(new_)
    ensures x in Reported(Some(services), Diff(old_, new_)) <==> Reports(services, old_, new_, x)
  {
    WideIsDropped(old_, new_);
    if EmptyVersionDropped(old_, new_) {
      var i := FirstWide(old_, new_, |old_|);
      WideDelete(services, old_, new_, i);
      OldEventsExact(services, old_, new_, i);
      if ApplyAll(Some(services), DiffTo(old_, new_, i)).Some? {
        WideReports(services, old_, new_, i, x);
      } else {
        GoneLater(services, old_, new_, i);
        if v :| LostNode(services, old_, new_, v, x) {
          GoneIsLost(services, old_, new_, i, v, x);
        }
      }
    } else {
      OldEventsExact(services, old_, new_, |old_|);
      DiffToIs(old_, new_, |old_|);
      if v :| LostNode(services, old_, new_, v, x) {
        LostIsSeen(services, old_, new_, v, x);
      }
    }
  }

  lemma {:induction false} LostIsSeen(services: seq<Service>, old_: seq<Service>, new_: seq<Service>, v: string, x: Node)
    requires LostNode(services, old_, new_, v, x)
    ensures Seen(old_, new_, |old_|, v)
  {
    SelectHasID(NodesAt(old_, v), NodesAt(new_, v), x.instanceID);
  }

  lemma {:induction false} WideReports(services: seq<Service>, old_: seq<Service>, new_: seq<Service>, i: nat, x: Node)
    requires DistinctVersions(services) && DistinctVersions(old_) && DistinctVersions(new_) && i < |old_|
    requires ApplyAll(Some(services), DiffTo(old_, new_, i)).Some? && AfterOld(services, old_, new_, i)
    requires EmptyVersionDropped(old_, new_)
    ensures ReportedOld(services, old_, new_, i, x) || x in AllNodes(ApplyAll(Some(services), DiffTo(old_, new_, i)).value)
            <==> Reports(services, old_, new_, x)
  {
    var ss := ApplyAll(Some(services), DiffTo(old_, new_, i)).value;
    forall v
      ensures NodesAt(ss, v)
              == if Seen(old_, new_, i, v) then NodesAt(new_, v) + Stale(NodesAt(services, v), NodesAt(old_, v), NodesAt(new_, v))
                 else NodesAt(services, v)
    {
      NodesSoFar(services, old_, new_, i, v);
    }
    FoundAtWide(services, old_, new_, i, ss, x);
    if AllEmptied(services, old_, new_) {
      forall v
        ensures !Remaining(services, old_, new_, v, x)
      {
        NothingRemains(services, old_, new_, i, v, x);
      }
    }
  }

  // ----- live instances

  /** The new snapshot lists the id under some version. */
  ghost predicate Live(new_: seq<Service>, id: string) {
    exists v :: HasID(NodesAt(new_, v), id)
  }

  /** A cached node whose id left its version for another one. */
  ghost predicate LiveLost(services: seq<Service>, old_: seq<Service>, new_: seq<Service>) {
    exists v, x :: LostNode(services, old_, new_, v, x) && Live(new_, x.instanceID)
  }

  /** A service-wide delete finds the entry with nodes of the new snapshot in it. */
  ghost predicate WideHits(services: seq<Service>, old_: seq<Service>, new_: seq<Service>) {
    EmptyVersionDropped(old_, new_) && !AllEmptied(services, old_, new_) && exists v :: NodesAt(new_, v) != []
  }

  lemma {:induction false} LiveReports(services: seq<Service>, old_: seq<Service>, new_: seq<Service>, x: Node)
    requires Reports(services, old_, new_, x) && Live(new_, x.instanceID)
    ensures LiveLost(services, old_, new_) || WideHits(services, old_, new_)
  {
    var v :| HasID(NodesAt(new_, v), x.instanceID);
    assert NodesAt(new_, v) != [];
  }

  lemma {:induction false} WideHitsLive(services: seq<Service>, old_: seq<Service>, new_: seq<Service>) returns (x: Node)
    requires WideHits(services, old_, new_)
    ensures Reports(services, old_, new_, x) && Live(new_, x.instanceID)
  {
    var v :| NodesAt(new_, v) != [];
    x := NodesAt(new_, v)[0];
    assert HasID(NodesAt(new_, v), x.instanceID) && Remaining(services, old_, new_, v, x);
  }

  /** A live instance is reported gone exactly when a cached node's id left its version for another
      one, or when an old version without nodes is gone while the new snapshot has nodes and the entry
      was not emptied first. */
  lemma {:induction false} LiveReportedIff(services: seq<Service>, old_: seq<Service>, new_: seq<Service>)
    requires DistinctVersions(services) && DistinctVersions(old_) && DistinctVersions(new_)
    ensures (exists x :: x in Reported(Some(services), Diff(old_, new_)) && Live(new_, x.instanceID))
            <==> LiveLost(services, old_, new_) || WideHits(services, old_, new_)
  {
    var r := Reported(Some(services), Diff(old_, new_));
    if x :| x in r && Live(new_, x.instanceID) {
      ReportedExactly(services, old_, new_, x);
      LiveReports(services, old_, new_, x);
    }
    if LiveLost(services, old_, new_) {
      var v, x :| LostNode(services, old_, new_, v, x) && Live(new_, x.instanceID);
      ReportedExactly(services, old_, new_, x);
      assert x in r;
    }
    if WideHits(services, old_, new_) {
      var x := WideHitsLive(services, old_, new_);
      ReportedExactly(services, old_, new_, x);
      assert x in r;
    }
  }

  /** For a cache that holds the old snapshot, losing a live node means that its id moved. */
  lemma {:induction false} LostFromOldMoved(services: seq<Service>, old_: seq<Service>, new_: seq<Service>, v: string, x: Node)
    requires Agrees(services, old_)
    ensures LostNode(services, old_, new_, v, x) && Live(new_, x.instanceID) <==>
            && x in NodesAt(old_, v) && !HasID(NodesAt(new_, v), x.instanceID)
            && exists w :: w != v && HasID(NodesAt(new_, w), x.instanceID)
  {
    assert NodesAt(services, v) == NodesAt(old_, v);
    SelectHasID(NodesAt(old_, v), NodesAt(new_, v), x.instanceID);
    if x in NodesAt(old_, v) {
      var o := NodesAt(old_, v);
      var i :| 0 <= i < |o| && o[i] == x;
      assert HasID(o, x.instanceID);
    }
  }

  /** The same for a cache that holds the old snapshot: a live instance is reported exactly when an old
      id is listed under another version instead, or a service-wide delete hits. */
  lemma {:induction false} LiveReportedFromOld(services: seq<Service>, old_: seq<Service>, new_: seq<Service>)
    requires DistinctVersions(services) && DistinctVersions(old_) && DistinctVersions(new_) && Agrees(services, old_)
    ensures (exists x :: x in Reported(Some(services), Diff(old_, new_)) && Live(new_, x.instanceID)) <==>
            || (exists v, x, w :: Moved(old_, new_, v, x, w))
            || WideHits(services, old_, new_)
  {
    LiveReportedIff(services, old_, new_);
    if LiveLost(services, old_, new_) {
      var v, x :| LostNode(services, old_, new_, v, x) && Live(new_, x.instanceID);
      LostFromOldMoved(services, old_, new_, v, x);
      var w :| w != v && HasID(NodesAt(new_, w), x.instanceID);
      assert Moved(old_, new_, v, x, w);
    }
    if v, x, w :| Moved(old_, new_, v, x, w) {
      LostFromOldMoved(services, old_, new_, v, x);
      assert LostNode(services, old_, new_, v, x) && Live(new_, x.instanceID);
    }
  }

  /** The id of an old node of version v is listed under w and no longer under v. */
  predicate Moved(old_: seq<Service>, new_: seq<Service>, v: string, x: Node, w: string) {
    && x in NodesAt(old_, v) && !HasID(NodesAt(new_, v), x.instanceID)
    && w != v && HasID(NodesAt(new_, w), x.instanceID)
  }

  lemma {:induction false} LostIsReported(services: seq<Service>, old_: seq<Service>, new_: seq<Service>, v: string, x: Node)
    requires DistinctVersions(services) && DistinctVersions(old_) && DistinctVersions(new_)
    requires LostNode(services, old_, new_, v, x)
    ensures x in Reported(Some(services), Diff(old_, new_))
  {
    ReportedExactly(services, old_, new_, x);
  }

  lemma {:induction false} OneNodeMoves(x: Node, old_: seq<Service>, new_: seq<Service>)
    requires old_ == [Service("svc", "v1", [], [x])] && new_ == [Service("svc", "v2", [], [x])]
    ensures LostNode(old_, old_, new_, "v1", x) && Live(new_, x.instanceID) && !EmptyVersionDropped(old_, new_)
  {
    NodesAtIs(old_, "v1", 0);
    NodesAtIs(new_, "v2", 0);
    assert NodesAt(new_, "v1") == [];
    SelectNone([x]);
    assert Lost(old_, new_, "v1") == [x] && [x][0] == x;
    assert HasID(NodesAt(new_, "v2"), x.instanceID);
  }

  /** An instance that changes its version is reported gone though the new snapshot lists it, without
      any service-wide delete. */
  lemma {:induction false} MovedInstanceReported(x: Node)
    ensures var old_, new_ := [Service("svc", "v1", [], [x])], [Service("svc", "v2", [], [x])];
            x in Reported(Some(old_), Diff(old_, new_)) && Live(new_, x.instanceID) && !EmptyVersionDropped(old_, new_)
  {
    var old_, new_ := [Service("svc", "v1", [], [x])], [Service("svc", "v2", [], [x])];
    OneNodeMoves(x, old_, new_);
    LostIsReported(old_, old_, new_, "v1", x);
  }

  /** The whole outcome for an entry that held the old snapshot's nodes, in any order: dropped exactly
      when an old version without nodes is gone or every cached version is emptied before a new node
      arrives, and otherwise equal to the new snapshot. */
  lemma {:induction false} SyncOutcome(services: seq<Service>, old_: seq<Service>, new_: seq<Service>)
    requires DistinctVersions(services) && DistinctVersions(old_) && DistinctVersions(new_)
    requires forall v, x :: x in NodesAt(services, v) <==> x in NodesAt(old_, v)
    ensures var after := ApplyAll(Some(services), Diff(old_, new_));
            if EmptyVersionDropped(old_, new_) || AllEmptied(services, old_, new_) then after == None
            else after.Some? && Agrees(after.value, new_)
  {
    DroppedExactly(services, old_, new_);
    SyncFromOld(services, old_, new_);
  }

  // ----- an entry that is dropped and not updated

  function OneNode(version: string, x: Node): Service {
    Service("svc", version, [], [x])
  }

  lemma {:induction false} OneOld(old_: seq<Service>, new_: seq<Service>, a: Node, b: Node)
    requires old_ == [OneNode("1", a)] && a.instanceID != b.instanceID && NodesAt(new_, "1") == [b]
    ensures DistinctVersions(old_) && OnlyVersion(old_, "1") && HasVersion(old_, "1") && Emptied(old_, old_, new_, "1")
  {
    NodesAtIs(old_, "1", 0);
    OneService(old_, "1");
    SelectAppend([], a, [b], false);
    assert [] + [a] == [a] && Select([a], [b], false) == [a];
    SelectAppend([], a, [a], false);
    assert [a][0].instanceID == a.instanceID && Select([a], [a], false) == [];
  }

  /** The only cached node is replaced: the entry goes, though the new snapshot has a node. */
  lemma {:induction false} ReplacedIsDropped(a: Node, b: Node)
    requires a.instanceID != b.instanceID
    ensures var old_, new_ := [OneNode("1", a)], [OneNode("1", b)];
            ApplyAll(Some(old_), Diff(old_, new_)) == None
  {
    var old_, new_ := [OneNode("1", a)], [OneNode("1", b)];
    NodesAtIs(new_, "1", 0);
    OneOld(old_, new_, a, b);
    assert EarlyNew(new_, |new_|, "1") by {
      assert new_[0].version == "1";
    }
    assert AllEmptied(old_, old_, new_);
    DroppedExactly(old_, old_, new_);
  }

  lemma {:induction false} FirstWalkDrops(old_: seq<Service>, new_: seq<Service>, a: Node, b: Node, c: Node)
    requires a.instanceID != b.instanceID && old_ == [OneNode("1", a)] && new_ == [OneNode("1", b), OneNode("2", c)]
    ensures ApplyAll(Some(old_), Diff(old_, new_)) == None
  {
    NodesAtIs(new_, "1", 0);
    OneOld(old_, new_, a, b);
    assert EarlyNew(new_, |new_|, "1") by {
      assert new_[0].version == "1";
    }
    assert AllEmptied(old_, old_, new_);
    DroppedExactly(old_, old_, new_);
  }

  lemma {:induction false} SecondWalkUpdates(old_: seq<Service>, new_: seq<Service>, a: Node, b: Node, c: Node)
    requires a.instanceID != b.instanceID && old_ == [OneNode("1", a)] && new_ == [OneNode("2", c), OneNode("1", b)]
    ensures var after := ApplyAll(Some(old_), Diff(old_, new_)); after.Some? && Agrees(after.value, new_)
  {
    NodesAtIs(new_, "1", 1);
    OneOld(old_, new_, a, b);
    FindFirst(new_, 1, |new_|);
    assert new_[0].nodes != [] && !EarlyNew(new_, |new_|, "1");
    assert !Early(old_, new_, |old_|, "1");
    assert !AllEmptied(old_, old_, new_);
    SyncOutcome(old_, old_, new_);
  }

  /** The same two snapshots, walked in two orders: one drops the entry, the other brings it up to date. */
  lemma {:induction false} WalkOrderDecides(a: Node, b: Node, c: Node)
    requires a.instanceID != b.instanceID
    ensures var old_, one, two := [OneNode("1", a)], [OneNode("1", b), OneNode("2", c)], [OneNode("2", c), OneNode("1", b)];
            && ApplyAll(Some(old_), Diff(old_, one)) == None
            && ApplyAll(Some(old_), Diff(old_, two)).Some? && Agrees(ApplyAll(Some(old_), Diff(old_, two)).value, two)
  {
    var old_, one, two := [OneNode("1", a)], [OneNode("1", b), OneNode("2", c)], [OneNode("2", c), OneNode("1", b)];
    FirstWalkDrops(old_, one, a, b, c);
    SecondWalkUpdates(old_, two, a, b, c);
  }
}
