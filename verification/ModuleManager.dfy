/**
 The module manager (module/base/module_manager.go): the configuration check, the choice of the modules
 this process runs, and the order in which modules start and stop.

 Agents are numbered: first the bootstrap modules of RegisterRunMod, then those of Register. The walk
 over the configuration map may take any order, which is an argument. Modules' own code is left out
 but for the calls it gets.
 */
module ModuleManager {
  import opened Wrappers

  datatype Setting = Setting(id: string, processID: string)

  type Config = map<string, seq<Setting>>

  /** Some order of the module types, as the walk over the map takes it. */
  predicate Walk(order: seq<string>, conf: Config) {
    && (forall i :: 0 <= i < |order| ==> order[i] in conf)
    && (forall t :: t in conf ==> exists i :: 0 <= i < |order| && order[i] == t)
    && (forall i, j :: 0 <= i < j < |order| ==> order[i] != order[j])
  }

  // ----- CheckModuleSettings

  function IdsTo(settings: seq<Setting>, k: nat): set<string>
    requires k <= |settings|
  {
    set i | 0 <= i < k :: settings[i].id
  }

  function Ids(settings: seq<Setting>): set<string> {
    IdsTo(settings, |settings|)
  }

  predicate TypeOk(settings: seq<Setting>) {
    && (forall i, j :: 0 <= i < j < |settings| ==> settings[i].id != settings[j].id)
    && (forall i, j :: 0 <= i < j < |settings| ==> settings[i].processID != settings[j].processID)
  }

  /** Ids are unique over all types, process ids within each type. */
  predicate WellFormed(conf: Config) {
    && (forall t :: t in conf ==> TypeOk(conf[t]))
    && (forall t, u :: t in conf && u in conf && t != u ==> Ids(conf[t]) !! Ids(conf[u]))
  }

  ghost predicate PidsUpTo(settings: seq<Setting>, k: nat, pids: set<string>)
    requires k <= |settings|
  {
    forall p :: p in pids <==> exists i :: 0 <= i < k && settings[i].processID == p
  }

  predicate TypeOkUpTo(settings: seq<Setting>, k: nat)
    requires k <= |settings|
  {
    && (forall i, j :: 0 <= i < j < k ==> settings[i].id != settings[j].id)
    && (forall i, j :: 0 <= i < j < k ==> settings[i].processID != settings[j].processID)
  }

  lemma {:induction false} TypeOneMore(settings: seq<Setting>, k: nat, gid: set<string>, pids: set<string>)
    requires k < |settings| && TypeOkUpTo(settings, k) && IdsTo(settings, k) !! gid && PidsUpTo(settings, k, pids)
    ensures var s := settings[k];
            if s.id in gid + IdsTo(settings, k) || s.processID in pids then !TypeOk(settings) || s.id in gid
            else TypeOkUpTo(settings, k + 1) && IdsTo(settings, k + 1) !! gid && PidsUpTo(settings, k + 1, pids + {s.processID})
    ensures settings[k].id in Ids(settings) && IdsTo(settings, k + 1) == IdsTo(settings, k) + {settings[k].id}
  {
    assert forall i :: 0 <= i < k ==> settings[i].id in IdsTo(settings, k);
  }

  /** The settings of one type, after those whose ids are in gid. */
  method CheckType(moduleType: string, settings: seq<Setting>, gid: map<string, string>)
    returns (ok: bool, gid': map<string, string>)
    ensures ok <==> TypeOk(settings) && Ids(settings) !! gid.Keys
    ensures ok ==> gid'.Keys == gid.Keys + Ids(settings)
  {
    gid' := gid;
    var pid: map<string, string> := map[];
    for k := 0 to |settings|
      invariant TypeOkUpTo(settings, k) && IdsTo(settings, k) !! gid.Keys
      invariant gid'.Keys == gid.Keys + IdsTo(settings, k) && PidsUpTo(settings, k, pid.Keys)
    {
      var s := settings[k];
      TypeOneMore(settings, k, gid.Keys, pid.Keys);
      if s.id in gid' {
        return false, gid';
      }
      gid' := gid'[s.id := moduleType];
      if s.processID in pid {
        return false, gid';
      }
      pid := pid[s.processID := s.id];
    }
    ok := true;
  }

  predicate CheckedUpTo(conf: Config, order: seq<string>, k: nat)
    requires Walk(order, conf) && k <= |order|
  {
    && (forall j :: 0 <= j < k ==> TypeOk(conf[order[j]]))
    && (forall i, j :: 0 <= i < j < k ==> Ids(conf[order[i]]) !! Ids(conf[order[j]]))
  }

  ghost predicate SeenUpTo(conf: Config, order: seq<string>, k: nat, gid: set<string>)
    requires Walk(order, conf) && k <= |order|
  {
    forall id :: id in gid <==> exists j :: 0 <= j < k && id in Ids(conf[order[j]])
  }

  lemma {:induction false} AllChecked(conf: Config, order: seq<string>)
    requires Walk(order, conf) && CheckedUpTo(conf, order, |order|)
    ensures WellFormed(conf)
  {
    forall t, u | t in conf && u in conf && t != u
      ensures Ids(conf[t]) !! Ids(conf[u])
    {
      var i :| 0 <= i < |order| && order[i] == t;
      var j :| 0 <= j < |order| && order[j] == u;
      assert Ids(conf[order[i]]) !! Ids(conf[order[j]]);
    }
  }

  lemma {:induction false} CheckedOneMore(conf: Config, order: seq<string>, k: nat, gid: set<string>)
    requires Walk(order, conf) && k < |order| && CheckedUpTo(conf, order, k) && SeenUpTo(conf, order, k, gid)
    requires TypeOk(conf[order[k]]) && Ids(conf[order[k]]) !! gid
    ensures CheckedUpTo(conf, order, k + 1)
  {
    forall i | 0 <= i < k
      ensures Ids(conf[order[i]]) !! Ids(conf[order[k]])
    {
      assert forall id :: id in Ids(conf[order[i]]) ==> id in gid;
    }
  }

  lemma {:induction false} SeenOneMore(conf: Config, order: seq<string>, k: nat, gid: set<string>)
    requires Walk(order, conf) && k < |order| && SeenUpTo(conf, order, k, gid)
    ensures SeenUpTo(conf, order, k + 1, gid + Ids(conf[order[k]]))
  {
  }

  lemma {:induction false} ClashIsIllFormed(conf: Config, order: seq<string>, k: nat, gid: set<string>)
    requires Walk(order, conf) && k < |order| && SeenUpTo(conf, order, k, gid) && !(Ids(conf[order[k]]) !! gid)
    ensures !WellFormed(conf)
  {
    var id :| id in Ids(conf[order[k]]) && id in gid;
    var j :| 0 <= j < k && id in Ids(conf[order[j]]);
    assert order[j] in conf && order[k] in conf && order[j] != order[k];
    assert !(Ids(conf[order[j]]) !! Ids(conf[order[k]]));
  }

  /** The check accepts exactly the well-formed configurations, whatever the order of the walk; false
      is its panic. */
  method CheckModuleSettings(conf: Config, order: seq<string>) returns (ok: bool)
    requires Walk(order, conf)
    ensures ok <==> WellFormed(conf)
  {
    var gid: map<string, string> := map[];
    for k := 0 to |order|
      invariant CheckedUpTo(conf, order, k) && SeenUpTo(conf, order, k, gid.Keys)
    {
      ghost var seen := gid.Keys;
      ok, gid := CheckType(order[k], conf[order[k]], gid);
      if !ok {
        if TypeOk(conf[order[k]]) {
          ClashIsIllFormed(conf, order, k, seen);
        }
        return;
      }
      CheckedOneMore(conf, order, k, seen);
      SeenOneMore(conf, order, k, seen);
    }
    AllChecked(conf, order);
    ok := true;
  }

  // ----- which modules run

  function Matches(settings: seq<Setting>, pid: string, k: nat): nat
    requires k <= |settings|
  {
    if k == 0 then 0 else Matches(settings, pid, k - 1) + if settings[k - 1].processID == pid then 1 else 0
  }

  /** The last setting for the process. */
  function LastMatch(settings: seq<Setting>, pid: string, k: nat): (r: Option<Setting>)
    requires k <= |settings|
    ensures r.None? ==> forall j :: 0 <= j < k ==> settings[j].processID != pid
    ensures r.Some? ==> exists i :: 0 <= i < k && settings[i] == r.value && r.value.processID == pid
                                    && forall j :: i < j < k ==> settings[j].processID != pid
  {
    if k == 0 then None
    else if settings[k - 1].processID == pid then Some(settings[k - 1])
    else LastMatch(settings, pid, k - 1)
  }

  function SettingsOf(conf: Config, moduleType: string): seq<Setting> {
    if moduleType in conf then conf[moduleType] else []
  }

  function Times(agent: nat, n: nat): seq<nat> {
    seq(n, _ => agent)
  }

  /** The agents appended for the first k registered modules; the i-th is agent boot + i. */
  function Chosen(types: seq<string>, boot: nat, conf: Config, pid: string, k: nat): seq<nat>
    requires k <= |types|
  {
    if k == 0 then [] else
    var s := SettingsOf(conf, types[k - 1]);
    Chosen(types, boot, conf, pid, k - 1) + Times(boot + k - 1, Matches(s, pid, |s|))
  }

  function Bootstrap(boot: nat): (r: seq<nat>)
    ensures |r| == boot
  {
    seq(boot, i => i)
  }

  function RunMods(types: seq<string>, boot: nat, conf: Config, pid: string): seq<nat> {
    Bootstrap(boot) + Chosen(types, boot, conf, pid, |types|)
  }

  /** Each registered module has the last setting for the process, or none. */
  ghost predicate Configured(settings: map<nat, Setting>, types: seq<string>, boot: nat, conf: Config, pid: string, k: nat)
    requires k <= |types|
  {
    && (forall a :: a in settings ==> boot <= a < boot + k)
    && (forall i :: 0 <= i < k ==>
          var s := SettingsOf(conf, types[i]);
          LastMatch(s, pid, |s|) == if boot + i in settings then Some(settings[boot + i]) else None)
  }

  lemma {:induction false} ConfiguredOneMore(was: map<nat, Setting>, now: map<nat, Setting>, types: seq<string>, boot: nat, conf: Config, pid: string, k: nat)
    requires k < |types| && Configured(was, types, boot, conf, pid, k)
    requires var s := SettingsOf(conf, types[k]);
             var last := LastMatch(s, pid, |s|);
             now == if last.Some? then was[boot + k := last.value] else was
    ensures Configured(now, types, boot, conf, pid, k + 1)
  {
  }

  predicate NoDuplicates(s: seq<nat>) {
    forall i, j :: 0 <= i < j < |s| ==> s[i] != s[j]
  }

  lemma {:induction false} ChosenRange(types: seq<string>, boot: nat, conf: Config, pid: string, k: nat)
    requires k <= |types|
    ensures forall a :: a in Chosen(types, boot, conf, pid, k) ==> boot <= a < boot + k
  {
    if k > 0 {
      ChosenRange(types, boot, conf, pid, k - 1);
    }
  }

  /** Some setting of the type names the process. */
  predicate Named(conf: Config, moduleType: string, pid: string) {
    moduleType in conf && exists k :: 0 <= k < |conf[moduleType]| && conf[moduleType][k].processID == pid
  }

  lemma {:induction false} MatchesSome(settings: seq<Setting>, pid: string, k: nat)
    requires k <= |settings|
    ensures Matches(settings, pid, k) > 0 <==> exists i :: 0 <= i < k && settings[i].processID == pid
  {
    if k > 0 {
      MatchesSome(settings, pid, k - 1);
    }
  }

  lemma {:induction false} ChosenExactly(types: seq<string>, boot: nat, conf: Config, pid: string, k: nat, i: nat)
    requires i < k <= |types|
    ensures boot + i in Chosen(types, boot, conf, pid, k) <==> Named(conf, types[i], pid)
    decreases k
  {
    var s := SettingsOf(conf, types[k - 1]);
    var tail := Times(boot + k - 1, Matches(s, pid, |s|));
    ChosenRange(types, boot, conf, pid, k - 1);
    if i < k - 1 {
      ChosenExactly(types, boot, conf, pid, k - 1, i);
    } else {
      MatchesSome(s, pid, |s|);
      assert |tail| > 0 ==> tail[0] == boot + i;
    }
  }

  lemma {:induction false} ChosenInOrder(types: seq<string>, boot: nat, conf: Config, pid: string, k: nat, p: nat, q: nat)
    requires k <= |types| && p < q < |Chosen(types, boot, conf, pid, k)|
    ensures Chosen(types, boot, conf, pid, k)[p] <= Chosen(types, boot, conf, pid, k)[q]
    decreases k
  {
    var was := Chosen(types, boot, conf, pid, k - 1);
    ChosenRange(types, boot, conf, pid, k - 1);
    if q < |was| {
      ChosenInOrder(types, boot, conf, pid, k - 1, p, q);
    } else if p < |was| {
      assert was[p] in was;
    }
  }

  /** The run list holds every bootstrap module and exactly the registered modules with a setting for the
      process, in the order of their registration. */
  lemma {:induction false} RunsExactly(types: seq<string>, boot: nat, conf: Config, pid: string)
    ensures forall a: nat :: a in RunMods(types, boot, conf, pid) <==>
              a < boot || (a < boot + |types| && Named(conf, types[a - boot], pid))
    ensures forall p, q :: 0 <= p < q < |RunMods(types, boot, conf, pid)| ==>
              RunMods(types, boot, conf, pid)[p] <= RunMods(types, boot, conf, pid)[q]
  {
    var b, c := Bootstrap(boot), Chosen(types, boot, conf, pid, |types|);
    ChosenRange(types, boot, conf, pid, |types|);
    forall a: nat
      ensures a in b + c <==> a < boot || (a < boot + |types| && Named(conf, types[a - boot], pid))
    {
      if a < boot {
        assert b[a] == a;
      } else if a < boot + |types| {
        ChosenExactly(types, boot, conf, pid, |types|, a - boot);
      }
    }
    forall p, q | 0 <= p < q < |b + c|
      ensures (b + c)[p] <= (b + c)[q]
    {
      if p >= boot {
        ChosenInOrder(types, boot, conf, pid, |types|, p - boot, q - boot);
      } else if q >= boot {
        assert c[q - boot] in c;
      }
    }
  }

  /** Every registered module has at most one setting for the process. */
  predicate OneMatch(types: seq<string>, conf: Config, pid: string, k: nat)
    requires k <= |types|
  {
    forall i :: 0 <= i < k ==> Matches(SettingsOf(conf, types[i]), pid, |SettingsOf(conf, types[i])|) <= 1
  }

  lemma {:induction false} AppendTimes(s: seq<nat>, a: nat, n: nat)
    requires a !in s
    ensures NoDuplicates(s + Times(a, n)) <==> NoDuplicates(s) && n <= 1
  {
    var r := s + Times(a, n);
    assert forall i :: 0 <= i < |s| ==> r[i] == s[i];
    assert forall i :: |s| <= i < |r| ==> r[i] == a;
    if n >= 2 {
      assert r[|s|] == r[|s| + 1];
    }
    if NoDuplicates(r) {
      assert forall i, j :: 0 <= i < j < |s| ==> r[i] != r[j];
    }
  }

  lemma {:induction false} ChosenOnce(types: seq<string>, boot: nat, conf: Config, pid: string, k: nat)
    requires k <= |types|
    ensures NoDuplicates(Chosen(types, boot, conf, pid, k)) <==> OneMatch(types, conf, pid, k)
  {
    if k > 0 {
      var s := SettingsOf(conf, types[k - 1]);
      ChosenOnce(types, boot, conf, pid, k - 1);
      ChosenRange(types, boot, conf, pid, k - 1);
      AppendTimes(Chosen(types, boot, conf, pid, k - 1), boot + k - 1, Matches(s, pid, |s|));
    }
  }

  lemma {:induction false} JoinDistinct(b: seq<nat>, c: seq<nat>)
    requires NoDuplicates(b) && forall x :: x in c ==> x !in b
    ensures NoDuplicates(b + c) <==> NoDuplicates(c)
  {
    var r := b + c;
    forall i, j | 0 <= i < j < |c|
      ensures c[i] == r[|b| + i] && c[j] == r[|b| + j]
    {
    }
    if NoDuplicates(c) {
      forall i, j | 0 <= i < j < |r|
        ensures r[i] != r[j]
      {
        assert j >= |b| ==> r[j] == c[j - |b|] && c[j - |b|] in c;
        assert i < |b| ==> r[i] in b;
        assert i >= |b| ==> r[i] == c[i - |b|];
      }
    }
  }

  /** No agent is listed twice if and only if no registered module has two settings for the process. */
  lemma {:induction false} RunsOnceIff(types: seq<string>, boot: nat, conf: Config, pid: string)
    ensures NoDuplicates(RunMods(types, boot, conf, pid)) <==> OneMatch(types, conf, pid, |types|)
  {
    ChosenOnce(types, boot, conf, pid, |types|);
    ChosenRange(types, boot, conf, pid, |types|);
    JoinDistinct(Bootstrap(boot), Chosen(types, boot, conf, pid, |types|));
  }

  lemma {:induction false} MatchesAtMostOne(settings: seq<Setting>, pid: string, k: nat)
    requires k <= |settings| && TypeOk(settings)
    ensures Matches(settings, pid, k) <= 1
    ensures Matches(settings, pid, k) == 1 ==> exists i :: 0 <= i < k && settings[i].processID == pid
  {
    if k > 0 {
      MatchesAtMostOne(settings, pid, k - 1);
    }
  }

  /** A configuration that passes the check lists no agent twice, whatever modules are registered. */
  lemma {:induction false} CheckedRunsOnce(types: seq<string>, boot: nat, conf: Config, pid: string)
    requires WellFormed(conf)
    ensures NoDuplicates(RunMods(types, boot, conf, pid))
  {
    forall i | 0 <= i < |types|
      ensures Matches(SettingsOf(conf, types[i]), pid, |SettingsOf(conf, types[i])|) <= 1
    {
      var s := SettingsOf(conf, types[i]);
      MatchesAtMostOne(s, pid, |s|);
    }
    RunsOnceIff(types, boot, conf, pid);
  }

  // ----- the order of start and stop

  /** What happens to the module at a position of the run list; Run is the start of its goroutine. */
  datatype Event = OnInit(i: nat) | OnReady(i: nat) | Run(i: nat) | Signal(i: nat) | OnDestroy(i: nat)

  /** The first k passes of Init's loop. */
  function Passes(boot: nat, k: nat): (r: seq<Event>)
    ensures |r| == 2 * k + if k < boot then k else boot
  {
    if k == 0 then [] else
    Passes(boot, k - 1) + [OnInit(k - 1), OnReady(k - 1)] + if k - 1 < boot then [Run(k - 1)] else []
  }

  function Entries(boot: nat, n: nat): seq<Event>
    requires boot <= n
  {
    seq(n - boot, i requires 0 <= i => Run(boot + i))
  }

  function StartTrace(boot: nat, n: nat): seq<Event>
    requires boot <= n
  {
    Passes(boot, n) + Entries(boot, n)
  }

  /** Destroy, after the last k modules of n. */
  function StopTrace(n: nat, k: nat): (r: seq<Event>)
    requires k <= n
    ensures |r| == 2 * k
  {
    if k == 0 then [] else StopTrace(n, k - 1) + [Signal(n - k), OnDestroy(n - k)]
  }

  /** Where module i is in the passes: initialised, then ready at once. */
  lemma {:induction false} PassAt(boot: nat, k: nat, i: nat)
    requires i < k
    ensures var q := 2 * i + if i < boot then i else boot;
            && q + 1 < |Passes(boot, k)| && Passes(boot, k)[q] == OnInit(i) && Passes(boot, k)[q + 1] == OnReady(i)
            && (i < boot ==> q + 2 < |Passes(boot, k)| && Passes(boot, k)[q + 2] == Run(i))
    decreases k
  {
    if i < k - 1 {
      PassAt(boot, k - 1, i);
    }
  }

  /** Each OnInit comes directly before its OnReady, and module after module. */
  lemma {:induction false} InitThenReady(boot: nat, n: nat, i: nat)
    requires boot <= n && i < n
    ensures var t, q := StartTrace(boot, n), 2 * i + if i < boot then i else boot;
            q + 1 < |t| && t[q] == OnInit(i) && t[q + 1] == OnReady(i)
  {
    PassAt(boot, n, i);
  }

  /** When an entry module starts to run, every module is ready; so none runs if a later module fails. */
  lemma {:induction false} EntriesRunLast(boot: nat, n: nat, q: nat, j: nat)
    requires boot <= n && q < |StartTrace(boot, n)| && j < n
    requires StartTrace(boot, n)[q].Run? && StartTrace(boot, n)[q].i >= boot
    ensures exists p :: 0 <= p < q && StartTrace(boot, n)[p] == OnReady(j)
  {
    var t := StartTrace(boot, n);
    if q < |Passes(boot, n)| {
      PassEvent(boot, n, n, q);
    }
    PassAt(boot, n, j);
    var p := 2 * j + (if j < boot then j else boot) + 1;
    assert t[p] == Passes(boot, n)[p] == OnReady(j);
  }

  /** A bootstrap module runs before the next module is initialised. */
  lemma {:induction false} BootstrapRunsFirst(boot: nat, n: nat, i: nat, j: nat)
    requires boot <= n && i < boot && i < j < n
    ensures exists p, q :: 0 <= p < q < |StartTrace(boot, n)| && StartTrace(boot, n)[p] == Run(i) && StartTrace(boot, n)[q] == OnInit(j)
  {
    var t := StartTrace(boot, n);
    PassAt(boot, n, i);
    PassAt(boot, n, j);
    var p, q := 3 * i + 2, 2 * j + if j < boot then j else boot;
    assert t[p] == Run(i) && t[q] == OnInit(j);
  }

  /** Where the start events of n modules belong. */
  function Place(boot: nat, n: nat, e: Event): nat {
    var q := 2 * e.i + if e.i < boot then e.i else boot;
    match e
    case OnInit(_) => q
    case OnReady(_) => q + 1
    case Run(i) => if i < boot then q + 2 else 2 * n + i
    case _ => 3 * n
  }

  lemma {:induction false} PassEvent(boot: nat, n: nat, k: nat, q: nat)
    requires q < |Passes(boot, k)|
    ensures Passes(boot, k)[q].i < k && Place(boot, n, Passes(boot, k)[q]) == q
    ensures Passes(boot, k)[q].Run? ==> Passes(boot, k)[q].i < boot
    decreases k
  {
    if q < |Passes(boot, k - 1)| {
      PassEvent(boot, n, k - 1, q);
    }
  }

  /** Init initialises, readies and runs every module of its list, bootstrap or entry, exactly once, and
      does nothing else. */
  lemma {:induction false} StartsEachOnce(boot: nat, n: nat, e: Event)
    requires boot <= n
    ensures |StartTrace(boot, n)| == 3 * n
    ensures e in StartTrace(boot, n) <==> e.i < n && (e.OnInit? || e.OnReady? || e.Run?)
    ensures forall p, q :: 0 <= p < |StartTrace(boot, n)| && 0 <= q < |StartTrace(boot, n)| && p != q
              ==> StartTrace(boot, n)[p] != StartTrace(boot, n)[q]
  {
    var t, m := StartTrace(boot, n), |Passes(boot, n)|;
    forall q | 0 <= q < |t|
      ensures t[q].i < n && Place(boot, n, t[q]) == q && (t[q].OnInit? || t[q].OnReady? || t[q].Run?)
    {
      if q < m {
        PassEvent(boot, n, n, q);
      }
    }
    if e.i < n && (e.OnInit? || e.OnReady? || e.Run?) {
      PassAt(boot, n, e.i);
      assert t[Place(boot, n, e)] == e;
    }
  }

  /** Modules stop in exactly the reverse of the order they were made ready in. */
  lemma {:induction false} StopsInReverse(n: nat, k: nat, i: nat)
    requires n - k <= i < n && k <= n
    ensures StopTrace(n, k)[2 * (n - 1 - i)] == Signal(i) && StopTrace(n, k)[2 * (n - 1 - i) + 1] == OnDestroy(i)
    decreases k
  {
    if i > n - k {
      StopsInReverse(n, k - 1, i);
    }
  }

  // Each position of the run list is a goroutine that runs its agent. `takes` holds those that return
  // only when they take a close signal; the others return by themselves and leave the signal alone.

  predicate Later(runMods: seq<nat>, i: nat)
    requires i < |runMods|
  {
    exists j :: i < j < |runMods| && runMods[j] == runMods[i]
  }

  predicate LaterTwice(runMods: seq<nat>, i: nat)
    requires i < |runMods|
  {
    exists j, k :: i < j < k < |runMods| && runMods[j] == runMods[i] && runMods[k] == runMods[i]
  }

  predicate HasTaker(runMods: seq<nat>, takes: set<nat>, agent: nat) {
    exists p :: 0 <= p < |runMods| && p in takes && runMods[p] == agent
  }

  predicate TwoTakers(runMods: seq<nat>, takes: set<nat>, agent: nat) {
    exists p, q :: 0 <= p < q < |runMods| && p in takes && q in takes && runMods[p] == agent && runMods[q] == agent
  }

  /** The send at i finds the one-place channel full: nobody took an earlier signal, or two came before. */
  predicate SendBlocks(runMods: seq<nat>, takes: set<nat>, i: nat)
    requires i < |runMods|
  {
    Later(runMods, i) && (!HasTaker(runMods, takes, runMods[i]) || LaterTwice(runMods, i))
  }

  /** The wait at i never ends: one signal came and two goroutines of the agent need one. */
  predicate WaitHangs(runMods: seq<nat>, takes: set<nat>, i: nat)
    requires i < |runMods|
  {
    !Later(runMods, i) && TwoTakers(runMods, takes, runMods[i])
  }

  /** Destroy does not get past some position from `from` on. */
  predicate Stuck(runMods: seq<nat>, takes: set<nat>, from: nat) {
    exists i :: from <= i < |runMods| && (SendBlocks(runMods, takes, i) || WaitHangs(runMods, takes, i))
  }

  /** Without a duplicate Destroy always gets through, whatever the modules do; with one it need not. */
  lemma {:induction false} NeverBlocksIff(runMods: seq<nat>)
    ensures NoDuplicates(runMods) <==> forall takes: set<nat> :: !Stuck(runMods, takes, 0)
  {
    if !NoDuplicates(runMods) {
      var i, j :| 0 <= i < j < |runMods| && runMods[i] == runMods[j];
      assert Later(runMods, i) && !HasTaker(runMods, {}, runMods[i]);
      assert SendBlocks(runMods, {}, i) && Stuck(runMods, {}, 0);
    }
  }

  class Manager {
    const types: seq<string>       // of the registered modules
    const boot: nat
    var runMods: seq<nat>
    var settings: map<nat, Setting>
    var full: set<nat>             // agents whose closeSig holds a signal
    var trace: seq<Event>

    constructor (boot: nat, types: seq<string>)
      ensures this.boot == boot && this.types == types && runMods == Bootstrap(boot)
      ensures full == {} && trace == [] && settings == map[]
    {
      this.boot, this.types := boot, types;
      runMods, settings, full, trace := Bootstrap(boot), map[], {}, [];
    }

    /** Adds an agent once for each setting that names the process; the last one becomes its own. */
    method Match(agent: nat, list: seq<Setting>, pid: string)
      modifies this`runMods, this`settings
      ensures runMods == old(runMods) + Times(agent, Matches(list, pid, |list|))
      ensures var last := LastMatch(list, pid, |list|);
              settings == if last.Some? then old(settings)[agent := last.value] else old(settings)
    {
      for k := 0 to |list|
        invariant runMods == old(runMods) + Times(agent, Matches(list, pid, k))
        invariant var last := LastMatch(list, pid, k);
                  settings == if last.Some? then old(settings)[agent := last.value] else old(settings)
      {
        if pid == list[k].processID {
          assert Times(agent, Matches(list, pid, k)) + [agent] == Times(agent, Matches(list, pid, k + 1));
          runMods := runMods + [agent];
          settings := settings[agent := list[k]];
        }
      }
    }

    /** One registered module: the walk stops at its type. */
    method SelectOne(i: nat, conf: Config, order: seq<string>, pid: string)
      requires i < |types| && Walk(order, conf)
      modifies this`runMods, this`settings
      ensures var s := SettingsOf(conf, types[i]);
              && runMods == old(runMods) + Times(boot + i, Matches(s, pid, |s|))
              && var last := LastMatch(s, pid, |s|);
                 settings == if last.Some? then old(settings)[boot + i := last.value] else old(settings)
    {
      for j := 0 to |order|
        invariant forall m :: 0 <= m < j ==> order[m] != types[i]
        invariant runMods == old(runMods) && settings == old(settings)
      {
        if types[i] == order[j] {
          Match(boot + i, conf[order[j]], pid);
          return;
        }
      }
      assert types[i] !in conf;
    }

    /** The choice of the modules this process runs. */
    method Select(conf: Config, order: seq<string>, pid: string)
      requires Walk(order, conf) && runMods == Bootstrap(boot) && settings == map[]
      modifies this`runMods, this`settings
      ensures runMods == RunMods(types, boot, conf, pid) && Configured(settings, types, boot, conf, pid, |types|)
    {
      for i := 0 to |types|
        invariant runMods == Bootstrap(boot) + Chosen(types, boot, conf, pid, i)
        invariant Configured(settings, types, boot, conf, pid, i)
      {
        ghost var was := settings;
        SelectOne(i, conf, order, pid);
        ConfiguredOneMore(was, settings, types, boot, conf, pid, i);
      }
    }

    /** Init: check, choose, initialise and make ready one by one, then run the entry modules; false
        stands for the panic of the check. The check reads the global configuration, the choice the
        application's: with one and the same no agent is listed twice. */
    method Init(checked: Config, walk: seq<string>, conf: Config, order: seq<string>, pid: string) returns (ok: bool)
      requires Walk(walk, checked) && Walk(order, conf)
      requires runMods == Bootstrap(boot) && settings == map[] && trace == []
      modifies this`runMods, this`settings, this`trace
      ensures ok <==> WellFormed(checked)
      ensures ok ==> runMods == RunMods(types, boot, conf, pid) && Configured(settings, types, boot, conf, pid, |types|)
      ensures ok ==> (NoDuplicates(runMods) <==> OneMatch(types, conf, pid, |types|))
      ensures ok && checked == conf ==> NoDuplicates(runMods)
      ensures ok ==> trace == StartTrace(boot, |runMods|)
    {
      ok := CheckModuleSettings(checked, walk);
      if !ok {
        return;
      }
      var bootstrapCount := |runMods|;
      Select(conf, order, pid);
      RunsOnceIff(types, boot, conf, pid);
      if checked == conf {
        CheckedRunsOnce(types, boot, conf, pid);
      }
      StartAll(bootstrapCount);
    }

    /** The two loops at the end of Init. */
    method StartAll(bootstrapCount: nat)
      requires bootstrapCount <= |runMods| && trace == []
      modifies this`trace
      ensures trace == StartTrace(bootstrapCount, |runMods|)
    {
      for i := 0 to |runMods|
        invariant trace == Passes(bootstrapCount, i)
      {
        trace := trace + [OnInit(i)];
        trace := trace + [OnReady(i)];
        if i < bootstrapCount {
          trace := trace + [Run(i)];
        }
      }
      for i := bootstrapCount to |runMods|
        invariant trace == Passes(bootstrapCount, |runMods|) + Entries(bootstrapCount, i)
      {
        trace := trace + [Run(i)];
      }
    }

    /** A goroutine that waits for a signal takes the one just sent, or it stays in the channel. */
    method Deliver(agent: nat, running: set<nat>) returns (left: set<nat>)
      requires agent !in full
      modifies this`full
      ensures if exists p :: p in running && p < |runMods| && runMods[p] == agent
              then full == old(full) && exists p :: p in running && p < |runMods| && runMods[p] == agent && left == running - {p}
              else left == running && full == old(full) + {agent}
    {
      for p := 0 to |runMods|
        invariant forall q :: 0 <= q < p && runMods[q] == agent ==> q !in running
        invariant full == old(full)
      {
        if p in running && runMods[p] == agent {
          return running - {p};
        }
      }
      left := running;
      full := full + {agent};
    }

    /** Destroy: from the last module to the first, signal, wait for the agent's goroutines, destroy.
        stuck stands for a send or a wait that never returns. */
    method Destroy(takes: set<nat>) returns (stuck: bool)
      requires full == {}
      modifies this`full, this`trace
      ensures stuck <==> Stuck(runMods, takes, 0)
      ensures NoDuplicates(runMods) ==> !stuck
      ensures !stuck ==> trace == old(trace) + StopTrace(|runMods|, |runMods|)
    {
      NeverBlocksIff(runMods);
      var i := |runMods|;
      var running := takes;
      while i > 0
        invariant 0 <= i <= |runMods| && !Stuck(runMods, takes, i)
        invariant Progress(runMods, takes, i, full, running)
        invariant trace == old(trace) + StopTrace(|runMods|, |runMods| - i)
      {
        i := i - 1;
        var agent := runMods[i];
        FullExactly(runMods, takes, i, full, running);
        if agent in full {
          return true;
        }
        trace := trace + [Signal(i)];
        ghost var before, was := full, running;
        running := Deliver(agent, running);
        WaitExactly(runMods, takes, i, before, was, full, running);
        if exists p :: 0 <= p < |runMods| && p in running && runMods[p] == agent {
          return true;
        }
        trace := trace + [OnDestroy(i)];
      }
      stuck := false;
    }
  }

  // ----- where Destroy stands

  predicate SentTo(runMods: seq<nat>, i: nat, agent: nat) {
    exists j :: i <= j < |runMods| && runMods[j] == agent
  }

  predicate SentTwice(runMods: seq<nat>, i: nat, agent: nat) {
    exists j, k :: i <= j < k < |runMods| && runMods[j] == agent && runMods[k] == agent
  }

  /** With positions from i on destroyed: an agent's channel is full when its one signal was not taken,
      or a second one came; its goroutines all run before the first signal and none after it. */
  ghost predicate Progress(runMods: seq<nat>, takes: set<nat>, i: nat, full: set<nat>, running: set<nat>) {
    && running <= takes
    && (forall a :: a in full <==> SentTo(runMods, i, a) && (!HasTaker(runMods, takes, a) || SentTwice(runMods, i, a)))
    && (forall p :: 0 <= p < |runMods| && p in takes ==> (p in running <==> !SentTo(runMods, i, runMods[p])))
  }

  lemma {:induction false} FullExactly(runMods: seq<nat>, takes: set<nat>, i: nat, full: set<nat>, running: set<nat>)
    requires i < |runMods| && !Stuck(runMods, takes, i + 1) && Progress(runMods, takes, i + 1, full, running)
    ensures runMods[i] in full <==> SendBlocks(runMods, takes, i)
    ensures runMods[i] in full ==> Stuck(runMods, takes, i)
  {
    assert SentTo(runMods, i + 1, runMods[i]) <==> Later(runMods, i);
    assert SentTwice(runMods, i + 1, runMods[i]) <==> LaterTwice(runMods, i);
  }

  lemma {:induction false} WaitExactly(runMods: seq<nat>, takes: set<nat>, i: nat, full: set<nat>, running: set<nat>, full': set<nat>, running': set<nat>)
    requires i < |runMods| && !Stuck(runMods, takes, i + 1) && Progress(runMods, takes, i + 1, full, running)
    requires runMods[i] !in full
    requires if exists p :: p in running && p < |runMods| && runMods[p] == runMods[i]
             then full' == full && exists p :: p in running && p < |runMods| && runMods[p] == runMods[i] && running' == running - {p}
             else running' == running && full' == full + {runMods[i]}
    ensures (exists p :: 0 <= p < |runMods| && p in running' && runMods[p] == runMods[i]) <==> WaitHangs(runMods, takes, i)
    ensures WaitHangs(runMods, takes, i) ==> Stuck(runMods, takes, i)
    ensures !WaitHangs(runMods, takes, i) ==> !Stuck(runMods, takes, i) && Progress(runMods, takes, i, full', running')
  {
  }
}
