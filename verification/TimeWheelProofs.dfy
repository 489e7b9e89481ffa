/** The wheel refines a list of tasks with due ticks, and its key index is exact while keys are. */
module TimeWheelProofs {
  import opened Wrappers
  import opened Arithmetic
  import opened TimeWheel

  // ----- scanning a slot

  predicate SplitAt(s: Slot, k: nat, id: nat, more: bool)
    requires k <= |s|
  {
    exists j :: 0 <= j < k && s[j].id == id && (s[j].circle > 0) == more
  }

  lemma {:induction false} KeptFrom(s: Slot, k: nat, i: nat) returns (j: nat)
    requires k <= |s| && i < |Kept(s, k)|
    ensures j < k && s[j].circle > 0 && Kept(s, k)[i] == s[j].(circle := s[j].circle - 1)
  {
    if s[k - 1].circle > 0 && i == |Kept(s, k - 1)| {
      j := k - 1;
    } else {
      j := KeptFrom(s, k - 1, i);
    }
  }

  lemma {:induction false} KeptHas(s: Slot, k: nat, j: nat)
    requires j < k <= |s| && s[j].circle > 0
    ensures HasId(Kept(s, k), s[j].id)
    decreases k
  {
    var r := Kept(s, k);
    if j == k - 1 {
      assert r[|r| - 1].id == s[j].id;
    } else {
      KeptHas(s, k - 1, j);
      var i :| 0 <= i < |Kept(s, k - 1)| && Kept(s, k - 1)[i].id == s[j].id;
      assert r[i].id == s[j].id;
    }
  }

  lemma {:induction false} KeptIff(s: Slot, k: nat, id: nat)
    requires k <= |s|
    ensures HasId(Kept(s, k), id) <==> SplitAt(s, k, id, true)
  {
    if HasId(Kept(s, k), id) {
      var i :| 0 <= i < |Kept(s, k)| && Kept(s, k)[i].id == id;
      var j := KeptFrom(s, k, i);
    }
    if SplitAt(s, k, id, true) {
      var j :| 0 <= j < k && s[j].id == id && (s[j].circle > 0) == true;
      KeptHas(s, k, j);
    }
  }

  lemma {:induction false} RunIff(s: Slot, k: nat, id: nat)
    requires k <= |s|
    ensures id in Run(s, k) <==> SplitAt(s, k, id, false)
  {
    if k > 0 {
      RunIff(s, k - 1, id);
      assert s[k - 1].circle == 0 && s[k - 1].id == id ==> SplitAt(s, k, id, false);
    }
  }

  predicate Distinct(s: Slot) {
    forall i, j :: 0 <= i < j < |s| ==> s[i].id != s[j].id
  }

  lemma {:induction false} KeptDistinct(s: Slot, k: nat)
    requires k <= |s| && Distinct(s)
    ensures Distinct(Kept(s, k))
  {
    if k > 0 {
      KeptDistinct(s, k - 1);
      KeptIff(s, k - 1, s[k - 1].id);
    }
  }

  lemma {:induction false} FireIs(fired: map<nat, nat>, ids: seq<nat>, k: nat, tick: nat, id: nat)
    requires k <= |ids|
    ensures id in Fire(fired, ids, k, tick) <==> id in fired || id in ids[..k]
    ensures id in Fire(fired, ids, k, tick) ==>
              Fire(fired, ids, k, tick)[id] == if id in ids[..k] then tick else fired[id]
  {
    if k > 0 {
      FireIs(fired, ids, k - 1, tick, id);
      assert ids[..k] == ids[..k - 1] + [ids[k - 1]];
    }
  }

  // ----- a tick

  lemma {:induction false} KeptTaskOk(t: Task, p: nat, h: History, h': History, n: nat)
    requires TaskOk(t, p, h, 0, n) && t.circle > 0 && h'.added == h.added && h'.now == h.now + 1
    ensures TaskOk(t.(circle := t.circle - 1), p, h', n - 1, n)
  {
  }

  lemma {:induction false} KeptTasksOk(s: Slot, p: nat, h: History, h': History, n: nat, i: nat)
    requires SlotOk(s, p, h, 0, n) && h'.added == h.added && h'.now == h.now + 1 && i < |Kept(s, |s|)|
    ensures TaskOk(Kept(s, |s|)[i], p, h', n - 1, n)
  {
    var j := KeptFrom(s, |s|, i);
    KeptTaskOk(s[j], p, h, h', n);
  }

  /** The scanned slot: what stays in it has a full turn to go. */
  lemma {:induction false} ScannedSlotOk(s: Slot, p: nat, h: History, h': History, n: nat)
    requires SlotOk(s, p, h, 0, n) && h'.added == h.added && h'.now == h.now + 1
    ensures SlotOk(Kept(s, |s|), p, h', n - 1, n)
  {
    var r := Kept(s, |s|);
    assert Distinct(r) by {
      assert Distinct(s);
      KeptDistinct(s, |s|);
    }
    forall i | 0 <= i < |r|
      ensures TaskOk(r[i], p, h', n - 1, n)
    {
      KeptTasksOk(s, p, h, h', n, i);
    }
  }

  lemma {:induction false} OtherSlotOk(s: Slot, p: nat, h: History, h': History, distance: int, n: nat)
    requires SlotOk(s, p, h, distance, n) && h'.added == h.added && h'.now == h.now + 1
    ensures SlotOk(s, p, h', distance - 1, n)
  {
    forall i | 0 <= i < |s|
      ensures TaskOk(s[i], p, h', distance - 1, n)
    {
      assert TaskOk(s[i], p, h, distance, n);
    }
  }

  lemma {:induction false} TickKeepsSlots(w: Wheel, h: History, p: nat)
    requires Inv(w, h) && p < |w.slots|
    ensures var w' := Ticked(w);
            SlotOk(w'.slots[p], p, LogTick(w, h), Distance(w'.cur, p, |w'.slots|), |w'.slots|)
  {
    if p == w.cur {
      ScannedSlotOk(w.slots[p], p, h, LogTick(w, h), |w.slots|);
    } else {
      OtherSlotOk(w.slots[p], p, h, LogTick(w, h), Distance(w.cur, p, |w.slots|), |w.slots|);
    }
  }

  /** A task runs exactly when the tick is the one it is due on. */
  lemma {:induction false} RunsExactlyWhenDue(w: Wheel, h: History, id: nat)
    requires Inv(w, h)
    ensures var s := w.slots[w.cur];
            id in Run(s, |s|) <==> Pending(w, h, id) && h.added[id].due == h.now + 1
  {
    var n, s := |w.slots|, w.slots[w.cur];
    RunIff(s, |s|, id);
    if Pending(w, h, id) {
      var p := h.added[id].slot;
      var i :| 0 <= i < |w.slots[p]| && w.slots[p][i].id == id;
      DueNow(w.slots[p][i], p, h, w.cur, n);
    }
    if id in Run(s, |s|) {
      var j :| 0 <= j < |s| && s[j].id == id && (s[j].circle > 0) == false;
      assert TaskOk(s[j], w.cur, h, 0, n);
    }
  }

  lemma {:induction false} RunFrom(s: Slot, k: nat, i: nat) returns (j: nat)
    requires k <= |s| && i < |Run(s, k)|
    ensures j < k && Run(s, k)[i] == s[j].id
  {
    if s[k - 1].circle == 0 && i == |Run(s, k - 1)| {
      j := k - 1;
    } else {
      j := RunFrom(s, k - 1, i);
    }
  }

  lemma {:induction false} RunDistinct(s: Slot, k: nat)
    requires k <= |s| && Distinct(s)
    ensures forall i, j :: 0 <= i < j < |Run(s, k)| ==> Run(s, k)[i] != Run(s, k)[j]
  {
    if k > 0 {
      RunDistinct(s, k - 1);
      var r, last := Run(s, k - 1), s[k - 1].id;
      forall i | 0 <= i < |r|
        ensures r[i] != last
      {
        var j := RunFrom(s, k - 1, i);
      }
    }
  }

  /** A tick starts no job twice, and none that was started before or removed. */
  lemma {:induction false} RunsAtMostOnce(w: Wheel, h: History, ids: seq<nat>)
    requires Inv(w, h) && ids == Run(w.slots[w.cur], |w.slots[w.cur]|)
    ensures forall i, j :: 0 <= i < j < |ids| ==> ids[i] != ids[j]
    ensures forall i :: 0 <= i < |ids| ==> ids[i] !in h.fired && ids[i] !in h.removed
  {
    var s := w.slots[w.cur];
    assert SlotOk(s, w.cur, h, Distance(w.cur, w.cur, |w.slots|), |w.slots|);
    assert Distinct(s);
    RunDistinct(s, |s|);
    forall i | 0 <= i < |ids|
      ensures ids[i] !in h.fired && ids[i] !in h.removed
    {
      RunsExactlyWhenDue(w, h, ids[i]);
      assert Accounted(w, h, ids[i]);
    }
  }

  lemma {:induction false} DueNow(t: Task, p: nat, h: History, cur: nat, n: nat)
    requires p < n && cur < n && TaskOk(t, p, h, Distance(cur, p, n), n)
    ensures h.added[t.id].due == h.now + 1 <==> p == cur && t.circle == 0
  {
  }

  lemma {:induction false} TickPending(w: Wheel, h: History, id: nat)
    requires Inv(w, h)
    ensures Pending(Ticked(w), LogTick(w, h), id)
            <==> Pending(w, h, id) && id !in Run(w.slots[w.cur], |w.slots[w.cur]|)
  {
    var s := w.slots[w.cur];
    KeptIff(s, |s|, id);
    RunIff(s, |s|, id);
    if id < |h.added| && h.added[id].slot == w.cur && HasId(s, id) {
      var i :| 0 <= i < |s| && s[i].id == id;
      assert SplitAt(s, |s|, id, s[i].circle > 0);
    }
    if id in Run(s, |s|) {
      RunsExactlyWhenDue(w, h, id);
      RanFromHere(w, h, id);
    }
  }

  lemma {:induction false} RanFromHere(w: Wheel, h: History, id: nat)
    requires Inv(w, h) && SplitAt(w.slots[w.cur], |w.slots[w.cur]|, id, false)
    ensures id < |h.added| && h.added[id].slot == w.cur && !HasId(Ticked(w).slots[w.cur], id)
  {
    var s := w.slots[w.cur];
    var j :| 0 <= j < |s| && s[j].id == id && (s[j].circle > 0) == false;
    assert TaskOk(s[j], w.cur, h, 0, |w.slots|);
    KeptIff(s, |s|, id);
  }

  lemma {:induction false} TickAccounts(w: Wheel, h: History, id: nat)
    requires Inv(w, h) && id < |h.added|
    ensures Accounted(Ticked(w), LogTick(w, h), id)
  {
    var ids := Run(w.slots[w.cur], |w.slots[w.cur]|);
    assert Accounted(w, h, id);
    assert ids[..|ids|] == ids;
    FireIs(h.fired, ids, |ids|, h.now + 1, id);
    TickPending(w, h, id);
    RunsExactlyWhenDue(w, h, id);
  }

  lemma {:induction false} TickFiresKnown(w: Wheel, h: History, id: nat)
    requires Inv(w, h) && id in LogTick(w, h).fired
    ensures id < |h.added|
  {
    var ids := Run(w.slots[w.cur], |w.slots[w.cur]|);
    assert ids[..|ids|] == ids;
    FireIs(h.fired, ids, |ids|, h.now + 1, id);
    RunsExactlyWhenDue(w, h, id);
  }

  lemma {:induction false} TickKeepsInv(w: Wheel, h: History)
    requires Inv(w, h)
    ensures Inv(Ticked(w), LogTick(w, h))
  {
    var w', h' := Ticked(w), LogTick(w, h);
    forall p | 0 <= p < |w'.slots|
      ensures SlotOk(w'.slots[p], p, h', Distance(w'.cur, p, |w'.slots|), |w'.slots|)
    {
      TickKeepsSlots(w, h, p);
    }
    forall id | 0 <= id < |h'.added|
      ensures Accounted(w', h', id)
    {
      TickAccounts(w, h, id);
    }
    forall id | id in h'.fired
      ensures id < |h'.added|
    {
      TickFiresKnown(w, h, id);
    }
    forall k | k in w'.timer
      ensures w'.timer[k] < |w'.slots|
    {
      UnindexedIs(w.timer, w.slots[w.cur], |w.slots[w.cur]|, k);
    }
  }

  // ----- an addition

  lemma {:induction false} TurnsIsProduct(q: nat, n: nat)
    ensures Turns(q, n) == q * n
  {
    if q > 0 {
      TurnsIsProduct(q - 1, n);
      assert (q - 1) * n == q * n - n;
    }
  }

  /** Slot and circle together say the number of steps. */
  lemma {:induction false} PlaceIsSteps(cur: nat, steps: nat, n: nat)
    requires cur < n
    ensures Distance(cur, (cur + steps) % n, n) + Turns(steps / n, n) == steps
  {
    var q, r := steps / n, steps % n;
    TurnsIsProduct(q, n);
    assert steps == q * n + r;
    if cur + r < n {
      QuotientIs(cur + steps, n, q, cur + r);
    } else {
      assert (q + 1) * n == q * n + n;
      QuotientIs(cur + steps, n, q + 1, cur + r - n);
    }
  }

  /** A new task is due on the tick after its whole intervals have passed. */
  lemma {:induction false} NewTaskOk(w: Wheel, h: History, delay: nat, key: Option<Key>)
    requires w.interval / 1000000 > 0 && w.cur < |w.slots|
    ensures var p := Position(w, delay);
            TaskOk(Task(|h.added|, KeyFor(w, key), Circle(w, delay)), p, LogAdd(w, h, delay, key),
                   Distance(w.cur, p, |w.slots|), |w.slots|)
  {
    PlaceIsSteps(w.cur, Steps(delay, w.interval), |w.slots|);
  }

  lemma {:induction false} OldTasksOk(s: Slot, p: nat, h: History, h': History, distance: int, n: nat)
    requires SlotOk(s, p, h, distance, n) && h.added <= h'.added && h'.now == h.now
    ensures SlotOk(s, p, h', distance, n)
  {
    forall i | 0 <= i < |s|
      ensures TaskOk(s[i], p, h', distance, n)
    {
      assert TaskOk(s[i], p, h, distance, n);
    }
  }

  lemma {:induction false} AppendOk(s: Slot, t: Task, p: nat, h: History, distance: int, n: nat)
    requires SlotOk(s, p, h, distance, n) && TaskOk(t, p, h, distance, n) && !HasId(s, t.id)
    ensures SlotOk(s + [t], p, h, distance, n)
  {
  }

  lemma {:induction false} AddKeepsSlots(w: Wheel, h: History, delay: nat, key: Option<Key>, p: nat)
    requires Inv(w, h) && w.interval / 1000000 > 0 && p < |w.slots|
    ensures var w' := Added(w, |h.added|, delay, key);
            SlotOk(w'.slots[p], p, LogAdd(w, h, delay, key), Distance(w'.cur, p, |w'.slots|), |w'.slots|)
  {
    var s, h', d := w.slots[p], LogAdd(w, h, delay, key), Distance(w.cur, p, |w.slots|);
    assert SlotOk(s, p, h, d, |w.slots|);
    OldTasksOk(s, p, h, h', d, |w.slots|);
    if p == Position(w, delay) {
      assert forall i :: 0 <= i < |s| ==> TaskOk(s[i], p, h, d, |w.slots|);
      NewTaskOk(w, h, delay, key);
      AppendOk(s, Task(|h.added|, KeyFor(w, key), Circle(w, delay)), p, h', d, |w.slots|);
    }
  }

  lemma {:induction false} AppendHas(s: Slot, t: Task, id: nat)
    ensures HasId(s + [t], id) <==> HasId(s, id) || t.id == id
  {
    if HasId(s, id) {
      var i :| 0 <= i < |s| && s[i].id == id;
      assert (s + [t])[i].id == id;
    }
    assert (s + [t])[|s|] == t;
  }

  lemma {:induction false} AddAccounts(w: Wheel, h: History, delay: nat, key: Option<Key>, id: nat)
    requires Inv(w, h) && w.interval / 1000000 > 0 && id <= |h.added|
    ensures Accounted(Added(w, |h.added|, delay, key), LogAdd(w, h, delay, key), id)
  {
    var p := Position(w, delay);
    AppendHas(w.slots[p], Task(|h.added|, KeyFor(w, key), Circle(w, delay)), id);
    if id < |h.added| {
      assert Accounted(w, h, id);
    }
  }

  lemma {:induction false} NumberedKeepsInv(w: Wheel, h: History, key: Option<Key>)
    requires Inv(w, h)
    ensures Inv(Numbered(w, key), h)
  {
    var w' := Numbered(w, key);
    assert forall id :: 0 <= id < |h.added| ==> Pending(w', h, id) == Pending(w, h, id);
    assert forall id :: 0 <= id < |h.added| && Accounted(w, h, id) ==> Accounted(w', h, id);
  }

  lemma {:induction false} AddKeepsInv(w: Wheel, h: History, delay: nat, key: Option<Key>)
    requires Inv(w, h) && w.interval / 1000000 > 0
    ensures Inv(Added(w, |h.added|, delay, key), LogAdd(w, h, delay, key))
  {
    var w', h' := Added(w, |h.added|, delay, key), LogAdd(w, h, delay, key);
    forall p | 0 <= p < |w'.slots|
      ensures SlotOk(w'.slots[p], p, h', Distance(w'.cur, p, |w'.slots|), |w'.slots|)
    {
      AddKeepsSlots(w, h, delay, key, p);
    }
    forall id | 0 <= id < |h'.added|
      ensures Accounted(w', h', id)
    {
      AddAccounts(w, h, delay, key, id);
    }
  }

  // ----- a removal

  lemma {:induction false} WithoutFrom(s: Slot, i: nat, k: nat)
    requires i < |s| && k < |s| - 1
    ensures Without(s, i)[k] == if k < i then s[k] else s[k + 1]
  {
  }

  lemma {:induction false} WithoutOk(s: Slot, i: nat, p: nat, h: History, distance: int, n: nat)
    requires i < |s| && SlotOk(s, p, h, distance, n)
    ensures SlotOk(Without(s, i), p, h, distance, n)
  {
  }

  lemma {:induction false} WithoutHas(s: Slot, i: nat, id: nat)
    requires i < |s| && Distinct(s)
    ensures HasId(Without(s, i), id) <==> HasId(s, id) && id != s[i].id
  {
    if HasId(s, id) && id != s[i].id {
      var k :| 0 <= k < |s| && s[k].id == id;
      assert Without(s, i)[if k < i then k else k - 1].id == id;
    }
    if HasId(Without(s, i), id) {
      var k :| 0 <= k < |s| - 1 && Without(s, i)[k].id == id;
      WithoutFrom(s, i, k);
    }
  }

  lemma {:induction false} RemoveKeepsSlots(w: Wheel, h: History, key: Key, p: nat)
    requires Inv(w, h) && p < |w.slots|
    ensures var w' := Removed(w, key);
            SlotOk(w'.slots[p], p, LogRemove(w, h, key), Distance(w'.cur, p, |w'.slots|), |w'.slots|)
  {
    var d := Distance(w.cur, p, |w.slots|);
    OldTasksOk(w.slots[p], p, h, LogRemove(w, h, key), d, |w.slots|);
    if Removable(w, key) && p == w.timer[key] {
      WithoutOk(w.slots[p], Find(w.slots[p], key, 0), p, LogRemove(w, h, key), d, |w.slots|);
    }
  }

  lemma {:induction false} RemoveAccounts(w: Wheel, h: History, key: Key, id: nat)
    requires Inv(w, h) && id < |h.added|
    ensures Accounted(Removed(w, key), LogRemove(w, h, key), id)
  {
    assert Accounted(w, h, id);
    if Removable(w, key) {
      var p := w.timer[key];
      var s := w.slots[p];
      var i := Find(s, key, 0);
      assert SlotOk(s, p, h, Distance(w.cur, p, |w.slots|), |w.slots|);
      assert TaskOk(s[i], p, h, Distance(w.cur, p, |w.slots|), |w.slots|);
      WithoutHas(s, i, id);
    }
  }

  lemma {:induction false} RemoveKeepsInv(w: Wheel, h: History, key: Key)
    requires Inv(w, h)
    ensures Inv(Removed(w, key), LogRemove(w, h, key))
  {
    var w', h' := Removed(w, key), LogRemove(w, h, key);
    forall p | 0 <= p < |w'.slots|
      ensures SlotOk(w'.slots[p], p, h', Distance(w'.cur, p, |w'.slots|), |w'.slots|)
    {
      RemoveKeepsSlots(w, h, key, p);
    }
    forall id | 0 <= id < |h'.added|
      ensures Accounted(w', h', id)
    {
      RemoveAccounts(w, h, key, id);
    }
    if Removable(w, key) {
      var p := w.timer[key];
      assert TaskOk(w.slots[p][Find(w.slots[p], key, 0)], p, h, Distance(w.cur, p, |w.slots|), |w.slots|);
    }
  }

  // ----- the key index

  predicate KeysDiffer(s: Slot) {
    forall i, j :: 0 <= i < j < |s| ==> s[i].key != s[j].key
  }

  /** timer[key] = p exactly when a task with that key sits in slot p, and then just one does. */
  predicate Indexed(w: Wheel) {
    && (forall p, i :: 0 <= p < |w.slots| && 0 <= i < |w.slots[p]| ==>
          w.slots[p][i].key in w.timer && w.timer[w.slots[p][i].key] == p)
    && (forall k :: k in w.timer ==> w.timer[k] < |w.slots| && HasKey(w.slots[w.timer[k]], k))
    && (forall p :: 0 <= p < |w.slots| ==> KeysDiffer(w.slots[p]))
  }

  lemma {:induction false} AppendHasKey(s: Slot, t: Task, key: Key)
    ensures HasKey(s + [t], key) <==> HasKey(s, key) || t.key == key
  {
    if HasKey(s, key) {
      var i :| 0 <= i < |s| && s[i].key == key;
      assert (s + [t])[i].key == key;
    }
    assert (s + [t])[|s|] == t;
  }

  /** An addition keeps the index exact if and only if its key is not in use. */
  lemma {:induction false} AddKeepsIndex(w: Wheel, id: nat, delay: nat, key: Option<Key>)
    requires Indexed(w) && w.interval / 1000000 > 0 && w.cur < |w.slots|
    ensures Indexed(Added(w, id, delay, key)) <==> KeyFor(w, key) !in w.timer
  {
    var w', k, p := Added(w, id, delay, key), KeyFor(w, key), Position(w, delay);
    var t := Task(id, k, Circle(w, delay));
    if k in w.timer {
      var q := w.timer[k];
      var i :| 0 <= i < |w.slots[q]| && w.slots[q][i].key == k;
      assert w'.slots[q][i].key == k;
      assert q == p ==> w'.slots[p][|w.slots[p]|].key == k && !KeysDiffer(w'.slots[p]);
    } else {
      forall c | c in w'.timer
        ensures w'.timer[c] < |w'.slots| && HasKey(w'.slots[w'.timer[c]], c)
      {
        AppendHasKey(w.slots[p], t, c);
      }
      AppendKeys(w.slots[p], t);
    }
  }

  lemma {:induction false} AppendKeys(s: Slot, t: Task)
    requires KeysDiffer(s) && !HasKey(s, t.key)
    ensures KeysDiffer(s + [t])
  {
  }

  predicate RunsKey(s: Slot, k: nat, key: Key)
    requires k <= |s|
  {
    exists j :: 0 <= j < k && s[j].key == key && s[j].circle == 0
  }

  lemma {:induction false} UnindexedIs(timer: map<Key, nat>, s: Slot, k: nat, key: Key)
    requires k <= |s|
    ensures key in Unindexed(timer, s, k) <==> key in timer && !RunsKey(s, k, key)
    ensures key in Unindexed(timer, s, k) ==> Unindexed(timer, s, k)[key] == timer[key]
  {
    if k > 0 {
      UnindexedIs(timer, s, k - 1, key);
      assert RunsKey(s, k, key) <==> RunsKey(s, k - 1, key) || (s[k - 1].key == key && s[k - 1].circle == 0);
    }
  }

  lemma {:induction false} KeptHasKey(s: Slot, k: nat, j: nat)
    requires j < k <= |s| && s[j].circle > 0
    ensures HasKey(Kept(s, k), s[j].key)
    decreases k
  {
    var r := Kept(s, k);
    if j == k - 1 {
      assert r[|r| - 1].key == s[j].key;
    } else {
      KeptHasKey(s, k - 1, j);
      var i :| 0 <= i < |Kept(s, k - 1)| && Kept(s, k - 1)[i].key == s[j].key;
      assert r[i].key == s[j].key;
    }
  }

  lemma {:induction false} KeptKeysDiffer(s: Slot, k: nat)
    requires k <= |s| && KeysDiffer(s)
    ensures KeysDiffer(Kept(s, k))
  {
    if k > 0 {
      KeptKeysDiffer(s, k - 1);
      var r, last := Kept(s, k - 1), s[k - 1];
      forall i | 0 <= i < |r|
        ensures r[i].key != last.key
      {
        var j := KeptFrom(s, k - 1, i);
      }
    }
  }

  lemma {:induction false} TickIndexesTask(w: Wheel, p: nat, i: nat)
    requires Indexed(w) && w.cur < |w.slots| && p < |w.slots| && i < |Ticked(w).slots[p]|
    ensures var w' := Ticked(w); w'.slots[p][i].key in w'.timer && w'.timer[w'.slots[p][i].key] == p
  {
    var s := w.slots[w.cur];
    var key := Ticked(w).slots[p][i].key;
    UnindexedIs(w.timer, s, |s|, key);
    if p == w.cur {
      var j := KeptFrom(s, |s|, i);
    }
  }

  lemma {:induction false} TickIndexesKey(w: Wheel, key: Key)
    requires Indexed(w) && w.cur < |w.slots| && key in Ticked(w).timer
    ensures var w' := Ticked(w); w'.timer[key] < |w'.slots| && HasKey(w'.slots[w'.timer[key]], key)
  {
    var s := w.slots[w.cur];
    UnindexedIs(w.timer, s, |s|, key);
    if w.timer[key] == w.cur {
      var j :| 0 <= j < |s| && s[j].key == key;
      KeptHasKey(s, |s|, j);
    }
  }

  lemma {:induction false} TickKeepsIndex(w: Wheel)
    requires Indexed(w) && w.cur < |w.slots|
    ensures Indexed(Ticked(w))
  {
    var w' := Ticked(w);
    forall p, i | 0 <= p < |w'.slots| && 0 <= i < |w'.slots[p]|
      ensures w'.slots[p][i].key in w'.timer && w'.timer[w'.slots[p][i].key] == p
    {
      TickIndexesTask(w, p, i);
    }
    forall k | k in w'.timer
      ensures w'.timer[k] < |w'.slots| && HasKey(w'.slots[w'.timer[k]], k)
    {
      TickIndexesKey(w, k);
    }
    KeptKeysDiffer(w.slots[w.cur], |w.slots[w.cur]|);
  }

  lemma {:induction false} WithoutHasKey(s: Slot, i: nat, key: Key)
    requires i < |s| && HasKey(s, key) && key != s[i].key
    ensures HasKey(Without(s, i), key)
  {
    var k :| 0 <= k < |s| && s[k].key == key;
    assert Without(s, i)[if k < i then k else k - 1].key == key;
  }

  /** A key in the index can be removed. */
  lemma {:induction false} IndexedIsRemovable(w: Wheel, key: Key)
    requires Indexed(w)
    ensures Removable(w, key) <==> key in w.timer
  {
    if key in w.timer {
      var s := w.slots[w.timer[key]];
      var i :| 0 <= i < |s| && s[i].key == key;
    }
  }

  lemma {:induction false} RemoveKeepsIndex(w: Wheel, key: Key)
    requires Indexed(w)
    ensures Indexed(Removed(w, key))
  {
    IndexedIsRemovable(w, key);
    if Removable(w, key) {
      var w', p := Removed(w, key), w.timer[key];
      var s := w.slots[p];
      var i := Find(s, key, 0);
      forall q, k | 0 <= q < |w'.slots| && 0 <= k < |w'.slots[q]|
        ensures w'.slots[q][k].key in w'.timer && w'.timer[w'.slots[q][k].key] == q
      {
        if q == p {
          WithoutFrom(s, i, k);
        }
      }
      forall c | c in w'.timer
        ensures w'.timer[c] < |w'.slots| && HasKey(w'.slots[w'.timer[c]], c)
      {
        if w.timer[c] == p {
          WithoutHasKey(s, i, c);
        }
      }
    }
  }

  /** With an exact index, a removal takes out the task with that key and no other. */
  lemma {:induction false} RemovesExactly(w: Wheel, h: History, key: Key, id: nat)
    requires Inv(w, h) && Indexed(w)
    ensures LogRemove(w, h, key).added == h.added && LogRemove(w, h, key).fired == h.fired
    ensures Pending(Removed(w, key), LogRemove(w, h, key), id) <==> Pending(w, h, id) && h.added[id].key != key
  {
    IndexedIsRemovable(w, key);
    if Pending(w, h, id) {
      var q := h.added[id].slot;
      var k :| 0 <= k < |w.slots[q]| && w.slots[q][k].id == id;
      assert TaskOk(w.slots[q][k], q, h, Distance(w.cur, q, |w.slots|), |w.slots|);
    }
    if Removable(w, key) {
      var p := w.timer[key];
      var s := w.slots[p];
      var i := Find(s, key, 0);
      assert SlotOk(s, p, h, Distance(w.cur, p, |w.slots|), |w.slots|);
      assert TaskOk(s[i], p, h, Distance(w.cur, p, |w.slots|), |w.slots|);
      WithoutHas(s, i, id);
    }
  }

  /** The pending tasks with a key. */
  predicate Holds(w: Wheel, h: History, key: Key, id: nat) {
    Pending(w, h, id) && h.added[id].key == key
  }

  /** A removal takes out all tasks with the key and no other. */
  ghost predicate TakesOutKey(w: Wheel, h: History, key: Key) {
    forall id: nat :: Pending(Removed(w, key), LogRemove(w, h, key), id) <==> Pending(w, h, id) && h.added[id].key != key
  }

  /** At most one task with the key is pending, and it sits where the index says. */
  ghost predicate OneIndexed(w: Wheel, h: History, key: Key) {
    && (forall a: nat, b: nat :: Holds(w, h, key, a) && Holds(w, h, key, b) ==> a == b)
    && (forall a: nat :: Holds(w, h, key, a) ==> key in w.timer && h.added[a].slot == w.timer[key])
  }

  /** What a removal does to any wheel: the first task with the key in the indexed slot goes. */
  lemma {:induction false} RemovesFirst(w: Wheel, h: History, key: Key, id: nat)
    requires Inv(w, h)
    ensures Pending(Removed(w, key), LogRemove(w, h, key), id) <==>
            Pending(w, h, id) && !(Removable(w, key) && w.slots[w.timer[key]][Find(w.slots[w.timer[key]], key, 0)].id == id)
  {
    if Removable(w, key) {
      var p := w.timer[key];
      var s := w.slots[p];
      var i := Find(s, key, 0);
      assert SlotOk(s, p, h, Distance(w.cur, p, |w.slots|), |w.slots|);
      assert TaskOk(s[i], p, h, Distance(w.cur, p, |w.slots|), |w.slots|);
      WithoutHas(s, i, id);
    }
  }

  /** The task a removal takes is pending with that key, in the indexed slot. */
  lemma {:induction false} FirstIsHeld(w: Wheel, h: History, key: Key) returns (id: nat)
    requires Inv(w, h) && Removable(w, key)
    ensures Holds(w, h, key, id) && h.added[id].slot == w.timer[key]
    ensures id == w.slots[w.timer[key]][Find(w.slots[w.timer[key]], key, 0)].id
  {
    var p := w.timer[key];
    var s := w.slots[p];
    var i := Find(s, key, 0);
    assert TaskOk(s[i], p, h, Distance(w.cur, p, |w.slots|), |w.slots|);
    id := s[i].id;
  }

  lemma {:induction false} HeldIsRemovable(w: Wheel, h: History, key: Key, id: nat)
    requires Inv(w, h) && Holds(w, h, key, id) && key in w.timer && h.added[id].slot == w.timer[key]
    ensures Removable(w, key)
  {
    var p := w.timer[key];
    var s := w.slots[p];
    var i :| 0 <= i < |s| && s[i].id == id;
    assert TaskOk(s[i], p, h, Distance(w.cur, p, |w.slots|), |w.slots|);
  }

  /** A removal takes out all pending tasks with the key and no others if and only if at most one is
      pending and it sits in slot timer[key]; for any wheel, whatever keys were reused. */
  lemma {:induction false} RemovesKeyIff(w: Wheel, h: History, key: Key)
    requires Inv(w, h)
    ensures TakesOutKey(w, h, key) <==> OneIndexed(w, h, key)
  {
    if OneIndexed(w, h, key) {
      forall id: nat
        ensures Pending(Removed(w, key), LogRemove(w, h, key), id) <==> Pending(w, h, id) && h.added[id].key != key
      {
        RemovesFirst(w, h, key, id);
        if Removable(w, key) {
          var first := FirstIsHeld(w, h, key);
          assert Holds(w, h, key, id) ==> id == first;
        } else if Holds(w, h, key, id) {
          HeldIsRemovable(w, h, key, id);
        }
      }
    }
    if TakesOutKey(w, h, key) {
      forall a: nat | Holds(w, h, key, a)
        ensures Removable(w, key) && a == w.slots[w.timer[key]][Find(w.slots[w.timer[key]], key, 0)].id
      {
        RemovesFirst(w, h, key, a);
      }
      if Removable(w, key) {
        var first := FirstIsHeld(w, h, key);
      }
    }
  }

  /** A reused key, with the shortest delay there is: two tasks in one slot, of which the removal leaves
      the second pending. */
  lemma {:induction false} ReusedKeySurvives()
    ensures var k := Name("k");
            var w, h := Wheel([[]], map[], 0, 0, 1000000), History(0, [], map[], {});
            var r := Exec(w, h, [Add(1, Some(k)), Add(1, Some(k)), Remove(k)]);
            Fresh(w, h) && Pending(r.0, r.1, 1) && r.1.added[1].key == k && k !in r.0.timer
  {
    var k := Name("k");
    var w, h := Wheel([[]], map[], 0, 0, 1000000), History(0, [], map[], {});
    var run := [Add(1, Some(k)), Add(1, Some(k)), Remove(k)];
    var t0, t1 := Task(0, k, 0), Task(1, k, 0);
    assert Steps(1, 1000000) == 0;
    assert Position(w, 1) == 0 && Circle(w, 1) == 0 && w.slots[0] + [t0] == [t0];
    var w1, h1 := StepWheel(w, h, run[0]), StepHistory(w, h, run[0]);
    assert w1.slots == [[t0]] && w1.timer == map[k := 0];
    assert Position(w1, 1) == 0 && Circle(w1, 1) == 0 && w1.slots[0] + [t1] == [t0, t1];
    var w2, h2 := StepWheel(w1, h1, run[1]), StepHistory(w1, h1, run[1]);
    assert w2.slots == [[t0, t1]] && w2.timer == map[k := 0];
    var w3, h3 := StepWheel(w2, h2, run[2]), StepHistory(w2, h2, run[2]);
    assert Without([t0, t1], 0) == [t1];
    assert w3.slots == [[t1]] && w3.slots[0][0].id == 1;
    assert Exec(w3, h3, run[3..]) == (w3, h3);
    assert Exec(w2, h2, run[2..]) == Exec(w3, h3, run[2..][1..]) && run[2..][1..] == run[3..];
    assert Exec(w1, h1, run[1..]) == Exec(w2, h2, run[1..][1..]) && run[1..][1..] == run[2..];
  }

  // ----- whole runs

  datatype Step = Tick | Add(delay: nat, wanted: Option<Key>) | Remove(key: Key)

  function StepWheel(w: Wheel, h: History, a: Step): Wheel
    requires w.cur < |w.slots| && w.interval / 1000000 > 0
  {
    match a
    case Tick => Ticked(w)
    case Add(delay, key) => Added(w, |h.added|, delay, key)
    case Remove(key) => Removed(w, key)
  }

  function StepHistory(w: Wheel, h: History, a: Step): History
    requires w.cur < |w.slots| && w.interval / 1000000 > 0
  {
    match a
    case Tick => LogTick(w, h)
    case Add(delay, key) => LogAdd(w, h, delay, key)
    case Remove(key) => LogRemove(w, h, key)
  }

  lemma {:induction false} StepKeepsInv(w: Wheel, h: History, a: Step)
    requires Inv(w, h) && w.interval / 1000000 > 0
    ensures Inv(StepWheel(w, h, a), StepHistory(w, h, a))
    ensures StepWheel(w, h, a).interval == w.interval && h.added <= StepHistory(w, h, a).added
  {
    match a
    case Tick => TickKeepsInv(w, h);
    case Add(delay, key) => AddKeepsInv(w, h, delay, key);
    case Remove(key) => RemoveKeepsInv(w, h, key);
  }

  function Exec(w: Wheel, h: History, run: seq<Step>): (r: (Wheel, History))
    requires w.cur < |w.slots| && w.interval / 1000000 > 0
    ensures r.0.cur < |r.0.slots| && r.0.interval == w.interval
    decreases |run|
  {
    if run == [] then (w, h) else Exec(StepWheel(w, h, run[0]), StepHistory(w, h, run[0]), run[1..])
  }

  lemma {:induction false} ExecKeepsInv(w: Wheel, h: History, run: seq<Step>)
    requires Inv(w, h) && w.interval / 1000000 > 0
    ensures Inv(Exec(w, h, run).0, Exec(w, h, run).1) && h.added <= Exec(w, h, run).1.added
    decreases |run|
  {
    if run != [] {
      StepKeepsInv(w, h, run[0]);
      ExecKeepsInv(StepWheel(w, h, run[0]), StepHistory(w, h, run[0]), run[1..]);
    }
  }

  /** In every reachable state a task has fired if and only if its due tick has passed and it was not
      removed, and then it fired on that tick. */
  lemma {:induction false} FiredIffDue(w: Wheel, h: History, id: nat)
    requires Inv(w, h) && id < |h.added|
    ensures id in h.fired <==> h.added[id].due <= h.now && id !in h.removed
    ensures id in h.fired ==> h.fired[id] == h.added[id].due
  {
    assert Accounted(w, h, id);
    if Pending(w, h, id) {
      var p := h.added[id].slot;
      var i :| 0 <= i < |w.slots[p]| && w.slots[p][i].id == id;
      assert TaskOk(w.slots[p][i], p, h, Distance(w.cur, p, |w.slots|), |w.slots|);
    }
  }

  function Occurrences(ids: seq<nat>, k: nat, id: nat): nat
    requires k <= |ids|
  {
    if k == 0 then 0 else Occurrences(ids, k - 1, id) + if ids[k - 1] == id then 1 else 0
  }

  lemma {:induction false} OccursOnce(ids: seq<nat>, k: nat, id: nat)
    requires k <= |ids| && forall i, j :: 0 <= i < j < |ids| ==> ids[i] != ids[j]
    ensures Occurrences(ids, k, id) == if id in ids[..k] then 1 else 0
  {
    if k > 0 {
      OccursOnce(ids, k - 1, id);
      assert ids[..k] == ids[..k - 1] + [ids[k - 1]];
    }
  }

  /** How often a step starts a job. */
  function StartsIn(w: Wheel, a: Step, id: nat): nat
    requires w.cur < |w.slots|
  {
    if a.Tick? then
      var ids := Run(w.slots[w.cur], |w.slots[w.cur]|);
      Occurrences(ids, |ids|, id)
    else 0
  }

  /** How often a run starts a job. */
  function Starts(w: Wheel, h: History, run: seq<Step>, id: nat): nat
    requires w.cur < |w.slots| && w.interval / 1000000 > 0
    decreases |run|
  {
    if run == [] then 0 else
    StartsIn(w, run[0], id) + Starts(StepWheel(w, h, run[0]), StepHistory(w, h, run[0]), run[1..], id)
  }

  function Fired(h: History, id: nat): nat {
    if id in h.fired then 1 else 0
  }

  lemma {:induction false} StepStarts(w: Wheel, h: History, a: Step, id: nat)
    requires Inv(w, h) && w.interval / 1000000 > 0
    ensures StartsIn(w, a, id) + Fired(h, id) == Fired(StepHistory(w, h, a), id)
  {
    if a.Tick? {
      var ids := Run(w.slots[w.cur], |w.slots[w.cur]|);
      RunsAtMostOnce(w, h, ids);
      OccursOnce(ids, |ids|, id);
      assert ids[..|ids|] == ids;
      FireIs(h.fired, ids, |ids|, h.now + 1, id);
    }
  }

  /** A run starts a job as often as it makes it fired: never twice. */
  lemma {:induction false} StartsAreFirings(w: Wheel, h: History, run: seq<Step>, id: nat)
    requires Inv(w, h) && w.interval / 1000000 > 0
    ensures Starts(w, h, run, id) + Fired(h, id) == Fired(Exec(w, h, run).1, id)
    decreases |run|
  {
    if run != [] {
      StepStarts(w, h, run[0], id);
      StepKeepsInv(w, h, run[0]);
      StartsAreFirings(StepWheel(w, h, run[0]), StepHistory(w, h, run[0]), run[1..], id);
    }
  }

  /** New: an empty wheel. */
  predicate Fresh(w: Wheel, h: History) {
    && |w.slots| > 0 && w.cur == 0 && w.timer == map[] && (forall p :: 0 <= p < |w.slots| ==> w.slots[p] == [])
    && h == History(0, [], map[], {})
  }

  lemma {:induction false} FreshHolds(w: Wheel, h: History)
    requires Fresh(w, h)
    ensures Inv(w, h) && Indexed(w)
  {
  }

  /** The fate of a task added to any reachable wheel, after any further run. */
  lemma {:induction false} AddedFiresOnce(w: Wheel, h: History, delay: nat, key: Option<Key>, after: seq<Step>)
    requires Inv(w, h) && w.interval / 1000000 > 0
    ensures var (w2, h2) := Exec(Added(w, |h.added|, delay, key), LogAdd(w, h, delay, key), after);
            var id, due := |h.added|, h.now + Steps(delay, w.interval) + 1;
            && (id in h2.fired <==> due <= h2.now && id !in h2.removed)
            && (id in h2.fired ==> h2.fired[id] == due)
            && (id in h2.fired || id in h2.removed || Pending(w2, h2, id))
            && Starts(Added(w, |h.added|, delay, key), LogAdd(w, h, delay, key), after, id) == Fired(h2, id)
  {
    var w', h' := Added(w, |h.added|, delay, key), LogAdd(w, h, delay, key);
    AddKeepsInv(w, h, delay, key);
    ExecKeepsInv(w', h', after);
    var (w2, h2) := Exec(w', h', after);
    assert h'.added[|h.added|] == h2.added[|h.added|];
    FiredIffDue(w2, h2, |h.added|);
    assert Accounted(w2, h2, |h.added|);
    StartsAreFirings(w', h', after, |h.added|);
  }

  /** A task added after any run fires, after any further run, exactly once: on the tick its whole
      intervals plus one after its addition, unless it was removed before; for any number of slots. */
  lemma {:induction false} FiresOnceOnTime(w: Wheel, h: History, before: seq<Step>, delay: nat, key: Option<Key>, after: seq<Step>)
    requires Fresh(w, h) && w.interval / 1000000 > 0
    ensures var r1 := Exec(w, h, before);
            var r2 := Exec(Added(r1.0, |r1.1.added|, delay, key), LogAdd(r1.0, r1.1, delay, key), after);
            var id, due := |r1.1.added|, r1.1.now + Steps(delay, w.interval) + 1;
            && (id in r2.1.fired <==> due <= r2.1.now && id !in r2.1.removed)
            && (id in r2.1.fired ==> r2.1.fired[id] == due)
            && (id in r2.1.fired || id in r2.1.removed || Pending(r2.0, r2.1, id))
            && Starts(Added(r1.0, |r1.1.added|, delay, key), LogAdd(r1.0, r1.1, delay, key), after, id) == Fired(r2.1, id)
  {
    FreshHolds(w, h);
    ExecKeepsInv(w, h, before);
    AddedFiresOnce(Exec(w, h, before).0, Exec(w, h, before).1, delay, key, after);
  }

  /** Every addition of the run uses a key that is not in the index at that moment. */
  predicate FreeKeys(w: Wheel, h: History, run: seq<Step>)
    requires w.cur < |w.slots| && w.interval / 1000000 > 0
    decreases |run|
  {
    run == [] ||
    ((run[0].Add? ==> KeyFor(w, run[0].wanted) !in w.timer) &&
     FreeKeys(StepWheel(w, h, run[0]), StepHistory(w, h, run[0]), run[1..]))
  }

  lemma {:induction false} ExecKeepsIndex(w: Wheel, h: History, run: seq<Step>)
    requires Indexed(w) && w.cur < |w.slots| && w.interval / 1000000 > 0 && FreeKeys(w, h, run)
    ensures Indexed(Exec(w, h, run).0)
    decreases |run|
  {
    if run != [] {
      match run[0] {
        case Tick => TickKeepsIndex(w);
        case Add(delay, key) => AddKeepsIndex(w, |h.added|, delay, key);
        case Remove(key) => RemoveKeepsIndex(w, key);
      }
      ExecKeepsIndex(StepWheel(w, h, run[0]), StepHistory(w, h, run[0]), run[1..]);
    }
  }

  predicate Keyless(run: seq<Step>) {
    forall i :: 0 <= i < |run| && run[i].Add? ==> run[i].wanted.None?
  }

  function Additions(run: seq<Step>): nat {
    if run == [] then 0 else (if run[0].Add? then 1 else 0) + Additions(run[1..])
  }

  /** Every key in the index is a number handed out before. */
  predicate HandedOut(w: Wheel) {
    0 <= w.accumulator && forall k :: k in w.timer ==> k.Number? && 1 <= k.n <= w.accumulator
  }

  lemma {:induction false} StepHandsOut(w: Wheel, h: History, a: Step)
    requires w.cur < |w.slots| && w.interval / 1000000 > 0 && HandedOut(w)
    requires a.Add? ==> a.wanted.None? && w.accumulator < MAX_INT64
    ensures HandedOut(StepWheel(w, h, a))
    ensures StepWheel(w, h, a).accumulator == w.accumulator + if a.Add? then 1 else 0
    ensures a.Add? ==> KeyFor(w, a.wanted) !in w.timer
  {
    if a.Tick? {
      var s := w.slots[w.cur];
      forall k | k in Ticked(w).timer
        ensures k in w.timer
      {
        UnindexedIs(w.timer, s, |s|, k);
      }
    }
  }

  lemma {:induction false} KeysAreFree(w: Wheel, h: History, run: seq<Step>)
    requires w.cur < |w.slots| && w.interval / 1000000 > 0 && HandedOut(w)
    requires Keyless(run) && w.accumulator + Additions(run) <= MAX_INT64
    ensures FreeKeys(w, h, run)
    decreases |run|
  {
    if run != [] {
      StepHandsOut(w, h, run[0]);
      assert forall i :: 0 <= i < |run[1..]| ==> run[1..][i] == run[i + 1];
      KeysAreFree(StepWheel(w, h, run[0]), StepHistory(w, h, run[0]), run[1..]);
    }
  }

  /** A wheel that makes up the keys itself keeps its index exact for the first 2^63 - 1 additions, so
      that every pending task can be removed by its key and only by it. */
  lemma {:induction false} OwnKeysKeepIndex(w: Wheel, h: History, run: seq<Step>)
    requires Fresh(w, h) && w.accumulator == 0 && w.interval / 1000000 > 0
    requires Keyless(run) && Additions(run) <= MAX_INT64
    ensures FreeKeys(w, h, run) && Indexed(Exec(w, h, run).0)
  {
    FreshHolds(w, h);
    KeysAreFree(w, h, run);
    ExecKeepsIndex(w, h, run);
  }

  /** With ticks at the multiples of the interval, and interval and delay whole milliseconds, a task
      added at `at` runs within one interval of `at + delay`. */
  lemma {:induction false} WithinOneInterval(interval: nat, delay: nat, at: nat, now: nat)
    requires interval > 0 && interval % 1000000 == 0 && delay % 1000000 == 0
    requires now * interval <= at < (now + 1) * interval
    ensures interval / 1000000 > 0
    ensures var runs := (now + Steps(delay, interval) + 1) * interval;
            at + delay - interval < runs <= at + delay + interval
  {
    var d, i := delay / 1000000, interval / 1000000;
    var n := Steps(delay, interval);
    assert n * i <= d < n * i + i;
    assert n * interval == n * (i * 1000000) == (n * i) * 1000000;
    assert (now + n + 1) * interval == now * interval + n * interval + interval;
    assert (now + 1) * interval == now * interval + interval;
  }
}
