/**
 The timing wheel (module/modules/timer/timingwheel.go): slots of tasks with circle counts, turned one
 slot a tick.

 The wheel goroutine handles one tick, addition or removal at a time, so each is one step. Durations
 are nanoseconds; ticks are counted, not timed. `Task.id` numbers the additions; it stands for the job
 and its data.
 */
module TimeWheel {
  import opened Wrappers

  /** Any comparable value; the wheel numbers tasks without a key, and a caller may use a number too. */
  datatype Key = Number(n: int) | Name(s: string)

  datatype Task = Task(id: nat, key: Key, circle: nat)

  type Slot = seq<Task>

  datatype Wheel = Wheel(slots: seq<Slot>, timer: map<Key, nat>, cur: nat, accumulator: int, interval: nat)

  /** What a task was promised when it was added. */
  datatype Entry = Entry(key: Key, due: nat, slot: nat)

  /** Every addition, the tick each fired task fired on, and the removed tasks. */
  datatype History = History(now: nat, added: seq<Entry>, fired: map<nat, nat>, removed: set<nat>)

  const MAX_INT64 := 0x7fff_ffff_ffff_ffff

  predicate HasId(s: Slot, id: nat) {
    exists i :: 0 <= i < |s| && s[i].id == id
  }

  predicate HasKey(s: Slot, key: Key) {
    exists i :: 0 <= i < |s| && s[i].key == key
  }

  // ----- what the operations compute

  /** The number of whole intervals in a delay, both in whole milliseconds. */
  function Steps(delay: nat, interval: nat): nat
    requires interval / 1000000 > 0
  {
    (delay / 1000000) / (interval / 1000000)
  }

  function Position(w: Wheel, delay: nat): nat
    requires w.interval / 1000000 > 0 && |w.slots| > 0
  {
    (w.cur + Steps(delay, w.interval)) % |w.slots|
  }

  function Circle(w: Wheel, delay: nat): nat
    requires w.interval / 1000000 > 0 && |w.slots| > 0
  {
    Steps(delay, w.interval) / |w.slots|
  }

  function NextNumber(accumulator: int): int {
    if accumulator >= MAX_INT64 then 1 else accumulator + 1
  }

  function KeyFor(w: Wheel, key: Option<Key>): Key {
    match key
    case Some(k) => k
    case None => Number(NextNumber(w.accumulator))
  }

  function Numbered(w: Wheel, key: Option<Key>): Wheel {
    if key.None? then w.(accumulator := NextNumber(w.accumulator)) else w
  }

  function Added(w: Wheel, id: nat, delay: nat, key: Option<Key>): Wheel
    requires w.interval / 1000000 > 0 && |w.slots| > 0
  {
    var p, k := Position(w, delay), KeyFor(w, key);
    Numbered(w, key).(slots := w.slots[p := w.slots[p] + [Task(id, k, Circle(w, delay))]], timer := w.timer[k := p])
  }

  /** The first k tasks of a slot after a scan: those with circles left, one less. */
  function Kept(s: Slot, k: nat): (r: Slot)
    requires k <= |s|
    ensures |r| <= k
  {
    if k == 0 then []
    else if s[k - 1].circle > 0 then Kept(s, k - 1) + [s[k - 1].(circle := s[k - 1].circle - 1)]
    else Kept(s, k - 1)
  }

  function Unindexed(timer: map<Key, nat>, s: Slot, k: nat): map<Key, nat>
    requires k <= |s|
  {
    if k == 0 then timer
    else if s[k - 1].circle > 0 then Unindexed(timer, s, k - 1)
    else Unindexed(timer, s, k - 1) - {s[k - 1].key}
  }

  /** The ids of the tasks that run, in slot order. */
  function Run(s: Slot, k: nat): (r: seq<nat>)
    requires k <= |s|
    ensures |r| + |Kept(s, k)| == k
  {
    if k == 0 then [] else if s[k - 1].circle > 0 then Run(s, k - 1) else Run(s, k - 1) + [s[k - 1].id]
  }

  function Next(cur: nat, slotNum: nat): nat {
    if cur == slotNum - 1 then 0 else cur + 1
  }

  function Ticked(w: Wheel): Wheel
    requires w.cur < |w.slots|
  {
    var s := w.slots[w.cur];
    w.(slots := w.slots[w.cur := Kept(s, |s|)], timer := Unindexed(w.timer, s, |s|), cur := Next(w.cur, |w.slots|))
  }

  /** The first task with the key, or the length of the slot. */
  function Find(s: Slot, key: Key, from: nat): (r: nat)
    requires from <= |s|
    ensures from <= r <= |s| && (r < |s| ==> s[r].key == key)
    ensures forall i :: from <= i < r ==> s[i].key != key
    decreases |s| - from
  {
    if from == |s| || s[from].key == key then from else Find(s, key, from + 1)
  }

  function Without(s: Slot, i: nat): Slot
    requires i < |s|
  {
    s[..i] + s[i + 1..]
  }

  predicate Removable(w: Wheel, key: Key) {
    key in w.timer && w.timer[key] < |w.slots| && Find(w.slots[w.timer[key]], key, 0) < |w.slots[w.timer[key]]|
  }

  function Removed(w: Wheel, key: Key): Wheel {
    if !Removable(w, key) then w else
    var p := w.timer[key];
    w.(slots := w.slots[p := Without(w.slots[p], Find(w.slots[p], key, 0))], timer := w.timer - {key})
  }

  // ----- what the history then says

  function LogAdd(w: Wheel, h: History, delay: nat, key: Option<Key>): History
    requires w.interval / 1000000 > 0 && |w.slots| > 0
  {
    h.(added := h.added + [Entry(KeyFor(w, key), h.now + Steps(delay, w.interval) + 1, Position(w, delay))])
  }

  function Fire(fired: map<nat, nat>, ids: seq<nat>, k: nat, tick: nat): map<nat, nat>
    requires k <= |ids|
  {
    if k == 0 then fired else Fire(fired, ids, k - 1, tick)[ids[k - 1] := tick]
  }

  function LogTick(w: Wheel, h: History): History
    requires w.cur < |w.slots|
  {
    var ids := Run(w.slots[w.cur], |w.slots[w.cur]|);
    h.(now := h.now + 1, fired := Fire(h.fired, ids, |ids|, h.now + 1))
  }

  function LogRemove(w: Wheel, h: History, key: Key): History {
    if !Removable(w, key) then h else
    var s := w.slots[w.timer[key]];
    h.(removed := h.removed + {s[Find(s, key, 0)].id})
  }

  // ----- the refinement: every task sits where its due tick will find it

  /** How many ticks until slot p is scanned next, not counting that tick. */
  function Distance(cur: nat, p: nat, slotNum: nat): int {
    if p >= cur then p - cur else p - cur + slotNum
  }

  /** The ticks that so many circles take. */
  function Turns(circle: nat, slotNum: nat): nat {
    if circle == 0 then 0 else Turns(circle - 1, slotNum) + slotNum
  }

  predicate TaskOk(t: Task, p: nat, h: History, distance: int, slotNum: nat) {
    && t.id < |h.added| && h.added[t.id].key == t.key && h.added[t.id].slot == p
    && h.added[t.id].due == h.now + distance + Turns(t.circle, slotNum) + 1
  }

  predicate SlotOk(s: Slot, p: nat, h: History, distance: int, slotNum: nat) {
    && (forall i :: 0 <= i < |s| ==> TaskOk(s[i], p, h, distance, slotNum))
    && (forall i, j :: 0 <= i < j < |s| ==> s[i].id != s[j].id)
  }

  predicate Pending(w: Wheel, h: History, id: nat) {
    id < |h.added| && h.added[id].slot < |w.slots| && HasId(w.slots[h.added[id].slot], id)
  }

  /** Each addition is pending, or fired on its due tick, or was removed: exactly one of them. */
  predicate Accounted(w: Wheel, h: History, id: nat) {
    && (id in h.fired <==> !Pending(w, h, id) && id !in h.removed)
    && (id in h.removed ==> !Pending(w, h, id))
    && (id in h.fired ==> id < |h.added| && h.fired[id] == h.added[id].due <= h.now)
  }

  predicate Inv(w: Wheel, h: History) {
    && w.cur < |w.slots|
    && (forall p :: 0 <= p < |w.slots| ==> SlotOk(w.slots[p], p, h, Distance(w.cur, p, |w.slots|), |w.slots|))
    && (forall id :: 0 <= id < |h.added| ==> Accounted(w, h, id))
    && (forall id :: id in h.fired ==> id < |h.added|)
    && (forall id :: id in h.removed ==> id < |h.added|)
    && (forall k :: k in w.timer ==> w.timer[k] < |w.slots|)
  }
}
