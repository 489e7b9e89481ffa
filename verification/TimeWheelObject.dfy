/** The wheel object: slots, index, hand and counter changed in place. */
module TimeWheelObject {
  import opened Wrappers
  import opened TimeWheel
  import opened TimeWheelProofs

  class Timer {
    const slots: array<Slot>
    var timer: map<Key, nat>
    var currentPos: nat
    const slotNum: nat
    var accumulator: int
    const interval: nat
    ghost var history: History

    ghost function View(): Wheel
      reads this, slots
    {
      Wheel(slots[..], timer, currentPos, accumulator, interval)
    }

    ghost predicate Valid()
      reads this, slots
    {
      slotNum == slots.Length && Inv(View(), history)
    }

    constructor (interval: nat, slotNum: nat)
      requires slotNum > 0
      ensures Valid() && Fresh(View(), history) && this.interval == interval && slots.Length == slotNum && fresh(slots)
    {
      this.interval, this.slotNum := interval, slotNum;
      slots := new Slot[slotNum](_ => []);
      timer, currentPos, accumulator := map[], 0, 0;
      history := History(0, [], map[], {});
    }

    /** tickHandler: turns the hand, then scans the slot it pointed to; the jobs that were started. */
    method TickHandler() returns (started: seq<nat>)
      requires Valid()
      modifies this, slots
      ensures Valid() && View() == Ticked(old(View())) && history == LogTick(old(View()), old(history))
      ensures started == Run(old(slots[currentPos]), |old(slots[currentPos])|)
    {
      TickKeepsInv(View(), history);
      ghost var w := View();
      var pos := currentPos;
      if currentPos == slotNum - 1 {
        currentPos := 0;
      } else {
        currentPos := currentPos + 1;
      }
      history := LogTick(w, history);
      started := ScanAndRunTask(pos);
      assert slots[..] == w.slots[pos := Kept(w.slots[pos], |w.slots[pos]|)];
    }

    /** Walks the list of a slot, which keeps the tasks that have circles left. */
    method ScanAndRunTask(pos: nat) returns (started: seq<nat>)
      requires pos < slots.Length
      modifies this`timer, slots
      ensures forall p :: 0 <= p < slots.Length && p != pos ==> slots[p] == old(slots[p])
      ensures var s := old(slots[pos]);
              slots[pos] == Kept(s, |s|) && timer == Unindexed(old(timer), s, |s|) && started == Run(s, |s|)
    {
      var l, kept := slots[pos], [];
      started := [];
      for k := 0 to |l|
        invariant kept == Kept(l, k) && started == Run(l, k) && timer == Unindexed(old(timer), l, k)
        modifies this`timer
      {
        var task := l[k];
        if task.circle > 0 {
          kept := kept + [task.(circle := task.circle - 1)];
        } else {
          timer := timer - {task.key};
          started := started + [task.id];
        }
      }
      slots[pos] := kept;
    }

    /** None where a sub-millisecond interval makes the source divide by zero. */
    method GetPositionAndCircle(delay: nat) returns (place: Option<(nat, nat)>)
      requires slotNum == slots.Length > 0
      ensures place == if interval / 1000000 > 0 then Some((Position(View(), delay), Circle(View(), delay))) else None
    {
      var delayMillisecond, intervalMillisecond := delay / 1000000, interval / 1000000;
      if intervalMillisecond == 0 {
        return None;
      }
      var steps := delayMillisecond / intervalMillisecond;
      place := Some(((currentPos + steps) % slotNum, steps / slotNum));
    }

    method AssignKey(key: Option<Key>) returns (k: Key)
      modifies this`accumulator
      ensures k == KeyFor(old(View()), key) && View() == Numbered(old(View()), key)
    {
      if key.Some? {
        return key.value;
      }
      if accumulator >= MAX_INT64 {
        accumulator := 0;
      }
      accumulator := accumulator + 1;
      k := Number(accumulator);
    }

    /** addTask; false when getPositionAndCircle panics. */
    method AddTask(job: nat, delay: nat, key: Option<Key>) returns (ok: bool)
      requires Valid() && job == |history.added|
      modifies this, slots
      ensures Valid() && ok == (interval / 1000000 > 0)
      ensures ok ==> View() == Added(old(View()), job, delay, key) && history == LogAdd(old(View()), old(history), delay, key)
      ensures !ok ==> View() == Numbered(old(View()), key) && history == old(history)
    {
      ghost var w, h := View(), history;
      if interval / 1000000 > 0 {
        AddKeepsInv(w, h, delay, key);
      }
      var k := AssignKey(key);
      var place := GetPositionAndCircle(delay);
      if place.None? {
        NumberedKeepsInv(w, h, key);
        return false;
      }
      var (pos, circle) := place.value;
      PushBack(pos, Task(job, k, circle));
      timer := timer[k := pos];
      history := LogAdd(w, h, delay, key);
      ok := true;
    }

    method PushBack(pos: nat, task: Task)
      requires pos < slots.Length
      modifies slots
      ensures View() == old(View()).(slots := old(slots[..])[pos := old(slots[pos]) + [task]])
    {
      slots[pos] := slots[pos] + [task];
    }

    /** removeTask: unlinking an element cuts the walk short, so only the first match goes. */
    method RemoveTask(key: Key)
      requires Valid()
      modifies this, slots
      ensures Valid() && View() == Removed(old(View()), key) && history == LogRemove(old(View()), old(history), key)
    {
      ghost var w, h := View(), history;
      RemoveKeepsInv(w, h, key);
      if key !in timer {
        return;
      }
      var pos := timer[key];
      var l := slots[pos];
      var i: nat := 0;
      while i < |l| && l[i].key != key
        invariant i <= |l| && Find(l, key, 0) == Find(l, key, i)
      {
        i := i + 1;
      }
      if i < |l| {
        timer := timer - {key};
        slots[pos] := Without(l, i);
        history := LogRemove(w, h, key);
        assert slots[..] == w.slots[pos := Without(l, i)];
      }
    }
  }
}
