/**
 The ring-buffer queue (utils/queue.go).

 A cell is an element or nil; nil may be queued like anything else. A panic on an empty queue or a bad
 index is the result None, and changes nothing.
 */
module RingQueue {
  import opened Wrappers
  import opened Arithmetic

  type Cell<T> = Option<T>

  const MIN_QUEUE_LEN: nat := 16

  datatype Ring<T> = Ring(buf: seq<Cell<T>>, head: nat, tail: nat, count: nat)

  /** Bitwise and of two natural numbers. */
  function And(x: nat, y: nat): nat {
    if x == 0 || y == 0 then 0 else (x % 2) * (y % 2) + 2 * And(x / 2, y / 2)
  }

  predicate PowerOfTwo(c: nat) {
    c == 1 || (c > 1 && c % 2 == 0 && PowerOfTwo(c / 2))
  }

  lemma {:induction false} LowBit(x: nat, d: nat)
    requires d > 0
    ensures x % (2 * d) == x % 2 + 2 * (x / 2 % d)
  {
    var q, r := x / 2 / d, x / 2 % d;
    assert x / 2 == q * d + r;
    assert x == q * (2 * d) + (2 * r + x % 2);
    QuotientIs(x, 2 * d, q, 2 * r + x % 2);
  }

  /** Masking with a power of two less one is taking the remainder. */
  lemma {:induction false} MaskIsRemainder(x: nat, c: nat)
    requires PowerOfTwo(c)
    ensures And(x, c - 1) == x % c
    decreases c
  {
    if c > 1 {
      var d := c / 2;
      MaskIsRemainder(x / 2, d);
      LowBit(x, d);
      assert (c - 1) % 2 == 1 && (c - 1) / 2 == d - 1;
      if x > 0 {
        assert And(x, c - 1) == x % 2 + 2 * And(x / 2, d - 1);
      }
    }
  }

  // ----- what the operations compute

  /** A position past the end continues at the start. */
  function Wrap(x: nat, c: nat): nat
    requires x < 2 * c
  {
    if x < c then x else x - c
  }

  lemma {:induction false} MaskIsWrap(x: nat, c: nat)
    requires PowerOfTwo(c) && x < 2 * c
    ensures And(x, c - 1) == Wrap(x, c)
  {
    MaskIsRemainder(x, c);
    if x < c {
      QuotientIs(x, c, 0, x);
    } else {
      QuotientIs(x, c, 1, x - c);
    }
  }

  /** The i-th cell from the head on. */
  function Nth<T>(q: Ring<T>, i: nat): Cell<T>
    requires q.head < |q.buf| && i < |q.buf|
  {
    q.buf[Wrap(q.head + i, |q.buf|)]
  }

  /** Capacity, cursors and counts fit together, and every cell outside the contents is nil. */
  predicate Valid<T>(q: Ring<T>) {
    && PowerOfTwo(|q.buf|) && |q.buf| >= MIN_QUEUE_LEN
    && q.head < |q.buf| && q.count <= |q.buf| && q.tail == Wrap(q.head + q.count, |q.buf|)
    && (forall i :: q.count <= i < |q.buf| ==> Nth(q, i) == None)
  }

  /** The queue as a sequence, front first. */
  function Contents<T>(q: Ring<T>): (r: seq<Cell<T>>)
    requires q.head < |q.buf| && q.count <= |q.buf|
    ensures |r| == q.count
  {
    seq(q.count, i requires 0 <= i < q.count => Nth(q, i))
  }

  function Resized<T>(q: Ring<T>): Ring<T>
    requires q.head < |q.buf| && q.count <= |q.buf|
  {
    Ring(Contents(q) + seq(q.count, _ => None), 0, q.count, q.count)
  }

  function Grown<T>(q: Ring<T>): Ring<T>
    requires q.head < |q.buf| && q.count <= |q.buf|
  {
    if q.count == |q.buf| then Resized(q) else q
  }

  function Stored<T>(q: Ring<T>, x: Cell<T>): Ring<T>
    requires q.tail < |q.buf|
  {
    q.(buf := q.buf[q.tail := x], tail := And(q.tail + 1, |q.buf| - 1), count := q.count + 1)
  }

  function Added<T>(q: Ring<T>, x: Cell<T>): Ring<T>
    requires Valid(q)
  {
    GrownIsValid(q);
    Stored(Grown(q), x)
  }

  function Taken<T>(q: Ring<T>): Ring<T>
    requires q.head < |q.buf| && q.count > 0
  {
    q.(buf := q.buf[q.head := None], head := And(q.head + 1, |q.buf| - 1), count := q.count - 1)
  }

  predicate Shrinks<T>(q: Ring<T>) {
    |q.buf| > MIN_QUEUE_LEN && q.count * 4 == |q.buf|
  }

  function Removed<T>(q: Ring<T>): Ring<T>
    requires Valid(q) && q.count > 0
  {
    TakenIsValid(q);
    var r := Taken(q);
    if Shrinks(r) then Resized(r) else r
  }

  // ----- what they keep

  lemma {:induction false} PowersApart(c: nat, d: nat)
    requires PowerOfTwo(c) && PowerOfTwo(d) && c > d
    ensures c >= 2 * d
  {
    if d > 1 {
      PowersApart(c / 2, d / 2);
    }
  }

  lemma {:induction false} ResizedIsValid<T>(q: Ring<T>)
    requires Valid(q) && (q.count == |q.buf| || Shrinks(q))
    ensures Valid(Resized(q)) && Contents(Resized(q)) == Contents(q)
    ensures |Resized(q).buf| == 2 * q.count && q.count < |Resized(q).buf|
  {
    var r := Resized(q);
    assert |r.buf| == 2 * q.count && |r.buf| / 2 == q.count;
    assert PowerOfTwo(1) && PowerOfTwo(2) && PowerOfTwo(4) && PowerOfTwo(8) && PowerOfTwo(MIN_QUEUE_LEN);
    if Shrinks(q) {
      PowersApart(|q.buf|, MIN_QUEUE_LEN);
    }
    assert PowerOfTwo(|r.buf|) && |r.buf| >= MIN_QUEUE_LEN;
    forall i | 0 <= i < |r.buf|
      ensures Nth(r, i) == if i < q.count then Contents(q)[i] else None
    {
    }
  }

  lemma {:induction false} GrownIsValid<T>(q: Ring<T>)
    requires Valid(q)
    ensures Valid(Grown(q)) && Contents(Grown(q)) == Contents(q) && Grown(q).count < |Grown(q).buf|
  {
    if q.count == |q.buf| {
      ResizedIsValid(q);
    }
  }

  lemma {:induction false} StoredIsValid<T>(q: Ring<T>, x: Cell<T>)
    requires Valid(q) && q.count < |q.buf|
    ensures Valid(Stored(q, x)) && Contents(Stored(q, x)) == Contents(q) + [x]
  {
    var r := Stored(q, x);
    MaskIsWrap(q.tail + 1, |q.buf|);
    forall i | 0 <= i < |q.buf|
      ensures Nth(r, i) == if i == q.count then x else Nth(q, i)
    {
    }
  }

  /** One step on, a ring shows the same cells one place earlier. */
  lemma {:induction false} ShiftedNth<T>(q: Ring<T>, r: Ring<T>, i: nat)
    requires q.head < |q.buf| && r.head == Wrap(q.head + 1, |q.buf|) && r.buf == q.buf[q.head := None] && i < |q.buf|
    ensures Nth(r, i) == if i == |q.buf| - 1 then None else Nth(q, i + 1)
  {
  }

  lemma {:induction false} TakenIsValid<T>(q: Ring<T>)
    requires Valid(q) && q.count > 0
    ensures Valid(Taken(q)) && [q.buf[q.head]] + Contents(Taken(q)) == Contents(q)
  {
    var r, c := Taken(q), |q.buf|;
    MaskIsWrap(q.head + 1, c);
    forall i | 0 <= i < c
      ensures Nth(r, i) == if i == c - 1 then None else Nth(q, i + 1)
    {
      ShiftedNth(q, r, i);
    }
    assert Nth(q, 0) == q.buf[q.head];
  }

  /** Add appends, and keeps the queue well formed. */
  lemma {:induction false} AddAppends<T>(q: Ring<T>, x: Cell<T>)
    requires Valid(q)
    ensures Valid(Added(q, x)) && Contents(Added(q, x)) == Contents(q) + [x]
  {
    GrownIsValid(q);
    StoredIsValid(Grown(q), x);
  }

  /** Remove takes the front element, and keeps the queue well formed. */
  lemma {:induction false} RemoveTakesFront<T>(q: Ring<T>)
    requires Valid(q) && q.count > 0
    ensures Valid(Removed(q)) && Contents(q) == [q.buf[q.head]] + Contents(Removed(q))
  {
    TakenIsValid(q);
    if Shrinks(Taken(q)) {
      ResizedIsValid(Taken(q));
    }
  }

  // ----- whole runs

  datatype Op<T> = Add(x: Cell<T>) | Remove | Peek | Get(i: int)

  /** What a caller sees; None is the panic. */
  type Answer<T> = Option<Cell<T>>

  function Peeked<T>(q: Ring<T>): Answer<T>
    requires q.head < |q.buf|
  {
    if q.count <= 0 then None else Some(q.buf[q.head])
  }

  function Gotten<T>(q: Ring<T>, i: int): Answer<T>
    requires Valid(q)
  {
    var k := if i < 0 then i + q.count else i;
    if k < 0 || k >= q.count then None
    else
      MaskIsWrap(q.head + k, |q.buf|);
      Some(q.buf[And(q.head + k, |q.buf| - 1)])
  }

  function Next<T>(q: Ring<T>, op: Op<T>): Ring<T>
    requires Valid(q)
  {
    match op
    case Add(x) => Added(q, x)
    case Remove => if q.count <= 0 then q else Removed(q)
    case _ => q
  }

  function Answered<T>(q: Ring<T>, op: Op<T>): Answer<T>
    requires Valid(q)
  {
    match op
    case Add(_) => None
    case Remove => Peeked(q)
    case Peek => Peeked(q)
    case Get(i) => Gotten(q, i)
  }

  /** The same operations on a plain sequence. */
  function SeqNext<T>(s: seq<Cell<T>>, op: Op<T>): seq<Cell<T>> {
    match op
    case Add(x) => s + [x]
    case Remove => if s == [] then s else s[1..]
    case _ => s
  }

  function SeqAnswer<T>(s: seq<Cell<T>>, op: Op<T>): Answer<T> {
    match op
    case Add(_) => None
    case Get(i) => if 0 <= i < |s| then Some(s[i]) else if -|s| <= i < 0 then Some(s[|s| + i]) else None
    case _ => if s == [] then None else Some(s[0])
  }

  /** Elements copied by the resize of an operation. */
  function Copies<T>(q: Ring<T>, op: Op<T>): nat
    requires Valid(q)
  {
    match op
    case Add(_) => if q.count == |q.buf| then q.count else 0
    case Remove => if q.count > 0 && Shrinks(Taken(q)) then q.count - 1 else 0
    case _ => 0
  }

  lemma {:induction false} StepRefines<T>(q: Ring<T>, op: Op<T>)
    requires Valid(q)
    ensures Valid(Next(q, op)) && Contents(Next(q, op)) == SeqNext(Contents(q), op)
    ensures Answered(q, op) == SeqAnswer(Contents(q), op)
  {
    if q.count > 0 {
      assert Contents(q)[0] == Nth(q, 0) == q.buf[q.head];
    }
    match op
    case Add(x) => AddAppends(q, x);
    case Remove =>
      if q.count > 0 {
        RemoveTakesFront(q);
      }
    case Peek =>
    case Get(i) =>
      var k := if i < 0 then i + q.count else i;
      if 0 <= k < q.count {
        MaskIsWrap(q.head + k, |q.buf|);
        assert Contents(q)[k] == Nth(q, k);
      }
  }

  /** Work that past operations have paid for: above half full towards growing, below it towards
      shrinking, which the smallest buffer never does. */
  function Credit(count: int, capacity: int): int {
    if 2 * count >= capacity then 2 * count - capacity
    else if capacity == MIN_QUEUE_LEN then 0
    else capacity / 2 - count
  }

  lemma {:induction false} StepPaysTwo<T>(q: Ring<T>, op: Op<T>)
    requires Valid(q)
    ensures Valid(Next(q, op))
    ensures Copies(q, op) + Credit(Next(q, op).count, |Next(q, op).buf|) <= Credit(q.count, |q.buf|) + 2
  {
    StepRefines(q, op);
    match op
    case Add(x) =>
      GrownIsValid(q);
      if q.count == |q.buf| {
        ResizedIsValid(q);
      }
    case Remove =>
      if q.count > 0 {
        TakenIsValid(q);
        if Shrinks(Taken(q)) {
          ResizedIsValid(Taken(q));
        }
      }
    case _ =>
  }

  /** The queue after a run, the answers on the way, and the elements copied by resizes. */
  function Exec<T>(q: Ring<T>, run: seq<Op<T>>): (r: (Ring<T>, seq<Answer<T>>, nat))
    requires Valid(q)
    decreases |run|
  {
    if run == [] then (q, [], 0) else
    StepRefines(q, run[0]);
    var rest := Exec(Next(q, run[0]), run[1..]);
    (rest.0, [Answered(q, run[0])] + rest.1, Copies(q, run[0]) + rest.2)
  }

  function SeqExec<T>(s: seq<Cell<T>>, run: seq<Op<T>>): (seq<Cell<T>>, seq<Answer<T>>)
    decreases |run|
  {
    if run == [] then (s, []) else
    var rest := SeqExec(SeqNext(s, run[0]), run[1..]);
    (rest.0, [SeqAnswer(s, run[0])] + rest.1)
  }

  /** Any run answers as a plain sequence would and leaves the same contents. */
  lemma {:induction false} RunRefines<T>(q: Ring<T>, run: seq<Op<T>>)
    requires Valid(q)
    ensures Valid(Exec(q, run).0)
    ensures (Contents(Exec(q, run).0), Exec(q, run).1) == SeqExec(Contents(q), run)
    decreases |run|
  {
    if run != [] {
      StepRefines(q, run[0]);
      RunRefines(Next(q, run[0]), run[1..]);
    }
  }

  lemma {:induction false} RunPays<T>(q: Ring<T>, run: seq<Op<T>>)
    requires Valid(q)
    ensures Exec(q, run).2 <= Credit(q.count, |q.buf|) + 2 * |run|
    decreases |run|
  {
    if run != [] {
      StepPaysTwo(q, run[0]);
      RunPays(Next(q, run[0]), run[1..]);
    }
  }

  function Empty<T>(): Ring<T> {
    Ring(seq(MIN_QUEUE_LEN, _ => None), 0, 0, 0)
  }

  lemma {:induction false} EmptyIsValid<T>()
    ensures Valid(Empty<T>()) && Contents(Empty<T>()) == []
  {
    assert PowerOfTwo(1) && PowerOfTwo(2) && PowerOfTwo(4) && PowerOfTwo(8) && PowerOfTwo(MIN_QUEUE_LEN);
  }

  /** From a new queue, n operations copy at most 2n elements in resizes. */
  lemma {:induction false} AmortisedCopies<T>(run: seq<Op<T>>)
    ensures Valid(Empty<T>()) && Exec(Empty<T>(), run).2 <= 2 * |run|
  {
    EmptyIsValid<T>();
    RunPays(Empty<T>(), run);
  }

  // ----- the object

  class Queue<T> {
    var buf: array<Cell<T>>
    var head: nat
    var tail: nat
    var count: nat

    ghost function View(): Ring<T>
      reads this, buf
    {
      Ring(buf[..], head, tail, count)
    }

    constructor ()
      ensures View() == Empty<T>() && Valid(View()) && fresh(buf)
    {
      buf := new Cell<T>[MIN_QUEUE_LEN](_ => None);
      head, tail, count := 0, 0, 0;
      new;
      assert buf[..] == Empty<T>().buf;
      EmptyIsValid<T>();
    }

    /** resize: a new buffer of twice the count, filled from the head on in one piece or in two. */
    method Resize()
      requires Valid(View()) && (count == buf.Length || Shrinks(View()))
      modifies this
      ensures View() == Resized(old(View())) && fresh(buf)
    {
      ghost var q := View();
      var newBuf := new Cell<T>[2 * count](_ => None);
      if tail > head {
        forall i | 0 <= i < count {
          newBuf[i] := buf[head + i];
        }
      } else {
        var n := buf.Length - head;
        forall i | 0 <= i < n {
          newBuf[i] := buf[head + i];
        }
        forall i | 0 <= i < tail {
          newBuf[n + i] := buf[i];
        }
      }
      assert newBuf[..] == Resized(q).buf;
      head := 0;
      tail := count;
      buf := newBuf;
    }

    method Add(x: Cell<T>)
      requires Valid(View())
      modifies this, buf
      ensures View() == Added(old(View()), x) && Valid(View()) && (buf == old(buf) || fresh(buf))
      ensures Contents(View()) == old(Contents(View())) + [x]
    {
      AddAppends(View(), x);
      GrownIsValid(View());
      if count == buf.Length {
        Resize();
      }
      buf[tail] := x;
      tail := And(tail + 1, buf.Length - 1);
      count := count + 1;
    }

    method Peek() returns (r: Answer<T>)
      requires Valid(View())
      ensures r == Peeked(View()) == SeqAnswer(Contents(View()), Op.Peek)
    {
      StepRefines(View(), Op.Peek);
      r := if count <= 0 then None else Some(buf[head]);
    }

    method Get(i: int) returns (r: Answer<T>)
      requires Valid(View())
      ensures r == Gotten(View(), i) == SeqAnswer(Contents(View()), Op.Get(i))
    {
      StepRefines(View(), Op.Get(i));
      var k := i;
      if k < 0 {
        k := k + count;
      }
      if k < 0 || k >= count {
        return None;
      }
      MaskIsWrap(head + k, buf.Length);
      r := Some(buf[And(head + k, buf.Length - 1)]);
    }

    /** Takes the front cell out of the buffer. */
    method Take() returns (x: Cell<T>)
      requires Valid(View()) && count > 0
      modifies this`head, this`count, buf
      ensures View() == Taken(old(View())) && x == old(buf[head])
    {
      x := buf[head];
      buf[head] := None;
      head := And(head + 1, buf.Length - 1);
      count := count - 1;
    }

    method Remove() returns (r: Answer<T>)
      requires Valid(View())
      modifies this, buf
      ensures View() == Next(old(View()), Op.Remove) && Valid(View()) && (buf == old(buf) || fresh(buf))
      ensures r == SeqAnswer(old(Contents(View())), Op.Remove)
      ensures Contents(View()) == SeqNext(old(Contents(View())), Op.Remove)
    {
      StepRefines(View(), Op.Remove);
      if count <= 0 {
        return None;
      }
      TakenIsValid(View());
      var x := Take();
      r := Some(x);
      if buf.Length > MIN_QUEUE_LEN && count * 4 == buf.Length {
        Resize();
      }
    }
  }
}
