/**
 The MQTT write queue (gate/base/mqtt/pack_queue.go): writers, the flusher and closers as interleaved
 steps.

 A section under `writelock` is one action. Close takes no lock: each of its three assignments is an
 action of its own. How many bytes bufio passes on by itself and where a connection breaks are
 arguments of the actions.
 */
module PackQueue {
  import opened Wrappers
  import opened MqttCodec
  import opened MqttProofs

  type Thread = nat

  /** Where a goroutine stands in WritePack or Close. */
  datatype Pc =
    | SendToken(failed: bool)  // past the unlock, before the send on fch
    | SetError                 // Close: writeError
    | CloseChannel             // Close: fch
    | SetStatus                // Close: status

  /** Where the flusher stands. */
  datatype FlusherPc = Check | Wait | Have | Exited

  datatype State = State(
    size: nat,                 // of the bufio.Writer
    connected: bool,
    writeError: bool,
    tokens: nat,               // in fch
    open: bool,                // fch
    held: bool,                // writelock, by a goroutine that panicked under it
    broken: bool,              // bufio keeps the first error of its connection
    buffered: Bytes,
    sent: Bytes,
    accepted: seq<Pack>,       // in lock order; history
    torn: Bytes,               // what got through of a pack cut by an error or a panic; history
    threads: map<Thread, Pc>,
    flusher: FlusherPc)

  datatype Action =
    | Write(t: Thread, p: Pack, passed: nat, cut: Option<nat>)
    | Send(t: Thread)
    | CallClose(t: Thread)
    | CloseStep(t: Thread)
    | FlusherCheck
    | FlusherTake
    | FlusherFlush(cut: Option<nat>)

  const CAPACITY := 256

  predicate Init(s: State) {
    && s.size > 0 && s.connected && !s.writeError && s.tokens == 0 && s.open && !s.held && !s.broken
    && s.buffered == [] && s.sent == [] && s.accepted == [] && s.torn == [] && s.threads == map[] && s.flusher == Check
  }

  // ----- the steps

  /** Whether WritePack goes on to write. */
  predicate Admits(s: State) {
    s.connected && !s.writeError && |s.buffered| < s.size
  }

  /** What a write adds to the stream: the encoding, or its beginning when the connection breaks. */
  function Added(p: Pack, cut: Option<nat>): Bytes {
    if cut.Some? && cut.value < |EncodePack(p)| then EncodePack(p)[..cut.value] else EncodePack(p)
  }

  predicate WriteEnabled(s: State, t: Thread, p: Pack, passed: nat, cut: Option<nat>) {
    && !s.held && t !in s.threads
    && (cut.Some? ==> cut.value < |EncodePack(p)|)
    && passed <= |s.buffered| + |Added(p, cut)| <= passed + s.size
  }

  function Pass(s: State, bytes: Bytes, passed: nat): State
    requires passed <= |s.buffered| + |bytes|
  {
    var all := s.buffered + bytes;
    s.(sent := s.sent + all[..passed], buffered := all[passed..])
  }

  function WriteEffect(s: State, t: Thread, p: Pack, passed: nat, cut: Option<nat>): State
    requires WriteEnabled(s, t, p, passed, cut)
  {
    if !Admits(s) then s
    else if s.broken then s.(threads := s.threads[t := SendToken(true)])
    else if cut.Some? then
      Pass(s, Added(p, cut), passed).(broken := true, torn := Added(p, cut), threads := s.threads[t := SendToken(true)])
    else if EncodeBody(p).Some? then
      Pass(s, EncodePack(p), passed).(accepted := s.accepted + [p], threads := s.threads[t := SendToken(false)])
    else
      Pass(s, EncodePack(p), passed).(torn := EncodePack(p), held := true, threads := s.threads[t := SetError])
  }

  predicate SendEnabled(s: State, t: Thread) {
    t in s.threads && s.threads[t].SendToken? && (s.open ==> s.tokens < CAPACITY)
  }

  /** A send on a closed channel panics and is recovered by closing. */
  function SendEffect(s: State, t: Thread): State
    requires SendEnabled(s, t)
  {
    if !s.open then s.(threads := s.threads[t := SetError])
    else if s.threads[t].failed then s.(tokens := s.tokens + 1, threads := s.threads[t := SetError])
    else s.(tokens := s.tokens + 1, threads := s.threads - {t})
  }

  function CloseEffect(s: State, t: Thread): State
    requires t in s.threads && !s.threads[t].SendToken?
  {
    match s.threads[t]
    case SetError => s.(writeError := true, threads := s.threads[t := CloseChannel])
    case CloseChannel => s.(open := false, threads := s.threads[t := SetStatus])
    case SetStatus => s.(connected := false, threads := s.threads - {t})
  }

  /** The locked section of the flusher. */
  function FlushEffect(s: State, cut: Option<nat>): State
    requires cut.Some? ==> cut.value <= |s.buffered|
  {
    if !s.connected then s.(flusher := Exited)
    else if s.buffered == [] then s.(flusher := Check)
    else if s.broken then s.(flusher := Exited)
    else if cut.Some? then Pass(s, [], cut.value).(broken := true, flusher := Exited)
    else s.(sent := s.sent + s.buffered, buffered := [], flusher := Check)
  }

  predicate Enabled(s: State, a: Action) {
    match a
    case Write(t, p, passed, cut) => WriteEnabled(s, t, p, passed, cut)
    case Send(t) => SendEnabled(s, t)
    case CallClose(t) => t !in s.threads
    case CloseStep(t) => t in s.threads && !s.threads[t].SendToken?
    case FlusherCheck => s.flusher == Check
    case FlusherTake => s.flusher == Wait && (s.tokens > 0 || !s.open)
    case FlusherFlush(cut) => s.flusher == Have && !s.held && (cut.Some? ==> cut.value <= |s.buffered|)
  }

  function Apply(s: State, a: Action): State
    requires Enabled(s, a)
  {
    match a
    case Write(t, p, passed, cut) => WriteEffect(s, t, p, passed, cut)
    case Send(t) => SendEffect(s, t)
    case CallClose(t) => s.(threads := s.threads[t := SetError])
    case CloseStep(t) => CloseEffect(s, t)
    case FlusherCheck => s.(flusher := if s.connected then Wait else Exited)
    case FlusherTake => if s.tokens > 0 then s.(tokens := s.tokens - 1, flusher := Have) else s.(flusher := Exited)
    case FlusherFlush(cut) => FlushEffect(s, cut)
  }

  // ----- what every step keeps

  /** Bytes sent, then bytes buffered, are the packs in order, then what an error or a panic left of one
      more. */
  predicate InOrder(sent: Bytes, buffered: Bytes, packs: seq<Pack>, torn: Bytes) {
    sent + buffered == EncodeAll(packs) + torn
  }

  predicate Conserved(s: State) {
    InOrder(s.sent, s.buffered, s.accepted, s.torn) && (s.torn != [] ==> s.broken || s.held)
  }

  predicate HasSender(s: State) {
    exists t :: t in s.threads && s.threads[t].SendToken?
  }

  /** Bytes that wait have a wakeup on the way. */
  predicate Awake(s: State) {
    s.connected && s.open && !s.broken && !s.held && s.buffered != [] ==>
      s.tokens > 0 || s.flusher == Have || HasSender(s)
  }

  predicate HasCloser(s: State) {
    exists t :: t in s.threads && !s.threads[t].SendToken?
  }

  predicate Control(s: State) {
    && Awake(s) && s.size > 0 && s.tokens <= CAPACITY
    && (s.connected && s.open && !s.broken ==> s.flusher != Exited)
    && (s.connected && (s.held || !s.open) ==> HasCloser(s))
  }

  predicate Inv(s: State) {
    Conserved(s) && Control(s) && |s.buffered| <= s.size
  }

  lemma {:induction false} InitHolds(s: State)
    requires Init(s)
    ensures Inv(s)
  {
  }

  lemma {:induction false} EncodeAllAppend(packs: seq<Pack>, p: Pack)
    ensures EncodeAll(packs + [p]) == EncodeAll(packs) + EncodePack(p)
  {
    if packs == [] {
      assert packs + [p] == [p] && [p][1..] == [];
      assert EncodeAll([p]) == EncodePack(p) + [];
      assert EncodeAll(packs) + EncodePack(p) == EncodePack(p);
    } else {
      assert (packs + [p])[1..] == packs[1..] + [p];
      EncodeAllAppend(packs[1..], p);
      AppendAssoc(EncodePack(packs[0]), EncodeAll(packs[1..]), EncodePack(p));
    }
  }

  lemma {:induction false} AppendAssoc(x: Bytes, y: Bytes, z: Bytes)
    ensures (x + y) + z == x + (y + z)
  {
  }

  lemma {:induction false} PassKeepsStream(s: State, bytes: Bytes, passed: nat)
    requires passed <= |s.buffered| + |bytes|
    ensures Pass(s, bytes, passed).sent + Pass(s, bytes, passed).buffered == (s.sent + s.buffered) + bytes
  {
    var all := s.buffered + bytes;
    assert all[..passed] + all[passed..] == all;
    AppendAssoc(s.sent, all[..passed], all[passed..]);
  }

  lemma {:induction false} WriteConserves(s: State, t: Thread, p: Pack, passed: nat, cut: Option<nat>)
    requires WriteEnabled(s, t, p, passed, cut) && Conserved(s)
    ensures Conserved(WriteEffect(s, t, p, passed, cut))
  {
    if Admits(s) && !s.broken {
      PassKeepsStream(s, Added(p, cut), passed);
      EncodeAllAppend(s.accepted, p);
      assert EncodeAll(s.accepted) + [] == EncodeAll(s.accepted);
      assert EncodeAll(s.accepted + [p]) + [] == EncodeAll(s.accepted + [p]);
    }
  }

  lemma {:induction false} FlushConserves(s: State, cut: Option<nat>)
    requires (cut.Some? ==> cut.value <= |s.buffered|) && Conserved(s)
    ensures Conserved(FlushEffect(s, cut))
  {
    if cut.Some? {
      PassKeepsStream(s, [], cut.value);
    }
    assert (s.sent + s.buffered) + [] == s.sent + s.buffered;
  }

  /** Replacing a goroutine's place leaves the others where they were. */
  lemma {:induction false} OthersStay(s: State, s': State, t: Thread)
    requires forall u :: u in s.threads && u != t ==> u in s'.threads && s'.threads[u] == s.threads[u]
    ensures HasSender(s) && !(t in s.threads && s.threads[t].SendToken?) ==> HasSender(s')
    ensures HasCloser(s) && !(t in s.threads && !s.threads[t].SendToken?) ==> HasCloser(s')
  {
    if HasSender(s) && !(t in s.threads && s.threads[t].SendToken?) {
      var u :| u in s.threads && s.threads[u].SendToken?;
      assert u in s'.threads && s'.threads[u].SendToken?;
    }
    if HasCloser(s) && !(t in s.threads && !s.threads[t].SendToken?) {
      var u :| u in s.threads && !s.threads[u].SendToken?;
      assert u in s'.threads && !s'.threads[u].SendToken?;
    }
  }

  lemma {:induction false} WriteKeepsInv(s: State, t: Thread, p: Pack, passed: nat, cut: Option<nat>)
    requires Inv(s) && WriteEnabled(s, t, p, passed, cut)
    ensures Inv(WriteEffect(s, t, p, passed, cut))
  {
    var s' := WriteEffect(s, t, p, passed, cut);
    WriteConserves(s, t, p, passed, cut);
    OthersStay(s, s', t);
    assert Admits(s) ==> t in s'.threads;
  }

  lemma {:induction false} SendKeepsInv(s: State, t: Thread)
    requires Inv(s) && SendEnabled(s, t)
    ensures Inv(SendEffect(s, t))
  {
    OthersStay(s, SendEffect(s, t), t);
  }

  lemma {:induction false} CloseKeepsControl(s: State, t: Thread)
    requires Control(s) && t in s.threads && !s.threads[t].SendToken?
    ensures Control(CloseEffect(s, t))
  {
    var s' := CloseEffect(s, t);
    OthersStay(s, s', t);
    assert !s.threads[t].SetStatus? ==> t in s'.threads && !s'.threads[t].SendToken?;
  }

  /** Close changes no byte, and only takes ground from the wakeup promise. */
  lemma {:induction false} CloseKeepsInv(s: State, t: Thread)
    requires Inv(s) && t in s.threads && !s.threads[t].SendToken?
    ensures Inv(CloseEffect(s, t))
  {
    var s' := CloseEffect(s, t);
    CloseKeepsControl(s, t);
    SameStream(s, s');
  }

  lemma {:induction false} SameStream(s: State, s': State)
    requires Conserved(s) && s'.broken == s.broken && s'.held == s.held && s'.torn == s.torn
    requires s'.sent == s.sent && s'.buffered == s.buffered && s'.accepted == s.accepted
    ensures Conserved(s')
  {
  }

  lemma {:induction false} FlushKeepsInv(s: State, cut: Option<nat>)
    requires Inv(s) && s.flusher == Have && !s.held && (cut.Some? ==> cut.value <= |s.buffered|)
    ensures Inv(FlushEffect(s, cut))
  {
    FlushConserves(s, cut);
    OthersStay(s, FlushEffect(s, cut), 0);
    SameThreads(s, FlushEffect(s, cut));
  }

  lemma {:induction false} SameThreads(s: State, s': State)
    requires s'.threads == s.threads
    ensures HasSender(s') == HasSender(s) && HasCloser(s') == HasCloser(s)
  {
  }

  /** Every step of every interleaving keeps the invariant. */
  lemma {:induction false} ActionKeepsInv(s: State, a: Action)
    requires Inv(s) && Enabled(s, a)
    ensures Inv(Apply(s, a))
  {
    match a
    case Write(t, p, passed, cut) => WriteKeepsInv(s, t, p, passed, cut);
    case Send(t) => SendKeepsInv(s, t);
    case CallClose(t) =>
      OthersStay(s, Apply(s, a), t);
    case CloseStep(t) => CloseKeepsInv(s, t);
    case FlusherCheck => SameThreads(s, Apply(s, a));
    case FlusherTake => SameThreads(s, Apply(s, a));
    case FlusherFlush(cut) => FlushKeepsInv(s, cut);
  }

  predicate Possible(s: State, run: seq<Action>)
    decreases |run|
  {
    run == [] || (Enabled(s, run[0]) && Possible(Apply(s, run[0]), run[1..]))
  }

  function Exec(s: State, run: seq<Action>): State
    requires Possible(s, run)
    decreases |run|
  {
    if run == [] then s else Exec(Apply(s, run[0]), run[1..])
  }

  lemma {:induction false} ExecKeepsInv(s: State, run: seq<Action>)
    requires Inv(s) && Possible(s, run)
    ensures Inv(Exec(s, run))
    decreases |run|
  {
    if run != [] {
      ActionKeepsInv(s, run[0]);
      ExecKeepsInv(Apply(s, run[0]), run[1..]);
    }
  }

  // ----- what follows for whole runs

  /** What every run from the start keeps: what left the queue, then what waits in it, are the accepted
      packs in lock order, as long as the connection did not break and no writer panicked under the
      lock; nothing was lost, repeated or mixed. */
  lemma {:induction false} BytesInLockOrder(s: State, run: seq<Action>)
    requires Init(s) && Possible(s, run)
    ensures var r := Exec(s, run);
            && (!r.broken && !r.held ==> r.sent + r.buffered == EncodeAll(r.accepted))
            && r.sent <= EncodeAll(r.accepted) + r.torn
            && |r.buffered| <= s.size && r.tokens <= CAPACITY
  {
    InitHolds(s);
    ExecKeepsInv(s, run);
    ExecKeepsSize(s, run);
    var r := Exec(s, run);
    assert EncodeAll(r.accepted) + [] == EncodeAll(r.accepted);
  }

  lemma {:induction false} ExecKeepsSize(s: State, run: seq<Action>)
    requires Possible(s, run)
    ensures Exec(s, run).size == s.size
    decreases |run|
  {
    if run != [] {
      ExecKeepsSize(Apply(s, run[0]), run[1..]);
    }
  }

  /** A peer that reads an emptied queue gets exactly the packs that were accepted, in lock order. */
  lemma {:induction false} PeerReadsAccepted(s: State, run: seq<Action>, max: int)
    requires Init(s) && Possible(s, run)
    requires var r := Exec(s, run);
             !r.broken && !r.held && r.buffered == [] && forall i :: 0 <= i < |r.accepted| ==> InRange(r.accepted[i], max)
    ensures var r := Exec(s, run); ReadAll(r.sent, 0, max) == (Sized(r.accepted), |r.sent|)
  {
    var r := Exec(s, run);
    BytesInLockOrder(s, run);
    assert r.sent + [] == r.sent;
    StreamRoundTrip(r.sent, 0, r.accepted, max);
  }

  lemma {:induction false} WriteExtends(s: State, t: Thread, p: Pack, passed: nat, cut: Option<nat>)
    requires WriteEnabled(s, t, p, passed, cut)
    ensures var s' := WriteEffect(s, t, p, passed, cut);
            && s.sent <= s'.sent && s.accepted <= s'.accepted
            && (!s.connected ==> s' == s)
  {
  }

  lemma {:induction false} FlushExtends(s: State, cut: Option<nat>)
    requires cut.Some? ==> cut.value <= |s.buffered|
    ensures var s' := FlushEffect(s, cut);
            && s.sent <= s'.sent && s.accepted == s'.accepted
            && (!s.connected ==> s'.sent == s.sent)
            && s'.connected == s.connected && s'.held == s.held
  {
  }

  /** Disconnected for good, or the lock held by a goroutine that panicked. */
  predicate Dead(s: State) {
    !s.connected || s.held
  }

  /** History only grows, and a dead queue's history does not. */
  lemma {:induction false} ActionExtends(s: State, a: Action)
    requires Enabled(s, a)
    ensures s.sent <= Apply(s, a).sent && s.accepted <= Apply(s, a).accepted
    ensures Dead(s) ==> Dead(Apply(s, a)) && Apply(s, a).sent == s.sent && Apply(s, a).accepted == s.accepted
  {
    match a
    case Write(t, p, passed, cut) => WriteExtends(s, t, p, passed, cut);
    case FlusherFlush(cut) => FlushExtends(s, cut);
    case _ =>
  }

  /** Once disconnected, or once a writer panicked under the lock, nothing is accepted or sent again. */
  lemma {:induction false} NothingAfterwards(s: State, run: seq<Action>)
    requires Possible(s, run) && Dead(s)
    ensures Exec(s, run).accepted == s.accepted && Exec(s, run).sent == s.sent
    decreases |run|
  {
    if run != [] {
      ActionExtends(s, run[0]);
      NothingAfterwards(Apply(s, run[0]), run[1..]);
    }
  }

  // ----- no wakeup is lost

  predicate Waiting(s: State) {
    s.connected && s.open && !s.broken && !s.held && s.buffered != []
  }

  /** In every run from the start: while connected and open, unbroken and unheld, with bytes buffered, a
      token is in fch, or a writer stands before its send, or the flusher has taken one and not flushed. */
  lemma {:induction false} WakeupNeverLost(s: State, run: seq<Action>)
    requires Init(s) && Possible(s, run) && Waiting(Exec(s, run))
    ensures Exec(s, run).tokens > 0 || Exec(s, run).flusher == Have || HasSender(Exec(s, run))
    ensures Exec(s, run).flusher != Exited
  {
    InitHolds(s);
    ExecKeepsInv(s, run);
  }

  /** The run empties the buffer onto the connection, which stays whole. */
  ghost predicate Flushes(s: State, run: seq<Action>) {
    && Possible(s, run) && Exec(s, run).buffered == [] && Exec(s, run).sent == s.sent + s.buffered
    && !Exec(s, run).broken
  }

  /** A step of the flusher that does not fail. */
  predicate FlusherStep(a: Action) {
    a in {FlusherCheck, FlusherTake, FlusherFlush(None)}
  }

  lemma {:induction false} StepThen(s: State, a: Action, run: seq<Action>)
    requires Enabled(s, a) && Apply(s, a).sent == s.sent && Apply(s, a).buffered == s.buffered
    requires Flushes(Apply(s, a), run)
    ensures Flushes(s, [a] + run)
  {
    assert ([a] + run)[1..] == run;
  }

  lemma {:induction false} FlushFromHave(s: State)
    requires Waiting(s) && s.flusher == Have
    ensures Flushes(s, [FlusherFlush(None)])
  {
    assert [FlusherFlush(None)][1..] == [];
    assert Possible(Apply(s, FlusherFlush(None)), []);
  }

  lemma {:induction false} FlushFromTokens(s: State) returns (run: seq<Action>)
    requires Waiting(s) && s.tokens > 0 && (s.flusher == Check || s.flusher == Wait)
    ensures |run| <= 3 && Flushes(s, run)
    ensures forall i :: 0 <= i < |run| ==> FlusherStep(run[i])
  {
    var w := if s.flusher == Check then Apply(s, FlusherCheck) else s;
    FlushFromHave(Apply(w, FlusherTake));
    run := [FlusherTake] + [FlusherFlush(None)];
    StepThen(w, FlusherTake, [FlusherFlush(None)]);
    if s.flusher == Check {
      StepThen(s, FlusherCheck, run);
      run := [FlusherCheck] + run;
    }
  }

  /** While bytes wait, one to four steps that are possible right now put every one of them on the
      connection: the flusher's own, after at most one send of a writer that has already written. */
  lemma {:induction false} FlushIsNear(s: State) returns (run: seq<Action>)
    requires Inv(s) && Waiting(s)
    ensures 1 <= |run| <= 4 && Flushes(s, run)
    ensures FlusherStep(run[0]) || (run[0].Send? && run[0].t in s.threads && s.threads[run[0].t].SendToken?)
    ensures forall i :: 1 <= i < |run| ==> FlusherStep(run[i])
  {
    if s.flusher == Have {
      FlushFromHave(s);
      run := [FlusherFlush(None)];
    } else if s.tokens > 0 {
      run := FlushFromTokens(s);
    } else {
      var t :| t in s.threads && s.threads[t].SendToken?;
      var rest := FlushFromTokens(Apply(s, Send(t)));
      StepThen(s, Send(t), rest);
      run := [Send(t)] + rest;
    }
  }

  // ----- every run flushes

  predicate IsFlusher(a: Action) {
    a.FlusherCheck? || a.FlusherTake? || a.FlusherFlush?
  }

  function FlusherSteps(run: seq<Action>): nat {
    if run == [] then 0 else (if IsFlusher(run[0]) then 1 else 0) + FlusherSteps(run[1..])
  }

  predicate HasFlush(run: seq<Action>) {
    exists i :: 0 <= i < |run| && run[i].FlusherFlush?
  }

  /** How many steps the flusher can take before it comes to its locked section. */
  function StepsToFlush(f: FlusherPc): nat {
    match f
    case Check => 2
    case Wait => 1
    case Have => 0
    case Exited => 0
  }

  lemma {:induction false} WriteKeepsFlusher(s: State, t: Thread, p: Pack, passed: nat, cut: Option<nat>)
    requires WriteEnabled(s, t, p, passed, cut)
    ensures WriteEffect(s, t, p, passed, cut).flusher == s.flusher
  {
  }

  lemma {:induction false} ToFlushStep(s: State, a: Action)
    requires Enabled(s, a) && !a.FlusherFlush?
    ensures StepsToFlush(Apply(s, a).flusher) + (if IsFlusher(a) then 1 else 0) <= StepsToFlush(s.flusher)
  {
    match a
    case Write(t, p, passed, cut) => WriteKeepsFlusher(s, t, p, passed, cut);
    case Send(t) => assert Apply(s, a) == SendEffect(s, t);
    case CloseStep(t) => assert Apply(s, a) == CloseEffect(s, t);
    case _ =>
  }

  /** Three steps of the flusher never pass without its locked section. */
  lemma {:induction false} FlusherCycles(s: State, run: seq<Action>)
    requires Possible(s, run) && !HasFlush(run)
    ensures FlusherSteps(run) <= StepsToFlush(s.flusher) <= 2
    decreases |run|
  {
    if run != [] {
      assert !run[0].FlusherFlush?;
      assert forall i :: 0 <= i < |run[1..]| ==> run[1..][i] == run[i + 1];
      ToFlushStep(s, run[0]);
      FlusherCycles(Apply(s, run[0]), run[1..]);
    }
  }

  /** The stream only grows, and a whole, connected queue was so before. */
  predicate Grows(s: State, r: State) {
    && s.sent <= r.sent && s.sent + s.buffered <= r.sent + r.buffered
    && (!r.broken ==> !s.broken) && (r.connected ==> s.connected)
  }

  lemma {:induction false} PassGrows(s: State, bytes: Bytes, passed: nat)
    requires passed <= |s.buffered| + |bytes|
    ensures s.sent + s.buffered <= Pass(s, bytes, passed).sent + Pass(s, bytes, passed).buffered
    ensures s.sent <= Pass(s, bytes, passed).sent
  {
    PassKeepsStream(s, bytes, passed);
  }

  lemma {:induction false} WriteGrows(s: State, t: Thread, p: Pack, passed: nat, cut: Option<nat>)
    requires WriteEnabled(s, t, p, passed, cut)
    ensures Grows(s, WriteEffect(s, t, p, passed, cut))
  {
    PassGrows(s, Added(p, cut), passed);
  }

  lemma {:induction false} FlushGrows(s: State, cut: Option<nat>)
    requires cut.Some? ==> cut.value <= |s.buffered|
    ensures Grows(s, FlushEffect(s, cut))
  {
    if cut.Some? {
      PassGrows(s, [], cut.value);
    }
  }

  /** Any other step leaves the stream alone. */
  lemma {:induction false} QuietGrows(s: State, r: State)
    requires r.sent == s.sent && r.buffered == s.buffered && r.broken == s.broken && (r.connected ==> s.connected)
    ensures Grows(s, r)
  {
  }

  lemma {:induction false} StepGrows(s: State, a: Action)
    requires Enabled(s, a)
    ensures Grows(s, Apply(s, a))
  {
    match a
    case Write(t, p, passed, cut) => WriteGrows(s, t, p, passed, cut);
    case FlusherFlush(cut) => FlushGrows(s, cut);
    case _ => QuietGrows(s, Apply(s, a));
  }

  lemma {:induction false} RunGrows(s: State, run: seq<Action>)
    requires Possible(s, run)
    ensures Grows(s, Exec(s, run))
    decreases |run|
  {
    if run != [] {
      StepGrows(s, run[0]);
      RunGrows(Apply(s, run[0]), run[1..]);
    }
  }

  /** In a run that ends whole and connected, the flusher's locked section sends all that was buffered. */
  lemma {:induction false} FlushSendsAll(s: State, run: seq<Action>)
    requires Possible(s, run) && HasFlush(run) && Exec(s, run).connected && !Exec(s, run).broken
    ensures s.sent + s.buffered <= Exec(s, run).sent
    decreases |run|
  {
    var next := Apply(s, run[0]);
    StepGrows(s, run[0]);
    RunGrows(next, run[1..]);
    if run[0].FlusherFlush? {
      FlushEmpties(s, run[0].cut);
    } else {
      var i :| 0 <= i < |run| && run[i].FlusherFlush?;
      assert run[1..][i - 1].FlusherFlush?;
      FlushSendsAll(next, run[1..]);
    }
  }

  lemma {:induction false} FlushEmpties(s: State, cut: Option<nat>)
    requires (cut.Some? ==> cut.value <= |s.buffered|) && s.connected && !FlushEffect(s, cut).broken
    ensures FlushEffect(s, cut).sent == s.sent + s.buffered
  {
    if s.buffered == [] {
      assert s.sent + [] == s.sent;
    }
  }

  /** However writers, closers and the flusher interleave: a run that ends whole and connected and in
      which the flusher takes three steps has sent every byte that was buffered at its start. */
  lemma {:induction false} ThreeStepsFlush(s: State, run: seq<Action>)
    requires Possible(s, run) && FlusherSteps(run) >= 3 && Exec(s, run).connected && !Exec(s, run).broken
    ensures s.sent + s.buffered <= Exec(s, run).sent
  {
    if !HasFlush(run) {
      FlusherCycles(s, run);
    }
    FlushSendsAll(s, run);
  }

  // ----- a writer before a full channel

  /** The flusher will come to take a token: it waits for one, or gets back there by itself. */
  predicate WillTake(s: State) {
    match s.flusher
    case Wait => true
    case Check => s.connected
    case Have => !s.held && s.connected && (s.buffered == [] || !s.broken)
    case Exited => false
  }

  predicate OnlyFlusher(run: seq<Action>) {
    forall i :: 0 <= i < |run| ==> IsFlusher(run[i])
  }

  ghost predicate LetsOn(s: State, t: Thread, run: seq<Action>) {
    OnlyFlusher(run) && Possible(s, run) && SendEnabled(Exec(s, run), t)
  }

  lemma {:induction false} LetsOnAfter(s: State, t: Thread, a: Action, run: seq<Action>)
    requires IsFlusher(a) && Enabled(s, a) && LetsOn(Apply(s, a), t, run)
    ensures LetsOn(s, t, [a] + run)
  {
    assert ([a] + run)[1..] == run;
  }

  lemma {:induction false} TakeLetsOn(s: State, t: Thread)
    requires s.flusher == Wait && t in s.threads && s.threads[t].SendToken? && 0 < s.tokens <= CAPACITY
    ensures LetsOn(s, t, [FlusherTake])
  {
    assert LetsOn(Apply(s, FlusherTake), t, []);
    LetsOnAfter(s, t, FlusherTake, []);
    assert [FlusherTake] + [] == [FlusherTake];
  }

  lemma {:induction false} CheckLetsOn(s: State, t: Thread)
    requires s.flusher == Check && s.connected && t in s.threads && s.threads[t].SendToken? && 0 < s.tokens <= CAPACITY
    ensures LetsOn(s, t, [FlusherCheck] + [FlusherTake])
  {
    TakeLetsOn(Apply(s, FlusherCheck), t);
    LetsOnAfter(s, t, FlusherCheck, [FlusherTake]);
  }

  lemma {:induction false} NeverTakes(s: State, t: Thread, run: seq<Action>)
    requires s.open && s.tokens == CAPACITY && !WillTake(s) && OnlyFlusher(run) && Possible(s, run)
    ensures !SendEnabled(Exec(s, run), t)
    decreases |run|
  {
    if run != [] {
      assert IsFlusher(run[0]);
      assert forall i :: 0 <= i < |run[1..]| ==> run[1..][i] == run[i + 1];
      NeverTakes(Apply(s, run[0]), t, run[1..]);
    }
  }

  /** A writer that finds the channel full is let on by steps of the flusher alone, at most three of them,
      if and only if the flusher will take a token. It always will while the queue is connected, open,
      whole and its lock free; after a failed flush it has gone, and only a close frees the writer. */
  lemma {:induction false} BlockedSendIff(s: State, t: Thread)
    requires s.open && s.tokens == CAPACITY && t in s.threads && s.threads[t].SendToken?
    ensures WillTake(s) <==> exists run :: LetsOn(s, t, run)
    ensures WillTake(s) ==> exists run :: LetsOn(s, t, run) && |run| <= 3
    ensures Inv(s) && s.connected && !s.broken && !s.held ==> WillTake(s)
  {
    if WillTake(s) {
      if s.flusher == Wait {
        TakeLetsOn(s, t);
      } else if s.flusher == Check {
        CheckLetsOn(s, t);
      } else {
        var next := Apply(s, FlusherFlush(None));
        CheckLetsOn(next, t);
        LetsOnAfter(s, t, FlusherFlush(None), [FlusherCheck] + [FlusherTake]);
      }
    } else {
      forall run | OnlyFlusher(run) && Possible(s, run)
        ensures !LetsOn(s, t, run)
      {
        NeverTakes(s, t, run);
      }
    }
  }

  // ----- when the lock is lost

  /** A write that gets as far as the buffer of a whole connection with a pack it cannot write. */
  predicate LosesLock(s: State, a: Action) {
    a.Write? && Admits(s) && !s.broken && a.cut.None? && Unwritable(a.p)
  }

  predicate LockLost(s: State, run: seq<Action>)
    requires Possible(s, run)
    decreases |run|
  {
    run != [] && (LosesLock(s, run[0]) || LockLost(Apply(s, run[0]), run[1..]))
  }

  lemma {:induction false} HeldStep(s: State, a: Action)
    requires Enabled(s, a)
    ensures Apply(s, a).held <==> s.held || LosesLock(s, a)
  {
  }

  /** The lock is held for good exactly when some admitted write on a whole connection had a pack that
      cannot be written. */
  lemma {:induction false} HeldExactly(s: State, run: seq<Action>)
    requires Possible(s, run)
    ensures Exec(s, run).held <==> s.held || LockLost(s, run)
    decreases |run|
  {
    if run != [] {
      HeldStep(s, run[0]);
      HeldExactly(Apply(s, run[0]), run[1..]);
    }
  }

  // ----- what is accepted, and what a close leaves

  /** WritePack takes the pack: connected, no error so far, room in the buffer, a whole connection, and a
      pack that can be written. */
  predicate Takes(s: State, a: Action) {
    a.Write? && s.connected && !s.writeError && |s.buffered| < s.size && !s.broken && a.cut.None? && !Unwritable(a.p)
  }

  /** What each write does to the stream and to its goroutine: a pack that is taken is added to the
      accepted ones and to the bytes, whole and at the end; a refused one changes nothing; one that an
      error cuts leaves its beginning, and breaks the connection. */
  lemma {:induction false} WriteDoes(s: State, t: Thread, p: Pack, passed: nat, cut: Option<nat>)
    requires WriteEnabled(s, t, p, passed, cut)
    ensures var a := Write(t, p, passed, cut);
            var r := Apply(s, a);
            && (Takes(s, a) ==> && r.accepted == s.accepted + [p] && r.sent + r.buffered == (s.sent + s.buffered) + EncodePack(p)
                                && t in r.threads && r.threads[t] == SendToken(false))
            && (!Takes(s, a) ==> r.accepted == s.accepted)
            && (!s.connected || s.writeError || |s.buffered| >= s.size ==> r == s)
            && (Admits(s) && (s.broken || cut.Some?) ==> r.broken && t in r.threads && r.threads[t] == SendToken(true))
            && (Admits(s) && s.broken ==> r.sent == s.sent && r.buffered == s.buffered)
            && (Admits(s) && !s.broken && cut.Some? ==>
                  r.sent + r.buffered == (s.sent + s.buffered) + EncodePack(p)[..cut.value])
  {
    if Admits(s) && !s.broken {
      PassKeepsStream(s, Added(p, cut), passed);
    }
  }

  /** The packs of the writes of a run that are taken, in the order of the lock. */
  function TakenPacks(s: State, run: seq<Action>): seq<Pack>
    requires Possible(s, run)
    decreases |run|
  {
    if run == [] then []
    else (if Takes(s, run[0]) then [run[0].p] else []) + TakenPacks(Apply(s, run[0]), run[1..])
  }

  lemma {:induction false} AcceptedStep(s: State, a: Action)
    requires Enabled(s, a)
    ensures Apply(s, a).accepted == s.accepted + if Takes(s, a) then [a.p] else []
  {
    if a.Write? {
      WriteDoes(s, a.t, a.p, a.passed, a.cut);
    } else {
      assert s.accepted + [] == s.accepted;
    }
  }

  /** The accepted packs of every run are exactly those of its writes that were taken. */
  lemma {:induction false} AcceptedExactly(s: State, run: seq<Action>)
    requires Possible(s, run)
    ensures Exec(s, run).accepted == s.accepted + TakenPacks(s, run)
    decreases |run|
  {
    if run != [] {
      AcceptedStep(s, run[0]);
      AcceptedExactly(Apply(s, run[0]), run[1..]);
    }
  }

  /** The steps of Close, in order: the error is set, then the channel closed, then the status. */
  lemma {:induction false} CloseDoes(s: State, t: Thread)
    requires t in s.threads && s.threads[t] == SetError
    ensures var s1 := Apply(s, CloseStep(t));
            var s2 := Apply(s1, CloseStep(t));
            var s3 := Apply(s2, CloseStep(t));
            && s1.writeError && s2.writeError && !s2.open && s3.writeError && !s3.open && !s3.connected && t !in s3.threads
  {
  }

  lemma {:induction false} ErrorStep(s: State, a: Action)
    requires Enabled(s, a) && s.writeError
    ensures Apply(s, a).writeError && Apply(s, a).accepted == s.accepted
  {
    AcceptedStep(s, a);
    assert s.accepted + [] == s.accepted;
  }

  /** Once Close has set the error no pack is accepted any more. */
  lemma {:induction false} NothingAfterError(s: State, run: seq<Action>)
    requires Possible(s, run) && s.writeError
    ensures Exec(s, run).writeError && Exec(s, run).accepted == s.accepted
    decreases |run|
  {
    if run != [] {
      ErrorStep(s, run[0]);
      NothingAfterError(Apply(s, run[0]), run[1..]);
    }
  }

  /** The flusher sends all that is buffered and goes round again; it leaves for good on a queue that is no
      longer connected, on a connection that broke before, and when the flush breaks it. */
  lemma {:induction false} FlushDoes(s: State, cut: Option<nat>)
    requires s.flusher == Have && Enabled(s, FlusherFlush(cut))
    ensures var u := Apply(s, FlusherFlush(cut));
            if !s.connected || (s.buffered != [] && s.broken)
            then u.flusher == Exited && u.sent == s.sent && u.buffered == s.buffered && u.broken == s.broken
            else if s.buffered != [] && cut.Some?
            then u.flusher == Exited && u.broken && u.sent + u.buffered == s.sent + s.buffered && |u.sent| == |s.sent| + cut.value
            else u.flusher == Check && u.sent == s.sent + s.buffered && u.buffered == [] && u.broken == s.broken
  {
    if s.buffered == [] {
      assert s.sent + [] == s.sent;
    }
    if cut.Some? {
      PassKeepsStream(s, [], cut.value);
    }
  }

  /** A token sent is a token more, and a failed write goes on to close. */
  lemma {:induction false} SendDoes(s: State, t: Thread)
    requires SendEnabled(s, t)
    ensures var r := Apply(s, Send(t));
            && r.tokens == (if s.open then s.tokens + 1 else s.tokens)
            && (s.threads[t].failed || !s.open ==> t in r.threads && r.threads[t] == SetError)
            && (!s.threads[t].failed && s.open ==> t !in r.threads)
  {
  }

  /** The queue object; each method is one atomic section of the source. */
  class Queue {
    const size: nat
    var connected: bool
    var writeError: bool
    var tokens: nat
    var open: bool
    var held: bool
    var broken: bool
    var buffered: Bytes
    var sent: Bytes
    var flusher: FlusherPc
    var threads: map<Thread, Pc>
    ghost var accepted: seq<Pack>
    ghost var torn: Bytes

    ghost function View(): State
      reads this
    {
      State(size, connected, writeError, tokens, open, held, broken, buffered, sent, accepted, torn, threads, flusher)
    }

    constructor (size: nat)
      requires size > 0
      ensures Init(View()) && Inv(View()) && this.size == size
    {
      this.size := size;
      connected, writeError, tokens, open, held, broken := true, false, 0, true, false, false;
      buffered, sent, flusher, threads := [], [], Check, map[];
      accepted, torn := [], [];
    }

    /** The bufio.Writer takes bytes and passes some of what it then holds on to the connection. */
    method Append(bytes: Bytes, passed: nat)
      requires passed <= |buffered| + |bytes|
      modifies this`sent, this`buffered
      ensures View() == Pass(old(View()), bytes, passed)
    {
      var all := buffered + bytes;
      sent, buffered := sent + all[..passed], all[passed..];
    }

    /** WritePack under the lock; the goroutine then stands before its send, or panics into Close. */
    method WriteLocked(t: Thread, p: Pack, passed: nat, cut: Option<nat>) returns (refused: bool)
      requires Inv(View()) && WriteEnabled(View(), t, p, passed, cut)
      modifies this
      ensures View() == WriteEffect(old(View()), t, p, passed, cut) && Inv(View())
      ensures refused == !Admits(old(View()))
    {
      WriteKeepsInv(View(), t, p, passed, cut);
      refused := !connected || writeError || size - |buffered| <= 0;
      if refused {
        return;
      }
      if broken {
        threads := threads[t := SendToken(true)];
        return;
      }
      Append(Added(p, cut), passed);
      if cut.Some? {
        broken, torn := true, Added(p, cut);
        threads := threads[t := SendToken(true)];
        return;
      }
      if EncodeBody(p).Some? {
        accepted := accepted + [p];
        threads := threads[t := SendToken(false)];
      } else {
        held, torn := true, EncodePack(p);
        threads := threads[t := SetError];
      }
    }

    method Send(t: Thread)
      requires Inv(View()) && SendEnabled(View(), t)
      modifies this
      ensures View() == SendEffect(old(View()), t) && Inv(View())
    {
      SendKeepsInv(View(), t);
      var failed := threads[t].failed;
      if open {
        tokens := tokens + 1;
      }
      if failed || !open {
        threads := threads[t := SetError];
      } else {
        threads := threads - {t};
      }
    }

    method CloseStep(t: Thread)
      requires Inv(View()) && t in threads && !threads[t].SendToken?
      modifies this
      ensures View() == CloseEffect(old(View()), t) && Inv(View())
    {
      CloseKeepsInv(View(), t);
      match threads[t] {
        case SetError =>
          writeError, threads := true, threads[t := CloseChannel];
        case CloseChannel =>
          open, threads := false, threads[t := SetStatus];
        case SetStatus =>
          connected, threads := false, threads - {t};
      }
    }

    /** The flusher's locked section. */
    method Flush(cut: Option<nat>)
      requires Inv(View()) && Enabled(View(), FlusherFlush(cut))
      modifies this
      ensures View() == FlushEffect(old(View()), cut) && Inv(View())
    {
      FlushKeepsInv(View(), cut);
      if !connected {
        flusher := Exited;
      } else if |buffered| > 0 {
        if broken || cut.Some? {
          if !broken {
            Append([], cut.value);
            broken := true;
          }
          flusher := Exited;
        } else {
          sent, buffered := sent + buffered, [];
          flusher := Check;
        }
      } else {
        flusher := Check;
      }
    }
  }
}
