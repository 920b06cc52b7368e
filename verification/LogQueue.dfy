/** The asynchronous log: scratch buffers from a pool, copied messages in a channel, one worker that writes. */
module LogQueue {
  import opened Text

  type Line = seq<int>

  const POOL_CAPACITY := 256

  datatype Worker = Idle | Writing(id: nat) | Returning(id: nat)

  /** Who holds a buffer: the pool, a sender as scratch or as a message, the channel, the worker, or nobody. */
  datatype Holder = InPool | Scratch | Message | Queued | AtWorker | Dropped

  /** `queue` is None while the channel is nil; a panic ends the process. `holder`, `sent`, `out`, `enq` and `workerOut` keep account. */
  datatype State = State(
    heap: map<nat, Line>, next: nat, holder: map<nat, Holder>,
    pool: seq<nat>, inUse: set<nat>, sending: seq<nat>,
    queue: Option<seq<nat>>, capacity: nat, closed: bool,
    worker: Worker, done: bool, panicked: bool,
    sent: seq<Line>, out: seq<Line>, enq: seq<Line>, workerOut: seq<Line>)

  datatype Step =
    | Init(capacity: nat)
    | Get
    | Append(b: nat, text: Line)
    | Copy(b: nat)
    | PutBack(b: nat)
    | Deliver(i: nat)
    | Take | Write | Return | Exit
    | Close

  /** Sixty-four buffers are in the pool before any line is logged. */
  function Start(): State {
    var ids := seq(64, i => i);
    State(map i: nat | i in ids :: [], 64, map i: nat | i in ids :: InPool, ids, {}, [], None, 0, false,
          Idle, false, false, [], [], [], [])
  }

  function Queue(s: State): seq<nat> {
    match s.queue
    case Some(q) => q
    case None => []
  }

  predicate Enabled(s: State, step: Step) {
    !s.panicked &&
    match step
    case Init(capacity) => s.queue.None? && capacity > 0
    case Get => true
    case Append(b, _) => b in s.inUse && b in s.heap
    case Copy(b) => b in s.inUse && b in s.heap
    case PutBack(b) => b in s.inUse
    case Deliver(i) => i < |s.sending| && s.sending[i] in s.heap
    case Take => s.worker.Idle? && Queue(s) != []
    case Write => s.worker.Writing? && s.worker.id in s.heap
    case Return => s.worker.Returning?
    case Exit => s.worker.Idle? && s.closed && Queue(s) == [] && s.queue.Some?
    case Close => s.queue.Some?
  }

  /** `pool.put`: the buffer is emptied, and dropped when the pool is full. */
  function Put(s: State, b: nat): State {
    if |s.pool| < POOL_CAPACITY then
      s.(heap := s.heap[b := []], pool := s.pool + [b], holder := s.holder[b := InPool])
    else
      s.(heap := s.heap[b := []], holder := s.holder[b := Dropped])
  }

  function Do(s: State, step: Step): State
    requires Enabled(s, step)
  {
    match step
    case Init(capacity) => s.(queue := Some([]), capacity := capacity)
    case Get =>
      var b := if s.pool != [] then s.pool[0] else s.next;
      s.(next := if s.pool != [] then s.next else s.next + 1, pool := if s.pool != [] then s.pool[1..] else [],
         heap := s.heap[b := []], inUse := s.inUse + {b}, holder := s.holder[b := Scratch])
    case Append(b, text) => s.(heap := s.heap[b := s.heap[b] + text])
    case Copy(b) =>
      s.(next := s.next + 1, heap := s.heap[s.next := s.heap[b]], sending := s.sending + [s.next],
         holder := s.holder[s.next := Message], sent := s.sent + [s.heap[b]])
    case PutBack(b) => Put(s.(inUse := s.inUse - {b}), b)
    case Deliver(i) =>
      var m, rest := s.sending[i], s.sending[..i] + s.sending[i + 1..];
      if s.closed then s.(panicked := true)
      else if s.queue.Some? && |s.queue.value| < s.capacity then
        s.(sending := rest, queue := Some(s.queue.value + [m]), holder := s.holder[m := Queued],
           enq := s.enq + [s.heap[m]])
      else
        s.(sending := rest, holder := s.holder[m := Dropped], out := s.out + [s.heap[m]])
    case Take =>
      s.(queue := Some(Queue(s)[1..]), worker := Writing(Queue(s)[0]), holder := s.holder[Queue(s)[0] := AtWorker])
    case Write =>
      s.(out := s.out + [s.heap[s.worker.id]], workerOut := s.workerOut + [s.heap[s.worker.id]],
         worker := Returning(s.worker.id))
    case Return => Put(s.(worker := Idle), s.worker.id)
    case Exit => s.(done := true)
    case Close => if s.closed then s.(panicked := true) else s.(closed := true)
  }

  // ---- Invariants ---------------------------------------------------------

  ghost predicate Held(s: State, id: nat, h: Holder) {
    id in s.holder && s.holder[id] == h && id in s.heap && id < s.next
  }

  ghost predicate AllHeld(s: State, ids: seq<nat>, h: Holder) {
    && (forall i | 0 <= i < |ids| :: Held(s, ids[i], h))
    && (forall i, j | 0 <= i < j < |ids| :: ids[i] != ids[j])
  }

  /** Every buffer in a list, a set or the worker's hands is held once, and as just that. */
  ghost predicate Owned(s: State) {
    && AllHeld(s, s.pool, InPool) && AllHeld(s, s.sending, Message) && AllHeld(s, Queue(s), Queued)
    && (forall id | id in s.inUse :: Held(s, id, Scratch))
    && (!s.worker.Idle? ==> Held(s, s.worker.id, AtWorker))
  }

  function Lines(heap: map<nat, Line>, ids: seq<nat>): seq<Line> {
    seq(|ids|, i requires 0 <= i < |ids| => if ids[i] in heap then heap[ids[i]] else [])
  }

  /** The line the worker has taken and not yet written. */
  function Taken(s: State): seq<Line> {
    if s.worker.Writing? then Lines(s.heap, [s.worker.id]) else []
  }

  /** Lines sent are lines written, lines on their way, lines queued and the line being written. */
  ghost predicate Conserved(s: State) {
    Balanced(s.sent, s.out, Lines(s.heap, s.sending), Lines(s.heap, Queue(s)), Taken(s))
  }

  ghost predicate Balanced<T>(sent: seq<T>, out: seq<T>, sending: seq<T>, queued: seq<T>, taken: seq<T>) {
    multiset(sent) == multiset(out) + multiset(sending) + multiset(queued) + multiset(taken)
  }

  /** The worker writes queued lines in the order they were queued, with the contents they were sent with. */
  ghost predicate Fifo(s: State) {
    s.enq == s.workerOut + Taken(s) + Lines(s.heap, Queue(s))
  }

  ghost predicate Flow(s: State) {
    && (s.queue.None? ==> s.worker.Idle? && !s.closed && !s.done)
    && (s.done ==> s.closed && Queue(s) == [] && s.worker.Idle?)
  }

  ghost predicate Inv(s: State) {
    Owned(s) && Conserved(s) && Fifo(s) && Flow(s)
  }

  // ---- Ownership ----------------------------------------------------------

  lemma {:induction false} GetOwned(s: State)
    requires Owned(s) && !s.panicked
    ensures Owned(Do(s, Get))
  {
  }

  lemma {:induction false} CopyOwned(s: State, b: nat)
    requires Owned(s) && Enabled(s, Copy(b))
    ensures Owned(Do(s, Copy(b)))
  {
  }

  /** Putting back a buffer that its holder has just let go of. */
  lemma {:induction false} PutOwned(s: State, t: State, b: nat)
    requires Owned(s) && b in s.holder && s.holder[b] in {Scratch, AtWorker} && b in s.heap && b < s.next
    requires t == s.(inUse := t.inUse, worker := t.worker)
    requires t.inUse == s.inUse - {b} && (t.worker == s.worker || t.worker.Idle?)
    requires !t.worker.Idle? ==> t.worker.id != b
    ensures Owned(Put(t, b))
  {
    assert b !in s.pool && b !in s.sending && b !in Queue(s);
    var s' := Put(t, b);
    StillHeld(s, s', s.pool, InPool, b);
    StillHeld(s, s', s.sending, Message, b);
    StillHeld(s, s', Queue(s), Queued, b);
    if |s.pool| < POOL_CAPACITY {
      HeldSnoc(s', s.pool, b);
    }
    forall id | id in t.inUse ensures Held(s', id, Scratch) {
      assert Held(s, id, Scratch);
    }
  }

  lemma {:induction false} HeldSnoc(s: State, ids: seq<nat>, b: nat)
    requires AllHeld(s, ids, InPool) && Held(s, b, InPool) && b !in ids
    ensures AllHeld(s, ids + [b], InPool)
  {
  }

  /** A list keeps its holder while another buffer changes hands. */
  lemma {:induction false} StillHeld(s: State, s': State, ids: seq<nat>, h: Holder, b: nat)
    requires AllHeld(s, ids, h) && b !in ids && s.heap.Keys <= s'.heap.Keys && s.next <= s'.next
    requires forall id | id in s.holder && id != b :: id in s'.holder && s'.holder[id] == s.holder[id]
    ensures AllHeld(s', ids, h)
  {
    forall i | 0 <= i < |ids| ensures Held(s', ids[i], h) {
      assert Held(s, ids[i], h);
    }
  }

  lemma {:induction false} DeliverOwned(s: State, i: nat)
    requires Owned(s) && Enabled(s, Deliver(i)) && !s.closed
    ensures Owned(Do(s, Deliver(i)))
  {
    var s', m := Do(s, Deliver(i)), s.sending[i];
    assert Held(s, m, Message) && m !in s.pool && m !in Queue(s);
    Without(s, i);
    StillHeld(s, s', s'.sending, Message, m);
    StillHeld(s, s', s.pool, InPool, m);
    StillHeld(s, s', Queue(s), Queued, m);
  }

  lemma {:induction false} Without(s: State, i: nat)
    requires AllHeld(s, s.sending, Message) && i < |s.sending|
    ensures var rest := s.sending[..i] + s.sending[i + 1..]; AllHeld(s, rest, Message) && s.sending[i] !in rest
  {
  }

  lemma {:induction false} TakeOwned(s: State)
    requires Owned(s) && Enabled(s, Take)
    ensures Owned(Do(s, Take))
  {
  }

  lemma {:induction false} OwnedSame(s: State, s': State)
    requires Owned(s) && s'.holder == s.holder && s.heap.Keys <= s'.heap.Keys && s'.next == s.next
    requires s'.pool == s.pool && s'.sending == s.sending && Queue(s') == Queue(s) && s'.inUse == s.inUse
    requires s'.worker == s.worker || (!s.worker.Idle? && !s'.worker.Idle? && s.worker.id == s'.worker.id)
    ensures Owned(s')
  {
  }

  lemma {:induction false} OwnedStep(s: State, step: Step)
    requires Owned(s) && Enabled(s, step)
    ensures Owned(Do(s, step))
  {
    match step
    case Get => GetOwned(s);
    case Copy(b) => CopyOwned(s, b);
    case PutBack(b) =>
      assert Held(s, b, Scratch);
      PutOwned(s, s.(inUse := s.inUse - {b}), b);
    case Deliver(i) =>
      if s.closed {
        OwnedSame(s, Do(s, step));
      } else {
        DeliverOwned(s, i);
      }
    case Take => TakeOwned(s);
    case Return =>
      assert s.worker.id !in s.inUse;
      assert s.inUse - {s.worker.id} == s.inUse;
      PutOwned(s, s.(worker := Idle), s.worker.id);
    case _ => OwnedSame(s, Do(s, step));
  }

  lemma {:induction false} FlowStep(s: State, step: Step)
    requires Flow(s) && Enabled(s, step)
    ensures Flow(Do(s, step))
  {
  }

  // ---- Contents -----------------------------------------------------------

  /** Changing buffers that a list does not hold leaves its lines alone. */
  lemma {:induction false} LinesFrame(heap: map<nat, Line>, heap': map<nat, Line>, ids: seq<nat>, b: nat)
    requires b !in ids && forall id | id != b :: (id in heap <==> id in heap') && (id in heap ==> heap[id] == heap'[id])
    ensures Lines(heap, ids) == Lines(heap', ids)
  {
  }

  /** A buffer outside the channel, the senders' messages and the worker's hands holds no line in flight. */
  ghost predicate Unused(s: State, b: nat) {
    b !in s.sending && b !in Queue(s) && !(s.worker.Writing? && s.worker.id == b)
  }

  lemma {:induction false} ContentsFrame(s: State, s': State, b: nat)
    requires Conserved(s) && Fifo(s) && Unused(s, b)
    requires forall id | id != b :: (id in s.heap <==> id in s'.heap) && (id in s.heap ==> s.heap[id] == s'.heap[id])
    requires s'.sending == s.sending && Queue(s') == Queue(s)
    requires s'.worker == s.worker || (!s.worker.Writing? && !s'.worker.Writing?)
    requires s'.sent == s.sent && s'.out == s.out && s'.enq == s.enq && s'.workerOut == s.workerOut
    ensures Conserved(s') && Fifo(s')
  {
    LinesFrame(s.heap, s'.heap, s.sending, b);
    LinesFrame(s.heap, s'.heap, Queue(s), b);
    if s.worker.Writing? {
      LinesFrame(s.heap, s'.heap, [s.worker.id], b);
    }
  }

  /** A buffer in the pool, in use as scratch or done with by the worker carries no line in flight. */
  lemma {:induction false} HeldElsewhere(s: State, b: nat)
    requires Owned(s)
    requires b in s.pool || b in s.inUse || (s.worker.Returning? && s.worker.id == b) || b == s.next
    ensures Unused(s, b)
  {
  }

  lemma {:induction false} LinesSnoc(heap: map<nat, Line>, ids: seq<nat>, m: nat)
    requires m in heap
    ensures Lines(heap, ids + [m]) == Lines(heap, ids) + [heap[m]]
  {
  }

  lemma {:induction false} LinesTakeOut(heap: map<nat, Line>, ids: seq<nat>, i: nat)
    requires i < |ids| && ids[i] in heap
    ensures multiset(Lines(heap, ids)) == multiset(Lines(heap, ids[..i] + ids[i + 1..])) + multiset{heap[ids[i]]}
  {
    var ls := Lines(heap, ids);
    assert ls == ls[..i] + [heap[ids[i]]] + ls[i + 1..];
    assert Lines(heap, ids[..i] + ids[i + 1..]) == ls[..i] + ls[i + 1..];
  }

  lemma {:induction false} CopyStep(s: State, b: nat)
    requires Inv(s) && Enabled(s, Copy(b))
    ensures Conserved(Do(s, Copy(b))) && Fifo(Do(s, Copy(b)))
  {
    var s' := Do(s, Copy(b));
    HeldElsewhere(s, s.next);
    var mid := s.(heap := s'.heap, next := s'.next);
    ContentsFrame(s, mid, s.next);
    LinesSnoc(s'.heap, s.sending, s.next);
    BalanceSend(s.sent, s.out, Lines(s'.heap, s.sending), Lines(s'.heap, Queue(s)), Taken(mid), s.heap[b]);
  }

  lemma {:induction false} BalanceSend<T>(sent: seq<T>, out: seq<T>, a: seq<T>, q: seq<T>, w: seq<T>, x: T)
    requires Balanced(sent, out, a, q, w)
    ensures Balanced(sent + [x], out, a + [x], q, w)
  {
  }

  lemma {:induction false} BalanceDeliver<T>(
    sent: seq<T>, out: seq<T>, a: seq<T>, a': seq<T>, q: seq<T>, w: seq<T>, x: T)
    requires Balanced(sent, out, a, q, w) && multiset(a) == multiset(a') + multiset{x}
    ensures Balanced(sent, out, a', q + [x], w) && Balanced(sent, out + [x], a', q, w)
  {
  }

  lemma {:induction false} BalanceTake<T>(sent: seq<T>, out: seq<T>, a: seq<T>, q: seq<T>, x: T)
    requires Balanced(sent, out, a, [x] + q, [])
    ensures Balanced(sent, out, a, q, [x])
  {
  }

  lemma {:induction false} BalanceWrite<T>(sent: seq<T>, out: seq<T>, a: seq<T>, q: seq<T>, x: T)
    requires Balanced(sent, out, a, q, [x])
    ensures Balanced(sent, out + [x], a, q, [])
  {
  }

  lemma {:induction false} DeliverStep(s: State, i: nat)
    requires Inv(s) && Enabled(s, Deliver(i)) && !s.closed
    ensures Conserved(Do(s, Deliver(i))) && Fifo(Do(s, Deliver(i)))
  {
    var m, rest, q := s.sending[i], s.sending[..i] + s.sending[i + 1..], Queue(s);
    LinesTakeOut(s.heap, s.sending, i);
    BalanceDeliver(s.sent, s.out, Lines(s.heap, s.sending), Lines(s.heap, rest), Lines(s.heap, q), Taken(s), s.heap[m]);
    LinesSnoc(s.heap, q, m);
    var s' := Do(s, Deliver(i));
    assert s'.heap == s.heap && Taken(s') == Taken(s) && s'.sending == rest;
    if s.queue.Some? && |s.queue.value| < s.capacity {
      var a, b := s.workerOut + Taken(s), Lines(s.heap, q);
      assert a + b + [s.heap[m]] == a + (b + [s.heap[m]]);
    }
  }

  lemma {:induction false} LinesHead(heap: map<nat, Line>, q: seq<nat>)
    requires q != [] && q[0] in heap
    ensures Lines(heap, q) == [heap[q[0]]] + Lines(heap, q[1..]) && Lines(heap, [q[0]]) == [heap[q[0]]]
  {
  }

  lemma {:induction false} TakeStep(s: State)
    requires Inv(s) && Enabled(s, Take)
    ensures Conserved(Do(s, Take)) && Fifo(Do(s, Take))
  {
    var q := Queue(s);
    assert Held(s, q[0], Queued);
    LinesHead(s.heap, q);
    var x, rest := s.heap[q[0]], Lines(s.heap, q[1..]);
    BalanceTake(s.sent, s.out, Lines(s.heap, s.sending), rest, x);
    assert s.workerOut + [] + ([x] + rest) == s.workerOut + [x] + rest;
  }

  lemma {:induction false} WriteStep(s: State)
    requires Inv(s) && Enabled(s, Write)
    ensures Conserved(Do(s, Write)) && Fifo(Do(s, Write))
  {
    var x, q := s.heap[s.worker.id], Lines(s.heap, Queue(s));
    assert Taken(s) == [x];
    BalanceWrite(s.sent, s.out, Lines(s.heap, s.sending), q, x);
    assert s.workerOut + [x] + q == (s.workerOut + [x]) + [] + q;
  }

  lemma {:induction false} GetStep(s: State)
    requires Inv(s) && !s.panicked
    ensures Conserved(Do(s, Get)) && Fifo(Do(s, Get))
  {
    if s.pool != [] {
      HeldElsewhere(s, s.pool[0]);
      ContentsFrame(s, Do(s, Get), s.pool[0]);
    } else {
      HeldElsewhere(s, s.next);
      ContentsFrame(s, Do(s, Get), s.next);
    }
  }

  lemma {:induction false} BufferStep(s: State, b: nat, step: Step)
    requires Inv(s) && Enabled(s, step)
    requires (step.Append? && step.b == b) || step == PutBack(b)
    ensures Conserved(Do(s, step)) && Fifo(Do(s, step))
  {
    HeldElsewhere(s, b);
    ContentsFrame(s, Do(s, step), b);
  }

  lemma {:induction false} ReturnStep(s: State)
    requires Inv(s) && Enabled(s, Return)
    ensures Conserved(Do(s, Return)) && Fifo(Do(s, Return))
  {
    HeldElsewhere(s, s.worker.id);
    ContentsFrame(s, Do(s, Return), s.worker.id);
  }

  lemma {:induction false} ContentsStep(s: State, step: Step)
    requires Inv(s) && Enabled(s, step)
    ensures Conserved(Do(s, step)) && Fifo(Do(s, step))
  {
    match step
    case Get => GetStep(s);
    case Append(b, _) => BufferStep(s, b, step);
    case Copy(b) => CopyStep(s, b);
    case PutBack(b) => BufferStep(s, b, step);
    case Deliver(i) =>
      if !s.closed {
        DeliverStep(s, i);
      }
    case Take => TakeStep(s);
    case Write => WriteStep(s);
    case Return => ReturnStep(s);
    case _ =>
      var s' := Do(s, step);
      assert Queue(s') == Queue(s) && Taken(s') == Taken(s);
  }

  /** Every step of every thread keeps the invariant. */
  lemma {:induction false} InvStep(s: State, step: Step)
    requires Inv(s) && Enabled(s, step)
    ensures Inv(Do(s, step))
  {
    OwnedStep(s, step);
    FlowStep(s, step);
    ContentsStep(s, step);
  }

  // ---- Whole runs ---------------------------------------------------------

  predicate IsRun(s: State, steps: seq<Step>)
    decreases |steps|
  {
    steps == [] || (Enabled(s, steps[0]) && IsRun(Do(s, steps[0]), steps[1..]))
  }

  function After(s: State, steps: seq<Step>): State
    requires IsRun(s, steps)
    decreases |steps|
  {
    if steps == [] then s else After(Do(s, steps[0]), steps[1..])
  }

  lemma {:induction false} StartInv()
    ensures Inv(Start())
  {
  }

  lemma {:induction false} InvRun(s: State, steps: seq<Step>)
    requires Inv(s) && IsRun(s, steps)
    ensures Inv(After(s, steps))
    decreases |steps|
  {
    if steps != [] {
      InvStep(s, steps[0]);
      InvRun(Do(s, steps[0]), steps[1..]);
    }
  }

  /** In every interleaving lines are conserved, queued lines are written in order, and no buffer is shared. */
  lemma {:induction false} LogRun(steps: seq<Step>)
    requires IsRun(Start(), steps)
    ensures var s := After(Start(), steps); Conserved(s) && Fifo(s) && Owned(s)
    ensures var s := After(Start(), steps);
            forall id | id in Queue(s) :: id !in s.pool && id !in s.inUse
  {
    StartInv();
    InvRun(Start(), steps);
    var s := After(Start(), steps);
    forall id | id in Queue(s) ensures id !in s.pool && id !in s.inUse {
      if id in s.pool || id in s.inUse {
        HeldElsewhere(s, id);
      }
    }
  }

  /**
   * When the worker is done everything queued has been written in order; the lines not written are those of senders
   * between copy and send, so nothing is missing exactly when there is none.
   */
  lemma {:induction false} FlushComplete(steps: seq<Step>)
    requires IsRun(Start(), steps) && After(Start(), steps).done
    ensures var s := After(Start(), steps);
            && Queue(s) == [] && s.workerOut == s.enq
            && multiset(s.sent) == multiset(s.out) + multiset(Lines(s.heap, s.sending))
            && (multiset(s.sent) == multiset(s.out) <==> s.sending == [])
  {
    StartInv();
    InvRun(Start(), steps);
    var s := After(Start(), steps);
    assert Lines(s.heap, []) == [];
    var left := Lines(s.heap, s.sending);
    assert |multiset(s.sent)| == |multiset(s.out)| + |left|;
  }

  // ---- Capacities ---------------------------------------------------------

  /** Neither channel holds more than it was made for. */
  ghost predicate Bounded(s: State) {
    |s.pool| <= 256 && |Queue(s)| <= s.capacity
  }

  lemma {:induction false} BoundedStep(s: State, step: Step)
    requires Inv(s) && Bounded(s) && Enabled(s, step)
    ensures Bounded(Do(s, step))
  {
  }

  lemma {:induction false} BoundedRun(s: State, steps: seq<Step>)
    requires Inv(s) && Bounded(s) && IsRun(s, steps)
    ensures Inv(After(s, steps)) && Bounded(After(s, steps))
    decreases |steps|
  {
    if steps != [] {
      InvStep(s, steps[0]);
      BoundedStep(s, steps[0]);
      BoundedRun(Do(s, steps[0]), steps[1..]);
    }
  }

  lemma {:induction false} Reached(steps: seq<Step>)
    requires IsRun(Start(), steps)
    ensures Inv(After(Start(), steps)) && Bounded(After(Start(), steps))
  {
    StartInv();
    BoundedRun(Start(), steps);
  }

  lemma {:induction false} DeliverPlaces(s: State, i: nat)
    requires Bounded(s) && Enabled(s, Deliver(i)) && !s.closed
    ensures var s', m := Do(s, Deliver(i)), s.sending[i];
            && (s'.out == s.out + [s.heap[m]] <==> s.queue.None? || |Queue(s)| == s.capacity)
            && (s'.out == s.out && Queue(s') == Queue(s) + [m] <==> s.queue.Some? && |Queue(s)| < s.capacity)
  {
  }

  /** In every run a sender writes its line itself exactly if there is no channel or it is full, and queues it otherwise. */
  lemma {:induction false} SenderWritesIffFull(steps: seq<Step>, i: nat)
    requires IsRun(Start(), steps) && Enabled(After(Start(), steps), Deliver(i)) && !After(Start(), steps).closed
    ensures var s := After(Start(), steps);
            var s', m := Do(s, Deliver(i)), s.sending[i];
            && (s'.out == s.out + [s.heap[m]] <==> s.queue.None? || |Queue(s)| == s.capacity)
            && (s'.out == s.out && Queue(s') == Queue(s) + [m] <==> s.queue.Some? && |Queue(s)| < s.capacity)
  {
    Reached(steps);
    DeliverPlaces(After(Start(), steps), i);
  }

  lemma {:induction false} PoolKeeps(s: State, b: nat)
    requires Inv(s) && !s.panicked
    ensures Do(s, Get).next != s.next <==> s.pool == []
    ensures b in s.inUse ==> (b in Do(s, PutBack(b)).pool <==> |s.pool| < 256)
  {
    if b in s.inUse {
      assert Held(s, b, Scratch);
      assert b !in s.pool;
    }
  }

  /** A buffer is made only if the pool is empty, and one put back is kept exactly if the pool has fewer than 256. */
  lemma {:induction false} PoolReuses(steps: seq<Step>, b: nat)
    requires IsRun(Start(), steps) && !After(Start(), steps).panicked
    ensures var s := After(Start(), steps);
            && (Do(s, Get).next != s.next <==> s.pool == [])
            && (b in s.inUse ==> (b in Do(s, PutBack(b)).pool <==> |s.pool| < 256))
  {
    Reached(steps);
    PoolKeeps(After(Start(), steps), b);
  }

  // ---- Without a writer ---------------------------------------------------

  predicate NeverStarted(steps: seq<Step>) {
    forall i | 0 <= i < |steps| :: !steps[i].Init?
  }

  /** No channel, so nobody but the senders has written anything. */
  ghost predicate Synchronous(s: State) {
    s.queue.None? && s.worker.Idle? && !s.closed && !s.done && !s.panicked && s.enq == [] && s.workerOut == []
  }

  lemma {:induction false} SynchronousRun(s: State, steps: seq<Step>)
    requires Synchronous(s) && IsRun(s, steps) && NeverStarted(steps)
    ensures Synchronous(After(s, steps))
    decreases |steps|
  {
    if steps != [] {
      SynchronousRun(Do(s, steps[0]), steps[1..]);
    }
  }

  /**
   * While the writer has not been started, as in the program as it stands, nothing is queued, nothing closes and
   * nothing panics, and every line sent has been written by its sender or is still with it.
   */
  lemma {:induction false} WithoutInit(steps: seq<Step>)
    requires IsRun(Start(), steps) && NeverStarted(steps)
    ensures var s := After(Start(), steps);
            && Queue(s) == [] && !s.closed && !s.panicked && s.enq == []
            && multiset(s.sent) == multiset(s.out) + multiset(Lines(s.heap, s.sending))
  {
    LogRun(steps);
    SynchronousRun(Start(), steps);
    var s := After(Start(), steps);
    assert Lines(s.heap, []) == [];
  }

  // ---- Sending after the flush began --------------------------------------

  predicate Sends(steps: seq<Step>) {
    exists i :: 0 <= i < |steps| && (steps[i].Deliver? || steps[i].Close?)
  }

  lemma {:induction false} SendsRest(steps: seq<Step>)
    requires steps != [] && !steps[0].Deliver? && !steps[0].Close?
    ensures Sends(steps) <==> Sends(steps[1..])
  {
    var rest := steps[1..];
    if Sends(steps) {
      var i :| 0 <= i < |steps| && (steps[i].Deliver? || steps[i].Close?);
      assert rest[i - 1] == steps[i];
    }
    if Sends(rest) {
      var i :| 0 <= i < |rest| && (rest[i].Deliver? || rest[i].Close?);
      assert steps[i + 1] == rest[i];
    }
  }

  /** Once the channel is closed a run panics exactly if it sends a line or flushes again. */
  lemma {:induction false} PanicsIffSends(s: State, steps: seq<Step>)
    requires s.closed && !s.panicked && IsRun(s, steps)
    ensures After(s, steps).panicked <==> Sends(steps)
    decreases |steps|
  {
    if steps != [] {
      var s', rest := Do(s, steps[0]), steps[1..];
      if s'.panicked {
        assert rest == [];
      } else {
        PanicsIffSends(s', rest);
        SendsRest(steps);
      }
    }
  }

  predicate NoNewSend(steps: seq<Step>) {
    forall i | 0 <= i < |steps| :: !steps[i].Copy? && !steps[i].Close?
  }

  ghost predicate CanPanic(s: State, steps: seq<Step>) {
    IsRun(s, steps) && NoNewSend(steps) && After(s, steps).panicked
  }

  /** With no line copied later and no second flush, a panic can come exactly if a sender is between copy and send. */
  lemma {:induction false} PanicIffSenderLeft(s: State)
    requires Inv(s) && s.closed && !s.panicked
    ensures (exists steps :: CanPanic(s, steps)) <==> s.sending != []
  {
    if s.sending != [] {
      assert Held(s, s.sending[0], Message);
      RunOne(s, Deliver(0));
      assert CanPanic(s, [Deliver(0)]);
    } else {
      forall steps ensures !CanPanic(s, steps) {
        if IsRun(s, steps) && NoNewSend(steps) {
          NobodySends(s, steps);
        }
      }
    }
  }

  lemma {:induction false} NobodySends(s: State, steps: seq<Step>)
    requires s.sending == [] && s.closed && !s.panicked && IsRun(s, steps) && NoNewSend(steps)
    ensures !After(s, steps).panicked
    decreases |steps|
  {
    if steps != [] {
      NobodySends(Do(s, steps[0]), steps[1..]);
    }
  }

  /** A line logged after the flush began always can. */
  lemma {:induction false} LateLinePanics(s: State) returns (steps: seq<Step>)
    requires Inv(s) && s.closed && !s.panicked
    ensures IsRun(s, steps) && After(s, steps).panicked
  {
    var b := if s.pool != [] then s.pool[0] else s.next;
    var s1 := Do(s, Get);
    var s2 := Do(s1, Copy(b));
    var send := Deliver(|s1.sending|);
    steps := [Get, Copy(b), send];
    RunOne(s2, send);
    RunMore(s1, Copy(b), [send]);
    RunMore(s, Get, [Copy(b), send]);
  }

  lemma {:induction false} RunOne(s: State, a: Step)
    requires Enabled(s, a)
    ensures IsRun(s, [a]) && After(s, [a]) == Do(s, a)
  {
    RunMore(s, a, []);
  }

  lemma {:induction false} RunMore(s: State, a: Step, rest: seq<Step>)
    requires Enabled(s, a) && IsRun(Do(s, a), rest)
    ensures IsRun(s, [a] + rest) && After(s, [a] + rest) == After(Do(s, a), rest)
  {
    assert ([a] + rest)[1..] == rest;
  }

  function Remaining(s: State): nat {
    3 * |Queue(s)| + match s.worker case Idle => 0 case Returning(_) => 1 case Writing(_) => 2
  }

  /** Once the channel is closed the worker alone reaches its exit, in three steps a line. */
  lemma {:induction false} FlushEnds(s: State) returns (steps: seq<Step>)
    requires Inv(s) && s.closed && !s.done && !s.panicked
    ensures IsRun(s, steps) && After(s, steps).done
    decreases Remaining(s)
  {
    var step := WorkerStep(s);
    InvStep(s, step);
    if step.Exit? {
      steps := [Exit];
      RunOne(s, Exit);
    } else {
      var rest := FlushEnds(Do(s, step));
      steps := [step] + rest;
      RunMore(s, step, rest);
    }
  }

  lemma {:induction false} WorkerStep(s: State) returns (step: Step)
    requires Inv(s) && s.closed && !s.done && !s.panicked
    ensures Enabled(s, step) && Do(s, step).closed && !Do(s, step).panicked
    ensures step.Exit? || (!Do(s, step).done && Remaining(Do(s, step)) < Remaining(s))
    ensures step.Exit? ==> Do(s, step).done
  {
    step := match s.worker
      case Writing(_) => Write
      case Returning(_) => Return
      case Idle => if Queue(s) != [] then Take else Exit;
  }
}
