/**
 The bounded single-producer single-consumer ring queue as a step system: the producer runs `emplace`
 and `try_emplace`, the consumer `front` and `pop`, either may call `size`, and their steps interleave
 freely. Each side decides from a cached, possibly stale, copy of the other side's index.

 `written`, `read`, `readSeen` and `writeSeen` are history: the indices and their caches without
 wrap-around. `items` is every value ever written, in order.
 */
module SpscQueue {
  import opened Wrappers
  import Arithmetic

  const SIZE_MAX: nat := 0xFFFF_FFFF_FFFF_FFFF

  /** The internal capacity the constructor computes, in 64-bit arithmetic. */
  function InternalCapacity(requested: nat, padding: nat): nat
    requires requested <= SIZE_MAX && 2 * padding <= SIZE_MAX
  {
    var c := ((if requested < 1 then 1 else requested) + 1) % (SIZE_MAX + 1);
    if c > SIZE_MAX - 2 * padding then SIZE_MAX - 2 * padding else c
  }

  /** What `capacity()` returns: one less, in 64-bit arithmetic. */
  function ReportedCapacity(requested: nat, padding: nat): nat
    requires requested <= SIZE_MAX && 2 * padding <= SIZE_MAX
  {
    (InternalCapacity(requested, padding) - 1) % (SIZE_MAX + 1)
  }

  /** The ring has the two slots it needs, and one more than is reported, exactly if the request is not the largest
      value of the type. For that one the slack element wraps the internal capacity to zero, and yet the request is
      reported. Otherwise at least one is reported, and what was asked for when that fits. */
  lemma CapacityRule(requested: nat, padding: nat)
    requires requested <= SIZE_MAX && 1 <= padding && 2 * padding + 2 <= SIZE_MAX
    ensures var internal, reported := InternalCapacity(requested, padding), ReportedCapacity(requested, padding);
      && (internal >= 2 <==> requested != SIZE_MAX) && (internal == reported + 1 <==> requested != SIZE_MAX)
      && (requested == SIZE_MAX ==> internal == 0 && reported == SIZE_MAX)
      && (requested < SIZE_MAX ==> 1 <= reported <= SIZE_MAX - 2 * padding - 1)
      && (1 <= requested < SIZE_MAX - 2 * padding ==> reported == requested)
      && (SIZE_MAX - 2 * padding <= requested < SIZE_MAX ==> reported == SIZE_MAX - 2 * padding - 1)
  {}

  datatype ProducerPc<T> =
    | PIdle
    | PCheck(v: T, blocking: bool)        // compare the next index with the cached read index
    | PRefresh(v: T, blocking: bool)      // reload the cache from the read index
    | PConstruct(v: T)
    | PPublish(v: T)                      // store the write index
    | PSizeWrite                          // size(): load the write index
    | PSizeRead(w: nat)                   //   load the read index

  datatype ConsumerPc =
    | CIdle(mayPop: bool)                 // front returned non-null since the last pop
    | CCheck                              // front: compare the read index with the cached write index
    | CRefresh                            //   reload the cache from the write index
    | CDestroy                            // pop: destroy the front element
    | CAdvance                            //   store the read index
    | CSizeWrite(mayPop: bool)            // size(): load the write index
    | CSizeRead(mayPop: bool, w: nat, held: int)

  datatype State<T> = State(
    capacity: nat,
    writeIdx: nat,
    readIdx: nat,
    readCache: nat,
    writeCache: nat,
    slots: seq<Option<T>>,
    producer: ProducerPc<T>,
    consumer: ConsumerPc,
    written: nat,
    read: nat,
    readSeen: nat,
    writeSeen: nat,
    items: seq<T>)

  // ---------------------------------------------------------------------------------- steps

  predicate Init<T>(s: State<T>) {
    && s.capacity >= 2 && |s.slots| == s.capacity && (forall i :: 0 <= i < s.capacity ==> s.slots[i] == None)
    && s.writeIdx == s.readIdx == s.readCache == s.writeCache == 0
    && s.written == s.read == s.readSeen == s.writeSeen == 0 && s.items == []
    && s.producer == PIdle && s.consumer == CIdle(false)
  }

  predicate Shape<T>(s: State<T>) {
    s.capacity >= 2 && |s.slots| == s.capacity && s.writeIdx < s.capacity && s.readIdx < s.capacity
  }

  function Succ(i: nat, capacity: nat): nat { if i + 1 == capacity then 0 else i + 1 }

  /** What size() computes from the two indices it loaded. */
  function SizeOf(w: nat, r: nat, capacity: nat): int { if w - r < 0 then w - r + capacity else w - r }

  function ProducerStep<T>(s: State<T>): State<T>
    requires Shape(s)
  {
    var next := Succ(s.writeIdx, s.capacity);
    match s.producer
    case PIdle => s
    case PCheck(v, b) => s.(producer := if next == s.readCache then PRefresh(v, b) else PConstruct(v))
    case PRefresh(v, b) =>
      s.(readCache := s.readIdx, readSeen := s.read,
         producer := if next != s.readIdx then PConstruct(v) else if b then PRefresh(v, b) else PIdle)
    case PConstruct(v) => s.(slots := s.slots[s.writeIdx := Some(v)], producer := PPublish(v))
    case PPublish(v) => s.(writeIdx := next, written := s.written + 1, items := s.items + [v], producer := PIdle)
    case PSizeWrite => s.(producer := PSizeRead(s.writeIdx))
    case PSizeRead(_) => s.(producer := PIdle)
  }

  function ConsumerStep<T>(s: State<T>): State<T>
    requires Shape(s)
  {
    match s.consumer
    case CIdle(_) => s
    case CCheck => s.(consumer := if s.readIdx == s.writeCache then CRefresh else CIdle(true))
    case CRefresh => s.(writeCache := s.writeIdx, writeSeen := s.written, consumer := CIdle(s.writeIdx != s.readIdx))
    case CDestroy => s.(slots := s.slots[s.readIdx := None], consumer := CAdvance)
    case CAdvance => s.(readIdx := Succ(s.readIdx, s.capacity), read := s.read + 1, consumer := CIdle(false))
    case CSizeWrite(m) => s.(consumer := CSizeRead(m, s.writeIdx, s.written - s.read))
    case CSizeRead(m, _, _) => s.(consumer := CIdle(m))
  }

  /** Calls: `pop` is only called after a `front` that returned non-null since the previous `pop`. */
  ghost predicate Called<T>(s: State<T>, s': State<T>) {
    || (s.producer == PIdle && s'.producer.PCheck? && s' == s.(producer := s'.producer))
    || (s.producer == PIdle && s' == s.(producer := PSizeWrite))
    || (s.consumer.CIdle? && s' == s.(consumer := CCheck))
    || (s.consumer == CIdle(true) && s' == s.(consumer := CDestroy))
    || (s.consumer.CIdle? && s' == s.(consumer := CSizeWrite(s.consumer.mayPop)))
  }

  ghost predicate Next<T>(s: State<T>, s': State<T>) {
    Shape(s) && (s' == ProducerStep(s) || s' == ConsumerStep(s) || Called(s, s'))
  }

  ghost predicate StepAt<T>(run: seq<State<T>>, i: nat) { i + 1 < |run| && Next(run[i], run[i + 1]) }

  ghost predicate IsRun<T>(run: seq<State<T>>) {
    && |run| > 0
    && Init(run[0])
    && forall i: nat :: i + 1 < |run| ==> StepAt(run, i)
  }

  // ------------------------------------------------------------------------------ invariant

  /** The caches lag behind the indices they copy; fewer than `capacity` elements are unread as the producer sees it. */
  predicate CountersInv<T>(s: State<T>) {
    && s.readSeen <= s.read <= s.writeSeen <= s.written < s.readSeen + s.capacity
    && |s.items| == s.written
    && s.writeIdx == s.written % s.capacity && s.readIdx == s.read % s.capacity
    && s.readCache == s.readSeen % s.capacity && s.writeCache == s.writeSeen % s.capacity
  }

  predicate ThreadsInv<T>(s: State<T>) {
    && (s.producer.PConstruct? || s.producer.PPublish? ==> s.written + 1 < s.readSeen + s.capacity)
    && (s.producer.PSizeRead? ==> s.producer.w == s.writeIdx)
    && (s.consumer.CIdle? || s.consumer.CSizeWrite? || s.consumer.CSizeRead? ==>
          s.consumer.mayPop ==> s.read < s.writeSeen)
    && (s.consumer.CDestroy? || s.consumer.CAdvance? ==> s.read < s.writeSeen)
    && (s.consumer.CSizeRead? ==>
          s.consumer.w < s.capacity && SizeOf(s.consumer.w, s.readIdx, s.capacity) == s.consumer.held)
  }

  /** What slot `n % capacity` holds, for the `capacity` positions from the read index on. */
  function Content<T>(s: State<T>, n: nat): Option<T>
    requires |s.items| == s.written
  {
    if n < s.written then if n == s.read && s.consumer.CAdvance? then None else Some(s.items[n])
    else if n == s.written && s.producer.PPublish? then Some(s.producer.v)
    else None
  }

  function SlotAt<T>(s: State<T>, n: nat): Option<T>
    requires Shape(s)
  {
    s.slots[n % s.capacity]
  }

  ghost predicate SlotsInv<T>(s: State<T>)
    requires Shape(s) && |s.items| == s.written
  {
    forall n: nat :: s.read <= n < s.read + s.capacity ==> SlotAt(s, n) == Content(s, n)
  }

  ghost predicate Inv<T>(s: State<T>) {
    Shape(s) && CountersInv(s) && ThreadsInv(s) && SlotsInv(s)
  }

  // ------------------------------------------------------------------------- preservation

  /** A ring index one ahead equals another one exactly when the distance is a full round. */
  lemma Wrapped(a: nat, b: nat, capacity: nat)
    requires capacity >= 2 && b <= a < b + capacity
    ensures Succ(a % capacity, capacity) == (a + 1) % capacity
    ensures (a + 1) % capacity == b % capacity <==> a + 1 == b + capacity
    ensures a % capacity == b % capacity <==> a == b
    ensures SizeOf(a % capacity, b % capacity, capacity) == a - b
  {
    Arithmetic.ModNext(a, capacity);
    Arithmetic.AddMultiple(b, 1, capacity);
    if (a + 1) % capacity == b % capacity && a + 1 < b + capacity { Arithmetic.ModInjective(a + 1, b, capacity); }
    if a % capacity == b % capacity { Arithmetic.ModInjective(a, b, capacity); }
    SizeWrapped(a, b, capacity);
  }

  lemma SizeWrapped(a: nat, b: nat, capacity: nat)
    requires capacity >= 2 && b <= a < b + capacity
    ensures SizeOf(a % capacity, b % capacity, capacity) == a - b
  {
    var r, n := b % capacity, a - b;
    assert a == r + n + b / capacity * capacity;
    Arithmetic.AddMultiple(r + n, b / capacity, capacity);
    if r + n < capacity { Arithmetic.DivMod(r + n, capacity, 0, r + n); }
    else { Arithmetic.DivMod(r + n, capacity, 1, r + n - capacity); }
  }

  lemma PConstructSlots<T>(s: State<T>)
    requires Inv(s) && s.producer.PConstruct?
    ensures SlotsInv(ProducerStep(s))
  {
    var s' := ProducerStep(s);
    forall n: nat | s.read <= n < s.read + s.capacity ensures SlotAt(s', n) == Content(s', n) {
      assert SlotAt(s, n) == Content(s, n);
      if n != s.written && n % s.capacity == s.written % s.capacity {
        Arithmetic.ModInjective(n, s.written, s.capacity);
      }
    }
  }

  lemma ProducerKeepsInv<T>(s: State<T>)
    requires Inv(s)
    ensures Inv(ProducerStep(s))
  {
    var s' := ProducerStep(s);
    Wrapped(s.written, s.readSeen, s.capacity);
    Wrapped(s.written, s.read, s.capacity);
    if s.producer.PConstruct? {
      PConstructSlots(s);
    } else {
      forall n: nat | s'.read <= n < s'.read + s'.capacity ensures SlotAt(s', n) == Content(s', n) {
        assert SlotAt(s, n) == Content(s, n);
      }
    }
  }

  lemma CDestroySlots<T>(s: State<T>)
    requires Inv(s) && s.consumer.CDestroy?
    ensures SlotsInv(ConsumerStep(s))
  {
    var s' := ConsumerStep(s);
    forall n: nat | s.read <= n < s.read + s.capacity ensures SlotAt(s', n) == Content(s', n) {
      assert SlotAt(s, n) == Content(s, n);
      if n != s.read && n % s.capacity == s.read % s.capacity { Arithmetic.ModInjective(n, s.read, s.capacity); }
    }
  }

  /** The slot the consumer leaves behind becomes the last free one. */
  lemma CAdvanceSlots<T>(s: State<T>)
    requires Inv(s) && s.consumer.CAdvance?
    ensures Shape(ConsumerStep(s)) && SlotsInv(ConsumerStep(s))
  {
    var s' := ConsumerStep(s);
    Arithmetic.AddMultiple(s.read, 1, s.capacity);
    forall n: nat | s'.read <= n < s'.read + s'.capacity ensures SlotAt(s', n) == Content(s', n) {
      assert SlotAt(s, s.read) == Content(s, s.read);
      if n < s.read + s.capacity { assert SlotAt(s, n) == Content(s, n); }
    }
  }

  lemma ConsumerKeepsInv<T>(s: State<T>)
    requires Inv(s)
    ensures Inv(ConsumerStep(s))
  {
    var s' := ConsumerStep(s);
    Wrapped(s.writeSeen, s.read, s.capacity);
    Wrapped(s.written, s.read, s.capacity);
    Wrapped(s.read, s.read, s.capacity);
    if s.consumer.CDestroy? {
      CDestroySlots(s);
    } else if s.consumer.CAdvance? {
      CAdvanceSlots(s);
    } else {
      forall n: nat | s'.read <= n < s'.read + s'.capacity ensures SlotAt(s', n) == Content(s', n) {
        assert SlotAt(s, n) == Content(s, n);
      }
    }
  }

  lemma CallKeepsInv<T>(s: State<T>, s': State<T>)
    requires Inv(s) && Called(s, s')
    ensures Inv(s')
  {
    forall n: nat | s'.read <= n < s'.read + s'.capacity ensures SlotAt(s', n) == Content(s', n) {
      assert SlotAt(s, n) == Content(s, n);
    }
  }

  lemma {:induction false} Reachable<T>(run: seq<State<T>>, i: nat)
    requires IsRun(run) && i < |run|
    ensures Inv(run[i])
  {
    if i == 0 {
      forall n: nat | n < run[0].capacity ensures SlotAt(run[0], n) == Content(run[0], n) {
        Arithmetic.DivMod(n, run[0].capacity, 0, n);
      }
      Arithmetic.DivMod(0, run[0].capacity, 0, 0);
    } else {
      Reachable(run, i - 1);
      assert StepAt(run, i - 1);
      if run[i] == ProducerStep(run[i - 1]) { ProducerKeepsInv(run[i - 1]); }
      else if run[i] == ConsumerStep(run[i - 1]) { ConsumerKeepsInv(run[i - 1]); }
      else { CallKeepsInv(run[i - 1], run[i]); }
    }
  }

  // ------------------------------------------------------------------------------ theorems

  /** The elements held, oldest first. */
  ghost function Queue<T>(s: State<T>): seq<T>
    requires CountersInv(s)
  {
    s.items[s.read..s.written]
  }

  /** Publishing appends the value being pushed, where there is room; advancing the read index removes the oldest
      element; every other step and every call leaves the queue alone. */
  ghost predicate Moves<T>(s: State<T>, s': State<T>, q: seq<T>, q': seq<T>)
    requires Shape(s)
  {
    if s' == ProducerStep(s) && s.producer.PPublish? then |q| < s.capacity - 1 && q' == q + [s.producer.v]
    else if s' == ConsumerStep(s) && s.consumer.CAdvance? then |q| > 0 && q' == q[1..]
    else q' == q
  }

  lemma ProducerMoves<T>(s: State<T>)
    requires Shape(s) && CountersInv(s) && ThreadsInv(s) && CountersInv(ProducerStep(s))
    ensures Moves(s, ProducerStep(s), Queue(s), Queue(ProducerStep(s)))
  {
    if s.producer.PPublish? {
      var s' := ProducerStep(s);
      assert s'.items[s.read..s.written + 1] == s.items[s.read..s.written] + [s.producer.v];
    }
  }

  lemma ConsumerMoves<T>(s: State<T>)
    requires Shape(s) && CountersInv(s) && ThreadsInv(s) && CountersInv(ConsumerStep(s))
    ensures Moves(s, ConsumerStep(s), Queue(s), Queue(ConsumerStep(s)))
  {
    if s.consumer.CAdvance? { assert s.items[s.read + 1..s.written] == s.items[s.read..s.written][1..]; }
  }

  lemma StepMoves<T>(s: State<T>, s': State<T>)
    requires Shape(s) && CountersInv(s) && CountersInv(s') && ThreadsInv(s) && Next(s, s')
    ensures Moves(s, s', Queue(s), Queue(s'))
  {
    if s' == ProducerStep(s) { ProducerMoves(s); }
    else if s' == ConsumerStep(s) { ConsumerMoves(s); }
  }

  lemma CountersAt<T>(run: seq<State<T>>, i: nat)
    requires IsRun(run) && i < |run|
    ensures Shape(run[i]) && CountersInv(run[i]) && ThreadsInv(run[i])
  {
    Reachable(run, i);
  }

  /** The ring refines a bounded FIFO queue of `capacity() == capacity - 1` elements. */
  lemma RefinesFifo<T>(run: seq<State<T>>, i: nat)
    requires IsRun(run) && i + 1 < |run|
    ensures CountersInv(run[i]) && CountersInv(run[i + 1])
    ensures Shape(run[i]) && |Queue(run[i])| <= run[i].capacity - 1
    ensures Moves(run[i], run[i + 1], Queue(run[i]), Queue(run[i + 1]))
  {
    CountersAt(run, i);
    CountersAt(run, i + 1);
    assert StepAt(run, i);
    StepMoves(run[i], run[i + 1]);
  }

  /** The producer constructs only in an empty slot; while the consumer may use the front element, its slot
      holds the oldest unread value; and the assertion in `pop` holds. */
  lemma SlotsAreSafe<T>(run: seq<State<T>>, i: nat)
    requires IsRun(run) && i < |run|
    ensures var s := run[i];
      && Inv(s)
      && (s.producer.PConstruct? ==> s.slots[s.writeIdx] == None)
      && (s.consumer == CIdle(true) || s.consumer.CDestroy? ==>
            |Queue(s)| > 0 && s.slots[s.readIdx] == Some(Queue(s)[0]) && s.writeIdx != s.readIdx)
  {
    var s := run[i];
    Reachable(run, i);
    assert SlotAt(s, s.written) == s.slots[s.writeIdx] && SlotAt(s, s.read) == s.slots[s.readIdx];
    Wrapped(s.written, s.read, s.capacity);
  }

  /** The caches err on the safe side: `try_push` fails only on a full queue and `front` returns null only on
      an empty one, at the load of the other side's index. */
  lemma FailuresAreExact<T>(run: seq<State<T>>, i: nat)
    requires IsRun(run) && i < |run|
    ensures var s := run[i];
      && Inv(s)
      && (s.producer.PRefresh? ==> (ProducerStep(s).producer.PConstruct? <==> |Queue(s)| < s.capacity - 1))
      && (s.producer.PCheck? && ProducerStep(s).producer.PConstruct? ==> |Queue(s)| < s.capacity - 1)
      && (s.consumer.CRefresh? ==> (ConsumerStep(s).consumer == CIdle(true) <==> |Queue(s)| > 0))
      && (s.consumer.CCheck? && ConsumerStep(s).consumer == CIdle(true) ==> |Queue(s)| > 0)
  {
    var s := run[i];
    Reachable(run, i);
    Wrapped(s.written, s.readSeen, s.capacity);
    Wrapped(s.written, s.read, s.capacity);
    Wrapped(s.writeSeen, s.read, s.capacity);
  }

  /** `size()` from the producer is the number of elements held when it loads the read index; from the
      consumer, the number held when it loaded the write index. */
  lemma SizeIsExact<T>(run: seq<State<T>>, i: nat)
    requires IsRun(run) && i < |run|
    ensures var s := run[i];
      && Inv(s)
      && (s.producer.PSizeRead? ==> SizeOf(s.producer.w, s.readIdx, s.capacity) == |Queue(s)|)
      && (s.consumer.CSizeRead? ==> SizeOf(s.consumer.w, s.readIdx, s.capacity) == s.consumer.held)
      && (s.consumer.CSizeWrite? ==> ConsumerStep(s).consumer.held == |Queue(s)|)
  {
    var s := run[i];
    Reachable(run, i);
    Wrapped(s.written, s.read, s.capacity);
  }

  // ------------------------------------------------------------------------------ answers

  /** Inside `push` or `try_push`. */
  predicate Pushing<T>(pc: ProducerPc<T>) { pc.PCheck? || pc.PRefresh? || pc.PConstruct? || pc.PPublish? }

  /** Where a push was before: at the same value, and with the same choice of waiting while that matters. */
  lemma PushFrom<T>(s: State<T>, s': State<T>)
    requires Next(s, s')
    ensures var pc, pc' := s.producer, s'.producer;
      && (Pushing(pc') && !pc'.PCheck? ==> Pushing(pc) && pc.v == pc'.v)
      && (pc'.PRefresh? ==> (pc.PCheck? || pc.PRefresh?) && pc.blocking == pc'.blocking)
  {}

  /** The call of a push: it was given the value, and told whether to wait. */
  lemma {:induction false} PushCall<T>(run: seq<State<T>>, i: nat) returns (k: nat)
    requires IsRun(run) && i < |run| && Pushing(run[i].producer)
    ensures k <= i && run[k].producer.PCheck?
    ensures forall j :: k <= j <= i ==> Pushing(run[j].producer) && run[j].producer.v == run[k].producer.v
    ensures run[i].producer.PCheck? || run[i].producer.PRefresh? ==>
      run[i].producer.blocking == run[k].producer.blocking
  {
    if run[i].producer.PCheck? {
      k := i;
    } else {
      assert i > 0 && StepAt(run, i - 1);
      PushFrom(run[i - 1], run[i]);
      k := PushCall(run, i - 1);
    }
  }

  /** How a push returns. */
  lemma PushReturns<T>(s: State<T>, s': State<T>)
    requires Inv(s) && Next(s, s') && Pushing(s.producer) && s'.producer == PIdle
    ensures s' == ProducerStep(s)
    ensures s.producer.PPublish? || (s.producer.PRefresh? && !s.producer.blocking && |Queue(s)| == s.capacity - 1)
  {
    Wrapped(s.written, s.readSeen, s.capacity);
    Wrapped(s.written, s.read, s.capacity);
  }

  /** In every interleaving: a push that returns has appended exactly the value it was given, or it was a `try_push`
      and the queue is full in the state it returns from. A blocking push never returns otherwise. */
  lemma PushAnswer<T>(run: seq<State<T>>, i: nat) returns (k: nat)
    requires IsRun(run) && i + 1 < |run| && Pushing(run[i].producer) && run[i + 1].producer == PIdle
    ensures k <= i && run[k].producer.PCheck? && forall j :: k <= j <= i ==> Pushing(run[j].producer)
    ensures CountersInv(run[i]) && CountersInv(run[i + 1])
    ensures var q, q', call := Queue(run[i]), Queue(run[i + 1]), run[k].producer;
      || (q' == q + [call.v] && |q| < run[i].capacity - 1)
      || (q' == q && |q| == run[i].capacity - 1 && !call.blocking)
  {
    k := PushCall(run, i);
    Reachable(run, i);
    assert StepAt(run, i);
    PushReturns(run[i], run[i + 1]);
    RefinesFifo(run, i);
  }

  lemma FrontReturns<T>(s: State<T>, s': State<T>)
    requires Inv(s) && Next(s, s') && (s.consumer.CCheck? || s.consumer.CRefresh?) && s'.consumer.CIdle?
    ensures s'.consumer.mayPop <==> Queue(s) != []
  {
    Wrapped(s.written, s.read, s.capacity);
    Wrapped(s.writeSeen, s.read, s.capacity);
  }

  /** In every interleaving: `front` returns null exactly if the queue is empty in the state it returns from. */
  lemma FrontAnswer<T>(run: seq<State<T>>, i: nat)
    requires IsRun(run) && i + 1 < |run| && run[i + 1].consumer.CIdle?
    requires run[i].consumer.CCheck? || run[i].consumer.CRefresh?
    ensures CountersInv(run[i]) && (run[i + 1].consumer.mayPop <==> Queue(run[i]) != [])
  {
    Reachable(run, i);
    assert StepAt(run, i);
    FrontReturns(run[i], run[i + 1]);
  }

  /** How many steps a call still takes. */
  function ProducerRank<T>(pc: ProducerPc<T>): nat {
    match pc
    case PIdle => 0
    case PCheck(_, _) => 4
    case PRefresh(_, _) => 3
    case PConstruct(_) => 2
    case PPublish(_) => 1
    case PSizeWrite => 2
    case PSizeRead(_) => 1
  }

  function ConsumerRank(pc: ConsumerPc): nat {
    match pc
    case CIdle(_) => 0
    case CCheck => 2
    case CRefresh => 1
    case CDestroy => 2
    case CAdvance => 1
    case CSizeWrite(_) => 2
    case CSizeRead(_, _, _) => 1
  }

  /** Every call gets on with every step of its own, whatever the other side does, except a blocking push on a full
      queue, which looks again. */
  lemma CallsProgress<T>(run: seq<State<T>>, i: nat)
    requires IsRun(run) && i < |run|
    ensures var s := run[i];
      && Inv(s)
      && (s.consumer.CIdle? || ConsumerRank(ConsumerStep(s).consumer) < ConsumerRank(s.consumer))
      && (|| s.producer == PIdle || ProducerRank(ProducerStep(s).producer) < ProducerRank(s.producer)
          || (s.producer.PRefresh? && s.producer.blocking && |Queue(s)| == s.capacity - 1))
  {
    var s := run[i];
    Reachable(run, i);
    Wrapped(s.written, s.read, s.capacity);
  }
}
