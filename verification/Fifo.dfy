/** Runs of an unbounded first-in first-out queue, as logs of what was put in and what was taken out. */
module Fifo {
  import opened Wrappers
  import Arithmetic
  import IndexArithmetic

  /** A refused enqueue puts nothing; a dequeue that finds nothing takes `None`. */
  datatype Event<T> = Put(items: seq<T>) | Take(result: Option<T>)

  ghost function Entered<T>(log: seq<Event<T>>): seq<T> {
    if log == [] then [] else
      var e := log[|log| - 1];
      Entered(log[..|log| - 1]) + if e.Put? then e.items else []
  }

  ghost function Taken<T>(log: seq<Event<T>>): seq<T> {
    if log == [] then [] else
      var e := log[|log| - 1];
      Taken(log[..|log| - 1]) + if e.Take? && e.result.Some? then [e.result.value] else []
  }

  /** The last take got the first item not taken before, or nothing when there was none. */
  ghost predicate TakesNext<T>(log: seq<Event<T>>)
    requires log != []
  {
    var n := |log| - 1;
    var entered, taken := Entered(log[..n]), |Taken(log[..n])|;
    log[n].Take? ==> log[n].result == if taken < |entered| then Some(entered[taken]) else None
  }

  ghost predicate IsRun<T>(log: seq<Event<T>>) {
    log == [] || (IsRun(log[..|log| - 1]) && TakesNext(log))
  }

  /** After the run `queue` is what was put in and not taken. */
  ghost predicate Leaves<T>(log: seq<Event<T>>, queue: seq<T>) {
    IsRun(log) && Taken(log) + queue == Entered(log)
  }

  /** One operation on the queue. */
  ghost predicate Moves<T>(e: Event<T>, queue: seq<T>, queue': seq<T>) {
    match e
    case Put(items) => queue' == queue + items
    case Take(result) =>
      if queue == [] then result.None? && queue' == [] else result == Some(queue[0]) && queue' == queue[1..]
  }

  lemma Grows<T>(log: seq<Event<T>>, e: Event<T>)
    ensures Entered(log + [e]) == Entered(log) + if e.Put? then e.items else []
    ensures Taken(log + [e]) == Taken(log) + if e.Take? && e.result.Some? then [e.result.value] else []
  {
    assert (log + [e])[..|log|] == log;
  }

  lemma LeavesNext<T>(log: seq<Event<T>>, queue: seq<T>, e: Event<T>, queue': seq<T>)
    requires Leaves(log, queue) && Moves(e, queue, queue')
    ensures Leaves(log + [e], queue')
  {
    Grows(log, e);
    assert (log + [e])[..|log|] == log;
    var taken := Taken(log);
    match e
    case Put(items) => assert taken + queue + items == taken + (queue + items);
    case Take(_) => if queue != [] { assert taken + [queue[0]] + queue[1..] == taken + queue; }
  }

  // ------------------------------------------------------------------ the size limit of a sub-queue

  /** Whether `count` more elements fit behind `entered` of which `taken` are gone: they begin no block, or the
      test made before the last block they begin finds room for it. */
  predicate RoomFor(count: nat, entered: nat, taken: nat, blockSize: nat, maxSize: nat)
    requires blockSize > 0
  {
    || IndexArithmetic.BlocksToBegin(entered, count, blockSize) == 0
    || !IndexArithmetic.Full(taken, IndexArithmetic.BlockBase(entered + count - 1, blockSize), blockSize, maxSize)
  }

  /** A single element begins a block exactly at the end of one, and then at the tail. */
  lemma OneElement(tail: nat, size: nat)
    requires size > 1
    ensures IndexArithmetic.BlocksToBegin(tail, 1, size) == if tail % size == 0 then 1 else 0
    ensures tail % size == 0 ==> IndexArithmetic.BlockBase(tail, size) == tail
  {
    var q := tail / size;
    if tail % size == 0 {
      Arithmetic.Distribute(q, 1, size);
      Arithmetic.DivMod(tail - 1, size, q - 1, size - 1);
    } else {
      Arithmetic.DivMod(tail - 1, size, q, tail % size - 1);
    }
  }

  /** What a call can count on: whether there is an index at all, and how many blocks may be in use before the index
      needs memory to grow, and before a block needs memory. `None` stands for all the memory the call asks for. */
  datatype Supply = Supply(built: bool, entries: Option<nat>, blocks: Option<nat>)

  /** A call: items offered, or one item asked for. */
  datatype Request<T> = Offer(items: seq<T>, supply: Supply) | Ask

  /** The blocks from the head's to the tail's. */
  function BlocksInUse(entered: nat, taken: nat, blockSize: nat): int
    requires blockSize > 0
  {
    (entered - 1) / blockSize - taken / blockSize + 1
  }

  predicate Suffices(supply: Supply, blocks: int) {
    && supply.built && (supply.entries.Some? ==> blocks <= supply.entries.value)
    && (supply.blocks.Some? ==> blocks <= supply.blocks.value)
  }

  /** It suffices for `count` elements more. */
  predicate SufficesFor(supply: Supply, count: nat, entered: nat, taken: nat, blockSize: nat)
    requires blockSize > 0
  {
    Suffices(supply, BlocksInUse(entered, taken, blockSize) + IndexArithmetic.BlocksToBegin(entered, count, blockSize))
  }

  /** Elements are accepted only if there is room. They are refused only if they begin a block, and then for want
      of room or of what they need. */
  predicate Admits(ok: bool, count: nat, supplied: bool, entered: nat, taken: nat, blockSize: nat, maxSize: nat)
    requires blockSize > 0
  {
    var room := RoomFor(count, entered, taken, blockSize, maxSize);
    if ok then room else IndexArithmetic.BlocksToBegin(entered, count, blockSize) > 0 && !(room && supplied)
  }

  lemma AdmitsOne(ok: bool, supplied: bool, entered: nat, taken: nat, blockSize: nat, maxSize: nat)
    requires blockSize > 1
    ensures Admits(ok, 1, supplied, entered, taken, blockSize, maxSize) <==>
      if entered % blockSize != 0 then ok
      else ok == !IndexArithmetic.Full(taken, entered, blockSize, maxSize) || (!ok && !supplied)
  {
    OneElement(entered, blockSize);
  }

  lemma BaseIsProduct(x: int, d: nat)
    requires d > 0
    ensures IndexArithmetic.BlockBase(x, d) == x / d * d
  {}

  /** From the blocks granted one by one: all of them, or the first `had` and then not the one that starts at `base`. */
  lemma AdmitsBlocks(ok: bool, had: nat, base: int, count: nat, supplied: bool, entered: nat, taken: nat,
                     blockSize: nat, maxSize: nat)
    requires blockSize > 0
    requires var n, t0 := IndexArithmetic.BlocksToBegin(entered, count, blockSize), (entered - 1) / blockSize;
      && (if ok then base == (t0 + n) * blockSize else had < n && base == (t0 + had + 1) * blockSize)
      && var full := IndexArithmetic.Full(taken, base, blockSize, maxSize);
         if ok then n == 0 || !full else full || !supplied
    ensures Admits(ok, count, supplied, entered, taken, blockSize, maxSize)
  {
    var last := IndexArithmetic.BlockBase(entered + count - 1, blockSize);
    assert if ok then base == last else base <= last by {
      BaseIsProduct(entered + count - 1, blockSize);
      if !ok { Arithmetic.MulOrder((entered - 1) / blockSize + had + 1, (entered + count - 1) / blockSize, blockSize); }
    }
  }

  /** All items are accepted, or all are refused. */
  ghost predicate Answers<T>(e: Event<T>, r: Request<T>, entered: nat, taken: nat, blockSize: nat, maxSize: nat)
    requires blockSize > 0
  {
    match r
    case Ask => e.Take?
    case Offer(items, supply) =>
      var supplied := SufficesFor(supply, |items|, entered, taken, blockSize);
      || (e == Put(items) && Admits(true, |items|, supplied, entered, taken, blockSize, maxSize))
      || (e == Put([]) && Admits(false, |items|, supplied, entered, taken, blockSize, maxSize))
  }

  lemma AnswersOffer<T>(e: Event<T>, ok: bool, r: Request<T>, supplied: bool, entered: nat, taken: nat, blockSize: nat,
                        maxSize: nat)
    requires blockSize > 0 && r.Offer? && e == Put(if ok then r.items else [])
    requires SufficesFor(r.supply, |r.items|, entered, taken, blockSize) ==> supplied
    requires Admits(ok, |r.items|, supplied, entered, taken, blockSize, maxSize)
    ensures Answers(e, r, entered, taken, blockSize, maxSize)
  {}

  ghost predicate Answered<T>(log: seq<Event<T>>, requests: seq<Request<T>>, blockSize: nat, maxSize: nat)
    requires blockSize > 0
  {
    log == [] ||
    var n := |log| - 1;
    && n < |requests| && Answered(log[..n], requests, blockSize, maxSize)
    && Answers(log[n], requests[n], |Entered(log[..n])|, |Taken(log[..n])|, blockSize, maxSize)
  }

  lemma AnsweredNext<T>(log: seq<Event<T>>, requests: seq<Request<T>>, e: Event<T>, blockSize: nat, maxSize: nat)
    requires blockSize > 0 && Answered(log, requests, blockSize, maxSize) && |log| < |requests|
    requires Answers(e, requests[|log|], |Entered(log)|, |Taken(log)|, blockSize, maxSize)
    ensures Answered(log + [e], requests, blockSize, maxSize)
  {
    assert (log + [e])[..|log|] == log;
  }

  /** In a run, items that begin no block are accepted, and so are items that find room and what they need. */
  lemma {:induction false} Accepted<T>(log: seq<Event<T>>, requests: seq<Request<T>>, k: nat, blockSize: nat,
                                       maxSize: nat)
    requires blockSize > 0 && Answered(log, requests, blockSize, maxSize) && k < |log|
    ensures k < |requests|
    ensures var entered, taken, r := |Entered(log[..k])|, |Taken(log[..k])|, requests[k];
      && r.Offer?
      && (|| IndexArithmetic.BlocksToBegin(entered, |r.items|, blockSize) == 0
          || (&& RoomFor(|r.items|, entered, taken, blockSize, maxSize)
              && SufficesFor(r.supply, |r.items|, entered, taken, blockSize)))
      ==> log[k] == Put(r.items)
    decreases |log|
  {
    var n := |log| - 1;
    if k < n {
      Accepted(log[..n], requests, k, blockSize, maxSize);
      assert log[..n][..k] == log[..k];
    }
  }

  /** The run so far: its log, what is queued, and how many elements entered and left. */
  ghost predicate Recorded<T>(log: seq<Event<T>>, requests: seq<Request<T>>, queue: seq<T>, entered: nat, taken: nat,
                              blockSize: nat, maxSize: nat)
    requires blockSize > 0
  {
    && |log| <= |requests| && Answered(log, requests, blockSize, maxSize)
    && Leaves(log, queue) && entered == |Entered(log)| && taken == |Taken(log)|
  }

  /** One more operation. */
  ghost predicate Does<T>(e: Event<T>, queue: seq<T>, entered: nat, taken: nat, queue': seq<T>, entered': nat,
                          taken': nat) {
    && Moves(e, queue, queue')
    && entered' == entered + (if e.Put? then |e.items| else 0)
    && taken' == taken + if e.Take? && e.result.Some? then 1 else 0
  }

  lemma RecordedNext<T>(log: seq<Event<T>>, requests: seq<Request<T>>, queue: seq<T>, entered: nat, taken: nat,
                        e: Event<T>, queue': seq<T>, entered': nat, taken': nat, blockSize: nat, maxSize: nat)
    requires blockSize > 0 && Recorded(log, requests, queue, entered, taken, blockSize, maxSize) && |log| < |requests|
    requires Answers(e, requests[|log|], entered, taken, blockSize, maxSize)
    requires Does(e, queue, entered, taken, queue', entered', taken')
    ensures Recorded(log + [e], requests, queue', entered', taken', blockSize, maxSize)
  {
    LeavesNext(log, queue, e, queue');
    AnsweredNext(log, requests, e, blockSize, maxSize);
    Grows(log, e);
  }

  /** The limit is kept: even with its last block filled up, a sub-queue never holds more than `maxSize` elements. */
  lemma {:induction false} LimitHolds<T>(log: seq<Event<T>>, requests: seq<Request<T>>, blockSize: nat, maxSize: nat)
    requires blockSize > 0 && maxSize != IndexArithmetic.RANGE - 1 && Answered(log, requests, blockSize, maxSize)
    ensures ((|Entered(log)| - 1) / blockSize + 1) * blockSize - |Taken(log)| <= maxSize
    ensures |Entered(log)| - |Taken(log)| <= maxSize
  {
    var n := |log| - 1;
    UpTo(|Entered(log)|, blockSize);
    if log == [] {
      Arithmetic.DivMod(-1, blockSize, -1, blockSize - 1);
    } else {
      LimitHolds(log[..n], requests, blockSize, maxSize);
      var entered := |Entered(log[..n])|;
      if log[n].Put? && log[n].items != [] && IndexArithmetic.BlocksToBegin(entered, |log[n].items|, blockSize) != 0 {
        UpTo(entered + |log[n].items|, blockSize);
      }
    }
  }

  lemma UpTo(n: nat, d: nat)
    requires d > 0
    ensures n <= ((n - 1) / d + 1) * d == IndexArithmetic.BlockBase(n - 1, d) + d
  {
    Arithmetic.Distribute((n - 1) / d, 1, d);
  }
}
