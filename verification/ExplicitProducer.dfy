/**
 The sub-queue of an explicit producer: elements live in fixed-size blocks that form a circular linked
 list, and a circular index, doubled when full, finds the block of an element from its index. Here the
 operations run one after the other; the interleaving of consumers is the subject of DequeueProtocol.

 Blocks are identified by numbers, their addresses, and `blocks` is the memory they occupy. Masking
 with a power of two minus one is written as a remainder (IndexArithmetic.MaskIsRemainder).
 */
module ExplicitProducer {
  import opened Wrappers
  import Arithmetic
  import Fifo
  import IndexArithmetic

  type Address = nat

  type Event<T> = Fifo.Event<T>

  datatype Entry = Entry(base: int, block: Address)

  // ------------------------------------------------------------------------- the block index

  /** The circular index of blocks: `window` is what it holds, oldest entry first. */
  class BlockIndex {
    var entries: array<Entry>             // of no length while it could not be allocated
    var size: nat                         // pr_blockIndexSize
    var slotsUsed: nat                    // pr_blockIndexSlotsUsed
    var front: nat                        // pr_blockIndexFront: the next slot
    var published: int                    // front of the header consumers read: the current slot
    ghost var window: seq<Entry>

    ghost predicate Valid()
      reads this, entries
    {
      && size > 0 && |window| == slotsUsed <= size
      && (entries.Length == size || (entries.Length == 0 && window == []))
      && (entries.Length == size ==> front < size)
      && (forall k :: 0 <= k < |window| ==> entries[Position(front, size, |window| - k)] == window[k])
      && (window != [] ==> published == Position(front, size, 1))
    }

    constructor (initialSize: nat, memory: bool)
      requires initialSize > 1
      ensures Valid() && window == [] && fresh(entries)
    {
      entries := new Entry[0];
      size, slotsUsed, front, published := initialSize / 2, 0, 0, 0;
      window := [];
      new;
      var _ := Grow(memory);
    }

    method NextSlot(i: nat, ghost n: nat) returns (next: nat)
      requires front < size && 1 <= n <= size && i == Position(front, size, n)
      ensures next == Position(front, size, n - 1)
    {
      NextPosition(front, size, n);
      next := (i + 1) % size;
    }

    /** A copy of twice the size with the used entries laid out from the start, oldest first. */
    method Copy() returns (bigger: array<Entry>)
      requires Valid()
      ensures fresh(bigger) && bigger.Length == 2 * size && forall k :: 0 <= k < |window| ==> bigger[k] == window[k]
    {
      bigger := new Entry[2 * size](_ => Entry(0, 0));
      if slotsUsed != 0 {
        var i, j := Position(front, size, slotsUsed), 0;
        while j < slotsUsed
          invariant 0 <= j <= slotsUsed && (j < slotsUsed ==> i == Position(front, size, slotsUsed - j))
          invariant forall k :: 0 <= k < j ==> bigger[k] == window[k]
          modifies bigger
        {
          assert entries[i] == window[j];
          bigger[j] := entries[i];
          i := NextSlot(i, slotsUsed - j);
          j := j + 1;
        }
      }
    }

    /** Doubles the index. */
    method Grow(memory: bool) returns (ok: bool)
      requires Valid()
      requires entries.Length == 0 || slotsUsed == size
      modifies this
      ensures Valid() && window == old(window) && ok == memory
      ensures if ok then fresh(entries) && entries.Length == size && slotsUsed < size else unchanged(this)
    {
      if !memory { return false; }
      var bigger := Copy();
      size, front, published := 2 * size, slotsUsed, slotsUsed - 1;
      entries := bigger;
      forall n | 1 <= n <= |window| ensures Position(front, size, n) == |window| - n {
        Arithmetic.DivMod(front + size - n, size, 1, |window| - n);
      }
      return true;
    }

    /** Writes the next entry, in a new slot or over the oldest one, and publishes it to the consumers. */
    method Put(e: Entry, newSlot: bool)
      requires Valid() && entries.Length == size && (if newSlot then slotsUsed < size else slotsUsed > 0)
      modifies this, entries
      ensures Valid() && entries == old(entries) && size == old(size)
      ensures window == (if newSlot then old(window) else old(window)[1..]) + [e]
    {
      ghost var was, gone := window, if newSlot then 0 else 1;
      if newSlot { slotsUsed := slotsUsed + 1; }
      PutPositions(front, size, slotsUsed);
      entries[front] := e;
      published := front;
      front := (front + 1) % size;
      window := (if newSlot then window else window[1..]) + [e];
      forall k | 0 <= k < |window| - 1 ensures entries[Position(front, size, |window| - k)] == window[k] {
        assert window[k] == was[k + gone] && |window| - k - 1 == |was| - (k + gone);
        assert Position(front, size, (|window| - k - 1) + 1) == Position(published, size, |was| - (k + gone));
      }
    }

    /** The lookup of a consumer: the slot of a block from the distance of its base to the newest one's. */
    method Find(blockBase: int, blockSize: nat, ghost k: nat) returns (block: Address)
      requires Valid() && blockSize > 0 && k < |window|
      requires blockBase == window[|window| - 1].base - (|window| - 1 - k) * blockSize
      ensures block == window[k].block
    {
      var headBase := entries[published].base;
      var offset := IndexArithmetic.Truncated(blockBase - headBase, blockSize);
      assert headBase == window[|window| - 1].base;
      ghost var d := |window| - 1 - k;
      assert blockBase - headBase == -d * blockSize;
      IndexArithmetic.ExactDivision(-d, blockSize);
      FindPosition(front, size, d);
      block := entries[(published + offset) % size].block;
    }
  }

  /** The slot written `n` entries ago. */
  function Position(front: nat, size: nat, n: nat): (i: nat)
    requires front < size && n <= size
    ensures i < size
  {
    (front + size - n) % size
  }

  lemma NextPosition(front: nat, size: nat, n: nat)
    requires front < size && 1 <= n <= size
    ensures (Position(front, size, n) + 1) % size == Position(front, size, n - 1)
  {
    Arithmetic.ModNext(front + size - n, size);
    var p := Position(front, size, n);
    if p + 1 == size { Arithmetic.DivMod(p + 1, size, 1, 0); } else { Arithmetic.DivMod(p + 1, size, 0, p + 1); }
  }

  lemma OneBack(front: nat, size: nat, k: nat)
    requires front < size && k < size
    ensures (front + 1) % size < size && Position((front + 1) % size, size, k + 1) == Position(front, size, k)
  {
    if front + 1 == size {
      Arithmetic.DivMod(front + 1, size, 1, 0);
      Arithmetic.AddMultiple(size - (k + 1), 1, size);
    } else {
      Arithmetic.DivMod(front + 1, size, 0, front + 1);
    }
  }

  lemma NotFront(front: nat, size: nat, k: nat)
    requires front < size && k < size
    ensures Position(front, size, k) == front <==> k == 0
  {
    Arithmetic.DivMod(front + size, size, 1, front);
    if Position(front, size, k) == front { Arithmetic.ModInjective(front + size - k, front + size, size); }
  }

  /** After the next entry is written every older one is one further back, and none of those kept is hit. */
  lemma PutPositions(front: nat, size: nat, n: nat)
    requires front < size && n <= size
    ensures var front' := (front + 1) % size;
      && front' < size
      && Position(front', size, 1) == front
      && (forall k :: 1 <= k < n ==> Position(front', size, k + 1) == Position(front, size, k) != front)
  {
    OneBack(front, size, 0);
    NotFront(front, size, 0);
    forall k | 1 <= k < n ensures Position((front + 1) % size, size, k + 1) == Position(front, size, k) != front {
      OneBack(front, size, k);
      NotFront(front, size, k);
    }
  }

  lemma FindPosition(front: nat, size: nat, d: nat)
    requires front < size && d + 1 <= size
    ensures (Position(front, size, 1) - d) % size == Position(front, size, d + 1)
  {
    var x := front + size - 1;
    Arithmetic.AddMultiple(x % size - d, x / size, size);
    assert x % size - d + x / size * size == front + size - (d + 1);
  }

  // ----------------------------------------------------------------------- blocks and their ring

  datatype Block<T> = Block(elements: seq<Option<T>>, next: Address, emptyFlags: seq<bool>) {

    predicate IsEmpty() { forall k :: 0 <= k < |emptyFlags| ==> emptyFlags[k] }

    function ResetEmpty(): Block<T> { this.(emptyFlags := seq(|emptyFlags|, _ => false)) }

    /** The flags are kept in reverse order of the elements. */
    function SetEmpty(k: nat): Block<T>
      requires k < |emptyFlags|
    {
      this.(emptyFlags := emptyFlags[|emptyFlags| - 1 - k := true])
    }

    function Put(k: nat, x: Option<T>): Block<T>
      requires k < |elements|
    {
      this.(elements := elements[k := x])
    }
  }

  /** A sub-queue as a value: `ring` is the circular list from the oldest block to the tail block, whose
      ordinal is `last`; block number `n` holds the indices from `n * size` on. */
  datatype Layout<T> = Layout(size: nat, blocks: map<Address, Block<T>>, ring: seq<Address>, last: nat, head: nat,
                              tail: nat, queue: seq<T>) {

    /** The oldest ordinal in the ring. */
    ghost function First(): int { last - |ring| + 1 }

    ghost predicate Linked() {
      && size > 1
      && (forall i :: 0 <= i < |ring| ==>
            ring[i] in blocks && |blocks[ring[i]].elements| == size == |blocks[ring[i]].emptyFlags|)
      && (forall i, j :: 0 <= i < j < |ring| ==> ring[i] != ring[j])
      && (forall i :: 0 <= i < |ring| ==> blocks[ring[i]].next == ring[if i + 1 < |ring| then i + 1 else 0])
    }

    predicate InRing(i: nat)
      requires size > 1
    {
      last - |ring| < i / size <= last
    }

    ghost function BlockOf(i: nat): Block<T>
      requires Linked() && InRing(i)
    {
      blocks[ring[i / size - First()]]
    }

    /** The block of index `i` holds its element while it is queued, and a set flag once it is dequeued. */
    ghost predicate Holds(i: nat)
      requires Linked() && InRing(i)
    {
      && (head <= i < tail && i - head < |queue| ==> BlockOf(i).elements[i % size] == Some(queue[i - head]))
      && (BlockOf(i).emptyFlags[size - 1 - i % size] <==> i < head)
    }

    ghost predicate Filled()
      requires Linked()
    {
      forall i: nat :: InRing(i) ==> Holds(i)
    }

    ghost predicate Bounds() {
      && head <= tail && |queue| == tail - head
      && if ring == [] then tail == 0
         else First() >= 0 && First() * size <= head && last * size <= tail <= last * size + size
    }

    ghost predicate Good() { Linked() && Filled() && Bounds() }

    /** The block ahead of the tail block starts over. */
    ghost function Reused(): Layout<T>
      requires Linked() && ring != []
    {
      this.(blocks := blocks[ring[0] := blocks[ring[0]].ResetEmpty()], ring := ring[1..] + [ring[0]], last := last + 1)
    }

    lemma ReusedLinked()
      requires Linked() && ring != []
      ensures Reused().Linked()
    {
      var l := Reused();
      forall i | 0 <= i < |l.ring| ensures l.blocks[l.ring[i]].next == l.ring[if i + 1 < |l.ring| then i + 1 else 0] {
        if i < |ring| - 1 { assert l.ring[i] == ring[i + 1]; }
      }
    }

    lemma ReusedHolds(i: nat)
      requires Linked() && ring != [] && Reused().Linked() && tail == (last + 1) * size && head <= tail
      requires InRing(i) ==> Holds(i)
      requires Reused().InRing(i)
      ensures Reused().Holds(i)
    {
      var l := Reused();
      if i / size == last + 1 {
        assert i >= tail by { IndexArithmetic.AtOrBefore(last + 1, i, size); }
        assert l.ring[i / size - l.First()] == ring[0];
      } else {
        assert l.ring[i / size - l.First()] == ring[i / size - First()];
      }
    }

    /** The flags of the oldest block are all set exactly if it has been dequeued completely. */
    lemma EmptyBlockIsBehind()
      requires Good() && ring != []
      ensures blocks[ring[0]].IsEmpty() <==> (First() + 1) * size <= head
    {
      Arithmetic.Distribute(First(), 1, size);
      forall k | 0 <= k < size
        ensures blocks[ring[0]].emptyFlags[k] <==> First() * size + (size - 1 - k) < head
      {
        OldestFlag(k);
      }
      if blocks[ring[0]].IsEmpty() { assert blocks[ring[0]].emptyFlags[0]; }
    }

    lemma OldestFlag(k: nat)
      requires Good() && ring != [] && k < size
      ensures blocks[ring[0]].emptyFlags[k] <==> First() * size + (size - 1 - k) < head
    {
      var i := First() * size + (size - 1 - k);
      Arithmetic.DivMod(i, size, First(), size - 1 - k);
      assert 0 <= First() * size;
      assert InRing(i) && Holds(i);
    }

    /** At the end of a block: the oldest one is empty exactly if the elements fit in the others. */
    lemma EmptyMeansRoom()
      requires Good() && ring != [] && tail == (last + 1) * size
      ensures blocks[ring[0]].IsEmpty() <==> tail - head <= (|ring| - 1) * size
    {
      EmptyBlockIsBehind();
      Arithmetic.Distribute(last + 1, |ring| - 1, size);
    }

    lemma ReusedGood()
      requires Good() && ring != [] && blocks[ring[0]].IsEmpty() && tail == (last + 1) * size
      ensures Reused().Good()
    {
      ReusedLinked();
      EmptyBlockIsBehind();
      forall i: nat | Reused().InRing(i) ensures Reused().Holds(i) { ReusedHolds(i); }
    }

    /** A new block is spliced in behind the tail block. */
    ghost function Inserted(a: Address, raw: seq<Option<T>>): Layout<T>
      requires Linked() && a !in blocks && |raw| == size
    {
      var block := Block(raw, if ring == [] then a else ring[0], seq(size, _ => false));
      if ring == [] then this.(blocks := blocks[a := block], ring := [a], last := 0)
      else
        var t := ring[|ring| - 1];
        this.(blocks := blocks[t := blocks[t].(next := a)][a := block], ring := ring + [a], last := last + 1)
    }

    lemma InsertedHolds(a: Address, raw: seq<Option<T>>, i: nat)
      requires Linked() && a !in blocks && |raw| == size && Inserted(a, raw).Linked()
      requires Bounds() && tail == (if ring == [] then 0 else (last + 1) * size)
      requires InRing(i) ==> Holds(i)
      requires Inserted(a, raw).InRing(i)
      ensures Inserted(a, raw).Holds(i)
    {
      var l := Inserted(a, raw);
      if i / size == l.last {
        assert i >= tail by { IndexArithmetic.AtOrBefore(l.last, i, size); }
        assert l.ring[i / size - l.First()] == a;
      } else {
        assert l.ring[i / size - l.First()] == ring[i / size - First()];
      }
    }

    lemma InsertedGood(a: Address, raw: seq<Option<T>>)
      requires Good() && a !in blocks && |raw| == size && tail == (if ring == [] then 0 else (last + 1) * size)
      ensures Inserted(a, raw).Good()
    {
      var l := Inserted(a, raw);
      InsertedLinked(a, raw);
      forall i: nat | l.InRing(i) ensures l.Holds(i) { InsertedHolds(a, raw, i); }
    }

    lemma InsertedLinked(a: Address, raw: seq<Option<T>>)
      requires Linked() && a !in blocks && |raw| == size
      ensures Inserted(a, raw).Linked()
    {
      var l := Inserted(a, raw);
      forall i | 0 <= i < |l.ring| ensures l.blocks[l.ring[i]].next == l.ring[if i + 1 < |l.ring| then i + 1 else 0] {
        if i < |ring| - 1 { assert l.blocks[ring[i]] == blocks[ring[i]]; }
      }
    }

    /** The element at the tail is constructed in the tail block. */
    ghost function Enqueued(x: T): Layout<T>
      requires Linked() && ring != []
    {
      var t := ring[|ring| - 1];
      this.(blocks := blocks[t := blocks[t].Put(tail % size, Some(x))], tail := tail + 1, queue := queue + [x])
    }

    lemma SamePlace(i: nat, j: nat)
      requires Linked() && InRing(i) && InRing(j) && ring[i / size - First()] == ring[j / size - First()]
      requires i % size == j % size
      ensures i == j
    {
      assert i == i / size * size + i % size && j == j / size * size + j % size;
    }

    lemma EnqueuedGood(x: T)
      requires Good() && ring != [] && tail < last * size + size
      ensures Enqueued(x).Good()
    {
      var l := Enqueued(x);
      Arithmetic.DivMod(tail, size, last, tail - last * size);
      assert InRing(tail) && ring[tail / size - First()] == ring[|ring| - 1];
      assert l.Linked();
      forall i: nat | l.InRing(i) ensures l.Holds(i) {
        assert InRing(i) && Holds(i);
        if i != tail && i % size == tail % size && i / size == last { SamePlace(i, tail); }
      }
    }

    /** The element at the head is moved out of its block, and flagged. */
    ghost function Dequeued(): Layout<T>
      requires Linked() && InRing(head) && head < tail && |queue| == tail - head
    {
      var a := ring[head / size - First()];
      this.(blocks := blocks[a := blocks[a].Put(head % size, None).SetEmpty(head % size)], head := head + 1,
            queue := queue[1..])
    }

    lemma HeadInRing()
      requires Bounds() && head < tail && size > 1
      ensures InRing(head)
    {
      IndexArithmetic.AtOrBefore(First(), head, size);
      IndexArithmetic.AtOrBefore(last + 1, head, size);
    }

    lemma DequeuedGood()
      requires Good() && head < tail
      ensures InRing(head) && BlockOf(head).elements[head % size] == Some(queue[0]) && Dequeued().Good()
    {
      HeadInRing();
      assert Holds(head);
      var l := Dequeued();
      assert l.Linked();
      forall i: nat | l.InRing(i) ensures l.Holds(i) {
        assert InRing(i) && Holds(i);
        if i != head && i % size == head % size && i / size == head / size { SamePlace(i, head); }
      }
    }
  }

  // --------------------------------------------------------------------------------- operations

  /** Results of the allocators: whether allocating is allowed, memory for a bigger index, a block from the
      pools or the heap. */
  datatype Memory = Memory(canAlloc: bool, forIndex: bool, block: Option<Address>)

  class Producer<T> {
    const blockSize: nat
    const maxSize: nat                    // MAX_SUBQUEUE_SIZE
    const index: BlockIndex
    var tailIndex: nat
    var headIndex: nat
    var dequeueOptimisticCount: nat
    var dequeueOvercommit: nat
    var tailBlock: Option<Address>
    var blocks: map<Address, Block<T>>
    ghost var ring: seq<Address>
    ghost var last: nat
    ghost var queue: seq<T>               // the elements not yet dequeued, oldest first

    ghost function Value(): Layout<T>
      reads this
    {
      Layout(blockSize, blocks, ring, last, headIndex, tailIndex, queue)
    }

    /** The index holds one entry for every block of the ring, with its base. */
    ghost predicate IndexInv()
      reads this, index, index.entries
    {
      && index.Valid() && Matches(index.window, ring, last, blockSize)
      && (ring != [] ==> index.entries.Length == index.size)
    }

    /** The blocks of the ring are no more than the size limit allows. */
    ghost predicate Limited()
      reads this
    {
      maxSize != IndexArithmetic.RANGE - 1 ==>
        blockSize > 0 && maxSize % blockSize == 0 && |ring| * blockSize <= maxSize
    }

    ghost predicate Inv()
      reads this, index, index.entries
    {
      && Value().Good() && IndexInv() && Limited()
      && tailBlock == (if ring == [] then None else Some(ring[|ring| - 1]))
      && dequeueOptimisticCount == headIndex + dequeueOvercommit
    }

    /** Between operations the tail block has been written to. */
    ghost predicate Valid()
      reads this, index, index.entries
    {
      Inv() && (ring != [] ==> tailIndex > last * blockSize)
    }

    constructor (blockSize: nat, maxSize: nat, initialIndexSize: nat, indexMemory: bool)
      requires blockSize > 1 && initialIndexSize > 1
      requires maxSize == IndexArithmetic.RANGE - 1 || maxSize % blockSize == 0
      ensures Valid() && queue == [] && fresh(index) && fresh(index.entries) && headIndex == tailIndex == 0
      ensures this.maxSize == maxSize && this.blockSize == blockSize && blocks == map[]
    {
      this.blockSize, this.maxSize := blockSize, maxSize;
      index := new BlockIndex(initialIndexSize, indexMemory);
      tailIndex, headIndex, dequeueOptimisticCount, dequeueOvercommit := 0, 0, 0, 0;
      tailBlock, blocks := None, map[];
      ring, last, queue := [], 0, [];
    }

    /** The producer takes over at most the block offered. */
    ghost predicate Owned(before: map<Address, Block<T>>, memory: Memory)
      reads this
    {
      blocks.Keys <= before.Keys + (if memory.block.Some? then {memory.block.value} else {})
    }

    lemma AtBoundary()
      requires Valid() && tailIndex % blockSize == 0
      ensures tailIndex == if ring == [] then 0 else (last + 1) * blockSize
    {
      if ring != [] {
        var q := tailIndex / blockSize;
        assert tailIndex == q * blockSize;
        IndexArithmetic.AtOrBefore(q, last * blockSize, blockSize);
        IndexArithmetic.AtOrBefore(q, last * blockSize + blockSize, blockSize);
        Arithmetic.DivMod(last * blockSize, blockSize, last, 0);
        Arithmetic.DivMod(last * blockSize + blockSize, blockSize, last + 1, 0);
      }
    }

    ghost predicate RoomForBlock()
      reads this
    {
      maxSize != IndexArithmetic.RANGE - 1 ==> (|ring| + 1) * blockSize <= maxSize
    }

    /** At the end of a block: when the block ahead is empty, the size limit is not reached, and when it is not and
        the limit is not reached either, one block more is within the limit. */
    lemma WithinLimit()
      requires Valid() && tailIndex % blockSize == 0
      ensures ring != [] && blocks[ring[0]].IsEmpty() ==>
        !IndexArithmetic.Full(headIndex, tailIndex, blockSize, maxSize)
      ensures ring == [] || !blocks[ring[0]].IsEmpty() ==>
        IndexArithmetic.Full(headIndex, tailIndex, blockSize, maxSize) || RoomForBlock()
    {
      AtBoundary();
      if ring != [] { Value().EmptyMeansRoom(); }
      if maxSize != IndexArithmetic.RANGE - 1 { OneMore(|ring|, tailIndex - headIndex, blockSize, maxSize); }
    }

    static lemma OneMore(blocks: nat, count: int, size: nat, limit: nat)
      requires size > 0 && limit % size == 0 && blocks * size <= limit && (blocks == 0 ==> count == 0)
      ensures blocks > 0 && count <= (blocks - 1) * size ==> limit != 0 && limit - size >= count
      ensures (blocks == 0 || count > (blocks - 1) * size) && limit != 0 && limit - size >= count ==>
        (blocks + 1) * size <= limit
    {
      var c := limit / size;
      assert limit == c * size;
      Arithmetic.Distribute(blocks, 1, size);
      Arithmetic.MulOrder(blocks, c, size);
      Arithmetic.MulOrder(c, blocks, size);
      Arithmetic.MulOrder(blocks + 1, c, size);
      if blocks > 0 { Arithmetic.MulAtLeast(blocks, size); }
    }

    /** The block ahead becomes the tail block. */
    method MoveOn() returns (ahead: Address)
      requires Value().Linked() && ring != [] && tailBlock == Some(ring[|ring| - 1])
      modifies this
      ensures Value() == old(Value()).Reused() && ahead == old(ring)[0] && tailBlock == Some(ahead)
      ensures unchanged(`dequeueOptimisticCount) && unchanged(`dequeueOvercommit)
    {
      ahead := blocks[tailBlock.value].next;
      assert blocks[ring[|ring| - 1]].next == ring[0];
      tailBlock := Some(ahead);
      blocks := blocks[ahead := blocks[ahead].ResetEmpty()];
      ring, last := ring[1..] + [ahead], last + 1;
    }

    /** The block ahead is empty: nothing is lost by moving on to it. */
    method MoveToEmpty() returns (ahead: Address)
      requires Value().Good() && ring != [] && blocks[ring[0]].IsEmpty() && tailIndex == (last + 1) * blockSize
      requires tailBlock == Some(ring[|ring| - 1])
      modifies this
      ensures Value().Good() && ahead == old(ring)[0] && tailBlock == Some(ahead) && ring == old(ring)[1..] + [ahead]
      ensures last == old(last) + 1
      ensures blocks.Keys == old(blocks.Keys) && queue == old(queue) && tailIndex == old(tailIndex)
      ensures headIndex == old(headIndex)
      ensures unchanged(`dequeueOptimisticCount) && unchanged(`dequeueOvercommit)
    {
      ghost var v := Value();
      v.ReusedGood();
      ahead := MoveOn();
      assert Value() == v.Reused();
    }

    /** The tail moves on to the empty block ahead, and its entry takes the place of the oldest one. */
    method ReuseBlock()
      requires Valid() && tailIndex % blockSize == 0 && ring != [] && blocks[ring[0]].IsEmpty()
      modifies this, index, index.entries
      ensures Inv() && ring != [] && tailIndex == last * blockSize && blocks.Keys == old(blocks.Keys)
      ensures queue == old(queue) && tailIndex == old(tailIndex) && headIndex == old(headIndex)
      ensures index.entries == old(index.entries)
    {
      AtBoundary();
      MatchesReused(index.window, ring, last, blockSize);
      var ahead := MoveToEmpty();
      index.Put(Entry(tailIndex, ahead), false);
    }

    /** A new block becomes the tail block. */
    method Splice(newBlock: Address, raw: seq<Option<T>>)
      requires Value().Linked() && newBlock !in blocks && |raw| == blockSize
      requires tailBlock == (if ring == [] then None else Some(ring[|ring| - 1]))
      modifies this
      ensures Value() == old(Value()).Inserted(newBlock, raw) && tailBlock == Some(newBlock)
      ensures unchanged(`dequeueOptimisticCount) && unchanged(`dequeueOvercommit)
    {
      if tailBlock.None? {
        blocks := blocks[newBlock := Block(raw, newBlock, seq(blockSize, _ => false))];
        ring, last := [newBlock], 0;
      } else {
        var tail := tailBlock.value;
        var block := Block(raw, blocks[tail].next, seq(blockSize, _ => false));
        blocks := blocks[tail := blocks[tail].(next := newBlock)][newBlock := block];
        ring, last := ring + [newBlock], last + 1;
      }
      tailBlock := Some(newBlock);
    }

    /** A new block gets an entry of its own. */
    method InsertBlock(newBlock: Address)
      requires Valid() && tailIndex % blockSize == 0 && newBlock !in blocks
      requires index.entries.Length == index.size && index.slotsUsed < index.size
      requires RoomForBlock()
      modifies this, index, index.entries
      ensures Inv() && ring != [] && tailIndex == last * blockSize && blocks.Keys == old(blocks.Keys) + {newBlock}
      ensures queue == old(queue) && tailIndex == old(tailIndex) && headIndex == old(headIndex)
      ensures index.entries == old(index.entries)
    {
      AtBoundary();
      var raw := seq(blockSize, _ => None);
      Value().InsertedGood(newBlock, raw);
      MatchesInserted(index.window, ring, last, blockSize, newBlock);
      Splice(newBlock, raw);
      index.Put(Entry(tailIndex, newBlock), true);
    }

    /** What a new block needs: an entry, free or in a bigger index, and a block. */
    ghost predicate Supplies(memory: Memory)
      reads index
    {
      && ((index.entries.Length != 0 && index.slotsUsed != index.size) || (memory.canAlloc && memory.forIndex))
      && memory.block.Some?
    }

    /** The block ahead of the tail block can be reused. */
    ghost predicate BlockAhead()
      reads this
    {
      ring != [] && ring[0] in blocks && blocks[ring[0]].IsEmpty()
    }

    /** A block from the allocators, with an entry in the index. */
    method AddBlock(memory: Memory) returns (ok: bool)
      requires Valid() && tailIndex % blockSize == 0 && RoomForBlock()
      requires memory.block.Some? ==> memory.block.value !in blocks
      modifies this, index, index.entries
      ensures if ok then Inv() && ring != [] && tailIndex == last * blockSize
              else Valid() && unchanged(this)
      ensures ok <==> old(Supplies(memory))
      ensures blocks.Keys == old(blocks.Keys) + if ok then {memory.block.value} else {}
      ensures queue == old(queue) && tailIndex == old(tailIndex) && headIndex == old(headIndex)
      ensures fresh({index.entries} - old({index.entries})) && Owned(old(blocks), memory)
    {
      if index.entries.Length == 0 || index.slotsUsed == index.size {
        if !memory.canAlloc { return false; }
        var grown := index.Grow(memory.forIndex);
        if !grown { return false; }
      }
      if memory.block.None? { return false; }
      InsertBlock(memory.block.value);
      return true;
    }

    /** A block for the next element: the one ahead if it is empty, else one from the allocators. */
    method StartBlock(memory: Memory) returns (ok: bool)
      requires Valid() && tailIndex % blockSize == 0 && (memory.block.Some? ==> memory.block.value !in blocks)
      modifies this, index, index.entries
      ensures if ok then Inv() && ring != [] && tailIndex == last * blockSize else Valid() && unchanged(this)
      ensures queue == old(queue) && tailIndex == old(tailIndex) && headIndex == old(headIndex)
      ensures ok <==> !IndexArithmetic.Full(headIndex, tailIndex, blockSize, maxSize)
                      && (old(BlockAhead()) || old(Supplies(memory)))
      ensures blocks.Keys == old(blocks.Keys) + if ok && !old(BlockAhead()) then {memory.block.value} else {}
      ensures fresh({index.entries} - old({index.entries})) && Owned(old(blocks), memory)
    {
      if ring != [] { assert blocks[ring[|ring| - 1]].next == ring[0]; }
      WithinLimit();
      if tailBlock.Some? && blocks[blocks[tailBlock.value].next].IsEmpty() {
        ReuseBlock();
        return true;
      }
      if IndexArithmetic.Full(headIndex, tailIndex, blockSize, maxSize) { return false; }
      ok := AddBlock(memory);
    }

    /** The element is constructed in the tail block, and counted. */
    method Construct(x: T)
      requires Inv() && ring != [] && last * blockSize <= tailIndex < last * blockSize + blockSize
      modifies this
      ensures Valid() && queue == old(queue) + [x] && blocks.Keys == old(blocks.Keys)
      ensures tailIndex == old(tailIndex) + 1 && headIndex == old(headIndex)
    {
      ghost var v := Value();
      v.EnqueuedGood(x);
      var tail := tailBlock.value;
      blocks := blocks[tail := blocks[tail].Put(tailIndex % blockSize, Some(x))];
      queue := queue + [x];
      tailIndex := tailIndex + 1;
      assert Value() == v.Enqueued(x);
    }

    /** Appends the element or leaves the queue alone. It is refused only at the end of a block, always at the size
        limit, and otherwise exactly if the block ahead is in use and there is no new one. */
    method Enqueue(x: T, memory: Memory) returns (ok: bool)
      requires Valid() && (memory.block.Some? ==> memory.block.value !in blocks)
      modifies this, index, index.entries
      ensures Valid() && queue == if ok then old(queue) + [x] else old(queue)
      ensures headIndex == old(headIndex) && (if ok then tailIndex == old(tailIndex) + 1 else unchanged(this))
      ensures ok <==> old(tailIndex) % blockSize != 0
                      || (!IndexArithmetic.Full(headIndex, old(tailIndex), blockSize, maxSize)
                          && (old(BlockAhead()) || old(Supplies(memory))))
      ensures Fifo.Admits(ok, 1, old(BlockAhead()) || old(Supplies(memory)), old(tailIndex), old(headIndex), blockSize,
                          maxSize)
      ensures fresh({index.entries} - old({index.entries})) && Owned(old(blocks), memory)
    {
      ghost var supplied := BlockAhead() || Supplies(memory);
      if tailIndex % blockSize == 0 {
        var started := StartBlock(memory);
        Fifo.AdmitsOne(started, supplied, tailIndex, headIndex, blockSize, maxSize);
        if !started { return false; }
      } else {
        Fifo.AdmitsOne(true, supplied, tailIndex, headIndex, blockSize, maxSize);
        NotAtBoundary();
      }
      Construct(x);
      ok := true;
    }

    lemma NotAtBoundary()
      requires Valid() && tailIndex % blockSize != 0
      ensures ring != [] && tailIndex < last * blockSize + blockSize
    {
      Arithmetic.DivMod((last + 1) * blockSize, blockSize, last + 1, 0);
    }

    /** The index leads to the block of every element of the ring. */
    method FindBlock(i: nat) returns (block: Address)
      requires IndexInv() && blockSize > 1 && Value().InRing(i)
      ensures block == ring[i / blockSize - (last - |ring| + 1)]
    {
      ghost var k := i / blockSize - (last - |ring| + 1);
      Arithmetic.Distribute(last, -(last - i / blockSize), blockSize);
      block := index.Find(i / blockSize * blockSize, blockSize, k);
    }

    /** The element at the head leaves its block. */
    method TakeOut(block: Address) returns (r: Option<T>)
      requires Value().Linked() && Value().InRing(headIndex) && headIndex < tailIndex
      requires |queue| == tailIndex - headIndex
      requires block == ring[headIndex / blockSize - Value().First()]
      modifies this
      ensures Value() == old(Value()).Dequeued()
      ensures r == old(Value().BlockOf(headIndex)).elements[old(headIndex) % blockSize]
      ensures unchanged(`dequeueOptimisticCount) && unchanged(`dequeueOvercommit) && unchanged(`tailBlock)
    {
      var i := headIndex;
      headIndex := headIndex + 1;
      r := blocks[block].elements[i % blockSize];
      blocks := blocks[block := blocks[block].Put(i % blockSize, None).SetEmpty(i % blockSize)];
      queue := queue[1..];
    }

    /** The element at the head, found through the index, leaves the queue. */
    method TakeHead() returns (r: Option<T>)
      requires Value().Good() && IndexInv() && headIndex < tailIndex
      modifies this
      ensures Value().Good() && r == Some(old(queue)[0]) && queue == old(queue)[1..] && headIndex == old(headIndex) + 1
      ensures tailIndex == old(tailIndex) && ring == old(ring) && last == old(last) && blocks.Keys == old(blocks.Keys)
      ensures unchanged(`dequeueOptimisticCount) && unchanged(`dequeueOvercommit) && unchanged(`tailBlock)
    {
      ghost var v := Value();
      v.DequeuedGood();
      var block := FindBlock(headIndex);
      r := TakeOut(block);
      assert Value() == v.Dequeued();
    }

    /** The second look at the tail, after the optimistic count, sees what the first did when nothing runs
        in between. */
    method Dequeue() returns (r: Option<T>)
      requires Valid()
      modifies this
      ensures Valid() && index.entries == old(index.entries) && blocks.Keys == old(blocks.Keys)
      ensures tailIndex == old(tailIndex)
      ensures r == (if old(queue) == [] then None else Some(old(queue)[0]))
      ensures queue == (if r.None? then [] else old(queue)[1..])
      ensures headIndex == old(headIndex) + if r.None? then 0 else 1
    {
      if dequeueOptimisticCount - dequeueOvercommit >= tailIndex { return None; }
      dequeueOptimisticCount := dequeueOptimisticCount + 1;
      r := TakeHead();
    }
  }

  /** Entry number `k` is that of the block at position `k` of the ring. */
  ghost predicate Matches(window: seq<Entry>, ring: seq<Address>, last: nat, size: nat) {
    && |window| == |ring|
    && (forall k :: 0 <= k < |ring| ==> window[k] == Entry((last - |ring| + 1 + k) * size, ring[k]))
  }

  lemma MatchesReused(window: seq<Entry>, ring: seq<Address>, last: nat, size: nat)
    requires Matches(window, ring, last, size) && ring != []
    ensures Matches(window[1..] + [Entry((last + 1) * size, ring[0])], ring[1..] + [ring[0]], last + 1, size)
  {
  }

  lemma MatchesInserted(window: seq<Entry>, ring: seq<Address>, last: nat, size: nat, a: Address)
    requires Matches(window, ring, last, size)
    ensures var n := if ring == [] then 0 else last + 1;
      Matches(window + [Entry(n * size, a)], ring + [a], n, size)
  {
  }

  // ---------------------------------------------------------------------------------------- runs

  datatype Op<T> = Enqueue(x: T, canAlloc: bool, forIndex: bool, forBlock: bool) | Dequeue

  function RequestOf<T>(op: Op<T>): Fifo.Request<T> {
    match op
    case Enqueue(x, canAlloc, forIndex, forBlock) =>
      Fifo.Offer([x], Fifo.Supply(canAlloc && forIndex && forBlock, None, None))
    case Dequeue => Fifo.Ask
  }

  function Requests<T>(ops: seq<Op<T>>): seq<Fifo.Request<T>> {
    seq(|ops|, i requires 0 <= i < |ops| => RequestOf(ops[i]))
  }

  method Perform<T>(p: Producer<T>, op: Op<T>, block: Address) returns (e: Event<T>)
    requires p.Valid() && block !in p.blocks
    modifies p, p.index, p.index.entries
    ensures p.Valid() && fresh({p.index.entries} - old({p.index.entries}))
    ensures p.blocks.Keys <= old(p.blocks.Keys) + {block}
    ensures Fifo.Answers(e, RequestOf(op), old(p.tailIndex), old(p.headIndex), p.blockSize, p.maxSize)
    ensures Fifo.Does(e, old(p.queue), old(p.tailIndex), old(p.headIndex), p.queue, p.tailIndex, p.headIndex)
  {
    match op {
      case Enqueue(x, canAlloc, forIndex, forBlock) =>
        var memory := Memory(canAlloc, forIndex, if forBlock then Some(block) else None);
        ghost var supplied := p.BlockAhead() || p.Supplies(memory);
        var ok := p.Enqueue(x, memory);
        e := Fifo.Put(if ok then [x] else []);
        Fifo.AnswersOffer(e, ok, RequestOf(op), supplied, old(p.tailIndex), old(p.headIndex), p.blockSize, p.maxSize);
      case Dequeue =>
        var r := p.Dequeue();
        e := Fifo.Take(r);
    }
  }

  /** Every run of a sub-queue is a run of an unbounded first-in first-out queue: what is taken is a prefix
      of what was accepted, and a dequeue finds nothing exactly when all that was accepted is gone. An enqueue is
      refused always at the size limit, otherwise only for want of memory, and only at the end of a block. */
  method Replay<T>(ops: seq<Op<T>>, blockSize: nat, requestedSize: nat, initialIndexSize: nat, indexMemory: bool)
    returns (log: seq<Event<T>>)
    requires blockSize > 1 && initialIndexSize > 1 && requestedSize < IndexArithmetic.RANGE
    ensures |log| == |ops|
    ensures Fifo.Answered(log, Requests(ops), blockSize, IndexArithmetic.MaxSubqueueSize(requestedSize, blockSize))
    ensures Fifo.IsRun(log) && Fifo.Taken(log) <= Fifo.Entered(log)
  {
    var maxSize := IndexArithmetic.MaxSubqueueSize(requestedSize, blockSize);
    IndexArithmetic.LimitIsRounded(requestedSize, blockSize);
    var p := new Producer<T>(blockSize, maxSize, initialIndexSize, indexMemory);
    log := [];
    for n := 0 to |ops|
      invariant p.Valid() && fresh(p) && fresh(p.index) && fresh(p.index.entries)
      invariant p.maxSize == maxSize && p.blockSize == blockSize && forall a :: a in p.blocks ==> a < n
      invariant |log| == n && Fifo.Recorded(log, Requests(ops), p.queue, p.tailIndex, p.headIndex, blockSize, maxSize)
    {
      ghost var queue, entered, taken := p.queue, p.tailIndex, p.headIndex;
      var e := Perform(p, ops[n], n);
      Fifo.RecordedNext(log, Requests(ops), queue, entered, taken, e, p.queue, p.tailIndex, p.headIndex, blockSize,
                        maxSize);
      log := log + [e];
    }
  }
}
