/**
 The sub-queue of an implicit producer: blocks come from a shared pool when the tail enters them, are found
 through the block index, and go back to the pool when their last element is dequeued. Here operations run
 one after the other; consumers that finish in any order are the subject of BlockRelease.
 */
module ImplicitProducer {
  import opened Wrappers
  import Arithmetic
  import Fifo
  import IndexArithmetic
  import ImplicitIndex

  type Address = ImplicitIndex.Address

  // ------------------------------------------------------------------------------------ the pool

  function Addresses(a: nat, b: nat): (s: set<Address>)
    ensures forall x: nat :: x in s <==> a <= x < b
  {
    if a < b then Addresses(a, b - 1) + {b - 1} else {}
  }

  lemma {:induction false} AddressCount(a: nat, b: nat)
    requires a <= b
    ensures |Addresses(a, b)| == b - a
    decreases b
  {
    if a < b { AddressCount(a, b - 1); }
  }

  lemma {:induction false} ElementCount(chain: seq<Address>)
    ensures |Elements(chain)| <= |chain|
  {
    if chain != [] {
      var n := |chain| - 1;
      ElementCount(chain[..n]);
      assert chain == chain[..n] + [chain[n]];
      assert Elements(chain) == Elements(chain[..n]) + {chain[n]};
    }
  }

  lemma Within(s: set<Address>, u: set<Address>)
    requires s <= u
    ensures |s| <= |u|
  {
    assert u == s + (u - s);
  }

  /** The blocks numbered from `lo` to below `hi`. */
  ghost function Used(live: Live, lo: int, hi: int): set<Address>
    decreases hi - lo
  {
    if hi <= lo then {} else Used(live, lo, hi - 1) + if hi - 1 in live then {live[hi - 1]} else {}
  }

  lemma {:induction false} UsedHas(live: Live, lo: int, hi: int, o: int)
    requires lo <= o < hi && o in live
    ensures live[o] in Used(live, lo, hi)
    decreases hi - lo
  {
    if o < hi - 1 { UsedHas(live, lo, hi - 1, o); }
  }

  lemma {:induction false} UsedCount(live: Live, lo: int, hi: int)
    requires lo <= hi
    ensures |Used(live, lo, hi)| <= hi - lo
    decreases hi - lo
  {
    if lo < hi { UsedCount(live, lo, hi - 1); }
  }

  /** Where blocks come from: the initial pool, in order; then the free list, the block added last first; then the
      heap, which numbers its blocks from the end of the pool on. */
  class Pool {
    const initialSize: nat
    const recycle: bool               // RECYCLE_ALLOCATED_BLOCKS
    var initialIndex: nat
    var freeList: seq<Address>
    var known: nat                    // addresses below this exist
    ghost var destroyed: set<Address>
    ghost var free: set<Address>      // in use by nobody

    ghost predicate Valid()
      reads this
    {
      && initialIndex <= initialSize <= known
      && free == Addresses(initialIndex, initialSize) + Elements(freeList) + destroyed
      && (forall i :: 0 <= i < |freeList| ==>
            freeList[i] < known && !(initialIndex <= freeList[i] < initialSize) && freeList[i] !in destroyed)
      && (forall i, j :: 0 <= i < j < |freeList| ==> freeList[i] != freeList[j])
      && (forall a :: a in destroyed ==> initialSize <= a < known)
      && (!recycle ==> forall i :: 0 <= i < |freeList| ==> freeList[i] < initialSize)
    }

    /** The blocks to be had without memory. */
    ghost function Stock(): int
      reads this
    {
      initialSize - initialIndex + |freeList|
    }

    constructor (initialSize: nat, recycle: bool)
      ensures this.initialSize == initialSize
      ensures Valid() && free == Addresses(0, initialSize) && known == initialSize && initialIndex == 0
      ensures freeList == []
    {
      this.initialSize, this.recycle := initialSize, recycle;
      initialIndex, freeList, known := 0, [], initialSize;
      destroyed, free := {}, Addresses(0, initialSize);
    }

    /** The next block of the pool, else the block freed last, else a new one if memory can be had. */
    method Requisition(memory: bool) returns (r: Option<Address>)
      requires Valid()
      modifies this
      ensures Valid() && r == if old(initialIndex) < initialSize then Some(old(initialIndex))
        else if old(freeList) != [] then Some(old(freeList)[0]) else if memory then Some(old(known)) else None
      ensures r.None? ==> unchanged(this)
      ensures !memory ==> known == old(known)
      ensures r.Some? ==> Stock() == if old(Stock()) > 0 then old(Stock()) - 1 else 0
      ensures r.Some? ==> r.value !in free && r.value < known && (r.value in old(free) || r.value >= old(known))
      ensures r.Some? ==> free + {r.value} == old(free) + Addresses(old(known), known) && known >= old(known)
    {
      if initialIndex < initialSize {
        r := Some(initialIndex);
        initialIndex := initialIndex + 1;
        free := free - {r.value};
        return;
      }
      if freeList != [] {
        r := Some(freeList[0]);
        freeList := freeList[1..];
        free := free - {r.value};
        return;
      }
      if !memory { return None; }
      known := known + 1;
      return Some(known - 1);
    }

    /** A block from the heap is destroyed unless allocated blocks are recycled; others go to the free list. */
    method GiveBack(a: Address)
      requires Valid() && a < known && a !in free
      modifies this`freeList, this`destroyed, this`free
      ensures Valid() && free == old(free) + {a}
      ensures freeList == if recycle || a < initialSize then [a] + old(freeList) else old(freeList)
    {
      if !recycle && a >= initialSize {
        destroyed := destroyed + {a};
      } else {
        freeList := [a] + freeList;
      }
      free := free + {a};
    }
  }

  // ---------------------------------------------------------------------------------- the blocks

  datatype Block<T> = Block(elements: seq<Option<T>>, next: Option<Address>, completed: nat)

  type Live = map<int, Address>

  ghost predicate Separate(live: Live) {
    forall o, p :: o in live && p in live && o != p ==> live[o] != live[p]
  }

  ghost predicate Sized<T>(blocks: map<Address, Block<T>>, live: Live, size: nat) {
    forall o :: o in live ==> live[o] in blocks && |blocks[live[o]].elements| == size
  }

  /** The blocks in use are those from the head's to number `top`. */
  ghost predicate Spans(live: Live, size: nat, head: nat, top: int) {
    forall o :: o in live <==> o <= top && head < (o + 1) * size
  }

  lemma BeforeHead(live: Live, size: nat, head: nat, top: int, o: int)
    requires size > 0 && Spans(live, size, head, top) && o < head / size
    ensures o !in live
  {
    IndexArithmetic.AtOrBefore(o + 1, head, size);
  }

  ghost function Dequeued(size: nat, head: nat, o: int): nat {
    if head <= o * size then 0 else head - o * size
  }

  /** Each block counts the elements dequeued from it. */
  ghost predicate Counted<T>(blocks: map<Address, Block<T>>, live: Live, size: nat, head: nat) {
    forall o :: o in live ==> live[o] in blocks && blocks[live[o]].completed == Dequeued(size, head, o)
  }

  ghost predicate HoldsAt<T>(blocks: map<Address, Block<T>>, live: Live, size: nat, head: nat, queue: seq<T>, i: nat)
    requires head <= i < head + |queue|
  {
    && size > 0 && i / size in live && live[i / size] in blocks
    && i % size < |blocks[live[i / size]].elements|
    && blocks[live[i / size]].elements[i % size] == Some(queue[i - head])
  }

  /** The elements from `head` to `end` are in their places. */
  ghost predicate Holds<T>(blocks: map<Address, Block<T>>, live: Live, size: nat, head: nat, end: nat, queue: seq<T>) {
    head + |queue| == end && forall i :: head <= i < end ==> HoldsAt(blocks, live, size, head, queue, i)
  }

  ghost function Constructed<T>(blocks: map<Address, Block<T>>, a: Address, k: nat, x: T): map<Address, Block<T>>
    requires a in blocks && k < |blocks[a].elements|
  {
    blocks[a := blocks[a].(elements := blocks[a].elements[k := Some(x)])]
  }

  /** Constructing the element of index `c` disturbs no other. */
  lemma HoldsMore<T>(blocks: map<Address, Block<T>>, live: Live, size: nat, head: nat, c: nat, queue: seq<T>, x: T)
    requires size > 0 && Separate(live) && Sized(blocks, live, size) && Holds(blocks, live, size, head, c, queue)
    requires c / size in live
    ensures Holds(Constructed(blocks, live[c / size], c % size, x), live, size, head, c + 1, queue + [x])
  {
    var blocks' := Constructed(blocks, live[c / size], c % size, x);
    forall i | head <= i < c + 1 ensures HoldsAt(blocks', live, size, head, queue + [x], i) {
      if i < c {
        assert HoldsAt(blocks, live, size, head, queue, i);
        if i / size == c / size { SameBlock(i, c, size); }
      }
    }
  }

  lemma SameBlock(i: nat, j: nat, size: nat)
    requires size > 0 && i / size == j / size && i != j
    ensures i % size != j % size
  {
    assert i == i / size * size + i % size && j == j / size * size + j % size;
  }

  /** Blocks that keep their elements and counters keep what they hold. */
  ghost predicate Kept<T>(blocks': map<Address, Block<T>>, blocks: map<Address, Block<T>>, live: Live) {
    forall o :: o in live && live[o] in blocks ==>
      && live[o] in blocks' && blocks'[live[o]].elements == blocks[live[o]].elements
      && blocks'[live[o]].completed == blocks[live[o]].completed
  }

  lemma HoldsKept<T>(blocks': map<Address, Block<T>>, blocks: map<Address, Block<T>>, live': Live, live: Live,
                     size: nat, head: nat, end: nat, queue: seq<T>)
    requires Holds(blocks, live, size, head, end, queue) && Kept(blocks', blocks, live)
    requires forall o :: o in live ==> o in live' && live'[o] == live[o]
    ensures Holds(blocks', live', size, head, end, queue)
  {
    forall i | head <= i < end ensures HoldsAt(blocks', live', size, head, queue, i) {
      assert HoldsAt(blocks, live, size, head, queue, i);
    }
  }

  /** The blocks of a sub-queue whose elements from `head` to `end` are queued, up to block number `top`. */
  ghost predicate Content<T>(blocks: map<Address, Block<T>>, live: Live, size: nat, head: nat, end: nat, top: int,
                             queue: seq<T>) {
    && Separate(live) && Sized(blocks, live, size) && Spans(live, size, head, top) && Counted(blocks, live, size, head)
    && Holds(blocks, live, size, head, end, queue) && end <= (top + 1) * size
  }

  function EmptyBlock<T>(size: nat): Block<T> { Block(seq(size, _ => None), None, 0) }

  /** Block `a` starts out empty, and the others keep their elements and counters. */
  ghost predicate Gained<T>(blocks': map<Address, Block<T>>, blocks: map<Address, Block<T>>, a: Address, size: nat) {
    && a in blocks' && |blocks'[a].elements| == size && blocks'[a].completed == 0
    && forall b :: b in blocks && b != a ==>
         b in blocks' && blocks'[b].elements == blocks[b].elements && blocks'[b].completed == blocks[b].completed
  }

  /** A block more after the last one. */
  lemma ContentMore<T>(blocks': map<Address, Block<T>>, blocks: map<Address, Block<T>>, live: Live, size: nat,
                       head: nat, end: nat, top: int, queue: seq<T>, a: Address)
    requires size > 0 && Content(blocks, live, size, head, end, top, queue) && (forall o :: o in live ==> live[o] != a)
    requires Gained(blocks', blocks, a, size)
    ensures Content(blocks', live[top + 1 := a], size, head, end, top + 1, queue)
  {
    var live' := live[top + 1 := a];
    Arithmetic.Distribute(top + 1, 1, size);
    assert Spans(live', size, head, top + 1);
    HoldsKept(blocks', blocks, live', live, size, head, end, queue);
  }

  /** An element more at the end. */
  lemma ContentPut<T>(blocks: map<Address, Block<T>>, live: Live, size: nat, head: nat, end: nat, top: int,
                      queue: seq<T>, x: T)
    requires size > 0 && Content(blocks, live, size, head, end, top, queue) && end < (top + 1) * size
    ensures end / size in live && live[end / size] in blocks && end % size < |blocks[live[end / size]].elements|
    ensures Content(Constructed(blocks, live[end / size], end % size, x), live, size, head, end + 1, top, queue + [x])
  {
    assert end / size in live by {
      IndexArithmetic.AtOrBefore(top + 1, end, size);
      Arithmetic.Distribute(end / size, 1, size);
      assert end == end / size * size + end % size;
    }
    HoldsMore(blocks, live, size, head, end, queue, x);
  }

  ghost function Removed<T>(blocks: map<Address, Block<T>>, a: Address, k: nat): map<Address, Block<T>>
    requires a in blocks && k < |blocks[a].elements|
  {
    blocks[a := blocks[a].(elements := blocks[a].elements[k := None], completed := blocks[a].completed + 1)]
  }

  /** The head's block holds the oldest element, and this is its last one exactly when the count says so. */
  lemma HeadBlock<T>(blocks: map<Address, Block<T>>, live: Live, size: nat, head: nat, end: nat, top: int,
                     queue: seq<T>)
    requires size > 0 && Content(blocks, live, size, head, end, top, queue) && head < end
    ensures var o := head / size;
      && o in live && live[o] in blocks && head % size < |blocks[live[o]].elements|
      && blocks[live[o]].elements[head % size] == Some(queue[0])
      && blocks[live[o]].completed == head % size
      && (blocks[live[o]].completed == size - 1 <==> head + 1 == (o + 1) * size)
  {
    assert HoldsAt(blocks, live, size, head, queue, head);
    assert head == head / size * size + head % size;
    Arithmetic.Distribute(head / size, 1, size);
  }

  lemma SpansNext(live: Live, size: nat, head: nat, top: int)
    requires size > 0 && Spans(live, size, head, top)
    ensures var o := head / size; Spans(if head + 1 == (o + 1) * size then live - {o} else live, size, head + 1, top)
  {
    var o := head / size;
    var live' := if head + 1 == (o + 1) * size then live - {o} else live;
    forall p ensures p in live' <==> p <= top && head + 1 < (p + 1) * size {
      if head + 1 == (p + 1) * size {
        Arithmetic.Distribute(p, 1, size);
        Arithmetic.DivMod(head, size, p, size - 1);
      }
    }
  }

  lemma HoldsLess<T>(blocks: map<Address, Block<T>>, live: Live, size: nat, head: nat, end: nat, top: int,
                     queue: seq<T>)
    requires size > 0 && Content(blocks, live, size, head, end, top, queue) && head < end
    requires head / size in live && live[head / size] in blocks && head % size < |blocks[live[head / size]].elements|
    ensures var o := head / size;
      Holds(Removed(blocks, live[o], head % size), if head + 1 == (o + 1) * size then live - {o} else live, size,
            head + 1, end, queue[1..])
  {
    var o := head / size;
    var live' := if head + 1 == (o + 1) * size then live - {o} else live;
    var blocks' := Removed(blocks, live[o], head % size);
    var head', rest := head + 1, queue[1..];
    forall i | head' <= i < end ensures HoldsAt(blocks', live', size, head', rest, i) {
      assert HoldsAt(blocks, live, size, head, queue, i);
      IndexArithmetic.AtOrBefore(o + 1, i, size);
      if i / size == o { SameBlock(i, head, size); }
    }
  }

  lemma DequeuedNext(size: nat, head: nat, o: int)
    requires size > 0 && head < (o + 1) * size
    ensures Dequeued(size, head + 1, o) == Dequeued(size, head, o) + if o == head / size then 1 else 0
  {
    if o == head / size { assert head == o * size + head % size; } else { LaterBlock(head, o, size); }
  }

  lemma CountedNext<T>(blocks: map<Address, Block<T>>, live: Live, size: nat, head: nat)
    requires size > 0 && Separate(live) && Sized(blocks, live, size) && Counted(blocks, live, size, head)
    requires head / size in live
    ensures var blocks' := Removed(blocks, live[head / size], head % size);
      && Sized(blocks', live, size)
      && forall o :: o in live && head < (o + 1) * size ==> blocks'[live[o]].completed == Dequeued(size, head + 1, o)
  {
    var p := head / size;
    var blocks' := Removed(blocks, live[p], head % size);
    forall o | o in live && head < (o + 1) * size ensures blocks'[live[o]].completed == Dequeued(size, head + 1, o) {
      DequeuedNext(size, head, o);
    }
  }

  lemma LaterBlock(head: nat, o: int, size: nat)
    requires size > 0 && head < (o + 1) * size && o != head / size
    ensures head < o * size
  {
    IndexArithmetic.AtOrBefore(o + 1, head, size);
    IndexArithmetic.AtOrBefore(o, head, size);
  }

  lemma ContentTake<T>(blocks: map<Address, Block<T>>, live: Live, size: nat, head: nat, end: nat, top: int,
                       queue: seq<T>)
    requires size > 0 && Content(blocks, live, size, head, end, top, queue) && head < end
    requires head / size in live && live[head / size] in blocks && head % size < |blocks[live[head / size]].elements|
    ensures var o := head / size;
      Content(Removed(blocks, live[o], head % size), if head + 1 == (o + 1) * size then live - {o} else live, size,
              head + 1, end, top, queue[1..])
  {
    SpansNext(live, size, head, top);
    HoldsLess(blocks, live, size, head, end, top, queue);
    CountedNext(blocks, live, size, head);
  }

  // --------------------------------------------------------------------- blocks reserved in bulk

  ghost predicate At(live: Live, o: int, a: Address) { o in live && live[o] == a }

  ghost predicate Uses(live: Live, a: Address) { exists o :: At(live, o, a) }

  ghost predicate NoneLost(known: nat, free: set<Address>, live: Live) {
    forall a :: 0 <= a < known ==> a in free || Uses(live, a)
  }

  lemma NoneLostMore(known: nat, free: set<Address>, live: Live, known': nat, free': set<Address>, o: int, a: Address)
    requires NoneLost(known, free, live) && o !in live
    requires free' + {a} == free + Addresses(known, known') && known <= known'
    ensures NoneLost(known', free', live[o := a])
  {
    forall b | 0 <= b < known' ensures b in free' || Uses(live[o := a], b) {
      assert b in free || b in Addresses(known, known') ==> b in free' + {a};
      if b == a {
        assert At(live[o := a], o, a);
      } else if b !in free' {
        var p :| At(live, p, b);
        assert At(live[o := a], p, b);
      }
    }
  }

  lemma NoneLostLess(known: nat, free: set<Address>, live: Live, o: int)
    requires NoneLost(known, free, live) && o in live
    ensures NoneLost(known, free + {live[o]}, live - {o})
  {
    forall b | 0 <= b < known ensures b in free + {live[o]} || Uses(live - {o}, b) {
      if b !in free && b != live[o] {
        var p :| At(live, p, b);
        assert At(live - {o}, p, b);
      }
    }
  }

  lemma NoneLostChain(known: nat, free: set<Address>, live: Live, known': nat, free': set<Address>, base: int,
                      chain: seq<Address>)
    requires NoneLost(known, free, live) && forall o :: o in live ==> o < base
    requires free' + Elements(chain) == free + Addresses(known, known') && known <= known'
    ensures NoneLost(known', free', Extended(live, base, chain))
  {
    var live' := Extended(live, base, chain);
    forall b | 0 <= b < known' ensures b in free' || Uses(live', b) {
      assert b in free || b in Addresses(known, known') ==> b in free' + Elements(chain);
      if b in chain {
        var k :| 0 <= k < |chain| && chain[k] == b;
        ExtendedAt(live, base, chain, k);
        assert At(live', base + k, b);
      } else if b !in free' {
        var p :| At(live, p, b);
        ExtendedBefore(live, base, chain, p);
        assert At(live', p, b);
      }
    }
  }

  /** The blocks of `live` and those of `chain`, numbered from `base` on. */
  ghost function Extended(live: Live, base: int, chain: seq<Address>): Live {
    if chain == [] then live else
      var n := |chain| - 1;
      Extended(live, base, chain[..n])[base + n := chain[n]]
  }

  lemma ExtendedMore(live: Live, base: int, chain: seq<Address>, a: Address)
    ensures Extended(live, base, chain + [a]) == Extended(live, base, chain)[base + |chain| := a]
  {
    assert (chain + [a])[..|chain|] == chain;
  }

  lemma ExtendedTop(live: Live, t0: int, chain: seq<Address>, a: Address, top: int)
    requires top == t0 + |chain| + 1
    ensures Extended(live, t0 + 1, chain)[top := a] == Extended(live, t0 + 1, chain + [a])
  {
    ExtendedMore(live, t0 + 1, chain, a);
  }

  lemma {:induction false} ExtendedAt(live: Live, base: int, chain: seq<Address>, k: nat)
    requires k < |chain|
    ensures At(Extended(live, base, chain), base + k, chain[k])
  {
    if k < |chain| - 1 { ExtendedAt(live, base, chain[..|chain| - 1], k); }
  }

  lemma {:induction false} ExtendedBefore(live: Live, base: int, chain: seq<Address>, o: int)
    requires o < base
    ensures o in Extended(live, base, chain) <==> o in live
    ensures o in live ==> At(Extended(live, base, chain), o, live[o])
  {
    if chain != [] { ExtendedBefore(live, base, chain[..|chain| - 1], o); }
  }

  lemma {:induction false} ExtendedFront(live: Live, base: int, chain: seq<Address>)
    requires chain != [] && base !in live
    ensures Extended(live, base, chain) - {base} == Extended(live, base + 1, chain[1..])
  {
    var n := |chain| - 1;
    if n > 0 {
      ExtendedFront(live, base, chain[..n]);
      RemoveOther(Extended(live, base, chain[..n]), base, base + n, chain[n]);
      assert chain[..n][1..] == chain[1..][..n - 1];
    }
  }

  lemma ExtendedNext(live: Live, base: int, chain: seq<Address>)
    requires chain != [] && base !in live
    ensures base in Extended(live, base, chain)
    ensures Extended(live, base, chain) - {base} == Extended(live, base + 1, chain[1..])
  {
    ExtendedAt(live, base, chain, 0);
    ExtendedFront(live, base, chain);
  }

  lemma NextBase(o: int, size: nat)
    requires size > 0 && o >= -1
    ensures o * size + size == (o + 1) * size >= 0 && (o * size + size) / size == o + 1
  {
    Arithmetic.Distribute(o, 1, size);
    Arithmetic.MulOrder(0, o + 1, size);
    Arithmetic.DivMod((o + 1) * size, size, o + 1, 0);
  }

  lemma RemoveOther(m: Live, j: int, k: int, a: Address)
    requires j != k
    ensures m[k := a] - {j} == (m - {j})[k := a]
  {}

  /** The blocks of the chain are linked in order, and the last one ends it. */
  ghost predicate Chained<T>(blocks: map<Address, Block<T>>, chain: seq<Address>) {
    && (forall k :: 0 <= k < |chain| ==> chain[k] in blocks)
    && (forall k :: 0 <= k < |chain| ==> blocks[chain[k]].next == if k + 1 < |chain| then Some(chain[k + 1]) else None)
  }

  lemma ChainNext<T>(blocks: map<Address, Block<T>>, chain: seq<Address>, k: nat)
    requires Chained(blocks, chain) && k < |chain|
    ensures chain[k] in blocks && blocks[chain[k]].next == if k + 1 < |chain| then Some(chain[k + 1]) else None
  {}

  ghost predicate LinkedTo<T>(blocks: map<Address, Block<T>>, a: Address, chain: seq<Address>) {
    chain != [] ==> a in blocks && blocks[a].next == Some(chain[0])
  }

  /** The block `from`, if any, points to `a`. */
  function Joined<T>(blocks: map<Address, Block<T>>, from: Option<Address>, a: Address): map<Address, Block<T>>
    requires from.Some? ==> from.value in blocks
  {
    if from.Some? then blocks[from.value := blocks[from.value].(next := Some(a))] else blocks
  }

  lemma ChainedMore<T>(blocks: map<Address, Block<T>>, chain: seq<Address>, from: Option<Address>, a: Address,
                       size: nat)
    requires Chained(blocks, chain) && a !in chain && (forall i, j :: 0 <= i < j < |chain| ==> chain[i] != chain[j])
    requires from.Some? ==> from.value in blocks && from.value != a
    requires chain != [] ==> from == Some(chain[|chain| - 1])
    ensures Chained(Joined(blocks[a := EmptyBlock(size)], from, a), chain + [a])
  {
  }

  lemma ChainLinks<T>(blocks: map<Address, Block<T>>, live0: Live, t0: int, start: Option<Address>, chain: seq<Address>)
    requires Chained(blocks, chain)
    requires start.Some? ==> At(live0, t0, start.value) && start.value in blocks && LinkedTo(blocks, start.value, chain)
    ensures var live := Extended(live0, t0 + 1, chain);
      && Links(blocks, live, if start.None? then t0 + 1 else t0, t0 + |chain|)
      && (forall k :: 0 <= k < |chain| ==> At(live, t0 + 1 + k, chain[k]))
      && (start.Some? ==> At(live, t0, start.value))
  {
    var live, from := Extended(live0, t0 + 1, chain), if start.None? then t0 + 1 else t0;
    forall k | 0 <= k < |chain| ensures At(live, t0 + 1 + k, chain[k]) { ExtendedAt(live0, t0 + 1, chain, k); }
    if start.Some? { ExtendedBefore(live0, t0 + 1, chain, t0); }
    forall o | from <= o <= t0 + |chain| ensures o in live {
      if o > t0 { assert At(live, t0 + 1 + (o - t0 - 1), chain[o - t0 - 1]); }
    }
    forall o | from <= o < t0 + |chain| ensures LinkAt(blocks, live, o) {
      assert At(live, t0 + 1 + (o - t0), chain[o - t0]);
      if o > t0 {
        assert At(live, t0 + 1 + (o - t0 - 1), chain[o - t0 - 1]);
        ChainNext(blocks, chain, o - t0 - 1);
      }
    }
  }

  /** Without the blocks of the chain the rest is as it was. */
  lemma ContentLess<T>(blocks: map<Address, Block<T>>, live: Live, size: nat, head: nat, end: nat, top: int,
                       queue: seq<T>, chain: seq<Address>)
    requires size > 0 && Content(blocks, Extended(live, top + 1, chain), size, head, end, top + |chain|, queue)
    requires Spans(live, size, head, top) && end <= (top + 1) * size
    ensures Content(blocks, live, size, head, end, top, queue)
  {
    var more := Extended(live, top + 1, chain);
    forall o | o in live ensures At(more, o, live[o]) { ExtendedBefore(live, top + 1, chain, o); }
    forall i | head <= i < end ensures HoldsAt(blocks, live, size, head, queue, i) {
      assert HoldsAt(blocks, more, size, head, queue, i);
      IndexArithmetic.AtOrBefore(top + 1, i, size);
      ExtendedBefore(live, top + 1, chain, i / size);
    }
  }

  lemma AccountMore(free: set<Address>, known: nat, f: set<Address>, w: nat, f': set<Address>, w': nat,
                    chain: seq<Address>, a: Address)
    requires known <= w <= w' && f + Elements(chain) == free + Addresses(known, w) && f' + {a} == f + Addresses(w, w')
    ensures f' + Elements(chain + [a]) == free + Addresses(known, w')
  {
    assert Elements(chain + [a]) == Elements(chain) + {a};
    assert Addresses(known, w') == Addresses(known, w) + Addresses(w, w');
  }

  ghost predicate SameLinks<T>(blocks': map<Address, Block<T>>, blocks: map<Address, Block<T>>) {
    forall a :: a in blocks ==> a in blocks' && blocks'[a].next == blocks[a].next
  }

  /** Blocks `from` to `top` are linked in order. */
  ghost predicate Links<T>(blocks: map<Address, Block<T>>, live: Live, from: int, top: int) {
    && (forall o :: from <= o <= top ==> o in live)
    && (forall o :: from <= o < top ==> LinkAt(blocks, live, o))
  }

  ghost predicate LinkAt<T>(blocks: map<Address, Block<T>>, live: Live, o: int) {
    o in live && o + 1 in live && live[o] in blocks && blocks[live[o]].next == Some(live[o + 1])
  }

  lemma LinksKept<T>(blocks': map<Address, Block<T>>, blocks: map<Address, Block<T>>, live: Live, from: int, top: int)
    requires Links(blocks, live, from, top) && SameLinks(blocks', blocks)
    ensures Links(blocks', live, from, top)
  {
    forall o | from <= o < top ensures LinkAt(blocks', live, o) { assert LinkAt(blocks, live, o); }
  }

  ghost function Elements(chain: seq<Address>): set<Address> { set a | a in chain }

  // ---------------------------------------------------------------------------------- operations

  /** Whether an operation may allocate, and whether memory can be had for the `k`th index and block. */
  datatype Memory = Memory(canAlloc: bool, forIndex: nat -> bool, forBlock: nat -> bool, garbage: Option<Address>)

  /** Whatever a call asks for to enlarge the index, it gets, and likewise for blocks. */
  ghost predicate IndexGrows(memory: Memory) { memory.canAlloc && forall k :: memory.forIndex(k) }

  ghost predicate BlocksGrow(memory: Memory) { memory.canAlloc && forall k :: memory.forBlock(k) }

  class Producer<T> {
    const blockSize: nat
    const maxSize: nat                    // MAX_SUBQUEUE_SIZE
    const index: ImplicitIndex.BlockIndex
    const pool: Pool
    var tailIndex: nat
    var headIndex: nat
    var dequeueOptimisticCount: nat
    var dequeueOvercommit: nat
    var tailBlock: Option<Address>
    var blocks: map<Address, Block<T>>
    ghost var queue: seq<T>               // the elements not yet dequeued, oldest first

    /** The blocks in use are not free. */
    ghost predicate Owns()
      reads this, index, pool
    {
      && index.Settled() && index.size == blockSize && pool.Valid()
      && forall o :: o in index.live ==> index.live[o] < pool.known && index.live[o] !in pool.free
    }

    ghost predicate Inv()
      reads this, index, pool
    {
      && Owns() && Content(blocks, index.live, blockSize, headIndex, tailIndex, index.top, queue)
      && dequeueOptimisticCount == headIndex + dequeueOvercommit
    }

    /** Between operations the last block is the tail's, if the tail is inside one. */
    ghost predicate Valid()
      reads this, index, pool
    {
      && Inv() && index.top * blockSize < tailIndex
      && (tailIndex % blockSize != 0 ==>
            tailIndex / blockSize in index.live && tailBlock == Some(index.live[tailIndex / blockSize]))
    }

    constructor (blockSize: nat, maxSize: nat, pool: Pool, initialIndexSize: nat, memory: bool,
                 garbage: Option<Address>)
      requires blockSize > 1 && initialIndexSize > 0 && pool.Valid()
      ensures Valid() && queue == [] && this.pool == pool && fresh(index) && this.maxSize == maxSize
      ensures index.built == memory && index.initialCapacity == initialIndexSize
      ensures this.blockSize == blockSize && headIndex == tailIndex == 0 && index.live == map[]
    {
      this.blockSize, this.maxSize, this.pool := blockSize, maxSize, pool;
      index := new ImplicitIndex.BlockIndex(blockSize, initialIndexSize, memory, garbage);
      tailIndex, headIndex, dequeueOptimisticCount, dequeueOvercommit := 0, 0, 0, 0;
      tailBlock, blocks, queue := None, map[], [];
      new;
      forall o ensures o in index.live <==> o <= -1 && 0 < (o + 1) * blockSize {
        if o <= -2 { Arithmetic.MulAtLeast(-o - 1, blockSize); }
      }
    }

    /** Block `a` left the pool, which may have grown. */
    ghost predicate Took(a: Address, free: set<Address>, known: nat)
      reads pool
    {
      pool.known >= known && pool.free + {a} == free + Addresses(known, pool.known) && a !in pool.free
    }

    /** Every block that exists is free or in use here, as it is if no other producer draws on the pool. */
    ghost predicate Kept()
      reads index, pool
    {
      NoneLost(pool.known, pool.free, index.live)
    }

    /** What one block needs: an index entry, free or in a bigger index, and a block, in stock or new. */
    ghost predicate Supplies(canAlloc: bool, forIndex: bool, forBlock: bool)
      reads index, pool
    {
      && index.built && (index.Value().Room() || (canAlloc && forIndex))
      && (pool.Stock() > 0 || (canAlloc && forBlock))
    }

    ghost function InUse(): int
      reads this, index
      requires blockSize > 0
    {
      index.top - headIndex / blockSize + 1
    }

    /** What `n` blocks need: there are entries for them and blocks in stock, or all the memory asked for. */
    ghost predicate Supplied(memory: Memory, n: int)
      reads this, index, pool
      requires blockSize > 0
    {
      && index.built && (InUse() + n <= |index.ring| || IndexGrows(memory))
      && (n <= pool.Stock() || BlocksGrow(memory))
    }

    /** Then the next one of them has what it needs. */
    lemma SuppliesNext(memory: Memory, n: int, k: nat)
      requires Owns() && blockSize > 1 && Spans(index.live, blockSize, headIndex, index.top)
      requires n > 0 && Supplied(memory, n)
      ensures Supplies(memory.canAlloc, memory.forIndex(k), memory.forBlock(k))
    {
      if InUse() + n <= |index.ring| {
        BeforeHead(index.live, blockSize, headIndex, index.top, index.top + 1 - |index.ring|);
        index.Value().RoomIfNotLive();
      }
    }

    /** The blocks of the initial pool that are not in use are in stock. */
    lemma StockLeft()
      requires Inv() && blockSize > 1 && Kept() && InUse() >= 0
      ensures pool.Stock() + InUse() >= pool.initialSize
    {
      var lo, hi := headIndex / blockSize, index.top + 1;
      var all, used := Addresses(0, pool.initialSize), Used(index.live, lo, hi);
      var stock := Addresses(pool.initialIndex, pool.initialSize) + Elements(pool.freeList);
      forall a | a in all ensures a in stock + used {
        if a !in pool.free {
          var o :| At(index.live, o, a);
          IndexArithmetic.AtOrBefore(o + 1, headIndex, blockSize);
          UsedHas(index.live, lo, hi, o);
        }
      }
      AddressCount(0, pool.initialSize);
      AddressCount(pool.initialIndex, pool.initialSize);
      ElementCount(pool.freeList);
      UsedCount(index.live, lo, hi);
      Within(all, stock + used);
    }

    lemma InUseNow()
      requires Valid()
      ensures blockSize > 1 && InUse() == Fifo.BlocksInUse(tailIndex, headIndex, blockSize) >= 0
    {
      ReservedNone();
      if headIndex < tailIndex { IndexArithmetic.AtOrBefore(headIndex / blockSize, tailIndex - 1, blockSize); }
      else { Fifo.OneElement(tailIndex, blockSize); }
    }

    /** What a call can count on is enough. */
    lemma CountedOn(memory: Memory, count: nat)
      requires Valid() && Kept()
      ensures blockSize > 0
      ensures var supply := SupplyOf(memory, index.built, index.initialCapacity, pool.initialSize);
        Fifo.SufficesFor(supply, count, tailIndex, headIndex, blockSize) ==> SuppliedFor(memory, count)
    {
      InUseNow();
      StockLeft();
    }

    lemma SuppliesOne(memory: Memory)
      requires Valid() && tailIndex % blockSize == 0
      ensures SuppliedFor(memory, 1) ==> Supplies(memory.canAlloc, memory.forIndex(0), memory.forBlock(0))
    {
      Fifo.OneElement(tailIndex, blockSize);
      if SuppliedFor(memory, 1) { SuppliesNext(memory, 1, 0); }
    }

    /** A block is granted only below the size limit, and denied only at the limit or for want of what it needs. */
    ghost predicate Granted(ok: bool, base: int, supplied: bool)
      reads this
    {
      var full := IndexArithmetic.Full(headIndex, base, blockSize, maxSize);
      if ok then !full else full || !supplied
    }

    /** At most one entry and one block have been used up. */
    ghost predicate Spent(ring: nat, stock: int)
      reads index, pool
    {
      |index.ring| >= ring && pool.Stock() >= stock - 1
    }

    /** No memory has been asked for. */
    ghost predicate NoMore(ring: nat, known: nat)
      reads index, pool
    {
      |index.ring| == ring && pool.known == known
    }

    /** A block for the entry just claimed, which is given up again if there is none. */
    method FillEntry(id: nat, memory: bool) returns (r: Option<Address>)
      requires index.Valid() && index.size == blockSize && pool.Valid()
      requires index.pending == Some(index.top) && index.IsEntry(id, index.top)
      requires forall o :: o in index.live ==>
        o < index.top && index.live[o] < pool.known && index.live[o] !in pool.free
      modifies index, pool
      ensures Owns() && index.ring == old(index.ring)
      ensures (r.Some? <==> old(pool.Stock()) > 0 || memory) && (!memory ==> pool.known == old(pool.known))
      ensures r.None? ==> index.live == old(index.live) && index.top == old(index.top) - 1 && unchanged(pool)
      ensures r.Some? ==> index.top == old(index.top) && index.live == old(index.live)[index.top := r.value]
      ensures r.Some? ==>
        && Took(r.value, old(pool.free), old(pool.known)) && pool.Stock() >= old(pool.Stock()) - 1
        && forall o :: o in old(index.live) ==> old(index.live)[o] != r.value
    {
      r := pool.Requisition(memory);
      if r.None? { index.Abandon(id); } else { index.Fill(id, r.value); }
    }

    /** The next block: an index entry and a block from the pool, or nothing at all. */
    method NewBlock(base: int, canAlloc: bool, forIndex: bool, forBlock: bool, garbage: Option<Address>)
      returns (r: Option<Address>)
      requires Owns() && base == (index.top + 1) * blockSize
      modifies index, pool
      ensures Owns()
      ensures r.None? ==> index.live == old(index.live) && index.top == old(index.top) && unchanged(pool)
      ensures r.Some? ==> index.top == old(index.top) + 1 && index.live == old(index.live)[index.top := r.value]
      ensures r.Some? ==>
        && Took(r.value, old(pool.free), old(pool.known))
        && forall o :: o in old(index.live) ==> old(index.live)[o] != r.value
      ensures r.Some? <==> !IndexArithmetic.Full(headIndex, base, blockSize, maxSize)
                           && old(Supplies(canAlloc, forIndex, forBlock))
      ensures r.Some? ==> Spent(old(|index.ring|), old(pool.Stock()))
      ensures !canAlloc ==> NoMore(old(|index.ring|), old(pool.known))
    {
      if IndexArithmetic.Full(headIndex, base, blockSize, maxSize) { return None; }
      var inserted, id := index.Insert(base, canAlloc, forIndex, garbage);
      if !inserted { return None; }
      r := FillEntry(id, canAlloc && forBlock);
    }

    method TakeBlock(base: int, canAlloc: bool, forIndex: bool, forBlock: bool, garbage: Option<Address>)
      returns (r: Option<Address>)
      requires Owns() && base == (index.top + 1) * blockSize
      modifies index, pool
      ensures Owns()
      ensures r.None? ==> index.live == old(index.live) && index.top == old(index.top) && unchanged(pool)
      ensures r.Some? ==>
        && index.top == old(index.top) + 1 && index.live == old(index.live)[index.top := r.value]
        && forall o :: o in old(index.live) ==> old(index.live)[o] != r.value
      ensures r.Some? <==> !IndexArithmetic.Full(headIndex, base, blockSize, maxSize)
                           && old(Supplies(canAlloc, forIndex, forBlock))
      ensures !canAlloc ==> NoMore(old(|index.ring|), old(pool.known))
      ensures old(Kept()) ==> Kept()
    {
      r := NewBlock(base, canAlloc, forIndex, forBlock, garbage);
      if r.Some? && old(Kept()) {
        NoneLostMore(old(pool.known), old(pool.free), old(index.live), pool.known, pool.free, index.top, r.value);
      }
    }

    /** Constructs an element behind the last one. */
    method Construct(x: T)
      requires Inv() && tailIndex < (index.top + 1) * blockSize && blockSize > 1 && tailIndex / blockSize in index.live
      requires tailBlock == Some(index.live[tailIndex / blockSize]) && tailBlock.value in blocks
      modifies this
      ensures Inv() && queue == old(queue) + [x] && tailIndex == old(tailIndex) + 1 && tailBlock == old(tailBlock)
      ensures headIndex == old(headIndex)
    {
      ContentPut(blocks, index.live, blockSize, headIndex, tailIndex, index.top, queue, x);
      var block := blocks[tailBlock.value];
      blocks := blocks[tailBlock.value := block.(elements := block.elements[tailIndex % blockSize := Some(x)])];
      tailIndex := tailIndex + 1;
      queue := queue + [x];
    }

    /** A block for the next element. */
    method StartBlock(memory: Memory) returns (ok: bool)
      requires Valid() && tailIndex % blockSize == 0
      modifies this`blocks, this`tailBlock, index, pool
      ensures if ok then Inv() && index.top * blockSize == tailIndex && index.top in index.live
                         && tailBlock == Some(index.live[index.top])
              else Valid() && unchanged(this) && unchanged(pool) && index.live == old(index.live)
      ensures ok <==> !IndexArithmetic.Full(headIndex, tailIndex, blockSize, maxSize)
                      && old(Supplies(memory.canAlloc, memory.forIndex(0), memory.forBlock(0)))
      ensures !memory.canAlloc ==> NoMore(old(|index.ring|), old(pool.known))
      ensures old(Kept()) ==> Kept()
    {
      Boundary(index.top, tailIndex, blockSize);
      var newBlock := TakeBlock(tailIndex, memory.canAlloc, memory.forIndex(0), memory.forBlock(0), memory.garbage);
      if newBlock.None? { return false; }
      blocks := blocks[newBlock.value := EmptyBlock(blockSize)];
      ContentMore(blocks, old(blocks), old(index.live), blockSize, headIndex, tailIndex, old(index.top), queue,
                  newBlock.value);
      tailBlock := newBlock;
      ok := true;
    }

    /** Appends the element or leaves the queue alone. */
    method Enqueue(x: T, memory: Memory) returns (ok: bool)
      requires Valid()
      modifies this, index, pool
      ensures Valid() && queue == if ok then old(queue) + [x] else old(queue)
      ensures headIndex == old(headIndex) && tailIndex == old(tailIndex) + if ok then 1 else 0
      ensures !ok ==> unchanged(this) && unchanged(pool) && index.live == old(index.live)
      ensures ok <==> old(tailIndex) % blockSize != 0
                      || (!IndexArithmetic.Full(headIndex, old(tailIndex), blockSize, maxSize)
                          && old(Supplies(memory.canAlloc, memory.forIndex(0), memory.forBlock(0))))
      ensures Fifo.Admits(ok, 1, old(SuppliedFor(memory, 1)), old(tailIndex), old(headIndex), blockSize, maxSize)
      ensures !memory.canAlloc ==> NoMore(old(|index.ring|), old(pool.known))
      ensures old(Kept()) ==> Kept()
    {
      ghost var supplied := SuppliedFor(memory, 1);
      if tailIndex % blockSize == 0 {
        SuppliesOne(memory);
        ok := StartBlock(memory);
        Fifo.AdmitsOne(ok, supplied, tailIndex, headIndex, blockSize, maxSize);
        if !ok { return; }
        Arithmetic.DivMod(tailIndex, blockSize, index.top, 0);
      } else {
        Fifo.AdmitsOne(true, supplied, tailIndex, headIndex, blockSize, maxSize);
        Inside(index.top, tailIndex, blockSize);
      }
      ghost var tail := tailIndex;
      Construct(x);
      NextInside(tail, blockSize);
      ok := true;
    }

    /** Block number `o` goes back to the pool. */
    method Release(id: nat, a: Address, ghost o: int)
      requires Owns() && Separate(index.live) && index.IsEntry(id, o) && o in index.live && index.live[o] == a
      modifies index, pool
      ensures Owns() && index.top == old(index.top) && index.live == old(index.live) - {o}
      ensures pool.known == old(pool.known) && pool.free == old(pool.free) + {a}
    {
      index.Store(id, None, o);
      pool.GiveBack(a);
    }

    /** Moves the element of index `i` out of its block; the last one to go releases the block. */
    method MoveOut(i: nat) returns (x: Option<T>)
      requires Owns() && blockSize > 1 && i / blockSize in index.live && Separate(index.live)
      requires var a := index.live[i / blockSize]; a in blocks && i % blockSize < |blocks[a].elements|
      modifies this`blocks, index, pool
      ensures Owns() && index.top == old(index.top)
      ensures var o := i / blockSize; var a := old(index.live)[o]; var was := old(blocks);
        && x == was[a].elements[i % blockSize]
        && blocks == Removed(was, a, i % blockSize)
        && index.live == if was[a].completed == blockSize - 1 then old(index.live) - {o} else old(index.live)
      ensures old(Kept()) ==> Kept()
    {
      var id := index.Lookup(i);
      var a := index.entries[id].value.value;
      var block := blocks[a];
      x := block.elements[i % blockSize];
      blocks := blocks[a := block.(elements := block.elements[i % blockSize := None],
                                   completed := block.completed + 1)];
      if block.completed == blockSize - 1 {
        if Kept() { NoneLostLess(pool.known, pool.free, index.live, i / blockSize); }
        Release(id, a, i / blockSize);
      }
    }

    /** The chain so far, the blocks it starts from, and the tail block at its end. */
    ghost predicate ChainInv(start: Option<Address>, chain: seq<Address>)
      reads this
      requires blockSize > 0
    {
      && Chained(blocks, chain) && (forall i, j :: 0 <= i < j < |chain| ==> chain[i] != chain[j])
      && tailBlock == (if chain == [] then start else Some(chain[|chain| - 1]))
      && (tailIndex % blockSize != 0 ==>
            start.Some? && start.value in blocks && start.value !in chain && LinkedTo(blocks, start.value, chain))
    }

    /** Blocks `chain` have been reserved behind block number `t0`. */
    ghost predicate Reserved(live0: Live, t0: int, start: Option<Address>, chain: seq<Address>)
      reads this, index, pool
    {
      && blockSize > 1 && index.top == t0 + |chain| && index.live == Extended(live0, t0 + 1, chain)
      && ChainInv(start, chain) && Held(start, chain)
      && (tailIndex % blockSize != 0 ==> t0 in live0 && start == Some(live0[t0]))
    }

    /** The new block is chained to the last one, unless it is the first and starts at the tail. */
    method Chain(newBlock: Address, first: Option<Address>, ghost start: Option<Address>, ghost chain: seq<Address>)
      requires blockSize > 0 && ChainInv(start, chain) && newBlock !in chain && (first.Some? <==> chain != [])
      requires tailIndex % blockSize != 0 ==> start != Some(newBlock)
      modifies this`blocks, this`tailBlock
      ensures ChainInv(start, chain + [newBlock]) && Gained(blocks, old(blocks), newBlock, blockSize)
    {
      var from := if tailIndex % blockSize != 0 || first.Some? then tailBlock else None;
      ChainedMore(blocks, chain, from, newBlock, blockSize);
      blocks := Joined(blocks[newBlock := EmptyBlock(blockSize)], from, newBlock);
      tailBlock := Some(newBlock);
    }

    /** The blocks are taken from the pool. */
    ghost predicate Held(start: Option<Address>, chain: seq<Address>)
      reads this, pool
      requires blockSize > 0
    {
      && (forall a :: a in chain ==> a < pool.known && a !in pool.free)
      && (tailIndex % blockSize != 0 && start.Some? ==> start.value < pool.known && start.value !in pool.free)
    }

    /** One block more for a bulk enqueue, or nothing. */
    method Reserve(base: int, canAlloc: bool, forIndex: bool, forBlock: bool, garbage: Option<Address>,
                   first: Option<Address>,
                   ghost start: Option<Address>, ghost chain: seq<Address>) returns (r: Option<Address>)
      requires Owns() && base == (index.top + 1) * blockSize && blockSize > 0
      requires ChainInv(start, chain) && Held(start, chain) && (first.Some? <==> chain != [])
      modifies this`blocks, this`tailBlock, index, pool
      ensures Owns()
      ensures r.None? ==>
        index.live == old(index.live) && index.top == old(index.top) && unchanged(pool) && unchanged(this)
      ensures r.Some? ==> index.top == old(index.top) + 1 && index.live == old(index.live)[index.top := r.value]
      ensures r.Some? ==>
        && Took(r.value, old(pool.free), old(pool.known))
        && forall o :: o in old(index.live) ==> old(index.live)[o] != r.value
      ensures r.Some? ==>
        && ChainInv(start, chain + [r.value]) && Held(start, chain + [r.value])
        && Gained(blocks, old(blocks), r.value, blockSize)
      ensures r.Some? <==> !IndexArithmetic.Full(headIndex, base, blockSize, maxSize)
                           && old(Supplies(canAlloc, forIndex, forBlock))
      ensures r.Some? ==> Spent(old(|index.ring|), old(pool.Stock()))
      ensures !canAlloc ==> NoMore(old(|index.ring|), old(pool.known))
    {
      r := NewBlock(base, canAlloc, forIndex, forBlock, garbage);
      if r.Some? {
        assert r.value in pool.free + {r.value};
        Chain(r.value, first, start, chain);
      }
    }

    lemma InvMore(was: map<Address, Block<T>>, live: Live, a: Address)
      requires Owns() && blockSize > 1 && dequeueOptimisticCount == headIndex + dequeueOvercommit
      requires Content(was, live, blockSize, headIndex, tailIndex, index.top - 1, queue)
      requires Gained(blocks, was, a, blockSize)
      requires index.live == live[index.top := a] && forall o :: o in live ==> live[o] != a
      ensures Inv()
    {
      ContentMore(blocks, was, live, blockSize, headIndex, tailIndex, index.top - 1, queue, a);
    }

    lemma ReservedMore(live0: Live, t0: int, start: Option<Address>, chain: seq<Address>, a: Address)
      requires blockSize > 1 && index.top == t0 + |chain| + 1
      requires index.live == Extended(live0, t0 + 1, chain)[index.top := a]
      requires ChainInv(start, chain + [a]) && Held(start, chain + [a])
      requires tailIndex % blockSize != 0 ==> t0 in live0 && start == Some(live0[t0])
      ensures Reserved(live0, t0, start, chain + [a])
    {
      ExtendedTop(live0, t0, chain, a, index.top);
    }

    /** The chain grows by a block, or nothing changes. */
    method ReserveNext(base: int, canAlloc: bool, forIndex: bool, forBlock: bool, garbage: Option<Address>,
                       first: Option<Address>, ghost live0: Live, ghost t0: int, ghost start: Option<Address>,
                       ghost chain: seq<Address>)
      returns (r: Option<Address>)
      requires Inv() && Reserved(live0, t0, start, chain) && base == (index.top + 1) * blockSize
      requires first.Some? <==> chain != []
      modifies this`blocks, this`tailBlock, index, pool
      ensures Inv() && (r.None? ==> Reserved(live0, t0, start, chain) && unchanged(pool))
      ensures r.Some? ==>
        Reserved(live0, t0, start, chain + [r.value]) && Took(r.value, old(pool.free), old(pool.known))
      ensures r.Some? <==> !IndexArithmetic.Full(headIndex, base, blockSize, maxSize)
                           && old(Supplies(canAlloc, forIndex, forBlock))
      ensures r.Some? ==> Spent(old(|index.ring|), old(pool.Stock()))
      ensures !canAlloc ==> NoMore(old(|index.ring|), old(pool.known))
    {
      ghost var was, live := blocks, index.live;
      r := Reserve(base, canAlloc, forIndex, forBlock, garbage, first, start, chain);
      if r.Some? {
        InvMore(was, live, r.value);
        ReservedMore(live0, t0, start, chain, r.value);
      }
    }

    /** Takes the next block of the chain out of the index. */
    method Retract(current: int, ghost live0: Live, ghost o: int, ghost rest: seq<Address>) returns (next: nat)
      requires blockSize > 1 && index.size == blockSize && index.Valid() && index.pending.None? && index.lo <= index.top
      requires o >= -1 && current == o * blockSize && rest != [] && index.live == Extended(live0, o + 1, rest)
      requires o + 1 !in live0
      modifies index
      ensures next == (o + 1) * blockSize && index.live == Extended(live0, o + 2, rest[1..])
      ensures index.Valid() && index.pending.None? && index.top == old(index.top) - 1 && index.lo == old(index.lo)
      ensures index.ring == old(index.ring)
    {
      NextBase(o, blockSize);
      ExtendedNext(live0, o + 1, rest);
      next := current + blockSize;
      index.Retract(next);
    }

    /** Takes the blocks of the chain out of the index again, front to back, while the tail goes back to front. */
    method RewindAll(first: Option<Address>, ghost live0: Live, t0: int, ghost chain: seq<Address>)
      requires blockSize > 1 && index.size == blockSize && index.Settled() && index.top == t0 + |chain| && t0 >= -1
      requires index.live == Extended(live0, t0 + 1, chain) && Chained(blocks, chain)
      requires forall o :: o in live0 ==> o <= t0
      requires first == if chain == [] then None else Some(chain[0])
      modifies index
      ensures index.Settled() && index.live == live0 && index.top == t0 && index.ring == old(index.ring)
    {
      var current := t0 * blockSize;
      var block := first;
      ghost var j, o, rest := 0, t0, chain;
      if chain != [] { ExtendedAt(live0, t0 + 1, chain, 0); }
      while block.Some?
        invariant o == t0 + j && j + |rest| == |chain| && rest == chain[j..] && current == o * blockSize
        invariant block == (if rest == [] then None else Some(rest[0])) && Chained(blocks, chain)
        invariant index.Valid() && index.pending.None? && index.top == o + |rest| - j && index.ring == old(index.ring)
        invariant index.live == Extended(live0, o + 1, rest) && (chain != [] ==> index.lo <= t0 + 1)
        decreases |rest|
      {
        ChainNext(blocks, chain, j);
        block := blocks[block.value].next;
        current := Retract(current, live0, o, rest);
        j, o, rest := j + 1, o + 1, rest[1..];
      }
    }

    /** Gives the blocks of the chain back to the pool. */
    method GiveBackAll(first: Option<Address>, ghost chain: seq<Address>)
      requires pool.Valid() && Chained(blocks, chain) && (forall a :: a in chain ==> a < pool.known && a !in pool.free)
      requires forall i, j :: 0 <= i < j < |chain| ==> chain[i] != chain[j]
      requires first == if chain == [] then None else Some(chain[0])
      modifies pool
      ensures pool.Valid() && pool.free == old(pool.free) + Elements(chain) && pool.known == old(pool.known)
    {
      var block := first;
      ghost var j := 0;
      while block.Some?
        invariant j <= |chain| && block == (if j < |chain| then Some(chain[j]) else None) && Chained(blocks, chain)
        invariant pool.Valid() && pool.free == old(pool.free) + Elements(chain[..j]) && pool.known == old(pool.known)
        decreases |chain| - j
      {
        assert block.value == chain[j] && chain[j] in chain;
        ChainNext(blocks, chain, j);
        var next := blocks[block.value].next;
        pool.GiveBack(block.value);
        assert chain[..j + 1] == chain[..j] + [chain[j]];
        block := next;
        j := j + 1;
      }
      assert chain[..j] == chain;
    }

    /** The blocks of before are none of the chain's. */
    lemma OwnedBefore(live0: Live, t0: int, chain: seq<Address>)
      requires Owns() && index.live == Extended(live0, t0 + 1, chain) && Separate(index.live)
      requires forall o :: o in live0 ==> o <= t0
      ensures forall o :: o in live0 ==> live0[o] < pool.known && live0[o] !in pool.free && live0[o] !in chain
      ensures forall a :: a in chain ==> a < pool.known
    {
      forall k | 0 <= k < |chain| ensures At(index.live, t0 + 1 + k, chain[k]) { ExtendedAt(live0, t0 + 1, chain, k); }
      forall o | o in live0 ensures At(index.live, o, live0[o]) && live0[o] !in chain {
        ExtendedBefore(live0, t0 + 1, chain, o);
      }
    }

    /** Undoes a reservation: the index and the tail block as before, and every block back in the pool. */
    method Rollback(first: Option<Address>, startBlock: Option<Address>, ghost live0: Live, t0: int,
                    ghost chain: seq<Address>)
      requires Inv() && Reserved(live0, t0, startBlock, chain) && t0 >= -1 && Spans(live0, blockSize, headIndex, t0)
      requires tailIndex <= (t0 + 1) * blockSize
      requires first == if chain == [] then None else Some(chain[0])
      modifies this`tailBlock, index, pool
      ensures Inv() && tailBlock == startBlock && index.live == live0 && index.top == t0
      ensures index.ring == old(index.ring)
      ensures pool.free == old(pool.free) + Elements(chain) && pool.known == old(pool.known)
    {
      ContentLess(blocks, live0, blockSize, headIndex, tailIndex, t0, queue, chain);
      OwnedBefore(live0, t0, chain);
      RewindAll(first, live0, t0, chain);
      GiveBackAll(first, chain);
      tailBlock := startBlock;
    }

    lemma ReservedNone()
      requires Valid()
      ensures Reserved(index.live, index.top, tailBlock, []) && index.top == (tailIndex - 1) / blockSize
    {
      LastBlock(index.top, tailIndex, blockSize);
      if tailIndex % blockSize != 0 { Inside(index.top, tailIndex, blockSize); }
    }

    /** The pool has lost the blocks of the chain and gained those allocated since. */
    ghost predicate Balanced(free: set<Address>, known: nat, chain: seq<Address>)
      reads pool
    {
      pool.known >= known && pool.free + Elements(chain) == free + Addresses(known, pool.known)
    }

    /** One block more behind the one that starts at `current`, with the pool's account kept. */
    method ReserveBlock(current: int, k: nat, memory: Memory, first: Option<Address>, ghost free: set<Address>,
                        ghost known: nat, ghost supplied: bool, ghost n: nat,
                        ghost live0: Live, ghost t0: int, ghost start: Option<Address>, ghost chain: seq<Address>)
      returns (r: Option<Address>, base: int)
      requires Inv() && Reserved(live0, t0, start, chain) && (first.Some? <==> chain != [])
      requires Balanced(free, known, chain)
      requires k == |chain| && current == t0 * blockSize + Total(k, blockSize)
      requires k < n && (supplied ==> Supplied(memory, n - k))
      modifies this`blocks, this`tailBlock, index, pool
      ensures Inv()
      ensures var longer := if r.Some? then chain + [r.value] else chain;
        Reserved(live0, t0, start, longer) && Balanced(free, known, longer)
      ensures base == current + blockSize && Granted(r.Some?, base, supplied)
      ensures r.Some? && supplied ==> Supplied(memory, n - k - 1)
      ensures !memory.canAlloc ==> NoMore(old(|index.ring|), old(pool.known))
    {
      if supplied { SuppliesNext(memory, n - k, k); }
      ghost var f, w := pool.free, pool.known;
      TotalBase(t0, k, blockSize);
      base := current + blockSize;
      r := ReserveNext(base, memory.canAlloc, memory.forIndex(k), memory.forBlock(k), memory.garbage, first, live0, t0,
                       start, chain);
      if r.Some? { AccountMore(free, known, f, w, pool.free, pool.known, chain, r.value); }
    }

    /** `chain` has been reserved behind the block that starts at `current`; the last block asked for starts at
        `base`. */
    ghost predicate Reserving(ok: bool, current: int, base: int, supplied: bool, first: Option<Address>,
                              free: set<Address>, known: nat,
                              live0: Live, t0: int, start: Option<Address>, chain: seq<Address>)
      reads this, index, pool
    {
      && (Granted(ok, base, supplied) || (ok && chain == []))
      && base == current + Total(if ok then |chain| else |chain| + 1, blockSize)
      && Inv() && Reserved(live0, t0, start, chain) && first == (if chain == [] then None else Some(chain[0]))
      && Balanced(free, known, chain)
    }

    /** The body of the loop below. */
    method ReserveStep(ghost current: int, base: int, memory: Memory, k: nat, first: Option<Address>,
                       ghost free: set<Address>, ghost known: nat, ghost supplied: bool, ghost n: nat,
                       ghost live0: Live, ghost t0: int, ghost start: Option<Address>, ghost chain: seq<Address>)
      returns (ok: bool, next: int, first': Option<Address>, ghost longer: seq<Address>)
      requires Reserving(true, current, base, supplied, first, free, known, live0, t0, start, chain)
      requires k == |chain| && current == t0 * blockSize && k < n && (supplied ==> Supplied(memory, n - k))
      modifies this`blocks, this`tailBlock, index, pool
      ensures Reserving(ok, current, next, supplied, first', free, known, live0, t0, start, longer)
      ensures ok && supplied ==> Supplied(memory, n - k - 1)
      ensures !memory.canAlloc ==> NoMore(old(|index.ring|), old(pool.known))
      ensures |longer| == if ok then k + 1 else k
    {
      var newBlock;
      assert Total(k + 1, blockSize) == Total(k, blockSize) + blockSize;
      newBlock, next := ReserveBlock(base, k, memory, first, free, known, supplied, n, live0, t0, start, chain);
      ok := newBlock.Some?;
      longer := if ok then chain + [newBlock.value] else chain;
      first' := if first.None? then newBlock else first;
    }

    /** Reserves `n` blocks behind the one that starts at `current`, or as many as can be had. */
    method ReserveAll(current: int, blockBaseDiff: int, memory: Memory, ghost supplied: bool, ghost n: nat,
                      ghost t0: int, ghost live0: Live, ghost start: Option<Address>)
      returns (ok: bool, base: int, first: Option<Address>, ghost chain: seq<Address>)
      requires Inv() && Reserved(live0, t0, start, []) && blockBaseDiff == Total(n, blockSize)
      requires current == t0 * blockSize && (supplied ==> Supplied(memory, n))
      modifies this`blocks, this`tailBlock, index, pool
      ensures Reserving(ok, current, base, supplied, first, old(pool.free), old(pool.known), live0, t0, start, chain)
      ensures if ok then |chain| == n else |chain| < n
      ensures !memory.canAlloc ==> NoMore(old(|index.ring|), old(pool.known))
    {
      var diff, k := blockBaseDiff, 0;
      ghost var left: nat := n;
      ok, base, first, chain := true, current, None, [];
      while ok && diff > 0
        invariant k == |chain| && k + left == (if ok then n else n - 1) && diff == Total(left, blockSize)
        invariant Reserving(ok, current, base, supplied, first, old(pool.free), old(pool.known), live0, t0, start,
                            chain)
        invariant ok && supplied ==> Supplied(memory, left)
        invariant !memory.canAlloc ==> NoMore(old(|index.ring|), old(pool.known))
      {
        diff, left := diff - blockSize, left - 1;
        assert diff == Total(left, blockSize);
        ok, base, first, chain := ReserveStep(current, base, memory, k, first, old(pool.free), old(pool.known),
                                              supplied, n, live0, t0, start, chain);
        k := if ok then k + 1 else k;
      }
    }

    /** What the blocks begun by the next `count` elements need. */
    ghost predicate SuppliedFor(memory: Memory, count: nat)
      reads this, index, pool
      requires blockSize > 0
    {
      Supplied(memory, IndexArithmetic.BlocksToBegin(tailIndex, count, blockSize))
    }

    /** Reserves blocks for the next `count` elements, or as many as can be had. */
    method ReserveFor(count: nat, memory: Memory) returns (ok: bool, first: Option<Address>, ghost chain: seq<Address>)
      requires Valid()
      modifies this`blocks, this`tailBlock, index, pool
      ensures Inv() && Reserved(old(index.live), old(index.top), old(tailBlock), chain)
      ensures first == (if chain == [] then None else Some(chain[0]))
      ensures ok ==> |chain| == IndexArithmetic.BlocksToBegin(tailIndex, count, blockSize)
      ensures Balanced(old(pool.free), old(pool.known), chain)
      ensures Fifo.Admits(ok, count, old(SuppliedFor(memory, count)), tailIndex, headIndex, blockSize, maxSize)
      ensures !memory.canAlloc ==> NoMore(old(|index.ring|), old(pool.known))
    {
      ReservedNone();
      BulkBases(tailIndex, count, blockSize);
      var base := IndexArithmetic.BlockBase(tailIndex - 1, blockSize);
      var blockBaseDiff := IndexArithmetic.BlockBase(tailIndex + count - 1, blockSize) - base;
      ghost var n, t0 := IndexArithmetic.BlocksToBegin(tailIndex, count, blockSize), index.top;
      ghost var supplied := SuppliedFor(memory, count);
      ok, base, first, chain := ReserveAll(base, blockBaseDiff, memory, supplied, n, t0, index.live, tailBlock);
      BulkAdmitted(ok, |chain|, base, count, supplied, tailIndex, headIndex, blockSize, maxSize);
    }

    /** Blocks for the next `count` elements, chained, or none at all. */
    method Allocate(count: nat, memory: Memory) returns (ok: bool, first: Option<Address>, ghost chain: seq<Address>)
      requires Valid()
      modifies this`blocks, this`tailBlock, index, pool
      ensures Inv() && (!ok ==> Valid())
      ensures ok ==>
        && Reserved(old(index.live), old(index.top), old(tailBlock), chain)
        && |chain| == IndexArithmetic.BlocksToBegin(tailIndex, count, blockSize)
      ensures ok ==> first == (if chain == [] then None else Some(chain[0]))
      ensures !ok ==>
        chain == [] && tailBlock == old(tailBlock) && index.live == old(index.live) && index.top == old(index.top)
      ensures Balanced(old(pool.free), old(pool.known), chain)
      ensures Fifo.Admits(ok, count, old(SuppliedFor(memory, count)), tailIndex, headIndex, blockSize, maxSize)
      ensures !memory.canAlloc ==> NoMore(old(|index.ring|), old(pool.known))
    {
      ReservedNone();
      var startBlock := tailBlock;
      ghost var live0 := index.live;
      ok, first, chain := ReserveFor(count, memory);
      if !ok {
        Rollback(first, startBlock, live0, (tailIndex - 1) / blockSize, chain);
        chain := [];
      }
    }

    /** Constructs elements from index `current` up to `stop` in the tail block. */
    method FillBlock(items: seq<T>, start: nat, current: nat, stop: nat, ghost o: int)
      requires blockSize > 0 && start <= current <= stop <= start + |items| && stop <= (index.top + 1) * blockSize
      requires current < stop ==>
        o * blockSize <= current && stop <= (o + 1) * blockSize && tailBlock.Some? && At(index.live, o, tailBlock.value)
      requires Content(blocks, index.live, blockSize, headIndex, current, index.top, queue + items[..current - start])
      modifies this`blocks
      ensures Content(blocks, index.live, blockSize, headIndex, stop, index.top, queue + items[..stop - start])
      ensures SameLinks(blocks, old(blocks))
    {
      var c := current;
      while c != stop
        invariant current <= c <= stop && SameLinks(blocks, old(blocks))
        invariant Content(blocks, index.live, blockSize, headIndex, c, index.top, queue + items[..c - start])
      {
        ghost var q := queue + items[..c - start];
        ContentPut(blocks, index.live, blockSize, headIndex, c, index.top, q, items[c - start]);
        InBlock(c, o, blockSize);
        var block := blocks[tailBlock.value];
        var elements := block.elements[c % blockSize := Some(items[c - start])];
        blocks := blocks[tailBlock.value := block.(elements := elements)];
        assert queue + items[..c + 1 - start] == q + [items[c - start]];
        c := c + 1;
      }
    }

    /** Constructs the elements block by block, following the chain to its end. */
    method Fill(items: seq<T>, endBlock: Option<Address>)
      requires blockSize > 0 && items != []
      requires index.top * blockSize < tailIndex + |items| <= (index.top + 1) * blockSize
      requires Content(blocks, index.live, blockSize, headIndex, tailIndex, index.top, queue)
      requires tailIndex / blockSize <= index.top
      requires Links(blocks, index.live, tailIndex / blockSize, index.top)
      requires tailBlock == Some(index.live[tailIndex / blockSize]) && endBlock == Some(index.live[index.top])
      modifies this`blocks, this`tailBlock
      ensures Content(blocks, index.live, blockSize, headIndex, tailIndex + |items|, index.top, queue + items)
      ensures tailBlock == endBlock
    {
      ghost var o, first := tailIndex / blockSize, tailIndex / blockSize;
      var newTail, current := tailIndex + |items|, tailIndex;
      var done := false;
      assert queue + items[..0] == queue && items[..|items|] == items;
      while !done
        invariant tailIndex <= current <= newTail && Links(blocks, index.live, first, index.top)
        invariant Content(blocks, index.live, blockSize, headIndex, current, index.top,
                          queue + items[..current - tailIndex])
        invariant first <= o <= index.top && tailBlock == Some(index.live[o])
        invariant if done then current == newTail && tailBlock == endBlock
                  else current < newTail && current / blockSize == o
        decreases index.top - o, !done
      {
        StopIndex(current, newTail, o, index.top, blockSize);
        var stop := current - current % blockSize + blockSize;
        if newTail < stop { stop := newTail; }
        ghost var was := blocks;
        FillBlock(items, tailIndex, current, stop, o);
        current := stop;
        LinksKept(blocks, was, index.live, first, index.top);
        if tailBlock == endBlock {
          done := true;
        } else {
          assert LinkAt(blocks, index.live, o);
          tailBlock := blocks[tailBlock.value].next;
          o := o + 1;
        }
      }
    }

    /** From the tail's block on, the blocks lead from one to the next. */
    lemma ReservedLinks(live0: Live, t0: int, start: Option<Address>, chain: seq<Address>)
      requires Reserved(live0, t0, start, chain) && t0 == (tailIndex - 1) / blockSize
      ensures tailIndex / blockSize == (if tailIndex % blockSize == 0 then t0 + 1 else t0)
      ensures Links(blocks, index.live, tailIndex / blockSize, index.top)
      ensures forall k :: 0 <= k < |chain| ==> At(index.live, t0 + 1 + k, chain[k])
      ensures tailIndex % blockSize != 0 ==> At(index.live, t0, start.value)
    {
      TailBlockNumber(tailIndex, blockSize);
      ChainLinks(blocks, live0, t0, if tailIndex % blockSize == 0 then None else start, chain);
    }

    /** Makes the elements constructed so far part of the queue. */
    method Publish(items: seq<T>)
      requires Owns() && blockSize > 1 && dequeueOptimisticCount == headIndex + dequeueOvercommit
      requires index.top in index.live
      requires Content(blocks, index.live, blockSize, headIndex, tailIndex + |items|, index.top, queue + items)
      requires index.top * blockSize < tailIndex + |items| && tailBlock == Some(index.live[index.top])
      modifies this`tailIndex, this`queue
      ensures Valid() && queue == old(queue) + items && tailIndex == old(tailIndex) + |items|
    {
      tailIndex := tailIndex + |items|;
      queue := queue + items;
      if tailIndex % blockSize != 0 { Inside(index.top, tailIndex, blockSize); }
    }

    /** Back to the block of the first item; the last block reserved is where the items end. */
    method BackToStart(first: Option<Address>, startBlock: Option<Address>, ghost n: nat, ghost live0: Live,
                       ghost t0: int, ghost chain: seq<Address>)
      returns (endBlock: Option<Address>)
      requires Reserved(live0, t0, startBlock, chain) && t0 == (tailIndex - 1) / blockSize && n > 0
      requires |chain| == IndexArithmetic.BlocksToBegin(tailIndex, n, blockSize)
      requires first == (if chain == [] then None else Some(chain[0]))
      modifies this`tailBlock
      ensures index.top * blockSize < tailIndex + n <= (index.top + 1) * blockSize && tailIndex / blockSize <= index.top
      ensures Links(blocks, index.live, tailIndex / blockSize, index.top)
      ensures tailBlock == Some(index.live[tailIndex / blockSize]) && endBlock == Some(index.live[index.top])
    {
      ReservedLinks(live0, t0, startBlock, chain);
      NewLastBlock(tailIndex, n, blockSize);
      endBlock := tailBlock;
      tailBlock := startBlock;
      if tailIndex % blockSize == 0 && first.Some? {
        tailBlock := first;
      }
    }

    /** Constructs the items in the blocks reserved for them, and counts them. */
    method Append(items: seq<T>, first: Option<Address>, startBlock: Option<Address>, ghost live0: Live, ghost t0: int,
                  ghost chain: seq<Address>)
      requires Inv() && Reserved(live0, t0, startBlock, chain) && t0 == (tailIndex - 1) / blockSize && items != []
      requires |chain| == IndexArithmetic.BlocksToBegin(tailIndex, |items|, blockSize)
      requires first == (if chain == [] then None else Some(chain[0]))
      modifies this
      ensures Valid() && queue == old(queue) + items && tailIndex == old(tailIndex) + |items|
      ensures headIndex == old(headIndex)
    {
      var endBlock := BackToStart(first, startBlock, |items|, live0, t0, chain);
      Fill(items, endBlock);
      Publish(items);
    }

    /** Blocks acquired are in use. */
    lemma KeptAfter(known: nat, free: set<Address>, live0: Live, t0: int, acquired: seq<Address>)
      requires NoneLost(known, free, live0) && Balanced(free, known, acquired) && forall o :: o in live0 ==> o <= t0
      requires index.live == Extended(live0, t0 + 1, acquired)
      ensures Kept()
    {
      NoneLostChain(known, free, live0, pool.known, pool.free, t0 + 1, acquired);
    }

    /** All or nothing: either the items are appended, in as many new blocks as they enter, or nothing but
        the pool's stock has changed and every block acquired is back in it. */
    method EnqueueBulk(items: seq<T>, memory: Memory) returns (ok: bool, ghost acquired: seq<Address>)
      requires Valid()
      modifies this, index, pool
      ensures Valid() && headIndex == old(headIndex) && Balanced(old(pool.free), old(pool.known), acquired)
      ensures ok ==> queue == old(queue) + items && tailIndex == old(tailIndex) + |items|
      ensures ok ==> index.live == Extended(old(index.live), old(index.top) + 1, acquired)
      ensures ok ==> |acquired| == IndexArithmetic.BlocksToBegin(old(tailIndex), |items|, blockSize)
      ensures !ok ==>
        && queue == old(queue) && tailIndex == old(tailIndex) && tailBlock == old(tailBlock)
        && index.live == old(index.live) && acquired == []
      ensures Fifo.Admits(ok, |items|, old(SuppliedFor(memory, |items|)), old(tailIndex), old(headIndex), blockSize,
                          maxSize)
      ensures !memory.canAlloc ==> NoMore(old(|index.ring|), old(pool.known))
    {
      ReservedNone();
      var startBlock, first := tailBlock, None;
      ghost var live0, t0 := index.live, index.top;
      ok, first, acquired := Allocate(|items|, memory);
      if ok && items != [] { Append(items, first, startBlock, live0, t0, acquired); }
    }

    lemma AfterTake(was: map<Address, Block<T>>, live: Live, head: nat, q: seq<T>)
      requires Owns() && blockSize > 1 && head < tailIndex
      requires Content(was, live, blockSize, head, tailIndex, index.top, q)
      requires head / blockSize in live && live[head / blockSize] in was
      requires head % blockSize < |was[live[head / blockSize]].elements|
      requires blocks == Removed(was, live[head / blockSize], head % blockSize) && headIndex == head + 1
      requires queue == q[1..]
      requires index.live ==
        if was[live[head / blockSize]].completed == blockSize - 1 then live - {head / blockSize} else live
      requires index.top * blockSize < tailIndex && dequeueOptimisticCount == headIndex + dequeueOvercommit
      requires tailIndex % blockSize != 0 ==>
        tailIndex / blockSize in live && tailBlock == Some(live[tailIndex / blockSize])
      ensures Valid()
    {
      HeadBlock(was, live, blockSize, head, tailIndex, index.top, q);
      ContentTake(was, live, blockSize, head, tailIndex, index.top, q);
      TailAfterTake(head, tailIndex, blockSize);
    }

    method Dequeue() returns (r: Option<T>)
      requires Valid()
      modifies this, index, pool
      ensures Valid()
      ensures r == (if old(queue) == [] then None else Some(old(queue)[0]))
      ensures queue == (if r.None? then [] else old(queue)[1..]) && tailIndex == old(tailIndex)
      ensures headIndex == old(headIndex) + if r.None? then 0 else 1
      ensures old(Kept()) ==> Kept()
    {
      if dequeueOptimisticCount - dequeueOvercommit >= tailIndex { return None; }
      HeadBlock(blocks, index.live, blockSize, headIndex, tailIndex, index.top, queue);
      ghost var was, live, q := blocks, index.live, queue;
      dequeueOptimisticCount := dequeueOptimisticCount + 1;
      r := MoveOut(headIndex);
      headIndex := headIndex + 1;
      queue := queue[1..];
      AfterTake(was, live, headIndex - 1, q);
    }
  }

  /** The block released is not the one the tail is in. */
  lemma TailAfterTake(head: nat, tail: nat, size: nat)
    requires size > 0 && head < tail
    ensures tail % size != 0 && tail / size == head / size ==> head + 1 != (head / size + 1) * size
  {
    assert tail == tail / size * size + tail % size;
  }

  lemma Boundary(top: int, tail: nat, size: nat)
    requires size > 0 && top * size < tail <= (top + 1) * size && tail % size == 0
    ensures tail == (top + 1) * size
  {
    var k := tail / size;
    assert tail == k * size;
    Arithmetic.MulOrder(k, top, size);
    Arithmetic.MulOrder(k, top + 1, size);
  }

  /** The size of `n` blocks. */
  ghost function Total(n: nat, size: nat): nat { if n == 0 then 0 else Total(n - 1, size) + size }

  lemma {:induction false} TotalIsProduct(n: nat, size: nat)
    ensures Total(n, size) == n * size
  {
    if n > 0 { TotalIsProduct(n - 1, size); }
  }

  lemma TotalBase(o: int, n: nat, size: nat)
    ensures o * size + Total(n, size) == (o + n) * size && o * size + Total(n, size) + size == (o + n + 1) * size
  {
    TotalIsProduct(n, size);
    Arithmetic.Distribute(o, n, size);
    Arithmetic.Distribute(o + n, 1, size);
  }

  lemma BulkBases(tail: nat, count: nat, size: nat)
    requires size > 0
    ensures var n, base := IndexArithmetic.BlocksToBegin(tail, count, size), IndexArithmetic.BlockBase(tail - 1, size);
      && n >= 0 && base == (tail - 1) / size * size
      && IndexArithmetic.BlockBase(tail + count - 1, size) - base == Total(n, size)
  {
    IndexArithmetic.BasesApart(tail + count - 1, tail - 1, size);
    var n := IndexArithmetic.BlocksToBegin(tail, count, size);
    Arithmetic.MulOrder(n, -1, size);
    TotalIsProduct(n, size);
  }

  lemma BulkAdmitted(ok: bool, had: nat, base: int, count: nat, supplied: bool, tail: nat, head: nat, size: nat,
                     maxSize: nat)
    requires size > 0 && IndexArithmetic.BlocksToBegin(tail, count, size) >= 0
    requires var n := IndexArithmetic.BlocksToBegin(tail, count, size);
      && base == (tail - 1) / size * size + Total(if ok then n else had + 1, size) && (!ok ==> had < n)
      && var full := IndexArithmetic.Full(head, base, size, maxSize); if ok then n == 0 || !full else full || !supplied
    ensures Fifo.Admits(ok, count, supplied, tail, head, size, maxSize)
  {
    TotalBase((tail - 1) / size, if ok then IndexArithmetic.BlocksToBegin(tail, count, size) else had + 1, size);
    Fifo.AdmitsBlocks(ok, had, base, count, supplied, tail, head, size, maxSize);
  }

  lemma InBlock(i: nat, o: int, size: nat)
    requires size > 0 && o * size <= i < (o + 1) * size
    ensures i / size == o
  {
    IndexArithmetic.AtOrBefore(o, i, size);
    IndexArithmetic.AtOrBefore(o + 1, i, size);
  }

  /** Where writing stops in block `o`: at its end, or at the new tail in the last block. */
  lemma StopIndex(current: nat, newTail: nat, o: int, top: int, size: nat)
    requires size > 0 && current / size == o <= top && current < newTail && top * size < newTail <= (top + 1) * size
    ensures current - current % size == o * size <= current < (o + 1) * size == o * size + size
    ensures o < top ==> (o + 1) * size < newTail && (o + 1) * size / size == o + 1
  {
    assert current == o * size + current % size;
    Arithmetic.Distribute(o, 1, size);
    if o < top {
      Arithmetic.MulOrder(o + 1, top, size);
      Arithmetic.DivMod((o + 1) * size, size, o + 1, 0);
    }
  }

  lemma TailBlockNumber(tail: nat, size: nat)
    requires size > 1
    ensures tail / size == if tail % size == 0 then (tail - 1) / size + 1 else (tail - 1) / size
  {
    var q := tail / size;
    assert tail == q * size + tail % size;
    if tail % size == 0 {
      Arithmetic.Distribute(q, 1, size);
      Arithmetic.DivMod(tail - 1, size, q - 1, size - 1);
    } else {
      Arithmetic.DivMod(tail - 1, size, q, tail % size - 1);
    }
  }

  lemma NewLastBlock(tail: nat, count: nat, size: nat)
    requires size > 1
    ensures var top := (tail - 1) / size + IndexArithmetic.BlocksToBegin(tail, count, size);
      top * size < tail + count <= (top + 1) * size && (count > 0 ==> tail / size <= top)
  {
    var top := (tail + count - 1) / size;
    assert tail + count - 1 == top * size + (tail + count - 1) % size;
    Arithmetic.Distribute(top, 1, size);
    if count > 0 {
      assert tail == tail / size * size + tail % size;
      IndexArithmetic.AtOrBefore(tail / size, tail + count - 1, size);
    }
  }

  lemma LastBlock(top: int, tail: nat, size: nat)
    requires size > 0 && top * size < tail <= (top + 1) * size
    ensures top == (tail - 1) / size
  {
    IndexArithmetic.AtOrBefore(top, tail - 1, size);
    IndexArithmetic.AtOrBefore(top + 1, tail - 1, size);
  }

  lemma Inside(top: int, tail: nat, size: nat)
    requires size > 0 && top * size < tail <= (top + 1) * size && tail % size != 0
    ensures tail < (top + 1) * size && tail / size == top
  {
    Arithmetic.DivMod((top + 1) * size, size, top + 1, 0);
    Arithmetic.Distribute(top, 1, size);
    Arithmetic.DivMod(tail, size, top, tail - top * size);
  }

  lemma NextInside(tail: nat, size: nat)
    requires size > 1
    ensures (tail + 1) % size != 0 ==> (tail + 1) / size == tail / size
  {
    Arithmetic.ModNext(tail, size);
    if (tail + 1) % size != 0 { Arithmetic.DivMod(tail + 1, size, tail / size, tail % size + 1); }
  }

  /** The blocks a successful bulk enqueue adds are those it enters. */
  lemma BlocksEntered(live: Live, tail: nat, count: nat, size: nat, chain: seq<Address>, o: int)
    requires size > 0 && |chain| == IndexArithmetic.BlocksToBegin(tail, count, size)
    requires forall p :: p in live ==> p <= (tail - 1) / size
    ensures o in Extended(live, (tail - 1) / size + 1, chain) <==> o in live || tail <= o * size < tail + count
  {
    var t0 := (tail - 1) / size;
    IndexArithmetic.BoundariesEntered(tail, count, size, o);
    if t0 < o <= t0 + |chain| { ExtendedAt(live, t0 + 1, chain, o - t0 - 1); }
    else if o <= t0 { ExtendedBefore(live, t0 + 1, chain, o); }
    else { ExtendedAfter(live, t0 + 1, chain, o); }
  }

  lemma {:induction false} ExtendedAfter(live: Live, base: int, chain: seq<Address>, o: int)
    requires o >= base + |chain|
    ensures o in Extended(live, base, chain) <==> o in live
  {
    if chain != [] { ExtendedAfter(live, base, chain[..|chain| - 1], o); }
  }

  // ---------------------------------------------------------------------------------------- runs

  datatype Op<T> = Enqueue(x: T, memory: Memory) | EnqueueBulk(items: seq<T>, memory: Memory) | Dequeue

  /** What a call can count on: the entries of the first index and the blocks of the pool, or the memory it wants. */
  ghost function SupplyOf(memory: Memory, indexMemory: bool, indexSize: nat, poolSize: nat): Fifo.Supply {
    Fifo.Supply(indexMemory, if IndexGrows(memory) then None else Some(indexSize),
                if BlocksGrow(memory) then None else Some(poolSize))
  }

  ghost function RequestOf<T>(op: Op<T>, indexMemory: bool, indexSize: nat, poolSize: nat): Fifo.Request<T> {
    match op
    case Enqueue(x, memory) => Fifo.Offer([x], SupplyOf(memory, indexMemory, indexSize, poolSize))
    case EnqueueBulk(items, memory) => Fifo.Offer(items, SupplyOf(memory, indexMemory, indexSize, poolSize))
    case Dequeue => Fifo.Ask
  }

  ghost function Requests<T>(ops: seq<Op<T>>, indexMemory: bool, indexSize: nat, poolSize: nat): seq<Fifo.Request<T>> {
    seq(|ops|, i requires 0 <= i < |ops| => RequestOf(ops[i], indexMemory, indexSize, poolSize))
  }

  method PerformBulk<T>(p: Producer<T>, items: seq<T>, memory: Memory) returns (ok: bool)
    requires p.Valid() && p.Kept()
    modifies p, p.index, p.pool
    ensures p.Valid() && p.Kept() && p.blockSize > 0 && p.headIndex == old(p.headIndex)
    ensures p.queue == old(p.queue) + (if ok then items else [])
    ensures p.tailIndex == old(p.tailIndex) + if ok then |items| else 0
    ensures Fifo.Admits(ok, |items|, old(p.SuppliedFor(memory, |items|)), old(p.tailIndex), old(p.headIndex),
                        p.blockSize, p.maxSize)
  {
    ghost var known, free, live, top := p.pool.known, p.pool.free, p.index.live, p.index.top;
    ghost var acquired;
    ok, acquired := p.EnqueueBulk(items, memory);
    p.KeptAfter(known, free, live, top, acquired);
  }

  method Perform<T>(p: Producer<T>, op: Op<T>) returns (e: Fifo.Event<T>)
    requires p.Valid() && p.Kept()
    modifies p, p.index, p.pool
    ensures p.Valid() && p.Kept() && p.blockSize > 0
    ensures Fifo.Answers(e, RequestOf(op, p.index.built, p.index.initialCapacity, p.pool.initialSize), old(p.tailIndex),
                         old(p.headIndex), p.blockSize, p.maxSize)
    ensures Fifo.Does(e, old(p.queue), old(p.tailIndex), old(p.headIndex), p.queue, p.tailIndex, p.headIndex)
  {
    ghost var request := RequestOf(op, p.index.built, p.index.initialCapacity, p.pool.initialSize);
    match op {
      case Enqueue(x, memory) =>
        p.CountedOn(memory, 1);
        ghost var supplied := p.SuppliedFor(memory, 1);
        var ok := p.Enqueue(x, memory);
        e := Fifo.Put(if ok then [x] else []);
        Fifo.AnswersOffer(e, ok, request, supplied, old(p.tailIndex), old(p.headIndex), p.blockSize, p.maxSize);
      case EnqueueBulk(items, memory) =>
        p.CountedOn(memory, |items|);
        ghost var supplied := p.SuppliedFor(memory, |items|);
        var ok := PerformBulk(p, items, memory);
        e := Fifo.Put(if ok then items else []);
        Fifo.AnswersOffer(e, ok, request, supplied, old(p.tailIndex), old(p.headIndex), p.blockSize, p.maxSize);
      case Dequeue =>
        var r := p.Dequeue();
        e := Fifo.Take(r);
    }
  }

  /** Every run of a sub-queue is a run of an unbounded first-in first-out queue, whatever the allocators do: a
      dequeue gets the oldest element that was accepted and is not gone. An enqueue takes all its items or none;
      it is refused always at the size limit, otherwise only if it begins a block and needs memory it does not get. Even
      a call that may not allocate needs none while the blocks in use and begun do not exceed the first index nor the
      pool. */
  method Replay<T>(ops: seq<Op<T>>, blockSize: nat, requestedSize: nat, poolSize: nat, recycle: bool,
                   initialIndexSize: nat, indexMemory: bool,
                   garbage: Option<Address>) returns (log: seq<Fifo.Event<T>>)
    requires blockSize > 1 && initialIndexSize > 0 && requestedSize < IndexArithmetic.RANGE
    ensures |log| == |ops|
    ensures Fifo.Answered(log, Requests(ops, indexMemory, initialIndexSize, poolSize), blockSize,
                          IndexArithmetic.MaxSubqueueSize(requestedSize, blockSize))
    ensures Fifo.IsRun(log) && Fifo.Taken(log) <= Fifo.Entered(log)
  {
    var maxSize := IndexArithmetic.MaxSubqueueSize(requestedSize, blockSize);
    var pool := new Pool(poolSize, recycle);
    var p := new Producer<T>(blockSize, maxSize, pool, initialIndexSize, indexMemory, garbage);
    ghost var requests := Requests(ops, indexMemory, initialIndexSize, poolSize);
    log := [];
    for n := 0 to |ops|
      invariant p.Valid() && p.Kept() && fresh(p) && fresh(p.index) && fresh(p.pool)
      invariant p.maxSize == maxSize && p.blockSize == blockSize && p.index.built == indexMemory
      invariant p.index.initialCapacity == initialIndexSize && p.pool.initialSize == poolSize
      invariant |log| == n && Fifo.Recorded(log, requests, p.queue, p.tailIndex, p.headIndex, blockSize, maxSize)
    {
      ghost var queue, entered, taken := p.queue, p.tailIndex, p.headIndex;
      var e := Perform(p, ops[n]);
      Fifo.RecordedNext(log, requests, queue, entered, taken, e, p.queue, p.tailIndex, p.headIndex, blockSize, maxSize);
      log := log + [e];
    }
  }
}
