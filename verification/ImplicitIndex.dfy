/**
 The block index of an implicit producer: a ring of entries, each the base of a block and the block, or
 free. Blocks are released in any order, a failed enqueue rewinds the tail, and a full ring is replaced
 by one of twice the size that shares its entries.

 Block number `o` starts at index `o * size`. Entries are numbered in the order they were allocated, and
 masking with a power of two minus one is written as a remainder (IndexArithmetic.MaskIsRemainder).
 */
module ImplicitIndex {
  import opened Wrappers
  import Arithmetic
  import IndexArithmetic

  type Address = nat

  const INVALID_BLOCK_BASE: int := 1

  datatype Entry = Entry(key: int, value: Option<Address>)

  /** The slot of block `o` when the slot of block `top` is `tail`. */
  function Position(tail: nat, top: int, o: int, capacity: nat): (i: nat)
    requires capacity > 0
    ensures i < capacity
  {
    (tail + (o - top)) % capacity
  }

  /** Moving the tail and its block number together moves no other block. */
  lemma SamePosition(tail: nat, top: int, d: int, o: int, capacity: nat)
    requires capacity > 0
    ensures Position((tail + d) % capacity, top + d, o, capacity) == Position(tail, top, o, capacity)
  {
    var t := tail + d;
    Arithmetic.AddMultiple(t % capacity + (o - top - d), t / capacity, capacity);
    assert t % capacity + (o - top - d) + t / capacity * capacity == tail + (o - top);
  }

  lemma PositionsApart(tail: nat, top: int, o: int, p: int, capacity: int)
    requires capacity > 0 && -capacity < o - p < capacity && o != p
    ensures Position(tail, top, o, capacity) != Position(tail, top, p, capacity)
  {
    if Position(tail, top, o, capacity) == Position(tail, top, p, capacity) {
      Arithmetic.ModInjective(tail + (o - top), tail + (p - top), capacity);
    }
  }

  function Numbers(start: nat, n: nat): (s: seq<nat>)
    ensures |s| == n && forall i :: 0 <= i < n ==> s[i] == start + i
  {
    seq(n, i requires 0 <= i < n => start + i)
  }

  /** The index as a value. Blocks `lo` to `hi - 1` have their key in the ring and the rest of it was never
      used; `top` is the block at the tail, `live` the blocks in use, and `pending` one whose entry has been
      claimed but not filled in. */
  datatype View = View(size: nat, ring: seq<nat>, entries: seq<Entry>, tail: nat, lo: int, hi: int, top: int,
                       live: map<int, Address>, pending: Option<int>) {

    ghost predicate Shape() {
      && size > 1 && 0 <= tail < |ring|
      && (forall i :: 0 <= i < |ring| ==> ring[i] < |entries|)
      && (forall i, j :: 0 <= i < j < |ring| ==> ring[i] != ring[j])
      && 0 <= lo <= hi <= lo + |ring| && lo - 1 <= top < hi
      && (forall o :: o in live ==> lo <= o < hi && pending != Some(o))
      && (pending.Some? ==> lo <= pending.value < hi)
    }

    ghost function Slot(o: int): nat
      requires Shape()
    {
      ring[Position(tail, top, o, |ring|)]
    }

    ghost predicate Keyed(o: int)
      requires Shape()
    {
      var e := entries[Slot(o)];
      if o < hi
      then e.key == o * size && (pending != Some(o) ==> e.value == if o in live then Some(live[o]) else None)
      else e.key == INVALID_BLOCK_BASE
    }

    ghost predicate Good() {
      Shape() && forall o :: lo <= o < lo + |ring| ==> Keyed(o)
    }

    lemma SlotsApart(o: int, p: int)
      requires Shape() && -|ring| < o - p < |ring| && o != p
      ensures Slot(o) != Slot(p)
    {
      PositionsApart(tail, top, o, p, |ring|);
    }

    /** The tail moves back one block; its entry keeps its key. */
    ghost function Rewound(): View
      requires ring != []
    {
      this.(tail := (tail - 1) % |ring|, top := top - 1)
    }

    lemma RewoundGood()
      requires Good() && lo <= top
      ensures Rewound().Good() && forall o :: Rewound().Slot(o) == Slot(o)
    {
      var v := Rewound();
      assert v.Shape();
      forall o ensures v.Slot(o) == Slot(o) { SamePosition(tail, top, -1, o, |ring|); }
      forall o | lo <= o < lo + |ring| ensures v.Keyed(o) { assert Keyed(o); }
    }

    /** The entry of block `o` gets a block, or is freed. */
    ghost function Stored(o: int, value: Option<Address>): View
      requires Shape()
    {
      this.(entries := entries[Slot(o) := entries[Slot(o)].(value := value)],
            live := if value.Some? then live[o := value.value] else live - {o},
            pending := if pending == Some(o) then None else pending)
    }

    lemma StoredGood(o: int, value: Option<Address>)
      requires Good() && lo <= o < hi
      ensures Stored(o, value).Good() && forall p :: Stored(o, value).Slot(p) == Slot(p)
    {
      var v := Stored(o, value);
      assert v.Shape();
      forall p | lo <= p < lo + |ring| ensures v.Keyed(p) {
        assert Keyed(p) && v.Slot(p) == Slot(p);
        if p != o { SlotsApart(o, p); }
      }
    }

    /** The slot after the tail is not that of a live block. */
    ghost predicate Room() { top + 1 < hi || hi - lo < |ring| || lo !in live }

    /** That slot was last given to the block one ring before. */
    lemma RoomIfNotLive()
      requires Shape()
      ensures Room() <==> top + 1 - |ring| !in live
    {}

    /** The next block takes the slot after the tail, over the oldest key if the ring is full. */
    ghost function Inserted(): View
      requires Shape()
    {
      var end := if top + 1 == hi then hi + 1 else hi;
      this.(entries := entries[Slot(top + 1) := entries[Slot(top + 1)].(key := (top + 1) * size)],
            tail := (tail + 1) % |ring|, top := top + 1, hi := end, lo := if end - lo > |ring| then lo + 1 else lo,
            pending := Some(top + 1))
    }

    lemma NextIsFree()
      requires Good() && pending.None? && forall o :: o in live ==> o <= top
      ensures Room() <==> entries[Slot(top + 1)].key == INVALID_BLOCK_BASE || entries[Slot(top + 1)].value.None?
      ensures !Room() ==> top + 1 == hi == lo + |ring|
    {
      if top + 1 < hi || hi < lo + |ring| {
        assert Keyed(top + 1);
      } else {
        assert Keyed(lo);
        Arithmetic.AddMultiple(tail + (lo - top), 1, |ring|);
        assert Slot(top + 1) == Slot(lo);
        BaseIsValid(lo, size);
      }
    }

    lemma InsertedGood()
      requires Good() && pending.None? && Room() && forall o :: o in live ==> o <= top
      ensures Inserted().Good() && Inserted().Slot(top + 1) == Slot(top + 1)
    {
      var v := Inserted();
      assert v.Shape();
      forall o ensures v.Slot(o) == Slot(o) { SamePosition(tail, top, 1, o, |ring|); }
      forall o | v.lo <= o < v.lo + |ring| ensures v.Keyed(o) {
        if o != top + 1 {
          SlotsApart(o, top + 1);
          assert Keyed(o);
        }
      }
    }

    ghost function OldestFirst(): (slots: seq<nat>)
      requires Shape()
      ensures |slots| == |ring| && forall k :: 0 <= k < |ring| ==> slots[k] == Slot(lo + k)
    {
      seq<nat>(|ring|, k requires 0 <= k < |ring| => Slot(lo + k))
    }

    /** A full ring, oldest block first, followed by as many new entries. */
    ghost function Grown(garbage: Option<Address>): View
      requires Shape()
    {
      this.(ring := OldestFirst() + Numbers(|entries|, |ring|),
            entries := entries + seq(|ring|, _ => Entry(INVALID_BLOCK_BASE, garbage)),
            tail := |ring| - 1)
    }

    lemma GrownApart(garbage: Option<Address>, i: nat, j: nat)
      requires Shape() && i < j < 2 * |ring|
      ensures Grown(garbage).ring[i] != Grown(garbage).ring[j]
    {
      if j < |ring| { SlotsApart(lo + i, lo + j); }
    }

    lemma GrownShape(garbage: Option<Address>)
      requires Shape() && top + 1 == hi == lo + |ring|
      ensures Grown(garbage).Shape()
      ensures forall o :: lo <= o < lo + 2 * |ring| ==> Grown(garbage).Slot(o) == Grown(garbage).ring[o - lo]
    {
      var v := Grown(garbage);
      forall i, j | 0 <= i < j < |v.ring| ensures v.ring[i] != v.ring[j] { GrownApart(garbage, i, j); }
      forall o | lo <= o < lo + 2 * |ring| ensures v.Slot(o) == v.ring[o - lo] {
        Arithmetic.DivMod(o - lo, 2 * |ring|, 0, o - lo);
      }
    }

    lemma GrownGood(garbage: Option<Address>)
      requires Good() && top + 1 == hi == lo + |ring|
      ensures Grown(garbage).Good() && Grown(garbage).Room()
    {
      GrownShape(garbage);
      var v := Grown(garbage);
      forall o | lo <= o < lo + |v.ring| ensures v.Keyed(o) {
        assert v.Slot(o) == v.ring[o - lo];
        if o < hi { assert Keyed(o); }
      }
    }

    /** Every live block is found from the key at the tail, so the lookup's own checks hold. */
    lemma Found(o: int)
      requires Good() && lo <= top && o in live && pending != Some(top)
      ensures entries[ring[tail]].key == top * size != INVALID_BLOCK_BASE
      ensures entries[Slot(o)] == Entry(o * size, Some(live[o]))
      ensures ring[(tail + IndexArithmetic.Truncated(o * size - top * size, size)) % |ring|] == Slot(o)
    {
      assert Keyed(top) && Keyed(o);
      Arithmetic.DivMod(tail, |ring|, 0, tail);
      BaseIsValid(top, size);
      Arithmetic.Distribute(o, top, size);
      IndexArithmetic.ExactDivision(o - top, size);
    }
  }

  lemma BaseIsValid(o: int, size: nat)
    requires size > 1
    ensures o * size != INVALID_BLOCK_BASE
  {
    if o >= 1 { Arithmetic.MulAtLeast(o, size); }
    if o <= -1 { Arithmetic.MulAtLeast(-o, size); }
  }

  class BlockIndex {
    const size: nat                       // BLOCK_SIZE
    ghost const built: bool               // whether there is a ring; without one every insertion fails
    ghost const initialCapacity: nat      // of the first ring
    var ring: seq<nat>                    // empty if no memory could be had for it
    var entries: seq<Entry>
    var tail: nat
    var nextCapacity: nat
    ghost var lo: int
    ghost var hi: int
    ghost var top: int
    ghost var live: map<int, Address>     // the blocks in use, by number
    ghost var pending: Option<int>

    ghost function Value(): View
      reads this
    {
      View(size, ring, entries, tail, lo, hi, top, live, pending)
    }

    ghost predicate Valid()
      reads this
    {
      && (ring != [] <==> built)
      && if ring == [] then size > 1 && top == -1 && live == map[] && pending.None?
         else Value().Good() && nextCapacity == 2 * |ring| && |ring| >= initialCapacity
    }

    /** Between operations no block is pending and the tail is behind none. */
    ghost predicate Settled()
      reads this
    {
      Valid() && pending.None? && forall o :: o in live ==> o <= top
    }

    ghost predicate IsEntry(id: nat, o: int)
      reads this
    {
      ring != [] && Value().Good() && lo <= o < hi && Value().Slot(o) == id
    }

    /** The first ring, if memory can be had for it. The entries of a new ring hold no block, whatever value
        they start with. */
    constructor (size: nat, initialCapacity: nat, memory: bool, garbage: Option<Address>)
      requires size > 1 && initialCapacity > 0
      ensures Settled() && top == -1 && live == map[] && this.size == size && built == memory
      ensures this.initialCapacity == initialCapacity
    {
      this.size, built, this.initialCapacity := size, memory, initialCapacity;
      ring := if memory then Numbers(0, initialCapacity) else [];
      entries := seq(initialCapacity, _ => Entry(INVALID_BLOCK_BASE, garbage));
      tail, nextCapacity := initialCapacity - 1, if memory then 2 * initialCapacity else initialCapacity;
      lo, hi, top, live, pending := 0, 0, -1, map[], None;
    }

    /** The slots of a full ring, oldest block first. */
    method CopyRing() returns (slots: seq<nat>)
      requires ring != [] && Value().Shape() && top + 1 == hi == lo + |ring|
      ensures slots == Value().OldestFirst()
    {
      var pos := tail;
      slots := [];
      Arithmetic.AddMultiple(tail, -1, |ring|);
      Arithmetic.DivMod(tail, |ring|, 0, tail);
      while |slots| < |ring|
        invariant |slots| <= |ring| && pos == Position(tail, top, lo + |slots| - 1, |ring|)
        invariant forall k :: 0 <= k < |slots| ==> slots[k] == Value().Slot(lo + k)
      {
        StepForward(tail + (lo + |slots| - 1 - top), |ring|);
        pos := (pos + 1) % |ring|;
        slots := slots + [ring[pos]];
      }
    }

    /** A ring of twice the size that shares the entries of the full one. */
    method NewBlockIndex(memory: bool, garbage: Option<Address>) returns (ok: bool)
      requires Settled() && ring != [] && !Value().Room()
      modifies this
      ensures ok == memory && Settled() && top == old(top) && live == old(live)
      ensures if ok then Value().Room() && entries[Value().Slot(top + 1)].key == INVALID_BLOCK_BASE else unchanged(this)
      ensures ok ==> |ring| == 2 * old(|ring|)
    {
      if !memory { return false; }
      ghost var v := Value();
      v.NextIsFree();
      v.GrownGood(garbage);
      var slots := CopyRing();
      var newEntries := seq(|ring|, _ => Entry(INVALID_BLOCK_BASE, garbage));
      ring, tail := slots + Numbers(|entries|, |ring|), |ring| - 1;
      entries := entries + newEntries;
      nextCapacity := 2 * nextCapacity;
      assert Value() == v.Grown(garbage);
      assert Value().Keyed(top + 1);
      return true;
    }

    /** Writes the key of the next block and moves the tail to it. */
    method Claim(blockStartIndex: int) returns (id: nat)
      requires Settled() && ring != [] && Value().Room() && blockStartIndex == (top + 1) * size
      modifies this
      ensures Valid() && live == old(live) && top == old(top) + 1 && pending == Some(top) && IsEntry(id, top)
      ensures ring == old(ring)
    {
      ghost var v := Value();
      v.InsertedGood();
      tail := (tail + 1) % |ring|;
      id := ring[tail];
      entries := entries[id := entries[id].(key := blockStartIndex)];
      lo, hi, top, pending := v.Inserted().lo, v.Inserted().hi, top + 1, Some(top + 1);
      assert Value() == v.Inserted();
    }

    /** Claims the entry of the next block: the slot after the tail, in a bigger ring if that slot's block is
        still live. It fails only when there is no ring, or no bigger one can be had. */
    method Insert(blockStartIndex: int, canAlloc: bool, memory: bool, garbage: Option<Address>)
      returns (ok: bool, id: nat)
      requires Settled() && blockStartIndex == (top + 1) * size
      modifies this
      ensures ok <==> built && (old(Value().Room()) || (canAlloc && memory))
      ensures Valid() && live == old(live)
      ensures |ring| == if ok && !old(Value().Room()) then 2 * old(|ring|) else old(|ring|)
      ensures if ok then top == old(top) + 1 && pending == Some(top) && IsEntry(id, top) else unchanged(this)
    {
      if ring == [] { return false, 0; }
      Value().NextIsFree();
      var next := entries[ring[(tail + 1) % |ring|]];
      assert next == Value().entries[Value().Slot(top + 1)];
      if next.key != INVALID_BLOCK_BASE && next.value.Some? {
        if !canAlloc { return false, 0; }
        var grown := NewBlockIndex(memory, garbage);
        if !grown { return false, 0; }
      }
      id := Claim(blockStartIndex);
      ok := true;
    }

    method Rewind()
      requires Valid() && ring != [] && lo <= top
      modifies this`tail, this`top
      ensures Valid() && top == old(top) - 1 && forall o :: Value().Slot(o) == old(Value()).Slot(o)
    {
      Value().RewoundGood();
      tail := (tail - 1) % |ring|;
      top := top - 1;
    }

    method Store(id: nat, value: Option<Address>, ghost o: int)
      requires Valid() && IsEntry(id, o)
      modifies this`entries, this`live, this`pending
      ensures Valid() && live == (if value.Some? then old(live)[o := value.value] else old(live) - {o})
      ensures pending == (if old(pending) == Some(o) then None else old(pending))
      ensures forall p :: Value().Slot(p) == old(Value()).Slot(p)
    {
      Value().StoredGood(o, value);
      live, pending := Value().Stored(o, value).live, Value().Stored(o, value).pending;
      entries := entries[id := entries[id].(value := value)];
    }

    /** Gives a claimed entry up again. */
    method Abandon(id: nat)
      requires Valid() && pending == Some(top) && IsEntry(id, top) && forall o :: o in live ==> o < top
      modifies this
      ensures Settled() && top == old(top) - 1 && live == old(live) && ring == old(ring)
    {
      ghost var o := top;
      Rewind();
      Store(id, None, o);
    }

    /** Fills a claimed entry in. */
    method Fill(id: nat, block: Address)
      requires Valid() && pending == Some(top) && IsEntry(id, top) && forall o :: o in live ==> o < top
      modifies this
      ensures Settled() && top == old(top) && live == old(live)[top := block] && ring == old(ring)
    {
      Store(id, Some(block), top);
    }

    /** The entry of the block of index `i`: its key and block are never in doubt. */
    method Lookup(i: nat) returns (id: nat)
      requires Valid() && i / size in live && lo <= top && pending != Some(top)
      ensures IsEntry(id, i / size) && entries[id] == Entry(i / size * size, Some(live[i / size]))
      ensures entries[ring[tail]].key != INVALID_BLOCK_BASE
    {
      Value().Found(i / size);
      var base := i / size * size;
      var tailBase := entries[ring[tail]].key;
      var offset := IndexArithmetic.Truncated(base - tailBase, size);
      id := ring[(tail + offset) % |ring|];
    }

    /** One step of undoing a bulk enqueue: the block of index `i` is freed and the tail moves back, although it
        need not be at that block. */
    method Retract(i: nat)
      requires Valid() && pending.None? && i / size in live && lo <= top
      modifies this
      ensures Valid() && pending.None? && live == old(live) - {i / size} && top == old(top) - 1
      ensures lo == old(lo) && ring == old(ring)
    {
      var id := Lookup(i);
      Store(id, None, i / size);
      Rewind();
    }
  }

  lemma StepForward(a: int, d: nat)
    requires d > 0
    ensures (a % d + 1) % d == (a + 1) % d
  {
    Arithmetic.ModNext(a, d);
    if a % d + 1 == d { Arithmetic.DivMod(d, d, 1, 0); } else { Arithmetic.DivMod(a % d + 1, d, 0, a % d + 1); }
  }
}
