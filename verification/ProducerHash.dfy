/**
 The hash from thread ids to implicit producers: a chain of open-addressing tables, the newest one first,
 into which entries of the older ones are copied when they are next used. Slots are taken over from threads
 that have exited, but never become empty again. One counter bounds the slots used in the newest table plus
 the live ids not yet copied into it, so that every probe meets an empty slot.

 Operations are atomic with respect to each other. Masking with a power of two minus one is written as a
 remainder (IndexArithmetic.MaskIsRemainder), and the hash function is arbitrary.
 */
module ProducerHash {
  import opened Wrappers
  import Arithmetic

  type Id = nat

  type Address = nat

  // ---------------------------------------------------------------------------------- one table

  datatype Key = Empty | Reusable | Of(id: Id)

  datatype Entry = Entry(key: Key, value: Address)

  /** The slot of probe number `d`. */
  function Slot(start: nat, d: nat, n: nat): (i: nat)
    requires n > 0
    ensures i < n
  {
    (start + d) % n
  }

  /** The probe that reaches slot `i`. */
  function Distance(start: nat, i: nat, n: nat): (d: nat)
    requires i < n
    ensures d < n
  {
    (i as int - start) % n
  }

  lemma SlotOfDistance(start: nat, i: nat, n: nat)
    requires i < n
    ensures Slot(start, Distance(start, i, n), n) == i
  {
    var x := i as int - start;
    Arithmetic.AddMultiple(i, -(x / n), n);
    assert start + x % n == i + -(x / n) * n;
    Arithmetic.DivMod(i, n, 0, i);
  }

  lemma DistanceOfSlot(start: nat, d: nat, n: nat)
    requires d < n
    ensures Distance(start, Slot(start, d, n), n) == d
  {
    var x := start + d;
    Arithmetic.AddMultiple(d, -(x / n), n);
    assert x % n - start == d + -(x / n) * n;
    Arithmetic.DivMod(d, n, 0, d);
  }

  lemma NextSlot(start: nat, d: nat, n: nat)
    requires n > 0
    ensures (Slot(start, d, n) + 1) % n == Slot(start, d + 1, n)
  {
    var x := start + d;
    Arithmetic.AddMultiple(x % n + 1, x / n, n);
    assert x % n + 1 + x / n * n == x + 1;
  }

  /** The first `d` probes meet no empty slot. */
  ghost predicate Path(t: seq<Entry>, start: nat, d: nat) {
    |t| > 0 && forall e :: 0 <= e < d ==> t[Slot(start, e, |t|)].key != Empty
  }

  ghost predicate HasEmpty(t: seq<Entry>) { exists i :: 0 <= i < |t| && t[i].key == Empty }

  ghost predicate In(t: seq<Entry>, id: Id) { exists i :: 0 <= i < |t| && t[i].key == Of(id) }

  /** The slot holds a live thread's producer, and the thread's probes get there. */
  ghost predicate SlotInv(t: seq<Entry>, hash: Id -> nat, live: map<Id, Address>, i: nat)
    requires i < |t|
  {
    t[i].key.Of? ==>
      var id := t[i].key.id; id in live && t[i].value == live[id] && Path(t, hash(id), Distance(hash(id), i, |t|))
  }

  ghost predicate TableInv(t: seq<Entry>, hash: Id -> nat, live: map<Id, Address>) {
    && HasEmpty(t)
    && (forall i :: 0 <= i < |t| ==> SlotInv(t, hash, live, i))
    && (forall i, j :: 0 <= i < j < |t| && t[i].key.Of? ==> t[i].key != t[j].key)
  }

  /** Probing stops at the id, if it is in the table, and at an empty slot otherwise. */
  method Find(t: array<Entry>, hash: Id -> nat, id: Id, ghost live: map<Id, Address>) returns (r: Option<Address>)
    requires TableInv(t[..], hash, live)
    ensures if In(t[..], id) then id in live && r == Some(live[id]) else r.None?
  {
    ghost var table, start := t[..], hash(id);
    ghost var hole :| 0 <= hole < t.Length && table[hole].key == Empty;
    ghost var end := Distance(start, hole, t.Length);
    SlotOfDistance(start, hole, t.Length);
    var index := hash(id) % t.Length;
    ghost var d := 0;
    while t[index].key != Of(id)
      invariant d <= end && index == Slot(start, d, t.Length)
      invariant forall e :: 0 <= e < d ==>
        table[Slot(start, e, t.Length)].key != Of(id) && table[Slot(start, e, t.Length)].key != Empty
      decreases end - d
    {
      if t[index].key == Empty {
        NotBefore(table, hash, live, id, d);
        return None;
      }
      NextSlot(start, d, t.Length);
      index := (index + 1) % t.Length;
      d := d + 1;
    }
    assert table[index].key == Of(id);
    assert SlotInv(table, hash, live, index);
    r := Some(t[index].value);
  }

  /** An id that probing has not met before an empty slot is not in the table. */
  lemma NotBefore(t: seq<Entry>, hash: Id -> nat, live: map<Id, Address>, id: Id, d: nat)
    requires TableInv(t, hash, live) && d < |t| && t[Slot(hash(id), d, |t|)].key == Empty
    requires forall e :: 0 <= e < d ==> t[Slot(hash(id), e, |t|)].key != Of(id)
    ensures !In(t, id)
  {
    if i :| 0 <= i < |t| && t[i].key == Of(id) {
      assert SlotInv(t, hash, live, i);
      SlotOfDistance(hash(id), i, |t|);
    }
  }

  /** Takes the first slot on the id's way that is empty or left by a thread that has exited. */
  method Claim(t: array<Entry>, hash: Id -> nat, id: Id, value: Address) returns (reused: bool, ghost i: nat)
    requires HasEmpty(t[..])
    modifies t
    ensures i < t.Length && t[..] == old(t[..])[i := Entry(Of(id), value)]
    ensures old(t[..])[i].key == (if reused then Reusable else Empty)
    ensures Path(old(t[..]), hash(id), Distance(hash(id), i, t.Length))
  {
    ghost var table, start := t[..], hash(id);
    ghost var hole :| 0 <= hole < t.Length && table[hole].key == Empty;
    ghost var end := Distance(start, hole, t.Length);
    SlotOfDistance(start, hole, t.Length);
    var index := hash(id) % t.Length;
    ghost var d := 0;
    while t[index].key.Of?
      invariant d <= end && index == Slot(start, d, t.Length) && t[..] == table
      invariant Path(table, start, d)
      decreases end - d
    {
      NextSlot(start, d, t.Length);
      index := (index + 1) % t.Length;
      d := d + 1;
    }
    DistanceOfSlot(start, d, t.Length);
    reused, i := t[index].key == Reusable, index;
    t[index] := Entry(Of(id), value);
  }

  /** Leaves the id's slot, if it has one, to others. */
  method Remove(t: array<Entry>, hash: Id -> nat, id: Id, ghost live: map<Id, Address>)
    requires TableInv(t[..], hash, live)
    modifies t
    ensures TableInv(t[..], hash, live - {id}) && !In(t[..], id)
    ensures Left(t[..], old(t[..]), id)
  {
    ghost var table, start := t[..], hash(id);
    ghost var hole :| 0 <= hole < t.Length && table[hole].key == Empty;
    ghost var end := Distance(start, hole, t.Length);
    SlotOfDistance(start, hole, t.Length);
    var index := hash(id) % t.Length;
    ghost var d := 0;
    while t[index].key != Of(id)
      invariant d <= end && index == Slot(start, d, t.Length) && t[..] == table
      invariant forall e :: 0 <= e < d ==>
        table[Slot(start, e, t.Length)].key != Of(id) && table[Slot(start, e, t.Length)].key != Empty
      decreases end - d
    {
      if t[index].key == Empty {
        NotBefore(table, hash, live, id, d);
        WithoutId(table, hash, live, id);
        return;
      }
      NextSlot(start, d, t.Length);
      index := (index + 1) % t.Length;
      d := d + 1;
    }
    t[index] := t[index].(key := Reusable);
    assert t[..] == table[index := table[index].(key := Reusable)];
    LeftInv(table, hash, live, index);
  }

  /** The table without the id: its slot, if it had one, is reusable. */
  ghost predicate Left(t': seq<Entry>, t: seq<Entry>, id: Id) {
    if In(t, id) then exists i :: 0 <= i < |t| && t[i].key == Of(id) && t' == t[i := t[i].(key := Reusable)]
    else t' == t
  }

  lemma WithoutId(t: seq<Entry>, hash: Id -> nat, live: map<Id, Address>, id: Id)
    requires TableInv(t, hash, live) && !In(t, id)
    ensures TableInv(t, hash, live - {id})
  {
    forall i | 0 <= i < |t| ensures SlotInv(t, hash, live - {id}, i) { assert SlotInv(t, hash, live, i); }
  }

  /** Probes pass over a slot that is left. */
  lemma LeftInv(t: seq<Entry>, hash: Id -> nat, live: map<Id, Address>, i: nat)
    requires TableInv(t, hash, live) && i < |t| && t[i].key.Of?
    ensures var id, t' := t[i].key.id, t[i := t[i].(key := Reusable)]; TableInv(t', hash, live - {id}) && !In(t', id)
  {
    var id, t' := t[i].key.id, t[i := t[i].(key := Reusable)];
    var hole :| 0 <= hole < |t| && t[hole].key == Empty;
    assert t'[hole].key == Empty;
    forall j | 0 <= j < |t| ensures SlotInv(t', hash, live - {id}, j) { assert SlotInv(t, hash, live, j); }
  }

  /** A claimed slot keeps the table in order as long as an empty one remains. */
  lemma ClaimedInv(t: seq<Entry>, hash: Id -> nat, live: map<Id, Address>, i: nat, id: Id, value: Address)
    requires TableInv(t, hash, live) && i < |t| && !t[i].key.Of? && !In(t, id) && (id in live ==> value == live[id])
    requires Path(t, hash(id), Distance(hash(id), i, |t|)) && HasEmpty(t[i := Entry(Of(id), value)])
    ensures TableInv(t[i := Entry(Of(id), value)], hash, live[id := value])
  {
    var t' := t[i := Entry(Of(id), value)];
    var live' := live[id := value];
    forall j | 0 <= j < |t| ensures SlotInv(t', hash, live', j) {
      assert SlotInv(t, hash, live, j);
      if j != i && t[j].key.Of? { assert t[j].key != Of(id); }
    }
    forall j, k | 0 <= j < k < |t| && t'[j].key.Of? ensures t'[j].key != t'[k].key {
      if j == i { assert t[k].key != Of(id); } else if k == i { assert t[j].key != Of(id); }
    }
  }

  // ---------------------------------------------------------------------------------- tallies

  datatype Kind = Used | Taken

  function Part(kind: Kind, e: Entry): nat {
    if (if kind.Used? then e.key != Empty else e.key.Of?) then 1 else 0
  }

  /** How many slots are used, or taken by a live thread. */
  ghost function Tally(kind: Kind, t: seq<Entry>): (n: nat)
    ensures n <= |t|
  {
    if t == [] then 0 else Tally(kind, t[..|t| - 1]) + Part(kind, t[|t| - 1])
  }

  lemma {:induction false} TallyUpdate(kind: Kind, t: seq<Entry>, i: nat, e: Entry)
    requires i < |t|
    ensures Tally(kind, t[i := e]) == Tally(kind, t) - Part(kind, t[i]) + Part(kind, e)
  {
    var n := |t| - 1;
    if i == n {
      assert t[i := e][..n] == t[..n];
    } else {
      assert t[i := e][..n] == t[..n][i := e];
      TallyUpdate(kind, t[..n], i, e);
    }
  }

  lemma {:induction false} TakenIsUsed(t: seq<Entry>)
    ensures Tally(Taken, t) <= Tally(Used, t)
  {
    if t != [] { TakenIsUsed(t[..|t| - 1]); }
  }

  lemma {:induction false} RoomLeft(t: seq<Entry>)
    requires Tally(Used, t) < |t|
    ensures HasEmpty(t)
  {
    var n := |t| - 1;
    if t[n].key != Empty {
      RoomLeft(t[..n]);
      var i :| 0 <= i < n && t[..n][i].key == Empty;
      assert t[i].key == Empty;
    }
  }

  lemma {:induction false} TallyEmpty(kind: Kind, t: seq<Entry>)
    requires forall i :: 0 <= i < |t| ==> t[i].key == Empty
    ensures Tally(kind, t) == 0
  {
    if t != [] { TallyEmpty(kind, t[..|t| - 1]); }
  }

  // ------------------------------------------------------------------------------- the producers

  datatype Producer = Producer(address: Address, isExplicit: bool, inactive: bool)

  /** All producers of a queue; `active` are those somebody holds, `kinds` says which are explicit. */
  class Registry {
    var list: seq<Producer>               // newest first
    var pool: seq<Option<Address>>        // implicit producers created in advance
    var nextPrealloc: nat
    var known: nat                        // addresses below this exist
    ghost var active: set<Address>
    ghost var kinds: map<Address, bool>

    ghost predicate Valid()
      reads this
    {
      && (forall i, j :: 0 <= i < j < |list| ==> list[i].address != list[j].address)
      && (forall i :: 0 <= i < |list| ==> ProducerInv(list[i]))
      && (forall a :: a in kinds ==> a < known) && active <= kinds.Keys
      && (forall k :: nextPrealloc <= k < |pool| ==> pool[k].Some? && pool[k].value < known && pool[k].value !in kinds)
      && (forall j, k :: nextPrealloc <= j < k < |pool| ==> pool[j] != pool[k])
    }

    ghost predicate ProducerInv(p: Producer)
      reads this
    {
      p.address in kinds && kinds[p.address] == p.isExplicit && (p.inactive <==> p.address !in active)
    }

    constructor (preallocated: nat)
      ensures Valid() && active == {}
    {
      list, nextPrealloc, known, active, kinds := [], 0, preallocated, {}, map[];
      pool := seq(preallocated, k => Some(k));
    }

    method AddProducer(a: Address, isExplicit: bool)
      requires Valid() && a < known && a !in kinds && forall k :: nextPrealloc <= k < |pool| ==> pool[k] != Some(a)
      modifies this`list, this`active, this`kinds
      ensures Valid() && active == old(active) + {a} && kinds == old(kinds)[a := isExplicit]
    {
      list := [Producer(a, isExplicit, false)] + list;
      active, kinds := active + {a}, kinds[a := isExplicit];
    }

    /** The producer of the kind given up that is first in the list. */
    ghost predicate IsFirst(isExplicit: bool, i: int)
      reads this
    {
      && 0 <= i < |list| && list[i].inactive && list[i].isExplicit == isExplicit
      && forall j :: 0 <= j < i ==> !(list[j].inactive && list[j].isExplicit == isExplicit)
    }

    /** A producer of the kind was given up. */
    ghost predicate Recyclable(isExplicit: bool)
      reads this
    {
      exists i :: IsFirst(isExplicit, i)
    }

    /** A producer of the kind can be had without memory. */
    ghost predicate Available(isExplicit: bool)
      reads this
    {
      Recyclable(isExplicit) || (!isExplicit && nextPrealloc < |pool|)
    }

    /** A producer nobody holds: the first one of the right kind that was given up, else the next one created in
        advance, else a new one. */
    method RecycleOrCreate(isExplicit: bool, memory: bool) returns (r: Option<Address>)
      requires Valid()
      modifies this
      ensures Valid() && (r.None? ==> !memory && active == old(active))
      ensures r.Some? <==> memory || old(Available(isExplicit))
      ensures forall i :: old(IsFirst(isExplicit, i)) ==>
        r == Some(old(list)[i].address) && unchanged(`pool) && unchanged(`nextPrealloc) && unchanged(`known)
      ensures !old(Recyclable(isExplicit)) && old(Available(isExplicit)) ==>
        r == old(pool)[old(nextPrealloc)] && nextPrealloc == old(nextPrealloc) + 1 && unchanged(`known)
      ensures !old(Available(isExplicit)) && memory ==> r == Some(old(known))
      ensures r.Some? ==>
        r.value !in old(active) && active == old(active) + {r.value} && r.value in kinds && kinds[r.value] == isExplicit
    {
      for i := 0 to |list|
        invariant Valid() && unchanged(this)
        invariant forall j :: 0 <= j < i ==> !(list[j].inactive && list[j].isExplicit == isExplicit)
      {
        if list[i].inactive && list[i].isExplicit == isExplicit {
          assert ProducerInv(list[i]) && IsFirst(isExplicit, i);
          r := Some(list[i].address);
          Activate(i);
          return;
        }
      }
      if !isExplicit && nextPrealloc < |pool| {
        var ticket := nextPrealloc;
        nextPrealloc := nextPrealloc + 1;
        r := pool[ticket];
        pool := pool[ticket := None];
        AddProducer(r.value, false);
        return;
      }
      if !memory { return None; }
      known := known + 1;
      AddProducer(known - 1, isExplicit);
      r := Some(known - 1);
    }

    method Activate(i: nat)
      requires Valid() && i < |list| && list[i].inactive
      modifies this`list, this`active
      ensures Valid() && active == old(active) + {old(list)[i].address}
    {
      ghost var was, a := list, list[i].address;
      list := list[i := list[i].(inactive := false)];
      active := active + {a};
      forall j | 0 <= j < |list| ensures ProducerInv(list[j]) { assert was[j].address in kinds; }
    }

    method Deactivate(a: Address)
      requires Valid()
      modifies this`list, this`active
      ensures Valid() && active == old(active) - {a}
    {
      ghost var was := list;
      list := seq(|list|, i requires 0 <= i < |list| reads this =>
        if list[i].address == a then list[i].(inactive := true) else list[i]);
      active := active - {a};
      forall j | 0 <= j < |list| ensures ProducerInv(list[j]) { assert was[j].address in kinds; }
    }
  }

  // ------------------------------------------------------------------------------ the main table

  /** The newest table: `migrated` are the ids in it, and `count` bounds its used slots plus the live ids that
      are still to be copied into it. Only the first table may be of one slot, before anything is counted. */
  ghost predicate MainInv(t: seq<Entry>, hash: Id -> nat, live: map<Id, Address>, migrated: set<Id>, count: nat) {
    TableInv(t, hash, live) && CountInv(t, live, migrated, count)
  }

  ghost predicate CountInv(t: seq<Entry>, live: map<Id, Address>, migrated: set<Id>, count: nat) {
    && (forall id :: id in migrated <==> In(t, id)) && |migrated| == Tally(Taken, t)
    && Tally(Used, t) + |live.Keys - migrated| <= count && (count == 0 || count < |t| / 2)
  }

  lemma InClaimed(t: seq<Entry>, i: nat, id: Id, value: Address, x: Id)
    requires i < |t| && !t[i].key.Of?
    ensures In(t[i := Entry(Of(id), value)], x) <==> In(t, x) || x == id
  {
    var t' := t[i := Entry(Of(id), value)];
    assert t'[i].key == Of(id);
    if In(t, x) {
      var j :| 0 <= j < |t| && t[j].key == Of(x);
      assert t'[j].key == Of(x);
    }
  }

  lemma ClaimedCount(t: seq<Entry>, live: map<Id, Address>, migrated: set<Id>, count: nat, i: nat, id: Id,
                     value: Address, count': nat)
    requires CountInv(t, live, migrated, count) && i < |t| && !t[i].key.Of? && !In(t, id) && count <= count' < |t| / 2
    requires id in live || t[i].key == Reusable || count < count'
    ensures CountInv(t[i := Entry(Of(id), value)], live[id := value], migrated + {id}, count')
  {
    var t', live', migrated' := t[i := Entry(Of(id), value)], live[id := value], migrated + {id};
    TallyUpdate(Used, t, i, Entry(Of(id), value));
    TallyUpdate(Taken, t, i, Entry(Of(id), value));
    ClaimedIds(t, migrated, i, id, value);
    assert live'.Keys - migrated' == (live.Keys - migrated) - {id};
  }

  lemma ClaimedIds(t: seq<Entry>, migrated: set<Id>, i: nat, id: Id, value: Address)
    requires (forall x :: x in migrated <==> In(t, x)) && i < |t| && !t[i].key.Of?
    ensures (id in migrated <==> In(t, id)) && forall x :: x in migrated + {id} <==> In(t[i := Entry(Of(id), value)], x)
  {
    forall x ensures x in migrated + {id} <==> In(t[i := Entry(Of(id), value)], x) { InClaimed(t, i, id, value, x); }
  }

  /** A slot claimed for an id that is not in the table, with the count it may bring it to. */
  lemma ClaimedMain(t: seq<Entry>, hash: Id -> nat, live: map<Id, Address>, migrated: set<Id>, count: nat, i: nat,
                    id: Id, value: Address, count': nat)
    requires MainInv(t, hash, live, migrated, count) && i < |t| && !t[i].key.Of? && !In(t, id)
    requires id in live ==> value == live[id]
    requires Path(t, hash(id), Distance(hash(id), i, |t|)) && count <= count' < |t| / 2
    requires id in live || t[i].key == Reusable || count < count'
    ensures MainInv(t[i := Entry(Of(id), value)], hash, live[id := value], migrated + {id}, count')
  {
    ClaimedCount(t, live, migrated, count, i, id, value, count');
    RoomLeft(t[i := Entry(Of(id), value)]);
    ClaimedInv(t, hash, live, i, id, value);
  }

  lemma LeftCount(t: seq<Entry>, live: map<Id, Address>, migrated: set<Id>, count: nat, i: nat, id: Id)
    requires CountInv(t, live, migrated, count) && i < |t| && t[i].key == Of(id)
    requires forall j :: 0 <= j < |t| && j != i ==> t[j].key != t[i].key
    ensures CountInv(t[i := t[i].(key := Reusable)], live - {id}, migrated - {id}, count)
  {
    LeftTallies(t, i);
    LeftIds(t, migrated, i, id);
    LeftUnmigrated(live, migrated, id);
  }

  lemma LeftTallies(t: seq<Entry>, i: nat)
    requires i < |t| && t[i].key.Of?
    ensures var t' := t[i := t[i].(key := Reusable)];
      Tally(Used, t') == Tally(Used, t) && Tally(Taken, t') == Tally(Taken, t) - 1
  {
    TallyUpdate(Used, t, i, t[i].(key := Reusable));
    TallyUpdate(Taken, t, i, t[i].(key := Reusable));
  }

  lemma LeftIds(t: seq<Entry>, migrated: set<Id>, i: nat, id: Id)
    requires (forall x :: x in migrated <==> In(t, x)) && i < |t| && t[i].key == Of(id)
    requires forall j :: 0 <= j < |t| && j != i ==> t[j].key != t[i].key
    ensures id in migrated && forall x :: x in migrated - {id} <==> In(t[i := t[i].(key := Reusable)], x)
  {
    assert In(t, id);
    forall x ensures x in migrated - {id} <==> In(t[i := t[i].(key := Reusable)], x) { InLeft(t, i, x); }
  }

  lemma LeftUnmigrated(live: map<Id, Address>, migrated: set<Id>, id: Id)
    ensures |(live - {id}).Keys - (migrated - {id})| <= |live.Keys - migrated|
  {
    Arithmetic.SubsetSize((live - {id}).Keys - (migrated - {id}), live.Keys - migrated);
  }

  lemma LeftMain(t': seq<Entry>, t: seq<Entry>, hash: Id -> nat, live: map<Id, Address>, migrated: set<Id>, count: nat,
                 id: Id)
    requires MainInv(t, hash, live, migrated, count) && TableInv(t', hash, live - {id}) && Left(t', t, id)
    ensures MainInv(t', hash, live - {id}, migrated - {id}, count)
  {
    if In(t, id) {
      var i :| 0 <= i < |t| && t[i].key == Of(id) && t' == t[i := t[i].(key := Reusable)];
      LeftCount(t, live, migrated, count, i, id);
    } else {
      assert migrated - {id} == migrated;
      Arithmetic.SubsetSize((live - {id}).Keys - migrated, live.Keys - migrated);
    }
  }

  lemma InLeft(t: seq<Entry>, i: nat, x: Id)
    requires i < |t| && t[i].key.Of? && forall j :: 0 <= j < |t| && j != i ==> t[j].key != t[i].key
    ensures In(t[i := t[i].(key := Reusable)], x) <==> In(t, x) && Of(x) != t[i].key
  {
    var t' := t[i := t[i].(key := Reusable)];
    if j :| 0 <= j < |t| && t[j].key == Of(x) && j != i { assert t'[j].key == Of(x); }
    if j :| 0 <= j < |t'| && t'[j].key == Of(x) { assert t[j].key == Of(x); }
  }

  /** A new table of at least twice the size starts with every live id still to come. */
  lemma FreshMain(t: seq<Entry>, hash: Id -> nat, live: map<Id, Address>, migrated: set<Id>, count: nat,
                  fresh': seq<Entry>)
    requires MainInv(t, hash, live, migrated, count) && migrated <= live.Keys && count < |fresh'| / 2
    requires forall i :: 0 <= i < |fresh'| ==> fresh'[i].key == Empty
    ensures MainInv(fresh', hash, live, {}, count)
  {
    TallyEmpty(Used, fresh');
    TallyEmpty(Taken, fresh');
    TakenIsUsed(t);
    assert fresh'[0].key == Empty;
    assert live.Keys == (live.Keys - migrated) + migrated;
    assert live.Keys - {} == live.Keys;
  }

  lemma InIsLive(t: seq<Entry>, hash: Id -> nat, live: map<Id, Address>, id: Id)
    requires TableInv(t, hash, live)
    ensures In(t, id) ==> id in live
  {
    if i :| 0 <= i < |t| && t[i].key == Of(id) { assert SlotInv(t, hash, live, i); }
  }

  lemma SelfUpdate(live: map<Id, Address>, id: Id)
    requires id in live
    ensures live[id := live[id]] == live
  {}

  lemma LiveMore(t: seq<Entry>, hash: Id -> nat, live: map<Id, Address>, id: Id, value: Address)
    requires TableInv(t, hash, live) && !In(t, id)
    ensures TableInv(t, hash, live[id := value])
  {
    var live' := live[id := value];
    forall i | 0 <= i < |t| ensures SlotInv(t, hash, live', i) { assert SlotInv(t, hash, live, i); }
  }

  // ------------------------------------------------------------------------------------ the hash

  /** All tables as a value: the newest one and the older ones. */
  datatype View = View(main: seq<Entry>, older: seq<seq<Entry>>, live: map<Id, Address>, migrated: set<Id>,
                       count: nat) {

    ghost predicate Older(hash: Id -> nat) { forall k :: 0 <= k < |older| ==> TableInv(older[k], hash, live) }

    ghost predicate Somewhere(id: Id) { In(main, id) || exists k :: 0 <= k < |older| && In(older[k], id) }

    ghost predicate Good(hash: Id -> nat) {
      MainInv(main, hash, live, migrated, count) && Older(hash) && forall id :: id in live ==> Somewhere(id)
    }

    /** A slot of the newest table is claimed for a thread. */
    ghost function Claimed(i: nat, id: Id, value: Address, count': nat): View
      requires i < |main|
    {
      this.(main := main[i := Entry(Of(id), value)], live := live[id := value], migrated := migrated + {id},
            count := count')
    }

    lemma ClaimedGood(hash: Id -> nat, i: nat, id: Id, value: Address, count': nat)
      requires Good(hash) && i < |main| && !main[i].key.Of? && !In(main, id)
      requires Path(main, hash(id), Distance(hash(id), i, |main|))
      requires count <= count' < |main| / 2
      requires if id in live then value == live[id] else main[i].key == Reusable || count < count'
      ensures Claimed(i, id, value, count').Good(hash)
    {
      var v := Claimed(i, id, value, count');
      ClaimedMain(main, hash, live, migrated, count, i, id, value, count');
      forall k | 0 <= k < |older| ensures TableInv(older[k], hash, v.live) {
        assert TableInv(older[k], hash, live);
        if id in live { assert v.live == live; } else {
          InIsLive(older[k], hash, live, id);
          LiveMore(older[k], hash, live, id, value);
        }
      }
      forall x | x in v.live ensures v.Somewhere(x) {
        InClaimed(main, i, id, value, x);
        if x != id { assert Somewhere(x); }
      }
    }

    /** A live thread is copied into the newest table. */
    ghost function Copied(i: nat, id: Id): View
      requires i < |main| && id in live
    {
      this.(main := main[i := Entry(Of(id), live[id])], migrated := migrated + {id})
    }

    lemma CopiedGood(hash: Id -> nat, i: nat, id: Id)
      requires Good(hash) && i < |main| && !main[i].key.Of? && !In(main, id)
      requires Path(main, hash(id), Distance(hash(id), i, |main|)) && id in live
      ensures Copied(i, id).Good(hash)
    {
      SelfUpdate(live, id);
      assert id in live.Keys - migrated;
      ClaimedGood(hash, i, id, live[id], count);
    }

    /** A new table takes over from the newest one. */
    ghost function Grown(t: seq<Entry>): View { View(t, [main] + older, live, {}, count) }

    lemma GrownGood(hash: Id -> nat, t: seq<Entry>)
      requires Good(hash) && count < |t| / 2 && forall i :: 0 <= i < |t| ==> t[i].key == Empty
      ensures Grown(t).Good(hash)
    {
      var v := Grown(t);
      forall id | id in migrated ensures id in live { InIsLive(main, hash, live, id); }
      FreshMain(main, hash, live, migrated, count, t);
      forall x | x in live ensures v.Somewhere(x) {
        assert Somewhere(x);
        if In(main, x) { assert In(v.older[0], x); } else {
          var k :| 0 <= k < |older| && In(older[k], x);
          assert In(v.older[k + 1], x);
        }
      }
    }

    /** A thread's slots are left in every table. */
    ghost predicate Leaves(v: View, hash: Id -> nat, id: Id) {
      && TableInv(v.main, hash, live - {id}) && Left(v.main, main, id) && |v.older| == |older|
      && (forall k :: 0 <= k < |older| ==> TableInv(v.older[k], hash, live - {id}) && Left(v.older[k], older[k], id))
      && v.live == live - {id} && v.migrated == migrated - {id} && v.count == count
    }

    lemma LeftGood(hash: Id -> nat, id: Id, v: View)
      requires Good(hash) && Leaves(v, hash, id)
      ensures v.Good(hash)
    {
      LeftMain(v.main, main, hash, live, migrated, count, id);
      forall x | x in v.live ensures v.Somewhere(x) {
        assert Somewhere(x);
        if In(main, x) { StillIn(v.main, main, id, x); } else {
          var k :| 0 <= k < |older| && In(older[k], x);
          StillIn(v.older[k], older[k], id, x);
        }
      }
    }
  }

  lemma StillIn(t': seq<Entry>, t: seq<Entry>, id: Id, x: Id)
    requires Left(t', t, id) && In(t, x) && x != id
    ensures In(t', x)
  {
    var j :| 0 <= j < |t| && t[j].key == Of(x);
    if In(t, id) {
      var i :| 0 <= i < |t| && t[i].key == Of(id) && t' == t[i := t[i].(key := Reusable)];
      assert t'[j].key == Of(x);
    }
  }

  function EmptyTable(n: nat): (t: seq<Entry>)
    ensures |t| == n && forall i :: 0 <= i < n ==> t[i].key == Empty
  {
    seq(n, _ => Entry(Empty, 0))
  }

  /** Doubles the capacity until less than half of it is counted. */
  method NewCapacity(newCount: nat, capacity: nat) returns (newCapacity: nat)
    requires capacity > 0
    ensures newCapacity >= 2 * capacity && newCount < newCapacity / 2
    ensures newCapacity == 2 * capacity || newCapacity / 2 <= 2 * newCount + 1
  {
    newCapacity := 2 * capacity;
    while newCount >= newCapacity / 2
      invariant newCapacity >= 2 * capacity && (newCapacity == 2 * capacity || newCapacity / 2 <= 2 * newCount + 1)
      decreases 2 * newCount + 2 - newCapacity
    {
      newCapacity := 2 * newCapacity;
    }
  }

  /** The chain of tables; `view` is what they hold and the live threads they stand for. */
  class Tables {
    const hash: Id -> nat                 // hash_thread_id
    var main: array<Entry>
    var older: seq<array<Entry>>          // newest first
    var count: nat                        // implicitProducerHashCount
    ghost var view: View
    ghost var repr: set<array<Entry>>

    ghost predicate Linked()
      reads this, repr
    {
      && main in repr && (forall k :: 0 <= k < |older| ==> older[k] in repr) && main !in older
      && (forall j, k :: 0 <= j < k < |older| ==> older[j] != older[k])
      && main[..] == view.main && count == view.count
      && |older| == |view.older| && (forall k :: 0 <= k < |older| ==> older[k][..] == view.older[k])
    }

    ghost predicate Valid()
      reads this, repr
    {
      Linked() && view.Good(hash)
    }

    constructor (hash: Id -> nat, initialCapacity: nat)
      requires initialCapacity > 0
      ensures Valid() && view.live == map[] && fresh(repr)
    {
      this.hash := hash;
      main := new Entry[initialCapacity](_ => Entry(Empty, 0));
      older, count := [], 0;
      new;
      view, repr := View(main[..], [], map[], {}, 0), {main};
      TallyEmpty(Used, view.main);
      TallyEmpty(Taken, view.main);
      assert view.main[0].key == Empty;
    }

    /** Looks the id up in all tables, newest first; `level` is the first one it is in. */
    method Search(id: Id) returns (r: Option<Address>, level: nat)
      requires Valid()
      ensures r == (if id in view.live then Some(view.live[id]) else None)
      ensures r.Some? ==> (level > 0 <==> !In(view.main, id))
    {
      r := Find(main, hash, id, view.live);
      level := 0;
      while r.None? && level < |older|
        invariant level <= |older| && if level > 0 then !In(view.main, id) else r.Some? <==> In(view.main, id)
        invariant r.Some? ==> id in view.live && r == Some(view.live[id])
        invariant r.None? ==> !In(view.main, id) && forall k :: 0 <= k < level ==> !In(view.older[k], id)
      {
        r := Find(older[level], hash, id, view.live);
        level := level + 1;
      }
      if id in view.live { assert view.Somewhere(id); }
    }

    /** Claims a slot of the newest table; the others are not touched. */
    method ClaimMain(id: Id, value: Address) returns (reused: bool, ghost i: nat)
      requires Linked() && HasEmpty(view.main)
      modifies this`view, main
      ensures Linked() && i < |old(view).main| && view == old(view).(main := old(view).main[i := Entry(Of(id), value)])
      ensures old(view).main[i].key == (if reused then Reusable else Empty)
      ensures Path(old(view).main, hash(id), Distance(hash(id), i, |old(view).main|))
    {
      reused, i := Claim(main, hash, id, value);
      view := view.(main := view.main[i := Entry(Of(id), value)]);
    }

    /** Copies a live thread into the newest table. */
    method Copy(id: Id, value: Address) returns (ghost i: nat)
      requires Linked() && HasEmpty(view.main) && id in view.live && value == view.live[id]
      modifies this`view, main
      ensures Linked() && i < |old(view).main| && view == old(view).Copied(i, id)
      ensures !old(view).main[i].key.Of? && Path(old(view).main, hash(id), Distance(hash(id), i, |old(view).main|))
    {
      var reused;
      reused, i := ClaimMain(id, value);
      view := view.(migrated := view.migrated + {id});
    }

    /** A live thread's producer, found in whichever table holds it and copied into the newest one. */
    method Get(id: Id) returns (r: Option<Address>)
      requires Valid()
      modifies this`view, main
      ensures Valid() && view.live == old(view).live && r == if id in view.live then Some(view.live[id]) else None
      ensures r.Some? ==> In(view.main, id)
    {
      var level;
      r, level := Search(id);
      if r.Some? && level > 0 {
        ghost var v := view;
        var i := Copy(id, r.value);
        v.CopiedGood(hash, i, id);
      }
    }

    /** Puts an empty table in front. */
    method Replace(newCapacity: nat)
      requires Linked()
      modifies this`main, this`older, this`view, this`repr
      ensures Linked() && view == old(view).Grown(EmptyTable(newCapacity)) && main.Length == newCapacity
      ensures repr <= old(repr) + {main} && (main in old(repr) || fresh(main))
    {
      var table := new Entry[newCapacity](_ => Entry(Empty, 0));
      assert table[..] == EmptyTable(newCapacity);
      older := [main] + older;
      main := table;
      view, repr := view.Grown(EmptyTable(newCapacity)), repr + {table};
    }

    /** A bigger newest table once half of the old one would be counted. */
    method GrowIfFull(newCount: nat, memory: bool) returns (ok: bool)
      requires Valid() && newCount == count + 1
      modifies this`main, this`older, this`view, this`repr
      ensures Valid() && view.live == old(view).live
      ensures repr <= old(repr) + {main} && (main in old(repr) || fresh(main))
      ensures if ok then newCount < main.Length / 2 else !memory
      ensures ok <==> newCount < old(main.Length) / 2 || memory
      ensures newCount < old(main.Length) / 2 || !memory ==> unchanged(this)
    {
      if newCount < main.Length / 2 { return true; }
      var newCapacity := NewCapacity(newCount, main.Length);
      if !memory { return false; }
      view.GrownGood(hash, EmptyTable(newCapacity));
      Replace(newCapacity);
      ok := true;
    }

    /** Claims a slot for a new thread; one left by another thread is already counted. */
    method ClaimNew(id: Id, producer: Address, newCount: nat) returns (ghost i: nat)
      requires Linked() && HasEmpty(view.main)
      modifies this`count, this`view, main
      ensures Linked() && i < |old(view).main|
      ensures view == old(view).Claimed(i, id, producer,
                                        if old(view).main[i].key == Reusable then old(view).count else newCount)
      ensures !old(view).main[i].key.Of? && Path(old(view).main, hash(id), Distance(hash(id), i, |old(view).main|))
    {
      ghost var v := view;
      var reused;
      reused, i := ClaimMain(id, producer);
      count := if reused then count else newCount;
      view := v.Claimed(i, id, producer, count);
    }

    method Insert(id: Id, producer: Address, newCount: nat)
      requires Valid() && id !in view.live && newCount == count + 1 < main.Length / 2
      modifies this`count, this`view, main
      ensures Valid() && view.live == old(view).live[id := producer]
    {
      ghost var v := view;
      InIsLive(v.main, hash, v.live, id);
      var i := ClaimNew(id, producer, newCount);
      v.ClaimedGood(hash, i, id, producer, if v.main[i].key == Reusable then v.count else newCount);
    }

    /** Leaves the thread's slots in the older tables. */
    method LeaveOlder(id: Id) returns (ghost tables: seq<seq<Entry>>)
      requires (forall j, k :: 0 <= j < k < |older| ==> older[j] != older[k]) && |older| == |view.older|
      requires forall k :: 0 <= k < |older| ==>
        older[k][..] == view.older[k] && TableInv(view.older[k], hash, view.live)
      modifies older
      ensures |tables| == |older|
      ensures forall k :: 0 <= k < |older| ==>
        older[k][..] == tables[k] && TableInv(tables[k], hash, view.live - {id}) && Left(tables[k], view.older[k], id)
    {
      tables := [];
      for n := 0 to |older|
        invariant |tables| == n
        invariant forall k :: 0 <= k < n ==>
          older[k][..] == tables[k] && TableInv(tables[k], hash, view.live - {id}) && Left(tables[k], view.older[k], id)
        invariant forall k :: n <= k < |older| ==> older[k][..] == view.older[k]
      {
        Remove(older[n], hash, id, view.live);
        tables := tables + [older[n][..]];
      }
    }

    /** Leaves the thread's slots in all tables. */
    method LeaveAll(id: Id)
      requires Linked() && TableInv(view.main, hash, view.live) && view.Older(hash)
      modifies this`view, repr
      ensures Linked() && old(view).Leaves(view, hash, id)
    {
      ghost var v := view;
      Remove(main, hash, id, v.live);
      ghost var table := main[..];
      var tables := LeaveOlder(id);
      view := View(table, tables, v.live - {id}, v.migrated - {id}, v.count);
    }

    method Leave(id: Id)
      requires Valid()
      modifies this`view, repr
      ensures Valid() && view.live == old(view).live - {id}
    {
      ghost var v := view;
      LeaveAll(id);
      v.LeftGood(hash, id, view);
    }
  }

  class Hash {
    const tables: Tables
    const registry: Registry

    ghost predicate Valid()
      reads tables, tables.repr, registry
    {
      tables.Valid() && registry.Valid() && Separate(tables.view.live, registry.active)
    }

    constructor (tables: Tables, registry: Registry)
      requires tables.Valid() && tables.view.live == map[] && registry.Valid()
      ensures Valid() && this.tables == tables && this.registry == registry
    {
      this.tables, this.registry := tables, registry;
    }

    /** A new thread can be added: half of the newest table is not counted yet or memory can be had for a bigger one,
        and a producer can be had. */
    ghost predicate Room(tableMemory: bool, producerMemory: bool)
      reads tables, registry
    {
      && (tables.count + 1 < tables.main.Length / 2 || tableMemory)
      && (producerMemory || registry.Available(false))
    }

    /** A producer for a new thread, and a slot in the newest table. */
    method Register(id: Id, newCount: nat, memory: bool) returns (r: Option<Address>)
      requires tables.Valid() && registry.Valid() && id !in tables.view.live
      requires newCount == tables.count + 1 < tables.main.Length / 2
      modifies tables`count, tables`view, tables.main, registry
      ensures tables.Valid() && registry.Valid()
      ensures Entered(tables.view.live, registry.active, old(tables.view).live, old(registry.active), id, r)
      ensures r.Some? <==> memory || old(registry.Available(false))
    {
      r := registry.RecycleOrCreate(false, memory);
      if r.Some? { tables.Insert(id, r.value, newCount); }
    }

    /** A new thread gets a producer nobody holds, or nothing for want of memory. */
    method Add(id: Id, tableMemory: bool, producerMemory: bool) returns (r: Option<Address>)
      requires tables.Valid() && registry.Valid() && id !in tables.view.live
      modifies tables, tables.repr, registry
      ensures tables.Valid() && registry.Valid()
      ensures tables.repr <= old(tables.repr) + {tables.main} && (tables.main in old(tables.repr) || fresh(tables.main))
      ensures Entered(tables.view.live, registry.active, old(tables.view).live, old(registry.active), id, r)
      ensures r.Some? <==> old(Room(tableMemory, producerMemory))
    {
      var newCount := 1 + tables.count;
      ghost var room := Room(tableMemory, producerMemory);
      var ok := tables.GrowIfFull(newCount, tableMemory);
      if !ok { return None; }
      assert room <==> producerMemory || registry.Available(false);
      r := Register(id, newCount, producerMemory);
    }

    /** A live thread gets its producer; a new one gets a producer nobody holds, or nothing for want of memory. */
    method GetOrAdd(id: Id, tableMemory: bool, producerMemory: bool) returns (r: Option<Address>)
      requires Valid()
      modifies tables, tables.repr, registry
      ensures Valid()
      ensures tables.repr <= old(tables.repr) + {tables.main} && (tables.main in old(tables.repr) || fresh(tables.main))
      ensures Answers(old(tables.view).live, Use(id, tableMemory, producerMemory), r)
      ensures tables.view.live == Updated(old(tables.view).live, Use(id, tableMemory, producerMemory), r)
      ensures r.Some? <==> id in old(tables.view).live || old(Room(tableMemory, producerMemory))
    {
      ghost var live, active, repr := tables.view.live, registry.active, tables.repr;
      r := tables.Get(id);
      if r.None? {
        assert tables.repr == repr;
        r := Add(id, tableMemory, producerMemory);
        SeparateAfter(tables.view.live, registry.active, live, active, id, r);
      } else {
        SelfUpdate(live, id);
      }
    }

    /** Marks a producer as recyclable. */
    method Retire(producer: Address)
      requires tables.Valid() && registry.Valid()
      modifies registry
      ensures tables.Valid() && registry.Valid() && registry.active == old(registry.active) - {producer}
    {
      registry.Deactivate(producer);
    }

    /** The thread is forgotten and its producer can be recycled. */
    method ThreadExited(id: Id, producer: Address)
      requires Valid() && id in tables.view.live && producer == tables.view.live[id]
      modifies tables`view, tables.repr, registry
      ensures Valid() && tables.view.live == old(tables.view).live - {id}
      ensures registry.active == old(registry.active) - {producer}
    {
      SeparateLess(tables.view.live, registry.active, id);
      tables.Leave(id);
      Retire(producer);
    }
  }

  /** A new thread has been given a producer nobody held, or nothing has changed. */
  ghost predicate Entered(live': map<Id, Address>, active': set<Address>, live: map<Id, Address>, active: set<Address>,
                          id: Id, r: Option<Address>) {
    if r.Some? then live' == live[id := r.value] && r.value !in active && active' == active + {r.value}
    else live' == live && active' == active
  }

  /** Every live thread has a producer of its own, which is in use. */
  ghost predicate Separate(live: map<Id, Address>, active: set<Address>) {
    && (forall id :: id in live ==> live[id] in active)
    && (forall x, y :: x in live && y in live && x != y ==> live[x] != live[y])
  }

  lemma SeparateAfter(live': map<Id, Address>, active': set<Address>, live: map<Id, Address>, active: set<Address>,
                      id: Id, r: Option<Address>)
    requires Separate(live, active) && Entered(live', active', live, active, id, r)
    ensures Separate(live', active') && (r.Some? ==> forall x :: x in live ==> live[x] != r.value)
  {}

  lemma SeparateLess(live: map<Id, Address>, active: set<Address>, id: Id)
    requires Separate(live, active) && id in live
    ensures Separate(live - {id}, active - {live[id]})
  {}

  // ---------------------------------------------------------------------------------------- runs

  /** A thread enqueues without a token; a thread exits. */
  datatype Op = Use(id: Id, tableMemory: bool, producerMemory: bool) | Exit(id: Id)

  /** The live threads and their producers, by what they were given. */
  ghost function LiveAfter(ops: seq<Op>, results: seq<Option<Address>>): map<Id, Address>
    requires |ops| == |results|
  {
    if ops == [] then map[] else
      var n := |ops| - 1;
      Updated(LiveAfter(ops[..n], results[..n]), ops[n], results[n])
  }

  function Updated(live: map<Id, Address>, op: Op, r: Option<Address>): map<Id, Address> {
    match op
    case Use(id, _, _) => if r.Some? then live[id := r.value] else live
    case Exit(id) => live - {id}
  }

  /** A live thread gets the producer it has; a new one gets one no live thread has, or nothing for want of memory. */
  ghost predicate Answers(live: map<Id, Address>, op: Op, r: Option<Address>) {
    match op
    case Use(id, tableMemory, producerMemory) =>
      if id in live then r == Some(live[id])
      else if r.Some? then forall x :: x in live ==> live[x] != r.value
      else !(tableMemory && producerMemory)
    case Exit(_) => r.None?
  }

  ghost predicate IsMapRun(ops: seq<Op>, results: seq<Option<Address>>)
    requires |ops| == |results|
  {
    ops == [] || (var n := |ops| - 1; IsMapRun(ops[..n], results[..n]) && Answers(LiveAfter(ops[..n], results[..n]),
                                                                                  ops[n], results[n]))
  }

  method Perform(h: Hash, op: Op, listeners: map<Id, Address>) returns (r: Option<Address>)
    requires h.Valid() && h.tables.view.live == listeners
    modifies h.tables, h.tables.repr, h.registry
    ensures h.Valid() && Answers(listeners, op, r) && h.tables.view.live == Updated(listeners, op, r)
    ensures fresh(h.tables.repr - old(h.tables.repr))
  {
    match op {
      case Use(id, tableMemory, producerMemory) =>
        r := h.GetOrAdd(id, tableMemory, producerMemory);
      case Exit(id) =>
        if id in listeners { h.ThreadExited(id, listeners[id]); } else { NotThere(listeners, id); }
        r := None;
    }
    NewTables(h.tables);
  }

  lemma NotThere(live: map<Id, Address>, id: Id)
    requires id !in live
    ensures live - {id} == live
  {}

  twostate lemma NewTables(t: Tables)
    requires t.repr <= old(t.repr) + {t.main} && (t.main in old(t.repr) || fresh(t.main))
    ensures fresh(t.repr - old(t.repr))
  {}

  lemma MapRunStep(ops: seq<Op>, results: seq<Option<Address>>, n: nat, live: map<Id, Address>, r: Option<Address>)
    requires |results| == n < |ops| && Follows(ops[..n], results, live) && Answers(live, ops[n], r)
    ensures Follows(ops[..n + 1], results + [r], Updated(live, ops[n], r))
  {
    assert ops[..n + 1][..n] == ops[..n] && (results + [r])[..n] == results;
  }

  method Create(hash: Id -> nat, initialCapacity: nat, preallocated: nat) returns (h: Hash)
    requires initialCapacity > 0
    ensures h.Valid() && h.tables.view.live == map[] && fresh(h.tables) && fresh(h.tables.repr) && fresh(h.registry)
  {
    var tables := new Tables(hash, initialCapacity);
    var registry := new Registry(preallocated);
    h := new Hash(tables, registry);
  }

  /** The log of a run, and the live threads it leaves. */
  ghost predicate Follows(ops: seq<Op>, results: seq<Option<Address>>, live: map<Id, Address>) {
    |ops| == |results| && IsMapRun(ops, results) && live == LiveAfter(ops, results)
  }

  /** The rest of a run after `results`. */
  method RunFrom(h: Hash, ops: seq<Op>, results: seq<Option<Address>>, listeners: map<Id, Address>)
    returns (all: seq<Option<Address>>)
    requires h.Valid() && h.tables.view.live == listeners && |results| <= |ops|
    requires Follows(ops[..|results|], results, listeners)
    modifies h.tables, h.tables.repr, h.registry
    ensures |all| == |ops| && IsMapRun(ops, all)
    decreases |ops| - |results|
  {
    var n := |results|;
    if n == |ops| {
      assert ops[..n] == ops;
      return results;
    }
    var r := Perform(h, ops[n], listeners);
    MapRunStep(ops, results, n, listeners, r);
    all := RunFrom(h, ops, results + [r], Updated(listeners, ops[n], r));
  }

  /** Every run of the hash is a run of a map from live threads to producers of their own. */
  method Replay(ops: seq<Op>, hash: Id -> nat, initialCapacity: nat, preallocated: nat)
    returns (results: seq<Option<Address>>)
    requires initialCapacity > 0
    ensures |results| == |ops| && IsMapRun(ops, results)
  {
    var h := Create(hash, initialCapacity, preallocated);
    results := RunFrom(h, ops, [], map[]);
  }
}
