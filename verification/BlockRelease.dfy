/**
 The release of an implicit producer's blocks, as a step system: one producer fills blocks taken from the
 pool; any number of consumers have claimed disjoint runs of indices (DequeueProtocol), read their elements
 block by block, and add what they read from a block to its counter. The consumer that makes the counter
 full takes the block out of the index and gives it back to the pool. Every access is one step. The producer
 may begin any number of blocks and construct any number of elements before it publishes them together, as a
 bulk enqueue does.

 `home` is the chain of blocks the producer has begun, by block number, and the length of `owner` is the head
 index. Otherwise `stage`, `owner`, `got`, `counted` and `releases` are history: the fate of each block number,
 who claimed each index, what was read, what was counted, and the block numbers seen full.
 */
module BlockRelease {
  import opened Wrappers
  import Arithmetic
  import IndexArithmetic

  type Tid = nat

  type Address = nat

  datatype Pc =
    | Idle
    | At(i: nat, hi: nat)                                           // look the block of `i` up
    | Reading(start: nat, i: nat, end: nat, hi: nat, block: Address) // read up to `end`, then count
    | Unlinking(o: nat, block: Address, i: nat, hi: nat)            // clear the index entry
    | GivingBack(o: nat, block: Address, i: nat, hi: nat)           // return the block to the pool
    | Lost                                                          // would have used a null block or a dead element

  /** The block the producer is about to begin: taken from the pool, then its counter reset. */
  datatype Taking = Nothing | Taken(a: Address) | Cleared(a: Address)

  datatype Stage = Filling | Emptied(who: Tid) | Gone

  datatype State<T> = State(
    size: nat,
    items: seq<T>,                        // published elements; the tail index is their number
    staged: seq<T>,                       // constructed but not yet published
    taking: Taking,
    index: seq<Option<Address>>,          // the entry of each block number
    cells: map<Address, seq<Option<T>>>,
    counter: map<Address, nat>,
    free: set<Address>,
    pc: map<Tid, Pc>,
    home: seq<Address>,
    stage: seq<Stage>,
    owner: seq<Tid>,                      // the head index is their number
    got: map<nat, T>,
    counted: set<nat>,
    releases: seq<nat>)

  // ------------------------------------------------------------------------------------ counting

  function Range(a: nat, b: nat): (s: set<nat>)
    ensures forall x: nat :: x in s <==> a <= x < b
  {
    if a < b then Range(a, b - 1) + {b - 1} else {}
  }

  /** How many of the `n` indices from `lo` on are in the set. */
  ghost function CountIn(s: set<nat>, lo: nat, n: nat): (c: nat)
    ensures c <= n
  {
    if n == 0 then 0 else CountIn(s, lo, n - 1) + if lo + n - 1 in s then 1 else 0
  }

  lemma {:induction false} CountFull(s: set<nat>, lo: nat, n: nat, i: nat)
    requires CountIn(s, lo, n) == n && lo <= i < lo + n
    ensures i in s
  {
    if i < lo + n - 1 { CountFull(s, lo, n - 1, i); }
  }

  lemma {:induction false} CountMore(s: set<nat>, lo: nat, n: nat, a: nat, b: nat)
    requires a <= b && forall i :: a <= i < b ==> i !in s
    ensures CountIn(s + Range(a, b), lo, n) == CountIn(s, lo, n) + Overlap(lo, n, a, b)
  {
    if n > 0 { CountMore(s, lo, n - 1, a, b); }
  }

  /** How many of the `n` indices from `lo` on are from `a` to `b`. */
  function Overlap(lo: nat, n: nat, a: nat, b: nat): nat {
    Arithmetic.Max(0, Arithmetic.Min(lo + n, b) - Arithmetic.Max(lo, a))
  }

  // --------------------------------------------------------------------------------------- steps

  predicate Init<T>(s: State<T>) {
    && s.size > 0 && s.items == [] && s.staged == [] && s.taking == Nothing && s.index == [] && s.home == []
    && s.stage == []
    && s.owner == [] && s.got == map[] && s.counted == {} && s.releases == []
    && s.free == s.cells.Keys == s.counter.Keys
    && (forall a :: a in s.cells ==> |s.cells[a]| == s.size)
    && (forall t :: t in s.pc ==> s.pc[t] == Idle)
  }

  predicate WellFormed<T>(s: State<T>) {
    && s.size > 0 && |s.index| == |s.home| == |s.stage| && s.cells.Keys == s.counter.Keys
    && (forall a :: a in s.cells ==> |s.cells[a]| == s.size)
    && (forall o :: 0 <= o < |s.home| ==> s.home[o] in s.cells)
    && (forall o :: 0 <= o < |s.index| && s.index[o].Some? ==> s.index[o].value in s.cells)
    && (forall t :: t in s.pc ==> PcFits(s, s.pc[t]))
  }

  predicate PcFits<T>(s: State<T>, pc: Pc)
    requires s.size > 0
  {
    match pc
    case At(i, hi) => i < hi && i / s.size < |s.home|
    case Reading(start, i, end, hi, block) => start <= i <= end <= hi && block in s.cells && start / s.size < |s.home|
    case Unlinking(o, block, i, hi) => o < |s.home| && i <= hi
    case GivingBack(o, block, i, hi) => o < |s.home| && i <= hi
    case _ => true
  }

  function Goto<T>(s: State<T>, t: Tid, pc: Pc): State<T> { s.(pc := s.pc[t := pc]) }

  function After(i: nat, hi: nat): Pc { if i == hi then Idle else At(i, hi) }

  function EndOfBlock(i: nat, size: nat): nat
    requires size > 0
  {
    i - i % size + size
  }

  /** The number of the block of index `i`. */
  function BlockOf(i: nat, size: nat): (o: nat)
    requires size > 0
    ensures o == i / size
  {
    i / size
  }

  /** The block of index `i`, found through the index. */
  function LookUp<T>(s: State<T>, i: nat, hi: nat): Pc
    requires s.size > 0 && i < hi && i / s.size < |s.index|
  {
    if s.index[i / s.size].None? then Lost
    else
      var end := EndOfBlock(i, s.size);
      Reading(i, i, if hi < end then hi else end, hi, s.index[i / s.size].value)
  }

  /** Moves the element of index `i` out of its block. */
  function Read<T>(s: State<T>, t: Tid, i: nat, b: Address, next: Pc): State<T>
    requires s.size > 0 && b in s.cells && |s.cells[b]| == s.size
  {
    if s.cells[b][i % s.size].None? then Goto(s, t, Lost)
    else Goto(s.(got := s.got[i := s.cells[b][i % s.size].value],
                 cells := s.cells[b := s.cells[b][i % s.size := None]]), t, next)
  }

  /** Counts the elements from `start` to `end` as dequeued; whoever sees the counter become full releases the block. */
  function Count<T>(s: State<T>, t: Tid, start: nat, end: nat, hi: nat, b: Address): State<T>
    requires s.size > 0 && b in s.counter && start <= end && start / s.size < |s.stage|
  {
    var n, o := s.counter[b] + (end - start), BlockOf(start, s.size);
    var s1 := s.(counter := s.counter[b := n], counted := s.counted + Range(start, end));
    if n == s.size then Goto(s1.(stage := s.stage[o := Emptied(t)], releases := s.releases + [o]), t,
                             Unlinking(o, b, end, hi))
    else Goto(s1, t, After(end, hi))
  }

  function Step<T>(s: State<T>, t: Tid): State<T>
    requires WellFormed(s) && t in s.pc
  {
    assert PcFits(s, s.pc[t]);
    match s.pc[t]
    case At(i, hi) => Goto(s, t, LookUp(s, i, hi))
    case Reading(start, i, end, hi, b) =>
      if i < end then Read(s, t, i, b, Reading(start, i + 1, end, hi, b)) else Count(s, t, start, end, hi, b)
    case Unlinking(o, b, i, hi) => Goto(s.(index := s.index[o := None]), t, GivingBack(o, b, i, hi))
    case GivingBack(o, b, i, hi) => Goto(s.(free := s.free + {b}, stage := s.stage[o := Gone]), t, After(i, hi))
    case _ => s
  }

  /** The elements constructed so far, published or not. */
  function All<T>(s: State<T>): seq<T> { s.items + s.staged }

  /** The producer takes a block, resets its counter and links it in; it constructs an element; it publishes what it
      has constructed; a consumer claims `n` indices; a consumer moves. */
  datatype Event<T> = Take(a: Address) | Clear | Link | Construct(x: T) | Publish | Claim(t: Tid, n: nat) | Run(t: Tid)

  predicate Enabled<T>(s: State<T>, e: Event<T>) {
    match e
    case Take(a) => s.taking.Nothing? && (a in s.free || a !in s.cells)
    case Clear => s.taking.Taken? && s.taking.a in s.cells
    case Link => s.taking.Cleared? && s.taking.a in s.cells
    case Construct(_) => |All(s)| < |s.home| * s.size
    case Publish => s.staged != []
    case Claim(t, n) => t in s.pc && s.pc[t] == Idle && 0 < n <= |s.items| - |s.owner|
    case Run(t) => t in s.pc
  }

  lemma LastBlock<T>(s: State<T>)
    requires s.size > 0 && |All(s)| < |s.home| * s.size
    ensures |All(s)| / s.size < |s.home|
  {
    IndexArithmetic.AtOrBefore(|s.home|, |All(s)|, s.size);
  }

  function Apply<T>(s: State<T>, e: Event<T>): State<T>
    requires WellFormed(s) && Enabled(s, e)
  {
    match e
    case Take(a) =>
      var s1 := s.(free := s.free - {a}, taking := Taken(a));
      if a in s.cells then s1 else s1.(counter := s.counter[a := 0], cells := s.cells[a := seq(s.size, _ => None)])
    case Clear => s.(counter := s.counter[s.taking.a := 0], taking := Cleared(s.taking.a))
    case Link => s.(index := s.index + [Some(s.taking.a)], home := s.home + [s.taking.a], stage := s.stage + [Filling],
                    taking := Nothing)
    case Construct(x) =>
      LastBlock(s);
      var n := |All(s)|;
      var b := s.home[n / s.size];
      s.(staged := s.staged + [x], cells := s.cells[b := s.cells[b][n % s.size := Some(x)]])
    case Publish => s.(items := All(s), staged := [])
    case Claim(t, n) => Goto(s.(owner := s.owner + seq(n, _ => t)), t, At(|s.owner|, |s.owner| + n))
    case Run(t) => Step(s, t)
  }

  ghost predicate Next<T(!new)>(s: State<T>, s': State<T>) {
    WellFormed(s) && exists e: Event<T> :: Enabled(s, e) && s' == Apply(s, e)
  }

  ghost predicate StepAt<T(!new)>(run: seq<State<T>>, i: nat) { i + 1 < |run| && Next(run[i], run[i + 1]) }

  ghost predicate IsRun<T(!new)>(run: seq<State<T>>) {
    && |run| > 0
    && Init(run[0])
    && forall i: nat :: i + 1 < |run| ==> StepAt(run, i)
  }

  // --------------------------------------------------------------------------------- invariant

  /** Indices `lo` to `hi` were claimed by `t` and not counted yet; those before `mid` have been read. */
  ghost predicate Own<T>(s: State<T>, t: Tid, lo: nat, mid: nat, hi: nat) {
    && lo <= mid <= hi <= |s.owner|
    && forall i: nat :: lo <= i < hi ==> s.owner[i] == t && i !in s.counted && (i in s.got <==> i < mid)
  }

  ghost predicate ThreadInv<T>(s: State<T>, t: Tid, pc: Pc)
    requires s.size > 0
  {
    match pc
    case Idle => true
    case At(i, hi) => i < hi && Own(s, t, i, i, hi)
    case Reading(start, i, end, hi, b) =>
      && start < end <= hi && i <= end <= EndOfBlock(start, s.size) && Own(s, t, start, i, hi)
      && start / s.size < |s.home| && b == s.home[start / s.size]
    case Unlinking(o, b, i, hi) =>
      Own(s, t, i, i, hi) && o < |s.stage| && s.stage[o] == Emptied(t) && o < |s.home| && b == s.home[o]
    case GivingBack(o, b, i, hi) =>
      Own(s, t, i, i, hi) && o < |s.stage| && s.stage[o] == Emptied(t) && o < |s.home| && b == s.home[o]
    case Lost => false
  }

  function Lo(pc: Pc): nat {
    match pc
    case At(i, _) => i
    case Reading(start, _, _, _, _) => start
    case Unlinking(_, _, i, _) => i
    case GivingBack(_, _, i, _) => i
    case _ => 0
  }

  function Hi(pc: Pc): nat {
    match pc
    case At(_, hi) => hi
    case Reading(_, _, _, hi, _) => hi
    case Unlinking(_, _, _, hi) => hi
    case GivingBack(_, _, _, hi) => hi
    case _ => 0
  }

  /** A claimed index has been counted, or its owner still has to. */
  ghost predicate IndexInv<T>(s: State<T>, i: nat)
    requires i < |s.owner|
  {
    var t := s.owner[i];
    t in s.pc && (if i in s.counted then i in s.got else Lo(s.pc[t]) <= i < Hi(s.pc[t]))
  }

  ghost predicate ReadInv<T>(s: State<T>) {
    && |s.owner| <= |s.items|
    && (forall i :: i in s.got ==> i < |s.owner| && s.got[i] == s.items[i])
    && (forall i :: i in s.counted ==> i < |s.owner|)
  }

  ghost function Counted<T>(s: State<T>, o: nat): nat { CountIn(s.counted, o * s.size, s.size) }

  /** The counter of a block in use is exact, and the block is released by the one consumer that saw it full. */
  ghost predicate BlockInv<T>(s: State<T>, o: nat)
    requires o < |s.home| == |s.stage| == |s.index| && s.home[o] in s.counter
  {
    match s.stage[o]
    case Filling =>
      s.index[o] == Some(s.home[o]) && s.counter[s.home[o]] == Counted(s, o) < s.size && s.home[o] !in s.free
    case Emptied(t) =>
      && Counted(s, o) == s.size && s.home[o] !in s.free && t in s.pc
      && (|| (s.pc[t].Unlinking? && s.pc[t].o == o && s.index[o] == Some(s.home[o]))
          || (s.pc[t].GivingBack? && s.pc[t].o == o && s.index[o].None?))
    case Gone => Counted(s, o) == s.size && s.index[o].None?
  }

  /** A block number shares its block only with later ones, once it is gone. */
  ghost predicate PairInv<T>(s: State<T>, o: nat, p: nat)
    requires o < p < |s.home| == |s.stage|
  {
    s.home[o] == s.home[p] ==> s.stage[o].Gone?
  }

  /** An element not read yet is where it was constructed. */
  ghost predicate CellInv<T>(s: State<T>, i: nat, x: T)
    requires WellFormed(s)
  {
    i / s.size < |s.home| && (i !in s.got ==> s.cells[s.home[i / s.size]][i % s.size] == Some(x))
  }

  /** The block being begun belongs to no block number that is not gone. */
  ghost predicate TakingInv<T>(s: State<T>)
    requires |s.home| == |s.stage| && s.cells.Keys == s.counter.Keys
  {
    s.taking.Nothing? ||
    var a := s.taking.a;
    && a in s.cells && a !in s.free && (s.taking.Cleared? ==> s.counter[a] == 0)
    && forall o :: 0 <= o < |s.home| && s.home[o] == a ==> s.stage[o].Gone?
  }

  ghost predicate LogInv<T>(s: State<T>) {
    && |s.stage| == |s.home|
    && (forall j, k :: 0 <= j < k < |s.releases| ==> s.releases[j] != s.releases[k])
    && (forall k :: 0 <= k < |s.releases| ==> s.releases[k] < |s.stage| && !s.stage[s.releases[k]].Filling?)
    && (forall o :: 0 <= o < |s.stage| && !s.stage[o].Filling? ==> o in s.releases)
  }

  ghost predicate Threads<T>(s: State<T>)
    requires s.size > 0
  {
    forall t :: t in s.pc ==> ThreadInv(s, t, s.pc[t])
  }

  ghost predicate Indices<T>(s: State<T>) { forall i :: 0 <= i < |s.owner| ==> IndexInv(s, i) }

  ghost predicate Blocks<T>(s: State<T>)
    requires WellFormed(s)
  {
    forall o :: 0 <= o < |s.home| ==> BlockInv(s, o)
  }

  ghost predicate Pairs<T>(s: State<T>)
    requires |s.home| == |s.stage|
  {
    forall o, p :: 0 <= o < p < |s.home| ==> PairInv(s, o, p)
  }

  ghost predicate Cells<T>(s: State<T>)
    requires WellFormed(s)
  {
    |All(s)| <= |s.home| * s.size && forall i :: 0 <= i < |All(s)| ==> CellInv(s, i, All(s)[i])
  }

  ghost predicate Inv<T>(s: State<T>) {
    && WellFormed(s) && Threads(s) && Indices(s) && ReadInv(s) && Blocks(s) && Pairs(s) && Cells(s) && LogInv(s)
    && TakingInv(s) && s.free <= s.cells.Keys
  }

  // --------------------------------------------------------------------- facts in one state

  /** A block with an index not counted is in use. */
  lemma InUse<T>(s: State<T>, i: nat)
    requires WellFormed(s) && i / s.size < |s.home| && BlockInv(s, i / s.size) && i !in s.counted
    ensures s.stage[i / s.size].Filling?
  {
    var o := i / s.size;
    if !s.stage[o].Filling? {
      assert i == o * s.size + i % s.size;
      CountFull(s.counted, o * s.size, s.size, i);
    }
  }

  /** Different indices kept in the same place: the earlier block is gone. */
  lemma SamePlace<T>(s: State<T>, i: nat, j: nat)
    requires WellFormed(s) && Pairs(s) && i != j && i / s.size < |s.home| && j / s.size < |s.home|
    requires s.home[i / s.size] == s.home[j / s.size] && i % s.size == j % s.size
    ensures s.stage[i / s.size].Gone? || s.stage[j / s.size].Gone?
  {
    var o, p := BlockOf(i, s.size), BlockOf(j, s.size);
    SameIndex(i, j, s.size);
    if o < p { assert PairInv(s, o, p); } else { assert PairInv(s, p, o); }
  }

  lemma SameIndex(i: nat, j: nat, size: nat)
    requires size > 0 && i != j && i % size == j % size
    ensures i / size != j / size
  {
    assert i == i / size * size + i % size && j == j / size * size + j % size;
  }

  /** Elements that have not been counted are kept in different places. */
  lemma NoClash<T>(s: State<T>, i: nat, j: nat)
    requires WellFormed(s) && Blocks(s) && Pairs(s) && i != j && i / s.size < |s.home| && j / s.size < |s.home|
    requires i !in s.counted && j !in s.counted
    ensures s.home[i / s.size] != s.home[j / s.size] || i % s.size != j % s.size
  {
    assert BlockInv(s, i / s.size) && BlockInv(s, j / s.size);
    InUse(s, i);
    InUse(s, j);
    if s.home[i / s.size] == s.home[j / s.size] && i % s.size == j % s.size { SamePlace(s, i, j); }
  }

  lemma CountedWasRead<T>(s: State<T>, i: nat)
    requires ReadInv(s) && Indices(s)
    ensures i in s.counted ==> i in s.got
  {
    if i in s.counted { assert IndexInv(s, i); }
  }

  lemma InitInv<T>(s: State<T>)
    requires Init(s)
    ensures Inv(s)
  {}

  // ------------------------------------------------------------------------------ preservation

  /** A thread's own facts survive what does not touch its indices. */
  lemma OtherThread<T>(s: State<T>, s': State<T>, u: Tid, pc: Pc)
    requires s.size > 0 && ThreadInv(s, u, pc) && s'.size == s.size && s.owner <= s'.owner && s.home <= s'.home
    requires forall i :: 0 <= i < |s.owner| && s.owner[i] == u ==>
      (i in s'.counted <==> i in s.counted) && (i in s'.got <==> i in s.got)
    requires forall o :: 0 <= o < |s.stage| && s.stage[o] == Emptied(u) ==> o < |s'.stage| && s'.stage[o] == Emptied(u)
    ensures ThreadInv(s', u, pc)
  {}

  /** The producer's steps leave the consumers' facts alone. */
  lemma ProducerFrame<T>(s: State<T>, s': State<T>)
    requires s.size > 0 && Threads(s) && Indices(s) && ReadInv(s) && s'.size == s.size && s'.pc == s.pc
    requires s'.owner == s.owner
    requires s'.got == s.got && s'.counted == s.counted && s.items <= s'.items && s.home <= s'.home
    requires s.stage <= s'.stage
    ensures Threads(s') && Indices(s') && ReadInv(s')
  {
    forall u | u in s'.pc ensures ThreadInv(s', u, s'.pc[u]) { OtherThread(s, s', u, s.pc[u]); }
    forall i | 0 <= i < |s'.owner| ensures IndexInv(s', i) { assert IndexInv(s, i); }
  }

  lemma BlockFrame<T>(s: State<T>, s': State<T>)
    requires WellFormed(s) && WellFormed(s') && Blocks(s) && Pairs(s) && s'.size == s.size && s'.home == s.home
    requires s'.stage == s.stage
    requires s'.index == s.index && s'.counter == s.counter && s'.free == s.free && s'.counted == s.counted
    requires forall t :: t in s.pc && (s.pc[t].Unlinking? || s.pc[t].GivingBack?) ==> t in s'.pc && s'.pc[t] == s.pc[t]
    ensures Blocks(s') && Pairs(s')
  {
    forall o | 0 <= o < |s'.home| ensures BlockInv(s', o) { assert BlockInv(s, o); }
    forall o, p | 0 <= o < p < |s'.home| ensures PairInv(s', o, p) { assert PairInv(s, o, p); }
  }

  lemma CellFrame<T>(s: State<T>, s': State<T>)
    requires WellFormed(s) && WellFormed(s') && Cells(s) && s'.size == s.size && s.home <= s'.home && s'.got == s.got
    requires All(s') == All(s) && forall a :: a in s.cells ==> a in s'.cells && s'.cells[a] == s.cells[a]
    ensures Cells(s')
  {
    Arithmetic.MulOrder(|s.home|, |s'.home|, s.size);
    forall i | 0 <= i < |All(s')| ensures CellInv(s', i, All(s')[i]) {
      assert CellInv(s, i, All(s)[i]);
      CellKept(s, s', i, All(s)[i]);
    }
  }

  /** Nothing happens to the block being begun. */
  lemma TakingFrame<T>(s: State<T>, s': State<T>)
    requires WellFormed(s) && WellFormed(s') && TakingInv(s) && s'.taking == s.taking && s'.home == s.home
    requires s.cells.Keys <= s'.cells.Keys
    requires forall o :: 0 <= o < |s.stage| && s.stage[o].Gone? ==> s'.stage[o].Gone?
    requires forall a :: a in s.counter && (forall o :: 0 <= o < |s.home| && s.home[o] == a ==> s.stage[o].Gone?) ==>
      s'.counter[a] == s.counter[a] && (a in s'.free ==> a in s.free)
    ensures TakingInv(s')
  {}

  lemma CellKept<T>(s: State<T>, s': State<T>, i: nat, x: T)
    requires WellFormed(s) && WellFormed(s') && CellInv(s, i, x) && s'.size == s.size && s.home <= s'.home
    requires s'.got == s.got
    requires forall a :: a in s.cells ==> a in s'.cells && s'.cells[a] == s.cells[a]
    ensures CellInv(s', i, x)
  {}

  lemma ClaimThreads<T>(s: State<T>, t: Tid, n: nat)
    requires WellFormed(s) && Threads(s) && Indices(s) && ReadInv(s) && Enabled(s, Claim(t, n))
    ensures var s' := Apply(s, Claim(t, n)); Threads(s') && Indices(s') && ReadInv(s')
  {
    var s' := Apply(s, Claim(t, n));
    var head := |s.owner|;
    assert Own(s', t, head, head, head + n);
    forall u | u in s'.pc ensures ThreadInv(s', u, s'.pc[u]) {
      if u != t { OtherThread(s, s', u, s.pc[u]); }
    }
    forall i | 0 <= i < |s'.owner| ensures IndexInv(s', i) { if i < head { assert IndexInv(s, i); } }
  }

  lemma ClaimKeepsInv<T>(s: State<T>, t: Tid, n: nat)
    requires Inv(s) && Enabled(s, Claim(t, n))
    ensures Inv(Apply(s, Claim(t, n)))
  {
    var s' := Apply(s, Claim(t, n));
    IndexArithmetic.AtOrBefore(|s.home|, |s.owner|, s.size);
    assert WellFormed(s');
    ClaimThreads(s, t, n);
    BlockFrame(s, s');
    CellFrame(s, s');
    TakingFrame(s, s');
  }

  lemma PublishKeepsInv<T>(s: State<T>)
    requires Inv(s) && Enabled(s, Publish)
    ensures Inv(Apply(s, Publish))
  {
    var s' := Apply(s, Publish);
    assert WellFormed(s');
    ProducerFrame(s, s');
    BlockFrame(s, s');
    CellFrame(s, s');
    TakingFrame(s, s');
  }

  lemma {:induction false} CountNone(s: set<nat>, lo: nat, n: nat)
    requires forall i :: i in s ==> i < lo
    ensures CountIn(s, lo, n) == 0
  {
    if n > 0 { CountNone(s, lo, n - 1); }
  }

  /** A block that is free or new belongs to no block number that is not gone. */
  lemma NotHeld<T>(s: State<T>, o: nat, a: Address)
    requires WellFormed(s) && o < |s.home| && BlockInv(s, o) && (a in s.free || a !in s.cells) && s.home[o] == a
    ensures s.stage[o].Gone?
  {}

  lemma TakeBlocks<T>(s: State<T>, a: Address)
    requires WellFormed(s) && Blocks(s) && Pairs(s) && Enabled(s, Take(a)) && WellFormed(Apply(s, Take(a)))
    ensures var s' := Apply(s, Take(a)); Blocks(s') && Pairs(s') && TakingInv(s')
  {
    var s' := Apply(s, Take(a));
    forall o | 0 <= o < |s'.home| ensures BlockInv(s', o) && (s'.home[o] == a ==> s'.stage[o].Gone?) {
      assert BlockInv(s, o);
      if s.home[o] == a { NotHeld(s, o, a); }
    }
    forall o, p | 0 <= o < p < |s'.home| ensures PairInv(s', o, p) { assert PairInv(s, o, p); }
  }

  lemma TakeKeepsInv<T>(s: State<T>, a: Address)
    requires Inv(s) && Enabled(s, Take(a))
    ensures Inv(Apply(s, Take(a)))
  {
    var s' := Apply(s, Take(a));
    assert WellFormed(s');
    ProducerFrame(s, s');
    TakeBlocks(s, a);
    CellFrame(s, s');
  }

  lemma ClearKeepsInv<T>(s: State<T>)
    requires Inv(s) && Enabled(s, Clear)
    ensures Inv(Apply(s, Clear))
  {
    var s' := Apply(s, Clear);
    assert s'.counter.Keys == s.counter.Keys;
    assert WellFormed(s');
    ProducerFrame(s, s');
    forall o | 0 <= o < |s'.home| ensures BlockInv(s', o) { assert BlockInv(s, o); }
    forall o, p | 0 <= o < p < |s'.home| ensures PairInv(s', o, p) { assert PairInv(s, o, p); }
    CellFrame(s, s');
  }

  lemma LinkBlocks<T>(s: State<T>)
    requires WellFormed(s) && ReadInv(s) && Blocks(s) && Pairs(s) && TakingInv(s) && Enabled(s, Link)
    requires WellFormed(Apply(s, Link))
    requires |s.items| <= |s.home| * s.size
    ensures Blocks(Apply(s, Link)) && Pairs(Apply(s, Link))
  {
    var s' := Apply(s, Link);
    CountNone(s.counted, |s.home| * s.size, s.size);
    forall o | 0 <= o < |s'.home| ensures BlockInv(s', o) { if o < |s.home| { assert BlockInv(s, o); } }
    forall o, p | 0 <= o < p < |s'.home| ensures PairInv(s', o, p) { if p < |s.home| { assert PairInv(s, o, p); } }
  }

  lemma LinkLog<T>(s: State<T>)
    requires WellFormed(s) && LogInv(s) && Enabled(s, Link)
    ensures LogInv(Apply(s, Link))
  {}

  lemma LinkKeepsInv<T>(s: State<T>)
    requires Inv(s) && Enabled(s, Link)
    ensures Inv(Apply(s, Link))
  {
    var s' := Apply(s, Link);
    assert WellFormed(s');
    ProducerFrame(s, s');
    LinkBlocks(s);
    LinkLog(s);
    CellFrame(s, s');
  }

  /** Constructing the next element overwrites none that has not been read. */
  lemma ConstructCell<T>(s: State<T>, x: T, i: nat, n: nat)
    requires WellFormed(s) && Enabled(s, Construct(x)) && i < |All(s)| == n && CellInv(s, i, All(s)[i])
    requires n / s.size < |s.home|
    requires i in s.got || s.home[i / s.size] != s.home[n / s.size] || i % s.size != n % s.size
    requires WellFormed(Apply(s, Construct(x)))
    ensures CellInv(Apply(s, Construct(x)), i, All(s)[i])
  {}

  lemma ConstructCells<T>(s: State<T>, x: T)
    requires WellFormed(s) && Indices(s) && ReadInv(s) && Blocks(s) && Pairs(s) && Cells(s) && Enabled(s, Construct(x))
    requires WellFormed(Apply(s, Construct(x)))
    ensures Cells(Apply(s, Construct(x)))
  {
    var s', n := Apply(s, Construct(x)), |All(s)|;
    LastBlock(s);
    assert All(s') == All(s) + [x];
    forall i | 0 <= i < |All(s')| ensures CellInv(s', i, All(s')[i]) {
      if i < n {
        assert CellInv(s, i, All(s)[i]);
        if i !in s.got {
          CountedWasRead(s, i);
          NoClash(s, i, n);
        }
        ConstructCell(s, x, i, n);
      }
    }
  }

  lemma ConstructWellFormed<T>(s: State<T>, x: T)
    requires WellFormed(s) && Enabled(s, Construct(x))
    ensures WellFormed(Apply(s, Construct(x)))
  {
    LastBlock(s);
    CellWellFormed(s, Apply(s, Construct(x)), s.home[|All(s)| / s.size], |All(s)| % s.size, x);
  }

  lemma CellWellFormed<T>(s: State<T>, s': State<T>, b: Address, k: nat, x: T)
    requires WellFormed(s) && b in s.cells && k < s.size
    requires s' == s.(staged := s'.staged, cells := s.cells[b := s.cells[b][k := Some(x)]])
    ensures WellFormed(s')
  {
    assert s'.cells.Keys == s.cells.Keys;
    forall t | t in s'.pc ensures PcFits(s', s'.pc[t]) { assert PcFits(s, s.pc[t]); }
  }

  lemma ConstructKeepsInv<T>(s: State<T>, x: T)
    requires Inv(s) && Enabled(s, Construct(x))
    ensures Inv(Apply(s, Construct(x)))
  {
    var s' := Apply(s, Construct(x));
    ConstructWellFormed(s, x);
    ProducerFrame(s, s');
    BlockFrame(s, s');
    ConstructCells(s, x);
    TakingFrame(s, s');
  }

  /** What a consumer's step may do to the others: nothing. */
  lemma ThreadsKept<T>(s: State<T>, s': State<T>, t: Tid)
    requires s.size > 0 && Threads(s) && t in s.pc && s'.size == s.size && s'.owner == s.owner && s'.home == s.home
    requires t in s'.pc && s'.pc == s.pc[t := s'.pc[t]] && ThreadInv(s', t, s'.pc[t]) && |s'.stage| == |s.stage|
    requires forall i :: 0 <= i < |s.owner| && s.owner[i] != t ==>
      (i in s'.counted <==> i in s.counted) && (i in s'.got <==> i in s.got)
    requires forall o :: 0 <= o < |s.stage| && s.stage[o].Emptied? && s.stage[o].who != t ==> s'.stage[o] == s.stage[o]
    ensures Threads(s')
  {
    forall u | u in s'.pc ensures ThreadInv(s', u, s'.pc[u]) {
      if u != t { OtherThread(s, s', u, s.pc[u]); }
    }
  }

  lemma LookUpFinds<T>(s: State<T>, t: Tid, i: nat, hi: nat)
    requires WellFormed(s) && Blocks(s) && ThreadInv(s, t, At(i, hi)) && i / s.size < |s.home|
    ensures LookUp(s, i, hi).Reading? && ThreadInv(s, t, LookUp(s, i, hi)) && PcFits(s, LookUp(s, i, hi))
  {
    assert BlockInv(s, i / s.size);
    InUse(s, i);
  }

  lemma LookUpKeepsInv<T>(s: State<T>, t: Tid)
    requires Inv(s) && t in s.pc && s.pc[t].At?
    ensures Inv(Step(s, t))
  {
    var s' := Step(s, t);
    assert ThreadInv(s, t, s.pc[t]);
    LookUpFinds(s, t, s.pc[t].i, s.pc[t].hi);
    assert WellFormed(s');
    LookUpThreads(s, s', t);
    BlockFrame(s, s');
    CellFrame(s, s');
    TakingFrame(s, s');
  }

  lemma LookUpThreads<T>(s: State<T>, s': State<T>, t: Tid)
    requires s.size > 0 && Threads(s) && Indices(s) && ReadInv(s) && t in s.pc && s.pc[t].At? && t in s'.pc
    requires s' == Goto(s, t, s'.pc[t])
    requires s'.pc[t].Reading? && ThreadInv(s, t, s'.pc[t]) && s'.pc[t].start == s.pc[t].i && s'.pc[t].hi == s.pc[t].hi
    ensures Threads(s') && Indices(s') && ReadInv(s')
  {
    OtherThread(s, s', t, s'.pc[t]);
    ThreadsKept(s, s', t);
    forall i | 0 <= i < |s'.owner| ensures IndexInv(s', i) { assert IndexInv(s, i); }
  }

  /** The element read is the one that was enqueued under its index. */
  lemma ReadGets<T>(s: State<T>, t: Tid)
    requires Inv(s) && t in s.pc && s.pc[t].Reading? && s.pc[t].i < s.pc[t].end
    ensures var pc := s.pc[t];
      && pc.i < |s.items| && pc.i !in s.got && pc.i !in s.counted && s.owner[pc.i] == t
      && pc.i / s.size == pc.start / s.size < |s.home|
      && pc.block == s.home[pc.i / s.size] && s.cells[pc.block][pc.i % s.size] == Some(s.items[pc.i])
  {
    var pc := s.pc[t];
    assert ThreadInv(s, t, pc);
    SameBlock(pc.start, pc.i, s.size);
    assert CellInv(s, pc.i, All(s)[pc.i]);
  }

  lemma SameBlock(start: nat, i: nat, size: nat)
    requires size > 0 && start <= i < EndOfBlock(start, size)
    ensures i / size == start / size
  {
    Arithmetic.DivMod(i, size, start / size, i - start / size * size);
  }

  lemma ReadThreads<T>(s: State<T>, s': State<T>, t: Tid, start: nat, i: nat, end: nat, hi: nat, b: Address)
    requires s.size > 0 && Threads(s) && Indices(s) && ReadInv(s) && t in s.pc
    requires s.pc[t] == Reading(start, i, end, hi, b) && i < end
    requires i < |s.owner| && i !in s.got && s.owner[i] == t
    requires s' == Goto(s.(got := s.got[i := s.items[i]], cells := s'.cells), t, Reading(start, i + 1, end, hi, b))
    ensures Threads(s') && Indices(s') && ReadInv(s')
  {
    assert ThreadInv(s, t, s.pc[t]);
    ThreadsKept(s, s', t);
    forall i | 0 <= i < |s'.owner| ensures IndexInv(s', i) { assert IndexInv(s, i); }
  }

  lemma ReadCell<T>(s: State<T>, s': State<T>, i: nat, j: nat, x: T)
    requires WellFormed(s) && WellFormed(s') && CellInv(s, j, x) && i / s.size < |s.home| && s'.size == s.size
    requires s'.home == s.home
    requires var b := s.home[i / s.size]; s'.cells == s.cells[b := s.cells[b][i % s.size := None]]
    requires j in s.got ==> j in s'.got
    requires j !in s'.got ==> s.home[i / s.size] != s.home[j / s.size] || i % s.size != j % s.size
    ensures CellInv(s', j, x)
  {}

  lemma ReadCells<T>(s: State<T>, s': State<T>, i: nat)
    requires WellFormed(s) && WellFormed(s') && Indices(s) && ReadInv(s) && Blocks(s) && Pairs(s) && Cells(s)
    requires i < |s.items| && i !in s.counted && i / s.size < |s.home| && s'.size == s.size && s'.home == s.home
    requires s'.items == s.items && s'.staged == s.staged
    requires var b := s.home[i / s.size]; s'.cells == s.cells[b := s.cells[b][i % s.size := None]]
    requires s'.got == s.got[i := s.items[i]]
    ensures Cells(s')
  {
    forall j | 0 <= j < |All(s')| ensures CellInv(s', j, All(s')[j]) {
      assert CellInv(s, j, All(s)[j]);
      if j !in s'.got {
        CountedWasRead(s, j);
        NoClash(s, i, j);
      }
      ReadCell(s, s', i, j, All(s)[j]);
    }
  }

  lemma ReadWellFormed<T>(s: State<T>, s': State<T>, t: Tid, start: nat, i: nat, end: nat, hi: nat, b: Address)
    requires WellFormed(s) && t in s.pc && s.pc[t] == Reading(start, i, end, hi, b) && i < end && b in s.cells
    requires i < |s.items|
    requires s' == Goto(s.(got := s.got[i := s.items[i]], cells := s.cells[b := s.cells[b][i % s.size := None]]), t,
                        Reading(start, i + 1, end, hi, b))
    ensures WellFormed(s')
  {
    assert PcFits(s, s.pc[t]);
    assert s'.cells.Keys == s.cells.Keys;
    forall u | u in s'.pc ensures PcFits(s', s'.pc[u]) { if u != t { assert PcFits(s, s.pc[u]); } }
  }

  lemma ReadKeepsInv<T>(s: State<T>, t: Tid)
    requires Inv(s) && t in s.pc && s.pc[t].Reading? && s.pc[t].i < s.pc[t].end
    ensures Inv(Step(s, t))
  {
    var s', pc := Step(s, t), s.pc[t];
    ReadGets(s, t);
    ReadWellFormed(s, s', t, pc.start, pc.i, pc.end, pc.hi, pc.block);
    ReadThreads(s, s', t, pc.start, pc.i, pc.end, pc.hi, pc.block);
    ReadCells(s, s', pc.i);
    BlockFrame(s, s');
    TakingFrame(s, s');
  }

  // counting

  lemma BlockBounds(start: nat, size: nat)
    requires size > 0
    ensures var o := start / size; o * size <= start && EndOfBlock(start, size) == (o + 1) * size == o * size + size
  {
    assert start == start / size * size + start % size;
    Arithmetic.Distribute(start / size, 1, size);
  }

  lemma CountBounds<T>(s: State<T>, t: Tid, start: nat, end: nat, hi: nat, b: Address)
    requires WellFormed(s) && Blocks(s) && ThreadInv(s, t, Reading(start, end, end, hi, b)) && start / s.size < |s.home|
    ensures var o := start / s.size;
      && o * s.size <= start < end <= o * s.size + s.size && b == s.home[o]
      && s.stage[o].Filling? && Own(s, t, start, end, hi)
  {
    assert BlockInv(s, start / s.size);
    InUse(s, start);
    BlockBounds(start, s.size);
  }

  lemma CountThread<T>(s: State<T>, s': State<T>, t: Tid, start: nat, end: nat, hi: nat, b: Address)
    requires WellFormed(s) && t in s.pc && start < end <= hi && Own(s, t, start, end, hi) && start / s.size < |s.home|
    requires b == s.home[start / s.size]
    requires s' == Count(s, t, start, end, hi, b)
    requires s.stage[start / s.size].Filling?
    ensures |s'.stage| == |s.stage| && t in s'.pc && s'.pc == s.pc[t := s'.pc[t]] && ThreadInv(s', t, s'.pc[t])
    ensures forall i :: 0 <= i < |s.owner| && s.owner[i] != t ==> (i in s'.counted <==> i in s.counted)
    ensures forall o :: 0 <= o < |s.stage| && s.stage[o].Emptied? ==> s'.stage[o] == s.stage[o]
    ensures s'.counted == s.counted + Range(start, end)
    ensures s' == s.(pc := s'.pc, counted := s'.counted, stage := s'.stage, counter := s'.counter,
                     releases := s'.releases)
    ensures if end == hi then Hi(s'.pc[t]) == 0 || Hi(s'.pc[t]) == hi else Lo(s'.pc[t]) == end && Hi(s'.pc[t]) == hi
  {
    assert Own(s', t, end, end, hi);
  }

  lemma CountThreads<T>(s: State<T>, s': State<T>, t: Tid, start: nat, end: nat, hi: nat, b: Address)
    requires WellFormed(s) && Threads(s) && Indices(s) && ReadInv(s) && t in s.pc && start < end <= hi
    requires Own(s, t, start, end, hi)
    requires s.pc[t] == Reading(start, end, end, hi, b) && start / s.size < |s.home| && b == s.home[start / s.size]
    requires s.stage[start / s.size].Filling?
    requires b in s.counter && s' == Count(s, t, start, end, hi, b)
    ensures Threads(s') && Indices(s') && ReadInv(s')
  {
    CountThread(s, s', t, start, end, hi, b);
    CountedAll(s, s', t, start, end, hi);
  }

  lemma CountedAll<T>(s: State<T>, s': State<T>, t: Tid, start: nat, end: nat, hi: nat)
    requires s.size > 0 && Threads(s) && Indices(s) && ReadInv(s) && t in s.pc && start < end <= hi
    requires Own(s, t, start, end, hi)
    requires Lo(s.pc[t]) == start && Hi(s.pc[t]) == hi
    requires |s'.stage| == |s.stage| && t in s'.pc && s'.pc == s.pc[t := s'.pc[t]]
    requires ThreadInv(s.(counted := s'.counted, stage := s'.stage), t, s'.pc[t])
    requires forall i :: 0 <= i < |s.owner| && s.owner[i] != t ==> (i in s'.counted <==> i in s.counted)
    requires forall o :: 0 <= o < |s.stage| && s.stage[o].Emptied? ==> s'.stage[o] == s.stage[o]
    requires s'.counted == s.counted + Range(start, end)
    requires s' == s.(pc := s'.pc, counted := s'.counted, stage := s'.stage, counter := s'.counter,
                      releases := s'.releases)
    requires if end == hi then Hi(s'.pc[t]) == 0 || Hi(s'.pc[t]) == hi else Lo(s'.pc[t]) == end && Hi(s'.pc[t]) == hi
    ensures Threads(s') && Indices(s') && ReadInv(s')
  {
    ThreadsKept(s, s', t);
    CountIndices(s, s', t, start, end, hi);
  }

  lemma CountIndices<T>(s: State<T>, s': State<T>, t: Tid, start: nat, end: nat, hi: nat)
    requires Indices(s) && t in s.pc && t in s'.pc && s'.owner == s.owner && s'.got == s.got
    requires s'.pc == s.pc[t := s'.pc[t]]
    requires Lo(s.pc[t]) == start && Hi(s.pc[t]) == hi && s'.counted == s.counted + Range(start, end)
    requires Own(s, t, start, end, hi)
    requires if end == hi then Hi(s'.pc[t]) == 0 || Hi(s'.pc[t]) == hi else Lo(s'.pc[t]) == end && Hi(s'.pc[t]) == hi
    ensures Indices(s')
  {
    forall i | 0 <= i < |s'.owner| ensures IndexInv(s', i) { assert IndexInv(s, i); }
  }

  lemma BasesApart(o: nat, p: nat, size: nat)
    requires size > 0
    ensures (o < p ==> o * size + size <= p * size) && (p < o ==> p * size + size <= o * size)
  {
    Arithmetic.Distribute(o, 1, size);
    Arithmetic.Distribute(p, 1, size);
    Arithmetic.MulOrder(p + 1, o, size);
    Arithmetic.MulOrder(o + 1, p, size);
  }

  /** The counts after `start` to `end`, all of block `o`, have been counted. */
  lemma CountedAfter(counted: set<nat>, size: nat, start: nat, end: nat, o: nat, p: nat)
    requires size > 0 && o * size <= start <= end <= o * size + size && forall i :: start <= i < end ==> i !in counted
    ensures CountIn(counted + Range(start, end), p * size, size) ==
      CountIn(counted, p * size, size) + if p == o then end - start else 0
  {
    BasesApart(o, p, size);
    var base := p * size;
    CountMore(counted, base, size, start, end);
  }

  lemma CountBlock<T>(s: State<T>, s': State<T>, t: Tid, o: nat, p: nat, n: nat)
    requires WellFormed(s) && WellFormed(s') && o < |s.home| && p < |s.home| && BlockInv(s, o) && BlockInv(s, p)
    requires s.stage[o].Filling?
    requires (p < o ==> PairInv(s, p, o)) && (o < p ==> PairInv(s, o, p)) && t in s.pc && s.pc[t].Reading? && t in s'.pc
    requires s'.size == s.size && s'.home == s.home && s'.index == s.index && s'.free == s.free
    requires s'.pc == s.pc[t := s'.pc[t]]
    requires s'.counter == s.counter[s.home[o] := s.counter[s.home[o]] + n]
    requires Counted(s', p) == Counted(s, p) + if p == o then n else 0
    requires var full := s.counter[s.home[o]] + n == s.size;
      && s'.stage == (if full then s.stage[o := Emptied(t)] else s.stage)
      && (full ==> s'.pc[t].Unlinking? && s'.pc[t].o == o)
    ensures BlockInv(s', p)
  {}

  lemma CountOne<T>(s: State<T>, s': State<T>, t: Tid, start: nat, end: nat, hi: nat, o: nat, p: nat)
    requires WellFormed(s) && WellFormed(s') && o < |s.home| && p < |s.home| && BlockInv(s, o) && BlockInv(s, p)
    requires s.stage[o].Filling?
    requires (p < o ==> PairInv(s, p, o)) && (o < p ==> PairInv(s, o, p)) && t in s.pc && s.pc[t].Reading?
    requires start / s.size == o && o * s.size <= start <= end <= o * s.size + s.size
    requires forall i :: start <= i < end ==> i !in s.counted
    requires s' == Count(s, t, start, end, hi, s.home[o])
    ensures BlockInv(s', p)
  {
    CountedAfter(s.counted, s.size, start, end, o, p);
    assert s'.pc == s.pc[t := s'.pc[t]];
    CountBlock(s, s', t, o, p, end - start);
  }

  lemma CountBlocks<T>(s: State<T>, s': State<T>, t: Tid, start: nat, end: nat, hi: nat, o: nat)
    requires WellFormed(s) && WellFormed(s') && Blocks(s) && Pairs(s) && o < |s.home| && s.stage[o].Filling?
    requires t in s.pc && s.pc[t].Reading?
    requires start / s.size == o && o * s.size <= start <= end <= o * s.size + s.size
    requires forall i :: start <= i < end ==> i !in s.counted
    requires s' == Count(s, t, start, end, hi, s.home[o])
    ensures Blocks(s') && Pairs(s')
  {
    assert BlockInv(s, o);
    forall p | 0 <= p < |s'.home| ensures BlockInv(s', p) {
      assert BlockInv(s, p) && (p < o ==> PairInv(s, p, o)) && (o < p ==> PairInv(s, o, p));
      CountOne(s, s', t, start, end, hi, o, p);
    }
    forall p, q | 0 <= p < q < |s'.home| ensures PairInv(s', p, q) { assert PairInv(s, p, q); }
  }

  lemma CountLog<T>(s: State<T>, s': State<T>, t: Tid, start: nat, end: nat, hi: nat, b: Address)
    requires WellFormed(s) && LogInv(s) && start <= end && start / s.size < |s.home| && s.stage[start / s.size].Filling?
    requires b in s.counter
    requires s' == Count(s, t, start, end, hi, b)
    ensures LogInv(s')
  {
    forall o | 0 <= o < |s'.stage| && !s'.stage[o].Filling? ensures o in s'.releases {
      if o != start / s.size { assert o in s.releases; } else { assert s'.releases[|s.releases|] == o; }
    }
  }

  /** Well-formedness after a step that moves only counters, stages and one thread. */
  lemma StaysWellFormed<T>(s: State<T>, s': State<T>, t: Tid)
    requires WellFormed(s) && t in s.pc && t in s'.pc && s'.pc == s.pc[t := s'.pc[t]] && PcFits(s, s'.pc[t])
    requires s'.size == s.size && s'.home == s.home && s'.index == s.index && s'.cells == s.cells
    requires |s'.stage| == |s.stage| && s'.counter.Keys == s.counter.Keys
    ensures WellFormed(s')
  {
    forall u | u in s'.pc ensures PcFits(s', s'.pc[u]) { if u != t { assert PcFits(s, s.pc[u]); } }
  }

  lemma CountWellFormed<T>(s: State<T>, s': State<T>, t: Tid, start: nat, end: nat, hi: nat, b: Address)
    requires WellFormed(s) && t in s.pc && start < end <= hi && b in s.counter && start / s.size < |s.home|
    requires s' == Count(s, t, start, end, hi, b)
    requires end < hi ==> end / s.size < |s.home|
    ensures WellFormed(s')
  {
    assert s'.counter.Keys == s.counter.Keys;
    StaysWellFormed(s, s', t);
  }

  lemma ClaimedHasBlock<T>(s: State<T>, i: nat)
    requires WellFormed(s) && Cells(s) && i < |s.items|
    ensures i / s.size < |s.home|
  {
    assert CellInv(s, i, All(s)[i]);
  }

  lemma CountedThreads<T>(s: State<T>, s': State<T>, t: Tid, start: nat, end: nat, hi: nat, b: Address)
    requires WellFormed(s) && Blocks(s) && Threads(s) && Indices(s) && ReadInv(s) && LogInv(s)
    requires t in s.pc && s.pc[t] == Reading(start, end, end, hi, b) && start / s.size < |s.home| && b in s.counter
    requires start <= end && s' == Count(s, t, start, end, hi, b)
    ensures Threads(s') && Indices(s') && ReadInv(s') && LogInv(s')
  {
    assert ThreadInv(s, t, s.pc[t]);
    CountBounds(s, t, start, end, hi, b);
    CountThreads(s, s', t, start, end, hi, b);
    CountLog(s, s', t, start, end, hi, b);
  }

  lemma CountedBlocks<T>(s: State<T>, s': State<T>, t: Tid, start: nat, end: nat, hi: nat, b: Address)
    requires WellFormed(s) && WellFormed(s') && Blocks(s) && Pairs(s) && Threads(s)
    requires t in s.pc && s.pc[t] == Reading(start, end, end, hi, b) && start / s.size < |s.home| && b in s.counter
    requires start <= end && s' == Count(s, t, start, end, hi, b)
    ensures Blocks(s') && Pairs(s')
  {
    assert ThreadInv(s, t, s.pc[t]);
    CountBounds(s, t, start, end, hi, b);
    CountBlocks(s, s', t, start, end, hi, BlockOf(start, s.size));
  }

  lemma CountedInv<T>(s: State<T>, s': State<T>, t: Tid, start: nat, end: nat, hi: nat, b: Address)
    requires Inv(s) && WellFormed(s') && t in s.pc && s.pc[t] == Reading(start, end, end, hi, b)
    requires start / s.size < |s.home| && b in s.counter && start <= end
    requires s' == Count(s, t, start, end, hi, b)
    ensures Inv(s')
  {
    CountedThreads(s, s', t, start, end, hi, b);
    CountedBlocks(s, s', t, start, end, hi, b);
    CellFrame(s, s');
    CountTaking(s, s', t, start, end, hi, b);
  }

  lemma CountTaking<T>(s: State<T>, s': State<T>, t: Tid, start: nat, end: nat, hi: nat, b: Address)
    requires WellFormed(s) && WellFormed(s') && Blocks(s) && Threads(s) && TakingInv(s) && t in s.pc
    requires s.pc[t] == Reading(start, end, end, hi, b)
    requires start / s.size < |s.home| && b in s.counter && start <= end && s' == Count(s, t, start, end, hi, b)
    ensures TakingInv(s')
  {
    assert ThreadInv(s, t, s.pc[t]);
    CountBounds(s, t, start, end, hi, b);
    TakingFrame(s, s');
  }

  lemma CountKeepsInv<T>(s: State<T>, t: Tid)
    requires Inv(s) && t in s.pc && s.pc[t].Reading? && s.pc[t].i == s.pc[t].end
    ensures Inv(Step(s, t))
  {
    var s', pc := Step(s, t), s.pc[t];
    assert ThreadInv(s, t, pc) && PcFits(s, pc);
    if pc.end < pc.hi { ClaimedHasBlock(s, pc.end); }
    CountWellFormed(s, s', t, pc.start, pc.end, pc.hi, pc.block);
    CountedInv(s, s', t, pc.start, pc.end, pc.hi, pc.block);
  }

  // releasing

  lemma UnlinkBlocks<T>(s: State<T>, s': State<T>, t: Tid, o: nat, b: Address, i: nat, hi: nat)
    requires WellFormed(s) && WellFormed(s') && Blocks(s) && Pairs(s) && t in s.pc && s.pc[t] == Unlinking(o, b, i, hi)
    requires o < |s.home| && s.stage[o] == Emptied(t)
    requires s' == Goto(s.(index := s.index[o := None]), t, GivingBack(o, b, i, hi))
    ensures Blocks(s') && Pairs(s')
  {
    forall p | 0 <= p < |s'.home| ensures BlockInv(s', p) { assert BlockInv(s, p); }
    forall p, q | 0 <= p < q < |s'.home| ensures PairInv(s', p, q) { assert PairInv(s, p, q); }
  }

  lemma ReleaseThreads<T>(s: State<T>, s': State<T>, t: Tid, o: nat, b: Address, i: nat, hi: nat)
    requires s.size > 0 && Threads(s) && Indices(s) && ReadInv(s) && t in s.pc && Lo(s.pc[t]) == i && Hi(s.pc[t]) == hi
    requires t in s'.pc && Own(s, t, i, i, hi)
    requires s' == Goto(s.(index := s'.index, free := s'.free, stage := s'.stage), t, s'.pc[t]) && o < |s.stage|
    requires s.stage[o] == Emptied(t)
    requires o < |s.home| && b == s.home[o]
    requires || (s'.pc[t] == GivingBack(o, b, i, hi) && s'.stage == s.stage)
             || (s'.pc[t] == After(i, hi) && s'.stage == s.stage[o := Gone])
    ensures Threads(s') && Indices(s') && ReadInv(s')
  {
    assert Own(s', t, i, i, hi);
    ThreadsKept(s, s', t);
    forall i | 0 <= i < |s'.owner| ensures IndexInv(s', i) { assert IndexInv(s, i); }
  }

  lemma UnlinkKeepsInv<T>(s: State<T>, t: Tid)
    requires Inv(s) && t in s.pc && s.pc[t].Unlinking?
    ensures Inv(Step(s, t))
  {
    var s', pc := Step(s, t), s.pc[t];
    assert ThreadInv(s, t, pc) && PcFits(s, pc);
    assert WellFormed(s');
    ReleaseThreads(s, s', t, pc.o, pc.block, pc.i, pc.hi);
    UnlinkBlocks(s, s', t, pc.o, pc.block, pc.i, pc.hi);
    CellFrame(s, s');
    TakingFrame(s, s');
  }

  lemma GiveBackBlocks<T>(s: State<T>, s': State<T>, t: Tid, o: nat, b: Address, i: nat, hi: nat)
    requires WellFormed(s) && WellFormed(s') && Blocks(s) && Pairs(s) && t in s.pc && s.pc[t] == GivingBack(o, b, i, hi)
    requires o < |s.home| && b == s.home[o] && s.stage[o] == Emptied(t)
    requires s' == Goto(s.(free := s.free + {b}, stage := s.stage[o := Gone]), t, After(i, hi))
    ensures Blocks(s') && Pairs(s')
  {
    assert BlockInv(s, o);
    forall p | 0 <= p < |s'.home| ensures BlockInv(s', p) {
      assert BlockInv(s, p) && (p < o ==> PairInv(s, p, o)) && (o < p ==> PairInv(s, o, p));
    }
    forall p, q | 0 <= p < q < |s'.home| ensures PairInv(s', p, q) { assert PairInv(s, p, q); }
  }

  lemma GiveBackKeepsInv<T>(s: State<T>, t: Tid)
    requires Inv(s) && t in s.pc && s.pc[t].GivingBack?
    ensures Inv(Step(s, t))
  {
    var s', pc := Step(s, t), s.pc[t];
    assert ThreadInv(s, t, pc) && PcFits(s, pc);
    if pc.i < pc.hi { ClaimedHasBlock(s, pc.i); }
    StaysWellFormed(s, s', t);
    ReleaseThreads(s, s', t, pc.o, pc.block, pc.i, pc.hi);
    GiveBackBlocks(s, s', t, pc.o, pc.block, pc.i, pc.hi);
    CellFrame(s, s');
    TakingFrame(s, s');
  }

  lemma ApplyKeepsInv<T>(s: State<T>, e: Event<T>)
    requires Inv(s) && Enabled(s, e)
    ensures Inv(Apply(s, e))
  {
    match e
    case Take(a) => TakeKeepsInv(s, a);
    case Clear => ClearKeepsInv(s);
    case Link => LinkKeepsInv(s);
    case Construct(x) => ConstructKeepsInv(s, x);
    case Publish => PublishKeepsInv(s);
    case Claim(t, n) => ClaimKeepsInv(s, t, n);
    case Run(t) =>
      match s.pc[t]
      case At(_, _) => LookUpKeepsInv(s, t);
      case Reading(_, i, end, _, _) =>
        assert PcFits(s, s.pc[t]);
        if i < end { ReadKeepsInv(s, t); } else { CountKeepsInv(s, t); }
      case Unlinking(_, _, _, _) => UnlinkKeepsInv(s, t);
      case GivingBack(_, _, _, _) => GiveBackKeepsInv(s, t);
      case _ =>
  }

  lemma {:induction false} Reachable<T(!new)>(run: seq<State<T>>, i: nat)
    requires IsRun(run) && i < |run|
    ensures Inv(run[i])
  {
    if i == 0 {
      InitInv(run[0]);
    } else {
      Reachable(run, i - 1);
      assert StepAt(run, i - 1);
      NextKeepsInv(run[i - 1], run[i]);
    }
  }

  lemma NextKeepsInv<T(!new)>(s: State<T>, s': State<T>)
    requires Inv(s) && Next(s, s')
    ensures Inv(s')
  {
    var e: Event<T> :| Enabled(s, e) && s' == Apply(s, e);
    ApplyKeepsInv(s, e);
  }

  // ---------------------------------------------------------------------------------- theorems

  /** No consumer ever meets a null block or an element already taken, and each index was read as the element
      enqueued under it. */
  lemma ReadsAreRight<T(!new)>(run: seq<State<T>>, i: nat)
    requires IsRun(run) && i < |run|
    ensures var s := run[i];
      && (forall t :: t in s.pc ==> !s.pc[t].Lost?)
      && (forall k :: k in s.got ==> k < |s.owner| <= |s.items| && s.got[k] == s.items[k])
      && (forall k :: k in s.counted ==> k in s.got)
  {
    var s := run[i];
    Reachable(run, i);
    forall t | t in s.pc ensures !s.pc[t].Lost? { assert ThreadInv(s, t, s.pc[t]); }
    forall k | k in s.counted ensures k in s.got { CountedWasRead(s, k); }
  }

  /** The counter of a block in use is the number of its indices counted and never exceeds the block size; a
      block is seen full exactly when all its indices are counted, and by exactly one consumer. */
  lemma ReleasedExactlyOnce<T(!new)>(run: seq<State<T>>, i: nat)
    requires IsRun(run) && i < |run|
    ensures var s := run[i];
      && s.size > 0 && |s.stage| == |s.home|
      && (forall o :: 0 <= o < |s.home| && s.stage[o].Filling? ==>
            s.home[o] in s.counter && s.counter[s.home[o]] == Counted(s, o) < s.size)
      && (forall o :: 0 <= o < |s.home| ==> (o in s.releases <==> Counted(s, o) == s.size))
      && (forall j, k :: 0 <= j < k < |s.releases| ==> s.releases[j] != s.releases[k])
  {
    var s := run[i];
    Reachable(run, i);
    forall o | 0 <= o < |s.home| ensures o in s.releases <==> Counted(s, o) == s.size { assert BlockInv(s, o); }
    forall o | 0 <= o < |s.home| && s.stage[o].Filling?
      ensures s.home[o] in s.counter && s.counter[s.home[o]] == Counted(s, o) < s.size
    {
      assert BlockInv(s, o);
    }
  }

  /** All elements block number `o` held have been read and counted. */
  ghost predicate Finished<T>(s: State<T>, o: nat) {
    forall i :: o * s.size <= i < o * s.size + s.size ==> i in s.counted && i in s.got
  }

  lemma GoneIsFinished<T>(s: State<T>, o: nat)
    requires Inv(s) && o < |s.home| && s.stage[o].Gone?
    ensures Finished(s, o)
  {
    assert BlockInv(s, o);
    forall i | o * s.size <= i < o * s.size + s.size ensures i in s.counted && i in s.got {
      CountFull(s.counted, o * s.size, s.size, i);
      CountedWasRead(s, i);
    }
  }

  /** A block is taken up again, its counter reset and its slots used, only after every element it held before was
      read and counted: when it is linked in under a later number, and also from the moment it is taken from the
      pool until then. */
  lemma NoEarlyReuse<T(!new)>(run: seq<State<T>>, n: nat, o: nat)
    requires IsRun(run) && n < |run| && o < |run[n].home|
    ensures var s := run[n];
      && (forall p :: o < p < |s.home| && s.home[p] == s.home[o] ==> Finished(s, o))
      && (!s.taking.Nothing? && s.taking.a == s.home[o] ==> Finished(s, o))
      && (s.home[o] in s.free ==> Finished(s, o))
  {
    var s := run[n];
    Reachable(run, n);
    assert BlockInv(s, o);
    if s.stage[o].Gone? { GoneIsFinished(s, o); }
    forall p | o < p < |s.home| && s.home[p] == s.home[o] ensures Finished(s, o) { assert PairInv(s, o, p); }
  }

  lemma {:induction false} CountAll(s: set<nat>, lo: nat, n: nat)
    requires forall i :: lo <= i < lo + n ==> i in s
    ensures CountIn(s, lo, n) == n
  {
    if n > 0 { CountAll(s, lo, n - 1); }
  }

  /** When no consumer is at work, exactly the blocks the head index has left behind are released. */
  lemma AtRest<T(!new)>(run: seq<State<T>>, n: nat, o: nat)
    requires IsRun(run) && n < |run| && forall t :: t in run[n].pc ==> run[n].pc[t] == Idle
    requires o < |run[n].home|
    ensures var s := run[n]; |s.stage| == |s.home| && (s.stage[o].Gone? <==> o * s.size + s.size <= |s.owner|)
  {
    var s := run[n];
    Reachable(run, n);
    assert BlockInv(s, o);
    if o * s.size + s.size <= |s.owner| {
      forall i | o * s.size <= i < o * s.size + s.size ensures i in s.counted { assert IndexInv(s, i); }
      CountAll(s.counted, o * s.size, s.size);
    } else {
      assert o * s.size + s.size - 1 !in s.counted;
    }
  }

  // ------------------------------------------------------------------ nothing lost, nothing stuck

  ghost predicate Occupies<T>(s: State<T>, o: int, a: Address) {
    0 <= o < |s.home| == |s.stage| && s.home[o] == a && !s.stage[o].Gone?
  }

  /** A block is in the pool, about to be begun, or in use. */
  ghost predicate Accounted<T>(s: State<T>, a: Address) {
    a in s.free || (!s.taking.Nothing? && s.taking.a == a) || exists o :: Occupies(s, o, a)
  }

  lemma StillOccupied<T>(s: State<T>, s': State<T>, a: Address)
    requires Accounted(s, a) && s.free <= s'.free && s'.taking == s.taking && |s'.home| == |s'.stage|
    requires forall o :: Occupies(s, o, a) ==> Occupies(s', o, a) || a in s'.free
    ensures Accounted(s', a)
  {
    if a !in s.free && (s.taking.Nothing? || s.taking.a != a) {
      var o :| Occupies(s, o, a);
      assert Occupies(s', o, a) || a in s'.free;
    }
  }

  lemma AccountedRun<T>(s: State<T>, t: Tid, a: Address)
    requires WellFormed(s) && t in s.pc && ThreadInv(s, t, s.pc[t]) && Accounted(s, a)
    ensures Accounted(Step(s, t), a)
  {
    assert PcFits(s, s.pc[t]);
    StillOccupied(s, Step(s, t), a);
  }

  lemma AccountedTake<T>(s: State<T>, s': State<T>, a: Address, b: Address)
    requires (a != b ==> Accounted(s, a)) && s.taking.Nothing?
    requires s'.taking == Taken(b) && s'.free == s.free - {b} && s'.home == s.home && s'.stage == s.stage
    ensures Accounted(s', a)
  {
    if a != b && a !in s.free {
      var o :| Occupies(s, o, a);
      assert Occupies(s', o, a);
    }
  }

  lemma AccountedLink<T>(s: State<T>, s': State<T>, a: Address)
    requires Accounted(s, a) && s.taking.Cleared? && |s.home| == |s.stage|
    requires s'.free == s.free && s'.home == s.home + [s.taking.a] && s'.stage == s.stage + [Filling]
    ensures Accounted(s', a)
  {
    if s.taking.a == a {
      assert Occupies(s', |s.home|, a);
    } else if a !in s.free {
      var o :| Occupies(s, o, a);
      assert Occupies(s', o, a);
    }
  }

  lemma AccountedQuiet<T>(s: State<T>, s': State<T>, a: Address)
    requires Accounted(s, a) && s'.free == s.free && s'.home == s.home && s'.stage == s.stage
    requires s'.taking == s.taking || (s.taking.Taken? && s'.taking == Cleared(s.taking.a))
    ensures Accounted(s', a)
  {
    if a !in s.free && (s.taking.Nothing? || s.taking.a != a) {
      var o :| Occupies(s, o, a);
      assert Occupies(s', o, a);
    }
  }

  lemma AccountedNext<T>(s: State<T>, e: Event<T>, a: Address)
    requires WellFormed(s) && Enabled(s, e) && !e.Run? && (e != Take(a) ==> Accounted(s, a))
    ensures Accounted(Apply(s, e), a)
  {
    match e
    case Take(b) => AccountedTake(s, Apply(s, e), a, b);
    case Link => AccountedLink(s, Apply(s, e), a);
    case Clear => AccountedQuiet(s, Apply(s, e), a);
    case Construct(_) => AccountedQuiet(s, Apply(s, e), a);
    case Publish => AccountedQuiet(s, Apply(s, e), a);
    case Claim(_, _) => AccountedQuiet(s, Apply(s, e), a);
  }

  lemma StepCells<T>(s: State<T>, t: Tid)
    requires WellFormed(s) && t in s.pc
    ensures Step(s, t).cells.Keys == s.cells.Keys
  {
    assert PcFits(s, s.pc[t]);
  }

  /** Only taking a block from the heap adds one. */
  lemma CellsAfter<T>(s: State<T>, e: Event<T>, a: Address)
    requires WellFormed(s) && Enabled(s, e) && a in Apply(s, e).cells && e != Take(a)
    ensures a in s.cells
  {
    if e.Run? { StepCells(s, e.t); }
  }

  /** No block is ever lost: each is in the pool, about to be begun, or in use under a number not gone. */
  lemma {:induction false} NoBlockIsLost<T(!new)>(run: seq<State<T>>, i: nat, a: Address)
    requires IsRun(run) && i < |run| && a in run[i].cells
    ensures Accounted(run[i], a)
  {
    if i > 0 {
      var s := run[i - 1];
      assert StepAt(run, i - 1);
      Reachable(run, i - 1);
      var e: Event<T> :| Enabled(s, e) && run[i] == Apply(s, e);
      if e != Take(a) {
        CellsAfter(s, e, a);
        NoBlockIsLost(run, i - 1, a);
      }
      if e.Run? { AccountedRun(s, e.t, a); } else { AccountedNext(s, e, a); }
    }
  }

  /** At rest, with no block about to be begun, every block the head index has left behind is back in the pool or in use
      under a later number. */
  lemma BackInPool<T(!new)>(run: seq<State<T>>, n: nat, o: nat)
    requires IsRun(run) && n < |run| && (forall t :: t in run[n].pc ==> run[n].pc[t] == Idle) && run[n].taking.Nothing?
    requires o < |run[n].home| && o * run[n].size + run[n].size <= |run[n].owner|
    ensures var s := run[n]; s.home[o] in s.free || exists p :: p > o && Occupies(s, p, s.home[o])
  {
    var s := run[n];
    Reachable(run, n);
    AtRest(run, n, o);
    NoBlockIsLost(run, n, s.home[o]);
    forall p | 0 <= p < o && s.home[p] == s.home[o] ensures s.stage[p].Gone? { assert PairInv(s, p, o); }
  }

  /** How far a consumer is from the end of its call. */
  function StepsLeft(pc: Pc): int {
    match pc
    case At(i, hi) => 6 * (hi - i)
    case Reading(start, i, _, hi, _) => 6 * (hi - start) - 1 - (i - start)
    case Unlinking(_, _, i, hi) => 6 * (hi - i) + 3
    case GivingBack(_, _, i, hi) => 6 * (hi - i) + 2
    case _ => 0
  }

  lemma StepCloser<T>(s: State<T>, t: Tid)
    requires WellFormed(s) && t in s.pc && s.pc[t] != Idle && ThreadInv(s, t, s.pc[t])
    ensures StepsLeft(s.pc[t]) > StepsLeft(Step(s, t).pc[t])
    ensures StepsLeft(s.pc[t]) > 0
  {
    assert PcFits(s, s.pc[t]);
    match s.pc[t]
    case At(_, _) =>
    case Reading(_, i, end, _, _) =>
    case Unlinking(_, _, _, _) =>
    case GivingBack(_, _, _, _) =>
  }

  /** Every step of a consumer that is not idle brings it closer to the end of its call. */
  lemma ConsumersProgress<T(!new)>(run: seq<State<T>>, i: nat, t: Tid)
    requires IsRun(run) && i < |run| && t in run[i].pc && run[i].pc[t] != Idle
    ensures WellFormed(run[i])
    ensures var s := run[i]; StepsLeft(s.pc[t]) > StepsLeft(Step(s, t).pc[t]) && StepsLeft(s.pc[t]) > 0
  {
    Reachable(run, i);
    StepCloser(run[i], t);
  }
}
