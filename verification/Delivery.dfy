/**
 The whole dequeue of an implicit producer's sub-queue, as one step system: the counters of DequeueProtocol, by
 which consumers agree on who gets which indices, together with the blocks of BlockRelease, in which the elements
 are. Publishing moves the tail index of both; the advance of the head index by a consumer that was granted
 elements is its claim on their indices, which it then reads block by block.

 `deliveries` is history: what was moved out, under which index, by whom, in this order.
 */
module Delivery {
  import opened Wrappers
  import Counters = DequeueProtocol
  import Blocks = BlockRelease

  type Tid = nat

  datatype Delivery<T> = Delivery(who: Tid, index: nat, value: T)

  datatype State<T> = State(counters: Counters.State, blocks: Blocks.State<T>, deliveries: seq<Delivery<T>>)

  // --------------------------------------------------------------------------------------- steps

  predicate Init<T>(s: State<T>) {
    && Counters.Init(s.counters) && Blocks.Init(s.blocks) && s.deliveries == []
    && s.counters.pc.Keys == s.blocks.pc.Keys
  }

  predicate WellFormed<T>(s: State<T>) {
    Counters.WellFormed(s.counters) && Blocks.WellFormed(s.blocks) && s.counters.pc.Keys == s.blocks.pc.Keys
  }

  /** How many elements the next step of `t` on the counters claims. */
  function Granted(c: Counters.State, t: Tid): nat
    requires Counters.WellFormed(c) && t in c.pc
  {
    if c.pc[t].Advance? then c.tickets[c.pc[t].k].actual else 0
  }

  /** The indices `t` claims are the next `n`. */
  function Claimed<T>(b: Blocks.State<T>, t: Tid, n: nat): Blocks.State<T> {
    if n == 0 then b
    else Blocks.Goto(b.(owner := b.owner + seq(n, _ => t)), t, Blocks.At(|b.owner|, |b.owner| + n))
  }

  /** What the next step of `t` on the blocks moves out. */
  function Moved<T>(b: Blocks.State<T>, t: Tid): seq<Delivery<T>>
    requires Blocks.WellFormed(b) && t in b.pc
  {
    var pc := b.pc[t];
    assert Blocks.PcFits(b, pc);
    if pc.Reading? && pc.i < pc.end && b.cells[pc.block][pc.i % b.size].Some?
    then [Delivery(t, pc.i, b.cells[pc.block][pc.i % b.size].value)] else []
  }

  /** The producer prepares blocks and elements, and publishes; a consumer calls dequeue or dequeue_bulk, moves on the
      counters, or moves on the blocks. */
  datatype Event<T> = Produce(e: Blocks.Event<T>) | Publish | Call(t: Tid, max: nat) | Count(t: Tid) | Read(t: Tid)

  predicate Enabled<T>(s: State<T>, e: Event<T>) {
    match e
    case Produce(e) => (e.Take? || e.Clear? || e.Link? || e.Construct?) && Blocks.Enabled(s.blocks, e)
    case Publish => Blocks.Enabled(s.blocks, Blocks.Publish)
    case Call(t, _) =>
      t in s.counters.pc && s.counters.pc[t] == Counters.Idle && t in s.blocks.pc && s.blocks.pc[t] == Blocks.Idle
    case Count(t) => t in s.counters.pc
    case Read(t) => t in s.blocks.pc
  }

  function Apply<T>(s: State<T>, e: Event<T>): State<T>
    requires WellFormed(s) && Enabled(s, e)
  {
    var c, b := s.counters, s.blocks;
    match e
    case Produce(e) => s.(blocks := Blocks.Apply(b, e))
    case Publish =>
      s.(counters := Counters.Apply(c, Counters.Publish(|b.staged|)), blocks := Blocks.Apply(b, Blocks.Publish))
    case Call(t, max) => s.(counters := Counters.Apply(c, Counters.Call(t, max)))
    case Count(t) => s.(counters := Counters.Apply(c, Counters.Run(t)), blocks := Claimed(b, t, Granted(c, t)))
    case Read(t) => s.(blocks := Blocks.Apply(b, Blocks.Run(t)), deliveries := s.deliveries + Moved(b, t))
  }

  ghost predicate Next<T(!new)>(s: State<T>, s': State<T>) {
    WellFormed(s) && exists e: Event<T> :: Enabled(s, e) && s' == Apply(s, e)
  }

  ghost predicate StepAt<T(!new)>(run: seq<State<T>>, i: nat) { i + 1 < |run| && Next(run[i], run[i + 1]) }

  ghost predicate IsRun<T(!new)>(run: seq<State<T>>) {
    && |run| > 0
    && Init(run[0])
    && forall i: nat :: i + 1 < |run| ==> StepAt(run, i)
  }

  // ----------------------------------------------------------------------------------- invariant

  /** The two halves agree on the indices, and a consumer is at work in one of them at a time. */
  ghost predicate Agree(c: Counters.State, tail: nat, owner: seq<Tid>) {
    && c.tail == tail && c.head == |owner|
    && forall j, x :: Counters.InClaim(c.claims, j, x) ==> 0 <= x < |owner| && owner[x] == c.claims[j].who
  }

  ghost predicate OneAtATime<T>(s: State<T>) {
    && s.counters.pc.Keys == s.blocks.pc.Keys
    && forall t :: t in s.blocks.pc && s.counters.pc[t] != Counters.Idle ==> s.blocks.pc[t] == Blocks.Idle
  }

  /** The index `t` reads next, at the earliest. */
  function Position(pc: Blocks.Pc, head: nat): nat {
    match pc
    case At(i, _) => i
    case Reading(_, i, _, _, _) => i
    case Unlinking(_, _, i, _) => i
    case GivingBack(_, _, i, _) => i
    case _ => head
  }

  /** A delivery is of an index read, by its owner, who is past it. */
  ghost predicate IsRight<T>(b: Blocks.State<T>, d: Delivery<T>) {
    && d.index in b.got && b.got[d.index] == d.value
    && d.index < |b.owner| && b.owner[d.index] == d.who
    && (d.who in b.pc ==> d.index < Position(b.pc[d.who], |b.owner|))
  }

  /** No index is delivered twice, and each consumer's are in order. */
  ghost predicate Ordered<T>(ds: seq<Delivery<T>>) {
    forall j, k :: 0 <= j < k < |ds| ==>
      ds[j].index != ds[k].index && (ds[j].who == ds[k].who ==> ds[j].index < ds[k].index)
  }

  ghost predicate Delivered<T>(ds: seq<Delivery<T>>, x: nat) { exists j :: 0 <= j < |ds| && ds[j].index == x }

  ghost predicate DeliveryInv<T>(b: Blocks.State<T>, ds: seq<Delivery<T>>) {
    AllRight(b, ds) && Ordered(ds) && Complete(b, ds)
  }

  ghost predicate AllRight<T>(b: Blocks.State<T>, ds: seq<Delivery<T>>) {
    forall d :: d in ds ==> IsRight(b, d)
  }

  /** Nothing was read that is not delivered. */
  ghost predicate Complete<T>(b: Blocks.State<T>, ds: seq<Delivery<T>>) {
    forall x :: x in b.got ==> Delivered(ds, x)
  }

  ghost predicate Inv<T>(s: State<T>) {
    && Counters.Inv(s.counters) && Blocks.Inv(s.blocks) && OneAtATime(s)
    && Agree(s.counters, |s.blocks.items|, s.blocks.owner) && DeliveryInv(s.blocks, s.deliveries)
  }

  // -------------------------------------------------------------------------------- preservation

  /** Steps that read nothing and move no consumer back. */
  lemma DeliveryFrame<T>(b: Blocks.State<T>, b': Blocks.State<T>, deliveries: seq<Delivery<T>>)
    requires DeliveryInv(b, deliveries) && b'.got == b.got && b.owner <= b'.owner && b'.pc.Keys == b.pc.Keys
    requires forall t :: t in b.pc ==> Position(b.pc[t], |b.owner|) <= Position(b'.pc[t], |b'.owner|)
    ensures DeliveryInv(b', deliveries)
  {
    forall d | d in deliveries ensures IsRight(b', d) { assert IsRight(b, d); }
  }

  lemma ProduceKeepsInv<T>(s: State<T>, e: Blocks.Event<T>)
    requires Inv(s) && Enabled(s, Produce(e))
    ensures Inv(Apply(s, Produce(e)))
  {
    Blocks.ApplyKeepsInv(s.blocks, e);
    ProduceFrame(s.blocks, e);
    DeliveryFrame(s.blocks, Blocks.Apply(s.blocks, e), s.deliveries);
  }

  lemma ProduceFrame<T>(b: Blocks.State<T>, e: Blocks.Event<T>)
    requires Blocks.WellFormed(b) && (e.Take? || e.Clear? || e.Link? || e.Construct?) && Blocks.Enabled(b, e)
    ensures var b' := Blocks.Apply(b, e); b'.items == b.items && b'.owner == b.owner && b'.got == b.got && b'.pc == b.pc
  {}

  lemma PublishKeepsInv<T>(s: State<T>)
    requires Inv(s) && Enabled(s, Publish)
    ensures Inv(Apply(s, Publish))
  {
    Blocks.ApplyKeepsInv(s.blocks, Blocks.Publish);
    Counters.ApplyKeepsInv(s.counters, Counters.Publish(|s.blocks.staged|));
    DeliveryFrame(s.blocks, Blocks.Apply(s.blocks, Blocks.Publish), s.deliveries);
  }

  lemma CallKeepsInv<T>(s: State<T>, t: Tid, max: nat)
    requires Inv(s) && Enabled(s, Call(t, max))
    ensures Inv(Apply(s, Call(t, max)))
  {
    Counters.ApplyKeepsInv(s.counters, Counters.Call(t, max));
  }

  /** What a step on the counters does to the indices. */
  lemma CountEffect(c: Counters.State, t: Tid)
    requires Counters.Inv(c) && t in c.pc
    ensures var c', n := Counters.Step(c, t), Granted(c, t);
      && Counters.Inv(c') && c'.tail == c.tail && c'.head == c.head + n <= c.tail && c'.pc == c.pc[t := c'.pc[t]]
      && c'.claims == (if c.pc[t].Advance? then c.claims + [Counters.Claim(t, c.head, n)] else c.claims)
      && (c.pc[t].Advance? ==> c'.pc[t] == Counters.Idle) && (c.pc[t].Idle? ==> c' == c)
  {
    Counters.ApplyKeepsInv(c, Counters.Run(t));
    Counters.HeadFits(Counters.Step(c, t));
  }

  lemma AgreeAfter(c: Counters.State, c': Counters.State, owner: seq<Tid>, t: Tid, n: nat)
    requires Agree(c, c.tail, owner) && c'.head == c.head + n && c'.claims == c.claims + [Counters.Claim(t, c.head, n)]
    ensures Agree(c', c'.tail, owner + seq(n, _ => t))
  {
    var owner' := owner + seq(n, _ => t);
    forall j, x | Counters.InClaim(c'.claims, j, x) ensures 0 <= x < |owner'| && owner'[x] == c'.claims[j].who {
      if j < |c.claims| { assert Counters.InClaim(c.claims, j, x); }
    }
  }

  lemma AgreeKept(c: Counters.State, c': Counters.State, owner: seq<Tid>, t: Tid)
    requires Agree(c, c.tail, owner) && Counters.Inv(c) && t in c.pc && c' == Counters.Step(c, t)
    ensures c'.tail == c.tail && Agree(c', c'.tail, owner + seq(Granted(c, t), _ => t))
  {
    var n := Granted(c, t);
    CountEffect(c, t);
    if c.pc[t].Advance? { AgreeAfter(c, c', owner, t, n); } else { assert owner + seq(n, _ => t) == owner; }
  }

  lemma ClaimedInv<T>(b: Blocks.State<T>, t: Tid, n: nat)
    requires Blocks.Inv(b) && t in b.pc && (n > 0 ==> b.pc[t] == Blocks.Idle && n <= |b.items| - |b.owner|)
    ensures Blocks.Inv(Claimed(b, t, n))
  {
    if n > 0 {
      assert Claimed(b, t, n) == Blocks.Apply(b, Blocks.Claim(t, n));
      Blocks.ApplyKeepsInv(b, Blocks.Claim(t, n));
    }
  }

  lemma ClaimedDeliveries<T>(b: Blocks.State<T>, t: Tid, n: nat, deliveries: seq<Delivery<T>>)
    requires DeliveryInv(b, deliveries) && t in b.pc && (n > 0 ==> b.pc[t] == Blocks.Idle)
    ensures var b' := Claimed(b, t, n);
      DeliveryInv(b', deliveries) && b'.items == b.items && b'.owner == b.owner + seq(n, _ => t)
  {
    if n > 0 { DeliveryFrame(b, Claimed(b, t, n), deliveries); } else { assert b.owner + seq(n, _ => t) == b.owner; }
  }

  lemma CountedApart<T>(s: State<T>, t: Tid)
    requires Counters.Inv(s.counters) && OneAtATime(s) && t in s.counters.pc
    ensures var c', n := Counters.Step(s.counters, t), Granted(s.counters, t);
      OneAtATime(s.(counters := c', blocks := Claimed(s.blocks, t, n))) && (n > 0 ==> s.blocks.pc[t] == Blocks.Idle)
  {
    CountEffect(s.counters, t);
  }

  lemma CountKeepsInv<T>(s: State<T>, t: Tid)
    requires Inv(s) && Enabled(s, Count(t))
    ensures Inv(Apply(s, Count(t)))
  {
    var c, b, n := s.counters, s.blocks, Granted(s.counters, t);
    CountEffect(c, t);
    CountedApart(s, t);
    AgreeKept(c, Counters.Step(c, t), b.owner, t);
    ClaimedDeliveries(b, t, n, s.deliveries);
    ClaimedInv(b, t, n);
  }

  /** A step that moves an element out. */
  lemma MovedIsRight<T>(b: Blocks.State<T>, t: Tid)
    requires Blocks.Inv(b) && t in b.pc && b.pc[t].Reading? && b.pc[t].i < b.pc[t].end
    ensures var i, b' := b.pc[t].i, Blocks.Step(b, t);
      && i < |b.items| && i < |b.owner| && b.owner[i] == t && i !in b.got && Moved(b, t) == [Delivery(t, i, b.items[i])]
      && b'.got == b.got[i := b.items[i]] && b'.owner == b.owner && b'.items == b.items
      && b'.pc == b.pc[t := b'.pc[t]] && Position(b'.pc[t], |b.owner|) == i + 1
  {
    Blocks.ReadGets(b, t);
    assert Blocks.ThreadInv(b, t, b.pc[t]);
  }

  /** Any other step of a consumer. */
  lemma NothingMoved<T>(b: Blocks.State<T>, t: Tid)
    requires Blocks.Inv(b) && t in b.pc && !(b.pc[t].Reading? && b.pc[t].i < b.pc[t].end)
    ensures var b' := Blocks.Step(b, t);
      && Moved(b, t) == [] && b'.got == b.got && b'.owner == b.owner && b'.items == b.items
      && b'.pc == b.pc[t := b'.pc[t]] && Position(b.pc[t], |b.owner|) <= Position(b'.pc[t], |b.owner|)
  {
    assert Blocks.ThreadInv(b, t, b.pc[t]) && Blocks.PcFits(b, b.pc[t]);
    if b.pc[t].At? { Blocks.LookUpFinds(b, t, b.pc[t].i, b.pc[t].hi); }
  }

  lemma OrderedMore<T>(ds: seq<Delivery<T>>, d: Delivery<T>)
    requires Ordered(ds) && forall e :: e in ds ==> e.index != d.index && (e.who == d.who ==> e.index < d.index)
    ensures Ordered(ds + [d])
  {
    var more := ds + [d];
    forall j, k | 0 <= j < k < |more|
      ensures more[j].index != more[k].index && (more[j].who == more[k].who ==> more[j].index < more[k].index)
    {
      assert more[j] in ds;
    }
  }

  lemma DeliveredMore<T>(ds: seq<Delivery<T>>, d: Delivery<T>, x: nat)
    requires x == d.index || Delivered(ds, x)
    ensures Delivered(ds + [d], x)
  {
    var more := ds + [d];
    if x == d.index { assert more[|ds|].index == x; } else {
      var j :| 0 <= j < |ds| && ds[j].index == x;
      assert more[j].index == x;
    }
  }

  lemma StillRight<T>(b: Blocks.State<T>, b': Blocks.State<T>, e: Delivery<T>, t: Tid, i: nat, x: T)
    requires IsRight(b, e) && t in b.pc && i !in b.got && Position(b.pc[t], |b.owner|) == i
    requires b'.got == b.got[i := x] && b'.owner == b.owner && t in b'.pc && b'.pc == b.pc[t := b'.pc[t]]
    requires Position(b'.pc[t], |b.owner|) == i + 1
    ensures IsRight(b', e) && e.index != i && (e.who == t ==> e.index < i)
  {}

  lemma RightMore<T>(b: Blocks.State<T>, b': Blocks.State<T>, ds: seq<Delivery<T>>, t: Tid, i: nat, x: T)
    requires AllRight(b, ds) && t in b.pc && i !in b.got
    requires Position(b.pc[t], |b.owner|) == i < |b.owner| && b.owner[i] == t
    requires b'.got == b.got[i := x] && b'.owner == b.owner && t in b'.pc && b'.pc == b.pc[t := b'.pc[t]]
    requires Position(b'.pc[t], |b.owner|) == i + 1
    ensures AllRight(b', ds + [Delivery(t, i, x)])
    ensures forall e :: e in ds ==> e.index != i && (e.who == t ==> e.index < i)
  {
    forall e | e in ds
      ensures IsRight(b', e) && e.index != i && (e.who == t ==> e.index < i)
    {
      StillRight(b, b', e, t, i, x);
    }
    assert IsRight(b', Delivery(t, i, x));
  }

  lemma CompleteMore<T>(b: Blocks.State<T>, b': Blocks.State<T>, ds: seq<Delivery<T>>, d: Delivery<T>)
    requires Complete(b, ds) && b'.got == b.got[d.index := d.value]
    ensures Complete(b', ds + [d])
  {
    forall y | y in b'.got ensures Delivered(ds + [d], y) { DeliveredMore(ds, d, y); }
  }

  lemma DeliveryMore<T>(b: Blocks.State<T>, b': Blocks.State<T>, ds: seq<Delivery<T>>, t: Tid, i: nat, x: T)
    requires DeliveryInv(b, ds) && t in b.pc && i !in b.got
    requires Position(b.pc[t], |b.owner|) == i < |b.owner| && b.owner[i] == t
    requires b'.got == b.got[i := x] && b'.owner == b.owner && t in b'.pc && b'.pc == b.pc[t := b'.pc[t]]
    requires Position(b'.pc[t], |b.owner|) == i + 1
    ensures DeliveryInv(b', ds + [Delivery(t, i, x)])
  {
    RightMore(b, b', ds, t, i, x);
    OrderedMore(ds, Delivery(t, i, x));
    CompleteMore(b, b', ds, Delivery(t, i, x));
  }

  lemma ReadDeliveries<T>(b: Blocks.State<T>, t: Tid, deliveries: seq<Delivery<T>>)
    requires Blocks.Inv(b) && t in b.pc && DeliveryInv(b, deliveries)
    ensures var b' := Blocks.Step(b, t);
      && DeliveryInv(b', deliveries + Moved(b, t)) && b'.items == b.items && b'.owner == b.owner
      && t in b'.pc && b'.pc == b.pc[t := b'.pc[t]] && (b.pc[t] == Blocks.Idle ==> b'.pc[t] == Blocks.Idle)
  {
    var b' := Blocks.Step(b, t);
    if b.pc[t].Reading? && b.pc[t].i < b.pc[t].end {
      MovedIsRight(b, t);
      DeliveryMore(b, b', deliveries, t, b.pc[t].i, b.items[b.pc[t].i]);
    } else {
      NothingMoved(b, t);
      DeliveryFrame(b, b', deliveries);
      assert deliveries + [] == deliveries;
    }
  }

  lemma ReadKeepsInv<T>(s: State<T>, t: Tid)
    requires Inv(s) && Enabled(s, Read(t))
    ensures Inv(Apply(s, Read(t)))
  {
    Blocks.ApplyKeepsInv(s.blocks, Blocks.Run(t));
    ReadDeliveries(s.blocks, t, s.deliveries);
  }

  lemma ApplyKeepsInv<T>(s: State<T>, e: Event<T>)
    requires Inv(s) && Enabled(s, e)
    ensures Inv(Apply(s, e))
  {
    match e
    case Produce(e) => ProduceKeepsInv(s, e);
    case Publish => PublishKeepsInv(s);
    case Call(t, max) => CallKeepsInv(s, t, max);
    case Count(t) => CountKeepsInv(s, t);
    case Read(t) => ReadKeepsInv(s, t);
  }

  lemma NextKeepsInv<T(!new)>(s: State<T>, s': State<T>)
    requires Inv(s) && Next(s, s')
    ensures Inv(s')
  {
    var e: Event<T> :| Enabled(s, e) && s' == Apply(s, e);
    ApplyKeepsInv(s, e);
  }

  lemma InitInv<T>(s: State<T>)
    requires Init(s)
    ensures Inv(s)
  {
    Blocks.InitInv(s.blocks);
  }

  lemma {:induction false} Reachable<T(!new)>(run: seq<State<T>>, i: nat)
    requires IsRun(run) && i < |run|
    ensures Inv(run[i])
  {
    if i == 0 {
      InitInv(run[0]);
    } else {
      Reachable(run, i - 1);
      assert StepAt(run, i - 1);
      NextKeepsInv(run[i - 1], run[i]);
    }
  }

  // ------------------------------------------------------------------------------------ theorems

  /** However producer and consumers interleave: every element is delivered at most once, as it was enqueued, to the
      consumer its index was handed to; each consumer gets its elements in the order they were enqueued; and no
      consumer ever meets a null block or an element already taken. */
  lemma DeliveredOnce<T(!new)>(run: seq<State<T>>, i: nat)
    requires IsRun(run) && i < |run|
    ensures var s := run[i]; var ds := s.deliveries;
      && s.counters.head <= s.counters.tail == |s.blocks.items|
      && (forall d :: d in ds ==>
            && d.index < s.counters.head && d.value == s.blocks.items[d.index]
            && Counters.HandedOut(s.counters.claims, d.index))
      && (forall d, j :: d in ds && Counters.InClaim(s.counters.claims, j, d.index) ==>
            s.counters.claims[j].who == d.who)
      && (forall j, k :: 0 <= j < k < |ds| ==>
            ds[j].index != ds[k].index && (ds[j].who == ds[k].who ==> ds[j].index < ds[k].index))
      && (forall t :: t in s.blocks.pc ==> !s.blocks.pc[t].Lost?)
  {
    var s := run[i];
    Reachable(run, i);
    Counters.HeadFits(s.counters);
    forall d | d in s.deliveries
      ensures IsRight(s.blocks, d) && d.index < s.counters.head && Counters.HandedOut(s.counters.claims, d.index)
    {
      assert IsRight(s.blocks, d);
      var j := Counters.TilesCover(s.counters.claims, s.counters.head, d.index);
    }
    forall t | t in s.blocks.pc ensures !s.blocks.pc[t].Lost? { assert Blocks.ThreadInv(s.blocks, t, s.blocks.pc[t]); }
  }

  /** With no call in progress exactly the elements below the head index have been delivered: nothing is lost. */
  lemma AllDelivered<T(!new)>(run: seq<State<T>>, i: nat, x: nat)
    requires IsRun(run) && i < |run| && forall t :: t in run[i].blocks.pc ==> run[i].blocks.pc[t] == Blocks.Idle
    ensures Delivered(run[i].deliveries, x) <==> x < run[i].counters.head
  {
    var s := run[i];
    Reachable(run, i);
    if x < s.counters.head {
      assert Blocks.IndexInv(s.blocks, x);
    }
    if j :| 0 <= j < |s.deliveries| && s.deliveries[j].index == x { assert IsRight(s.blocks, s.deliveries[j]); }
  }
}
