/**
 The bounded multi-producer multi-consumer queue as a step system: any number of threads run `push`,
 `try_push`, `pop`, `try_pop` and `size` concurrently, and every atomic access, construction, move
 or destruction is one step. A push or pop owns a ticket; the slot `ticket % capacity` carries a turn
 counter that says which ticket may use it next.

 `pushedBy`, `poppedBy`, `pushed` and `popped` are history: who took each ticket, and the value
 pushed or delivered under it. The flag in a `Reload` program counter is history too.
 */
module MpmcQueue {
  import opened Wrappers
  import Arithmetic

  type Tid = nat

  datatype Pc<T> =
    | Idle
    | PushTicket(v: T)                              // push: fetch_add on the head
    | PushWait(v: T, n: nat)                        //   spin on the slot's turn
    | Construct(v: T, n: nat)                       //   construct in the slot
    | PublishPush(n: nat)                           //   store the odd turn
    | TryPushLoad(v: T)                             // try_push: load the head
    | TryPushCheck(v: T, n: nat)                    //   load the slot's turn
    | TryPushCas(v: T, n: nat)                      //   compare-exchange of the head
    | TryPushReload(v: T, n: nat, justified: bool)  //   load the head again
    | PopTicket                                     // pop: fetch_add on the tail
    | PopWait(n: nat)
    | Move(n: nat)                                  //   move the value out
    | Destroy(n: nat, v: T)                         //   destroy what is left in the slot
    | PublishPop(n: nat, v: T)                      //   store the even turn
    | TryPopLoad                                    // try_pop: load the tail
    | TryPopCheck(n: nat)
    | TryPopCas(n: nat)
    | TryPopReload(n: nat, justified: bool)
    | SizeHead                                      // size: load the head first,
    | SizeThenTail(h: nat)                          //   then the tail; or,
    | SizeTail                                      //   the order being open, load the tail first,
    | SizeThenHead(l: nat)                          //   then the head

  datatype State<T> = State(
    capacity: nat,
    head: nat,
    tail: nat,
    turn: seq<nat>,
    store: seq<Option<T>>,
    pc: map<Tid, Pc<T>>,
    pushedBy: seq<Tid>,
    poppedBy: seq<Tid>,
    pushed: seq<T>,
    popped: map<nat, T>)

  // ------------------------------------------------------------------------ slots and turns

  function Slot(n: nat, capacity: nat): (i: nat)
    requires capacity > 0
    ensures i < capacity
  {
    n % capacity
  }

  function Round(n: nat, capacity: nat): nat
    requires capacity > 0
  {
    n / capacity
  }

  lemma SameTicket(n: nat, m: nat, capacity: nat)
    requires capacity > 0 && Slot(n, capacity) == Slot(m, capacity) && Round(n, capacity) == Round(m, capacity)
    ensures n == m
  {
    assert n == Round(n, capacity) * capacity + Slot(n, capacity);
    assert m == Round(m, capacity) * capacity + Slot(m, capacity);
  }

  lemma NextRound(n: nat, capacity: nat)
    requires capacity > 0
    ensures Slot(n + capacity, capacity) == Slot(n, capacity) && Round(n + capacity, capacity) == Round(n, capacity) + 1
  {
    Arithmetic.AddMultiple(n, 1, capacity);
  }

  predicate Shape<T>(s: State<T>) {
    && s.capacity > 0 && |s.turn| == s.capacity && |s.store| == s.capacity
    && |s.pushedBy| == |s.pushed| == s.head && |s.poppedBy| == s.tail
  }

  function TurnOf<T>(s: State<T>, n: nat): nat
    requires Shape(s)
  {
    s.turn[Slot(n, s.capacity)]
  }

  /** The push with ticket `n` has been published. */
  predicate Published<T>(s: State<T>, n: nat)
    requires Shape(s)
  {
    TurnOf(s, n) >= Round(n, s.capacity) * 2 + 1
  }

  /** The pop with ticket `n` has finished with the slot. */
  predicate Consumed<T>(s: State<T>, n: nat)
    requires Shape(s)
  {
    TurnOf(s, n) >= Round(n, s.capacity) * 2 + 2
  }

  // ---------------------------------------------------------------------------------- steps

  predicate Init<T>(s: State<T>) {
    && Shape(s) && s.head == 0 && s.tail == 0 && s.popped == map[]
    && (forall i :: 0 <= i < s.capacity ==> s.turn[i] == 0 && s.store[i] == None)
    && forall t :: t in s.pc ==> s.pc[t] == Idle
  }

  function Goto<T>(s: State<T>, t: Tid, pc: Pc<T>): State<T> { s.(pc := s.pc[t := pc]) }

  function SetTurn<T>(s: State<T>, n: nat, turn: nat): State<T>
    requires Shape(s)
  {
    s.(turn := s.turn[Slot(n, s.capacity) := turn])
  }

  function SetStore<T>(s: State<T>, n: nat, x: Option<T>): State<T>
    requires Shape(s)
  {
    s.(store := s.store[Slot(n, s.capacity) := x])
  }

  function TakePush<T>(s: State<T>, t: Tid, v: T): State<T> {
    s.(head := s.head + 1, pushedBy := s.pushedBy + [t], pushed := s.pushed + [v])
  }

  function TakePop<T>(s: State<T>, t: Tid): State<T> {
    s.(tail := s.tail + 1, poppedBy := s.poppedBy + [t])
  }

  ghost function StepPush<T>(s: State<T>, t: Tid): State<T>
    requires Shape(s) && t in s.pc
  {
    match s.pc[t]
    case PushTicket(v) => Goto(TakePush(s, t, v), t, PushWait(v, s.head))
    case PushWait(v, n) =>
      if Round(n, s.capacity) * 2 == TurnOf(s, n) then Goto(s, t, Construct(v, n)) else s
    case Construct(v, n) => Goto(SetStore(s, n, Some(v)), t, PublishPush(n))
    case PublishPush(n) => Goto(SetTurn(s, n, Round(n, s.capacity) * 2 + 1), t, Idle)
    case TryPushLoad(v) => Goto(s, t, TryPushCheck(v, s.head))
    case TryPushCheck(v, n) =>
      if Round(n, s.capacity) * 2 == TurnOf(s, n) then Goto(s, t, TryPushCas(v, n))
      else Goto(s, t, TryPushReload(v, n, s.head == n && n >= s.capacity && !Consumed(s, n - s.capacity)))
    case TryPushCas(v, n) =>
      if s.head == n then Goto(TakePush(s, t, v), t, Construct(v, n)) else Goto(s, t, TryPushCheck(v, s.head))
    case TryPushReload(v, n, _) =>
      if s.head == n then Goto(s, t, Idle) else Goto(s, t, TryPushCheck(v, s.head))
    case _ => s
  }

  ghost function StepPop<T>(s: State<T>, t: Tid): State<T>
    requires Shape(s) && t in s.pc
  {
    match s.pc[t]
    case PopTicket => Goto(TakePop(s, t), t, PopWait(s.tail))
    case PopWait(n) =>
      if Round(n, s.capacity) * 2 + 1 == TurnOf(s, n) then Goto(s, t, Move(n)) else s
    case Move(n) =>
      var x := s.store[Slot(n, s.capacity)];
      if x.Some? then Goto(s, t, Destroy(n, x.value)) else s
    case Destroy(n, v) => Goto(SetStore(s, n, None), t, PublishPop(n, v))
    case PublishPop(n, v) =>
      Goto(SetTurn(s, n, Round(n, s.capacity) * 2 + 2).(popped := s.popped[n := v]), t, Idle)
    case TryPopLoad => Goto(s, t, TryPopCheck(s.tail))
    case TryPopCheck(n) =>
      if Round(n, s.capacity) * 2 + 1 == TurnOf(s, n) then Goto(s, t, TryPopCas(n))
      else Goto(s, t, TryPopReload(n, s.tail == n && !Published(s, n)))
    case TryPopCas(n) =>
      if s.tail == n then Goto(TakePop(s, t), t, Move(n)) else Goto(s, t, TryPopCheck(s.tail))
    case TryPopReload(n, _) =>
      if s.tail == n then Goto(s, t, Idle) else Goto(s, t, TryPopCheck(s.tail))
    case _ => s
  }

  /** The two loads of `size`; it returns after the second. */
  ghost function StepSize<T>(s: State<T>, t: Tid): State<T>
    requires t in s.pc
  {
    match s.pc[t]
    case SizeHead => Goto(s, t, SizeThenTail(s.head))
    case SizeThenTail(_) => Goto(s, t, Idle)
    case SizeTail => Goto(s, t, SizeThenHead(s.tail))
    case SizeThenHead(_) => Goto(s, t, Idle)
    case _ => s
  }

  predicate Starts<T>(pc: Pc<T>) {
    pc.PushTicket? || pc.TryPushLoad? || pc.PopTicket? || pc.TryPopLoad? || pc.SizeHead? || pc.SizeTail?
  }

  datatype Event<T> = Call(t: Tid, pc: Pc<T>) | RunPush(t: Tid) | RunPop(t: Tid) | RunSize(t: Tid)

  ghost predicate Enabled<T>(s: State<T>, e: Event<T>) {
    && e.t in s.pc
    && (e.Call? ==> s.pc[e.t] == Idle && Starts(e.pc))
  }

  ghost function Apply<T>(s: State<T>, e: Event<T>): State<T>
    requires Shape(s) && Enabled(s, e)
  {
    match e
    case Call(t, pc) => Goto(s, t, pc)
    case RunPush(t) => StepPush(s, t)
    case RunPop(t) => StepPop(s, t)
    case RunSize(t) => StepSize(s, t)
  }

  ghost predicate Next<T(!new)>(s: State<T>, s': State<T>) {
    Shape(s) && exists e: Event<T> :: Enabled(s, e) && s' == Apply(s, e)
  }

  ghost predicate StepAt<T(!new)>(run: seq<State<T>>, i: nat) { i + 1 < |run| && Next(run[i], run[i + 1]) }

  /** A run of the system: any interleaving of any number of calls. */
  ghost predicate IsRun<T(!new)>(run: seq<State<T>>) {
    && |run| > 0
    && Init(run[0])
    && forall i: nat :: i + 1 < |run| ==> StepAt(run, i)
  }

  // ------------------------------------------------------------------------------ invariant

  /** The thread remembers a ticket number, its own or one it has seen. */
  predicate HasNumber<T>(pc: Pc<T>) {
    || pc.PushWait? || pc.Construct? || pc.PublishPush? || pc.TryPushCheck? || pc.TryPushCas? || pc.TryPushReload?
    || pc.PopWait? || pc.Move? || pc.Destroy? || pc.PublishPop? || pc.TryPopCheck? || pc.TryPopCas? || pc.TryPopReload?
  }

  predicate Pushing<T>(pc: Pc<T>, n: nat) {
    (pc.PushWait? || pc.Construct? || pc.PublishPush?) && pc.n == n
  }

  predicate Popping<T>(pc: Pc<T>, n: nat) {
    (pc.PopWait? || pc.Move? || pc.Destroy? || pc.PublishPop?) && pc.n == n
  }

  /** The slot's turn has come for the push with ticket `n`, which is not published yet. */
  predicate Vacant<T>(s: State<T>, n: nat)
    requires Shape(s)
  {
    TurnOf(s, n) == Round(n, s.capacity) * 2
  }

  /** The slot holds the value of ticket `n`, not yet consumed. */
  predicate Full<T>(s: State<T>, n: nat)
    requires Shape(s)
  {
    TurnOf(s, n) == Round(n, s.capacity) * 2 + 1
  }

  function PusherPc<T>(s: State<T>, n: nat): Pc<T>
    requires Shape(s)
  {
    if n < s.head && s.pushedBy[n] in s.pc then s.pc[s.pushedBy[n]] else Idle
  }

  function PopperPc<T>(s: State<T>, n: nat): Pc<T>
    requires Shape(s)
  {
    if n < s.tail && s.poppedBy[n] in s.pc then s.pc[s.poppedBy[n]] else Idle
  }

  ghost predicate TicketInv<T>(s: State<T>, n: nat)
    requires Shape(s)
  {
    && (Published(s, n) ==> n < s.head)
    && (Consumed(s, n) ==> n < s.tail && n in s.popped && s.popped[n] == s.pushed[n])
    && (n in s.popped ==> Consumed(s, n))
    && (n < s.head && !Published(s, n) ==> Pushing(PusherPc(s, n), n))
    && (n < s.tail && !Consumed(s, n) ==> Popping(PopperPc(s, n), n))
    && (Vacant(s, n) ==>
          s.store[Slot(n, s.capacity)] == if PusherPc(s, n) == PublishPush(n) then Some(s.pushed[n]) else None)
    && (Full(s, n) ==>
          var pc := PopperPc(s, n);
          s.store[Slot(n, s.capacity)] == if pc.PublishPop? && pc.n == n then None else Some(s.pushed[n]))
  }

  ghost predicate ThreadInv<T>(s: State<T>, t: Tid)
    requires Shape(s) && t in s.pc
  {
    match s.pc[t]
    case PushWait(v, n) => n < s.head && s.pushedBy[n] == t && s.pushed[n] == v && !Published(s, n)
    case Construct(v, n) => n < s.head && s.pushedBy[n] == t && s.pushed[n] == v && Vacant(s, n)
    case PublishPush(n) => n < s.head && s.pushedBy[n] == t && Vacant(s, n)
    case TryPushCheck(_, n) => n <= s.head
    case TryPushCas(_, n) => n <= s.head && TurnOf(s, n) >= Round(n, s.capacity) * 2
    case TryPushReload(_, n, justified) => n <= s.head && (s.head == n ==> justified)
    case PopWait(n) => n < s.tail && s.poppedBy[n] == t && !Consumed(s, n)
    case Move(n) => n < s.tail && s.poppedBy[n] == t && Full(s, n)
    case Destroy(n, v) =>
      n < s.tail && s.poppedBy[n] == t && Full(s, n) && Published(s, n) && n < s.head && s.pushed[n] == v
    case PublishPop(n, v) =>
      n < s.tail && s.poppedBy[n] == t && Full(s, n) && Published(s, n) && n < s.head && s.pushed[n] == v
    case TryPopCheck(n) => n <= s.tail
    case TryPopCas(n) => n <= s.tail && Published(s, n)
    case TryPopReload(n, justified) => n <= s.tail && (s.tail == n ==> justified)
    case SizeThenTail(h) => h <= s.head
    case SizeThenHead(l) => l <= s.tail
    case _ => true
  }

  ghost predicate Inv<T>(s: State<T>) {
    && Shape(s)
    && (forall n: nat :: TicketInv(s, n))
    && (forall t :: t in s.pc ==> ThreadInv(s, t))
  }

  // ------------------------------------------------------------------------- preservation

  /** Steps that only move a thread which owns no ticket before or after. */
  predicate Loose<T>(pc: Pc<T>) {
    pc.Idle? || pc.PushTicket? || pc.TryPushLoad? || pc.TryPushCheck? || pc.TryPushCas? || pc.TryPushReload?
    || pc.PopTicket? || pc.TryPopLoad? || pc.TryPopCheck? || pc.TryPopCas? || pc.TryPopReload?
    || pc.SizeHead? || pc.SizeThenTail? || pc.SizeTail? || pc.SizeThenHead?
  }

  lemma LooseTicket<T>(s: State<T>, t: Tid, pc: Pc<T>, m: nat)
    requires Shape(s) && t in s.pc && Loose(s.pc[t]) && Loose(pc) && TicketInv(s, m)
    ensures TicketInv(Goto(s, t, pc), m)
  {
    var s' := Goto(s, t, pc);
    assert TurnOf(s', m) == TurnOf(s, m);
    assert PusherPc(s', m) == PusherPc(s, m) || (Loose(PusherPc(s', m)) && Loose(PusherPc(s, m)));
    assert PopperPc(s', m) == PopperPc(s, m) || (Loose(PopperPc(s', m)) && Loose(PopperPc(s, m)));
  }

  lemma LooseThread<T>(s: State<T>, t: Tid, pc: Pc<T>, u: Tid)
    requires Shape(s) && t in s.pc && u in s.pc && u != t && ThreadInv(s, u)
    ensures ThreadInv(Goto(s, t, pc), u)
  {}

  lemma LooseKeepsInv<T>(s: State<T>, t: Tid, pc: Pc<T>)
    requires Inv(s) && t in s.pc && Loose(s.pc[t]) && Loose(pc) && ThreadInv(Goto(s, t, pc), t)
    ensures Inv(Goto(s, t, pc))
  {
    var s' := Goto(s, t, pc);
    forall m: nat ensures TicketInv(s', m) { LooseTicket(s, t, pc, m); }
    forall u | u in s'.pc ensures ThreadInv(s', u) { if u != t { LooseThread(s, t, pc, u); } }
  }

  /** A push obtains the next ticket, by fetch_add or compare-exchange. */
  lemma TakePushTicket<T>(s: State<T>, t: Tid, v: T, pc: Pc<T>, m: nat)
    requires Shape(s) && t in s.pc && Loose(s.pc[t]) && TicketInv(s, m)
    requires pc == PushWait(v, s.head) || pc == Construct(v, s.head)
    ensures Shape(TakePush(s, t, v)) && TicketInv(Goto(TakePush(s, t, v), t, pc), m)
  {
    var s' := Goto(TakePush(s, t, v), t, pc);
    assert m < s.head ==> s'.pushed[m] == s.pushed[m] && s'.pushedBy[m] == s.pushedBy[m];
  }

  lemma TakePushThread<T>(s: State<T>, t: Tid, v: T, pc: Pc<T>, u: Tid)
    requires Shape(s) && t in s.pc && u in s.pc && u != t && ThreadInv(s, u)
    ensures Shape(TakePush(s, t, v)) && ThreadInv(Goto(TakePush(s, t, v), t, pc), u)
  {}

  lemma TakePushKeepsInv<T>(s: State<T>, t: Tid, v: T, pc: Pc<T>)
    requires Inv(s) && t in s.pc && Loose(s.pc[t])
    requires || pc == PushWait(v, s.head)
             || (pc == Construct(v, s.head) && TurnOf(s, s.head) >= Round(s.head, s.capacity) * 2)
    ensures Inv(Goto(TakePush(s, t, v), t, pc))
  {
    var s' := Goto(TakePush(s, t, v), t, pc);
    assert TicketInv(s, s.head);
    forall m: nat ensures TicketInv(s', m) { TakePushTicket(s, t, v, pc, m); }
    forall u | u in s'.pc ensures ThreadInv(s', u) { if u != t { TakePushThread(s, t, v, pc, u); } }
  }

  lemma TakePopTicket<T>(s: State<T>, t: Tid, pc: Pc<T>, m: nat)
    requires Shape(s) && t in s.pc && Loose(s.pc[t]) && TicketInv(s, m)
    requires pc == PopWait(s.tail) || pc == Move(s.tail)
    ensures TicketInv(Goto(TakePop(s, t), t, pc), m)
  {
    var s' := Goto(TakePop(s, t), t, pc);
    assert m < s.tail ==> s'.poppedBy[m] == s.poppedBy[m];
  }

  lemma TakePopThread<T>(s: State<T>, t: Tid, pc: Pc<T>, u: Tid)
    requires Shape(s) && t in s.pc && u in s.pc && u != t && ThreadInv(s, u)
    ensures ThreadInv(Goto(TakePop(s, t), t, pc), u)
  {}

  lemma TakePopKeepsInv<T>(s: State<T>, t: Tid, pc: Pc<T>)
    requires Inv(s) && t in s.pc && Loose(s.pc[t])
    requires pc == PopWait(s.tail) || (pc == Move(s.tail) && Published(s, s.tail))
    ensures Inv(Goto(TakePop(s, t), t, pc))
  {
    var s' := Goto(TakePop(s, t), t, pc);
    assert TicketInv(s, s.tail);
    forall m: nat ensures TicketInv(s', m) { TakePopTicket(s, t, pc, m); }
    forall u | u in s'.pc ensures ThreadInv(s', u) { if u != t { TakePopThread(s, t, pc, u); } }
  }

  /** A thread with a ticket moves on without touching the slot. */
  ghost predicate MovesOn<T>(pc: Pc<T>, pc': Pc<T>) {
    || (pc.PushWait? && pc' == Construct(pc.v, pc.n))
    || (pc.PopWait? && pc' == Move(pc.n))
    || (pc.Move? && pc'.Destroy? && pc'.n == pc.n)
  }

  lemma MovesOnTicket<T>(s: State<T>, t: Tid, pc: Pc<T>, m: nat)
    requires Shape(s) && t in s.pc && MovesOn(s.pc[t], pc) && TicketInv(s, m)
    ensures TicketInv(Goto(s, t, pc), m)
  {}

  lemma MovesOnKeepsInv<T>(s: State<T>, t: Tid, pc: Pc<T>)
    requires Inv(s) && t in s.pc && MovesOn(s.pc[t], pc) && ThreadInv(Goto(s, t, pc), t)
    ensures Inv(Goto(s, t, pc))
  {
    var s' := Goto(s, t, pc);
    forall m: nat ensures TicketInv(s', m) { MovesOnTicket(s, t, pc, m); }
    forall u | u in s'.pc ensures ThreadInv(s', u) { if u != t { LooseThread(s, t, pc, u); } }
  }

  /** Tickets that are at work in one slot at the same time are the same ticket. */
  lemma OneAtWork<T>(s: State<T>, n: nat, m: nat)
    requires Shape(s) && Slot(n, s.capacity) == Slot(m, s.capacity)
    requires (Vacant(s, n) && Vacant(s, m)) || (Full(s, n) && Full(s, m))
    ensures n == m
  {
    SameTicket(n, m, s.capacity);
  }

  lemma ConstructTicket<T>(s: State<T>, t: Tid, m: nat)
    requires Shape(s) && t in s.pc && s.pc[t].Construct? && ThreadInv(s, t) && TicketInv(s, m)
    ensures TicketInv(StepPush(s, t), m)
  {
    var n := s.pc[t].n;
    if Slot(n, s.capacity) == Slot(m, s.capacity) && Vacant(s, m) { OneAtWork(s, n, m); }
  }

  lemma DestroyTicket<T>(s: State<T>, t: Tid, m: nat)
    requires Shape(s) && t in s.pc && s.pc[t].Destroy? && ThreadInv(s, t) && TicketInv(s, m)
    ensures TicketInv(StepPop(s, t), m)
  {
    var n := s.pc[t].n;
    if Slot(n, s.capacity) == Slot(m, s.capacity) && Full(s, m) { OneAtWork(s, n, m); }
  }

  lemma StoreThread<T>(s: State<T>, t: Tid, n: nat, x: Option<T>, pc: Pc<T>, u: Tid)
    requires Shape(s) && t in s.pc && u in s.pc && u != t && ThreadInv(s, u)
    ensures Shape(SetStore(s, n, x)) && ThreadInv(Goto(SetStore(s, n, x), t, pc), u)
  {}

  lemma ConstructKeepsInv<T>(s: State<T>, t: Tid)
    requires Inv(s) && t in s.pc && s.pc[t].Construct?
    ensures Inv(StepPush(s, t))
  {
    var s' := StepPush(s, t);
    assert ThreadInv(s, t);
    forall m: nat ensures TicketInv(s', m) { ConstructTicket(s, t, m); }
    forall u | u in s'.pc ensures ThreadInv(s', u) {
      if u != t { StoreThread(s, t, s.pc[t].n, Some(s.pc[t].v), s'.pc[t], u); }
    }
  }

  lemma DestroyKeepsInv<T>(s: State<T>, t: Tid)
    requires Inv(s) && t in s.pc && s.pc[t].Destroy?
    ensures Inv(StepPop(s, t))
  {
    var s' := StepPop(s, t);
    assert ThreadInv(s, t);
    forall m: nat ensures TicketInv(s', m) { DestroyTicket(s, t, m); }
    forall u | u in s'.pc ensures ThreadInv(s', u) {
      if u != t { StoreThread(s, t, s.pc[t].n, None, s'.pc[t], u); }
    }
  }

  lemma PublishPushTicket<T>(s: State<T>, t: Tid, m: nat)
    requires Shape(s) && t in s.pc && s.pc[t].PublishPush? && ThreadInv(s, t) && TicketInv(s, m)
    requires m < s.tail && s.poppedBy[m] in s.pc ==> ThreadInv(s, s.poppedBy[m])
    ensures TicketInv(StepPush(s, t), m)
  {
    var n := s.pc[t].n;
    if Slot(n, s.capacity) == Slot(m, s.capacity) && Round(n, s.capacity) == Round(m, s.capacity) {
      SameTicket(n, m, s.capacity);
    }
  }

  lemma PublishPushThread<T>(s: State<T>, t: Tid, u: Tid)
    requires Shape(s) && t in s.pc && s.pc[t].PublishPush? && ThreadInv(s, t)
    requires u in s.pc && u != t && ThreadInv(s, u)
    ensures ThreadInv(StepPush(s, t), u)
  {
    var n := s.pc[t].n;
    if HasNumber(s.pc[u]) {
      var m := s.pc[u].n;
      if Slot(n, s.capacity) == Slot(m, s.capacity) && Round(n, s.capacity) == Round(m, s.capacity) {
        SameTicket(n, m, s.capacity);
      }
    }
  }

  lemma PublishPushKeepsInv<T>(s: State<T>, t: Tid)
    requires Inv(s) && t in s.pc && s.pc[t].PublishPush?
    ensures Inv(StepPush(s, t))
  {
    var s' := StepPush(s, t);
    assert ThreadInv(s, t);
    forall m: nat ensures TicketInv(s', m) { PublishPushTicket(s, t, m); }
    forall u | u in s'.pc ensures ThreadInv(s', u) { if u != t { PublishPushThread(s, t, u); } }
  }

  lemma PublishPopTicket<T>(s: State<T>, t: Tid, m: nat)
    requires Shape(s) && t in s.pc && s.pc[t].PublishPop? && ThreadInv(s, t) && TicketInv(s, s.pc[t].n)
    requires TicketInv(s, m)
    requires m < s.head && s.pushedBy[m] in s.pc ==> ThreadInv(s, s.pushedBy[m])
    ensures TicketInv(StepPop(s, t), m)
  {
    var n := s.pc[t].n;
    if Slot(n, s.capacity) == Slot(m, s.capacity) && Round(n, s.capacity) == Round(m, s.capacity) {
      SameTicket(n, m, s.capacity);
    }
  }

  lemma PublishPopThread<T>(s: State<T>, t: Tid, u: Tid)
    requires Shape(s) && t in s.pc && s.pc[t].PublishPop? && ThreadInv(s, t)
    requires u in s.pc && u != t && ThreadInv(s, u)
    ensures ThreadInv(StepPop(s, t), u)
  {
    var n := s.pc[t].n;
    if HasNumber(s.pc[u]) {
      var m := s.pc[u].n;
      if Slot(n, s.capacity) == Slot(m, s.capacity) && Round(n, s.capacity) == Round(m, s.capacity) {
        SameTicket(n, m, s.capacity);
      }
    }
  }

  lemma PublishPopKeepsInv<T>(s: State<T>, t: Tid)
    requires Inv(s) && t in s.pc && s.pc[t].PublishPop?
    ensures Inv(StepPop(s, t))
  {
    var s' := StepPop(s, t);
    assert ThreadInv(s, t) && TicketInv(s, s.pc[t].n);
    forall m: nat ensures TicketInv(s', m) { PublishPopTicket(s, t, m); }
    forall u | u in s'.pc ensures ThreadInv(s', u) { if u != t { PublishPopThread(s, t, u); } }
  }

  /** If the head has not moved, a slot that is not ready means the pop one round earlier is unfinished. */
  lemma PushRefused<T>(s: State<T>, n: nat)
    requires Shape(s) && TicketInv(s, n) && s.head == n && TurnOf(s, n) != Round(n, s.capacity) * 2
    ensures n >= s.capacity && !Consumed(s, n - s.capacity)
  {
    if n < s.capacity {
      Arithmetic.DivMod(n, s.capacity, 0, n);
    } else {
      NextRound(n - s.capacity, s.capacity);
    }
  }

  lemma StepPushKeepsInv<T>(s: State<T>, t: Tid)
    requires Inv(s) && t in s.pc
    ensures Inv(StepPush(s, t))
  {
    assert ThreadInv(s, t);
    match s.pc[t]
    case PushTicket(v) => TakePushKeepsInv(s, t, v, PushWait(v, s.head));
    case PushWait(v, n) => if Vacant(s, n) { MovesOnKeepsInv(s, t, Construct(v, n)); }
    case Construct(v, n) => ConstructKeepsInv(s, t);
    case PublishPush(n) => PublishPushKeepsInv(s, t);
    case TryPushLoad(v) => LooseKeepsInv(s, t, TryPushCheck(v, s.head));
    case TryPushCheck(v, n) =>
      assert TicketInv(s, n);
      if !Vacant(s, n) && s.head == n { PushRefused(s, n); }
      LooseKeepsInv(s, t, StepPush(s, t).pc[t]);
    case TryPushCas(v, n) =>
      if s.head == n { TakePushKeepsInv(s, t, v, Construct(v, n)); }
      else { LooseKeepsInv(s, t, TryPushCheck(v, s.head)); }
    case TryPushReload(v, n, _) => LooseKeepsInv(s, t, StepPush(s, t).pc[t]);
    case _ =>
  }

  lemma StepPopKeepsInv<T>(s: State<T>, t: Tid)
    requires Inv(s) && t in s.pc
    ensures Inv(StepPop(s, t))
  {
    assert ThreadInv(s, t);
    match s.pc[t]
    case PopTicket => TakePopKeepsInv(s, t, PopWait(s.tail));
    case PopWait(n) => if Full(s, n) { MovesOnKeepsInv(s, t, Move(n)); }
    case Move(n) =>
      assert TicketInv(s, n);
      MovesOnKeepsInv(s, t, Destroy(n, s.pushed[n]));
    case Destroy(n, v) => DestroyKeepsInv(s, t);
    case PublishPop(n, v) => PublishPopKeepsInv(s, t);
    case _ => TryPopKeepsInv(s, t);
  }

  lemma TryPopKeepsInv<T>(s: State<T>, t: Tid)
    requires Inv(s) && t in s.pc
    requires !(s.pc[t].PopTicket? || s.pc[t].PopWait? || s.pc[t].Move? || s.pc[t].Destroy? || s.pc[t].PublishPop?)
    ensures Inv(StepPop(s, t))
  {
    assert ThreadInv(s, t);
    match s.pc[t]
    case TryPopLoad => LooseKeepsInv(s, t, TryPopCheck(s.tail));
    case TryPopCheck(n) =>
      assert TicketInv(s, n);
      LooseKeepsInv(s, t, StepPop(s, t).pc[t]);
    case TryPopCas(n) =>
      if s.tail == n { TakePopKeepsInv(s, t, Move(n)); }
      else { LooseKeepsInv(s, t, TryPopCheck(s.tail)); }
    case TryPopReload(n, _) => LooseKeepsInv(s, t, StepPop(s, t).pc[t]);
    case _ =>
  }

  lemma StepSizeKeepsInv<T>(s: State<T>, t: Tid)
    requires Inv(s) && t in s.pc
    ensures Inv(StepSize(s, t))
  {
    var pc := s.pc[t];
    if pc.SizeHead? || pc.SizeThenTail? || pc.SizeTail? || pc.SizeThenHead? {
      LooseKeepsInv(s, t, StepSize(s, t).pc[t]);
    }
  }

  lemma {:induction false} Reachable<T(!new)>(run: seq<State<T>>, i: nat)
    requires IsRun(run) && i < |run|
    ensures Inv(run[i])
  {
    if i > 0 {
      Reachable(run, i - 1);
      assert StepAt(run, i - 1);
      NextKeepsInv(run[i - 1], run[i]);
    }
  }

  lemma NextKeepsInv<T(!new)>(s: State<T>, s': State<T>)
    requires Inv(s) && Next(s, s')
    ensures Inv(s')
  {
    var e: Event<T> :| Enabled(s, e) && s' == Apply(s, e);
    match e
    case Call(t, pc) => LooseKeepsInv(s, t, pc);
    case RunPush(t) => StepPushKeepsInv(s, t);
    case RunPop(t) => StepPopKeepsInv(s, t);
    case RunSize(t) => StepSizeKeepsInv(s, t);
  }

  // ------------------------------------------------------------------------------ theorems

  lemma TicketAt<T(!new)>(run: seq<State<T>>, i: nat, n: nat)
    requires IsRun(run) && i < |run|
    ensures Shape(run[i]) && TicketInv(run[i], n)
  {
    Reachable(run, i);
  }

  lemma ThreadAt<T(!new)>(run: seq<State<T>>, i: nat, t: Tid)
    requires IsRun(run) && i < |run| && t in run[i].pc
    ensures Shape(run[i]) && ThreadInv(run[i], t)
  {
    Reachable(run, i);
  }

  /** The thread is inside the slot of its ticket: constructing, or moving the value out. */
  predicate AtWork<T>(pc: Pc<T>) {
    pc.Construct? || pc.PublishPush? || pc.Move? || pc.Destroy? || pc.PublishPop?
  }

  /** No two threads are ever inside one slot. */
  lemma SlotExclusion<T(!new)>(run: seq<State<T>>, i: nat, t: Tid, u: Tid)
    requires IsRun(run) && i < |run| && t in run[i].pc && u in run[i].pc && t != u
    requires AtWork(run[i].pc[t]) && AtWork(run[i].pc[u])
    ensures Shape(run[i]) && Slot(run[i].pc[t].n, run[i].capacity) != Slot(run[i].pc[u].n, run[i].capacity)
  {
    ThreadAt(run, i, t);
    ThreadAt(run, i, u);
    var s := run[i];
    if Slot(s.pc[t].n, s.capacity) == Slot(s.pc[u].n, s.capacity) {
      OneAtWork(s, s.pc[t].n, s.pc[u].n);
    }
  }

  /** Whatever was delivered under ticket `n` is what was pushed under ticket `n`; a delivered ticket has no
      thread left that could deliver it again, and a thread about to deliver holds the value pushed. */
  lemma TicketFifo<T(!new)>(run: seq<State<T>>, i: nat, n: nat)
    requires IsRun(run) && i < |run|
    ensures var s := run[i];
      && Shape(s)
      && (n in s.popped ==> n < s.head && n < s.tail && s.popped[n] == s.pushed[n])
      && (n in s.popped ==> forall t :: t in s.pc ==> !Popping(s.pc[t], n) && !Pushing(s.pc[t], n))
      && (forall t, u :: t in s.pc && u in s.pc && Popping(s.pc[t], n) && Popping(s.pc[u], n) ==> t == u)
      && (forall t :: t in s.pc && (s.pc[t].Destroy? || s.pc[t].PublishPop?) && s.pc[t].n == n ==>
            n < s.head && s.pc[t].v == s.pushed[n])
  {
    var s := run[i];
    TicketAt(run, i, n);
    forall t | t in s.pc ensures ThreadInv(s, t) { ThreadAt(run, i, t); }
  }

  lemma EventAt<T(!new)>(run: seq<State<T>>, i: nat) returns (e: Event<T>)
    requires IsRun(run) && 0 < i < |run|
    ensures Shape(run[i - 1]) && Enabled(run[i - 1], e) && run[i] == Apply(run[i - 1], e)
  {
    assert StepAt(run, i - 1);
    e :| Enabled(run[i - 1], e) && run[i] == Apply(run[i - 1], e);
  }

  /** How a thread gets to a justified failure: it was there, or it just looked at the slot. */
  lemma PushFailureFrom<T>(s: State<T>, e: Event<T>, t: Tid)
    requires Shape(s) && Enabled(s, e) && t in s.pc
    ensures var pc, pc' := s.pc[t], Apply(s, e).pc[t];
      pc'.TryPushReload? && pc'.justified && pc != pc' ==>
        pc == TryPushCheck(pc'.v, pc'.n) && s.head == pc'.n && pc'.n >= s.capacity && !Consumed(s, pc'.n - s.capacity)
  {
    match e
    case Call(u, pc) =>
    case RunPush(u) =>
    case RunPop(u) =>
    case RunSize(u) =>
  }

  lemma PopFailureFrom<T>(s: State<T>, e: Event<T>, t: Tid)
    requires Shape(s) && Enabled(s, e) && t in s.pc
    ensures var pc, pc' := s.pc[t], Apply(s, e).pc[t];
      pc'.TryPopReload? && pc'.justified && pc != pc' ==>
        pc == TryPopCheck(pc'.n) && s.tail == pc'.n && !Published(s, pc'.n)
  {
    match e
    case Call(u, pc) =>
    case RunPush(u) =>
    case RunPop(u) =>
    case RunSize(u) =>
  }

  /** A `try_push` about to return false looked at the slot, earlier in the same call, while the pop of
      ticket `head - capacity` was unfinished. */
  lemma {:induction false} TryPushFailure<T(!new)>(run: seq<State<T>>, i: nat, t: Tid) returns (k: nat)
    requires IsRun(run) && i < |run| && t in run[i].pc && run[i].pc[t].TryPushReload? && run[i].pc[t].justified
    ensures k < i && t in run[k].pc && run[k].pc[t] == TryPushCheck(run[i].pc[t].v, run[i].pc[t].n)
    ensures forall j :: k < j <= i ==> t in run[j].pc && run[j].pc[t] == run[i].pc[t]
    ensures var n := run[i].pc[t].n;
      Shape(run[k]) && run[k].head == n && n >= run[k].capacity && !Consumed(run[k], n - run[k].capacity)
  {
    var e := EventAt(run, i);
    PushFailureFrom(run[i - 1], e, t);
    if run[i - 1].pc[t] == run[i].pc[t] { k := TryPushFailure(run, i - 1, t); } else { k := i - 1; }
  }

  /** A `try_pop` about to return false looked at the slot, earlier in the same call, while the push of
      ticket `tail` was not published. */
  lemma {:induction false} TryPopFailure<T(!new)>(run: seq<State<T>>, i: nat, t: Tid) returns (k: nat)
    requires IsRun(run) && i < |run| && t in run[i].pc && run[i].pc[t].TryPopReload? && run[i].pc[t].justified
    ensures k < i && t in run[k].pc && run[k].pc[t] == TryPopCheck(run[i].pc[t].n)
    ensures forall j :: k < j <= i ==> t in run[j].pc && run[j].pc[t] == run[i].pc[t]
    ensures Shape(run[k]) && run[k].tail == run[i].pc[t].n && !Published(run[k], run[k].tail)
  {
    var e := EventAt(run, i);
    PopFailureFrom(run[i - 1], e, t);
    if run[i - 1].pc[t] == run[i].pc[t] { k := TryPopFailure(run, i - 1, t); } else { k := i - 1; }
  }

  /** Inside `try_push` or `try_pop`, before a ticket is taken. */
  predicate InTryPush<T>(pc: Pc<T>) { pc.TryPushLoad? || pc.TryPushCheck? || pc.TryPushCas? || pc.TryPushReload? }

  predicate InTryPop<T>(pc: Pc<T>) { pc.TryPopLoad? || pc.TryPopCheck? || pc.TryPopCas? || pc.TryPopReload? }

  /** How a thread leaves a try operation: with a ticket, or from the reload that finds the index where it was. */
  lemma TryLeaves<T>(s: State<T>, e: Event<T>, t: Tid)
    requires Shape(s) && Enabled(s, e) && t in s.pc
    ensures var pc, pc' := s.pc[t], Apply(s, e).pc[t];
      && (InTryPush(pc) && !InTryPush(pc') ==>
            (pc.TryPushReload? && pc' == Idle && s.head == pc.n) || (pc.TryPushCas? && pc' == Construct(pc.v, s.head)))
      && (InTryPop(pc) && !InTryPop(pc') ==>
            (pc.TryPopReload? && pc' == Idle && s.tail == pc.n) || (pc.TryPopCas? && pc' == Move(s.tail)))
  {
    match e
    case Call(u, pc) =>
    case RunPush(u) =>
    case RunPop(u) =>
    case RunSize(u) =>
  }

  /** However the threads interleave: a `try_push` that returns false looked, during that call, at the slot of the
      head of then, while the pop of the ticket one round before was unfinished: the queue was full. */
  lemma TryPushAnswer<T(!new)>(run: seq<State<T>>, i: nat, t: Tid) returns (k: nat)
    requires IsRun(run) && i + 1 < |run| && t in run[i].pc && InTryPush(run[i].pc[t])
    requires t in run[i + 1].pc && run[i + 1].pc[t] == Idle
    ensures k < i && Shape(run[k]) && run[k].head >= run[k].capacity
    ensures !Consumed(run[k], run[k].head - run[k].capacity)
    ensures forall j :: k <= j <= i ==> t in run[j].pc && InTryPush(run[j].pc[t])
  {
    var e := EventAt(run, i + 1);
    TryLeaves(run[i], e, t);
    ThreadAt(run, i, t);
    k := TryPushFailure(run, i, t);
  }

  /** Likewise a `try_pop` that returns false looked at the slot of the tail of then, while the push of that ticket
      was not published: there was nothing to pop. */
  lemma TryPopAnswer<T(!new)>(run: seq<State<T>>, i: nat, t: Tid) returns (k: nat)
    requires IsRun(run) && i + 1 < |run| && t in run[i].pc && InTryPop(run[i].pc[t])
    requires t in run[i + 1].pc && run[i + 1].pc[t] == Idle
    ensures k < i && Shape(run[k]) && !Published(run[k], run[k].tail)
    ensures forall j :: k <= j <= i ==> t in run[j].pc && InTryPop(run[j].pc[t])
  {
    var e := EventAt(run, i + 1);
    TryLeaves(run[i], e, t);
    ThreadAt(run, i, t);
    k := TryPopFailure(run, i, t);
  }

  /** The thread is pushing a value. */
  predicate HasValue<T>(pc: Pc<T>) { pc.PushTicket? || pc.PushWait? || pc.Construct? || InTryPush(pc) }

  lemma ValueFrom<T>(s: State<T>, e: Event<T>, t: Tid)
    requires Shape(s) && Enabled(s, e) && t in s.pc
    ensures var pc, pc' := s.pc[t], Apply(s, e).pc[t];
      HasValue(pc') ==> (HasValue(pc) && pc.v == pc'.v) || pc' == PushTicket(pc'.v) || pc' == TryPushLoad(pc'.v)
  {
    match e
    case Call(u, pc) =>
    case RunPush(u) =>
    case RunPop(u) =>
    case RunSize(u) =>
  }

  lemma ThreadsStay<T>(s: State<T>, e: Event<T>)
    requires Shape(s) && Enabled(s, e)
    ensures Apply(s, e).pc.Keys == s.pc.Keys
  {
    match e
    case Call(u, pc) =>
    case RunPush(u) =>
    case RunPop(u) =>
    case RunSize(u) =>
  }

  /** The value a thread pushes is the one its call was given. */
  lemma {:induction false} ValueGiven<T(!new)>(run: seq<State<T>>, i: nat, t: Tid) returns (k: nat)
    requires IsRun(run) && i < |run| && t in run[i].pc && HasValue(run[i].pc[t])
    ensures k <= i && t in run[k].pc
    ensures run[k].pc[t] == PushTicket(run[i].pc[t].v) || run[k].pc[t] == TryPushLoad(run[i].pc[t].v)
    ensures forall j :: k <= j <= i ==> t in run[j].pc && HasValue(run[j].pc[t]) && run[j].pc[t].v == run[i].pc[t].v
  {
    if run[i].pc[t].PushTicket? || run[i].pc[t].TryPushLoad? {
      k := i;
    } else {
      assert i > 0;
      var e := EventAt(run, i);
      ThreadsStay(run[i - 1], e);
      ValueFrom(run[i - 1], e, t);
      k := ValueGiven(run, i - 1, t);
    }
  }

  // ------------------------------------------------------------------------------ the size

  /** The calls of `pop` and `push` that have a ticket and wait for their turn. */
  function Readers<T>(s: State<T>): set<Tid> { set t | t in s.pc && s.pc[t].PopWait? }

  function Writers<T>(s: State<T>): set<Tid> { set t | t in s.pc && s.pc[t].PushWait? }

  /** Thread `owners[n]` waits with ticket `n`, for all tickets from `lo` up to `hi`. */
  ghost predicate Waiting<T>(s: State<T>, owners: seq<Tid>, lo: nat, hi: nat, pop: bool) {
    && hi <= |owners|
    && forall n :: lo <= n < hi ==>
      owners[n] in s.pc && var pc := s.pc[owners[n]]; (if pop then pc.PopWait? else pc.PushWait?) && pc.n == n
  }

  /** Different tickets have different owners. */
  lemma {:induction false} AsManyAsTickets<T>(s: State<T>, owners: seq<Tid>, lo: nat, hi: nat, pop: bool,
                                              waiting: set<Tid>)
    requires lo <= hi && Waiting(s, owners, lo, hi, pop)
    requires waiting == set n | lo <= n < hi :: owners[n]
    ensures |waiting| == hi - lo
    decreases hi
  {
    if lo == hi {
      assert waiting == {};
    } else {
      var fewer := set n | lo <= n < hi - 1 :: owners[n];
      AsManyAsTickets(s, owners, lo, hi - 1, pop, fewer);
      assert waiting == fewer + {owners[hi - 1]} && owners[hi - 1] !in fewer;
    }
  }

  /** A pop ticket at or beyond the head belongs to a waiting reader. */
  lemma ReaderOf<T(!new)>(run: seq<State<T>>, i: nat, n: nat)
    requires IsRun(run) && i < |run| && run[i].head <= n < run[i].tail
    ensures Shape(run[i]) && run[i].poppedBy[n] in run[i].pc && run[i].pc[run[i].poppedBy[n]] == PopWait(n)
  {
    TicketAt(run, i, n);
    ThreadAt(run, i, run[i].poppedBy[n]);
  }

  /** A push ticket a whole round or more beyond the tail belongs to a waiting writer. */
  lemma WriterOf<T(!new)>(run: seq<State<T>>, i: nat, n: nat)
    requires IsRun(run) && i < |run| && run[i].tail + run[i].capacity <= n < run[i].head
    ensures Shape(run[i]) && run[i].pushedBy[n] in run[i].pc
    ensures var pc := run[i].pc[run[i].pushedBy[n]]; pc.PushWait? && pc.n == n
  {
    var s := run[i];
    TicketAt(run, i, n);
    TicketAt(run, i, n - s.capacity);
    NextRound(n - s.capacity, s.capacity);
    ThreadAt(run, i, s.pushedBy[n]);
  }

  /** In every reachable state the head lags behind the tail by at most the number of waiting readers, and is ahead of
      it by at most the capacity and the number of waiting writers. */
  lemma TicketBounds<T(!new)>(run: seq<State<T>>, i: nat)
    requires IsRun(run) && i < |run|
    ensures run[i].tail <= run[i].head + |Readers(run[i])|
    ensures run[i].head <= run[i].tail + run[i].capacity + |Writers(run[i])|
  {
    var s := run[i];
    TicketAt(run, i, 0);
    if s.head < s.tail {
      forall n | s.head <= n < s.tail
        ensures s.poppedBy[n] in s.pc && s.pc[s.poppedBy[n]] == PopWait(n)
      {
        ReaderOf(run, i, n);
      }
      var waiting := set n | s.head <= n < s.tail :: s.poppedBy[n];
      AsManyAsTickets(s, s.poppedBy, s.head, s.tail, true, waiting);
      Arithmetic.SubsetSize(waiting, Readers(s));
    }
    var lo := s.tail + s.capacity;
    if lo < s.head {
      forall n | lo <= n < s.head
        ensures s.pushedBy[n] in s.pc && s.pc[s.pushedBy[n]].PushWait? && s.pc[s.pushedBy[n]].n == n
      {
        WriterOf(run, i, n);
      }
      var waiting := set n | lo <= n < s.head :: s.pushedBy[n];
      AsManyAsTickets(s, s.pushedBy, lo, s.head, false, waiting);
      Arithmetic.SubsetSize(waiting, Writers(s));
    }
  }

  /** Without blocking pops there is never a waiting reader, so the tail never passes the head. */
  lemma {:induction false} WithoutPop<T(!new)>(run: seq<State<T>>, i: nat)
    requires IsRun(run) && i < |run| && forall j, t :: 0 <= j < |run| && t in run[j].pc ==> !run[j].pc[t].PopTicket?
    ensures Readers(run[i]) == {} && run[i].tail <= run[i].head
  {
    TicketBounds(run, i);
    if i > 0 {
      WithoutPop(run, i - 1);
      var e := EventAt(run, i);
      forall t | t in run[i].pc
        ensures !run[i].pc[t].PopWait?
      {
        assert t in Readers(run[i - 1]) || !run[i - 1].pc[t].PopWait?;
      }
    }
  }

  /** Without blocking pushes there is never a waiting writer, so the head is never a whole round ahead. */
  lemma {:induction false} WithoutPush<T(!new)>(run: seq<State<T>>, i: nat)
    requires IsRun(run) && i < |run| && forall j, t :: 0 <= j < |run| && t in run[j].pc ==> !run[j].pc[t].PushTicket?
    ensures Writers(run[i]) == {} && run[i].head <= run[i].tail + run[i].capacity
  {
    TicketBounds(run, i);
    if i > 0 {
      WithoutPush(run, i - 1);
      var e := EventAt(run, i);
      forall t | t in run[i].pc
        ensures !run[i].pc[t].PushWait?
      {
        assert t in Writers(run[i - 1]) || !run[i - 1].pc[t].PushWait?;
      }
    }
  }

  function IdleThreads(n: nat): (pc: map<Tid, Pc<int>>)
    ensures forall t: nat :: t in pc <==> t < n
    ensures forall t: nat :: t < n ==> pc[t] == Idle
  {
    if n == 0 then map[] else IdleThreads(n - 1)[n - 1 := Idle]
  }

  /** A new queue and `n` idle threads. */
  function Start(capacity: nat, n: nat): State<int> {
    State(capacity, 0, 0, seq(capacity, _ => 0), seq(capacity, _ => None), IdleThreads(n), [], [], [], map[])
  }

  /** The lower bound is reached: `k` waiting readers make `head - tail` equal to `-k`. */
  lemma {:induction false} WaitingReaders(capacity: nat, n: nat, k: nat) returns (run: seq<State<int>>)
    requires capacity > 0 && k <= n
    ensures IsRun(run) && var s := run[|run| - 1];
      && s.capacity == capacity && s.head == 0 && s.tail == k
      && (forall t: nat :: t in s.pc <==> t < n) && (forall t: nat :: t < n ==>
            if t < k then s.pc[t].PopWait? else s.pc[t] == Idle)
    decreases k
  {
    if k == 0 {
      run := [Start(capacity, n)];
    } else {
      var before := WaitingReaders(capacity, n, k - 1);
      Reachable(before, |before| - 1);
      run := Called(before, k - 1, PopTicket);
      run := run + [StepPop(run[|run| - 1], k - 1)];
      Extended(run[..|run| - 1], RunPop(k - 1));
    }
  }

  /** With blocking pushes it exceeds the capacity: `k` calls of push make it `k`, whatever the capacity. */
  lemma {:induction false} WaitingWriters(capacity: nat, n: nat, k: nat) returns (run: seq<State<int>>)
    requires capacity > 0 && k <= n
    ensures IsRun(run) && var s := run[|run| - 1];
      && s.capacity == capacity && s.tail == 0 && s.head == k
      && (forall t: nat :: t in s.pc <==> t < n) && (forall t: nat :: t < n ==>
            if t < k then s.pc[t].PushWait? else s.pc[t] == Idle)
    decreases k
  {
    if k == 0 {
      run := [Start(capacity, n)];
    } else {
      var before := WaitingWriters(capacity, n, k - 1);
      Reachable(before, |before| - 1);
      run := Called(before, k - 1, PushTicket(0));
      run := run + [StepPush(run[|run| - 1], k - 1)];
      Extended(run[..|run| - 1], RunPush(k - 1));
    }
  }

  lemma Extended(run: seq<State<int>>, e: Event<int>)
    requires IsRun(run) && Shape(run[|run| - 1]) && Enabled(run[|run| - 1], e)
    ensures IsRun(run + [Apply(run[|run| - 1], e)])
  {
    var longer := run + [Apply(run[|run| - 1], e)];
    forall i: nat | i + 1 < |longer| ensures StepAt(longer, i) {
      if i + 1 < |run| { assert StepAt(run, i) && longer[i] == run[i] && longer[i + 1] == run[i + 1]; }
    }
  }

  lemma Called(run: seq<State<int>>, t: Tid, pc: Pc<int>) returns (longer: seq<State<int>>)
    requires IsRun(run) && Shape(run[|run| - 1]) && Enabled(run[|run| - 1], Call(t, pc))
    ensures IsRun(longer) && |longer| == |run| + 1 && longer[|run|] == Goto(run[|run| - 1], t, pc)
  {
    Extended(run, Call(t, pc));
    longer := run + [Apply(run[|run| - 1], Call(t, pc))];
  }

  // ------------------------------------------------------------------------------ size()

  /** What the step that ends a call of `size` returns: the difference of an index loaded earlier and one loaded now. */
  function Returned<T>(s: State<T>, t: Tid): int
    requires t in s.pc && (s.pc[t].SizeThenTail? || s.pc[t].SizeThenHead?)
  {
    if s.pc[t].SizeThenTail? then s.pc[t].h - s.tail else s.head - s.pc[t].l
  }

  lemma SizeFrom<T>(s: State<T>, e: Event<T>, t: Tid)
    requires Shape(s) && Enabled(s, e) && t in s.pc
    ensures var pc, pc' := s.pc[t], Apply(s, e).pc[t];
      && (pc'.SizeThenTail? && pc != pc' ==> pc == SizeHead && pc'.h == s.head)
      && (pc'.SizeThenHead? && pc != pc' ==> pc == SizeTail && pc'.l == s.tail)
  {
    match e
    case Call(u, pc) =>
    case RunPush(u) =>
    case RunPop(u) =>
    case RunSize(u) =>
  }

  lemma IndicesGrow<T>(s: State<T>, e: Event<T>)
    requires Shape(s) && Enabled(s, e)
    ensures var s' := Apply(s, e); s.head <= s'.head && s.tail <= s'.tail && s'.capacity == s.capacity
  {
    match e
    case Call(u, pc) =>
    case RunPush(u) =>
    case RunPop(u) =>
    case RunSize(u) =>
  }

  /** The first load of the call, at `k`, and how the indices moved since. */
  lemma {:induction false} FirstLoad<T(!new)>(run: seq<State<T>>, i: nat, t: Tid) returns (k: nat)
    requires IsRun(run) && i < |run| && t in run[i].pc && (run[i].pc[t].SizeThenTail? || run[i].pc[t].SizeThenHead?)
    ensures k < i && t in run[k].pc && run[k].head <= run[i].head && run[k].tail <= run[i].tail
    ensures run[k].capacity == run[i].capacity
    ensures forall j :: k < j <= i ==> t in run[j].pc && run[j].pc[t] == run[i].pc[t]
    ensures if run[i].pc[t].SizeThenTail? then run[k].pc[t] == SizeHead && run[i].pc[t].h == run[k].head
            else run[k].pc[t] == SizeTail && run[i].pc[t].l == run[k].tail
  {
    var e := EventAt(run, i);
    SizeFrom(run[i - 1], e, t);
    IndicesGrow(run[i - 1], e);
    if run[i - 1].pc[t] == run[i].pc[t] { k := FirstLoad(run, i - 1, t); } else { k := i - 1; }
  }

  /** What `size` returns. With the head loaded first, at `k`, it is `head - tail` there less the pop tickets taken
      until the tail is loaded; with the tail first, it is `head - tail` there plus the push tickets taken until the
      head is loaded. So it is negative by at most the waiting readers and those pops, and exceeds the capacity by at
      most the waiting writers and those pushes. */
  lemma SizeReturned<T(!new)>(run: seq<State<T>>, i: nat, t: Tid) returns (k: nat)
    requires IsRun(run) && i < |run| && t in run[i].pc && (run[i].pc[t].SizeThenTail? || run[i].pc[t].SizeThenHead?)
    ensures k < i && t in run[k].pc && run[k].pc[t] == (if run[i].pc[t].SizeThenTail? then SizeHead else SizeTail)
    ensures forall j :: k < j <= i ==> t in run[j].pc && run[j].pc[t] == run[i].pc[t]
    ensures var size, pops, pushes := run[k].head - run[k].tail, run[i].tail - run[k].tail, run[i].head - run[k].head;
      && pops >= 0 && pushes >= 0
      && Returned(run[i], t) == (if run[i].pc[t].SizeThenTail? then size - pops else size + pushes)
      && Returned(run[i], t) >= -|Readers(run[k])| - (if run[i].pc[t].SizeThenTail? then pops else 0)
      && Returned(run[i], t) <= run[i].capacity + |Writers(run[k])| + (if run[i].pc[t].SizeThenTail? then 0 else pushes)
  {
    k := FirstLoad(run, i, t);
    TicketBounds(run, k);
  }

  /** No call of `push` or `pop` that waits for its turn. */
  predicate NobodyWaits<T>(s: State<T>) { Readers(s) == {} && Writers(s) == {} }

  /** When it is in the range from 0 to the capacity: with the head loaded first, exactly if `head - tail` then was
      at least the number of pop tickets taken between the loads, and at most the capacity and these; with the tail
      first, correspondingly with the push tickets. If nobody waited at the first load one half of this is sure: no
      more are popped than there were elements, or no more pushed than there was room. */
  lemma SizeInRange<T(!new)>(run: seq<State<T>>, i: nat, t: Tid) returns (k: nat)
    requires IsRun(run) && i < |run| && t in run[i].pc && (run[i].pc[t].SizeThenTail? || run[i].pc[t].SizeThenHead?)
    ensures k < i && t in run[k].pc && run[k].pc[t] == (if run[i].pc[t].SizeThenTail? then SizeHead else SizeTail)
    ensures forall j :: k < j <= i ==> t in run[j].pc && run[j].pc[t] == run[i].pc[t]
    ensures var size, pops, pushes := run[k].head - run[k].tail, run[i].tail - run[k].tail, run[i].head - run[k].head;
      0 <= Returned(run[i], t) <= run[i].capacity <==>
        if run[i].pc[t].SizeThenTail? then pops <= size <= run[k].capacity + pops
        else -pushes <= size <= run[k].capacity - pushes
    ensures NobodyWaits(run[k]) ==>
      (0 <= Returned(run[i], t) <= run[i].capacity <==>
        if run[i].pc[t].SizeThenTail? then run[i].tail - run[k].tail <= run[k].head - run[k].tail
        else run[i].head - run[k].head <= run[k].capacity - (run[k].head - run[k].tail))
    ensures run[i].head == run[k].head && run[i].tail == run[k].tail ==>
      Returned(run[i], t) == run[i].head - run[i].tail
  {
    k := FirstLoad(run, i, t);
    TicketBounds(run, k);
  }

  /** No call is between its ticket and its end. */
  predicate Settled<T>(s: State<T>) { forall t :: t in s.pc ==> Loose(s.pc[t]) }

  lemma SettledTicket<T(!new)>(run: seq<State<T>>, i: nat, n: nat)
    requires IsRun(run) && i < |run| && Settled(run[i])
    ensures var s := run[i];
      Shape(s) && (Full(s, n) <==> s.tail <= n < s.head) && (Full(s, n) ==> s.store[Slot(n, s.capacity)].Some?)
  {
    TicketAt(run, i, n);
  }

  lemma HeadIsVacant<T(!new)>(run: seq<State<T>>, i: nat)
    requires IsRun(run) && i < |run| && Settled(run[i]) && run[i].head < run[i].tail + run[i].capacity
    ensures Shape(run[i]) && Vacant(run[i], run[i].head)
  {
    var s := run[i];
    TicketAt(run, i, s.head);
    if s.head >= s.capacity { TicketAt(run, i, s.head - s.capacity); }
    if !Vacant(s, s.head) { PushRefused(s, s.head); }
  }

  /** A run in which nobody calls the blocking `push` or `pop`. */
  ghost predicate IsTryRun(run: seq<State<int>>) {
    && IsRun(run)
    && forall j, t :: 0 <= j < |run| && t in run[j].pc ==> !run[j].pc[t].PushTicket? && !run[j].pc[t].PopTicket?
  }

  lemma TryStep(s: State<int>, e: Event<int>, t: Tid)
    requires Shape(s) && Enabled(s, e) && t in s.pc && !s.pc[t].PushTicket? && !s.pc[t].PopTicket?
    requires e.Call? ==> !e.pc.PushTicket? && !e.pc.PopTicket?
    ensures var pc := Apply(s, e).pc[t]; !pc.PushTicket? && !pc.PopTicket?
  {
    match e
    case Call(u, pc) =>
    case RunPush(u) =>
    case RunPop(u) =>
    case RunSize(u) =>
  }

  lemma SameThreads(s: State<int>, e: Event<int>)
    requires Shape(s) && Enabled(s, e)
    ensures Apply(s, e).pc.Keys == s.pc.Keys
  {
    match e
    case Call(u, pc) =>
    case RunPush(u) =>
    case RunPop(u) =>
    case RunSize(u) =>
  }

  lemma TryExtended(run: seq<State<int>>, e: Event<int>) returns (longer: seq<State<int>>)
    requires IsTryRun(run) && Shape(run[|run| - 1]) && Enabled(run[|run| - 1], e)
    requires e.Call? ==> !e.pc.PushTicket? && !e.pc.PopTicket?
    ensures IsTryRun(longer) && |longer| == |run| + 1 && longer[|run|] == Apply(run[|run| - 1], e)
    ensures Shape(longer[|run|])
  {
    var s := run[|run| - 1];
    Extended(run, e);
    longer := run + [Apply(s, e)];
    TicketAt(longer, |run|, 0);
    SameThreads(s, e);
    forall j, t | 0 <= j < |longer| && t in longer[j].pc
      ensures !longer[j].pc[t].PushTicket? && !longer[j].pc[t].PopTicket?
    {
      if j < |run| { assert longer[j] == run[j]; } else { TryStep(s, e, t); }
    }
  }

  /** Between calls of thread 1, the only one that takes tickets. */
  ghost predicate Rests(s: State<int>, capacity: nat, head: nat, tail: nat, other: Pc<int>) {
    s.capacity == capacity && s.head == head && s.tail == tail && s.pc == map[0 := other, 1 := Idle] && Loose(other)
  }

  lemma RestsIsSettled(s: State<int>, capacity: nat, head: nat, tail: nat, other: Pc<int>)
    requires Rests(s, capacity, head, tail, other)
    ensures Settled(s)
  {}

  /** Thread 1 pushes. */
  lemma PushOne(run: seq<State<int>>, capacity: nat, head: nat, tail: nat, other: Pc<int>)
    returns (longer: seq<State<int>>)
    requires IsTryRun(run) && Rests(run[|run| - 1], capacity, head, tail, other) && head < tail + capacity
    ensures IsTryRun(longer) && Rests(longer[|longer| - 1], capacity, head + 1, tail, other)
  {
    var s := run[|run| - 1];
    RestsIsSettled(s, capacity, head, tail, other);
    HeadIsVacant(run, |run| - 1);
    longer := TryExtended(run, Call(1, TryPushLoad(0)));
    longer := TryExtended(longer, RunPush(1));
    longer := TryExtended(longer, RunPush(1));
    assert longer[|longer| - 1] == Goto(s, 1, TryPushCas(0, head));
    longer := TryExtended(longer, RunPush(1));
    longer := TryExtended(longer, RunPush(1));
    longer := TryExtended(longer, RunPush(1));
  }

  /** Thread 1 pops: it takes its ticket, */
  lemma PopStarts(run: seq<State<int>>, capacity: nat, head: nat, tail: nat, other: Pc<int>)
    returns (longer: seq<State<int>>)
    requires IsTryRun(run) && Rests(run[|run| - 1], capacity, head, tail, other) && tail < head
    ensures IsTryRun(longer)
    ensures var s, s' := run[|run| - 1], longer[|longer| - 1];
      && Shape(s) && Full(s, tail) && s.store[Slot(tail, capacity)].Some? && s' == Goto(TakePop(s, 1), 1, Move(tail))
      && Shape(s')
  {
    var s := run[|run| - 1];
    RestsIsSettled(s, capacity, head, tail, other);
    SettledTicket(run, |run| - 1, tail);
    longer := TryExtended(run, Call(1, TryPopLoad));
    longer := TryExtended(longer, RunPop(1));
    longer := TryExtended(longer, RunPop(1));
    assert longer[|longer| - 1] == Goto(s, 1, TryPopCas(tail));
    longer := TryExtended(longer, RunPop(1));
  }

  /** and moves the value out. */
  lemma PopOne(run: seq<State<int>>, capacity: nat, head: nat, tail: nat, other: Pc<int>)
    returns (longer: seq<State<int>>)
    requires IsTryRun(run) && Rests(run[|run| - 1], capacity, head, tail, other) && tail < head
    ensures IsTryRun(longer) && Rests(longer[|longer| - 1], capacity, head, tail + 1, other)
  {
    longer := PopStarts(run, capacity, head, tail, other);
    longer := TryExtended(longer, RunPop(1));
    longer := TryExtended(longer, RunPop(1));
    longer := TryExtended(longer, RunPop(1));
  }

  lemma NewQueue(capacity: nat) returns (run: seq<State<int>>)
    requires capacity > 0
    ensures IsTryRun(run) && Rests(run[|run| - 1], capacity, 0, 0, Idle)
  {
    run := [Start(capacity, 2)];
  }

  function FirstLoaded(pc: Pc<int>, head: nat, tail: nat): Pc<int> {
    if pc.SizeHead? then SizeThenTail(head) else SizeThenHead(tail)
  }

  /** Thread 0 calls `size` and makes its first load. */
  lemma LoadOne(run: seq<State<int>>, capacity: nat, head: nat, tail: nat, pc: Pc<int>)
    returns (longer: seq<State<int>>)
    requires IsTryRun(run) && Rests(run[|run| - 1], capacity, head, tail, Idle) && (pc == SizeHead || pc == SizeTail)
    ensures IsTryRun(longer) && Rests(longer[|longer| - 1], capacity, head, tail, FirstLoaded(pc, head, tail))
  {
    TicketAt(run, |run| - 1, 0);
    longer := TryExtended(run, Call(0, pc));
    longer := TryExtended(longer, RunSize(0));
    RestsLoaded(run[|run| - 1], capacity, head, tail, pc);
  }

  lemma RestsLoaded(s: State<int>, capacity: nat, head: nat, tail: nat, pc: Pc<int>)
    requires Rests(s, capacity, head, tail, Idle) && (pc == SizeHead || pc == SizeTail)
    ensures Rests(StepSize(Goto(s, 0, pc), 0), capacity, head, tail, FirstLoaded(pc, head, tail))
  {
    assert StepSize(Goto(s, 0, pc), 0).pc == map[0 := FirstLoaded(pc, head, tail), 1 := Idle];
  }

  /** Without any blocking call, and whatever the capacity, `size` can return any negative number: thread 0 loads the
      head of an empty queue, and `k` elements are pushed and popped before it loads the tail. */
  lemma {:induction false} NegativeSize(capacity: nat, k: nat) returns (run: seq<State<int>>)
    requires capacity > 0
    ensures IsTryRun(run) && Rests(run[|run| - 1], capacity, k, k, SizeThenTail(0))
    ensures Returned(run[|run| - 1], 0) + k == 0
    decreases k
  {
    if k == 0 {
      run := NewQueue(capacity);
      run := LoadOne(run, capacity, 0, 0, SizeHead);
    } else {
      run := NegativeSize(capacity, k - 1);
      run := PushOne(run, capacity, k - 1, k - 1, SizeThenTail(0));
      run := PopOne(run, capacity, k, k - 1, SizeThenTail(0));
    }
  }

  lemma {:induction false} Fill(capacity: nat, n: nat) returns (run: seq<State<int>>)
    requires capacity > 0 && n <= capacity
    ensures IsTryRun(run) && Rests(run[|run| - 1], capacity, n, 0, Idle)
    decreases n
  {
    if n == 0 { run := NewQueue(capacity); } else {
      run := Fill(capacity, n - 1);
      run := PushOne(run, capacity, n - 1, 0, Idle);
    }
  }

  /** And it can return more than the capacity: thread 0 loads the tail of a full queue, and `k` elements are popped
      and pushed before it loads the head. */
  lemma {:induction false} ExcessiveSize(capacity: nat, k: nat) returns (run: seq<State<int>>)
    requires capacity > 0
    ensures IsTryRun(run) && Rests(run[|run| - 1], capacity, capacity + k, k, SizeThenHead(0))
    ensures Returned(run[|run| - 1], 0) == capacity + k
    decreases k
  {
    if k == 0 {
      run := Fill(capacity, capacity);
      run := LoadOne(run, capacity, capacity, 0, SizeTail);
    } else {
      run := ExcessiveSize(capacity, k - 1);
      run := PopOne(run, capacity, capacity + (k - 1), k - 1, SizeThenHead(0));
      run := PushOne(run, capacity, capacity + (k - 1), k, SizeThenHead(0));
    }
  }

  // ------------------------------------------------------------------------------ at rest

  function OddSlots<T>(s: State<T>): set<nat>
    requires Shape(s)
  {
    set i: nat | i < s.capacity && s.turn[i] % 2 == 1
  }

  function SlotsOf(lo: nat, hi: nat, capacity: nat): set<nat>
    requires capacity > 0
  {
    set n | lo <= n < hi :: Slot(n, capacity)
  }

  lemma {:induction false} SlotsOfSize<T>(s: State<T>, lo: nat, hi: nat)
    requires Shape(s) && lo <= hi && forall n :: lo <= n < hi ==> Full(s, n)
    ensures |SlotsOf(lo, hi, s.capacity)| == hi - lo
    decreases hi
  {
    if lo == hi {
      assert SlotsOf(lo, hi, s.capacity) == {};
    } else {
      SlotsOfSize(s, lo, hi - 1);
      var i := Slot(hi - 1, s.capacity);
      assert SlotsOf(lo, hi, s.capacity) == SlotsOf(lo, hi - 1, s.capacity) + {i};
      if i in SlotsOf(lo, hi - 1, s.capacity) {
        var n: nat :| lo <= n < hi - 1 && Slot(n, s.capacity) == i;
        OneAtWork(s, n, hi - 1);
      }
    }
  }

  /** The ticket that the turn of slot `i` speaks about. */
  lemma TicketOfSlot<T>(s: State<T>, i: nat) returns (n: nat)
    requires Shape(s) && i < s.capacity
    ensures Slot(n, s.capacity) == i && Round(n, s.capacity) == s.turn[i] / 2
    ensures if s.turn[i] % 2 == 1 then Full(s, n) else Vacant(s, n)
  {
    n := s.turn[i] / 2 * s.capacity + i;
    Arithmetic.DivMod(n, s.capacity, s.turn[i] / 2, i);
  }

  /** Nothing is half done: a ticket is full exactly if it was pushed and not popped. */
  lemma QuiescentTicket<T(!new)>(run: seq<State<T>>, i: nat, n: nat)
    requires IsRun(run) && i < |run| && forall t :: t in run[i].pc ==> run[i].pc[t] == Idle
    ensures var s := run[i];
      && Shape(s) && (Full(s, n) <==> s.tail <= n < s.head)
      && (Full(s, n) ==> s.store[Slot(n, s.capacity)] == Some(s.pushed[n]))
      && (Vacant(s, n) ==> s.store[Slot(n, s.capacity)] == None)
  {
    TicketAt(run, i, n);
  }

  lemma QuiescentBounds<T(!new)>(run: seq<State<T>>, i: nat)
    requires IsRun(run) && i < |run| && forall t :: t in run[i].pc ==> run[i].pc[t] == Idle
    ensures run[i].tail <= run[i].head <= run[i].tail + run[i].capacity
  {
    var s := run[i];
    TicketAt(run, i, s.head);
    if s.head > s.tail + s.capacity {
      QuiescentTicket(run, i, s.tail);
      QuiescentTicket(run, i, s.tail + s.capacity);
      NextRound(s.tail, s.capacity);
    }
  }

  /** With no call in progress, size() is the number of slots with an odd turn, and these are the slots that
      hold a value: exactly what the destructor destroys. */
  lemma QuiescentSize<T(!new)>(run: seq<State<T>>, i: nat)
    requires IsRun(run) && i < |run| && forall t :: t in run[i].pc ==> run[i].pc[t] == Idle
    ensures var s := run[i];
      && Shape(s) && s.tail <= s.head <= s.tail + s.capacity
      && s.head - s.tail == |OddSlots(s)|
      && forall j: nat :: j < s.capacity ==> (j in OddSlots(s) <==> s.store[j].Some?)
  {
    var s := run[i];
    QuiescentBounds(run, i);
    QuiescentTicket(run, i, 0);
    forall n: nat | s.tail <= n < s.head ensures Full(s, n) && Slot(n, s.capacity) in OddSlots(s) {
      QuiescentTicket(run, i, n);
    }
    SlotsOfSize(s, s.tail, s.head);
    forall j: nat | j < s.capacity ensures j in OddSlots(s) <==> s.store[j].Some?
      ensures j in OddSlots(s) ==> j in SlotsOf(s.tail, s.head, s.capacity)
    {
      var n := TicketOfSlot(s, j);
      QuiescentTicket(run, i, n);
    }
    assert OddSlots(s) == SlotsOf(s.tail, s.head, s.capacity);
  }

  // ------------------------------------------------------------------------------ lone calls

  /** Steps of thread `t` with nobody else moving. */
  ghost predicate Lone<T>(trace: seq<State<T>>, t: Tid, push: bool) {
    |trace| > 0 && forall j :: 0 <= j < |trace| - 1 ==> LoneStep(trace[j], trace[j + 1], t, push)
  }

  ghost predicate LoneStep<T>(s: State<T>, s': State<T>, t: Tid, push: bool) {
    Shape(s) && t in s.pc && s.pc[t] != Idle && s' == if push then StepPush(s, t) else StepPop(s, t)
  }

  /** A call that starts in `s` and returns in `s'`. */
  ghost predicate LoneCall<T>(trace: seq<State<T>>, t: Tid, push: bool, s: State<T>, s': State<T>) {
    Lone(trace, t, push) && trace[0] == s && trace[|trace| - 1] == s' && t in s'.pc && s'.pc[t] == Idle
  }

  lemma OneMore<T>(trace: seq<State<T>>, t: Tid, push: bool, s: State<T>, pc: Pc<T>, s': State<T>, pc': Pc<T>)
    returns (longer: seq<State<T>>)
    requires Lone(trace, t, push) && trace[|trace| - 1] == Goto(s, t, pc) && Shape(s) && t in s.pc && pc != Idle
    requires var at := Goto(s, t, pc);
      (if push then StepPush(at, t) else StepPop(at, t)) == Goto(s', t, pc')
    ensures Lone(longer, t, push) && longer[0] == trace[0] && longer[|longer| - 1] == Goto(s', t, pc')
  {
    longer := trace + [Goto(s', t, pc')];
    forall j | 0 <= j < |longer| - 1 ensures LoneStep(longer[j], longer[j + 1], t, push) {
      if j < |trace| - 1 { assert longer[j] == trace[j] && longer[j + 1] == trace[j + 1]; }
    }
  }

  lemma GotoTwice<T>(s: State<T>, t: Tid, a: Pc<T>, b: Pc<T>)
    ensures Goto(Goto(s, t, a), t, b) == Goto(s, t, b)
  {
    assert s.pc[t := a][t := b] == s.pc[t := b];
  }

  lemma GotoBack<T>(s: State<T>, t: Tid)
    requires t in s.pc && s.pc[t] == Idle
    ensures Goto(s, t, Idle) == s
  {
    assert s.pc[t := Idle] == s.pc;
  }

  predicate AllIdle<T>(s: State<T>) { forall t :: t in s.pc ==> s.pc[t] == Idle }

  /** The state after `t` pushed `v`. */
  ghost function Pushed<T>(s: State<T>, t: Tid, v: T): State<T>
    requires Shape(s)
  {
    SetTurn(SetStore(TakePush(s, t, v), s.head, Some(v)), s.head, Round(s.head, s.capacity) * 2 + 1)
  }

  /** The state after `t` popped the value of the ticket at the tail. */
  ghost function Popped<T>(s: State<T>, t: Tid): State<T>
    requires Shape(s) && s.tail < s.head
  {
    var s' := SetTurn(SetStore(TakePop(s, t), s.tail, None), s.tail, Round(s.tail, s.capacity) * 2 + 2);
    s'.(popped := s.popped[s.tail := s.pushed[s.tail]])
  }

  /** With its ticket the push constructs and publishes. */
  lemma SoloPublishes<T>(trace: seq<State<T>>, s: State<T>, t: Tid, v: T) returns (longer: seq<State<T>>)
    requires Shape(s) && t in s.pc && s.pc[t] == Idle
    requires Lone(trace, t, true) && trace[|trace| - 1] == Goto(TakePush(s, t, v), t, Construct(v, s.head))
    ensures LoneCall(longer, t, true, trace[0], Pushed(s, t, v))
  {
    var r, n := TakePush(s, t, v), s.head;
    var u := SetStore(r, n, Some(v));
    GotoTwice(u, t, Construct(v, n), PublishPush(n));
    longer := OneMore(trace, t, true, r, Construct(v, n), u, PublishPush(n));
    GotoTwice(Pushed(s, t, v), t, PublishPush(n), Idle);
    longer := OneMore(longer, t, true, u, PublishPush(n), Pushed(s, t, v), Idle);
    GotoBack(Pushed(s, t, v), t);
  }

  lemma SoloTicket<T>(s: State<T>, t: Tid, v: T) returns (trace: seq<State<T>>)
    requires Shape(s) && t in s.pc && Vacant(s, s.head)
    ensures Lone(trace, t, true) && trace[0] == Goto(s, t, PushTicket(v))
    ensures trace[|trace| - 1] == Goto(TakePush(s, t, v), t, Construct(v, s.head))
  {
    var r, n := TakePush(s, t, v), s.head;
    GotoTwice(r, t, PushTicket(v), PushWait(v, n));
    trace := OneMore([Goto(s, t, PushTicket(v))], t, true, s, PushTicket(v), r, PushWait(v, n));
    GotoTwice(r, t, PushWait(v, n), Construct(v, n));
    trace := OneMore(trace, t, true, r, PushWait(v, n), r, Construct(v, n));
  }

  lemma SoloTryTicket<T>(s: State<T>, t: Tid, v: T) returns (trace: seq<State<T>>)
    requires Shape(s) && t in s.pc && Vacant(s, s.head)
    ensures Lone(trace, t, true) && trace[0] == Goto(s, t, TryPushLoad(v))
    ensures trace[|trace| - 1] == Goto(TakePush(s, t, v), t, Construct(v, s.head))
  {
    var n := s.head;
    GotoTwice(s, t, TryPushLoad(v), TryPushCheck(v, n));
    trace := OneMore([Goto(s, t, TryPushLoad(v))], t, true, s, TryPushLoad(v), s, TryPushCheck(v, n));
    GotoTwice(s, t, TryPushCheck(v, n), TryPushCas(v, n));
    trace := OneMore(trace, t, true, s, TryPushCheck(v, n), s, TryPushCas(v, n));
    GotoTwice(TakePush(s, t, v), t, TryPushCas(v, n), Construct(v, n));
    trace := OneMore(trace, t, true, s, TryPushCas(v, n), TakePush(s, t, v), Construct(v, n));
  }

  lemma SoloTryRefused<T>(s: State<T>, t: Tid, v: T) returns (trace: seq<State<T>>)
    requires Shape(s) && t in s.pc && s.pc[t] == Idle && !Vacant(s, s.head)
    ensures LoneCall(trace, t, true, Goto(s, t, TryPushLoad(v)), s)
  {
    var n, at := s.head, Goto(s, t, TryPushCheck(v, s.head));
    GotoTwice(s, t, TryPushLoad(v), TryPushCheck(v, n));
    trace := OneMore([Goto(s, t, TryPushLoad(v))], t, true, s, TryPushLoad(v), s, TryPushCheck(v, n));
    var pc := StepPush(at, t).pc[t];
    GotoTwice(s, t, TryPushCheck(v, n), pc);
    trace := OneMore(trace, t, true, s, TryPushCheck(v, n), s, pc);
    GotoTwice(s, t, pc, Idle);
    trace := OneMore(trace, t, true, s, pc, s, Idle);
    GotoBack(s, t);
  }

  /** A `push` or `try_push` that runs alone when nothing else is in progress pushes its value if there is room; a
      `try_push` without room returns with nothing changed. */
  lemma SoloPush<T(!new)>(run: seq<State<T>>, i: nat, t: Tid, v: T, blocking: bool) returns (trace: seq<State<T>>)
    requires IsRun(run) && i < |run| && t in run[i].pc && AllIdle(run[i])
    requires blocking ==> run[i].head < run[i].tail + run[i].capacity
    ensures Shape(run[i])
    ensures LoneCall(trace, t, true, Goto(run[i], t, if blocking then PushTicket(v) else TryPushLoad(v)),
                     if run[i].head < run[i].tail + run[i].capacity then Pushed(run[i], t, v) else run[i])
  {
    var s := run[i];
    TicketAt(run, i, s.head);
    QuiescentBounds(run, i);
    if s.head < s.tail + s.capacity {
      HeadIsVacant(run, i);
      if blocking { trace := SoloTicket(s, t, v); } else { trace := SoloTryTicket(s, t, v); }
      trace := SoloPublishes(trace, s, t, v);
    } else {
      QuiescentTicket(run, i, s.tail);
      NextRound(s.tail, s.capacity);
      trace := SoloTryRefused(s, t, v);
    }
  }

  /** With its ticket the pop moves the value out. */
  lemma SoloMoves<T>(trace: seq<State<T>>, s: State<T>, t: Tid) returns (longer: seq<State<T>>)
    requires Shape(s) && t in s.pc && s.pc[t] == Idle && s.tail < s.head
    requires s.store[Slot(s.tail, s.capacity)] == Some(s.pushed[s.tail])
    requires Lone(trace, t, false) && trace[|trace| - 1] == Goto(TakePop(s, t), t, Move(s.tail))
    ensures LoneCall(longer, t, false, trace[0], Popped(s, t))
  {
    var r, n, v := TakePop(s, t), s.tail, s.pushed[s.tail];
    var u := SetStore(r, n, None);
    GotoTwice(r, t, Move(n), Destroy(n, v));
    longer := OneMore(trace, t, false, r, Move(n), r, Destroy(n, v));
    GotoTwice(u, t, Destroy(n, v), PublishPop(n, v));
    longer := OneMore(longer, t, false, r, Destroy(n, v), u, PublishPop(n, v));
    GotoTwice(Popped(s, t), t, PublishPop(n, v), Idle);
    longer := OneMore(longer, t, false, u, PublishPop(n, v), Popped(s, t), Idle);
    GotoBack(Popped(s, t), t);
  }

  lemma SoloPopTicket<T>(s: State<T>, t: Tid) returns (trace: seq<State<T>>)
    requires Shape(s) && t in s.pc && Full(s, s.tail)
    ensures Lone(trace, t, false) && trace[0] == Goto(s, t, PopTicket)
    ensures trace[|trace| - 1] == Goto(TakePop(s, t), t, Move(s.tail))
  {
    var r, n := TakePop(s, t), s.tail;
    GotoTwice(r, t, PopTicket, PopWait(n));
    trace := OneMore([Goto(s, t, PopTicket)], t, false, s, PopTicket, r, PopWait(n));
    GotoTwice(r, t, PopWait(n), Move(n));
    trace := OneMore(trace, t, false, r, PopWait(n), r, Move(n));
  }

  lemma SoloTryPopTicket<T>(s: State<T>, t: Tid) returns (trace: seq<State<T>>)
    requires Shape(s) && t in s.pc && Full(s, s.tail)
    ensures Lone(trace, t, false) && trace[0] == Goto(s, t, TryPopLoad)
    ensures trace[|trace| - 1] == Goto(TakePop(s, t), t, Move(s.tail))
  {
    var n := s.tail;
    GotoTwice(s, t, TryPopLoad, TryPopCheck(n));
    trace := OneMore([Goto(s, t, TryPopLoad)], t, false, s, TryPopLoad, s, TryPopCheck(n));
    GotoTwice(s, t, TryPopCheck(n), TryPopCas(n));
    trace := OneMore(trace, t, false, s, TryPopCheck(n), s, TryPopCas(n));
    GotoTwice(TakePop(s, t), t, TryPopCas(n), Move(n));
    trace := OneMore(trace, t, false, s, TryPopCas(n), TakePop(s, t), Move(n));
  }

  lemma SoloTryPopRefused<T>(s: State<T>, t: Tid) returns (trace: seq<State<T>>)
    requires Shape(s) && t in s.pc && s.pc[t] == Idle && !Full(s, s.tail)
    ensures LoneCall(trace, t, false, Goto(s, t, TryPopLoad), s)
  {
    var n, at := s.tail, Goto(s, t, TryPopCheck(s.tail));
    GotoTwice(s, t, TryPopLoad, TryPopCheck(n));
    trace := OneMore([Goto(s, t, TryPopLoad)], t, false, s, TryPopLoad, s, TryPopCheck(n));
    var pc := StepPop(at, t).pc[t];
    GotoTwice(s, t, TryPopCheck(n), pc);
    trace := OneMore(trace, t, false, s, TryPopCheck(n), s, pc);
    GotoTwice(s, t, pc, Idle);
    trace := OneMore(trace, t, false, s, pc, s, Idle);
    GotoBack(s, t);
  }

  /** A `pop` or `try_pop` that runs alone when nothing else is in progress gets the value of the ticket at the tail;
      a `try_pop` on an empty queue returns with nothing changed. */
  lemma SoloPop<T(!new)>(run: seq<State<T>>, i: nat, t: Tid, blocking: bool) returns (trace: seq<State<T>>)
    requires IsRun(run) && i < |run| && t in run[i].pc && AllIdle(run[i]) && (blocking ==> run[i].tail < run[i].head)
    ensures Shape(run[i])
    ensures LoneCall(trace, t, false, Goto(run[i], t, if blocking then PopTicket else TryPopLoad),
                     if run[i].tail < run[i].head then Popped(run[i], t) else run[i])
  {
    var s := run[i];
    QuiescentTicket(run, i, s.tail);
    if s.tail < s.head {
      if blocking { trace := SoloPopTicket(s, t); } else { trace := SoloTryPopTicket(s, t); }
      trace := SoloMoves(trace, s, t);
    } else {
      trace := SoloTryPopRefused(s, t);
    }
  }
}
