/**
 The lock-free free list of the block queue, as a step system: any number of threads run `add`
 and `try_get` concurrently, and every atomic load, store, compare-exchange or fetch-add is one
 step. A node carries a 32-bit word whose low 31 bits count references and whose top bit says
 that the node should be on the list.

 Two fields of a state are history only and are never read by a step: `role` records what each
 node is currently used for, and `list` the nodes linked from the head.
 */
module FreeList {
  import Arithmetic

  type Tid = nat
  type Node = nat

  datatype Ptr = Null | To(node: Node)

  /** The top bit of a node's word; the bits below it are the reference count. */
  const SHOULD_BE_ON_FREELIST: nat := 0x8000_0000

  const WORD: nat := 0x1_0000_0000

  /** One reference for each thread and one for the list still fit below the top bit. */
  const MAX_THREADS: nat := SHOULD_BE_ON_FREELIST - 2

  /** Unsigned 32-bit arithmetic. */
  function Wrap(w: int): nat { w % WORD }

  function RefCount(w: nat): nat { w % SHOULD_BE_ON_FREELIST }

  /** Where `add_knowing_refcount_is_zero` returns to: the caller of `add`, or the loop of `try_get`. */
  datatype Return = ToCaller | ToLoop(head: Ptr)

  /** A thread's program counter with the local variables that are live there. */
  datatype Pc =
    | Idle
    | AddFetch(node: Node)                              // add: fetch_add of the flag
    | InsLoad(node: Node, ret: Return)                  // insertion: load the head
    | InsNext(node: Node, head: Ptr, ret: Return)       //   store next
    | InsRefs(node: Node, head: Ptr, ret: Return)       //   store reference count 1
    | InsCas(node: Node, head: Ptr, ret: Return)        //   compare-exchange of the head
    | InsBackOff(node: Node, head: Ptr, ret: Return)    //   it failed: give the list's reference up
    | GetHead                                           // try_get: load the head
    | GetRefs(node: Node)                               //   load the head's word
    | GetRef(node: Node, seen: nat)                     //   compare-exchange to take a reference
    | GetNext(node: Node)                               //   load next
    | GetCas(node: Node, next: Ptr)                     //   compare-exchange of the head
    | GetTake(node: Node)                               //   it succeeded: drop two references
    | GetDrop(node: Node, head: Ptr)                    //   it failed: drop our reference

  /** What a node is used for. */
  datatype Role =
    | Owned(who: Tid)        // in the hands of a client thread
    | Adding(who: Tid)       // passed to add, flag not yet set
    | Inserting(who: Tid)    // this thread runs add_knowing_refcount_is_zero on it
    | OnList
    | Waiting               // flagged; the thread that drops the last reference will insert it
    | Taken(who: Tid)        // unlinked by this thread, references not yet dropped

  datatype State = State(
    pc: map<Tid, Pc>,
    refs: map<Node, nat>,
    next: map<Node, Ptr>,
    head: Ptr,
    role: map<Node, Role>,
    list: seq<Node>)

  // ---------------------------------------------------------------------------------- steps

  predicate WellFormed(s: State) {
    && s.refs.Keys == s.role.Keys
    && s.next.Keys == s.role.Keys
    && forall t :: t in s.pc ==> Knows(s, s.pc[t])
  }

  /** Threads only look at nodes that exist; nodes are never freed while the list is in use. */
  predicate Knows(s: State, pc: Pc) {
    pc.Idle? || pc.GetHead? || pc.node in s.role
  }

  predicate Init(s: State) {
    && |s.pc| <= MAX_THREADS
    && (forall t :: t in s.pc ==> s.pc[t] == Idle)
    && s.refs == map[] && s.next == map[] && s.role == map[]
    && s.head == Null && s.list == []
  }

  function Goto(s: State, t: Tid, pc: Pc): State { s.(pc := s.pc[t := pc]) }

  function SetRefs(s: State, n: Node, w: int): State { s.(refs := s.refs[n := Wrap(w)]) }

  function SetRole(s: State, n: Node, r: Role): State { s.(role := s.role[n := r]) }

  function Loop(head: Ptr): Pc { if head.Null? then Idle else GetRefs(head.node) }

  function After(ret: Return): Pc { if ret.ToCaller? then Idle else Loop(ret.head) }

  /** The one step a thread inside `add` or `try_get` takes next. */
  function Step(s: State, t: Tid): State
    requires WellFormed(s) && t in s.pc
  {
    match s.pc[t]
    case Idle => s
    case AddFetch(n) =>
      var w := s.refs[n];
      var s1 := SetRefs(s, n, w + SHOULD_BE_ON_FREELIST);
      if w == 0 then Goto(SetRole(s1, n, Inserting(t)), t, InsLoad(n, ToCaller))
      else Goto(SetRole(s1, n, Waiting), t, Idle)
    case InsLoad(n, k) => Goto(s, t, InsNext(n, s.head, k))
    case InsNext(n, h, k) => Goto(s.(next := s.next[n := h]), t, InsRefs(n, h, k))
    case InsRefs(n, h, k) => Goto(SetRefs(s, n, 1), t, InsCas(n, h, k))
    case InsCas(n, h, k) =>
      if s.head == h then
        Goto(SetRole(s.(head := To(n), list := [n] + s.list), n, OnList), t, After(k))
      else Goto(s, t, InsBackOff(n, s.head, k))
    case InsBackOff(n, h, k) =>
      var w := s.refs[n];
      var s1 := SetRefs(s, n, w + SHOULD_BE_ON_FREELIST - 1);
      if w == 1 then Goto(s1, t, InsNext(n, h, k))
      else Goto(SetRole(s1, n, Waiting), t, After(k))
    case GetHead => Goto(s, t, Loop(s.head))
    case GetRefs(n) =>
      Goto(s, t, if RefCount(s.refs[n]) == 0 then GetHead else GetRef(n, s.refs[n]))
    case GetRef(n, seen) =>
      if s.refs[n] == seen then Goto(SetRefs(s, n, seen + 1), t, GetNext(n))
      else Goto(s, t, GetHead)
    case GetNext(n) => Goto(s, t, GetCas(n, s.next[n]))
    case GetCas(n, nx) =>
      if s.head == To(n) then
        Goto(SetRole(s.(head := nx, list := if s.list == [] then [] else s.list[1..]), n, Taken(t)), t, GetTake(n))
      else Goto(s, t, GetDrop(n, s.head))
    case GetTake(n) => Goto(SetRole(SetRefs(s, n, s.refs[n] as int - 2), n, Owned(t)), t, Idle)
    case GetDrop(n, h) =>
      var w := s.refs[n];
      var s1 := SetRefs(s, n, w as int - 1);
      if w == SHOULD_BE_ON_FREELIST + 1 then Goto(SetRole(s1, n, Inserting(t)), t, InsLoad(n, ToLoop(h)))
      else Goto(s1, t, Loop(h))
  }

  /** What the clients of the list do: create a node, hand one over, call `add` on an owned node, call `try_get`. */
  datatype Event =
    | Create(t: Tid, n: Node)
    | HandOver(t: Tid, n: Node, to: Tid)
    | CallAdd(t: Tid, n: Node)
    | CallGet(t: Tid)
    | Run(t: Tid)

  predicate Enabled(s: State, e: Event) {
    && e.t in s.pc
    && match e
       case Create(t, n) => n !in s.role
       case HandOver(t, n, to) => n in s.role && s.role[n] == Owned(t) && to in s.pc
       case CallAdd(t, n) => s.pc[t] == Idle && n in s.role && s.role[n] == Owned(t)
       case CallGet(t) => s.pc[t] == Idle
       case Run(t) => true
  }

  function Apply(s: State, e: Event): State
    requires WellFormed(s) && Enabled(s, e)
  {
    match e
    case Create(t, n) =>
      s.(refs := s.refs[n := 0], next := s.next[n := Null], role := s.role[n := Owned(t)])
    case HandOver(t, n, to) => SetRole(s, n, Owned(to))
    case CallAdd(t, n) => Goto(SetRole(s, n, Adding(t)), t, AddFetch(n))
    case CallGet(t) => Goto(s, t, GetHead)
    case Run(t) => Step(s, t)
  }

  ghost predicate Next(s: State, s': State) {
    WellFormed(s) && exists e: Event :: Enabled(s, e) && s' == Apply(s, e)
  }

  ghost predicate StepAt(run: seq<State>, i: nat) { i + 1 < |run| && Next(run[i], run[i + 1]) }

  /** A run of the system: any interleaving of any number of calls. */
  ghost predicate IsRun(run: seq<State>) {
    && |run| > 0
    && Init(run[0])
    && forall i: nat :: i + 1 < |run| ==> StepAt(run, i)
  }

  // ------------------------------------------------------------------------------ invariant

  /** Between taking a reference and dropping it. */
  predicate Holds(pc: Pc, n: Node) {
    (pc.GetNext? || pc.GetCas? || pc.GetTake? || pc.GetDrop?) && pc.node == n
  }

  predicate Inserts(pc: Pc, n: Node) {
    (pc.InsLoad? || pc.InsNext? || pc.InsRefs? || pc.InsCas? || pc.InsBackOff?) && pc.node == n
  }

  function Holders(s: State, n: Node): set<Tid> {
    set t | t in s.pc && Holds(s.pc[t], n)
  }

  /** A node being inserted whose count is still zero: nobody can take a reference. */
  predicate Unreachable(s: State, n: Node)
    requires n in s.role
  {
    s.role[n].Inserting? && var t := s.role[n].who; t in s.pc && !s.pc[t].InsCas? && !s.pc[t].InsBackOff?
  }

  /** What a node's word holds besides the references of the threads: the flag, or the list's own reference. */
  function Base(s: State, n: Node): nat
    requires n in s.role
  {
    match s.role[n]
    case Owned(_) => 0
    case Adding(_) => 0
    case Inserting(_) => if Unreachable(s, n) then SHOULD_BE_ON_FREELIST else 1
    case OnList => 1
    case Waiting => SHOULD_BE_ON_FREELIST
    case Taken(_) => 1
  }

  predicate RoleInv(s: State, n: Node)
    requires n in s.role
  {
    match s.role[n]
    case Owned(t) => t in s.pc
    case Adding(t) => t in s.pc && s.pc[t] == AddFetch(n)
    case Inserting(t) => t in s.pc && Inserts(s.pc[t], n)
    case OnList => n in s.list
    case Waiting => true
    case Taken(t) => t in s.pc && s.pc[t] == GetTake(n)
  }

  predicate NodeInv(s: State, n: Node)
    requires n in s.role && n in s.refs
  {
    && RoleInv(s, n)
    && (n in s.list ==> s.role[n] == OnList)
    && s.refs[n] == Base(s, n) + |Holders(s, n)|
    && (Unreachable(s, n) ==> |Holders(s, n)| == 0)
    && (s.role[n] == Waiting ==> |Holders(s, n)| > 0)
  }

  predicate ThreadInv(s: State, t: Tid)
    requires WellFormed(s) && t in s.pc
  {
    match s.pc[t]
    case AddFetch(n) => s.role[n] == Adding(t)
    case InsLoad(n, k) => s.role[n] == Inserting(t) && KnownReturn(s, k)
    case InsNext(n, h, k) => s.role[n] == Inserting(t) && KnownReturn(s, k)
    case InsRefs(n, h, k) => s.role[n] == Inserting(t) && s.next[n] == h && KnownReturn(s, k)
    case InsCas(n, h, k) => s.role[n] == Inserting(t) && s.next[n] == h && KnownReturn(s, k)
    case InsBackOff(n, h, k) => s.role[n] == Inserting(t) && KnownReturn(s, k)
    case GetRef(n, seen) => RefCount(seen) != 0
    case GetCas(n, nx) => s.next[n] == nx
    case GetTake(n) => s.role[n] == Taken(t)
    case GetDrop(n, h) => KnownPtr(s, h)
    case _ => true
  }

  predicate KnownPtr(s: State, p: Ptr) { p.To? ==> p.node in s.role }

  predicate KnownReturn(s: State, k: Return) { k.ToLoop? ==> KnownPtr(s, k.head) }

  /** Following the next pointers from `p` visits exactly `list`, no node twice. */
  predicate Linked(next: map<Node, Ptr>, p: Ptr, list: seq<Node>)
    decreases |list|
  {
    if list == [] then p == Null
    else p == To(list[0]) && list[0] in next && list[0] !in list[1..] && Linked(next, next[list[0]], list[1..])
  }

  predicate Inv(s: State) {
    && WellFormed(s)
    && |s.pc| <= MAX_THREADS
    && Linked(s.next, s.head, s.list)
    && Nodes(s) && Threads(s)
  }

  predicate Nodes(s: State)
    requires WellFormed(s)
  {
    forall n :: n in s.role ==> NodeInv(s, n)
  }

  predicate Threads(s: State)
    requires WellFormed(s)
  {
    forall t :: t in s.pc ==> ThreadInv(s, t)
  }

  // ------------------------------------------------------------------------- preservation

  lemma HoldersWithout(s: State, t: Tid, n: Node)
    requires t in s.pc
    ensures |Holders(s, n)| == |Holders(s, n) - {t}| + if Holds(s.pc[t], n) then 1 else 0
    ensures |Holders(s, n)| <= |s.pc|
  {
    if Holds(s.pc[t], n) { assert Holders(s, n) == Holders(s, n) - {t} + {t}; }
    else { assert Holders(s, n) == Holders(s, n) - {t}; }
    Arithmetic.SubsetSize(Holders(s, n), s.pc.Keys);
  }

  /** How moving thread `t` changes the number of references held on `n`; there are never too many for the word. */
  lemma HeldBy(s: State, s': State, t: Tid, n: Node)
    requires t in s.pc && t in s'.pc && s'.pc == s.pc[t := s'.pc[t]]
    ensures |Holders(s', n)| ==
      |Holders(s, n)| - (if Holds(s.pc[t], n) then 1 else 0) + (if Holds(s'.pc[t], n) then 1 else 0)
    ensures |Holders(s, n)| <= |s.pc| && |Holders(s', n)| <= |s.pc|
  {
    HoldersWithout(s, t, n);
    HoldersWithout(s', t, n);
    assert Holders(s', n) - {t} == Holders(s, n) - {t};
  }

  /** Thread `t` and node `n` are all that changes, and no other thread relies on what changes about `n`. */
  predicate LocalStep(s: State, s': State, t: Tid, n: Node)
    requires WellFormed(s)
  {
    && t in s.pc && t in s'.pc && s'.pc == s.pc[t := s'.pc[t]]
    && WellFormed(s') && s'.role.Keys == s.role.Keys && n in s.role
    && (s.pc[t].Idle? || s.pc[t].GetHead? || s.pc[t].node == n)
    && (forall m :: m in s.role && m != n ==>
          s'.refs[m] == s.refs[m] && s'.next[m] == s.next[m] && s'.role[m] == s.role[m])
    && (forall m :: m in s.role && m != n ==> !Holds(s'.pc[t], m))
    && (s'.next[n] == s.next[n] || (|Holders(s, n)| == 0 && s.role[n] == Inserting(t)))
    && (forall m :: m in s.role && m != n ==> (m in s'.list <==> m in s.list))
    && (s'.role[n] == s.role[n] || s.role[n].Owned? || s.role[n].OnList? || s.role[n].Waiting? || s.role[n].who == t)
  }

  lemma OtherNode(s: State, s': State, t: Tid, n: Node, m: Node)
    requires WellFormed(s) && LocalStep(s, s', t, n) && m in s.role && m != n && NodeInv(s, m)
    ensures NodeInv(s', m)
  {
    HeldBy(s, s', t, m);
  }

  lemma OtherThread(s: State, s': State, t: Tid, n: Node, u: Tid)
    requires WellFormed(s) && LocalStep(s, s', t, n) && u in s.pc && u != t && ThreadInv(s, u)
    ensures ThreadInv(s', u)
  {
    if s.pc[u].GetCas? && s.pc[u].node == n { assert u in Holders(s, n); }
  }

  /** A local step keeps the invariant if it does so for its own thread and node and for the chain. */
  lemma Local(s: State, s': State, t: Tid, n: Node)
    requires Inv(s) && LocalStep(s, s', t, n)
    requires NodeInv(s', n) && ThreadInv(s', t)
    requires Linked(s'.next, s'.head, s'.list)
    ensures Inv(s')
  {
    forall m | m in s'.role ensures NodeInv(s', m) { if m != n { OtherNode(s, s', t, n, m); } }
    forall u | u in s'.pc ensures ThreadInv(s', u) { if u != t { OtherThread(s, s', t, n, u); } }
  }

  /** What a thread about to act on `n` may rely on. */
  predicate Ready(s: State, t: Tid, n: Node) {
    && WellFormed(s) && |s.pc| <= MAX_THREADS
    && t in s.pc && n in s.role && !s.pc[t].Idle? && !s.pc[t].GetHead? && s.pc[t].node == n
    && ThreadInv(s, t) && NodeInv(s, n)
    && Linked(s.next, s.head, s.list)
  }

  predicate Fine(s': State, t: Tid, n: Node) {
    WellFormed(s') && n in s'.role && t in s'.pc && NodeInv(s', n) && ThreadInv(s', t)
  }

  lemma HeadKnown(s: State)
    requires WellFormed(s) && Linked(s.next, s.head, s.list)
    ensures KnownPtr(s, s.head)
  {}

  lemma AddFetchFine(s: State, t: Tid, n: Node)
    requires Ready(s, t, n) && s.pc[t].AddFetch?
    ensures Fine(Step(s, t), t, n)
  {
    HeldBy(s, Step(s, t), t, n);
  }

  lemma InsertFine(s: State, t: Tid, n: Node)
    requires Ready(s, t, n) && (s.pc[t].InsLoad? || s.pc[t].InsNext? || s.pc[t].InsRefs?)
    ensures Fine(Step(s, t), t, n)
  {
    HeldBy(s, Step(s, t), t, n);
  }

  lemma InsCasFine(s: State, t: Tid, n: Node)
    requires Ready(s, t, n) && s.pc[t].InsCas?
    ensures Fine(Step(s, t), t, n)
  {
    HeldBy(s, Step(s, t), t, n);
  }

  lemma InsBackOffFine(s: State, t: Tid, n: Node)
    requires Ready(s, t, n) && s.pc[t].InsBackOff?
    ensures Fine(Step(s, t), t, n)
  {
    HeldBy(s, Step(s, t), t, n);
  }

  lemma GetRefsFine(s: State, t: Tid, n: Node)
    requires Ready(s, t, n) && (s.pc[t].GetRefs? || s.pc[t].GetNext?)
    ensures Fine(Step(s, t), t, n)
  {
    HeldBy(s, Step(s, t), t, n);
  }

  lemma GetRefFine(s: State, t: Tid, n: Node)
    requires Ready(s, t, n) && s.pc[t].GetRef?
    ensures Fine(Step(s, t), t, n)
  {
    HeldBy(s, Step(s, t), t, n);
    if s.refs[n] == s.pc[t].seen {
      assert !Unreachable(s, n);
      assert Base(Step(s, t), n) == Base(s, n);
    }
  }

  lemma GetCasFine(s: State, t: Tid, n: Node)
    requires Ready(s, t, n) && s.pc[t].GetCas?
    ensures Fine(Step(s, t), t, n)
  {
    HeldBy(s, Step(s, t), t, n);
    HeadKnown(s);
  }

  lemma GetTakeFine(s: State, t: Tid, n: Node)
    requires Ready(s, t, n) && s.pc[t].GetTake?
    ensures Fine(Step(s, t), t, n)
  {
    HeldBy(s, Step(s, t), t, n);
  }

  /** The word says flag and one reference exactly when the last holder of a waiting node looks at it. */
  lemma LastHolder(s: State, t: Tid, n: Node)
    requires Ready(s, t, n) && s.pc[t].GetDrop?
    ensures s.refs[n] == SHOULD_BE_ON_FREELIST + 1 <==> s.role[n] == Waiting && |Holders(s, n)| == 1
  {
    HoldersWithout(s, t, n);
  }

  lemma GetDropFine(s: State, t: Tid, n: Node)
    requires Ready(s, t, n) && s.pc[t].GetDrop?
    ensures Fine(Step(s, t), t, n)
  {
    LastHolder(s, t, n);
    HeldBy(s, Step(s, t), t, n);
  }

  lemma AddLocal(s: State, t: Tid, n: Node)
    requires Ready(s, t, n) && (s.pc[t].AddFetch? || s.pc[t].InsLoad? || s.pc[t].InsNext? || s.pc[t].InsRefs?)
    ensures LocalStep(s, Step(s, t), t, n)
  {}

  lemma InsCasLocal(s: State, t: Tid, n: Node)
    requires Ready(s, t, n) && s.pc[t].InsCas?
    ensures LocalStep(s, Step(s, t), t, n)
  {}

  lemma InsBackOffLocal(s: State, t: Tid, n: Node)
    requires Ready(s, t, n) && s.pc[t].InsBackOff?
    ensures LocalStep(s, Step(s, t), t, n)
  {}

  lemma RefLocal(s: State, t: Tid, n: Node)
    requires Ready(s, t, n) && (s.pc[t].GetRefs? || s.pc[t].GetRef? || s.pc[t].GetNext?)
    ensures LocalStep(s, Step(s, t), t, n)
  {}

  lemma TakeLocal(s: State, t: Tid, n: Node)
    requires Ready(s, t, n) && (s.pc[t].GetCas? || s.pc[t].GetTake?)
    ensures LocalStep(s, Step(s, t), t, n)
  {
    HeadKnown(s);
  }

  lemma DropLocal(s: State, t: Tid, n: Node)
    requires Ready(s, t, n) && s.pc[t].GetDrop?
    ensures LocalStep(s, Step(s, t), t, n)
  {
    HoldersWithout(s, t, n);
  }

  lemma StepFine(s: State, t: Tid, n: Node)
    requires Ready(s, t, n)
    ensures LocalStep(s, Step(s, t), t, n) && Fine(Step(s, t), t, n)
  {
    match s.pc[t]
    case AddFetch(_) => AddLocal(s, t, n); AddFetchFine(s, t, n);
    case InsLoad(_, _) => AddLocal(s, t, n); InsertFine(s, t, n);
    case InsNext(_, _, _) => AddLocal(s, t, n); InsertFine(s, t, n);
    case InsRefs(_, _, _) => AddLocal(s, t, n); InsertFine(s, t, n);
    case InsCas(_, _, _) => InsCasLocal(s, t, n); InsCasFine(s, t, n);
    case InsBackOff(_, _, _) => InsBackOffLocal(s, t, n); InsBackOffFine(s, t, n);
    case GetRefs(_) => RefLocal(s, t, n); GetRefsFine(s, t, n);
    case GetRef(_, _) => RefLocal(s, t, n); GetRefFine(s, t, n);
    case GetNext(_) => RefLocal(s, t, n); GetRefsFine(s, t, n);
    case GetCas(_, _) => TakeLocal(s, t, n); GetCasFine(s, t, n);
    case GetTake(_) => TakeLocal(s, t, n); GetTakeFine(s, t, n);
    case GetDrop(_, _) => DropLocal(s, t, n); GetDropFine(s, t, n);
  }

  lemma {:induction false} LinkedFrame(next: map<Node, Ptr>, next': map<Node, Ptr>, p: Ptr, list: seq<Node>)
    requires Linked(next, p, list)
    requires forall n :: n in list && n in next ==> n in next' && next'[n] == next[n]
    ensures Linked(next', p, list)
    decreases |list|
  {
    if list != [] { LinkedFrame(next, next', next[list[0]], list[1..]); }
  }

  lemma ListKept(s: State, t: Tid, n: Node)
    requires Ready(s, t, n)
    ensures Linked(Step(s, t).next, Step(s, t).head, Step(s, t).list)
  {
    var s' := Step(s, t);
    match s.pc[t]
    case InsNext(_, h, _) => LinkedFrame(s.next, s'.next, s.head, s.list);
    case InsCas(_, h, _) => if s.head == h { assert s'.list[1..] == s.list; }
    case _ =>
  }

  lemma RunKeepsInv(s: State, t: Tid)
    requires Inv(s) && t in s.pc && !s.pc[t].Idle? && !s.pc[t].GetHead?
    ensures Inv(Step(s, t))
  {
    var n := s.pc[t].node;
    assert Ready(s, t, n);
    StepFine(s, t, n);
    ListKept(s, t, n);
    Local(s, Step(s, t), t, n);
  }

  /** A thread that did not move keeps its invariant if its node did not change hands. */
  lemma ThreadFrame(s: State, s': State, u: Tid)
    requires WellFormed(s) && WellFormed(s') && u in s.pc && u in s'.pc && s'.pc[u] == s.pc[u]
    requires s.role.Keys <= s'.role.Keys
    requires forall n :: n in s.role ==> s'.next[n] == s.next[n] && (s'.role[n] == s.role[n] || s.role[n].Owned?)
    requires ThreadInv(s, u)
    ensures ThreadInv(s', u)
  {}

  lemma CreateNode(s: State, t: Tid, n: Node, m: Node)
    requires WellFormed(s) && Enabled(s, Create(t, n)) && m in s.role && NodeInv(s, m)
    ensures NodeInv(Apply(s, Create(t, n)), m)
  {
    assert Holders(Apply(s, Create(t, n)), m) == Holders(s, m);
  }

  lemma CreateNodes(s: State, t: Tid, n: Node)
    requires WellFormed(s) && Nodes(s) && Enabled(s, Create(t, n)) && n !in s.list && WellFormed(Apply(s, Create(t, n)))
    ensures Nodes(Apply(s, Create(t, n)))
  {
    var s' := Apply(s, Create(t, n));
    assert Holders(s', n) == {};
    forall m | m in s.role ensures NodeInv(s', m) { CreateNode(s, t, n, m); }
  }

  /** Threads that do not move keep their invariants. */
  lemma ThreadsFrame(s: State, s': State)
    requires WellFormed(s) && WellFormed(s') && Threads(s) && s'.pc == s.pc && s.role.Keys <= s'.role.Keys
    requires forall n :: n in s.role ==> s'.next[n] == s.next[n] && (s'.role[n] == s.role[n] || s.role[n].Owned?)
    ensures Threads(s')
  {
    forall u | u in s'.pc ensures ThreadInv(s', u) { ThreadFrame(s, s', u); }
  }

  lemma CreateKeepsInv(s: State, t: Tid, n: Node)
    requires Inv(s) && Enabled(s, Create(t, n))
    ensures Inv(Apply(s, Create(t, n)))
  {
    CreateLinked(s, t, n);
    CreateNodes(s, t, n);
    ThreadsFrame(s, Apply(s, Create(t, n)));
  }

  lemma CreateLinked(s: State, t: Tid, n: Node)
    requires WellFormed(s) && Linked(s.next, s.head, s.list) && Enabled(s, Create(t, n))
    ensures var s' := Apply(s, Create(t, n)); WellFormed(s') && Linked(s'.next, s'.head, s'.list) && n !in s.list
  {
    LinkedIn(s.next, s.head, s.list);
    LinkedFrame(s.next, s.next[n := Null], s.head, s.list);
  }

  lemma {:induction false} LinkedIn(next: map<Node, Ptr>, p: Ptr, list: seq<Node>)
    requires Linked(next, p, list)
    ensures forall n :: n in list ==> n in next
    decreases |list|
  {
    if list != [] { LinkedIn(next, next[list[0]], list[1..]); }
  }

  lemma HandOverNode(s: State, t: Tid, n: Node, to: Tid, m: Node)
    requires WellFormed(s) && Enabled(s, HandOver(t, n, to)) && m in s.role && NodeInv(s, m)
    ensures NodeInv(Apply(s, HandOver(t, n, to)), m)
  {
    assert Holders(Apply(s, HandOver(t, n, to)), m) == Holders(s, m);
  }

  lemma HandOverKeepsInv(s: State, t: Tid, n: Node, to: Tid)
    requires Inv(s) && Enabled(s, HandOver(t, n, to))
    ensures Inv(Apply(s, HandOver(t, n, to)))
  {
    var s' := Apply(s, HandOver(t, n, to));
    assert WellFormed(s');
    HandOverNodes(s, t, n, to);
    ThreadsFrame(s, s');
  }

  lemma HandOverNodes(s: State, t: Tid, n: Node, to: Tid)
    requires WellFormed(s) && Nodes(s) && Enabled(s, HandOver(t, n, to)) && WellFormed(Apply(s, HandOver(t, n, to)))
    ensures Nodes(Apply(s, HandOver(t, n, to)))
  {
    var s' := Apply(s, HandOver(t, n, to));
    forall m | m in s'.role ensures NodeInv(s', m) { HandOverNode(s, t, n, to, m); }
  }

  lemma CallAddFine(s: State, t: Tid, n: Node)
    requires WellFormed(s) && Enabled(s, CallAdd(t, n)) && NodeInv(s, n)
    ensures LocalStep(s, Apply(s, CallAdd(t, n)), t, n) && Fine(Apply(s, CallAdd(t, n)), t, n)
  {
    HeldBy(s, Apply(s, CallAdd(t, n)), t, n);
  }

  lemma CallAddKeepsInv(s: State, t: Tid, n: Node)
    requires Inv(s) && Enabled(s, CallAdd(t, n))
    ensures Inv(Apply(s, CallAdd(t, n)))
  {
    CallAddFine(s, t, n);
    Local(s, Apply(s, CallAdd(t, n)), t, n);
  }

  /** Moving a thread that is attached to no node, to a place where it still is not, matters to no node. */
  lemma DetachedNode(s: State, t: Tid, pc: Pc, m: Node)
    requires t in s.pc && (s.pc[t].Idle? || s.pc[t].GetHead?)
    requires pc.Idle? || pc.GetHead? || pc.GetRefs?
    requires m in s.role && m in s.refs && NodeInv(s, m)
    ensures NodeInv(Goto(s, t, pc), m)
  {
    HeldBy(s, Goto(s, t, pc), t, m);
  }

  lemma DetachedKeepsInv(s: State, t: Tid, pc: Pc)
    requires Inv(s) && t in s.pc && (s.pc[t].Idle? || s.pc[t].GetHead?)
    requires pc.Idle? || pc.GetHead? || (pc.GetRefs? && pc.node in s.role)
    ensures Inv(Goto(s, t, pc))
  {
    assert WellFormed(Goto(s, t, pc));
    DetachedNodes(s, t, pc);
    DetachedThreads(s, t, pc);
  }

  lemma DetachedNodes(s: State, t: Tid, pc: Pc)
    requires WellFormed(s) && Nodes(s) && t in s.pc && (s.pc[t].Idle? || s.pc[t].GetHead?) && WellFormed(Goto(s, t, pc))
    requires pc.Idle? || pc.GetHead? || pc.GetRefs?
    ensures Nodes(Goto(s, t, pc))
  {
    var s' := Goto(s, t, pc);
    forall m | m in s'.role ensures NodeInv(s', m) { DetachedNode(s, t, pc, m); }
  }

  lemma DetachedThreads(s: State, t: Tid, pc: Pc)
    requires WellFormed(s) && Threads(s) && t in s.pc && WellFormed(Goto(s, t, pc))
    requires pc.Idle? || pc.GetHead? || pc.GetRefs?
    ensures Threads(Goto(s, t, pc))
  {
    var s' := Goto(s, t, pc);
    forall u | u in s'.pc ensures ThreadInv(s', u) { if u != t { ThreadFrame(s, s', u); } }
  }

  lemma ApplyKeepsInv(s: State, e: Event)
    requires Inv(s) && Enabled(s, e)
    ensures Inv(Apply(s, e))
  {
    match e
    case Create(t, n) => CreateKeepsInv(s, t, n);
    case HandOver(t, n, to) => HandOverKeepsInv(s, t, n, to);
    case CallAdd(t, n) => CallAddKeepsInv(s, t, n);
    case CallGet(t) => DetachedKeepsInv(s, t, GetHead);
    case Run(t) =>
      if s.pc[t].GetHead? {
        HeadKnown(s);
        DetachedKeepsInv(s, t, Loop(s.head));
      } else if !s.pc[t].Idle? {
        RunKeepsInv(s, t);
      }
  }

  lemma {:induction false} Reachable(run: seq<State>, i: nat)
    requires IsRun(run) && i < |run|
    ensures Inv(run[i])
  {
    if i > 0 {
      Reachable(run, i - 1);
      assert StepAt(run, i - 1);
      NextKeepsInv(run[i - 1], run[i]);
    }
  }

  lemma NextKeepsInv(s: State, s': State)
    requires Inv(s) && Next(s, s')
    ensures Inv(s')
  {
    var e: Event :| Enabled(s, e) && s' == Apply(s, e);
    ApplyKeepsInv(s, e);
  }

  // ------------------------------------------------------------------------------ theorems

  /** The thread has exclusive use of the node: as its client, inside `add`, inserting it, or having just unlinked
      it. */
  predicate Owns(s: State, t: Tid, n: Node) {
    && t in s.pc && n in s.role
    && (s.role[n] == Owned(t) || s.pc[t] == AddFetch(n) || Inserts(s.pc[t], n) || s.pc[t] == GetTake(n))
  }

  function Successor(list: seq<Node>): Ptr { if |list| > 1 then To(list[1]) else Null }

  lemma NodeAt(run: seq<State>, i: nat, n: Node)
    requires IsRun(run) && i < |run| && n in run[i].role
    ensures WellFormed(run[i]) && |run[i].pc| <= MAX_THREADS && NodeInv(run[i], n)
  {
    Reachable(run, i);
  }

  lemma ThreadAt(run: seq<State>, i: nat, t: Tid)
    requires IsRun(run) && i < |run| && t in run[i].pc
    ensures WellFormed(run[i]) && Linked(run[i].next, run[i].head, run[i].list) && ThreadInv(run[i], t)
  {
    Reachable(run, i);
  }

  lemma OneOwner(run: seq<State>, i: nat, t: Tid, n: Node)
    requires IsRun(run) && i < |run| && Owns(run[i], t, n)
    ensures n !in run[i].list
    ensures run[i].role[n] in {Owned(t), Adding(t), Inserting(t), Taken(t)}
  {
    NodeAt(run, i, n);
    ThreadAt(run, i, t);
  }

  lemma TrueSuccessor(run: seq<State>, i: nat, t: Tid)
    requires IsRun(run) && i < |run| && t in run[i].pc && run[i].pc[t].GetCas? && run[i].head == To(run[i].pc[t].node)
    ensures run[i].pc[t].next == Successor(run[i].list)
  {
    ThreadAt(run, i, t);
    var s := run[i];
    assert Linked(s.next, s.next[s.list[0]], s.list[1..]);
  }

  /** In every reachable state the head starts a chain without repetition, a linked node has no owner, no
      node has two, and a compare-exchange of the head that would succeed installs the true successor. */
  lemma NoAba(run: seq<State>, i: nat)
    requires IsRun(run) && i < |run|
    ensures var s := run[i];
      && Linked(s.next, s.head, s.list)
      && (forall t, n :: Owns(s, t, n) ==> n !in s.list)
      && (forall t, u, n :: Owns(s, t, n) && Owns(s, u, n) ==> t == u)
      && (forall t :: t in s.pc && s.pc[t].GetCas? && s.head == To(s.pc[t].node) ==> s.pc[t].next == Successor(s.list))
  {
    var s := run[i];
    assert Linked(s.next, s.head, s.list) by { Reachable(run, i); }
    forall t, n | Owns(s, t, n) ensures n !in s.list { OneOwner(run, i, t, n); }
    forall t, u, n | Owns(s, t, n) && Owns(s, u, n) ensures t == u {
      OneOwner(run, i, t, n);
      OneOwner(run, i, u, n);
    }
    forall t | t in s.pc && s.pc[t].GetCas? && s.head == To(s.pc[t].node)
      ensures s.pc[t].next == Successor(s.list)
    {
      TrueSuccessor(run, i, t);
    }
  }

  /** A next pointer is only rewritten while no thread holds a reference to the node and the node is not linked. */
  lemma NextIsStable(run: seq<State>, i: nat, n: Node)
    requires IsRun(run) && i + 1 < |run| && n in run[i].role && n in run[i].next
    requires n in run[i + 1].next && run[i + 1].next[n] != run[i].next[n]
    ensures Holders(run[i], n) == {} && n !in run[i].list
  {
    NodeAt(run, i, n);
    var s := run[i];
    assert StepAt(run, i);
    var e: Event :| Enabled(s, e) && run[i + 1] == Apply(s, e);
    assert e.Run? && s.pc[e.t].InsNext? && s.pc[e.t].node == n;
    ThreadAt(run, i, e.t);
  }

  /** A node is always linked, or in the hands of one thread, or flagged with a reference holder left to insert it. */
  lemma NothingIsLost(run: seq<State>, i: nat, n: Node)
    requires IsRun(run) && i < |run| && n in run[i].role
    ensures var s := run[i];
      && n in s.refs
      && (n in s.list || (exists t :: Owns(s, t, n)) || (s.refs[n] >= SHOULD_BE_ON_FREELIST && Holders(s, n) != {}))
      && (n in s.list ==> s.refs[n] == 1 + |Holders(s, n)| && forall t :: !Owns(s, t, n))
  {
    var s := run[i];
    NoAba(run, i);
    NodeAt(run, i, n);
    match s.role[n]
    case OnList =>
    case Waiting =>
    case _ => assert Owns(s, s.role[n].who, n);
  }

  /** Whoever drops the last reference to a flagged node takes over its insertion. */
  lemma LastReferenceInserts(run: seq<State>, i: nat, t: Tid, n: Node)
    requires IsRun(run) && i < |run| && t in run[i].pc && n in run[i].role
    requires run[i].role[n] == Waiting && Holders(run[i], n) == {t} && run[i].pc[t].GetDrop?
    ensures WellFormed(run[i]) && Inserts(Step(run[i], t).pc[t], n)
  {
    NodeAt(run, i, n);
    assert t in Holders(run[i], n);
  }

  /** When no call is in progress the list holds exactly the nodes added and not taken. */
  lemma Quiescent(run: seq<State>, i: nat)
    requires IsRun(run) && i < |run|
    requires forall t :: t in run[i].pc ==> run[i].pc[t] == Idle
    ensures var s := run[i];
      && Linked(s.next, s.head, s.list)
      && forall n :: n in s.role ==> (n in s.list <==> !s.role[n].Owned?)
  {
    var s := run[i];
    assert Linked(s.next, s.head, s.list) by { Reachable(run, i); }
    forall n | n in s.role ensures n in s.list <==> !s.role[n].Owned? {
      NodeAt(run, i, n);
      assert Holders(s, n) == {};
    }
  }

  /** The count and the flag never run into each other, and a just unlinked node is never flagged. */
  lemma WordsAreExact(run: seq<State>, i: nat, n: Node)
    requires IsRun(run) && i < |run| && n in run[i].role
    ensures var s := run[i];
      && n in s.refs && s.refs[n] < WORD
      && RefCount(s.refs[n]) == RefCount(Base(s, n)) + |Holders(s, n)|
      && (forall t :: t in s.pc && s.pc[t] == GetTake(n) ==> s.refs[n] < SHOULD_BE_ON_FREELIST)
  {
    var s := run[i];
    NodeAt(run, i, n);
    Arithmetic.SubsetSize(Holders(s, n), s.pc.Keys);
    forall t | t in s.pc && s.pc[t] == GetTake(n) ensures s.role[n] == Taken(t) { ThreadAt(run, i, t); }
  }

  // ------------------------------------------------------------------------------ answers

  /** Inside a call of `try_get`, which may be inserting a node on behalf of a call of `add`. */
  predicate InGet(pc: Pc) {
    || pc.GetHead? || pc.GetRefs? || pc.GetRef? || pc.GetNext? || pc.GetCas? || pc.GetTake? || pc.GetDrop?
    || ((pc.InsLoad? || pc.InsNext? || pc.InsRefs? || pc.InsCas? || pc.InsBackOff?) && pc.ret.ToLoop?)
  }

  /** The head last loaded by the call, which its loop will test next, is null. */
  predicate SawNull(pc: Pc) {
    || (pc.GetDrop? && pc.head.Null?)
    || ((pc.InsLoad? || pc.InsNext? || pc.InsRefs? || pc.InsCas? || pc.InsBackOff?) && pc.ret == ToLoop(Null))
  }

  lemma EventAt(run: seq<State>, i: nat) returns (e: Event)
    requires IsRun(run) && 0 < i < |run|
    ensures WellFormed(run[i - 1]) && Enabled(run[i - 1], e) && run[i] == Apply(run[i - 1], e)
  {
    assert StepAt(run, i - 1);
    e :| Enabled(run[i - 1], e) && run[i] == Apply(run[i - 1], e);
  }

  /** Only the thread of the event moves. */
  lemma OthersStay(s: State, e: Event)
    requires WellFormed(s) && Enabled(s, e)
    ensures Apply(s, e).pc.Keys == s.pc.Keys && forall u :: u in s.pc && u != e.t ==> Apply(s, e).pc[u] == s.pc[u]
  {
    match e
    case Create(_, _) =>
    case HandOver(_, _, _) =>
    case CallAdd(_, _) =>
    case CallGet(_) =>
    case Run(t) => OthersStayInStep(s, t);
  }

  lemma OthersStayInStep(s: State, t: Tid)
    requires WellFormed(s) && t in s.pc
    ensures Step(s, t).pc.Keys == s.pc.Keys && forall u :: u in s.pc && u != t ==> Step(s, t).pc[u] == s.pc[u]
  {
    match s.pc[t]
    case Idle =>
    case AddFetch(n) =>
    case InsLoad(n, k) =>
    case InsNext(n, h, k) =>
    case InsRefs(n, h, k) =>
    case InsCas(n, h, k) =>
    case InsBackOff(n, h, k) =>
    case GetHead =>
    case GetRefs(n) =>
    case GetRef(n, seen) =>
    case GetNext(n) =>
    case GetCas(n, nx) =>
    case GetTake(n) =>
    case GetDrop(n, h) =>
  }

  /** How a thread comes to know of a null head, and how it comes to take a node. */
  lemma ComesFrom(s: State, t: Tid)
    requires WellFormed(s) && t in s.pc
    ensures var pc, pc' := s.pc[t], Step(s, t).pc[t];
      && (SawNull(pc') ==> (pc.GetCas? && s.head == Null) || SawNull(pc))
      && (pc'.GetTake? ==> pc.GetCas? && pc.node == pc'.node && s.head == To(pc.node))
      && (pc'.GetTake? ==> Step(s, t).list == if s.list == [] then [] else s.list[1..])
  {
    match s.pc[t]
    case Idle =>
    case AddFetch(n) =>
    case InsLoad(n, k) =>
    case InsNext(n, h, k) =>
    case InsRefs(n, h, k) =>
    case InsCas(n, h, k) =>
    case InsBackOff(n, h, k) =>
    case GetHead =>
    case GetRefs(n) =>
    case GetRef(n, seen) =>
    case GetNext(n) =>
    case GetCas(n, nx) =>
    case GetTake(n) =>
    case GetDrop(n, h) =>
  }

  /** A thread inside `try_get` either stays where it is or takes its step. */
  lemma StaysOrSteps(s: State, e: Event, t: Tid)
    requires WellFormed(s) && Enabled(s, e) && t in s.pc
    ensures t in Apply(s, e).pc
    ensures Apply(s, e).pc[t] == s.pc[t] || e == Run(t) || (s.pc[t] == Idle && (e.CallAdd? || e.CallGet?))
  {
    OthersStay(s, e);
  }

  /** Where a null that the loop is about to find came from: the list was empty then. */
  lemma {:induction false} NullWasSeen(run: seq<State>, i: nat, t: Tid) returns (k: nat)
    requires IsRun(run) && i < |run| && t in run[i].pc && SawNull(run[i].pc[t])
    ensures k < i && run[k].head == Null && run[k].list == []
    ensures forall j :: k <= j <= i ==> t in run[j].pc && InGet(run[j].pc[t])
  {
    assert i > 0;
    var e := EventAt(run, i);
    OthersStay(run[i - 1], e);
    StaysOrSteps(run[i - 1], e, t);
    if e == Run(t) { ComesFrom(run[i - 1], t); }
    if SawNull(run[i - 1].pc[t]) {
      k := NullWasSeen(run, i - 1, t);
    } else {
      k := i - 1;
      ThreadAt(run, k, t);
    }
  }

  /** In this step the thread got hold of a node. */
  ghost predicate Gains(s: State, s': State, t: Tid) {
    exists n :: n in s'.role && s'.role[n] == Owned(t) && (n in s.role ==> s.role[n] != Owned(t))
  }

  /** How a call of `try_get` comes back: with a node, or by way of a null head. */
  lemma ReturnFrom(s: State, t: Tid)
    requires WellFormed(s) && t in s.pc && InGet(s.pc[t]) && ThreadInv(s, t) && Step(s, t).pc[t] == Idle
    ensures Gains(s, Step(s, t), t) || (s.pc[t] == GetHead && s.head == Null) || SawNull(s.pc[t])
  {
    match s.pc[t]
    case InsLoad(n, k) =>
    case InsNext(n, h, k) =>
    case InsRefs(n, h, k) =>
    case InsCas(n, h, k) =>
    case InsBackOff(n, h, k) =>
    case GetHead =>
    case GetRefs(n) =>
    case GetRef(n, seen) =>
    case GetNext(n) =>
    case GetCas(n, nx) =>
    case GetTake(n) => assert Step(s, t).role[n] == Owned(t);
    case GetDrop(n, h) =>
  }

  /** However the threads interleave: a call of `try_get` that returns without a node found the list empty at some
      point during that call. */
  lemma EmptyAnswer(run: seq<State>, i: nat, t: Tid) returns (k: nat)
    requires IsRun(run) && i + 1 < |run| && t in run[i].pc && InGet(run[i].pc[t])
    requires t in run[i + 1].pc && run[i + 1].pc[t] == Idle && !Gains(run[i], run[i + 1], t)
    ensures k <= i && run[k].head == Null && run[k].list == []
    ensures forall j :: k <= j <= i ==> t in run[j].pc && InGet(run[j].pc[t])
  {
    var e := EventAt(run, i + 1);
    ThreadAt(run, i, t);
    StaysOrSteps(run[i], e, t);
    ReturnFrom(run[i], t);
    if SawNull(run[i].pc[t]) { k := NullWasSeen(run, i, t); } else { k := i; }
  }

  /** And one that returns with a node unlinked it, during that call, from the front of the list. */
  lemma {:induction false} TakenFromFront(run: seq<State>, i: nat, t: Tid) returns (k: nat)
    requires IsRun(run) && i < |run| && t in run[i].pc && run[i].pc[t].GetTake?
    ensures k < i && run[k].list != [] && run[k].list[0] == run[i].pc[t].node && run[k + 1].list == run[k].list[1..]
    ensures forall j :: k <= j <= i ==> t in run[j].pc && InGet(run[j].pc[t])
  {
    assert i > 0;
    var e := EventAt(run, i);
    OthersStay(run[i - 1], e);
    StaysOrSteps(run[i - 1], e, t);
    if run[i - 1].pc[t] == run[i].pc[t] {
      k := TakenFromFront(run, i - 1, t);
    } else {
      k := i - 1;
      ComesFrom(run[k], t);
      ThreadAt(run, k, t);
    }
  }

  /** Steps of thread `t` with nobody else moving. */
  ghost predicate Lone(trace: seq<State>, t: Tid) {
    |trace| > 0 && forall j :: 0 <= j < |trace| - 1 ==> LoneStep(trace[j], trace[j + 1], t)
  }

  ghost predicate LoneStep(s: State, s': State, t: Tid) {
    WellFormed(s) && t in s.pc && s.pc[t] != Idle && s' == Step(s, t)
  }

  /** A call that starts in `s` and returns in `s'`. */
  ghost predicate LoneCall(trace: seq<State>, t: Tid, s: State, s': State) {
    && Lone(trace, t) && trace[0] == s && trace[|trace| - 1] == s'
    && t in s'.pc && s'.pc[t] == Idle
  }

  lemma OneMore(trace: seq<State>, t: Tid, s: State, pc: Pc, s': State, pc': Pc) returns (longer: seq<State>)
    requires Lone(trace, t) && trace[|trace| - 1] == Goto(s, t, pc)
    requires WellFormed(s) && t in s.pc && Knows(s, pc) && pc != Idle
    requires WellFormed(Goto(s, t, pc)) ==> Step(Goto(s, t, pc), t) == Goto(s', t, pc')
    ensures Lone(longer, t) && longer[0] == trace[0] && longer[|longer| - 1] == Goto(s', t, pc')
  {
    longer := trace + [Goto(s', t, pc')];
    assert WellFormed(Goto(s, t, pc));
    forall j | 0 <= j < |longer| - 1 ensures LoneStep(longer[j], longer[j + 1], t) {
      if j < |trace| - 1 { assert longer[j] == trace[j] && longer[j + 1] == trace[j + 1]; }
    }
  }

  lemma FrontNode(run: seq<State>, i: nat)
    requires IsRun(run) && i < |run| && (forall t :: t in run[i].pc ==> run[i].pc[t] == Idle) && run[i].list != []
    ensures var s := run[i];
      var n := s.list[0];
      && WellFormed(s) && s.head == To(n) && n in s.role && s.role[n] == OnList && s.refs[n] == 1
      && s.next[n] == Successor(s.list)
  {
    var s := run[i];
    Reachable(run, i);
    assert Linked(s.next, s.next[s.list[0]], s.list[1..]);
    NodeAt(run, i, s.list[0]);
    assert Holders(s, s.list[0]) == {};
  }

  /** A call of `try_get` that runs alone when nothing else is in progress takes the first node of the list, or returns
      with nothing changed if there is none. */
  lemma SoloGet(run: seq<State>, i: nat, t: Tid) returns (trace: seq<State>)
    requires IsRun(run) && i < |run| && t in run[i].pc && forall u :: u in run[i].pc ==> run[i].pc[u] == Idle
    ensures LoneCall(trace, t, Goto(run[i], t, GetHead), if run[i].list == [] then run[i] else Took(run[i], t))
  {
    var s := run[i];
    Reachable(run, i);
    var s0 := Goto(s, t, GetHead);
    if s.list == [] {
      trace := [s0, Step(s0, t)];
      assert Step(s0, t) == s;
    } else {
      FrontNode(run, i);
      trace := SoloTake(s, t, s.list[0]);
    }
  }

  /** The state after `t` took the first node. */
  function Took(s: State, t: Tid): State
    requires s.list != []
  {
    var n := s.list[0];
    s.(list := s.list[1..], head := Successor(s.list), role := s.role[n := Owned(t)], refs := s.refs[n := 0])
  }

  lemma GotoTwice(s: State, t: Tid, a: Pc, b: Pc)
    ensures Goto(Goto(s, t, a), t, b) == Goto(s, t, b)
  {
    assert s.pc[t := a][t := b] == s.pc[t := b];
  }

  /** Up to the reference. */
  lemma SoloReaches(s: State, t: Tid, n: Node) returns (trace: seq<State>)
    requires WellFormed(s) && t in s.pc && s.head == To(n) && n in s.role && s.refs[n] == 1
    ensures Lone(trace, t) && trace[0] == Goto(s, t, GetHead)
    ensures trace[|trace| - 1] == Goto(s.(refs := s.refs[n := 2]), t, GetNext(n))
  {
    GotoTwice(s, t, GetHead, GetRefs(n));
    trace := OneMore([Goto(s, t, GetHead)], t, s, GetHead, s, GetRefs(n));
    GotoTwice(s, t, GetRefs(n), GetRef(n, 1));
    trace := OneMore(trace, t, s, GetRefs(n), s, GetRef(n, 1));
    GotoTwice(s, t, GetRef(n, 1), GetNext(n));
    trace := OneMore(trace, t, s, GetRef(n, 1), s.(refs := s.refs[n := 2]), GetNext(n));
  }

  /** Up to the exchange of the head. */
  lemma SoloUnlinks(trace: seq<State>, s: State, t: Tid, n: Node) returns (longer: seq<State>)
    requires Lone(trace, t) && trace[|trace| - 1] == Goto(s, t, GetNext(n))
    requires WellFormed(s) && t in s.pc && s.head == To(n) && n in s.role && s.list != []
    requires s.next[n] == Successor(s.list)
    ensures Lone(longer, t) && longer[0] == trace[0]
    ensures longer[|longer| - 1] ==
      Goto(s.(head := Successor(s.list), list := s.list[1..], role := s.role[n := Taken(t)]), t, GetTake(n))
  {
    var nx := Successor(s.list);
    GotoTwice(s, t, GetNext(n), GetCas(n, nx));
    longer := OneMore(trace, t, s, GetNext(n), s, GetCas(n, nx));
    GotoTwice(s, t, GetCas(n, nx), GetTake(n));
    var s' := s.(head := nx, list := s.list[1..], role := s.role[n := Taken(t)]);
    longer := OneMore(longer, t, s, GetCas(n, nx), s', GetTake(n));
  }

  lemma SoloDrops(trace: seq<State>, s: State, t: Tid, n: Node) returns (longer: seq<State>)
    requires Lone(trace, t) && trace[|trace| - 1] == Goto(s, t, GetTake(n))
    requires WellFormed(s) && t in s.pc && n in s.role && s.refs[n] == 2
    ensures Lone(longer, t) && longer[0] == trace[0]
    ensures longer[|longer| - 1] == Goto(s.(refs := s.refs[n := 0], role := s.role[n := Owned(t)]), t, Idle)
  {
    GotoTwice(s, t, GetTake(n), Idle);
    longer := OneMore(trace, t, s, GetTake(n), s.(refs := s.refs[n := 0], role := s.role[n := Owned(t)]), Idle);
  }

  lemma SoloTake(s: State, t: Tid, n: Node) returns (trace: seq<State>)
    requires WellFormed(s) && t in s.pc && s.pc[t] == Idle && s.list != [] && n == s.list[0] && s.head == To(n)
    requires n in s.role && s.refs[n] == 1 && s.next[n] == Successor(s.list)
    ensures LoneCall(trace, t, Goto(s, t, GetHead), Took(s, t))
  {
    var r := s.(refs := s.refs[n := 2]);
    var u := r.(head := Successor(s.list), list := s.list[1..], role := s.role[n := Taken(t)]);
    trace := SoloReaches(s, t, n);
    trace := SoloUnlinks(trace, r, t, n);
    trace := SoloDrops(trace, u, t, n);
    assert u.refs[n := 0] == s.refs[n := 0] && u.role[n := Owned(t)] == s.role[n := Owned(t)];
    assert Goto(Took(s, t), t, Idle).pc == s.pc;
  }

  /** The state after `t` put node `n` at the front. */
  function Put(s: State, n: Node): State {
    s.(list := [n] + s.list, head := To(n), role := s.role[n := OnList], refs := s.refs[n := 1],
       next := s.next[n := s.head])
  }

  /** The node is made ready, */
  lemma SoloPrepares(trace: seq<State>, s: State, t: Tid, n: Node) returns (longer: seq<State>)
    requires Lone(trace, t) && trace[|trace| - 1] == Goto(s, t, InsLoad(n, ToCaller))
    requires WellFormed(s) && t in s.pc && n in s.role
    ensures Lone(longer, t) && longer[0] == trace[0]
    ensures longer[|longer| - 1] == Goto(s.(next := s.next[n := s.head]), t, InsRefs(n, s.head, ToCaller))
  {
    var h := s.head;
    GotoTwice(s, t, InsLoad(n, ToCaller), InsNext(n, h, ToCaller));
    longer := OneMore(trace, t, s, InsLoad(n, ToCaller), s, InsNext(n, h, ToCaller));
    GotoTwice(s, t, InsNext(n, h, ToCaller), InsRefs(n, h, ToCaller));
    longer := OneMore(longer, t, s, InsNext(n, h, ToCaller), s.(next := s.next[n := h]), InsRefs(n, h, ToCaller));
  }

  /** and linked in. */
  lemma SoloLinks(trace: seq<State>, s: State, t: Tid, n: Node) returns (longer: seq<State>)
    requires Lone(trace, t) && trace[|trace| - 1] == Goto(s, t, InsRefs(n, s.head, ToCaller))
    requires WellFormed(s) && t in s.pc && n in s.role && s.next[n] == s.head
    ensures Lone(longer, t) && longer[0] == trace[0] && longer[|longer| - 1] == Goto(Put(s, n), t, Idle)
  {
    var h, v := s.head, s.(refs := s.refs[n := 1]);
    GotoTwice(s, t, InsRefs(n, h, ToCaller), InsCas(n, h, ToCaller));
    longer := OneMore(trace, t, s, InsRefs(n, h, ToCaller), v, InsCas(n, h, ToCaller));
    GotoTwice(v, t, InsCas(n, h, ToCaller), Idle);
    assert s.next[n := h] == s.next;
    longer := OneMore(longer, t, v, InsCas(n, h, ToCaller), Put(s, n), Idle);
  }

  lemma SoloFlags(s: State, t: Tid, n: Node) returns (trace: seq<State>)
    requires WellFormed(s) && t in s.pc && n in s.role && s.refs[n] == 0
    ensures Lone(trace, t) && trace[0] == Goto(s, t, AddFetch(n))
    ensures trace[|trace| - 1] ==
      Goto(s.(refs := s.refs[n := SHOULD_BE_ON_FREELIST], role := s.role[n := Inserting(t)]), t, InsLoad(n, ToCaller))
  {
    var s' := s.(refs := s.refs[n := SHOULD_BE_ON_FREELIST], role := s.role[n := Inserting(t)]);
    GotoTwice(s, t, AddFetch(n), InsLoad(n, ToCaller));
    trace := OneMore([Goto(s, t, AddFetch(n))], t, s, AddFetch(n), s', InsLoad(n, ToCaller));
  }

  /** A call of `add` that runs alone when nothing else is in progress puts the node at the front. */
  lemma SoloAdd(run: seq<State>, i: nat, t: Tid, n: Node) returns (trace: seq<State>)
    requires IsRun(run) && i < |run| && t in run[i].pc && forall u :: u in run[i].pc ==> run[i].pc[u] == Idle
    requires Enabled(run[i], CallAdd(t, n))
    ensures WellFormed(run[i]) && LoneCall(trace, t, Apply(run[i], CallAdd(t, n)), Put(run[i], n))
  {
    NodeAt(run, i, n);
    assert Holders(run[i], n) == {};
    trace := SoloPut(run[i], t, n);
  }

  lemma SoloPut(s: State, t: Tid, n: Node) returns (trace: seq<State>)
    requires WellFormed(s) && Enabled(s, CallAdd(t, n)) && s.refs[n] == 0
    ensures LoneCall(trace, t, Apply(s, CallAdd(t, n)), Put(s, n))
  {
    var q := s.(role := s.role[n := Adding(t)]);
    var r := q.(refs := s.refs[n := SHOULD_BE_ON_FREELIST], role := s.role[n := Inserting(t)]);
    trace := SoloFlags(q, t, n);
    assert q.role[n := Inserting(t)] == r.role;
    trace := SoloPrepares(trace, r, t, n);
    trace := SoloLinks(trace, r.(next := s.next[n := s.head]), t, n);
    assert s.next[n := s.head][n := s.head] == s.next[n := s.head];
    assert r.refs[n := 1] == s.refs[n := 1] && r.role[n := OnList] == s.role[n := OnList];
    assert Goto(Put(s, n), t, Idle).pc == s.pc;
  }
}
