/**
 The optimistic dequeue of one sub-queue of the block queue, as a step system: one producer that
 publishes elements and any number of consumers running `dequeue` (a request for one element) and
 `dequeue_bulk` (a request for up to `max`). Every atomic access is one step.

 A consumer reserves tickets by adding to `optimistic`, looks at the tail again, adds the part that
 turned out not to exist to `overcommit`, and only then advances the head by the part that exists.
 `tickets` has one record per reservation: the local variables of the consumer that made it, which only
 that consumer reads, kept as history once it is settled. `claims` is history: one record per advance
 of the head.
 */
module DequeueProtocol {
  import Arithmetic

  type Tid = nat

  datatype Pc =
    | Idle
    | LoadTail(max: nat)
    | LoadOvercommit(max: nat, tail: nat)
    | LoadOptimistic(max: nat, tail: nat, over: nat)
    | Reserve(desired: nat, over: nat)              // fetch_add on the optimistic count
    | Recheck(k: nat)                               // load the tail again
    | GiveBack(k: nat)                              // fetch_add on the overcommit
    | Advance(k: nat)                               // fetch_add on the head index

  datatype Phase = Open | Owing | Claiming | Settled

  /** One reservation: `desired` tickets from `start` on, made by a consumer that had loaded `seen` as the
      overcommit; once decided, `actual` of them stand for elements. */
  datatype Ticket = Ticket(who: Tid, start: nat, desired: nat, seen: nat, phase: Phase, actual: nat)

  /** Indices `first .. first + count` were handed to `who`. */
  datatype Claim = Claim(who: Tid, first: nat, count: nat)

  datatype State = State(
    tail: nat,
    head: nat,
    optimistic: nat,
    overcommit: nat,
    pc: map<Tid, Pc>,
    tickets: seq<Ticket>,
    claims: seq<Claim>)

  // ---------------------------------------------------------------------------------- steps

  predicate Init(s: State) {
    && s.tail == s.head == s.optimistic == s.overcommit == 0
    && s.tickets == [] && s.claims == []
    && forall t :: t in s.pc ==> s.pc[t] == Idle
  }

  predicate HasTicket(pc: Pc) { pc.Recheck? || pc.GiveBack? || pc.Advance? }

  predicate WellFormed(s: State) {
    && (forall t :: t in s.pc && HasTicket(s.pc[t]) ==> s.pc[t].k < |s.tickets|)
    && (forall k :: 0 <= k < |s.tickets| ==> s.tickets[k].actual <= s.tickets[k].desired)
  }

  function Goto(s: State, t: Tid, pc: Pc): State { s.(pc := s.pc[t := pc]) }

  function SetTicket(s: State, k: nat, ticket: Ticket): State
    requires k < |s.tickets|
  {
    s.(tickets := s.tickets[k := ticket])
  }

  function Step(s: State, t: Tid): State
    requires WellFormed(s) && t in s.pc
  {
    match s.pc[t]
    case Idle => s
    case LoadTail(max) => Goto(s, t, LoadOvercommit(max, s.tail))
    case LoadOvercommit(max, tail) => Goto(s, t, LoadOptimistic(max, tail, s.overcommit))
    case LoadOptimistic(max, tail, over) =>
      var available := tail - (s.optimistic - over);
      Goto(s, t, if available > 0 then Reserve(Arithmetic.Min(available, max), over) else Idle)
    case Reserve(desired, over) =>
      Goto(s.(optimistic := s.optimistic + desired,
              tickets := s.tickets + [Ticket(t, s.optimistic, desired, over, Open, 0)]), t, Recheck(|s.tickets|))
    case Recheck(k) =>
      var c := s.tickets[k];
      var available := s.tail - (c.start - c.seen);
      var actual := if available > 0 then Arithmetic.Min(c.desired, available) else 0;
      if available > 0 && actual == c.desired then
        Goto(SetTicket(s, k, c.(phase := Claiming, actual := actual)), t, Advance(k))
      else
        Goto(SetTicket(s, k, c.(phase := Owing, actual := actual)), t, GiveBack(k))
    case GiveBack(k) =>
      var c := s.tickets[k];
      var s1 := s.(overcommit := s.overcommit + (c.desired - c.actual));
      if c.actual > 0 then Goto(SetTicket(s1, k, c.(phase := Claiming)), t, Advance(k))
      else Goto(SetTicket(s1, k, c.(phase := Settled)), t, Idle)
    case Advance(k) =>
      var c := s.tickets[k];
      Goto(SetTicket(s.(head := s.head + c.actual, claims := s.claims + [Claim(t, s.head, c.actual)]),
                     k, c.(phase := Settled)), t, Idle)
  }

  /** The producer publishes `n` elements; a consumer calls dequeue (max 1) or dequeue_bulk; a consumer moves. */
  datatype Event = Publish(n: nat) | Call(t: Tid, max: nat) | Run(t: Tid)

  predicate Enabled(s: State, e: Event) {
    match e
    case Publish(_) => true
    case Call(t, _) => t in s.pc && s.pc[t] == Idle
    case Run(t) => t in s.pc
  }

  function Apply(s: State, e: Event): State
    requires WellFormed(s) && Enabled(s, e)
  {
    match e
    case Publish(n) => s.(tail := s.tail + n)
    case Call(t, max) => Goto(s, t, LoadTail(max))
    case Run(t) => Step(s, t)
  }

  ghost predicate Next(s: State, s': State) {
    WellFormed(s) && exists e: Event :: Enabled(s, e) && s' == Apply(s, e)
  }

  ghost predicate StepAt(run: seq<State>, i: nat) { i + 1 < |run| && Next(run[i], run[i + 1]) }

  /** A run of the system: any interleaving of any number of calls. */
  ghost predicate IsRun(run: seq<State>) {
    && |run| > 0
    && Init(run[0])
    && forall i: nat :: i + 1 < |run| ==> StepAt(run, i)
  }

  // ------------------------------------------------------------------------ summing tickets

  datatype Share = Desired | InHead | InOvercommit | Unsettled | Granted | Denied

  /** The part of a reservation that counts as the given share. */
  function Part(m: Share, c: Ticket): int {
    match m
    case Desired => c.desired
    case InHead => if c.phase.Settled? then c.actual else 0
    case InOvercommit => if c.phase.Open? || c.phase.Owing? then 0 else c.desired - c.actual
    case Unsettled => if c.phase.Open? || c.phase.Owing? then c.desired else if c.phase.Claiming? then c.actual else 0
    case Granted => if c.phase.Open? then 0 else c.actual
    case Denied => if c.phase.Open? then 0 else c.desired - c.actual
  }

  function Sum(m: Share, tickets: seq<Ticket>): int {
    if tickets == [] then 0 else Sum(m, tickets[..|tickets| - 1]) + Part(m, tickets[|tickets| - 1])
  }

  lemma SumAppend(m: Share, tickets: seq<Ticket>, c: Ticket)
    ensures Sum(m, tickets + [c]) == Sum(m, tickets) + Part(m, c)
  {
    assert (tickets + [c])[..|tickets|] == tickets;
  }

  lemma {:induction false} SumUpdate(m: Share, tickets: seq<Ticket>, k: nat, c: Ticket)
    requires k < |tickets|
    ensures Sum(m, tickets[k := c]) == Sum(m, tickets) - Part(m, tickets[k]) + Part(m, c)
    decreases |tickets|
  {
    var last := |tickets| - 1;
    if k < last {
      SumUpdate(m, tickets[..last], k, c);
      assert tickets[k := c][..last] == tickets[..last][k := c];
    } else {
      assert tickets[k := c][..last] == tickets[..last];
    }
  }

  /** Every reservation is split between head, overcommit and what is still unsettled. */
  lemma {:induction false} SumSplits(tickets: seq<Ticket>)
    ensures Sum(Desired, tickets) == Sum(InHead, tickets) + Sum(InOvercommit, tickets) + Sum(Unsettled, tickets)
  {
    if tickets != [] { SumSplits(tickets[..|tickets| - 1]); }
  }

  lemma {:induction false} SumOrder(tickets: seq<Ticket>)
    requires forall k :: 0 <= k < |tickets| ==> tickets[k].actual <= tickets[k].desired
    ensures Sum(Granted, tickets) + Sum(Denied, tickets) <= Sum(Desired, tickets)
    ensures 0 <= Sum(InHead, tickets) <= Sum(Granted, tickets)
    ensures 0 <= Sum(InOvercommit, tickets) <= Sum(Denied, tickets)
  {
    if tickets != [] { SumOrder(tickets[..|tickets| - 1]); }
  }

  // ------------------------------------------------------------------------------ invariant

  predicate TicketInv(s: State, k: nat)
    requires k < |s.tickets|
  {
    var c := s.tickets[k];
    && c.start == Sum(Desired, s.tickets[..k])
    && c.seen <= Sum(Denied, s.tickets[..k])
    && (!c.phase.Open? && c.actual > 0 ==> c.start - c.seen + c.actual <= s.tail)
    && (c.phase.Owing? ==> c.who in s.pc && s.pc[c.who] == GiveBack(k))
    && (c.phase.Open? ==> c.who in s.pc && s.pc[c.who] == Recheck(k))
    && (c.phase.Claiming? ==> c.who in s.pc && s.pc[c.who] == Advance(k))
  }

  predicate ThreadInv(s: State, t: Tid)
    requires t in s.pc
  {
    match s.pc[t]
    case LoadOptimistic(_, _, over) => over <= s.overcommit
    case Reserve(_, over) => over <= s.overcommit
    case Recheck(k) => k < |s.tickets| && s.tickets[k].who == t && s.tickets[k].phase == Open
    case GiveBack(k) => k < |s.tickets| && s.tickets[k].who == t && s.tickets[k].phase == Owing
    case Advance(k) => k < |s.tickets| && s.tickets[k].who == t && s.tickets[k].phase == Claiming
    case _ => true
  }

  /** The claims cover `0 .. head` without gap or overlap, in order. */
  predicate Tiles(claims: seq<Claim>, head: nat) {
    if claims == [] then head == 0
    else
      var last := claims[|claims| - 1];
      last.first + last.count == head && Tiles(claims[..|claims| - 1], last.first)
  }

  predicate CountersInv(s: State) {
    && s.optimistic == Sum(Desired, s.tickets)
    && s.head == Sum(InHead, s.tickets)
    && s.overcommit == Sum(InOvercommit, s.tickets)
  }

  predicate Inv(s: State) {
    && WellFormed(s)
    && CountersInv(s)
    && Tiles(s.claims, s.head)
    && (forall k: nat :: k < |s.tickets| ==> TicketInv(s, k))
    && (forall t :: t in s.pc ==> ThreadInv(s, t))
  }

  // ------------------------------------------------------------------------- preservation

  /** A thread without a ticket moves, and the tail may grow: tickets are untouched. */
  lemma QuietKeepsInv(s: State, s': State, t: Tid)
    requires Inv(s) && t in s.pc && t in s'.pc && !HasTicket(s.pc[t]) && !HasTicket(s'.pc[t])
    requires s' == s.(pc := s.pc[t := s'.pc[t]], tail := s'.tail) && s'.tail >= s.tail
    requires ThreadInv(s', t)
    ensures Inv(s')
  {
    forall k: nat | k < |s'.tickets| ensures TicketInv(s', k) { assert TicketInv(s, k); }
    forall u | u in s'.pc ensures ThreadInv(s', u) { assert ThreadInv(s, u); }
  }

  lemma PublishKeepsInv(s: State, n: nat)
    requires Inv(s)
    ensures Inv(s.(tail := s.tail + n))
  {
    var s' := s.(tail := s.tail + n);
    forall k: nat | k < |s'.tickets| ensures TicketInv(s', k) { assert TicketInv(s, k); }
    forall u | u in s'.pc ensures ThreadInv(s', u) { assert ThreadInv(s, u); }
  }

  lemma ReserveKeepsInv(s: State, t: Tid)
    requires Inv(s) && t in s.pc && s.pc[t].Reserve?
    ensures Inv(Step(s, t))
  {
    var s' := Step(s, t);
    var c := s'.tickets[|s.tickets|];
    assert ThreadInv(s, t);
    forall m: Share ensures Sum(m, s'.tickets) == Sum(m, s.tickets) + Part(m, c) { SumAppend(m, s.tickets, c); }
    SumOrder(s.tickets);
    forall k: nat | k < |s'.tickets| ensures TicketInv(s', k) {
      if k < |s.tickets| {
        assert TicketInv(s, k);
        assert s'.tickets[..k] == s.tickets[..k];
      } else {
        assert s'.tickets[..k] == s.tickets;
      }
    }
    forall u | u in s'.pc ensures ThreadInv(s', u) { assert ThreadInv(s, u); }
  }

  /** Thread `t` moves on with its ticket `k`, which becomes `c`: nothing already denied is taken back. */
  predicate Settles(s: State, s': State, t: Tid, k: nat, c: Ticket) {
    && t in s.pc && t in s'.pc && HasTicket(s.pc[t]) && s.pc[t].k == k < |s.tickets|
    && s'.pc == s.pc[t := s'.pc[t]] && s'.tickets == s.tickets[k := c] && s'.tail == s.tail
    && s'.overcommit >= s.overcommit
    && c.who == t && c.start == s.tickets[k].start && c.seen == s.tickets[k].seen && c.desired == s.tickets[k].desired
    && c.actual <= c.desired && Part(Denied, c) >= Part(Denied, s.tickets[k])
  }

  lemma PrefixAfter(s: State, s': State, t: Tid, k: nat, c: Ticket, j: nat)
    requires Settles(s, s', t, k, c) && j <= |s.tickets|
    ensures Sum(Desired, s'.tickets[..j]) == Sum(Desired, s.tickets[..j])
    ensures Sum(Denied, s'.tickets[..j]) >= Sum(Denied, s.tickets[..j])
    ensures j <= k ==> s'.tickets[..j] == s.tickets[..j]
  {
    if j <= k {
      assert s'.tickets[..j] == s.tickets[..j];
    } else {
      assert s'.tickets[..j] == s.tickets[..j][k := c];
      SumUpdate(Desired, s.tickets[..j], k, c);
      SumUpdate(Denied, s.tickets[..j], k, c);
    }
  }

  lemma SettlesKeepsInv(s: State, s': State, t: Tid, k: nat, c: Ticket)
    requires Inv(s) && Settles(s, s', t, k, c)
    requires WellFormed(s') && CountersInv(s') && Tiles(s'.claims, s'.head)
    requires TicketInv(s', k) && ThreadInv(s', t)
    ensures Inv(s')
  {
    assert ThreadInv(s, t);
    forall j: nat | j < |s'.tickets| ensures TicketInv(s', j) {
      if j != k {
        assert TicketInv(s, j);
        PrefixAfter(s, s', t, k, c, j);
      }
    }
    forall u | u in s'.pc ensures ThreadInv(s', u) { assert ThreadInv(s, u); }
  }

  lemma CountersAfter(s: State, s': State, t: Tid, k: nat, c: Ticket)
    requires CountersInv(s) && Settles(s, s', t, k, c)
    requires s'.optimistic == s.optimistic
    requires s'.head == s.head + Part(InHead, c) - Part(InHead, s.tickets[k])
    requires s'.overcommit == s.overcommit + Part(InOvercommit, c) - Part(InOvercommit, s.tickets[k])
    ensures CountersInv(s')
  {
    SumUpdate(Desired, s.tickets, k, c);
    SumUpdate(InHead, s.tickets, k, c);
    SumUpdate(InOvercommit, s.tickets, k, c);
  }

  lemma RecheckKeepsInv(s: State, t: Tid)
    requires Inv(s) && t in s.pc && s.pc[t].Recheck?
    ensures Inv(Step(s, t))
  {
    var s', k := Step(s, t), s.pc[t].k;
    var c := s'.tickets[k];
    assert ThreadInv(s, t) && TicketInv(s, k);
    CountersAfter(s, s', t, k, c);
    PrefixAfter(s, s', t, k, c, k);
    SettlesKeepsInv(s, s', t, k, c);
  }

  lemma GiveBackKeepsInv(s: State, t: Tid)
    requires Inv(s) && t in s.pc && s.pc[t].GiveBack?
    ensures Inv(Step(s, t))
  {
    var s', k := Step(s, t), s.pc[t].k;
    var c := s'.tickets[k];
    assert ThreadInv(s, t) && TicketInv(s, k);
    CountersAfter(s, s', t, k, c);
    PrefixAfter(s, s', t, k, c, k);
    SettlesKeepsInv(s, s', t, k, c);
  }

  lemma AdvanceKeepsInv(s: State, t: Tid)
    requires Inv(s) && t in s.pc && s.pc[t].Advance?
    ensures Inv(Step(s, t))
  {
    var s', k := Step(s, t), s.pc[t].k;
    var c := s'.tickets[k];
    assert ThreadInv(s, t) && TicketInv(s, k);
    CountersAfter(s, s', t, k, c);
    PrefixAfter(s, s', t, k, c, k);
    assert s'.claims[..|s.claims|] == s.claims;
    SettlesKeepsInv(s, s', t, k, c);
  }

  lemma ApplyKeepsInv(s: State, e: Event)
    requires Inv(s) && Enabled(s, e)
    ensures Inv(Apply(s, e))
  {
    match e
    case Publish(n) => PublishKeepsInv(s, n);
    case Call(t, max) => QuietKeepsInv(s, Apply(s, e), t);
    case Run(t) =>
      match s.pc[t]
      case Recheck(_) => RecheckKeepsInv(s, t);
      case GiveBack(_) => GiveBackKeepsInv(s, t);
      case Advance(_) => AdvanceKeepsInv(s, t);
      case Reserve(_, _) => ReserveKeepsInv(s, t);
      case _ =>
        assert ThreadInv(s, t);
        QuietKeepsInv(s, Apply(s, e), t);
  }

  lemma {:induction false} Reachable(run: seq<State>, i: nat)
    requires IsRun(run) && i < |run|
    ensures Inv(run[i])
  {
    if i > 0 {
      Reachable(run, i - 1);
      assert StepAt(run, i - 1);
      NextKeepsInv(run[i - 1], run[i]);
    }
  }

  lemma NextKeepsInv(s: State, s': State)
    requires Inv(s) && Next(s, s')
    ensures Inv(s')
  {
    var e: Event :| Enabled(s, e) && s' == Apply(s, e);
    ApplyKeepsInv(s, e);
  }

  // ------------------------------------------------------------------------------ theorems

  /** All elements ever granted exist: before the last grant, everything reserved earlier was either granted
      or denied at least as often as its consumer had seen overcommitted. */
  lemma {:induction false} GrantsFit(s: State, n: nat)
    requires Inv(s) && n <= |s.tickets|
    ensures Sum(Granted, s.tickets[..n]) <= s.tail
  {
    if n > 0 {
      var c := s.tickets[n - 1];
      GrantsFit(s, n - 1);
      assert TicketInv(s, n - 1);
      assert s.tickets[..n][..n - 1] == s.tickets[..n - 1];
      SumOrder(s.tickets[..n - 1]);
    }
  }

  lemma HeadFits(s: State)
    requires Inv(s)
    ensures s.head <= Sum(Granted, s.tickets) <= s.tail
  {
    SumOrder(s.tickets);
    GrantsFit(s, |s.tickets|);
    assert s.tickets[..|s.tickets|] == s.tickets;
  }

  /** In every reachable state the optimistic count is the head index plus the overcommit plus the tickets
      still unsettled, each held by its own consumer, and the head index has not passed the tail index. */
  lemma Accounting(run: seq<State>, i: nat)
    requires IsRun(run) && i < |run|
    ensures var s := run[i];
      && s.optimistic == s.head + s.overcommit + Sum(Unsettled, s.tickets)
      && s.head <= Sum(Granted, s.tickets) <= s.tail
      && (forall k :: 0 <= k < |s.tickets| && !s.tickets[k].phase.Settled? ==>
            var t := s.tickets[k].who; t in s.pc && HasTicket(s.pc[t]) && s.pc[t].k == k)
  {
    var s := run[i];
    Reachable(run, i);
    SumSplits(s.tickets);
    HeadFits(s);
    forall k | 0 <= k < |s.tickets| && !s.tickets[k].phase.Settled?
      ensures var t := s.tickets[k].who; t in s.pc && HasTicket(s.pc[t]) && s.pc[t].k == k
    {
      assert TicketInv(s, k);
    }
  }

  predicate InClaim(claims: seq<Claim>, j: int, x: int) {
    0 <= j < |claims| && claims[j].first <= x < claims[j].first + claims[j].count
  }

  ghost predicate HandedOut(claims: seq<Claim>, x: int) { exists j :: InClaim(claims, j, x) }

  lemma {:induction false} TilesCover(claims: seq<Claim>, head: nat, x: nat) returns (j: nat)
    requires Tiles(claims, head) && x < head
    ensures InClaim(claims, j, x)
  {
    var n := |claims| - 1;
    if x < claims[n].first { j := TilesCover(claims[..n], claims[n].first, x); }
    else { j := n; }
  }

  lemma {:induction false} TilesBound(claims: seq<Claim>, head: nat, j: nat, x: nat)
    requires Tiles(claims, head) && InClaim(claims, j, x)
    ensures x < head
    ensures forall i :: InClaim(claims, i, x) ==> i == j
  {
    var n := |claims| - 1;
    forall i | InClaim(claims, i, x) ensures i == j {
      if i < n && j < n {
        TilesBound(claims[..n], claims[n].first, j, x);
        assert InClaim(claims[..n], i, x);
      } else if i < n {
        TilesBound(claims[..n], claims[n].first, i, x);
      } else if j < n {
        TilesBound(claims[..n], claims[n].first, j, x);
      }
    }
    if j < n { TilesBound(claims[..n], claims[n].first, j, x); }
  }

  /** Every index below the head was handed out exactly once, to one consumer, and no index is handed out
      that the producer has not published. */
  lemma HandedOutOnce(run: seq<State>, i: nat)
    requires IsRun(run) && i < |run|
    ensures var s := run[i];
      && (forall x: nat :: x < s.head ==> HandedOut(s.claims, x))
      && (forall j, k, x :: InClaim(s.claims, j, x) && InClaim(s.claims, k, x) ==> j == k)
      && (forall j, x :: InClaim(s.claims, j, x) ==> x < s.tail)
  {
    var s := run[i];
    Reachable(run, i);
    Accounting(run, i);
    forall x: nat | x < s.head ensures HandedOut(s.claims, x) {
      var j := TilesCover(s.claims, s.head, x);
    }
    forall j, k, x | InClaim(s.claims, j, x) && InClaim(s.claims, k, x) ensures j == k {
      TilesBound(s.claims, s.head, j, x);
    }
    forall j, x | InClaim(s.claims, j, x) ensures x < s.tail { TilesBound(s.claims, s.head, j, x); }
  }

  // ------------------------------------------------------------------------------- answers

  /** The elements ticket `c` asks for that were published when the tail was `tail`: those of the `desired` indices from
      `start - seen` on that are below it. */
  function Published(c: Ticket, tail: nat): nat {
    var available := tail - (c.start - c.seen);
    if available <= 0 then 0 else Arithmetic.Min(c.desired, available)
  }

  ghost predicate SameTicket(c: Ticket, c': Ticket) {
    c'.who == c.who && c'.start == c.start && c'.desired == c.desired && c'.seen == c.seen
  }

  /** In one step a ticket stays as it is, or is decided by the tail of that moment, or is settled. */
  lemma TicketStep(s: State, s': State, k: nat)
    requires Inv(s) && Next(s, s') && k < |s.tickets|
    ensures k < |s'.tickets| && SameTicket(s.tickets[k], s'.tickets[k])
    ensures s.tickets[k].phase.Open? && !s'.tickets[k].phase.Open? ==>
      s'.tickets[k].actual == Published(s.tickets[k], s.tail)
    ensures !s.tickets[k].phase.Open? ==> !s'.tickets[k].phase.Open? && s'.tickets[k].actual == s.tickets[k].actual
  {
    var e: Event :| Enabled(s, e) && s' == Apply(s, e);
    match e
    case Publish(n) =>
    case Call(t, max) =>
    case Run(t) =>
      assert ThreadInv(s, t);
      match s.pc[t]
      case Idle =>
      case LoadTail(_) =>
      case LoadOvercommit(_, _) =>
      case LoadOptimistic(_, _, _) =>
      case Reserve(_, _) =>
      case Recheck(_) =>
      case GiveBack(_) =>
      case Advance(_) =>
  }

  /** A ticket that exists and is decided was open and decided at some step `m`. */
  ghost predicate DecidedAt(run: seq<State>, m: nat, k: nat) {
    && m + 1 < |run| && k < |run[m].tickets| && k < |run[m + 1].tickets|
    && run[m].tickets[k].phase.Open? && !run[m + 1].tickets[k].phase.Open?
  }

  /** Every reservation that is no longer open was decided at one step of the run: it got what it asked for as far as
      published, by the tail of that moment. So one that got less than it asked for reaches that tail, and one
      that got nothing starts at or behind it. What it got has not changed since. */
  lemma {:induction false} Decided(run: seq<State>, i: nat, k: nat) returns (m: nat)
    requires IsRun(run) && i < |run| && k < |run[i].tickets| && !run[i].tickets[k].phase.Open?
    ensures m < i && DecidedAt(run, m, k)
    ensures var c, tail := run[i].tickets[k], run[m].tail;
      && SameTicket(run[m].tickets[k], c) && c.actual == Published(c, tail)
      && (c.actual < c.desired ==> c.start - c.seen + c.actual >= tail)
      && (0 < c.actual < c.desired ==> c.start - c.seen + c.actual == tail)
      && (c.actual > 0 ==> c.start - c.seen + c.actual <= tail)
  {
    assert i > 0;
    Reachable(run, i - 1);
    assert StepAt(run, i - 1);
    NewTicketOpen(run[i - 1], run[i], k);
    TicketStep(run[i - 1], run[i], k);
    if run[i - 1].tickets[k].phase.Open? {
      m := i - 1;
    } else {
      m := Decided(run, i - 1, k);
    }
  }

  lemma NewTicketOpen(s: State, s': State, k: nat)
    requires Inv(s) && Next(s, s') && k < |s'.tickets| && !s'.tickets[k].phase.Open?
    ensures k < |s.tickets|
  {
    var e: Event :| Enabled(s, e) && s' == Apply(s, e);
    match e
    case Publish(n) =>
    case Call(t, max) =>
    case Run(t) =>
      match s.pc[t]
      case Idle =>
      case LoadTail(_) =>
      case LoadOvercommit(_, _) =>
      case LoadOptimistic(_, _, _) =>
      case Reserve(_, _) =>
      case Recheck(_) =>
      case GiveBack(_) =>
      case Advance(_) =>
  }

  /** What a consumer has loaded, it loaded in the step before or had before it. */
  lemma LoadStep(s: State, s': State, t: Tid)
    requires Next(s, s') && t in s'.pc
    ensures t in s.pc
    ensures s'.pc[t].LoadOvercommit? ==>
      s.pc[t] == s'.pc[t] || (s.pc[t] == LoadTail(s'.pc[t].max) && s'.pc[t].tail == s.tail)
    ensures s'.pc[t].LoadOptimistic? ==>
      s.pc[t] == s'.pc[t] ||
      (s.pc[t] == LoadOvercommit(s'.pc[t].max, s'.pc[t].tail) && s'.pc[t].over == s.overcommit)
  {
    var e: Event :| Enabled(s, e) && s' == Apply(s, e);
    match e
    case Publish(n) =>
    case Call(u, max) =>
    case Run(u) =>
      match s.pc[u]
      case Idle =>
      case LoadTail(_) =>
      case LoadOvercommit(_, _) =>
      case LoadOptimistic(_, _, _) =>
      case Reserve(_, _) =>
      case Recheck(_) =>
      case GiveBack(_) =>
      case Advance(_) =>
  }

  /** Thread `t` has loaded the tail and not looked at the optimistic count yet. */
  ghost predicate InCall(run: seq<State>, k: int, t: Tid) {
    0 <= k < |run| && t in run[k].pc && (run[k].pc[t].LoadOvercommit? || run[k].pc[t].LoadOptimistic?)
  }

  lemma {:induction false} TailLoaded(run: seq<State>, i: nat, t: Tid) returns (j: nat)
    requires IsRun(run) && i < |run| && t in run[i].pc && run[i].pc[t].LoadOvercommit?
    ensures j < i && run[j].tail == run[i].pc[t].tail && forall k :: j < k <= i ==> InCall(run, k, t)
  {
    assert i > 0 && StepAt(run, i - 1);
    LoadStep(run[i - 1], run[i], t);
    if run[i - 1].pc[t].LoadTail? { j := i - 1; } else { j := TailLoaded(run, i - 1, t); }
  }

  /** First the tail was loaded, then the overcommit, in this call. */
  lemma {:induction false} Loaded(run: seq<State>, i: nat, t: Tid) returns (j: nat, m: nat)
    requires IsRun(run) && i < |run| && t in run[i].pc && run[i].pc[t].LoadOptimistic?
    ensures j < m < i && run[j].tail == run[i].pc[t].tail && run[m].overcommit == run[i].pc[t].over
    ensures forall k :: j < k <= i ==> InCall(run, k, t)
  {
    assert i > 0 && StepAt(run, i - 1);
    LoadStep(run[i - 1], run[i], t);
    if run[i - 1].pc[t].LoadOvercommit? {
      m := i - 1;
      j := TailLoaded(run, m, t);
    } else {
      j, m := Loaded(run, i - 1, t);
    }
  }

  /** Thread `t` moves at step `i`. */
  ghost predicate Moves(run: seq<State>, i: nat, t: Tid) {
    i + 1 < |run| && WellFormed(run[i]) && t in run[i].pc && run[i + 1] == Step(run[i], t)
  }

  /** A call returns without a reservation exactly if, of the elements published when it loaded the tail (`j`), none was
      left that was not handed out, reserved and unsettled, or given back since it loaded the overcommit (`m`). */
  lemma GivesUp(run: seq<State>, i: nat, t: Tid) returns (j: nat, m: nat)
    requires IsRun(run) && Moves(run, i, t) && run[i].pc[t].LoadOptimistic?
    ensures j < m < i && forall k :: j < k <= i ==> InCall(run, k, t)
    ensures var s := run[i]; run[i + 1].pc[t] == Idle <==>
      run[j].tail <= s.head + Sum(Unsettled, s.tickets) + (s.overcommit - run[m].overcommit)
  {
    Accounting(run, i);
    j, m := Loaded(run, i, t);
  }

  // ---------------------------------------------------------------------------- lone calls

  /** Thread `t` takes `n` steps with nobody else moving. */
  ghost function Alone(s: State, t: Tid, n: nat): State
    requires t in s.pc && WellFormed(s)
    decreases n
  {
    if n == 0 || !WellFormed(Step(s, t)) then s else Alone(Step(s, t), t, n - 1)
  }

  lemma AloneStep(s: State, t: Tid, n: nat, s': State)
    requires WellFormed(s) && t in s.pc && n > 0 && s' == Step(s, t) && WellFormed(s')
    ensures Alone(s, t, n) == Alone(s', t, n - 1)
  {}

  lemma GotoTwice(s: State, t: Tid, a: Pc, b: Pc)
    ensures Goto(Goto(s, t, a), t, b) == Goto(s, t, b)
  {
    assert s.pc[t := a][t := b] == s.pc[t := b];
  }

  lemma {:induction false} AloneIdle(s: State, t: Tid, n: nat)
    requires WellFormed(s) && t in s.pc && s.pc[t] == Idle
    ensures Alone(s, t, n) == s
  {
    if n > 0 { AloneIdle(s, t, n - 1); }
  }

  /** Up to the reservation, or to the return if the sub-queue looks empty. */
  lemma SoloLooks(s: State, t: Tid, max: nat, n: nat, pc: Pc)
    requires WellFormed(s) && t in s.pc && s.pc[t] == Idle
    requires var available := s.tail - (s.optimistic - s.overcommit);
      pc == if available > 0 then Reserve(Arithmetic.Min(available, max), s.overcommit) else Idle
    ensures WellFormed(Goto(s, t, LoadTail(max))) && WellFormed(Goto(s, t, pc))
    ensures Alone(Goto(s, t, LoadTail(max)), t, n + 3) == Alone(Goto(s, t, pc), t, n)
  {
    var a, b, c := LoadTail(max), LoadOvercommit(max, s.tail), LoadOptimistic(max, s.tail, s.overcommit);
    GotoTwice(s, t, a, b);
    GotoTwice(s, t, b, c);
    GotoTwice(s, t, c, pc);
    AloneStep(Goto(s, t, a), t, n + 3, Goto(s, t, b));
    AloneStep(Goto(s, t, b), t, n + 2, Goto(s, t, c));
    AloneStep(Goto(s, t, c), t, n + 1, Goto(s, t, pc));
  }

  /** The numbers of steps below are parameters because the verifier would unroll `Alone` on literals. */
  lemma SoloTakes(s: State, t: Tid, n: nat, steps: nat)
    requires steps == 3 && WellFormed(s) && t in s.pc && s.pc[t] == Idle && n <= s.tail - s.head
    requires s.optimistic - s.overcommit == s.head < s.tail
    ensures WellFormed(Goto(s, t, Reserve(n, s.overcommit)))
    ensures var s' := Alone(Goto(s, t, Reserve(n, s.overcommit)), t, steps);
      s'.pc == s.pc && s'.tail == s.tail && s'.head == s.head + n && s'.claims == s.claims + [Claim(t, s.head, n)]
  {
    var s3 := Goto(s, t, Reserve(n, s.overcommit));
    var s4 := Step(s3, t);
    var s5 := Step(s4, t);
    var s6 := Step(s5, t);
    assert s4.tickets[|s.tickets|] == Ticket(t, s.optimistic, n, s.overcommit, Open, 0);
    assert s5.pc[t] == Advance(|s.tickets|) && s5.tickets[|s.tickets|].actual == n;
    AloneStep(s3, t, steps, s4);
    AloneStep(s4, t, steps - 1, s5);
    AloneStep(s5, t, steps - 2, s6);
    assert s6.pc == s.pc;
  }

  /** `s'` is `s` after a call that asked for `max` elements took all it could, from the head on. */
  ghost predicate Took(s: State, s': State, t: Tid, max: nat) {
    var n := Arithmetic.Min(max, s.tail - s.head);
    && s'.pc == s.pc && s'.tail == s.tail && s'.head == s.head + n
    && s'.claims == s.claims + if s.head < s.tail then [Claim(t, s.head, n)] else []
  }

  lemma SoloFrom(s: State, t: Tid, max: nat, rest: nat)
    requires rest == 3 && WellFormed(s) && t in s.pc && s.pc[t] == Idle
    requires s.optimistic - s.overcommit == s.head <= s.tail
    ensures WellFormed(Goto(s, t, LoadTail(max))) && Took(s, Alone(Goto(s, t, LoadTail(max)), t, rest + 3), t, max)
  {
    if s.head == s.tail {
      SoloLooks(s, t, max, rest, Idle);
      assert Goto(s, t, Idle).pc == s.pc;
      AloneIdle(s, t, rest);
    } else {
      var n := Arithmetic.Min(max, s.tail - s.head);
      SoloLooks(s, t, max, rest, Reserve(n, s.overcommit));
      SoloTakes(s, t, n, rest);
    }
  }

  /** A call that runs alone on a quiescent sub-queue takes as many elements as it asks for and are there,
      from the head on; so it succeeds whenever the sub-queue is not empty. A call takes six steps. */
  lemma SoloDequeue(run: seq<State>, i: nat, t: Tid, max: nat, steps: nat)
    requires steps == 6 && IsRun(run) && i < |run| && t in run[i].pc
    requires forall u :: u in run[i].pc ==> run[i].pc[u] == Idle
    ensures WellFormed(Goto(run[i], t, LoadTail(max)))
    ensures Took(run[i], Alone(Goto(run[i], t, LoadTail(max)), t, steps), t, max)
  {
    Accounting(run, i);
    NothingUnsettled(run[i].tickets);
    assert WellFormed(run[i]) by { Reachable(run, i); }
    SoloFrom(run[i], t, max, steps - 3);
  }

  lemma {:induction false} NothingUnsettled(tickets: seq<Ticket>)
    requires forall k :: 0 <= k < |tickets| ==> tickets[k].phase.Settled?
    ensures Sum(Unsettled, tickets) == 0
  {
    if tickets != [] { NothingUnsettled(tickets[..|tickets| - 1]); }
  }
}
