/**
 The per-socket backpressure buffer: a byte queue whose removed prefix is trimmed lazily, only once it
 is more than 1/32 of what is stored.
 */
module BackPressure {
  import opened Wrappers

  function Zeros(n: nat): (z: seq<Byte>)
    ensures |z| == n
  {
    seq(n, _ => 0)
  }

  /** A plain byte queue: what is left of `q` after removing `n` bytes from the front. */
  function Without(q: seq<Byte>, n: nat): seq<Byte> { if n <= |q| then q[n..] else [] }

  class Buffer {
    var buffer: seq<Byte>
    var pendingRemoval: nat

    // History: bytes asked to be erased, and bytes moved in memory to do it.
    ghost var erased: nat
    ghost var shifted: nat

    /** The amortised bound: every shifted byte is paid for by 1/31 of a byte erased and trimmed. */
    ghost predicate Valid()
      reads this
    {
      pendingRemoval <= |buffer| && pendingRemoval <= erased && shifted <= 31 * (erased - pendingRemoval)
    }

    /** The dead prefix is at most 1/32 of the stored bytes. */
    ghost predicate Trimmed()
      reads this
    {
      pendingRemoval <= |buffer| / 32
    }

    /** The bytes waiting to be sent. */
    function Data(): seq<Byte>
      requires pendingRemoval <= |buffer|
      reads this
    {
      buffer[pendingRemoval..]
    }

    constructor ()
      ensures Valid() && Trimmed() && Data() == [] && erased == 0
    {
      buffer, pendingRemoval := [], 0;
      erased, shifted := 0, 0;
    }

    method Append(data: seq<Byte>)
      requires Valid()
      modifies this
      ensures Valid() && Data() == old(Data()) + data
      ensures old(Trimmed()) ==> Trimmed()
      ensures erased == old(erased)
    {
      buffer := buffer + data;
    }

    /** Removes a prefix: at once if the dead prefix has grown enough, else by remembering its length. */
    method Erase(length: nat)
      requires Valid()
      modifies this
      ensures Valid() && Trimmed() && Data() == Without(old(Data()), length)
      ensures erased == old(erased) + length
    {
      pendingRemoval := pendingRemoval + length;
      erased := erased + length;
      if pendingRemoval > |buffer| / 32 {
        if pendingRemoval <= |buffer| {
          shifted := shifted + (|buffer| - pendingRemoval);
          buffer := buffer[pendingRemoval..];
        } else {
          buffer := [];
        }
        pendingRemoval := 0;
      }
    }

    method Length() returns (n: nat)
      requires Valid()
      ensures n == |Data()|
    {
      n := |buffer| - pendingRemoval;
    }

    method Clear()
      requires Valid()
      modifies this
      ensures Valid() && Trimmed() && Data() == []
      ensures erased == old(erased)
    {
      pendingRemoval := 0;
      buffer := [];
    }

    /** Growing appends zeros; shrinking drops the end, and then the dead prefix stays small exactly if what is
        left is at least 31 times as long. */
    method Resize(length: nat)
      requires Valid()
      modifies this
      ensures Valid() && pendingRemoval == old(pendingRemoval) && erased == old(erased)
      ensures Data() ==
        if length >= |old(Data())| then old(Data()) + Zeros(length - |old(Data())|) else old(Data())[..length]
      ensures Trimmed() <==> 31 * pendingRemoval <= length
      ensures old(Trimmed()) && length >= |old(Data())| ==> Trimmed()
    {
      var total := length + pendingRemoval;
      if total >= |buffer| { buffer := buffer + Zeros(total - |buffer|); }
      else { buffer := buffer[..total]; }
    }

    /** Writes through the pointer returned by data(). */
    method Overwrite(offset: nat, data: seq<Byte>)
      requires Valid() && offset + |data| <= |Data()|
      modifies this
      ensures Valid() && Data() == old(Data())[..offset] + data + old(Data())[offset + |data|..]
      ensures old(Trimmed()) ==> Trimmed()
      ensures erased == old(erased)
    {
      var at := pendingRemoval + offset;
      buffer := buffer[..at] + data + buffer[at + |data|..];
    }
  }

  // ------------------------------------------------------------------------ the 32-bit word

  const WORD: nat := 0x1_0000_0000

  /** What erasing leaves visible, with the pending removal kept in a 32-bit word. */
  function VisibleAfter(stored: seq<Byte>, pending: nat, length: nat): seq<Byte> {
    Without(stored, (pending + length) % WORD)
  }

  /** `Erase` adds without wrap-around. The program's word does the same exactly if the sum fits, which it does when
      less than 2^32 bytes are stored and no more are erased than are visible; otherwise bytes come back. */
  lemma ErasesExactly(stored: seq<Byte>, pending: nat, length: nat)
    requires pending <= |stored| && pending < WORD && length < WORD
    ensures VisibleAfter(stored, pending, length) == Without(stored[pending..], length) <==> pending + length < WORD
    ensures |stored| < WORD && length <= |stored| - pending ==> pending + length < WORD
    ensures pending + length >= WORD ==> |VisibleAfter(stored, pending, length)| > |stored| - pending
  {
    if pending + length < WORD {
      assert (pending + length) % WORD == pending + length;
    } else {
      assert (pending + length) % WORD == pending + length - WORD;
    }
  }

  /** For example: of 100 bytes stored, 3 pending, an erase of 2^32 - 1 leaves 98 visible instead of none. */
  lemma ErasedComeBack(stored: seq<Byte>)
    requires |stored| == 100
    ensures |VisibleAfter(stored, 3, 0xFFFF_FFFF)| == 98 && Without(stored[3..], 0xFFFF_FFFF) == []
  {
    assert (3 + 0xFFFF_FFFF) % WORD == 2;
  }

  // ------------------------------------------------------------------------ runs of operations

  datatype Op = Append(data: seq<Byte>) | Erase(n: nat) | Grow(n: nat) | Clear

  /** The same operation on a plain queue. */
  function OnQueue(q: seq<Byte>, op: Op): seq<Byte> {
    match op
    case Append(data) => q + data
    case Erase(n) => Without(q, n)
    case Grow(n) => q + Zeros(n)
    case Clear => []
  }

  function RunOnQueue(ops: seq<Op>): seq<Byte> {
    if ops == [] then [] else OnQueue(RunOnQueue(ops[..|ops| - 1]), ops[|ops| - 1])
  }

  function ErasedBy(ops: seq<Op>): nat {
    if ops == [] then 0
    else ErasedBy(ops[..|ops| - 1]) + match ops[|ops| - 1] case Erase(n) => n case _ => 0
  }

  /** Over every run of operations the visible bytes are those of the plain queue, the dead prefix is at most
      1/32 of what is stored, and at most 31 bytes were moved per byte erased. */
  method Replay(ops: seq<Op>) returns (visible: seq<Byte>, stored: nat, dead: nat, ghost moved: nat)
    ensures visible == RunOnQueue(ops)
    ensures stored == |visible| + dead && 32 * dead <= stored
    ensures moved <= 31 * ErasedBy(ops)
  {
    var b := new Buffer();
    for i := 0 to |ops|
      invariant b.Valid() && b.Trimmed() && fresh(b)
      invariant b.Data() == RunOnQueue(ops[..i]) && b.erased == ErasedBy(ops[..i])
    {
      assert ops[..i + 1][..i] == ops[..i];
      match ops[i]
      case Append(data) => b.Append(data);
      case Erase(n) => b.Erase(n);
      case Grow(n) => b.Resize(|b.Data()| + n);
      case Clear => b.Clear();
    }
    assert ops[..|ops|] == ops;
    visible, stored, dead, moved := b.Data(), |b.buffer|, b.pendingRemoval, b.shifted;
  }
}
