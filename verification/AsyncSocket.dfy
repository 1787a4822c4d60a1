/**
 The write path of the asynchronous sockets of one event loop. All sockets share one cork buffer; each
 has a backpressure buffer of its own. A byte a socket has taken is, in this order, on the wire, in its
 backpressure, or in the cork buffer while the socket is corked: its `Stream()`.

 Every operation extends the stream of its own socket by exactly the bytes it reports as taken and
 leaves the streams of all other sockets alone. The kernel may accept any part of what it is offered:
 its answers are given in advance, and what every operation reports is the value of a function of the
 lengths involved and these answers (`Account`).
 */
module AsyncSocket {
  import opened Wrappers
  import opened BackPressure

  const CORK_BUFFER_SIZE: nat := 16 * 1024

  datatype SendBufferAttribute = NeedsNothing | NeedsDrain | NeedsUncork

  /** Where the buffer handed out by getSendBuffer lies. */
  datatype Region = InCork(offset: nat) | InBackPressure(offset: nat)

  // ------------------------------------------------------------------ the kernel

  /** How much of `n` offered bytes a kernel with these coming answers accepts next: what it answers, and no more than
      it is offered. A kernel without an answer accepts nothing. */
  function Takes(answers: seq<nat>, n: nat): (k: nat)
    ensures k <= n
  {
    if answers == [] then 0 else if answers[0] < n then answers[0] else n
  }

  function Later(answers: seq<nat>): seq<nat> { if answers == [] then [] else answers[1..] }

  /** How much it accepts of several pieces, each offered only if all before it were accepted in full. */
  function Accepts(answers: seq<nat>, pieces: seq<nat>): (sent: nat)
    ensures sent <= Sum(pieces)
  {
    if pieces == [] then 0
    else if pieces[0] == 0 then Accepts(answers, pieces[1..])
    else if Takes(answers, pieces[0]) < pieces[0] then Takes(answers, pieces[0])
    else pieces[0] + Accepts(Later(answers), pieces[1..])
  }

  /** The answers that are left afterwards. */
  function Unasked(answers: seq<nat>, pieces: seq<nat>): seq<nat> {
    if pieces == [] then answers
    else if pieces[0] == 0 then Unasked(answers, pieces[1..])
    else if Takes(answers, pieces[0]) < pieces[0] then Later(answers)
    else Unasked(Later(answers), pieces[1..])
  }

  function Sum(pieces: seq<nat>): nat { if pieces == [] then 0 else pieces[0] + Sum(pieces[1..]) }

  lemma FirstOffer(answers: seq<nat>, b: nat)
    ensures Accepts(answers, [b]) == Takes(answers, b) && Sum([b]) == b
    ensures Unasked(answers, [b]) == if b == 0 then answers else Later(answers)
  {
    assert [b][1..] == [];
  }

  lemma TwoOffers(answers: seq<nat>, o: nat, n: nat)
    ensures Accepts(answers, [o, n]) ==
      if Takes(answers, o) < o then Takes(answers, o) else o + Takes(Unasked(answers, [o]), n)
    ensures Unasked(answers, [o, n]) ==
      if Takes(answers, o) < o then Later(answers) else Unasked(Unasked(answers, [o]), [n])
    ensures Sum([o, n]) == o + n
  {
    FirstOffer(answers, o);
    FirstOffer(Unasked(answers, [o]), n);
    assert [o, n][1..] == [n];
  }

  lemma ThreeOffers(answers: seq<nat>, b: nat, o: nat, n: nat)
    ensures Accepts(answers, [b, o, n]) ==
      if Takes(answers, b) < b then Takes(answers, b) else b + Accepts(Unasked(answers, [b]), [o, n])
    ensures Unasked(answers, [b, o, n]) ==
      if Takes(answers, b) < b then Later(answers) else Unasked(Unasked(answers, [b]), [o, n])
    ensures Sum([b, o, n]) == b + o + n
  {
    FirstOffer(answers, b);
    assert [b, o, n][1..] == [o, n] && [o, n][1..] == [n];
    assert Sum([o, n]) == o + Sum([n]);
  }

  /** Without backpressure the corked bytes go first. */
  lemma CorkFirst(answers: seq<nat>, o: nat, n: nat)
    requires o > 0
    ensures Accepts(answers, [0, 0, o]) == Takes(answers, o) && Unasked(answers, [0, 0, o]) == Later(answers)
    ensures Takes(answers, o) < o ==> Accepts(answers, [0, o, n]) == Takes(answers, o)
    ensures Takes(answers, o) < o ==> Unasked(answers, [0, o, n]) == Later(answers)
    ensures Takes(answers, o) == o ==> Accepts(answers, [0, o, n]) == o + Accepts(Later(answers), [0, 0, n])
    ensures Takes(answers, o) == o ==> Unasked(answers, [0, o, n]) == Unasked(Later(answers), [0, 0, n])
  {
    ThreeOffers(answers, 0, 0, o);
    TwoOffers(answers, 0, o);
    ThreeOffers(answers, 0, o, n);
    TwoOffers(answers, o, n);
    FirstOffer(answers, o);
    ThreeOffers(Later(answers), 0, 0, n);
    TwoOffers(Later(answers), 0, n);
    FirstOffer(Later(answers), n);
  }

  /** How many bytes a call puts on the wire, how many it takes, and whether it fails. */
  datatype Report = Report(sent: int, count: nat, failed: bool)

  /** A write that only corks its `n` bytes: the kernel is offered the `b` bytes of backpressure, and it fails if not
      all of them go out. */
  function Corking(answers: seq<nat>, b: nat, n: nat, optionally: bool): Report {
    var sent := Takes(answers, b);
    Report(sent, if sent < b && optionally then 0 else n, sent < b)
  }

  /** A write or uncork that sends: the kernel is offered the `b` bytes of backpressure, then the `o` corked bytes, then
      the `n` bytes of data, each if all before went out. It fails exactly if not all goes out. Of optional data what
      goes out is taken; other data is taken unless corked bytes did not go out. */
  function Sending(answers: seq<nat>, b: nat, o: nat, n: nat, optionally: bool): Report {
    var sent := Accepts(answers, [b, o, n]);
    var optional := if sent < b + o then 0 else sent - b - o;
    Report(sent, if optionally then optional else if b <= sent < b + o then 0 else n, sent < b + o + n)
  }

  /** A write: it corks if the socket is corked and the data fits. */
  function Writing(answers: seq<nat>, corked: bool, offset: nat, b: nat, n: nat, optionally: bool): Report {
    if corked && offset + n <= CORK_BUFFER_SIZE then Corking(answers, b, n, optionally)
    else Sending(answers, b, if corked then offset else 0, n, optionally)
  }

  // ------------------------------------------------------------------ what a call reports

  /** Who has the cork: the socket itself, nobody, or another socket. */
  datatype Holder = Us | Nobody | Other

  /** `Assemble` is a call of getSendBuffer followed by the caller filling in its data. */
  datatype Call =
    | Write(socket: nat, data: seq<Byte>, optionally: bool)
    | Uncork(socket: nat, data: seq<Byte>, optionally: bool)
    | Assemble(socket: nat, data: seq<Byte>)
    | Cork(socket: nat)

  function Given(call: Call): seq<Byte> { if call.Cork? then [] else call.data }

  /** How many bytes a call takes, whether it failed, and the account afterwards. */
  datatype Reply = Reply(count: nat, failed: bool, after: Account)

  /** A socket by lengths: the cork, how many bytes are in it, how many wait in the backpressure, and the
      kernel's coming answers. A kernel without an answer accepts nothing. */
  datatype Account = Account(holder: Holder, offset: nat, backlog: nat, kernel: seq<nat>) {
    predicate Good() {
      && offset <= CORK_BUFFER_SIZE
      && (holder.Us? && offset > 0 ==> backlog == 0)
      && (holder.Nobody? ==> offset == 0)
    }

    /** How much of `n` offered bytes the kernel accepts next. */
    function Accepted(n: nat): nat { Takes(kernel, n) }

    function Asked(): Account { this.(kernel := Later(kernel)) }

    /** The backpressure does not go out in full. */
    predicate Stuck() { Accepted(backlog) < backlog }

    function Drained(): Account {
      if backlog == 0 then this else Asked().(backlog := backlog - Accepted(backlog))
    }

    function Sent(n: nat, optionally: bool): Reply {
      var k := Accepted(n);
      Reply(if optionally then k else n, k < n, Asked().(backlog := if optionally then 0 else n - k))
    }

    function Refused(n: nat, optionally: bool): Reply {
      if optionally then Reply(0, true, Drained())
      else Reply(n, true, Drained().(backlog := backlog - Accepted(backlog) + n))
    }

    /** A write that does not find the socket corked. */
    function Plain(n: nat, optionally: bool): Reply {
      if Stuck() then Refused(n, optionally)
      else if n == 0 then Reply(0, false, Drained()) else Drained().Sent(n, optionally)
    }

    function Uncorked(n: nat, optionally: bool): Reply {
      var free := this.(holder := Nobody);
      if !holder.Us? then Reply(0, false, this) else if offset == 0 then free.Plain(n, optionally) else
        var flush := free.Plain(offset, false);
        var after := flush.after.(offset := 0);
        if flush.failed then Reply(0, true, after) else after.Plain(n, optionally)
    }

    function CorkedOrSent(n: nat, optionally: bool): Reply {
      if n == 0 then Reply(0, false, this)
      else if !holder.Us? then Sent(n, optionally)
      else if offset + n <= CORK_BUFFER_SIZE then Reply(n, false, this.(offset := offset + n))
      else Uncorked(n, optionally)
    }

    function Written(n: nat, optionally: bool): Reply {
      if Stuck() then Refused(n, optionally) else Drained().CorkedOrSent(n, optionally)
    }

    function Assembled(n: nat): Account {
      if backlog == 0 && !holder.Other? && offset + n < CORK_BUFFER_SIZE then this.(holder := Us, offset := offset + n)
      else if holder.Us? then this.(offset := 0, backlog := backlog + offset + n) else this.(backlog := backlog + n)
    }

    /** `cork` terminates the program. */
    predicate Terminates() { offset > 0 && !holder.Us? }

    function Done(call: Call): Reply {
      match call
      case Write(_, data, optionally) => Written(|data|, optionally)
      case Uncork(_, data, optionally) => Uncorked(|data|, optionally)
      case Assemble(_, data) => Reply(|data|, false, Assembled(|data|))
      case Cork(_) => Reply(0, Terminates(), if Terminates() then this else this.(holder := Us))
    }

    /** The same account after a call on another socket with account `other` afterwards. */
    function Beside(other: Account): Account {
      this.(holder := if other.holder.Us? then Other else if other.holder.Nobody? then Nobody else holder,
            offset := other.offset)
    }

    lemma DoneIsGood(call: Call)
      requires Good()
      ensures var r := Done(call); r.after.Good() && r.count <= |Given(call)|
      ensures var after := Done(call).after; after.holder.Other? ==> holder.Other? && after.offset == offset
      ensures call.Write? || call.Uncork? ==> (Done(call).after.holder.Us? ==> holder.Us?)
    {}

    /** The data overflows the cork and there are corked bytes to flush first. */
    predicate Overflows(n: nat) { holder.Us? && 0 < offset && offset + n > CORK_BUFFER_SIZE }

    /** A write that is not optional takes everything, unless it overflows the cork and the kernel does not accept
        all corked bytes: then it takes nothing. */
    lemma WrittenInFull(n: nat)
      requires holder.Us? && offset > 0 ==> backlog == 0
      ensures Written(n, false).count == if Overflows(n) && Accepted(offset) < offset then 0 else n
    {}

    /** Whether such a write can lose its data is known before the call: it cannot, whatever the kernel answers,
        exactly if the socket is not corked, nothing is in the cork, or the data fits. */
    lemma SafeToWrite(n: nat)
      requires Good()
      ensures (forall answers :: this.(kernel := answers).Written(n, false).count == n) <==> !Overflows(n)
    {
      forall answers ensures var a := this.(kernel := answers);
        a.Written(n, false).count == if Overflows(n) && a.Accepted(offset) < offset then 0 else n
      { this.(kernel := answers).WrittenInFull(n); }
      assert this.(kernel := []).Accepted(offset) == 0;
    }

    /** `uncork` likewise, where every corked byte has to go first. */
    lemma UncorkedInFull(n: nat)
      requires holder.Us? && (offset > 0 ==> backlog == 0)
      ensures Uncorked(n, false).count == if Accepted(offset) < offset then 0 else n
    {}

    /** Nor can it lose its data, whatever the kernel answers, exactly if there is none, or the socket is corked with
        nothing in the cork. A socket that is not corked takes nothing and does not fail. */
    lemma SafeToUncork(n: nat)
      requires Good()
      ensures (forall answers :: this.(kernel := answers).Uncorked(n, false).count == n) <==>
        n == 0 || (holder.Us? && offset == 0)
      ensures !holder.Us? ==> Uncorked(n, false) == Reply(0, false, this)
    {
      forall answers ensures var a := this.(kernel := answers);
        holder.Us? ==> a.Uncorked(n, false).count == if a.Accepted(offset) < offset then 0 else n
      { if holder.Us? { this.(kernel := answers).UncorkedInFull(n); } }
      assert this.(kernel := []).Accepted(offset) == 0;
    }

    /** The corked bytes of the socket, and all bytes it holds back. */
    function InCork(): nat { if holder.Us? then offset else 0 }

    function Held(): nat { backlog + InCork() }

    /** The data goes into the cork. */
    predicate Fits(n: nat) { holder.Us? && offset + n <= CORK_BUFFER_SIZE }

    /** Without corked bytes: the backpressure, then the data. */
    lemma PlainOut(n: nat, optionally: bool)
      requires !holder.Us?
      ensures var r := Plain(n, optionally);
        && Report(backlog + r.count - r.after.backlog, r.count, r.failed) == Sending(kernel, backlog, 0, n, optionally)
        && r.after == this.(kernel := Unasked(kernel, [backlog, 0, n]), backlog := r.after.backlog)
    {
      FirstOffer(kernel, backlog);
      ThreeOffers(kernel, backlog, 0, n);
      TwoOffers(Unasked(kernel, [backlog]), 0, n);
      FirstOffer(Unasked(kernel, [backlog]), n);
    }

    /** What `uncork` on a corked socket sends, takes and reports, by what the kernel is offered and answers. The bytes
        that went out are those held back before and taken, less those held back after. */
    lemma UncorkedOut(n: nat, optionally: bool)
      requires holder.Us? && (offset > 0 ==> backlog == 0)
      ensures var r := Uncorked(n, optionally);
        && Report(Held() + r.count - r.after.Held(), r.count, r.failed)
           == Sending(kernel, backlog, offset, n, optionally)
        && r.after == Account(Nobody, 0, r.after.backlog, Unasked(kernel, [backlog, offset, n]))
    {
      var free := this.(holder := Nobody);
      if offset == 0 {
        free.PlainOut(n, optionally);
      } else {
        free.PlainOut(offset, false);
        free.Plain(offset, false).after.(offset := 0).PlainOut(n, optionally);
        CorkFirst(kernel, offset, n);
      }
    }

    /** Data that does not fit is written by uncorking. */
    lemma OverflowUncorks(n: nat, optionally: bool)
      requires holder.Us? && offset <= CORK_BUFFER_SIZE < offset + n && (offset > 0 ==> backlog == 0)
      ensures !Stuck() ==> Written(n, optionally) == Uncorked(n, optionally)
    {}

    lemma WrittenOverflow(n: nat, optionally: bool)
      requires holder.Us? && offset <= CORK_BUFFER_SIZE < offset + n && (offset > 0 ==> backlog == 0)
      ensures var r := Written(n, optionally);
        && Report(Held() + r.count - r.after.Held(), r.count, r.failed)
           == Sending(kernel, backlog, offset, n, optionally)
        && r.after.kernel == Unasked(kernel, [backlog, offset, n]) && r.after.InCork() == 0
    {
      if Stuck() {
        FirstOffer(kernel, backlog);
        ThreeOffers(kernel, backlog, offset, n);
      } else {
        UncorkedOut(n, optionally);
        OverflowUncorks(n, optionally);
      }
    }

    /** A write likewise. */
    lemma WrittenOut(n: nat, optionally: bool)
      requires offset <= CORK_BUFFER_SIZE && (holder.Us? && offset > 0 ==> backlog == 0)
      ensures var r := Written(n, optionally);
        && Report(Held() + r.count - r.after.Held(), r.count, r.failed)
           == Writing(kernel, holder.Us?, offset, backlog, n, optionally)
        && r.after.kernel == Unasked(kernel, if Fits(n) then [backlog] else [backlog, InCork(), n])
        && r.after.InCork() == if Fits(n) && !r.failed then offset + n else 0
    {
      if Fits(n) {
        FirstOffer(kernel, backlog);
      } else if holder.Us? {
        WrittenOverflow(n, optionally);
      } else {
        PlainOut(n, optionally);
        assert Written(n, optionally) == Plain(n, optionally);
      }
    }

    /** An optional write adds nothing to the bytes held back. */
    lemma OptionalHoldsNothing(n: nat)
      requires Good()
      ensures var r := Written(n, true); r.after.backlog <= Held() && r.count <= n
      ensures var r := Uncorked(n, true); r.after.backlog <= Held() && r.count <= n
    {}
  }

  class LoopData {
    const corkBuffer: array<Byte>
    var corkOffset: nat
    var corkedSocket: Socket?

    constructor ()
      ensures fresh(corkBuffer) && corkBuffer.Length == CORK_BUFFER_SIZE && corkOffset == 0 && corkedSocket == null
    {
      corkBuffer := new Byte[CORK_BUFFER_SIZE](_ => 0);
      corkOffset, corkedSocket := 0, null;
    }

    ghost predicate Valid()
      reads this
    {
      corkBuffer.Length == CORK_BUFFER_SIZE && corkOffset <= CORK_BUFFER_SIZE
    }

    method Cork(data: seq<Byte>)
      requires Valid() && corkOffset + |data| <= CORK_BUFFER_SIZE
      modifies corkBuffer, this`corkOffset
      ensures Valid() && corkOffset == old(corkOffset) + |data|
      ensures corkBuffer[..corkOffset] == old(corkBuffer[..corkOffset]) + data
    {
      forall i | 0 <= i < |data| { corkBuffer[corkOffset + i] := data[i]; }
      corkOffset := corkOffset + |data|;
    }
  }

  class Socket {
    const loop: LoopData
    const buffer: Buffer
    var wire: seq<Byte>         // what the kernel has accepted
    var kernel: seq<nat>        // how much it is going to accept

    constructor (loop: LoopData, kernel: seq<nat>)
      ensures this.loop == loop && fresh(buffer) && buffer.Valid() && buffer.Data() == [] && wire == []
      ensures this.kernel == kernel
    {
      this.loop := loop;
      buffer := new Buffer();
      wire, this.kernel := [], kernel;
    }

    /** The corked bytes of this socket. */
    function Corked(): seq<Byte>
      requires loop.Valid()
      reads this, loop, loop.corkBuffer
    {
      if loop.corkedSocket == this then loop.corkBuffer[..loop.corkOffset] else []
    }

    /** A socket with corked bytes has no backpressure: corked bytes are always the youngest. */
    ghost predicate Valid()
      reads this, loop, buffer
    {
      && loop.Valid() && buffer.Valid()
      && (loop.corkedSocket == this && loop.corkOffset > 0 ==> buffer.Data() == [])
    }

    ghost function Stream(): seq<Byte>
      requires Valid()
      reads this, loop, loop.corkBuffer, buffer
    {
      wire + buffer.Data() + Corked()
    }

    /** The socket by lengths. */
    ghost function Lengths(): Account
      requires Valid()
      reads this, loop, buffer
    {
      Account(if IsCorked() then Us else if CanCork() then Nobody else Other, loop.corkOffset, |buffer.Data()|, kernel)
    }

    /** The system call: on an open socket any part of the data may be accepted. */
    method KernelWrite(data: seq<Byte>) returns (n: nat)
      requires Valid()
      modifies this`wire, this`kernel
      ensures Valid() && n == Takes(old(kernel), |data|) && kernel == Later(old(kernel))
      ensures wire == old(wire) + data[..n]
    {
      n := 0;
      if kernel != [] {
        n := if kernel[0] < |data| then kernel[0] else |data|;
        kernel := kernel[1..];
      }
      wire := wire + data[..n];
    }

    predicate IsCorked()
      reads this, loop
    {
      loop.corkedSocket == this
    }

    predicate CanCork()
      reads this, loop
    {
      loop.corkedSocket == null
    }

    /** Corks this socket; the program is terminated if another socket has bytes in the cork buffer. */
    method Cork() returns (terminated: bool)
      requires Valid()
      modifies loop`corkedSocket
      ensures terminated <==> old(Lengths()).Terminates()
      ensures loop.corkedSocket == if terminated then old(loop.corkedSocket) else this
      ensures Valid() && Stream() == old(Stream())
    {
      if loop.corkOffset > 0 && loop.corkedSocket != this { return true; }
      loop.corkedSocket := this;
      return false;
    }

    /** Bytes that move from the backpressure to the wire stay in place in the stream. */
    static lemma SentOn(wire: seq<Byte>, data: seq<Byte>, n: nat, corked: seq<Byte>)
      requires n <= |data|
      ensures wire + data[..n] + data[n..] + corked == wire + data + corked
      ensures n == |data| ==> wire + data[..n] + [] + corked == wire + data + corked
    {
      assert data[..n] + data[n..] == data;
      assert wire + data[..n] + data[n..] == wire + (data[..n] + data[n..]);
    }

    /** Offers all of the backpressure to the kernel: what it accepts goes out, the rest is left, and it is stuck
        exactly if something is left. Without backpressure the kernel is not asked. */
    method Drain() returns (stuck: bool)
      requires Valid()
      modifies this`wire, this`kernel, buffer
      ensures Valid() && Stream() == old(Stream())
      ensures var data := old(buffer.Data()); var n := Takes(old(kernel), |data|);
        && wire == old(wire) + data[..n] && buffer.Data() == data[n..] && (stuck <==> n < |data|)
        && kernel == if data == [] then old(kernel) else Later(old(kernel))
      ensures stuck <==> old(Lengths()).Stuck()
      ensures Lengths() == old(Lengths()).Drained()
    {
      var length := buffer.Length();
      if length > 0 {
        ghost var was, data := wire, buffer.Data();
        var n := KernelWrite(buffer.Data());
        SentOn(was, data, n, Corked());
        if n < length {
          buffer.Erase(n);
          return true;
        }
        buffer.Clear();
      }
      return false;
    }

    /** Sends without corking: it fails exactly if the kernel does not accept all, and what the kernel refuses is
        buffered, unless the write is optional: then only what the kernel accepts is taken. */
    method Send(src: seq<Byte>, optionally: bool) returns (written: nat, failed: bool)
      requires Valid() && !IsCorked() && buffer.Data() == []
      modifies this`wire, this`kernel, buffer
      ensures Valid() && written <= |src| && Stream() == old(Stream()) + src[..written]
      ensures var n := Takes(old(kernel), |src|);
        && wire == old(wire) + src[..n] && kernel == Later(old(kernel)) && (failed <==> n < |src|)
        && written == (if optionally then n else |src|)
        && buffer.Data() == if optionally then [] else src[n..]
      ensures Reply(written, failed, Lengths()) == old(Lengths()).Sent(|src|, optionally)
    {
      ghost var was := wire;
      assert Stream() == was;
      var n := KernelWrite(src);
      assert Stream() == was + src[..n] && src[..|src|] == src;
      if n < |src| {
        if optionally { return n, true; }
        buffer.Append(src[n..]);
        SentOn(was, src, n, []);
        return |src|, true;
      }
      return |src|, false;
    }

    /** With no backpressure left: cork or send the data. */
    method CorkOrSend(src: seq<Byte>, optionally: bool) returns (written: nat, failed: bool)
      requires Valid() && buffer.Data() == []
      modifies this`wire, this`kernel, buffer, loop, loop.corkBuffer
      decreases if loop.corkedSocket == this then 2 else 0, 0
      ensures Valid() && written <= |src|
      ensures Stream() == old(Stream()) + src[..written]
      ensures !old(IsCorked()) ==> unchanged(loop) && unchanged(loop.corkBuffer)
      ensures old(IsCorked()) ==> IsCorked() || (CanCork() && loop.corkOffset == 0)
      ensures |old(wire)| <= |wire|
      ensures Reply(written, failed, Lengths()) == old(Lengths()).CorkedOrSent(|src|, optionally)
    {
      if |src| > 0 {
        if loop.corkedSocket == this {
          if CORK_BUFFER_SIZE - loop.corkOffset < |src| {
            written, failed := Uncork(src, optionally);
            return;
          }
          loop.Cork(src);
        } else {
          written, failed := Send(src, optionally);
          return;
        }
      }
      return |src|, false;
    }

    /** Drain the backpressure, then cork, send or buffer the data. The first `written` bytes are taken. */
    method Write(src: seq<Byte>, optionally: bool) returns (written: nat, failed: bool)
      requires Valid()
      modifies this`wire, this`kernel, buffer, loop, loop.corkBuffer
      decreases if loop.corkedSocket == this then 2 else 0, 1
      ensures Valid() && written <= |src|
      ensures Stream() == old(Stream()) + src[..written]
      ensures !old(IsCorked()) ==> unchanged(loop) && unchanged(loop.corkBuffer)
      ensures old(IsCorked()) ==> IsCorked() || (CanCork() && loop.corkOffset == 0)
      ensures |old(wire)| <= |wire|
      ensures Reply(written, failed, Lengths()) == old(Lengths()).Written(|src|, optionally)
      ensures var a := old(Lengths());
        !optionally ==> written == if a.Overflows(|src|) && a.Accepted(a.offset) < a.offset then 0 else |src|
    {
      if !optionally { Lengths().WrittenInFull(|src|); }
      var stuck := Drain();
      if stuck {
        if optionally { return 0, true; }
        buffer.Append(src);
        return |src|, true;
      }
      written, failed := CorkOrSend(src, optionally);
    }

    /** Uncork and write the corked bytes out. */
    method Flush() returns (stuck: bool)
      requires Valid() && IsCorked() && loop.corkOffset > 0
      modifies this`wire, this`kernel, buffer, loop, loop.corkBuffer
      decreases 1, 1
      ensures Valid() && Stream() == old(Stream()) && |old(wire)| <= |wire|
      ensures CanCork() && loop.corkOffset == 0
      ensures var flush := old(Lengths()).(holder := Nobody).Plain(old(loop.corkOffset), false);
        stuck == flush.failed && Lengths() == flush.after.(offset := 0)
    {
      var corked := loop.corkBuffer[..loop.corkOffset];
      loop.corkedSocket := null;
      var _, failed := Write(corked, false);
      loop.corkOffset := 0;
      return failed;
    }

    /** Flush the corked bytes, then write the data, of which the first `written` bytes are taken. */
    method Uncork(src: seq<Byte>, optionally: bool) returns (written: nat, failed: bool)
      requires Valid()
      modifies this`wire, this`kernel, buffer, loop, loop.corkBuffer
      decreases if loop.corkedSocket == this then 1 else 0, 2
      ensures Valid() && written <= |src|
      ensures Stream() == old(Stream()) + src[..written]
      ensures !old(IsCorked()) ==> written == 0 && !failed && unchanged(loop) && unchanged(loop.corkBuffer)
      ensures old(IsCorked()) ==> CanCork() && loop.corkOffset == 0
      ensures |old(wire)| <= |wire|
      ensures Reply(written, failed, Lengths()) == old(Lengths()).Uncorked(|src|, optionally)
      ensures var a := old(Lengths());
        !optionally && a.holder.Us? ==> written == if a.Accepted(a.offset) < a.offset then 0 else |src|
    {
      if !optionally && IsCorked() { Lengths().UncorkedInFull(|src|); }
      if loop.corkedSocket == this {
        if loop.corkOffset > 0 {
          var stuck := Flush();
          if stuck { return 0, true; }
        } else {
          loop.corkedSocket := null;
        }
        written, failed := Write(src, optionally);
      } else {
        return 0, false;
      }
    }

    /** Where a region of `size` bytes lies that the caller may fill: the youngest bytes of the stream. */
    ghost predicate IsYoungest(region: Region, size: nat)
      requires Valid()
      reads this, loop, loop.corkBuffer, buffer
    {
      match region
      case InCork(offset) => IsCorked() && loop.corkOffset == offset + size
      case InBackPressure(offset) => Corked() == [] && |buffer.Data()| == offset + size
    }

    method RoomInCork(size: nat)
      requires Valid() && IsCorked() && buffer.Data() == [] && loop.corkOffset + size < CORK_BUFFER_SIZE
      modifies loop`corkOffset
      ensures Valid() && loop.corkOffset == old(loop.corkOffset) + size
      ensures |Stream()| == |old(Stream())| + size && old(Stream()) <= Stream()
    {
      var offset := loop.corkOffset;
      loop.corkOffset := offset + size;
      assert loop.corkBuffer[..offset + size] == loop.corkBuffer[..offset] + loop.corkBuffer[offset..offset + size];
    }

    /** Grows the backpressure by `ours` and room for `size` bytes. */
    method GrowBackPressure(ours: seq<Byte>, size: nat)
      requires buffer.Valid()
      modifies buffer
      ensures buffer.Valid() && buffer.Data() == old(buffer.Data()) + ours + Zeros(size)
    {
      ghost var before := buffer.Data();
      var existing := buffer.Length();
      buffer.Resize(|ours| + existing + size);
      buffer.Overwrite(existing, ours);
      Spliced(before, ours, size);
    }

    static lemma Spliced(before: seq<Byte>, ours: seq<Byte>, size: nat)
      ensures var resized := before + Zeros(|ours| + size);
        resized[..|before|] + ours + resized[|before| + |ours|..] == before + ours + Zeros(size)
    {}

    /** Moves our corked bytes behind the backpressure and makes room after them. */
    method RoomInBackPressure(size: nat) returns (offset: nat)
      requires Valid()
      modifies buffer, loop`corkOffset
      ensures Valid() && Corked() == [] && |buffer.Data()| == offset + size
      ensures Stream() == old(Stream()) + Zeros(size)
      ensures loop.corkOffset == if old(IsCorked()) then 0 else old(loop.corkOffset)
    {
      var existing := buffer.Length();
      var ours := [];
      if loop.corkedSocket == this && loop.corkOffset > 0 {
        ours := loop.corkBuffer[..loop.corkOffset];
        loop.corkOffset := 0;
      }
      assert old(Stream()) == wire + (buffer.Data() + ours);
      GrowBackPressure(ours, size);
      offset := |ours| + existing;
    }

    /** Hands out room for `size` bytes at the end of the stream: in the cork buffer if it is ours or free and
        there is no backpressure, else behind the backpressure and the bytes corked so far. */
    method GetSendBuffer(size: nat) returns (region: Region, attribute: SendBufferAttribute)
      requires Valid() && (CanCork() ==> loop.corkOffset == 0)
      modifies buffer, loop
      ensures Valid() && IsYoungest(region, size)
      ensures |Stream()| == |old(Stream())| + size && old(Stream()) <= Stream()
      ensures region.InCork? <==>
        && old(buffer.Data()) == [] && (old(IsCorked()) || old(CanCork()))
        && old(loop.corkOffset) + size < CORK_BUFFER_SIZE
      ensures attribute ==
        if region.InBackPressure? then NeedsDrain else if old(IsCorked()) then NeedsNothing else NeedsUncork
      ensures loop.corkedSocket == if region.InCork? then this else old(loop.corkedSocket)
      ensures Lengths() == old(Lengths()).Assembled(size)
      ensures !IsCorked() ==> unchanged(loop)
    {
      var existing := buffer.Length();
      var corked := loop.corkedSocket == this;
      if existing == 0 && (corked || loop.corkedSocket == null) && loop.corkOffset + size < CORK_BUFFER_SIZE {
        if !corked {
          var terminated := Cork();
        }
        region, attribute := InCork(loop.corkOffset), if corked then NeedsNothing else NeedsUncork;
        RoomInCork(size);
      } else {
        var offset := RoomInBackPressure(size);
        region, attribute := InBackPressure(offset), NeedsDrain;
      }
    }

    /** Overwriting the end of the youngest part overwrites the end of the stream. */
    static lemma Overwritten(before: seq<Byte>, youngest: seq<Byte>, offset: nat, data: seq<Byte>)
      requires |youngest| == offset + |data|
      ensures before + (youngest[..offset] + data) == (before + youngest)[..|before + youngest| - |data|] + data
    {}

    /** The caller assembles its data in the region it was given. */
    method Fill(region: Region, data: seq<Byte>)
      requires Valid() && IsYoungest(region, |data|)
      modifies buffer, loop.corkBuffer
      ensures Valid() && |data| <= |old(Stream())| && Stream() == old(Stream())[..|old(Stream())| - |data|] + data
      ensures wire == old(wire) && Lengths() == old(Lengths())
      ensures region.InBackPressure? ==> unchanged(loop.corkBuffer)
    {
      ghost var waiting, corked := buffer.Data(), Corked();
      match region
      case InCork(offset) =>
        forall i | 0 <= i < |data| { loop.corkBuffer[offset + i] := data[i]; }
        assert Corked() == corked[..offset] + data;
        Overwritten(wire + waiting, corked, offset, data);
      case InBackPressure(offset) =>
        buffer.Overwrite(offset, data);
        assert buffer.Data() == waiting[..offset] + data;
        Overwritten(wire, waiting, offset, data);
    }

    /** getSendBuffer followed by the caller filling in its data. */
    method Assemble(data: seq<Byte>)
      requires Valid() && (CanCork() ==> loop.corkOffset == 0)
      modifies buffer, loop, loop.corkBuffer
      ensures Valid() && Stream() == old(Stream()) + data && Lengths() == old(Lengths()).Assembled(|data|)
      ensures CorkKept() && (Lengths().holder.Other? ==> unchanged(loop`corkedSocket))
      ensures CanCork() ==> loop.corkOffset == 0
    {
      ghost var before := Stream();
      var region, attribute := GetSendBuffer(|data|);
      assert Stream()[..|before|] == before;
      assert CorkKept();
      label room:
      Fill(region, data);
      assert CorkKept@room();
    }

    /** The cork buffer was left alone, or was empty, or belonged to this socket or nobody, before and after. */
    twostate predicate CorkKept()
      reads this, loop, loop.corkBuffer
    {
      || (unchanged(loop) && unchanged(loop.corkBuffer))
      || (old(loop.corkOffset) == 0 && loop.corkOffset == 0)
      || ((old(CanCork()) || old(IsCorked())) && (CanCork() || IsCorked()))
    }
  }

  // ------------------------------------------------------------------ many sockets on one loop

  ghost predicate Apart(loop: LoopData, sockets: set<Socket>) {
    && (forall s :: s in sockets ==> s.loop == loop)
    && (forall s, u :: s in sockets && u in sockets && s != u ==> s.buffer != u.buffer)
  }

  ghost function Footprint(loop: LoopData, sockets: set<Socket>): set<object> {
    {loop, loop.corkBuffer} + sockets + set s | s in sockets :: s.buffer
  }

  ghost predicate LoopInv(loop: LoopData, sockets: set<Socket>)
    requires Apart(loop, sockets)
    reads Footprint(loop, sockets)
  {
    && (forall s :: s in sockets ==> s.Valid())
    && (loop.corkedSocket == null ==> loop.corkOffset == 0)
  }

  /** One call on one socket of the loop: its stream grows by a prefix of the data given, and the streams of
      the other sockets do not change. */
  method Perform(loop: LoopData, ghost sockets: set<Socket>, s: Socket, call: Call)
    returns (taken: seq<Byte>, failed: bool)
    requires Apart(loop, sockets) && LoopInv(loop, sockets) && s in sockets
    modifies loop, loop.corkBuffer, s, s.buffer
    ensures LoopInv(loop, sockets)
    ensures s.Stream() == old(s.Stream()) + taken && taken <= Given(call)
    ensures Reply(|taken|, failed, s.Lengths()) == old(s.Lengths()).Done(call)
    ensures Report(|s.wire| - |old(s.wire)|, |taken|, failed) ==
      Moving(call, old(s.kernel), old(s.IsCorked()), old(loop.corkOffset), |old(s.buffer.Data())|)
    ensures forall u :: u in sockets && u != s ==>
      u.Stream() == old(u.Stream()) && u.Lengths() == old(u.Lengths()).Beside(s.Lengths())
  {
    taken, failed := PerformOn(s, call);
    forall u | u in sockets && u != s
      ensures u.Valid() && u.Stream() == old(u.Stream()) && u.Lengths() == old(u.Lengths()).Beside(s.Lengths())
    {
      assert old(u.Valid());
      assert u.buffer.Data() == old(u.buffer.Data()) && u.wire == old(u.wire) && u.kernel == old(u.kernel);
      assert u.Corked() == old(u.Corked());
    }
  }

  /** How many bytes a write or uncork puts on the wire, how many it takes and whether it fails, by the bytes held
      back before, the data given and the kernel's answers. Nothing goes out in another call. */
  function Moving(call: Call, answers: seq<nat>, corked: bool, offset: nat, b: nat): Report {
    match call
    case Write(_, data, optionally) => Writing(answers, corked, offset, b, |data|, optionally)
    case Uncork(_, data, optionally) =>
      if corked then Sending(answers, b, offset, |data|, optionally) else Report(0, 0, false)
    case Assemble(_, data) => Report(0, |data|, false)
    case Cork(_) => Report(0, 0, offset > 0 && !corked)
  }

  lemma DoneMoves(a: Account, call: Call, r: Reply, sent: int)
    requires a.Good() && r == a.Done(call) && sent == a.Held() + r.count - r.after.Held()
    ensures Report(sent, r.count, r.failed) == Moving(call, a.kernel, a.holder.Us?, a.offset, a.backlog)
  {
    match call
    case Write(_, data, optionally) => a.WrittenOut(|data|, optionally);
    case Uncork(_, data, optionally) => if a.holder.Us? { a.UncorkedOut(|data|, optionally); }
    case Assemble(_, data) =>
    case Cork(_) =>
  }

  method Dispatch(s: Socket, call: Call) returns (taken: seq<Byte>, failed: bool)
    requires s.Valid() && (s.CanCork() ==> s.loop.corkOffset == 0)
    modifies s.loop, s.loop.corkBuffer, s, s.buffer
    ensures s.Valid() && s.Stream() == old(s.Stream()) + taken && taken <= Given(call)
    ensures Reply(|taken|, failed, s.Lengths()) == old(s.Lengths()).Done(call)
    ensures s.CorkKept() && (s.Lengths().holder.Other? ==> unchanged(s.loop`corkedSocket))
    ensures s.CanCork() ==> s.loop.corkOffset == 0
  {
    match call
    case Write(_, data, optionally) =>
      var n;
      n, failed := s.Write(data, optionally);
      taken := data[..n];
    case Uncork(_, data, optionally) =>
      var n;
      n, failed := s.Uncork(data, optionally);
      taken := data[..n];
    case Assemble(_, data) =>
      s.Assemble(data);
      taken, failed := data, false;
    case Cork(_) =>
      failed := s.Cork();
      taken := [];
  }

  /** One call on its socket, by the bytes it moves. */
  method PerformOn(s: Socket, call: Call) returns (taken: seq<Byte>, failed: bool)
    requires s.Valid() && (s.CanCork() ==> s.loop.corkOffset == 0)
    modifies s.loop, s.loop.corkBuffer, s, s.buffer
    ensures s.Valid() && s.Stream() == old(s.Stream()) + taken && taken <= Given(call)
    ensures Reply(|taken|, failed, s.Lengths()) == old(s.Lengths()).Done(call)
    ensures Report(|s.wire| - |old(s.wire)|, |taken|, failed) ==
      Moving(call, old(s.kernel), old(s.IsCorked()), old(s.loop.corkOffset), |old(s.buffer.Data())|)
    ensures s.CorkKept() && (s.Lengths().holder.Other? ==> unchanged(s.loop`corkedSocket))
    ensures s.CanCork() ==> s.loop.corkOffset == 0
  {
    ghost var before := s.Lengths();
    taken, failed := Dispatch(s, call);
    DoneMoves(before, call, Reply(|taken|, failed, s.Lengths()), |s.wire| - |old(s.wire)|);
  }

  method Open(kernels: seq<seq<nat>>) returns (loop: LoopData, sockets: seq<Socket>, ghost all: set<Socket>)
    ensures fresh(loop) && fresh(loop.corkBuffer) && |sockets| == |kernels|
    ensures forall s :: s in all ==> fresh(s) && fresh(s.buffer)
    ensures Apart(loop, all) && LoopInv(loop, all)
    ensures forall i :: 0 <= i < |kernels| ==>
      sockets[i] in all && sockets[i].Stream() == [] && sockets[i].Lengths() == Account(Nobody, 0, 0, kernels[i])
    ensures forall i, j :: 0 <= i < j < |kernels| ==> sockets[i] != sockets[j]
  {
    loop := new LoopData();
    sockets, all := [], {};
    for i := 0 to |kernels|
      invariant |sockets| == i && fresh(loop) && fresh(loop.corkBuffer)
      invariant loop.Valid() && loop.corkedSocket == null && loop.corkOffset == 0
      invariant forall s :: s in all ==>
        fresh(s) && fresh(s.buffer) && s.wire == [] && s.buffer.Valid() && s.buffer.Data() == []
      invariant Apart(loop, all)
      invariant forall j :: 0 <= j < i ==> sockets[j] in all && sockets[j].kernel == kernels[j]
      invariant forall j, k :: 0 <= j < k < i ==> sockets[j] != sockets[k]
    {
      var s := new Socket(loop, kernels[i]);
      sockets, all := sockets + [s], all + {s};
    }
  }

  // ------------------------------------------------------------------ runs of calls

  /** The accounts of all sockets after a call on socket `i` that leaves it with account `after`. */
  function Moved(desk: seq<Account>, i: nat, after: Account): (r: seq<Account>)
    ensures |r| == |desk|
  {
    seq(|desk|, j requires 0 <= j < |desk| => if j == i then after else desk[j].Beside(after))
  }

  function AfterCall(desk: seq<Account>, call: Call): (r: seq<Account>)
    requires call.socket < |desk|
    ensures |r| == |desk|
  {
    Moved(desk, call.socket, desk[call.socket].Done(call).after)
  }

  predicate ForSockets(calls: seq<Call>, n: nat) { forall k :: 0 <= k < |calls| ==> calls[k].socket < n }

  /** What a sequence of calls reports, up to the first that terminates the program. */
  datatype Outcome = Outcome(counts: seq<nat>, fails: seq<bool>, terminated: bool, desk: seq<Account>)

  function Played(desk: seq<Account>, calls: seq<Call>): (r: Outcome)
    requires ForSockets(calls, |desk|)
    ensures |r.desk| == |desk| && |r.fails| == |r.counts|
    ensures if r.terminated then 0 < |r.counts| <= |calls| && calls[|r.counts| - 1].Cork? else |r.counts| == |calls|
    decreases |calls|
  {
    if calls == [] then Outcome([], [], false, desk) else
      var call := calls[0];
      var reply := desk[call.socket].Done(call);
      if call.Cork? && reply.failed then Outcome([0], [true], true, AfterCall(desk, call)) else
        var rest := Played(AfterCall(desk, call), calls[1..]);
        rest.(counts := [reply.count] + rest.counts, fails := [reply.failed] + rest.fails)
  }

  function Fresh(kernels: seq<seq<nat>>): (desk: seq<Account>)
    ensures |desk| == |kernels|
  {
    seq(|kernels|, i requires 0 <= i < |kernels| => Account(Nobody, 0, 0, kernels[i]))
  }

  /** The sockets agree about the cork they share. */
  ghost predicate Agreed(desk: seq<Account>) {
    && (forall i :: 0 <= i < |desk| ==> desk[i].Good())
    && (forall i, j :: 0 <= i < |desk| && 0 <= j < |desk| ==>
          desk[i].offset == desk[j].offset && desk[i].holder.Nobody? == desk[j].holder.Nobody?)
  }

  lemma MovedAgreed(desk: seq<Account>, call: Call)
    requires Agreed(desk) && call.socket < |desk|
    ensures Agreed(AfterCall(desk, call))
  {
    desk[call.socket].DoneIsGood(call);
    var r, after := AfterCall(desk, call), desk[call.socket].Done(call).after;
    forall i | 0 <= i < |desk|
      ensures r[i].Good() && r[i].offset == after.offset && r[i].holder.Nobody? == after.holder.Nobody?
    {
      assert desk[i].Good() && desk[i].offset == desk[call.socket].offset;
    }
  }

  /** What a run reports after its first call is what the rest of it reports. */
  lemma {:induction false} PlayedRest(desk: seq<Account>, calls: seq<Call>, k: nat)
    requires ForSockets(calls, |desk|) && 0 < k < |Played(desk, calls).counts|
    ensures var rest := Played(AfterCall(desk, calls[0]), calls[1..]);
      && k - 1 < |rest.counts| && k < |calls|
      && Played(desk, calls).counts[k] == rest.counts[k - 1] && Played(desk, calls).fails[k] == rest.fails[k - 1]
  {}

  /** Call `k` of a run that gets this far is made on the accounts the calls before it leave. */
  lemma {:induction false} PlayedAt(desk: seq<Account>, calls: seq<Call>, k: nat)
    requires ForSockets(calls, |desk|) && Agreed(desk) && k < |Played(desk, calls).counts|
    ensures k < |calls| && ForSockets(calls[..k], |desk|)
    ensures !Played(desk, calls[..k]).terminated && Agreed(Played(desk, calls[..k]).desk)
    ensures var reply := Played(desk, calls[..k]).desk[calls[k].socket].Done(calls[k]);
      Played(desk, calls).counts[k] == reply.count && Played(desk, calls).fails[k] == reply.failed
    decreases k
  {
    if k > 0 {
      MovedAgreed(desk, calls[0]);
      assert calls[..k][1..] == calls[1..][..k - 1];
      PlayedRest(desk, calls, k);
      PlayedAt(AfterCall(desk, calls[0]), calls[1..], k - 1);
    }
  }

  /** A socket that no call has corked is not corked. */
  lemma {:induction false} NotCorked(desk: seq<Account>, calls: seq<Call>, i: nat)
    requires ForSockets(calls, |desk|) && i < |desk| && !desk[i].holder.Us?
    requires forall j :: 0 <= j < |calls| && calls[j].socket == i ==> calls[j].Write? || calls[j].Uncork?
    ensures !Played(desk, calls).desk[i].holder.Us?
    decreases |calls|
  {
    if calls != [] && !(calls[0].Cork? && desk[calls[0].socket].Done(calls[0]).failed) {
      NotCorked(AfterCall(desk, calls[0]), calls[1..], i);
    }
  }

  /** Over every run: a write that is not optional takes all of its data, unless it overflows the cork and the
      kernel does not accept all corked bytes, and then it takes nothing. On a socket that was never corked it
      takes all, whatever the kernel answers. */
  lemma EachCall(kernels: seq<seq<nat>>, calls: seq<Call>, k: nat)
    requires ForSockets(calls, |kernels|) && k < |Played(Fresh(kernels), calls).counts|
    ensures k < |calls| && ForSockets(calls[..k], |kernels|)
    ensures var a := Played(Fresh(kernels), calls[..k]).desk[calls[k].socket]; var n := |Given(calls[k])|;
      var count := Played(Fresh(kernels), calls).counts[k];
      && count == a.Done(calls[k]).count && count <= n
      && Played(Fresh(kernels), calls).fails[k] == a.Done(calls[k]).failed
      && (calls[k].Assemble? ==> count == n)
      && (calls[k].Write? && !calls[k].optionally ==>
            count == if a.Overflows(n) && a.Accepted(a.offset) < a.offset then 0 else n)
      && (calls[k].Uncork? && !calls[k].optionally ==>
            count == if !a.holder.Us? || a.Accepted(a.offset) < a.offset then 0 else n)
    ensures calls[k].Write? && !calls[k].optionally &&
      (forall j :: 0 <= j < k && calls[j].socket == calls[k].socket ==> calls[j].Write? || calls[j].Uncork?)
      ==> Played(Fresh(kernels), calls).counts[k] == |calls[k].data|
  {
    PlayedAt(Fresh(kernels), calls, k);
    var i := calls[k].socket;
    var a := Played(Fresh(kernels), calls[..k]).desk[i];
    a.DoneIsGood(calls[k]);
    a.WrittenInFull(|Given(calls[k])|);
    if a.holder.Us? { a.UncorkedInFull(|Given(calls[k])|); }
    if forall j :: 0 <= j < k && calls[j].socket == i ==> calls[j].Write? || calls[j].Uncork? {
      NotCorked(Fresh(kernels), calls[..k], i);
    }
  }

  /** The kernel has at least `asks` answers, none below `bound`. */
  ghost predicate Ample(answers: seq<nat>, bound: nat, asks: nat) {
    asks <= |answers| && forall j :: 0 <= j < |answers| ==> bound <= answers[j]
  }

  lemma {:induction false} AmpleAccepts(answers: seq<nat>, pieces: seq<nat>, bound: nat, asks: nat)
    requires Ample(answers, bound, |pieces| + asks) && forall j :: 0 <= j < |pieces| ==> pieces[j] <= bound
    ensures Accepts(answers, pieces) == Sum(pieces) && Ample(Unasked(answers, pieces), bound, asks)
    decreases |pieces|
  {
    if pieces != [] {
      AmpleAccepts(if pieces[0] == 0 then answers else Later(answers), pieces[1..], bound, asks);
    }
  }

  lemma AmpleWrite(a: Account, n: nat, optionally: bool, bound: nat, asks: nat)
    requires a.Good() && Ample(a.kernel, bound, 3 + asks) && a.Held() + n <= bound
    ensures var r := a.Written(n, optionally);
      && Ample(r.after.kernel, bound, asks) && !r.failed && r.count == n
      && r.after.Held() == r.after.InCork() <= a.Held() + n
  {
    a.WrittenOut(n, optionally);
    if a.Fits(n) {
      AmpleAccepts(a.kernel, [a.backlog], bound, 2 + asks);
      FirstOffer(a.kernel, a.backlog);
    } else {
      AmpleAccepts(a.kernel, [a.backlog, a.InCork(), n], bound, asks);
      ThreeOffers(a.kernel, a.backlog, a.InCork(), n);
    }
  }

  lemma AmpleUncork(a: Account, n: nat, optionally: bool, bound: nat, asks: nat)
    requires a.Good() && a.holder.Us? && Ample(a.kernel, bound, 3 + asks) && a.Held() + n <= bound
    ensures var r := a.Uncorked(n, optionally);
      Ample(r.after.kernel, bound, asks) && !r.failed && r.count == n && r.after.Held() == 0
  {
    a.UncorkedOut(n, optionally);
    AmpleAccepts(a.kernel, [a.backlog, a.offset, n], bound, asks);
    ThreeOffers(a.kernel, a.backlog, a.offset, n);
  }

  /** A kernel that accepts what it is offered: no write or uncork fails, all data is taken, no backpressure is left. */
  lemma AmpleCall(a: Account, call: Call, bound: nat, asks: nat)
    requires a.Good() && Ample(a.kernel, bound, 3 + asks) && a.Held() + |Given(call)| <= bound
    ensures var r := a.Done(call);
      && Ample(r.after.kernel, bound, asks) && r.after.Held() <= a.Held() + |Given(call)|
      && (call.Write? || call.Uncork? ==> !r.failed)
      && (call.Write? || (call.Uncork? && a.holder.Us?) ==>
            r.count == |Given(call)| && r.after.Held() == r.after.InCork())
  {
    match call
    case Write(_, data, optionally) => AmpleWrite(a, |data|, optionally, bound, asks);
    case Uncork(_, data, optionally) => if a.holder.Us? { AmpleUncork(a, |data|, optionally, bound, asks); }
    case Assemble(_, data) =>
    case Cork(_) =>
  }

  /** On socket `i`, whichever socket the call is on. */
  lemma AmpleNext(desk: seq<Account>, call: Call, i: nat, bound: nat, asks: nat)
    requires Agreed(desk) && call.socket < |desk| && i < |desk|
    requires Ample(desk[i].kernel, bound, 3 + asks)
    requires desk[i].Held() + (if call.socket == i then |Given(call)| else 0) <= bound
    ensures var a := AfterCall(desk, call)[i];
      && Ample(a.kernel, bound, asks)
      && a.Held() <= desk[i].Held() + (if call.socket == i then |Given(call)| else 0)
      && (!desk[i].holder.Us? && (call.socket == i ==> call.Write? || call.Uncork?) ==> !a.holder.Us?)
      && (!desk[i].holder.Us? && (call.socket == i ==> call.Write? || call.Uncork?) && desk[i].backlog == 0 ==>
            a.backlog == 0)
  {
    desk[call.socket].DoneIsGood(call);
    if call.socket == i { AmpleCall(desk[i], call, bound, asks); }
  }

  /** All bytes the calls give to socket `i`. */
  function GivenTo(calls: seq<Call>, i: nat): nat {
    if calls == [] then 0 else (if calls[0].socket == i then |Given(calls[0])| else 0) + GivenTo(calls[1..], i)
  }

  /** Over every run: with answers at least as large as what can be offered, no write or uncork on a socket fails and
      every write takes all of its data. */
  lemma {:induction false} NothingFails(desk: seq<Account>, calls: seq<Call>, k: nat, bound: nat)
    requires ForSockets(calls, |desk|) && Agreed(desk) && k < |Played(desk, calls).fails|
    requires var i := calls[k].socket;
      Ample(desk[i].kernel, bound, 3 * |calls|) && desk[i].Held() + GivenTo(calls, i) <= bound
    ensures calls[k].Write? || calls[k].Uncork? ==> !Played(desk, calls).fails[k]
    ensures calls[k].Write? ==> Played(desk, calls).counts[k] == |calls[k].data|
    decreases k
  {
    var i := calls[k].socket;
    if k == 0 {
      AmpleCall(desk[i], calls[0], bound, 3 * (|calls| - 1));
    } else {
      MovedAgreed(desk, calls[0]);
      AmpleNext(desk, calls[0], i, bound, 3 * (|calls| - 1));
      PlayedRest(desk, calls, k);
      NothingFails(AfterCall(desk, calls[0]), calls[1..], k - 1, bound);
    }
  }

  /** And nothing is held back in the end by a socket that is only written to, without ever being corked. */
  lemma {:induction false} NothingHeldBack(desk: seq<Account>, calls: seq<Call>, i: nat, bound: nat)
    requires ForSockets(calls, |desk|) && Agreed(desk) && i < |desk| && desk[i].Held() == 0 && !desk[i].holder.Us?
    requires Ample(desk[i].kernel, bound, 3 * |calls|) && GivenTo(calls, i) <= bound
    requires forall k :: 0 <= k < |calls| && calls[k].socket == i ==> calls[k].Write? || calls[k].Uncork?
    ensures Played(desk, calls).desk[i].Held() == 0
    decreases |calls|
  {
    if calls != [] {
      var next := AfterCall(desk, calls[0]);
      MovedAgreed(desk, calls[0]);
      AmpleNext(desk, calls[0], i, bound, 3 * (|calls| - 1));
      if !(calls[0].Cork? && desk[calls[0].socket].Done(calls[0]).failed) {
        NothingHeldBack(next, calls[1..], i, bound);
      }
    }
  }

  /** Of a fresh loop: a kernel that accepts what it is offered keeps its socket free of failures and, if it is never
      corked, of backpressure. */
  lemma AllGoesOut(kernels: seq<seq<nat>>, calls: seq<Call>, i: nat)
    requires ForSockets(calls, |kernels|) && i < |kernels| && Ample(kernels[i], GivenTo(calls, i), 3 * |calls|)
    ensures var played := Played(Fresh(kernels), calls);
      forall k :: 0 <= k < |played.fails| && calls[k].socket == i ==>
        && (calls[k].Write? || calls[k].Uncork? ==> !played.fails[k])
        && (calls[k].Write? ==> played.counts[k] == |calls[k].data|)
    ensures (forall k :: 0 <= k < |calls| && calls[k].socket == i ==> calls[k].Write? || calls[k].Uncork?) ==>
      Played(Fresh(kernels), calls).desk[i].Held() == 0
  {
    var played := Played(Fresh(kernels), calls);
    forall k | 0 <= k < |played.fails| && calls[k].socket == i
      ensures calls[k].Write? || calls[k].Uncork? ==> !played.fails[k]
      ensures calls[k].Write? ==> played.counts[k] == |calls[k].data|
    {
      NothingFails(Fresh(kernels), calls, k, GivenTo(calls, i));
    }
    if forall k :: 0 <= k < |calls| && calls[k].socket == i ==> calls[k].Write? || calls[k].Uncork? {
      NothingHeldBack(Fresh(kernels), calls, i, GivenTo(calls, i));
    }
  }

  /** Bytes the kernel refused go out with the next write: the first write fails and is held back, the second sends
      both and does not fail. */
  lemma Recovers(a: seq<Byte>, b: seq<Byte>, x: nat, y: nat)
    requires 0 < |a| <= x && |b| <= y
    ensures var played := Played(Fresh([[0, x, y]]), [Write(0, a, false), Write(0, b, false)]);
      played.counts == [|a|, |b|] && played.fails == [true, false] && played.desk[0].Held() == 0
  {
    var desk, calls := Fresh([[0, x, y]]), [Write(0, a, false), Write(0, b, false)];
    assert calls[1..] == [Write(0, b, false)] && [0, x, y][1..] == [x, y] && [x, y][1..] == [y];
    var held := AfterCall(desk, calls[0]);
    assert held == [Account(Nobody, 0, |a|, [x, y])];
    assert AfterCall(held, calls[1])[0].backlog == 0;
    assert Played(held, calls[1..]).counts == [|b|] && Played(held, calls[1..]).fails == [false];
  }

  /** Data is dropped: of two writes on a corked socket, neither optional, the first fits and the second does not;
      the kernel accepts nothing, and nothing of the second is taken. */
  lemma DroppedWrite(a: seq<Byte>, b: seq<Byte>)
    requires 0 < |a| <= CORK_BUFFER_SIZE < |a| + |b|
    ensures Played(Fresh([[]]), [Cork(0), Write(0, a, false), Write(0, b, false)]).counts == [0, |a|, 0]
  {
    var calls := [Cork(0), Write(0, a, false), Write(0, b, false)];
    var desk := Fresh([[]]);
    assert calls[1..] == [Write(0, a, false), Write(0, b, false)] && calls[1..][1..] == [Write(0, b, false)];
    var corked := AfterCall(desk, Cork(0));
    assert corked == [Account(Us, 0, 0, [])];
    var filled := AfterCall(corked, Write(0, a, false));
    assert filled == [Account(Us, |a|, 0, [])];
    filled[0].WrittenInFull(|b|);
    assert Played(filled, calls[1..][1..]).counts == [0];
    assert Played(corked, calls[1..]).counts == [|a|, 0];
  }

  /** Likewise with `uncork`: there are corked bytes and the kernel accepts none of them. And on a socket that is not
      corked it takes nothing either. */
  lemma DroppedUncork(a: seq<Byte>, b: seq<Byte>)
    requires 0 < |a| <= CORK_BUFFER_SIZE
    ensures Played(Fresh([[]]), [Cork(0), Write(0, a, false), Uncork(0, b, false)]).counts == [0, |a|, 0]
    ensures Played(Fresh([[]]), [Uncork(0, b, false)]).counts == [0]
  {
    var calls := [Cork(0), Write(0, a, false), Uncork(0, b, false)];
    var desk := Fresh([[]]);
    assert calls[1..] == [Write(0, a, false), Uncork(0, b, false)] && calls[1..][1..] == [Uncork(0, b, false)];
    var corked := AfterCall(desk, Cork(0));
    assert corked == [Account(Us, 0, 0, [])];
    var filled := AfterCall(corked, Write(0, a, false));
    assert filled == [Account(Us, |a|, 0, [])];
    filled[0].UncorkedInFull(|b|);
    assert Played(filled, calls[1..][1..]).counts == [0];
    assert Played(corked, calls[1..]).counts == [|a|, 0];
  }

  /** The bytes the calls on socket `i` reported as taken: of each call's data the first `counts[k]`. */
  ghost function TakenBy(calls: seq<Call>, counts: seq<nat>, i: nat): seq<Byte>
    requires Reported(calls, counts)
    decreases |counts|
  {
    if counts == [] then [] else
      var k := |counts| - 1;
      TakenBy(calls, counts[..k], i) + if calls[k].socket == i then Given(calls[k])[..counts[k]] else []
  }

  predicate Reported(calls: seq<Call>, counts: seq<nat>) {
    |counts| <= |calls| && forall k :: 0 <= k < |counts| ==> counts[k] <= |Given(calls[k])|
  }

  lemma TakenMore(calls: seq<Call>, counts: seq<nat>, n: nat, i: nat)
    requires |counts| < |calls| && Reported(calls, counts) && n <= |Given(calls[|counts|])|
    ensures Reported(calls, counts + [n])
    ensures var call := calls[|counts|];
      TakenBy(calls, counts + [n], i) == TakenBy(calls, counts, i) + if call.socket == i then Given(call)[..n] else []
  {
    assert (counts + [n])[..|counts|] == counts;
  }

  /** Each socket has the account `desk` gives it and its stream is what its calls took. */
  ghost predicate Serves(loop: LoopData, all: set<Socket>, sockets: seq<Socket>, desk: seq<Account>, calls: seq<Call>,
                         counts: seq<nat>)
    requires Apart(loop, all) && Reported(calls, counts)
    reads Footprint(loop, all)
  {
    && LoopInv(loop, all) && |desk| == |sockets|
    && forall i :: 0 <= i < |sockets| ==>
      sockets[i] in all && sockets[i].Stream() == TakenBy(calls, counts, i) && sockets[i].Lengths() == desk[i]
  }

  /** The next call, on whichever socket it is for. */
  method ServeNext(loop: LoopData, ghost all: set<Socket>, sockets: seq<Socket>, calls: seq<Call>, counts: seq<nat>,
                   ghost desk: seq<Account>)
    returns (got: nat, failed: bool)
    requires Apart(loop, all) && Reported(calls, counts) && |counts| < |calls| && calls[|counts|].socket < |sockets|
    requires forall i, j :: 0 <= i < j < |sockets| ==> sockets[i] != sockets[j]
    requires Serves(loop, all, sockets, desk, calls, counts)
    modifies loop, loop.corkBuffer, sockets[calls[|counts|].socket], sockets[calls[|counts|].socket].buffer
    ensures Reported(calls, counts + [got])
    ensures var call := calls[|counts|];
      var reply := desk[call.socket].Done(call);
      && got == reply.count && failed == reply.failed
      && Serves(loop, all, sockets, AfterCall(desk, call), calls, counts + [got])
  {
    var call := calls[|counts|];
    var taken;
    taken, failed := Perform(loop, all, sockets[call.socket], call);
    got := |taken|;
    assert taken == Given(call)[..got];
    TakenMore(calls, counts, got, 0);
    forall i | 0 <= i < |sockets|
      ensures sockets[i].Stream() == TakenBy(calls, counts + [got], i)
    {
      TakenMore(calls, counts, got, i);
    }
  }

  /** After `counts` calls with accounts `desk` the whole run still ends as `played`. */
  ghost predicate Ahead(played: Outcome, desk: seq<Account>, calls: seq<Call>, counts: seq<nat>, fails: seq<bool>,
                        terminated: bool)
  {
    && |fails| == |counts| <= |calls| && ForSockets(calls, |desk|)
    && played == if terminated then Outcome(counts, fails, true, desk) else
         var rest := Played(desk, calls[|counts|..]);
         rest.(counts := counts + rest.counts, fails := fails + rest.fails)
  }

  lemma StillAhead(played: Outcome, desk: seq<Account>, calls: seq<Call>, counts: seq<nat>, fails: seq<bool>)
    requires Ahead(played, desk, calls, counts, fails, false) && |counts| < |calls|
    ensures var call := calls[|counts|];
      var reply := desk[call.socket].Done(call);
      Ahead(played, AfterCall(desk, call), calls, counts + [reply.count], fails + [reply.failed],
            call.Cork? && reply.failed)
  {
    var call := calls[|counts|];
    var reply := desk[call.socket].Done(call);
    assert calls[|counts|..][1..] == calls[|counts| + 1..];
    if !(call.Cork? && reply.failed) {
      var rest := Played(AfterCall(desk, call), calls[|counts| + 1..]);
      assert counts + ([reply.count] + rest.counts) == counts + [reply.count] + rest.counts;
      assert fails + ([reply.failed] + rest.fails) == fails + [reply.failed] + rest.fails;
    }
  }

  /** All calls in order, up to one that terminates the program. */
  method MakeCalls(loop: LoopData, ghost all: set<Socket>, sockets: seq<Socket>, calls: seq<Call>,
                   ghost start: seq<Account>)
    returns (counts: seq<nat>, fails: seq<bool>, terminated: bool)
    requires Apart(loop, all) && ForSockets(calls, |sockets|) && Serves(loop, all, sockets, start, calls, [])
    requires forall i, j :: 0 <= i < j < |sockets| ==> sockets[i] != sockets[j]
    modifies Footprint(loop, all)
    ensures var played := Played(start, calls);
      counts == played.counts && fails == played.fails && terminated == played.terminated
    ensures Reported(calls, counts) && Serves(loop, all, sockets, Played(start, calls).desk, calls, counts)
  {
    counts, fails, terminated := [], [], false;
    ghost var desk, played := start, Played(start, calls);
    assert calls[0..] == calls;
    while |counts| < |calls| && !terminated
      invariant Reported(calls, counts) && Serves(loop, all, sockets, desk, calls, counts)
      invariant Ahead(played, desk, calls, counts, fails, terminated)
      decreases |calls| - |counts|
    {
      StillAhead(played, desk, calls, counts, fails);
      var call := calls[|counts|];
      var got, failed := ServeNext(loop, all, sockets, calls, counts, desk);
      desk := AfterCall(desk, call);
      counts, fails, terminated := counts + [got], fails + [failed], call.Cork? && failed;
    }
  }

  /** Any number of sockets, any calls, any answers of the kernel: the calls are made in order up to one that
      terminates the program, each takes what its socket's account says, and for each socket what reached its wire
      followed by what is still held back is, in order, what its calls took. */
  method Serve(kernels: seq<seq<nat>>, calls: seq<Call>)
    returns (wires: seq<seq<Byte>>, held: seq<seq<Byte>>, counts: seq<nat>, fails: seq<bool>, terminated: bool)
    requires ForSockets(calls, |kernels|)
    ensures |wires| == |held| == |kernels| && Reported(calls, counts)
    ensures var played := Played(Fresh(kernels), calls);
      counts == played.counts && fails == played.fails && terminated == played.terminated
    ensures forall i :: 0 <= i < |kernels| ==> |held[i]| == Played(Fresh(kernels), calls).desk[i].Held()
    ensures forall i :: 0 <= i < |kernels| ==> wires[i] + held[i] == TakenBy(calls, counts, i)
  {
    var loop, sockets, all := Open(kernels);
    counts, fails, terminated := MakeCalls(loop, all, sockets, calls, Fresh(kernels));
    wires, held := Inspect(sockets);
  }

  method Inspect(sockets: seq<Socket>) returns (wires: seq<seq<Byte>>, held: seq<seq<Byte>>)
    requires forall j :: 0 <= j < |sockets| ==> sockets[j].Valid()
    ensures |wires| == |held| == |sockets|
    ensures forall j :: 0 <= j < |sockets| ==>
      wires[j] + held[j] == sockets[j].Stream() && |held[j]| == sockets[j].Lengths().Held()
  {
    wires, held := [], [];
    for i := 0 to |sockets|
      invariant |wires| == |held| == i
      invariant forall j :: 0 <= j < i ==>
        wires[j] + held[j] == sockets[j].Stream() && |held[j]| == sockets[j].Lengths().Held()
    {
      var s := sockets[i];
      wires, held := wires + [s.wire], held + [s.buffer.Data() + s.Corked()];
      assert s.wire + (s.buffer.Data() + s.Corked()) == s.Stream();
    }
  }
}
