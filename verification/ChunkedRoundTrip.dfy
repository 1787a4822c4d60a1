/**
 Chunked decoding undoes chunked encoding, however the input is cut into pieces. The reference is a
 machine that reads one byte at a time, as section 7.1 of RFC 9112 describes the format; the decoder
 works on whole pieces and returns slices of them.
 */
module ChunkedRoundTrip {
  import opened Wrappers
  import Arithmetic
  import opened ChunkedEncoding

  // ------------------------------------------------------- every input: suffixes and slices

  predicate Suffix(rest: seq<Byte>, data: seq<Byte>) { |rest| <= |data| && rest == data[|data| - |rest|..] }

  lemma {:induction false} DigitsSuffix(data: seq<Byte>, s: State)
    ensures Suffix(Digits(data, s).rest, data)
    decreases |data|
  {
    if data != [] && IsDigitChar(data[0]) && !Refused(s, data[0]) {
      DigitsSuffix(data[1..], AddDigit(s, Number(data[0])));
    }
  }

  lemma {:induction false} FromLfSuffix(data: seq<Byte>)
    ensures Suffix(FromLf(data), data)
  {
    if data != [] && data[0] != LF { FromLfSuffix(data[1..]); }
  }

  lemma SuffixOfSuffix(a: seq<Byte>, b: seq<Byte>, c: seq<Byte>)
    requires Suffix(a, b) && Suffix(b, c)
    ensures Suffix(a, c)
  {}

  lemma HexLineSuffix(data: seq<Byte>, s: State)
    ensures Suffix(HexLine(data, s).rest, data)
  {
    var d := Digits(data, s);
    DigitsSuffix(data, s);
    FromLfSuffix(d.rest);
    SuffixOfSuffix(FromLf(d.rest), d.rest, data);
    if FromLf(d.rest) != [] { SuffixOfSuffix(FromLf(d.rest)[1..], FromLf(d.rest), data); }
  }

  /** The call left a suffix of its input and returned a slice, at `at`, of what it consumed. */
  predicate ReturnsSlice(data: seq<Byte>, r: Result, at: nat) {
    && Suffix(r.rest, data)
    && (r.chunk.Some? ==> at + |r.chunk.value| <= |data| - |r.rest| && r.chunk.value == data[at..at + |r.chunk.value|])
  }

  lemma SliceOfSuffix(data: seq<Byte>, inner: seq<Byte>, r: Result, at: nat)
    requires Suffix(inner, data) && ReturnsSlice(inner, r, at)
    ensures ReturnsSlice(data, r, at + (|data| - |inner|))
  {
    SuffixOfSuffix(r.rest, inner, data);
  }

  /** The call goes around its loop: after a size line, or the line end of a chunk. */
  predicate GoesOn(data: seq<Byte>, s: State) {
    if data == [] || (!s.isChunked && s.hasSize && s.size > 0) then false
    else if s.hasSize then s.size <= |data| && s.size <= 2
    else var line := HexLine(data, s); line.state != ERROR && !(line.state.hasSize && line.state.size == 2)
  }

  function Onward(data: seq<Byte>, s: State): (r: LineResult)
    requires GoesOn(data, s)
    ensures |r.rest| < |data| || (|r.rest| == |data| && s.hasSize && !r.state.hasSize)
  {
    if s.hasSize then LineResult(data[s.size..], START) else HexLine(data, s)
  }

  lemma CallGoesOn(data: seq<Byte>, s: State, trailer: bool)
    requires GoesOn(data, s)
    ensures var r := Onward(data, s);
      NextChunk(data, s, trailer) == NextChunk(r.rest, r.state, trailer) && Suffix(r.rest, data)
  {
    if !s.hasSize { HexLineSuffix(data, s); }
  }

  lemma CallEnds(data: seq<Byte>, s: State, trailer: bool)
    requires !GoesOn(data, s)
    ensures ReturnsSlice(data, NextChunk(data, s, trailer), 0)
  {
    if data != [] && !s.hasSize { HexLineSuffix(data, s); }
  }

  /** Whatever the bytes and the state, every call does so. */
  lemma {:induction false} CallsReturnSlices(data: seq<Byte>, s: State, trailer: bool) returns (at: nat)
    ensures ReturnsSlice(data, NextChunk(data, s, trailer), at)
    decreases |data|, s.hasSize
  {
    if GoesOn(data, s) {
      var r := Onward(data, s);
      CallGoesOn(data, s, trailer);
      at := CallsReturnSlices(r.rest, r.state, trailer);
      SliceOfSuffix(data, r.rest, NextChunk(r.rest, r.state, trailer), at);
      at := at + (|data| - |r.rest|);
    } else {
      CallEnds(data, s, trailer);
      at := 0;
    }
  }

  // ------------------------------------------------------------------------- hex numerals

  predicate IsHex(b: Byte) { 48 <= b <= 57 || 65 <= b <= 70 || 97 <= b <= 102 }

  predicate IsNumeral(digits: seq<Byte>) { forall i :: 0 <= i < |digits| ==> IsHex(digits[i]) }

  /** The value of `digits` read after a prefix of value `v`. */
  function Value(v: nat, digits: seq<Byte>): nat
    requires IsNumeral(digits)
    decreases |digits|
  {
    if digits == [] then v else Value(16 * v + Number(digits[0]), digits[1..])
  }

  const LIMIT: int := 0x1000_0000_0000_0000

  lemma {:induction false} ValueGrows(v: nat, digits: seq<Byte>)
    requires IsNumeral(digits)
    ensures Value(v, digits) >= v && (digits != [] ==> Value(v, digits) >= 16 * v)
    decreases |digits|
  {
    if digits != [] { ValueGrows(16 * v + Number(digits[0]), digits[1..]); }
  }

  /** A character of a size line that passes for a digit: a hex digit, one of `:;<=>?@`, `G` or `g`. */
  predicate Passes(b: Byte) { IsHex(b) || 58 <= b <= 64 || b == 71 || b == 103 }

  /** Which characters pass for digits: the hex digits, and nine that are none, up to a value of 16. */
  lemma AcceptedDigits(b: Byte)
    ensures 0 <= Number(b) <= 16 <==> Passes(b)
    ensures IsHex(b) ==> Number(b) <= 15 && IsDigitChar(b)
    ensures Number(71) == 16 && Number(59) == 11
  {}

  /** Whatever was read before, the digit loop ends in the error state if it meets any other character. */
  lemma {:induction false} OtherCharacter(data: seq<Byte>, s: State, k: nat)
    requires k < |data| && (forall j :: 0 <= j <= k ==> IsDigitChar(data[j])) && !Passes(data[k])
    ensures var r := Digits(data, s); r.state == ERROR && r.rest != [] && IsDigitChar(r.rest[0])
    decreases k
  {
    AcceptedDigits(data[k]);
    if k > 0 && !Refused(s, data[0]) { OtherCharacter(data[1..], AddDigit(s, Number(data[0])), k - 1); }
  }

  /** So does the call: a size line with such a character before the first space, control or non-ASCII byte is an
      error, and returns nothing. */
  lemma OtherCharacterIsError(data: seq<Byte>, s: State, k: nat, trailer: bool)
    requires k < |data| && (forall j :: 0 <= j <= k ==> IsDigitChar(data[j])) && !Passes(data[k]) && !s.hasSize
    ensures var r := NextChunk(data, s, trailer); r.state == ERROR && r.chunk == None
  {
    OtherCharacter(data, s, k);
  }

  /** Reading the size line digit by digit. */
  function LineWord(v: nat): State { State(false, true, v) }

  lemma ReadDigit(v: nat, d: nat)
    requires v < LIMIT && d <= 15
    ensures SizeOverflow(LineWord(v)) <==> v >= LIMIT / 16
    ensures v < LIMIT / 16 ==> AddDigit(LineWord(v), d) == LineWord(16 * v + d)
  {
    assert v / 0x100_0000_0000_0000 < 16;
    if v < LIMIT / 16 { SmallWord(16 * v + d); }
  }

  lemma SmallWord(w: nat)
    requires w < SIZE_RANGE
    ensures Unpack(w % WORD) == State(false, false, w)
  {
    assert w % WORD == w && w / SIZE_RANGE == 0;
  }

  /** A numeral continues the value read so far, and the flags stay as they are; the error state is reached
      exactly if the whole value is 2^60 or more. */
  lemma {:induction false} NumeralIsRead(v: nat, digits: seq<Byte>)
    requires IsNumeral(digits) && v < LIMIT
    ensures Digits(digits, LineWord(v)).state == if Value(v, digits) < LIMIT then LineWord(Value(v, digits)) else ERROR
    ensures var rest := Digits(digits, LineWord(v)).rest;
      if Value(v, digits) < LIMIT then rest == [] else rest != [] && IsDigitChar(rest[0])
    decreases |digits|
  {
    if digits != [] {
      var d := Number(digits[0]);
      AcceptedDigits(digits[0]);
      ReadDigit(v, d);
      ValueGrows(v, digits);
      if v < LIMIT / 16 { NumeralIsRead(16 * v + d, digits[1..]); }
    }
  }

  lemma {:induction false} ValueOfConcat(v: nat, a: seq<Byte>, b: seq<Byte>)
    requires IsNumeral(a) && IsNumeral(b)
    ensures IsNumeral(a + b) && Value(v, a + b) == Value(Value(v, a), b)
    decreases |a|
  {
    if a == [] {
      assert a + b == b;
    } else {
      ValueOfConcat(16 * v + Number(a[0]), a[1..], b);
      assert (a + b)[1..] == a[1..] + b;
    }
  }

  /** One call on a piece of a size numeral: the value read so far goes on, nothing is returned, and the error state
      is reached exactly if the value is 2^60 or more. */
  lemma PieceOfNumeral(v: nat, piece: seq<Byte>, trailer: bool)
    requires IsNumeral(piece) && v < LIMIT
    ensures var r := NextChunk(piece, LineWord(v), trailer);
      && r.chunk == None && r.state == (if Value(v, piece) < LIMIT then LineWord(Value(v, piece)) else ERROR)
      && (Value(v, piece) < LIMIT ==> r.rest == [])
  {
    NumeralIsRead(v, piece);
    if piece != [] {
      assert HexLine(piece, LineWord(v)) == Digits(piece, LineWord(v));
      CallOnLine(piece, v, trailer);
    }
  }

  lemma CallOnLine(data: seq<Byte>, v: nat, trailer: bool)
    requires data != []
    ensures var line := HexLine(data, LineWord(v));
      && (line.state == ERROR ==> NextChunk(data, LineWord(v), trailer) == Result(line.rest, ERROR, None))
      && (!line.state.hasSize && line.rest == [] ==>
            NextChunk(data, LineWord(v), trailer) == Result([], line.state, None))
  {}

  /** What a call does in the error state: the error is forgotten, and what comes next is taken for the data of a
      chunk, unless its length is a multiple of 2^32. */
  lemma AfterError(data: seq<Byte>, trailer: bool)
    requires 0 < |data| <= SIZE_RANGE - 3
    ensures var r := NextChunk(data, ERROR, trailer);
      && r == Result([], State(true, true, SIZE_RANGE - 1 - |data| % 0x1_0000_0000), Some(data))
      && (r.state == ERROR <==> |data| % 0x1_0000_0000 == 0)
  {
    assert data[..Arithmetic.Min(|data|, ERROR.size - 2)] == data;
  }

  /** So a caller that goes on after a size line that is too large gets the following bytes as body. */
  lemma ErrorForgotten(numeral: seq<Byte>, data: seq<Byte>, trailer: bool)
    requires IsNumeral(numeral) && Value(0, numeral) >= LIMIT && 0 < |data| < 0x1_0000_0000
    ensures var r := NextChunk(numeral, START, trailer);
      && r.state == ERROR && r.chunk == None
      && NextChunk(data, r.state, trailer).chunk == Some(data) && NextChunk(data, r.state, trailer).state != ERROR
  {
    PieceOfNumeral(0, numeral, trailer);
    AfterError(data, trailer);
  }

  // ---------------------------------------------------------------- one byte at a time

  /** Reading a size line of value so far; the data of a chunk with its line end, that many bytes left; the
      bytes after the last chunk's size line; the end. */
  datatype Mode = Line(value: nat) | Body(left: nat) | Tail(left: nat) | Done

  function StateOf(m: Mode): State {
    match m
    case Line(v) => LineWord(v)
    case Body(n) => State(true, true, n)
    case Tail(n) => State(true, false, n)
    case Done => State(false, false, 0)
  }

  predicate Regular(m: Mode) {
    match m
    case Line(v) => v < LIMIT
    case Body(n) => 1 <= n < LIMIT + 2
    case Tail(n) => n >= 1
    case Done => true
  }

  /** `Some` is a byte of the body, `None` the mark of the last chunk. */
  type Event = Option<Byte>

  function Step(m: Mode, b: Byte, trailer: bool): Mode {
    match m
    case Line(v) =>
      if IsDigitChar(b) then Line(if Number(b) >= 0 then 16 * v + Number(b) else v)
      else if b != LF then m
      else if v == 0 then Tail(if trailer then 4 else 2)
      else Body(v + 2)
    case Body(n) => if n <= 1 then Line(0) else Body(n - 1)
    case Tail(n) => if n <= 1 then Done else Tail(n - 1)
    case Done => Done
  }

  function Emits(m: Mode, b: Byte): seq<Event> {
    if m.Body? && m.left > 2 then [Some(b)] else if m == Line(0) && b == LF then [None] else []
  }

  datatype Trace = Trace(mode: Mode, events: seq<Event>, rest: seq<Byte>)

  function Bytewise(m: Mode, data: seq<Byte>, trailer: bool): Trace
    decreases |data|
  {
    if data == [] || m.Done? then Trace(m, [], data)
    else
      var t := Bytewise(Step(m, data[0], trailer), data[1..], trailer);
      t.(events := Emits(m, data[0]) + t.events)
  }

  /** Size lines are hex numerals below 2^60 followed by bytes that are no digits; `ended` says that the
      numeral of the current line is over. */
  predicate Clean(m: Mode, ended: bool, data: seq<Byte>, trailer: bool)
    decreases |data|
  {
    if data == [] || m.Done? then true
    else
      var b := data[0];
      && (m.Line? && IsDigitChar(b) ==> !ended && IsHex(b) && m.value < LIMIT / 16)
      && Clean(Step(m, b, trailer), m.Line? && b != LF && !IsDigitChar(b), data[1..], trailer)
  }

  // --------------------------------------------------------- the decoder follows the machine

  function Bytes(data: seq<Byte>): (e: seq<Event>)
    ensures |e| == |data|
  {
    if data == [] then [] else [Some(data[0])] + Bytes(data[1..])
  }

  function Flat(chunks: seq<seq<Byte>>): seq<Event> {
    if chunks == [] then []
    else (if chunks[0] == [] then [None] else Bytes(chunks[0])) + Flat(chunks[1..])
  }

  lemma {:induction false} TailRun(n: nat, data: seq<Byte>, trailer: bool)
    requires n >= 1
    ensures Bytewise(Tail(n), data, trailer)
         == if |data| >= n then Trace(Done, [], data[n..]) else Trace(Tail(n - |data|), [], [])
    decreases |data|
  {
    if data != [] {
      if n > 1 {
        TailRun(n - 1, data[1..], trailer);
        assert |data| >= n ==> data[1..][n - 1..] == data[n..];
      } else {
        assert Bytewise(Done, data[1..], trailer) == Trace(Done, [], data[1..]);
      }
    }
  }

  /** The part of the data of a chunk, with `n` bytes left of it and its line end, that belongs to the body. */
  function BodyPart(n: nat, data: seq<Byte>): seq<Byte> { if n <= 2 then [] else data[..Arithmetic.Min(|data|, n - 2)] }

  lemma {:induction false} BodyRun(n: nat, data: seq<Byte>, trailer: bool)
    requires n >= 1
    ensures |data| >= n ==>
      var t := Bytewise(Line(0), data[n..], trailer);
      Bytewise(Body(n), data, trailer) == t.(events := Bytes(BodyPart(n, data)) + t.events)
    ensures |data| < n ==> Bytewise(Body(n), data, trailer) == Trace(Body(n - |data|), Bytes(BodyPart(n, data)), [])
    decreases |data|
  {
    if data == [] {
    } else if n == 1 {
    } else {
      BodyRun(n - 1, data[1..], trailer);
      assert |data| >= n ==> data[1..][n - 1..] == data[n..];
      BodyPartStep(n, data);
      if |data| >= n && n > 2 {
        Associate([Some(data[0])], Bytes(BodyPart(n - 1, data[1..])), Bytewise(Line(0), data[n..], trailer).events);
      }
    }
  }

  lemma BodyPartStep(n: nat, data: seq<Byte>)
    requires n >= 2 && data != []
    ensures Bytes(BodyPart(n, data)) == (if n > 2 then [Some(data[0])] else []) + Bytes(BodyPart(n - 1, data[1..]))
  {
    if n > 2 {
      var part := BodyPart(n, data);
      assert part[0] == data[0] && part[1..] == BodyPart(n - 1, data[1..]);
    }
  }

  lemma {:induction false} BodyClean(n: nat, data: seq<Byte>, trailer: bool)
    requires 1 <= n <= |data|
    ensures Clean(Body(n), false, data, trailer) <==> Clean(Line(0), false, data[n..], trailer)
    decreases |data|
  {
    if n > 1 {
      BodyClean(n - 1, data[1..], trailer);
      assert data[1..][n - 1..] == data[n..];
    }
  }

  datatype Split = Split(value: nat, rest: seq<Byte>, found: bool)

  /** The value a size line comes to, and what follows its line feed, if that is there. */
  function LineSplit(v: nat, data: seq<Byte>): Split
    decreases |data|
  {
    if data == [] then Split(v, [], false)
    else if IsDigitChar(data[0]) then LineSplit(if Number(data[0]) >= 0 then 16 * v + Number(data[0]) else v, data[1..])
    else if data[0] == LF then Split(v, data[1..], true)
    else LineSplit(v, data[1..])
  }

  /** A byte of a size line that does not end it emits nothing. */
  lemma LineStep(v: nat, data: seq<Byte>, trailer: bool)
    requires data != [] && data[0] != LF
    ensures Bytewise(Line(v), data, trailer) == Bytewise(Step(Line(v), data[0], trailer), data[1..], trailer)
  {
    var t := Bytewise(Step(Line(v), data[0], trailer), data[1..], trailer);
    assert [] + t.events == t.events;
  }

  lemma {:induction false} LineRun(v: nat, data: seq<Byte>, trailer: bool)
    ensures var p := LineSplit(v, data);
      && |p.rest| <= |data| && (p.found ==> |p.rest| < |data|)
      && (!p.found ==> Bytewise(Line(v), data, trailer) == Trace(Line(p.value), [], []))
      && (p.found ==>
            var t := Bytewise(Step(Line(p.value), LF, trailer), p.rest, trailer);
            Bytewise(Line(v), data, trailer) == t.(events := (if p.value == 0 then [None] else []) + t.events))
    decreases |data|
  {
    if data != [] && data[0] != LF {
      LineStep(v, data, trailer);
      LineRun(Step(Line(v), data[0], trailer).value, data[1..], trailer);
    }
  }

  lemma {:induction false} LineClean(v: nat, ended: bool, data: seq<Byte>, trailer: bool)
    requires Clean(Line(v), ended, data, trailer) && v < LIMIT
    ensures var p := LineSplit(v, data);
      && p.value < LIMIT && (ended ==> p.value == v)
      && (p.found ==> Clean(Step(Line(p.value), LF, trailer), false, p.rest, trailer))
    decreases |data|
  {
    if data != [] && (IsDigitChar(data[0]) || data[0] != LF) {
      if IsDigitChar(data[0]) { AcceptedDigits(data[0]); }
      LineClean(Step(Line(v), data[0], trailer).value, !IsDigitChar(data[0]), data[1..], trailer);
    }
  }

  lemma {:induction false} LineEndIsFound(v: nat, data: seq<Byte>, trailer: bool)
    requires Clean(Line(v), true, data, trailer)
    ensures var p := LineSplit(v, data);
      if p.found then FromLf(data) == [LF] + p.rest && p.value == v else FromLf(data) == [] && p.value == v
    decreases |data|
  {
    if data != [] && data[0] != LF { LineEndIsFound(v, data[1..], trailer); }
  }

  lemma {:induction false} LineIsRead(v: nat, data: seq<Byte>, trailer: bool)
    requires Clean(Line(v), false, data, trailer) && v < LIMIT
    ensures var p := LineSplit(v, data);
      HexLine(data, LineWord(v)) ==
        if p.found then LineResult(p.rest, EndLine(LineWord(p.value))) else LineResult([], LineWord(p.value))
    decreases |data|
  {
    if data == [] {
    } else if IsDigitChar(data[0]) {
      AcceptedDigits(data[0]);
      ReadDigit(v, Number(data[0]));
      LineIsRead(16 * v + Number(data[0]), data[1..], trailer);
      assert Digits(data, LineWord(v)) == Digits(data[1..], LineWord(16 * v + Number(data[0])));
    } else if data[0] != LF {
      LineEndIsFound(v, data[1..], trailer);
    }
  }

  lemma EndLineWord(v: nat)
    requires v < LIMIT
    ensures EndLine(LineWord(v)) == State(true, true, v + 2)
  {}

  predicate Follows(d: Drained, t: Trace) {
    d.rest == t.rest && d.state == StateOf(t.mode) && Flat(d.chunks) == t.events
  }

  lemma FlatCons(c: seq<Byte>, chunks: seq<seq<Byte>>)
    ensures Flat([c] + chunks) == (if c == [] then [None] else Bytes(c)) + Flat(chunks)
  {
    assert ([c] + chunks)[1..] == chunks;
  }

  /** On clean input the decoder does, piece by piece, what the machine does byte by byte. */
  lemma {:induction false} DrainFollows(m: Mode, data: seq<Byte>, trailer: bool)
    requires Regular(m) && !m.Done? && Clean(m, false, data, trailer) && |data| < 0x1_0000_0000
    ensures Follows(Drain(data, StateOf(m), trailer), Bytewise(m, data, trailer))
    decreases |data|, m.Body?
  {
    DrainUnfolds(data, StateOf(m), trailer);
    match m
    case Tail(n) => TailRun(n, data, trailer);
    case Body(n) => BodyFollows(n, data, trailer);
    case Line(v) => LineFollows(v, data, trailer);
  }

  lemma PartialFollows(n: nat, data: seq<Byte>, trailer: bool)
    requires 0 < |data| < n && |data| < 0x1_0000_0000
    ensures Follows(Drain(data, StateOf(Body(n)), trailer), Bytewise(Body(n), data, trailer))
  {
    var s := StateOf(Body(n));
    BodyRun(n, data, trailer);
    DrainUnfolds(data, s, trailer);
    var r := PartialData(data, s);
    assert NextChunk(data, s, trailer) == r && r.state == State(true, true, n - |data|);
    FlatCons(BodyPart(n, data), []);
    if r.chunk.Some? { assert Drain([], r.state, trailer) == Drained([], r.state, []); }
  }

  /** A call that consumes something without returning anything leaves the rest of the piece to the next one. */
  lemma DrainSkips(data: seq<Byte>, s: State, data': seq<Byte>, s': State, trailer: bool)
    requires NextChunk(data, s, trailer) == NextChunk(data', s', trailer)
    ensures Drain(data, s, trailer) == Drain(data', s', trailer)
  {
    DrainUnfolds(data, s, trailer);
    DrainUnfolds(data', s', trailer);
  }

  lemma {:induction false} BodyFollows(n: nat, data: seq<Byte>, trailer: bool)
    requires Regular(Body(n)) && Clean(Body(n), false, data, trailer) && |data| < 0x1_0000_0000
    ensures Follows(Drain(data, StateOf(Body(n)), trailer), Bytewise(Body(n), data, trailer))
    decreases |data|, true, 0
  {
    if 0 < |data| < n {
      PartialFollows(n, data, trailer);
    } else if data != [] {
      var s := StateOf(Body(n));
      BodyRun(n, data, trailer);
      BodyClean(n, data, trailer);
      DrainFollows(Line(0), data[n..], trailer);
      if n > 2 {
        DrainUnfolds(data, s, trailer);
        FlatCons(data[..n - 2], Drain(data[n..], START, trailer).chunks);
      } else {
        DrainSkips(data, s, data[n..], START, trailer);
      }
    }
  }

  /** What a call does at a clean size line. */
  lemma CallAtLine(v: nat, data: seq<Byte>, trailer: bool)
    requires v < LIMIT && Clean(Line(v), false, data, trailer)
    ensures var p, r := LineSplit(v, data), NextChunk(data, LineWord(v), trailer);
      && (!p.found ==> r == Result([], LineWord(p.value), None))
      && (p.found && p.value == 0 ==> r == Result(p.rest, Dropping(trailer), Some([])))
      && (p.found && p.value > 0 ==> r == NextChunk(p.rest, State(true, true, p.value + 2), trailer))
  {
    LineClean(v, false, data, trailer);
    LineIsRead(v, data, trailer);
    EndLineWord(LineSplit(v, data).value);
  }

  /** The size line of the last chunk, and what is drained after it. */
  lemma LastLineFollows(v: nat, data: seq<Byte>, trailer: bool)
    requires v < LIMIT && Clean(Line(v), false, data, trailer)
    requires var p := LineSplit(v, data);
      && p.found && p.value == 0
      && Follows(Drain(p.rest, Dropping(trailer), trailer), Bytewise(Tail(if trailer then 4 else 2), p.rest, trailer))
    ensures Follows(Drain(data, LineWord(v), trailer), Bytewise(Line(v), data, trailer))
  {
    LineRun(v, data, trailer);
    CallAtLine(v, data, trailer);
    DrainUnfolds(data, LineWord(v), trailer);
    FlatCons([], Drain(LineSplit(v, data).rest, Dropping(trailer), trailer).chunks);
  }

  /** The size line of another chunk. */
  lemma ChunkLineFollows(v: nat, data: seq<Byte>, trailer: bool)
    requires v < LIMIT && Clean(Line(v), false, data, trailer)
    requires var p := LineSplit(v, data);
      && p.found && p.value > 0
      && Follows(Drain(p.rest, State(true, true, p.value + 2), trailer), Bytewise(Body(p.value + 2), p.rest, trailer))
    ensures Follows(Drain(data, LineWord(v), trailer), Bytewise(Line(v), data, trailer))
  {
    var p := LineSplit(v, data);
    LineRun(v, data, trailer);
    CallAtLine(v, data, trailer);
    DrainSkips(data, LineWord(v), p.rest, State(true, true, p.value + 2), trailer);
  }

  lemma {:induction false} LineFollows(v: nat, data: seq<Byte>, trailer: bool)
    requires Regular(Line(v)) && Clean(Line(v), false, data, trailer) && |data| < 0x1_0000_0000
    ensures Follows(Drain(data, StateOf(Line(v)), trailer), Bytewise(Line(v), data, trailer))
    decreases |data|, false, 0
  {
    var p := LineSplit(v, data);
    LineRun(v, data, trailer);
    LineClean(v, false, data, trailer);
    if !p.found {
      CallAtLine(v, data, trailer);
      DrainUnfolds(data, LineWord(v), trailer);
    } else if p.value == 0 {
      DrainFollows(Tail(if trailer then 4 else 2), p.rest, trailer);
      LastLineFollows(v, data, trailer);
    } else {
      DrainFollows(Body(p.value + 2), p.rest, trailer);
      ChunkLineFollows(v, data, trailer);
    }
  }

  // ------------------------------------------------------------------------ input in pieces

  lemma Associate<X>(a: seq<X>, b: seq<X>, c: seq<X>)
    ensures a + (b + c) == (a + b) + c
  {}

  lemma {:induction false} BytewiseSplit(m: Mode, a: seq<Byte>, b: seq<Byte>, trailer: bool)
    ensures var t := Bytewise(m, a, trailer);
      && (t.mode.Done? ==> Bytewise(m, a + b, trailer) == t.(rest := t.rest + b))
      && (!t.mode.Done? ==> t.rest == [])
      && (!t.mode.Done? ==>
            var u := Bytewise(t.mode, b, trailer); Bytewise(m, a + b, trailer) == u.(events := t.events + u.events))
    decreases |a|
  {
    if a == [] {
      assert a + b == b;
    } else if !m.Done? {
      var m', e := Step(m, a[0], trailer), Emits(m, a[0]);
      BytewiseSplit(m', a[1..], b, trailer);
      assert (a + b)[1..] == a[1..] + b;
      var t := Bytewise(m', a[1..], trailer);
      Associate(e, t.events, Bytewise(t.mode, b, trailer).events);
    }
  }

  lemma {:induction false} CleanAfterNumeral(m: Mode, data: seq<Byte>, trailer: bool)
    requires Clean(m, true, data, trailer)
    ensures Clean(m, false, data, trailer)
  {}

  lemma {:induction false} CleanSplit(m: Mode, ended: bool, a: seq<Byte>, b: seq<Byte>, trailer: bool)
    requires Clean(m, ended, a + b, trailer) && Regular(m)
    ensures Clean(m, ended, a, trailer) && Regular(Bytewise(m, a, trailer).mode)
    ensures Clean(Bytewise(m, a, trailer).mode, false, b, trailer)
    decreases |a|
  {
    if a == [] {
      assert a + b == b;
      if ended { CleanAfterNumeral(m, b, trailer); }
    } else if !m.Done? {
      assert (a + b)[1..] == a[1..] + b;
      if m.Line? && IsDigitChar(a[0]) { AcceptedDigits(a[0]); }
      CleanSplit(Step(m, a[0], trailer), m.Line? && a[0] != LF && !IsDigitChar(a[0]), a[1..], b, trailer);
    }
  }

  function Concat(pieces: seq<seq<Byte>>): seq<Byte> {
    if pieces == [] then [] else pieces[0] + Concat(pieces[1..])
  }

  datatype Fed = Fed(chunks: seq<seq<Byte>>, state: State, leftover: seq<seq<Byte>>)

  /** Pieces are drained one after the other until the message is complete, or the test for the error state that
      follows each piece says that it is not valid. */
  function Feed(pieces: seq<seq<Byte>>, s: State, trailer: bool): Fed {
    if pieces == [] || !IsParsingChunkedEncoding(s) then Fed([], s, pieces)
    else
      var d := Drain(pieces[0], s, trailer);
      if !IsParsingChunkedEncoding(d.state) || d.state == ERROR then Fed(d.chunks, d.state, [d.rest] + pieces[1..])
      else
        var f := Feed(pieces[1..], d.state, trailer);
        f.(chunks := d.chunks + f.chunks)
  }

  lemma {:induction false} FlatConcat(a: seq<seq<Byte>>, b: seq<seq<Byte>>)
    ensures Flat(a + b) == Flat(a) + Flat(b)
  {
    if a == [] {
      assert a + b == b;
    } else {
      FlatConcat(a[1..], b);
      assert a == [a[0]] + a[1..];
      Associate([a[0]], a[1..], b);
      FlatCons(a[0], a[1..] + b);
      FlatCons(a[0], a[1..]);
      Associate(if a[0] == [] then [None] else Bytes(a[0]), Flat(a[1..]), Flat(b));
    }
  }

  lemma RegularIsNoError(m: Mode)
    requires Regular(m)
    ensures StateOf(m) != ERROR
  {}

  lemma {:induction false} FeedFollows(m: Mode, pieces: seq<seq<Byte>>, trailer: bool)
    requires Regular(m) && !m.Done? && Clean(m, false, Concat(pieces), trailer)
    requires forall i :: 0 <= i < |pieces| ==> |pieces[i]| < 0x1_0000_0000
    ensures var f, t := Feed(pieces, StateOf(m), trailer), Bytewise(m, Concat(pieces), trailer);
      Flat(f.chunks) == t.events && f.state == StateOf(t.mode) && Concat(f.leftover) == t.rest
    decreases |pieces|
  {
    if pieces != [] {
      var a, b := pieces[0], Concat(pieces[1..]);
      CleanSplit(m, false, a, b, trailer);
      BytewiseSplit(m, a, b, trailer);
      DrainFollows(m, a, trailer);
      var d, t := Drain(a, StateOf(m), trailer), Bytewise(m, a, trailer);
      RegularIsNoError(t.mode);
      if t.mode.Done? {
        assert ([d.rest] + pieces[1..])[1..] == pieces[1..];
      } else {
        FeedFollows(t.mode, pieces[1..], trailer);
        FlatConcat(d.chunks, Feed(pieces[1..], d.state, trailer).chunks);
      }
    }
  }

  /** The pieces all are parts of a numeral. */
  predicate AreNumerals(pieces: seq<seq<Byte>>) { forall i :: 0 <= i < |pieces| ==> IsNumeral(pieces[i]) }

  lemma {:induction false} ConcatIsNumeral(pieces: seq<seq<Byte>>)
    requires AreNumerals(pieces)
    ensures IsNumeral(Concat(pieces))
  {
    if pieces != [] { ConcatIsNumeral(pieces[1..]); }
  }

  /** The value read once the first `k` pieces have been. */
  function ValueUpTo(v: nat, pieces: seq<seq<Byte>>, k: nat): nat
    requires AreNumerals(pieces) && k <= |pieces|
  {
    ConcatIsNumeral(pieces[..k]);
    Value(v, Concat(pieces[..k]))
  }

  lemma ValueUpToNext(v: nat, pieces: seq<seq<Byte>>, k: nat)
    requires AreNumerals(pieces) && 0 < k <= |pieces|
    ensures ValueUpTo(v, pieces, k) == ValueUpTo(Value(v, pieces[0]), pieces[1..], k - 1)
  {
    assert pieces[..k][1..] == pieces[1..][..k - 1];
    ConcatIsNumeral(pieces[1..][..k - 1]);
    ValueOfConcat(v, pieces[0], Concat(pieces[1..][..k - 1]));
  }

  /** The first of several pieces of a numeral. */
  lemma FeedNumeral(v: nat, pieces: seq<seq<Byte>>, trailer: bool)
    requires AreNumerals(pieces) && v < LIMIT && pieces != []
    ensures var f, w := Feed(pieces, LineWord(v), trailer), Value(v, pieces[0]);
      if w < LIMIT then f == Feed(pieces[1..], LineWord(w), trailer)
      else f.chunks == [] && f.state == ERROR && |f.leftover| == |pieces|
  {
    var d, w := Drain(pieces[0], LineWord(v), trailer), Value(v, pieces[0]);
    PieceOfNumeral(v, pieces[0], trailer);
    assert d.chunks == [] && d.state == if w < LIMIT then LineWord(w) else ERROR;
    if w < LIMIT {
      var f := Feed(pieces[1..], LineWord(w), trailer);
      assert d.chunks + f.chunks == f.chunks;
    }
  }

  /** The numeral is read whole, or the error state is reached with the first piece that brings its value to 2^60 or
      more; `left` counts that piece and those after it. */
  ghost predicate ReadOrRefused(v: nat, pieces: seq<seq<Byte>>, state: State, left: nat)
    requires AreNumerals(pieces)
  {
    var n := |pieces|;
    if ValueUpTo(v, pieces, n) < LIMIT then state == LineWord(ValueUpTo(v, pieces, n)) && left == 0
    else state == ERROR && 0 < left <= n && ValueUpTo(v, pieces, n - left) < LIMIT <= ValueUpTo(v, pieces, n - left + 1)
  }

  lemma RefusedLater(v: nat, pieces: seq<seq<Byte>>, state: State, left: nat)
    requires AreNumerals(pieces) && pieces != [] && ReadOrRefused(Value(v, pieces[0]), pieces[1..], state, left)
    ensures ReadOrRefused(v, pieces, state, left)
  {
    ValueUpToNext(v, pieces, |pieces|);
    if left > 0 {
      var k := |pieces| - left;
      ValueUpToNext(v, pieces, k);
      ValueUpToNext(v, pieces, k + 1);
    }
  }

  lemma RefusedNow(v: nat, pieces: seq<seq<Byte>>)
    requires AreNumerals(pieces) && pieces != [] && v < LIMIT <= Value(v, pieces[0])
    ensures ReadOrRefused(v, pieces, ERROR, |pieces|)
  {
    ValueUpToNext(v, pieces, |pieces|);
    ValueUpToNext(v, pieces, 1);
    ConcatIsNumeral(pieces[1..]);
    assert pieces[1..][..|pieces| - 1] == pieces[1..];
    ValueGrows(Value(v, pieces[0]), Concat(pieces[1..]));
  }

  /** A size numeral in any number of pieces, with the test for the error after each: it is read as if in one piece,
      or refused at the first piece that makes it too large, and nothing is returned. */
  lemma {:induction false} NumeralCut(v: nat, pieces: seq<seq<Byte>>, trailer: bool)
    requires AreNumerals(pieces) && v < LIMIT
    ensures var f := Feed(pieces, LineWord(v), trailer);
      f.chunks == [] && ReadOrRefused(v, pieces, f.state, |f.leftover|)
    decreases |pieces|
  {
    if pieces != [] {
      FeedNumeral(v, pieces, trailer);
      if Value(v, pieces[0]) < LIMIT {
        NumeralCut(Value(v, pieces[0]), pieces[1..], trailer);
        var f := Feed(pieces, LineWord(v), trailer);
        RefusedLater(v, pieces, f.state, |f.leftover|);
      } else {
        RefusedNow(v, pieces);
      }
    }
  }

  // ------------------------------------------------------------------------------- encoding

  /** A chunk with the numeral its size is written as: any case, any number of leading zeros. */
  datatype Chunk = Chunk(numeral: seq<Byte>, data: seq<Byte>)

  const CRLF: seq<Byte> := [13, LF]

  predicate ValidChunk(c: Chunk) {
    IsNumeral(c.numeral) && Value(0, c.numeral) == |c.data| && 0 < |c.data| < LIMIT
  }

  function Encode(chunks: seq<Chunk>): seq<Byte> {
    if chunks == [] then [] else chunks[0].numeral + CRLF + chunks[0].data + CRLF + Encode(chunks[1..])
  }

  function BodyOf(chunks: seq<Chunk>): seq<Byte> {
    if chunks == [] then [] else chunks[0].data + BodyOf(chunks[1..])
  }

  lemma {:induction false} NumeralRun(v: nat, digits: seq<Byte>, x: seq<Byte>, trailer: bool)
    requires IsNumeral(digits)
    ensures Bytewise(Line(v), digits + x, trailer) == Bytewise(Line(Value(v, digits)), x, trailer)
    decreases |digits|
  {
    if digits == [] {
      assert digits + x == x;
    } else {
      AcceptedDigits(digits[0]);
      NumeralRun(16 * v + Number(digits[0]), digits[1..], x, trailer);
      assert (digits + x)[1..] == digits[1..] + x;
      LineStep(v, digits + x, trailer);
    }
  }

  lemma {:induction false} NumeralClean(v: nat, digits: seq<Byte>, x: seq<Byte>, trailer: bool)
    requires IsNumeral(digits) && Value(v, digits) < LIMIT && Clean(Line(Value(v, digits)), false, x, trailer)
    ensures Clean(Line(v), false, digits + x, trailer)
    decreases |digits|
  {
    if digits == [] {
      assert digits + x == x;
    } else {
      AcceptedDigits(digits[0]);
      ValueGrows(v, digits);
      NumeralClean(16 * v + Number(digits[0]), digits[1..], x, trailer);
      assert (digits + x)[0] == digits[0] && (digits + x)[1..] == digits[1..] + x;
    }
  }

  /** A size line ends with CR LF. */
  lemma LineEndRun(v: nat, x: seq<Byte>, trailer: bool)
    ensures var t, m := Bytewise(Step(Line(v), LF, trailer), x, trailer), Step(Line(v), LF, trailer);
      && Bytewise(Line(v), CRLF + x, trailer) == t.(events := (if v == 0 then [None] else []) + t.events)
      && (Clean(m, false, x, trailer) ==> Clean(Line(v), false, CRLF + x, trailer))
  {
    var y := [LF] + x;
    assert (CRLF + x)[1..] == y && y[1..] == x;
    assert Bytewise(Line(v), CRLF + x, trailer) == Bytewise(Line(v), y, trailer);
  }

  lemma ChunkRun(c: Chunk, x: seq<Byte>, trailer: bool)
    requires ValidChunk(c)
    ensures var all, t := c.numeral + CRLF + c.data + CRLF + x, Bytewise(Line(0), x, trailer);
      && Bytewise(Line(0), all, trailer) == t.(events := Bytes(c.data) + t.events)
      && (Clean(Line(0), false, x, trailer) ==> Clean(Line(0), false, all, trailer))
  {
    var n := |c.data|;
    var z := c.data + CRLF + x;
    ChunkText(c, x);
    NumeralRun(0, c.numeral, CRLF + z, trailer);
    LineEndRun(n, z, trailer);
    BodyRun(n + 2, z, trailer);
    BodyClean(n + 2, z, trailer);
    if Clean(Line(0), false, x, trailer) { NumeralClean(0, c.numeral, CRLF + z, trailer); }
  }

  lemma ChunkText(c: Chunk, x: seq<Byte>)
    ensures var z := c.data + CRLF + x;
      && c.numeral + CRLF + c.data + CRLF + x == c.numeral + (CRLF + z)
      && |z| == |c.data| + 2 + |x| && z[|c.data| + 2..] == x && BodyPart(|c.data| + 2, z) == c.data
  {
    var z := c.data + CRLF + x;
    assert z[..|c.data|] == c.data;
  }

  lemma {:induction false} BytesConcat(a: seq<Byte>, b: seq<Byte>)
    ensures Bytes(a + b) == Bytes(a) + Bytes(b)
  {
    if a == [] {
      assert a + b == b;
    } else {
      BytesConcat(a[1..], b);
      assert (a + b)[0] == a[0] && (a + b)[1..] == a[1..] + b;
      Associate([Some(a[0])], Bytes(a[1..]), Bytes(b));
    }
  }

  lemma EncodeCons(chunks: seq<Chunk>, x: seq<Byte>)
    requires chunks != []
    ensures var c := chunks[0];
      && Encode(chunks) + x == c.numeral + CRLF + c.data + CRLF + (Encode(chunks[1..]) + x)
      && Bytes(BodyOf(chunks)) == Bytes(c.data) + Bytes(BodyOf(chunks[1..]))
  {
    var c := chunks[0];
    assert Encode(chunks) == c.numeral + CRLF + c.data + CRLF + Encode(chunks[1..]);
    Associate(c.numeral + CRLF + c.data + CRLF, Encode(chunks[1..]), x);
    BytesConcat(c.data, BodyOf(chunks[1..]));
  }

  lemma {:induction false} EncodedRun(chunks: seq<Chunk>, x: seq<Byte>, trailer: bool)
    requires forall i :: 0 <= i < |chunks| ==> ValidChunk(chunks[i])
    ensures var t := Bytewise(Line(0), x, trailer);
      && Bytewise(Line(0), Encode(chunks) + x, trailer) == t.(events := Bytes(BodyOf(chunks)) + t.events)
      && (Clean(Line(0), false, x, trailer) ==> Clean(Line(0), false, Encode(chunks) + x, trailer))
    decreases |chunks|
  {
    if chunks == [] {
      assert Encode(chunks) + x == x;
    } else {
      EncodedRun(chunks[1..], x, trailer);
      ChunkRun(chunks[0], Encode(chunks[1..]) + x, trailer);
      EncodeCons(chunks, x);
      Associate(Bytes(chunks[0].data), Bytes(BodyOf(chunks[1..])), Bytewise(Line(0), x, trailer).events);
    }
  }

  /** The last chunk's size line `last`, with a value of zero, and the bytes that end the message. */
  lemma EndRun(last: seq<Byte>, end: seq<Byte>, following: seq<Byte>, trailer: bool)
    requires IsNumeral(last) && Value(0, last) == 0 && |end| == if trailer then 4 else 2
    ensures Bytewise(Line(0), last + CRLF + end + following, trailer) == Trace(Done, [None], following)
    ensures Clean(Line(0), false, last + CRLF + end + following, trailer)
  {
    var z := end + following;
    assert last + CRLF + end + following == last + (CRLF + z);
    NumeralRun(0, last, CRLF + z, trailer);
    LineEndRun(0, z, trailer);
    TailRun(|end|, z, trailer);
    TailClean(|end|, z, trailer);
    NumeralClean(0, last, CRLF + z, trailer);
    assert z[|end|..] == following;
  }

  lemma {:induction false} TailClean(n: nat, data: seq<Byte>, trailer: bool)
    requires n >= 1
    ensures Clean(Tail(n), false, data, trailer)
    decreases |data|
  {
    if data != [] && n > 1 { TailClean(n - 1, data[1..], trailer); }
  }

  /** For every list of chunks, however their sizes are written, and every division of the encoded message and
      whatever follows it into pieces, draining piece by piece returns the bytes of the body in order and then
      one empty chunk, ends with state zero, and leaves the following bytes untouched. */
  lemma RoundTrip(chunks: seq<Chunk>, last: seq<Byte>, end: seq<Byte>, following: seq<Byte>, pieces: seq<seq<Byte>>,
                  trailer: bool)
    requires forall i :: 0 <= i < |chunks| ==> ValidChunk(chunks[i])
    requires IsNumeral(last) && Value(0, last) == 0 && |end| == if trailer then 4 else 2
    requires Concat(pieces) == Encode(chunks) + (last + CRLF + end + following)
    requires forall i :: 0 <= i < |pieces| ==> |pieces[i]| < 0x1_0000_0000
    ensures var f := Feed(pieces, START, trailer);
      && Flat(f.chunks) == Bytes(BodyOf(chunks)) + [None]
      && Pack(f.state) == 0
      && Concat(f.leftover) == following
  {
    var x := last + CRLF + end + following;
    EndRun(last, end, following, trailer);
    EncodedRun(chunks, x, trailer);
    FeedFollows(Line(0), pieces, trailer);
  }
}
