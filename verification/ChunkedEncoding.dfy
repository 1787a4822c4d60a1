/**
 The streaming decoder for chunked transfer coding, with its whole state packed into one 64-bit word:
 the top bit says that a chunk size is known, the next that more chunks may follow, and the other 62
 bits hold the size line read so far, or the bytes left of the chunk with its line end.

 The model keeps the three bit fields apart; `Pack` and `Unpack` are the word they make up, and where
 the program does arithmetic on the whole word, so does the model. Characters are signed, so bytes
 from 128 on are not greater than 32.
 */
module ChunkedEncoding {
  import opened Wrappers
  import Arithmetic

  datatype State = State(hasSize: bool, isChunked: bool, size: nat)

  const SIZE_RANGE: int := 0x4000_0000_0000_0000

  const WORD: int := 4 * SIZE_RANGE

  const LF: Byte := 10

  /** All bits set. */
  const ERROR: State := State(true, true, SIZE_RANGE - 1)

  const START: State := State(false, true, 0)

  function Pack(s: State): nat {
    (if s.hasSize then 2 * SIZE_RANGE else 0) + (if s.isChunked then SIZE_RANGE else 0) + s.size
  }

  function Unpack(w: nat): (s: State)
    ensures s.size < SIZE_RANGE
  {
    State(w / (2 * SIZE_RANGE) % 2 == 1, w / SIZE_RANGE % 2 == 1, w % SIZE_RANGE)
  }

  lemma PackUnpack(w: nat, s: State)
    ensures w < WORD ==> Pack(Unpack(w)) == w
    ensures s.size < SIZE_RANGE ==> Unpack(Pack(s)) == s && Pack(s) < WORD
  {}

  predicate IsParsingChunkedEncoding(s: State) { s.hasSize || s.isChunked }

  // ----------------------------------------------------------------------------- the size line

  /** One of the bits 56 to 59 of the size is set. */
  predicate SizeOverflow(s: State) { s.size / 0x100_0000_0000_0000 % 16 != 0 }

  /** The value of a character taken as a digit; only 0 to 16 are accepted. */
  function Number(b: Byte): int { if b >= 97 then b - 87 else if b >= 65 then b - 55 else b - 48 }

  predicate IsDigitChar(b: Byte) { 32 < b < 128 }

  predicate Refused(s: State, b: Byte) { !(0 <= Number(b) <= 16) || SizeOverflow(s) }

  function AddDigit(s: State, d: nat): State { Unpack((s.size * 16 + d) % WORD).(isChunked := true) }

  /** At the line feed the size gets the length of the line end that will follow the chunk's data. */
  function EndLine(s: State): State { Unpack((Pack(s) + 2) % WORD).(hasSize := true, isChunked := true) }

  datatype LineResult = LineResult(rest: seq<Byte>, state: State)

  /** The digit loop: stops at the end of the data, at a character that is none, or with the error state. */
  function Digits(data: seq<Byte>, s: State): (r: LineResult)
    ensures |r.rest| <= |data|
    ensures r.rest != [] && IsDigitChar(r.rest[0]) ==> r.state == ERROR
  {
    if data == [] || !IsDigitChar(data[0]) then LineResult(data, s)
    else if Refused(s, data[0]) then LineResult(data, ERROR)
    else Digits(data[1..], AddDigit(s, Number(data[0])))
  }

  function FromLf(data: seq<Byte>): (rest: seq<Byte>)
    ensures |rest| <= |data| && (rest != [] ==> rest[0] == LF)
  {
    if data == [] || data[0] == LF then data else FromLf(data[1..])
  }

  /** A size line, or the part of it that is there. */
  function HexLine(data: seq<Byte>, s: State): (r: LineResult)
    ensures |r.rest| <= |data|
    ensures data != [] && r.state != ERROR ==> |r.rest| < |data|
  {
    var d := Digits(data, s);
    if d.rest != [] && IsDigitChar(d.rest[0]) then d
    else
      var rest := FromLf(d.rest);
      if rest == [] then LineResult([], d.state) else LineResult(rest[1..], EndLine(d.state))
  }

  method ConsumeHexNumber(data: seq<Byte>, state: State) returns (rest: seq<Byte>, after: State)
    ensures LineResult(rest, after) == HexLine(data, state)
  {
    rest, after := data, state;
    while rest != [] && IsDigitChar(rest[0])
      invariant Digits(rest, after) == Digits(data, state)
      decreases |rest|
    {
      if Refused(after, rest[0]) {
        after := ERROR;
        return;
      }
      after := AddDigit(after, Number(rest[0]));
      rest := rest[1..];
    }
    ghost var line := rest;
    while rest != [] && rest[0] != LF
      invariant FromLf(rest) == FromLf(line)
      decreases |rest|
    {
      rest := rest[1..];
    }
    if rest != [] {
      after := EndLine(after);
      rest := rest[1..];
    }
  }

  // --------------------------------------------------------------------------------- one call

  datatype Result = Result(rest: seq<Byte>, state: State, chunk: Option<seq<Byte>>)

  /** After the size line of the last chunk: the bytes left to drop, with no more chunks to follow. */
  function Dropping(trailer: bool): State { State(true, false, if trailer then 4 else 2) }

  /** Some data of a chunk that does not end here; the length is cut to 32 bits on the way into the word. */
  function PartialData(data: seq<Byte>, s: State): Result
    requires |data| < s.size
  {
    var emit := if s.size > 2 then data[..Arithmetic.Min(|data|, s.size - 2)] else [];
    Result([], s.(isChunked := true, size := s.size - |data| % 0x1_0000_0000), if emit == [] then None else Some(emit))
  }

  /** One call of getNextChunk: the chunk it returns, and what it leaves of data and state. */
  function NextChunk(data: seq<Byte>, s: State, trailer: bool): (r: Result)
    ensures |r.rest| <= |data|
    ensures r.chunk.Some? ==> |r.rest| < |data|
    decreases |data|, s.hasSize
  {
    if data == [] then Result([], s, None)
    else if !s.isChunked && s.hasSize && s.size > 0 then
      if |data| >= s.size then Result(data[s.size..], State(false, false, 0), None)
      else Result([], s.(size := s.size - |data|), None)
    else if !s.hasSize then
      var line := HexLine(data, s);
      if line.state == ERROR then Result(line.rest, line.state, None)
      else if line.state.hasSize && line.state.size == 2 then Result(line.rest, Dropping(trailer), Some([]))
      else NextChunk(line.rest, line.state, trailer)
    else if |data| >= s.size then
      if s.size > 2 then Result(data[s.size..], START, Some(data[..s.size - 2]))
      else NextChunk(data[s.size..], START, trailer)
    else PartialData(data, s)
  }

  method DropTrailer(data: seq<Byte>, state: State) returns (rest: seq<Byte>, after: State)
    requires state.size > 0
    ensures if |data| >= state.size then rest == data[state.size..] && after == State(false, false, 0)
            else rest == [] && after == state.(size := state.size - |data|)
  {
    rest, after := data, state;
    while rest != [] && after.size > 0
      invariant |rest| <= |data| && rest == data[|data| - |rest|..] && |data| - |rest| < state.size
      invariant after == state.(size := state.size - (|data| - |rest|))
      decreases |rest|
    {
      rest := rest[1..];
      after := after.(size := after.size - 1);
      if after.size == 0 {
        after := State(false, false, 0);
        return;
      }
    }
  }

  method GetNextChunk(data: seq<Byte>, state: State, trailer: bool)
    returns (rest: seq<Byte>, after: State, chunk: Option<seq<Byte>>)
    ensures Result(rest, after, chunk) == NextChunk(data, state, trailer)
  {
    rest, after, chunk := data, state, None;
    while rest != []
      invariant NextChunk(rest, after, trailer) == NextChunk(data, state, trailer)
      invariant chunk == None
      decreases |rest|, after.hasSize
    {
      if !after.isChunked && after.hasSize && after.size > 0 {
        rest, after := DropTrailer(rest, after);
        if !after.hasSize { return; }
      } else if !after.hasSize {
        rest, after := ConsumeHexNumber(rest, after);
        if after == ERROR { return; }
        if after.hasSize && after.size == 2 {
          after, chunk := Dropping(trailer), Some([]);
          return;
        }
      } else if |rest| >= after.size {
        var size := after.size;
        if size > 2 { chunk := Some(rest[..size - 2]); }
        rest, after := rest[size..], START;
        if chunk.Some? { return; }
      } else {
        var emit := [];
        if after.size > 2 { emit := rest[..Arithmetic.Min(|rest|, after.size - 2)]; }
        after := after.(isChunked := true, size := after.size - |rest| % 0x1_0000_0000);
        rest := [];
        chunk := if emit != [] then Some(emit) else None;
        return;
      }
    }
  }

  // --------------------------------------------------------------------------- draining a piece

  datatype Drained = Drained(rest: seq<Byte>, state: State, chunks: seq<seq<Byte>>)

  /** What iterating over the chunks of one piece of input yields. */
  function Drain(data: seq<Byte>, s: State, trailer: bool): Drained
    decreases |data|
  {
    var r := NextChunk(data, s, trailer);
    if r.chunk.None? then Drained(r.rest, r.state, [])
    else
      var d := Drain(r.rest, r.state, trailer);
      Drained(d.rest, d.state, [r.chunk.value] + d.chunks)
  }

  /** A call that returns something leaves the rest to be drained. */
  lemma DrainUnfolds(data: seq<Byte>, s: State, trailer: bool)
    ensures var r, d := NextChunk(data, s, trailer), Drain(data, s, trailer);
      if r.chunk.None? then d == Drained(r.rest, r.state, [])
      else var e := Drain(r.rest, r.state, trailer); d == Drained(e.rest, e.state, [r.chunk.value] + e.chunks)
  {}

  lemma OneMore(a: seq<seq<Byte>>, c: seq<Byte>, b: seq<seq<Byte>>)
    ensures a + ([c] + b) == a + [c] + b
  {}

  /** The loop over a ChunkIterator. */
  method Iterate(data: seq<Byte>, state: State, trailer: bool)
    returns (rest: seq<Byte>, after: State, chunks: seq<seq<Byte>>)
    ensures Drained(rest, after, chunks) == Drain(data, state, trailer)
  {
    var chunk;
    chunks := [];
    rest, after, chunk := GetNextChunk(data, state, trailer);
    DrainUnfolds(data, state, trailer);
    ghost var d := Drain(data, state, trailer);
    ghost var e := if chunk.None? then Drained(rest, after, []) else Drain(rest, after, trailer);
    while chunk.Some?
      invariant d.rest == e.rest && d.state == e.state
      invariant d.chunks == if chunk.None? then chunks else chunks + [chunk.value] + e.chunks
      invariant e == if chunk.None? then Drained(rest, after, []) else Drain(rest, after, trailer)
      decreases |rest|, chunk.Some?
    {
      chunks := chunks + [chunk.value];
      DrainUnfolds(rest, after, trailer);
      rest, after, chunk := GetNextChunk(rest, after, trailer);
      e := if chunk.None? then Drained(rest, after, []) else Drain(rest, after, trailer);
      if chunk.Some? { OneMore(chunks, chunk.value, e.chunks); }
    }
  }
}
