/** The body and chunk states of the HTTP parser as a value machine over the unread bytes, and its
    independence from how the network cuts the stream. */
module HttpBody {
  import opened Options
  import opened Bytes

  datatype State =
    | ExpectHeaders | ExpectNormalBody | ExpectStreamBody | ExpectHttpComplete
    | ExpectChunkLen | ExpectChunkBody | ExpectChunkComplete | ExpectLastEmptyChunk
    | ExpectError

  const MAX_BODY_SIZE: nat := 65536
  const MAX_LENGTH_LINE: nat := 32
  const MAX_CHUNK_SIZE: nat := 1048576
  const MAX_INT32: nat := 0x7FFF_FFFF

  /** A packet being filled: its capacity and the bytes so far. */
  datatype Holding = Holding(capacity: nat, data: seq<byte>) {
    function Space(): int { capacity - |data| }
  }

  type Chunk = c: Holding | |c.data| <= c.capacity witness Holding(0, [])

  datatype Parser = Parser(state: State, chunkLength: int, contentLength: int, isStream: bool, isChunked: bool,
                           chunk: Option<Chunk>, badRequest: bool)

  function Min(a: int, b: int): int { if a < b then a else b }

  // ---- Length lines -------------------------------------------------------------

  predicate IsSpace(c: byte) { 9 <= c <= 13 || c == 32 }

  function SkipSpaces(s: seq<byte>, i: nat): (r: nat)
    requires i <= |s|
    ensures i <= r <= |s|
    decreases |s| - i
  { if i < |s| && IsSpace(s[i]) then SkipSpaces(s, i + 1) else i }

  function DigitsEnd(s: seq<byte>, i: nat): (r: nat)
    requires i <= |s|
    ensures i <= r <= |s| && forall j :: i <= j < r ==> IsHexDigit(s[j])
    decreases |s| - i
  { if i < |s| && IsHexDigit(s[i]) then DigitsEnd(s, i + 1) else i }

  ghost predicate HexLine(line: seq<byte>) { forall i :: 0 <= i < |line| ==> IsHexDigit(line[i]) }

  function HexNumber(digits: seq<byte>): nat
    requires forall i :: 0 <= i < |digits| ==> IsHexDigit(digits[i])
  {
    if digits == [] then 0 else 16 * HexNumber(digits[..|digits| - 1]) + HexValue(digits[|digits| - 1])
  }

  /** A 64-bit number kept within its range. */
  function Clamp64(n: int): int {
    if n > 0x7FFF_FFFF_FFFF_FFFF then 0x7FFF_FFFF_FFFF_FFFF
    else if n < -0x8000_0000_0000_0000 then -0x8000_0000_0000_0000 else n
  }

  /** The number a line starts with: white space, a sign, 0x and hexadecimal digits, what follows ignored. */
  function StrToL(line: seq<byte>): int {
    var i := SkipSpaces(line, 0);
    var negative := i < |line| && line[i] == 45;
    var j := if i < |line| && (line[i] == 45 || line[i] == 43) then i + 1 else i;
    var prefixed := j + 2 < |line| && line[j] == 48 && line[j + 1] in {88, 120} && IsHexDigit(line[j + 2]);
    var k := if prefixed then j + 2 else j;
    var n: int := HexNumber(line[k..DigitsEnd(line, k)]);
    Clamp64(if negative then 0 - n else n)
  }

  function LengthOf(line: seq<byte>): int { Int32(StrToL(line)) }

  /** The usual length line for a chunk of n bytes. */
  function ToHex(n: nat): (s: seq<byte>)
    ensures s != [] && forall i :: 0 <= i < |s| ==> IsHexDigit(s[i])
  { if n < 16 then [HexChar(n)] else ToHex(n / 16) + [HexChar(n % 16)] }

  lemma {:induction false} HexNumberOfToHex(n: nat)
    ensures HexNumber(ToHex(n)) == n
  {
    if n < 16 {
      assert ToHex(n)[..|ToHex(n)| - 1] == [];
    } else {
      HexNumberOfToHex(n / 16);
      assert ToHex(n)[..|ToHex(n)| - 1] == ToHex(n / 16);
    }
  }

  lemma {:induction false} DigitsEndOfHex(s: seq<byte>, i: nat)
    requires HexLine(s) && i <= |s|
    ensures DigitsEnd(s, i) == |s|
    decreases |s| - i
  {
    if i < |s| { DigitsEndOfHex(s, i + 1); }
  }

  lemma StrToLOfHex(s: seq<byte>)
    requires HexLine(s) && s != []
    ensures StrToL(s) == Clamp64(HexNumber(s))
  {
    DigitsEndOfHex(s, 0);
    assert IsHexDigit(s[0]) && SkipSpaces(s, 0) == 0;
    assert |s| > 1 ==> IsHexDigit(s[1]);
    assert s[0..|s|] == s;
  }

  /** A length that was written is read. */
  lemma LengthOfToHex(n: nat)
    requires n <= MAX_INT32
    ensures LengthOf(ToHex(n)) == n
  {
    HexNumberOfToHex(n);
    LengthOfHex(ToHex(n), n);
  }

  lemma LengthOfHex(s: seq<byte>, n: nat)
    requires HexLine(s) && s != [] && HexNumber(s) == n <= MAX_INT32
    ensures LengthOf(s) == n
  {
    StrToLOfHex(s);
  }

  function FindCrLf(s: seq<byte>, i: nat := 0): (r: Option<nat>)
    requires i <= |s|
    ensures r.Some? ==> i <= r.value && r.value + 2 <= |s|
    decreases |s| - i
  {
    if i + 1 >= |s| then None
    else if s[i] == CR && s[i + 1] == LF then Some(i)
    else FindCrLf(s, i + 1)
  }

  lemma {:induction false} FindCrLfIs(s: seq<byte>, i: nat, at: Option<nat>)
    requires i <= |s|
    requires at.Some? ==> i <= at.value && FirstCrLf(s, at.value)
    requires at.None? ==> NoCrLf(s)
    ensures FindCrLf(s, i) == at
    decreases |s| - i
  {
    if i + 1 < |s| && !(s[i] == CR && s[i + 1] == LF) { FindCrLfIs(s, i + 1, at); }
  }

  // ---- One call of Parse -----------------------------------------------------------

  /** Moves as many bytes into the packet as it has room for. */
  function Filled(c: Chunk, unread: seq<byte>): (r: (Chunk, seq<byte>))
    ensures r.0.data + r.1 == c.data + unread && (r.0.Space() == 0 || r.1 == [])
  {
    var n := Min(|unread|, c.Space());
    (c.(data := c.data + unread[..n]), unread[n..])
  }

  function ClearedForNext(p: Parser): Parser {
    match p.state
    case ExpectChunkComplete =>
      if p.isChunked then p.(state := ExpectChunkLen, chunkLength := -1, chunk := None)
      else if p.isStream then p.(state := ExpectStreamBody, chunk := None)
      else p.(state := ExpectHeaders, chunkLength := -1, chunk := None)
    case ExpectHttpComplete => p.(state := ExpectHeaders, contentLength := -1, chunk := None)
    case _ => p
  }

  function PacketFor(p: Parser, size: int): Chunk {
    if p.chunk.Some? then p.chunk.value else Holding(if size < 0 then 0 else size, [])
  }

  function NormalBody(p: Parser, unread: seq<byte>): (r: (Parser, seq<byte>))
  {
    var (c, rest) := Filled(PacketFor(p, p.contentLength), unread);
    var left := p.contentLength - (|unread| - |rest|);
    (p.(chunk := Some(c), contentLength := left, state := if left == 0 then ExpectHttpComplete else p.state), rest)
  }

  function StreamBody(p: Parser, unread: seq<byte>): (r: (Parser, seq<byte>))
  {
    var (c, rest) := Filled(PacketFor(p, MAX_BODY_SIZE), unread);
    (p.(chunk := Some(c), state := if c.Space() == 0 then ExpectChunkComplete else p.state), rest)
  }

  /** A chunk of length n is announced; a length that is too large is noted and read all the same. */
  function LengthRead(p: Parser, n: int): Parser {
    var q := if n > MAX_CHUNK_SIZE then p.(badRequest := true) else p;
    if n == 0 then q.(chunkLength := 0, state := ExpectLastEmptyChunk)
    else q.(chunkLength := n + 2, state := ExpectChunkBody)
  }

  function ChunkLen(p: Parser, unread: seq<byte>): (Parser, seq<byte>) {
    match FindCrLf(unread)
    case Some(i) => (LengthRead(p, LengthOf(unread[..i])), unread[i + 2..])
    case None =>
      if |unread| > MAX_LENGTH_LINE then (p.(badRequest := true, state := ExpectError), []) else (p, unread)
  }

  /** A length line is refused exactly when more than 32 bytes show no end of it; a length above 1 MiB is noted
      as a bad request, but the chunk is read like any other. */
  lemma ChunkLenRefusedIff(p: Parser, unread: seq<byte>)
    requires p.state == ExpectChunkLen
    ensures ChunkLen(p, unread).0.state == ExpectError <==> FindCrLf(unread).None? && |unread| > MAX_LENGTH_LINE
    ensures ChunkLen(p, unread).0.badRequest <==>
            || p.badRequest || ChunkLen(p, unread).0.state == ExpectError
            || (FindCrLf(unread).Some? && LengthOf(unread[..FindCrLf(unread).value]) > MAX_CHUNK_SIZE)
    ensures ChunkLen(p, unread).0.state == ExpectChunkBody <==>
            FindCrLf(unread).Some? && LengthOf(unread[..FindCrLf(unread).value]) != 0
  {
  }

  /** One byte more than 1 MiB is noted, and expected next. */
  lemma OversizedChunkRead(p: Parser)
    requires p.state == ExpectChunkLen
    ensures ToHex(MAX_CHUNK_SIZE + 1) == [49, 48, 48, 48, 48, 49]
    ensures var (q, rest) := ChunkLen(p, [49, 48, 48, 48, 48, 49, CR, LF]);
            q.badRequest && q.state == ExpectChunkBody && q.chunkLength == MAX_CHUNK_SIZE + 3 && rest == []
  {
    var line: seq<byte> := [49, 48, 48, 48, 48, 49];
    var s: seq<byte> := [49, 48, 48, 48, 48, 49, CR, LF];
    OversizedLine();
    LengthOfToHex(MAX_CHUNK_SIZE + 1);
    FindCrLfIs(s, 0, Some(6));
    assert s[..6] == line;
  }

  lemma OversizedLine()
    ensures ToHex(MAX_CHUNK_SIZE + 1) == [49, 48, 48, 48, 48, 49]
  {
    assert ToHex(0x1) == [49];
    assert ToHex(0x10) == [49, 48];
    assert ToHex(0x100) == [49, 48, 48];
    assert ToHex(0x1000) == [49, 48, 48, 48];
    assert ToHex(0x10000) == [49, 48, 48, 48, 48];
  }

  /** The packet without its final CR LF. */
  function Unlined(c: Chunk): Chunk { c.(data := c.data[..if |c.data| >= 2 then |c.data| - 2 else 0]) }

  function ChunkBody(p: Parser, unread: seq<byte>): (r: (Parser, seq<byte>))
  {
    var (c, rest) := Filled(PacketFor(p, p.chunkLength), unread);
    var left := p.chunkLength - (|unread| - |rest|);
    if left == 0 || c.Space() == 0 then
      (p.(chunk := Some(Unlined(c)),
       chunkLength := left, state := ExpectChunkComplete), rest)
    else (p.(chunk := Some(c), chunkLength := left), rest)
  }

  function LastEmptyChunk(p: Parser, unread: seq<byte>): (Parser, seq<byte>) {
    match FindCrLf(unread)
    case Some(i) => (p.(chunk := None, state := ExpectChunkComplete), unread[i + 2..])
    case None => (p, unread)
  }

  /** One call of Parse, without the reading of header lines. */
  function Parse(p: Parser, unread: seq<byte>): (r: (Parser, seq<byte>))
  {
    if unread == [] then (p, unread) else Dispatch(ClearedForNext(p), unread)
  }

  function Dispatch(q: Parser, unread: seq<byte>): (r: (Parser, seq<byte>))
  {
    match q.state
    case ExpectNormalBody => NormalBody(q, unread)
    case ExpectStreamBody => StreamBody(q, unread)
    case ExpectChunkLen => ChunkLen(q, unread)
    case ExpectChunkBody => ChunkBody(q, unread)
    case ExpectLastEmptyChunk => LastEmptyChunk(q, unread)
    case _ => (q, unread)
  }

  // ---- Runs --------------------------------------------------------------------------

  /** The network appends bytes to the buffer, or the parser is called. */
  datatype Op = Arrive(bytes: seq<byte>) | CallParse

  ghost function Arrived(ops: seq<Op>): seq<byte> {
    if ops == [] then []
    else Arrived(ops[..|ops| - 1]) + (if ops[|ops| - 1].Arrive? then ops[|ops| - 1].bytes else [])
  }

  /** A body of `total` bytes is being read, of which all that was read so far is in the packet. */
  ghost predicate ReadingBody(p: Parser, unread: seq<byte>, total: nat, stream: seq<byte>) {
    && p.state == ExpectNormalBody && p.contentLength > 0
    && (p.chunk.None? ==> p.contentLength == total && unread == stream)
    && (p.chunk.Some? ==> && p.chunk.value.capacity == total && |p.chunk.value.data| + p.contentLength == total
                          && p.chunk.value.data + unread == stream)
  }

  /** The body is exactly the first `total` bytes of the stream; the surplus is unread. */
  ghost predicate BodyDone(p: Parser, unread: seq<byte>, total: nat, stream: seq<byte>) {
    && p.state == ExpectHttpComplete && p.chunk.Some? && total <= |stream|
    && p.chunk.value.data == stream[..total] && unread == stream[total..]
  }

  /** One call reads on: it finishes the body iff the stream has all of it, and leaves nothing unread otherwise. */
  lemma BodyStep(p: Parser, unread: seq<byte>, total: nat, stream: seq<byte>)
    requires ReadingBody(p, unread, total, stream)
    ensures var (q, rest) := Parse(p, unread);
            if |stream| >= total then BodyDone(q, rest, total, stream)
            else ReadingBody(q, rest, total, stream) && rest == []
  {
    if unread != [] {
      var c := PacketFor(p, p.contentLength);
      assert c.data + unread == stream;
      assert |stream| == |c.data| + |unread|;
      var n := Min(|unread|, c.Space());
      assert stream[..|c.data| + n] == c.data + unread[..n] && stream[|c.data| + n..] == unread[n..];
    }
  }

  /** The state after a run that stops when the body is complete. */
  ghost function BodyRun(p: Parser, unread: seq<byte>, ops: seq<Op>): (r: (Parser, seq<byte>))
  {
    if ops == [] then (p, unread)
    else
      var (q, rest) := BodyRun(p, unread, ops[..|ops| - 1]);
      if q.state != ExpectNormalBody then (q, rest)
      else if ops[|ops| - 1].Arrive? then (q, rest + ops[|ops| - 1].bytes)
      else Parse(q, rest)
  }

  /** The body was completed after m operations, with the first bytes of the stream. */
  ghost predicate DoneAfter(q: Parser, rest: seq<byte>, total: nat, unread: seq<byte>, ops: seq<Op>, m: nat) {
    m <= |ops| && BodyDone(q, rest, total, unread + Arrived(ops[..m]))
  }

  ghost predicate BodyOk(q: Parser, rest: seq<byte>, total: nat, unread: seq<byte>, ops: seq<Op>) {
    || ReadingBody(q, rest, total, unread + Arrived(ops))
    || exists m: nat :: DoneAfter(q, rest, total, unread, ops, m)
  }

  lemma BodyArrives(q: Parser, rest: seq<byte>, total: nat, stream: seq<byte>, bytes: seq<byte>)
    requires ReadingBody(q, rest, total, stream)
    ensures ReadingBody(q, rest + bytes, total, stream + bytes)
  {
    if q.chunk.Some? { assert q.chunk.value.data + (rest + bytes) == q.chunk.value.data + rest + bytes; }
  }

  /** For every way the bytes arrive and every choice of calls, the Content-Length body is exactly the
      next `total` bytes of the stream, and what follows it stays unread. */
  lemma {:induction false} BodyIndependent(p: Parser, unread: seq<byte>, total: nat, ops: seq<Op>)
    requires ReadingBody(p, unread, total, unread) && p.chunk.None?
    ensures BodyOk(BodyRun(p, unread, ops).0, BodyRun(p, unread, ops).1, total, unread, ops)
  {
    if ops == [] {
      assert unread + [] == unread;
    } else {
      var l := |ops| - 1;
      var before := ops[..l];
      BodyIndependent(p, unread, total, before);
      var (q, rest) := BodyRun(p, unread, before);
      var (q', rest') := BodyRun(p, unread, ops);
      var stream := unread + Arrived(before);
      if ReadingBody(q, rest, total, stream) {
        if ops[l].Arrive? {
          BodyArrives(q, rest, total, stream, ops[l].bytes);
          assert unread + Arrived(ops) == stream + ops[l].bytes;
        } else {
          BodyStep(q, rest, total, stream);
          assert unread + Arrived(ops) == stream && ops[..|ops|] == ops;
          assert |stream| >= total ==> DoneAfter(q', rest', total, unread, ops, |ops|);
        }
      } else {
        var m: nat :| DoneAfter(q, rest, total, unread, before, m);
        assert before[..m] == ops[..m];
        assert DoneAfter(q', rest', total, unread, ops, m);
      }
    }
  }

  lemma {:induction false} ArrivedPrefix(ops: seq<Op>, m: nat)
    requires m <= |ops|
    ensures Arrived(ops[..m]) <= Arrived(ops)
    decreases |ops|
  {
    if m < |ops| {
      ArrivedPrefix(ops[..|ops| - 1], m);
      assert ops[..|ops| - 1][..m] == ops[..m];
    } else {
      assert ops[..m] == ops;
    }
  }

  /** In particular the body does not depend on the segmentation, and it is complete after any call
      made once the whole of it has arrived. */
  lemma BodyComplete(p: Parser, unread: seq<byte>, total: nat, ops: seq<Op>)
    requires ReadingBody(p, unread, total, unread) && p.chunk.None?
    ensures var (q, rest) := BodyRun(p, unread, ops);
            q.state == ExpectHttpComplete ==>
              && total <= |unread + Arrived(ops)| && q.chunk.Some?
              && q.chunk.value.data == (unread + Arrived(ops))[..total]
    ensures ops != [] && ops[|ops| - 1].CallParse? && |unread + Arrived(ops)| >= total ==>
              BodyRun(p, unread, ops).0.state == ExpectHttpComplete
  {
    var (q, rest) := BodyRun(p, unread, ops);
    BodyIndependent(p, unread, total, ops);
    if q.state == ExpectHttpComplete {
      var m: nat :| DoneAfter(q, rest, total, unread, ops, m);
      ArrivedPrefix(ops, m);
      assert unread + Arrived(ops[..m]) <= unread + Arrived(ops);
    }
    if ops != [] && ops[|ops| - 1].CallParse? && |unread + Arrived(ops)| >= total {
      var before := ops[..|ops| - 1];
      BodyIndependent(p, unread, total, before);
      var (q0, rest0) := BodyRun(p, unread, before);
      assert unread + Arrived(ops) == unread + Arrived(before);
      if ReadingBody(q0, rest0, total, unread + Arrived(before)) {
        BodyStep(q0, rest0, total, unread + Arrived(before));
      }
    }
  }

  // ---- Chunked streams -----------------------------------------------------------------

  const CRLF: seq<byte> := [CR, LF]

  /** A chunk on the wire: its length line, with an extension if that is short, and its data. */
  datatype Piece = Piece(line: seq<byte>, data: seq<byte>)

  ghost predicate GoodPiece(c: Piece) {
    && 1 <= |c.line| < MAX_LENGTH_LINE && CR !in c.line
    && LengthOf(c.line) == |c.data| && 1 <= |c.data| <= MAX_INT32 - 2
  }

  ghost predicate GoodPieces(cs: seq<Piece>) {
    forall i {:trigger GoodPiece(cs[i])} :: 0 <= i < |cs| ==> GoodPiece(cs[i])
  }

  function Encoded(c: Piece): seq<byte> { c.line + CRLF + c.data + CRLF }

  function Stream(cs: seq<Piece>): seq<byte> { if cs == [] then [] else Encoded(cs[0]) + Stream(cs[1..]) }

  /** The packet is being filled with d: the length that remains is the space it has left. */
  ghost predicate InChunk(p: Parser, unread: seq<byte>, pending: seq<byte>, d: seq<byte>, after: seq<byte>) {
    && p.chunkLength > 0
    && (p.chunk.None? ==> p.chunkLength == |d| && unread + pending == d + after)
    && (p.chunk.Some? ==> && p.chunk.value.capacity == |d| && p.chunkLength == p.chunk.value.Space()
                          && p.chunk.value.data + unread + pending == d + after)
  }

  /** The chunks cs are still to come: what is unread and what is pending, after what the packet holds
      already, is their encoding followed by tail. */
  ghost predicate ToCome(p: Parser, unread: seq<byte>, pending: seq<byte>, cs: seq<Piece>, tail: seq<byte>) {
    && p.isChunked && GoodPieces(cs)
    && match p.state
       case ExpectChunkLen => p.chunk.None? && unread + pending == Stream(cs) + tail
       case ExpectChunkComplete => unread + pending == Stream(cs) + tail
       case ExpectChunkBody =>
         cs != [] && InChunk(p, unread, pending, cs[0].data + CRLF, Stream(cs[1..]) + tail)
       case _ => false
  }

  /** A chunk has just been completed. */
  ghost predicate Completes(p: Parser, q: Parser) {
    p.state == ExpectChunkBody && q.state == ExpectChunkComplete && q.chunk.Some?
  }

  ghost predicate Delivers(p: Parser, q: Parser, data: seq<byte>) {
    Completes(p, q) && q.chunk.value.data == data
  }

  lemma LineThere(line: seq<byte>, more: seq<byte>)
    requires CR !in line
    ensures FindCrLf(line + CRLF + more) == Some(|line|)
  {
    var s := line + CRLF + more;
    assert forall i :: 0 <= i < |line| ==> s[i] == line[i];
    assert s[|line|] == CR && s[|line| + 1] == LF;
    FindCrLfIs(s, 0, Some(|line|));
  }

  lemma LineCut(line: seq<byte>, k: nat)
    requires CR !in line && k < |line| + 2
    ensures FindCrLf((line + CRLF)[..k]) == None
  {
    var s := (line + CRLF)[..k];
    assert forall i :: 0 <= i < k && i < |line| ==> s[i] == line[i];
    FindCrLfIs(s, 0, None);
  }

  lemma LengthLine(line: seq<byte>, rest: seq<byte>, unread: seq<byte>, pending: seq<byte>)
    requires CR !in line && unread + pending == line + CRLF + rest
    ensures if |unread| >= |line| + 2
            then FindCrLf(unread) == Some(|line|) && unread[..|line|] == line && unread[|line| + 2..] + pending == rest
            else FindCrLf(unread) == None
  {
    var n := |line| + 2;
    var all := line + CRLF + rest;
    if |unread| >= n {
      var more := unread[n..];
      assert unread[..n] == all[..n] == line + CRLF;
      assert unread == line + CRLF + more;
      LineThere(line, more);
      assert more + pending == (unread + pending)[n..] == all[n..] == rest;
    } else {
      assert unread == all[..|unread|] == (line + CRLF)[..|unread|];
      LineCut(line, |unread|);
    }
  }

  lemma StreamSplit(cs: seq<Piece>, tail: seq<byte>)
    requires cs != []
    ensures Stream(cs) + tail == cs[0].line + CRLF + (cs[0].data + CRLF + (Stream(cs[1..]) + tail))
  {
  }

  /** Reading a length line: either the whole of it is there, and the chunk starts, or nothing happens. */
  lemma LengthStep(p: Parser, unread: seq<byte>, pending: seq<byte>, cs: seq<Piece>, tail: seq<byte>)
    requires ToCome(p, unread, pending, cs, tail) && cs != [] && p.state == ExpectChunkLen
    ensures var (q, rest) := ChunkLen(p, unread);
            && ToCome(q, rest, pending, cs, tail)
            && q.state == if |unread| >= |cs[0].line| + 2 then ExpectChunkBody else ExpectChunkLen
  {
    assert GoodPiece(cs[0]);
    StreamSplit(cs, tail);
    LengthLine(cs[0].line, cs[0].data + CRLF + (Stream(cs[1..]) + tail), unread, pending);
  }

  /** One call keeps track of what is to come; it finishes the current chunk with exactly its data,
      the final CR LF removed, or none. */
  lemma ChunkStep(p: Parser, unread: seq<byte>, pending: seq<byte>, cs: seq<Piece>, tail: seq<byte>)
    requires ToCome(p, unread, pending, cs, tail) && cs != []
    ensures var (q, rest) := Parse(p, unread);
            if Delivers(p, q, cs[0].data) then ToCome(q, rest, pending, cs[1..], tail)
            else !Completes(p, q) && ToCome(q, rest, pending, cs, tail)
  {
    if unread != [] {
      if p.state == ExpectChunkBody {
        BodyOfChunk(p, unread, pending, cs, tail);
      } else {
        LengthStep(ClearedForNext(p), unread, pending, cs, tail);
      }
    }
  }

  /** Filling a packet of |d| bytes from a stream that goes on with d gives d, or all there is. */
  lemma FilledWith(c: Chunk, unread: seq<byte>, pending: seq<byte>, d: seq<byte>, after: seq<byte>)
    requires c.capacity == |d| && c.data + unread + pending == d + after
    ensures var (f, rest) := Filled(c, unread);
            && f.capacity == |d| && f.data + rest + pending == d + after
            && (f.Space() == 0 ==> f.data == d && rest + pending == after)
            && (pending == [] ==> f.Space() == 0)
  {
    var (f, rest) := Filled(c, unread);
    assert f.data + rest == c.data + unread;
    if f.Space() == 0 {
      assert f.data == (f.data + rest + pending)[..|d|] == (d + after)[..|d|] == d;
      assert rest + pending == (f.data + rest + pending)[|d|..] == (d + after)[|d|..] == after;
    }
  }

  lemma InChunkStep(p: Parser, unread: seq<byte>, pending: seq<byte>, d: seq<byte>, after: seq<byte>)
    requires InChunk(p, unread, pending, d, after) && |d| >= 2 && p.state == ExpectChunkBody
    ensures var (q, rest) := ChunkBody(p, unread);
            && q.isChunked == p.isChunked && q.chunk.Some?
            && if q.state == ExpectChunkComplete then q.chunk.value.data == d[..|d| - 2] && rest + pending == after
               else q.state == p.state && pending != [] && InChunk(q, rest, pending, d, after)
  {
    var c := PacketFor(p, p.chunkLength);
    assert c.data + unread + pending == d + after by { assert [] + unread == unread; }
    FilledWith(c, unread, pending, d, after);
  }

  lemma BodyOfChunk(p: Parser, unread: seq<byte>, pending: seq<byte>, cs: seq<Piece>, tail: seq<byte>)
    requires ToCome(p, unread, pending, cs, tail) && p.state == ExpectChunkBody
    ensures var (q, rest) := ChunkBody(p, unread);
            if Delivers(p, q, cs[0].data) then ToCome(q, rest, pending, cs[1..], tail)
            else q.state == ExpectChunkBody && ToCome(q, rest, pending, cs, tail)
    ensures pending == [] ==> Delivers(p, ChunkBody(p, unread).0, cs[0].data)
  {
    var d := cs[0].data + CRLF;
    InChunkStep(p, unread, pending, d, Stream(cs[1..]) + tail);
    assert d[..|d| - 2] == cs[0].data;
  }

  /** Delivered data and what is to come, over a run that stops once n chunks have been delivered. */
  ghost function ChunkRun(p: Parser, ops: seq<Op>, n: nat): (r: (Parser, seq<byte>, seq<seq<byte>>))
  {
    if ops == [] then (p, [], [])
    else
      var (q, unread, out) := ChunkRun(p, ops[..|ops| - 1], n);
      if |out| >= n then (q, unread, out)
      else if ops[|ops| - 1].Arrive? then (q, unread + ops[|ops| - 1].bytes, out)
      else
        var (q', rest) := Parse(q, unread);
        (q', rest, if Completes(q, q') then out + [q'.chunk.value.data] else out)
  }

  ghost function Datas(cs: seq<Piece>): seq<seq<byte>> { seq(|cs|, i requires 0 <= i < |cs| => cs[i].data) }

  /** The chunks delivered so far are the first ones of cs, and the others are still to come. */
  ghost predicate Keeping(r: (Parser, seq<byte>, seq<seq<byte>>), pending: seq<byte>, cs: seq<Piece>, tail: seq<byte>) {
    && r.2 <= Datas(cs)
    && (|r.2| < |cs| ==> ToCome(r.0, r.1, pending, cs[|r.2|..], tail))
  }

  lemma KeepingStep(q: Parser, unread: seq<byte>, out: seq<seq<byte>>, pending: seq<byte>, cs: seq<Piece>,
                    tail: seq<byte>)
    requires Keeping((q, unread, out), pending, cs, tail) && |out| < |cs|
    ensures var (q', rest) := Parse(q, unread);
            Keeping((q', rest, if Completes(q, q') then out + [q'.chunk.value.data] else out), pending, cs, tail)
  {
    var left := cs[|out|..];
    ChunkStep(q, unread, pending, left, tail);
    assert left[1..] == cs[|out| + 1..] && left[0] == cs[|out|];
  }

  /** For every way a chunked stream arrives and every choice of calls, the chunks delivered are the
      stream's chunks in order, with exactly their data, and none of the stream is lost. */
  lemma {:induction false} ChunksIndependent(p: Parser, ops: seq<Op>, pending: seq<byte>, cs: seq<Piece>,
                                             tail: seq<byte>)
    requires p.state == ExpectChunkLen && p.isChunked && p.chunk.None? && GoodPieces(cs)
    requires Arrived(ops) + pending == Stream(cs) + tail
    ensures Keeping(ChunkRun(p, ops, |cs|), pending, cs, tail)
  {
    if ops != [] {
      var l := |ops| - 1;
      var before := ops[..l];
      var late := (if ops[l].Arrive? then ops[l].bytes else []) + pending;
      assert Arrived(before) + late == Arrived(ops) + pending;
      ChunksIndependent(p, before, late, cs, tail);
      var (q, unread, out) := ChunkRun(p, before, |cs|);
      if |out| < |cs| {
        if ops[l].Arrive? {
          ChunkArrives(q, unread, ops[l].bytes, pending, cs[|out|..], tail);
        } else {
          assert late == pending;
          KeepingStep(q, unread, out, pending, cs, tail);
        }
      }
    } else {
      assert cs[0..] == cs;
    }
  }

  lemma ChunkArrives(q: Parser, unread: seq<byte>, bytes: seq<byte>, pending: seq<byte>, cs: seq<Piece>,
                     tail: seq<byte>)
    requires ToCome(q, unread, bytes + pending, cs, tail)
    ensures ToCome(q, unread + bytes, pending, cs, tail)
  {
    assert unread + (bytes + pending) == unread + bytes + pending;
    if q.chunk.Some? {
      var d := q.chunk.value.data;
      assert d + unread + (bytes + pending) == d + (unread + bytes) + pending;
    }
  }

  /** Calls that are still needed, at most, for the given number of chunks that have arrived. */
  function CallsNeeded(p: Parser, left: nat): int { 2 * left - if p.state == ExpectChunkBody then 1 else 0 }

  /** Every call brings the next chunk nearer once all have arrived. */
  lemma CallProgress(q: Parser, unread: seq<byte>, cs: seq<Piece>, tail: seq<byte>)
    requires ToCome(q, unread, [], cs, tail) && cs != []
    ensures var q' := Parse(q, unread).0;
            CallsNeeded(q', |cs| - if Completes(q, q') then 1 else 0) < CallsNeeded(q, |cs|)
  {
    if q.state == ExpectChunkBody {
      BodyOfChunk(q, unread, [], cs, tail);
      assert unread != [] by { if unread == [] { NothingUnread(q, cs, tail); } }
    } else {
      StreamSplit(cs, tail);
      assert unread == unread + [];
      LengthStep(ClearedForNext(q), unread, [], cs, tail);
    }
  }

  lemma NothingUnread(q: Parser, cs: seq<Piece>, tail: seq<byte>)
    requires cs != []
    ensures !InChunk(q, [], [], cs[0].data + CRLF, Stream(cs[1..]) + tail)
  {
  }

  ghost predicate OnlyCalls(ops: seq<Op>, m: nat) { forall i :: m <= i < |ops| ==> ops[i].CallParse? }

  /** All has arrived, and k calls since then have done their part. */
  ghost predicate Due(r: (Parser, seq<byte>, seq<seq<byte>>), cs: seq<Piece>, tail: seq<byte>, k: nat) {
    && Keeping(r, [], cs, tail)
    && (|| |r.2| == |cs|
        || (|r.2| < |cs| && CallsNeeded(r.0, |cs| - |r.2|) + k <= 2 * |cs|))
  }

  ghost function OneCall(r: (Parser, seq<byte>, seq<seq<byte>>), n: nat): (s: (Parser, seq<byte>, seq<seq<byte>>))
  {
    if |r.2| >= n then r
    else
      var (q, rest) := Parse(r.0, r.1);
      (q, rest, if Completes(r.0, q) then r.2 + [q.chunk.value.data] else r.2)
  }

  lemma DueStep(r: (Parser, seq<byte>, seq<seq<byte>>), cs: seq<Piece>, tail: seq<byte>, k: nat)
    requires Due(r, cs, tail, k)
    ensures Due(OneCall(r, |cs|), cs, tail, k + 1)
  {
    if |r.2| < |cs| {
      KeepingStep(r.0, r.1, r.2, [], cs, tail);
      CallProgress(r.0, r.1, cs[|r.2|..], tail);
    }
  }

  lemma RunCall(p: Parser, ops: seq<Op>, n: nat)
    requires ops != [] && ops[|ops| - 1].CallParse?
    ensures ChunkRun(p, ops, n) == OneCall(ChunkRun(p, ops[..|ops| - 1], n), n)
  {
  }

  lemma {:induction false} CallsKeepDue(p: Parser, ops: seq<Op>, m: nat, cs: seq<Piece>, tail: seq<byte>)
    requires p.state == ExpectChunkLen && p.isChunked && p.chunk.None? && GoodPieces(cs)
    requires m <= |ops| && OnlyCalls(ops, m) && Arrived(ops[..m]) == Stream(cs) + tail
    ensures Due(ChunkRun(p, ops, |cs|), cs, tail, |ops| - m)
    decreases |ops|
  {
    if m < |ops| {
      var l := |ops| - 1;
      assert ops[..l][..m] == ops[..m];
      CallsKeepDue(p, ops[..l], m, cs, tail);
      RunCall(p, ops, |cs|);
      DueStep(ChunkRun(p, ops[..l], |cs|), cs, tail, l - m);
    } else {
      assert ops[..m] == ops && Arrived(ops) + [] == Arrived(ops);
      ChunksIndependent(p, ops, [], cs, tail);
      DueAtFirst(ChunkRun(p, ops, |cs|), cs, tail);
    }
  }

  lemma DueAll(r: (Parser, seq<byte>, seq<seq<byte>>), cs: seq<Piece>, tail: seq<byte>, k: nat)
    requires Due(r, cs, tail, k) && k >= 2 * |cs|
    ensures r.2 == Datas(cs)
  {
  }

  /** Once all of a chunked stream has arrived, two calls for each chunk deliver them all. */
  lemma CallsDeliver(p: Parser, ops: seq<Op>, m: nat, cs: seq<Piece>, tail: seq<byte>)
    requires p.state == ExpectChunkLen && p.isChunked && p.chunk.None? && GoodPieces(cs)
    requires m <= |ops| && OnlyCalls(ops, m) && Arrived(ops[..m]) == Stream(cs) + tail
    ensures |ops| - m >= 2 * |cs| ==> ChunkRun(p, ops, |cs|).2 == Datas(cs)
  {
    CallsKeepDue(p, ops, m, cs, tail);
    if |ops| - m >= 2 * |cs| { DueAll(ChunkRun(p, ops, |cs|), cs, tail, |ops| - m); }
  }

  lemma DueAtFirst(r: (Parser, seq<byte>, seq<seq<byte>>), cs: seq<Piece>, tail: seq<byte>)
    requires Keeping(r, [], cs, tail)
    ensures Due(r, cs, tail, 0)
  {
  }
}
