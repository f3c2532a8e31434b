/** The HTTP parser over a byte buffer: the body and chunk states of Parse, in place. */
module HttpParsers {
  import opened Options
  import opened Bytes
  import opened MsgBuffers
  import opened HttpBody
  import opened HttpMessage
  import HttpStream

  class HttpParser {
    var state: State
    var chunkLength: int
    var contentLength: int
    var isStream: bool
    var isChunked: bool
    var chunk: Option<Chunk>
    var badRequest: bool

    function View(): Parser
      reads this
    { Parser(state, chunkLength, contentLength, isStream, isChunked, chunk, badRequest) }

    constructor (v: Parser)
      ensures View() == v
    {
      state, chunkLength, contentLength := v.state, v.chunkLength, v.contentLength;
      isStream, isChunked, chunk, badRequest := v.isStream, v.isChunked, v.chunk, v.badRequest;
    }

    method ClearForNextHttp()
      modifies this
      ensures View() == old(View()).(state := ExpectHeaders, contentLength := -1, chunk := None)
    {
      state, contentLength, chunk := ExpectHeaders, -1, None;
    }

    method ClearForNextChunk()
      modifies this
      ensures View() == old(ClearedForNext(View().(state := ExpectChunkComplete)))
    {
      if isChunked {
        chunkLength := -1;
        state := ExpectChunkLen;
      } else {
        if isStream {
          state := ExpectStreamBody;
        } else {
          state := ExpectHeaders;
          chunkLength := -1;
        }
      }
      chunk := None;
    }

    /** Moves bytes from the buffer into the packet, which is made first when there is none. */
    method Fill(buf: MsgBuffer, capacity: int) returns (size: nat)
      requires buf.Valid()
      modifies this`chunk, buf
      ensures buf.Valid() && chunk.Some?
      ensures (chunk.value, buf.Contents()) == old(Filled(PacketFor(View(), capacity), buf.Contents()))
      ensures size == |old(buf.Contents())| - |buf.Contents()|
    {
      if chunk.None? { chunk := Some(Holding(if capacity < 0 then 0 else capacity, [])); }
      size := Min(buf.ReadableBytes(), chunk.value.Space());
      chunk := Some(chunk.value.(data := chunk.value.data + buf.Contents()[..size]));
      buf.Retrieve(size);
    }

    method ParseStream(buf: MsgBuffer)
      requires buf.Valid()
      modifies this, buf
      ensures buf.Valid() && (View(), buf.Contents()) == old(StreamBody(View(), buf.Contents()))
    {
      var _ := Fill(buf, MAX_BODY_SIZE);
      if chunk.value.Space() == 0 { state := ExpectChunkComplete; }
    }

    method ParseNormalBody(buf: MsgBuffer)
      requires buf.Valid()
      modifies this, buf
      ensures buf.Valid() && (View(), buf.Contents()) == old(NormalBody(View(), buf.Contents()))
    {
      var size := Fill(buf, contentLength);
      contentLength := contentLength - size;
      if contentLength == 0 { state := ExpectHttpComplete; }
    }

    method ParseChunk(buf: MsgBuffer)
      requires buf.Valid()
      modifies this, buf
      ensures buf.Valid() && (View(), buf.Contents()) == old(ChunkBody(View(), buf.Contents()))
    {
      var size := Fill(buf, chunkLength);
      chunkLength := chunkLength - size;
      if chunkLength == 0 || chunk.value.Space() == 0 {
        chunk := Some(Unlined(chunk.value));
        state := ExpectChunkComplete;
      }
    }

    method ReadLength(length: int)
      modifies this
      ensures View() == old(LengthRead(View(), length))
    {
      chunkLength := length;
      if chunkLength > MAX_CHUNK_SIZE { state, badRequest := ExpectError, true; }
      if chunkLength == 0 {
        state := ExpectLastEmptyChunk;
      } else {
        chunkLength, state := chunkLength + 2, ExpectChunkBody;
      }
    }

    method ParseChunkLen(buf: MsgBuffer)
      requires buf.Valid()
      modifies this, buf
      ensures buf.Valid() && (View(), buf.Contents()) == old(ChunkLen(View(), buf.Contents()))
    {
      var crlf := buf.FindCRLF();
      FindCrLfIs(buf.Contents(), 0, crlf);
      if crlf.Some? {
        ReadLength(LengthOf(buf.Contents()[..crlf.value]));
        buf.Retrieve(crlf.value + 2);
      } else if buf.ReadableBytes() > MAX_LENGTH_LINE {
        buf.RetrieveAll();
        badRequest, state := true, ExpectError;
      }
    }

    method ParseLastEmptyChunk(buf: MsgBuffer)
      requires buf.Valid()
      modifies this, buf
      ensures buf.Valid() && (View(), buf.Contents()) == old(LastEmptyChunk(View(), buf.Contents()))
    {
      var crlf := buf.FindCRLF();
      FindCrLfIs(buf.Contents(), 0, crlf);
      if crlf.Some? {
        buf.Retrieve(crlf.value + 2);
        chunk, state := None, ExpectChunkComplete;
      }
    }

    method ParseState(buf: MsgBuffer)
      requires buf.Valid()
      modifies this, buf
      ensures buf.Valid() && (View(), buf.Contents()) == old(Dispatch(View(), buf.Contents()))
    {
      match state {
        case ExpectNormalBody => ParseNormalBody(buf);
        case ExpectStreamBody => ParseStream(buf);
        case ExpectChunkLen => ParseChunkLen(buf);
        case ExpectChunkBody => ParseChunk(buf);
        case ExpectLastEmptyChunk => ParseLastEmptyChunk(buf);
        case _ =>
      }
    }

    /** One call; reading header lines, in the state that expects them, is not part of it. */
    method Parse(buf: MsgBuffer) returns (result: State)
      requires buf.Valid()
      modifies this, buf
      ensures buf.Valid() && result == state
      ensures (View(), buf.Contents()) == old(HttpBody.Parse(View(), buf.Contents()))
    {
      if buf.ReadableBytes() == 0 { return state; }
      if state == ExpectHttpComplete {
        ClearForNextHttp();
      } else if state == ExpectChunkComplete {
        ClearForNextChunk();
      }
      ParseState(buf);
      return state;
    }
  }

  /** A Content-Length body read through the buffer: for every way its bytes arrive and every choice of
      calls, the packet is the next `total` bytes, and the surplus stays in the buffer. */
  method ReadBody(total: nat, ops: seq<Op>) returns (p: Parser, unread: seq<byte>)
    requires total > 0
    ensures p.state == ExpectHttpComplete ==>
              exists m: nat :: m <= |ops| && total <= |Arrived(ops[..m])| && p.chunk.Some? &&
                               p.chunk.value.data == Arrived(ops[..m])[..total] && unread == Arrived(ops[..m])[total..]
    ensures p.state != ExpectHttpComplete ==>
              (if p.chunk.Some? then p.chunk.value.data else []) + unread == Arrived(ops)
    ensures ops != [] && ops[|ops| - 1].CallParse? && |Arrived(ops)| >= total ==> p.state == ExpectHttpComplete
  {
    var start := Parser(ExpectNormalBody, -1, total, false, false, None, false);
    var parser := new HttpParser(start);
    var buf := new MsgBuffer(8);
    for i := 0 to |ops|
      invariant buf.Valid()
      invariant (parser.View(), buf.Contents()) == BodyRun(start, [], ops[..i])
    {
      assert ops[..i + 1][..|ops[..i + 1]| - 1] == ops[..i] && ops[..i + 1][i] == ops[i];
      if parser.state == ExpectNormalBody {
        match ops[i] {
          case Arrive(bytes) => buf.Append(bytes);
          case CallParse => var _ := parser.Parse(buf);
        }
      }
    }
    assert ops[..|ops|] == ops;
    p, unread := parser.View(), buf.Contents();
    BodyIndependent(start, [], total, ops);
    BodyComplete(start, [], total, ops);
    BodyAgrees(p, unread, total, ops);
  }

  lemma BodyAgrees(p: Parser, unread: seq<byte>, total: nat, ops: seq<Op>)
    requires BodyOk(p, unread, total, [], ops)
    ensures p.state == ExpectHttpComplete ==>
              exists m: nat :: m <= |ops| && total <= |Arrived(ops[..m])| && p.chunk.Some? &&
                               p.chunk.value.data == Arrived(ops[..m])[..total] && unread == Arrived(ops[..m])[total..]
    ensures p.state != ExpectHttpComplete ==>
              (if p.chunk.Some? then p.chunk.value.data else []) + unread == Arrived(ops)
  {
    assert [] + Arrived(ops) == Arrived(ops);
    if p.state == ExpectHttpComplete {
      var m: nat :| DoneAfter(p, unread, total, [], ops, m);
      assert [] + Arrived(ops[..m]) == Arrived(ops[..m]);
    }
  }

  predicate InChunks(s: State) {
    !(s.ExpectHttpComplete? || s.ExpectHeaders? || s.ExpectNormalBody? || s.ExpectStreamBody?)
  }

  lemma StaysInChunks(p: Parser, unread: seq<byte>)
    requires p.isChunked && InChunks(p.state)
    ensures var q := HttpBody.Parse(p, unread).0; InChunks(q.state) && q.isChunked
  {
    assert InChunks(ClearedForNext(p).state) && ClearedForNext(p).isChunked;
  }

  /** Chunks read through the buffer: for every way the stream arrives and every choice of calls, the
      chunks delivered are the first ones of the stream, with exactly their data; all of them once
      everything has arrived and two calls for each have followed. */
  method ReadChunks(ops: seq<Op>, n: nat) returns (out: seq<seq<byte>>)
    ensures forall cs: seq<Piece>, tail: seq<byte>, pending: seq<byte> ::
              |cs| == n && GoodPieces(cs) && Arrived(ops) + pending == Stream(cs) + tail ==> out <= Datas(cs)
    ensures forall cs: seq<Piece>, tail: seq<byte>, m: nat ::
              |cs| == n && GoodPieces(cs) && m + 2 * n <= |ops| && OnlyCalls(ops, m) &&
              Arrived(ops[..m]) == Stream(cs) + tail ==>
                out == Datas(cs)
  {
    var start := Parser(ExpectChunkLen, -1, -1, false, true, None, false);
    var parser := new HttpParser(start);
    var buf := new MsgBuffer(8);
    out := [];
    for i := 0 to |ops|
      invariant buf.Valid() && (parser.View()).isChunked
      invariant InChunks(parser.state)
      invariant (parser.View(), buf.Contents(), out) == ChunkRun(start, ops[..i], n)
    {
      assert ops[..i + 1][..|ops[..i + 1]| - 1] == ops[..i] && ops[..i + 1][i] == ops[i];
      if |out| < n {
        match ops[i] {
          case Arrive(bytes) => buf.Append(bytes);
          case CallParse =>
            var before := parser.state;
            StaysInChunks(parser.View(), buf.Contents());
            var after := parser.Parse(buf);
            if before == ExpectChunkBody && after == ExpectChunkComplete && parser.chunk.Some? {
              out := out + [parser.chunk.value.data];
            }
        }
      }
    }
    assert ops[..|ops|] == ops;
    forall cs: seq<Piece>, tail: seq<byte>, pending: seq<byte> |
      |cs| == n && GoodPieces(cs) && Arrived(ops) + pending == Stream(cs) + tail
      ensures out <= Datas(cs)
    {
      ChunksIndependent(start, ops, pending, cs, tail);
    }
    forall cs: seq<Piece>, tail: seq<byte>, m: nat |
      |cs| == n && GoodPieces(cs) && m + 2 * n <= |ops| && OnlyCalls(ops, m) && Arrived(ops[..m]) == Stream(cs) + tail
      ensures out == Datas(cs)
    {
      CallsDeliver(start, ops, m, cs, tail);
    }
  }

  /** A whole chunked message read through the buffer, up to its end: for every way it arrives and every choice of
      calls, the chunks delivered are the first ones of the message; it has ended only if all of it has arrived, with
      all chunks delivered and exactly what follows it left in the buffer; and it has ended once everything has
      arrived and two calls for each chunk and two more have followed. */
  method ReadMessage(ops: seq<Op>) returns (out: seq<seq<byte>>, ended: bool, unread: seq<byte>)
    ensures forall cs, last, tail, pending :: Told(ops, out, ended, unread, cs, last, tail, pending)
    ensures forall cs, last, tail, m :: InTime(ops, out, ended, unread, cs, last, tail, m)
  {
    var parser := new HttpParser(START);
    var buf := new MsgBuffer(8);
    out, ended := [], false;
    for i := 0 to |ops|
      invariant buf.Valid() && parser.View().isChunked && InChunks(parser.state)
      invariant Progress(parser.View(), buf.Contents(), out, ended) == MessageRun(START, ops[..i])
    {
      assert ops[..i + 1][..i] == ops[..i] && ops[..i + 1][i] == ops[i];
      match ops[i] {
        case Arrive(bytes) => buf.Append(bytes);
        case CallParse =>
          if !ended {
            var before := parser.state;
            StaysInChunks(parser.View(), buf.Contents());
            var after := parser.Parse(buf);
            if before == ExpectChunkBody && after == ExpectChunkComplete && parser.chunk.Some? {
              out := out + [parser.chunk.value.data];
            }
            ended := after == ExpectChunkComplete && parser.chunk.None?;
          }
      }
    }
    assert ops[..|ops|] == ops;
    unread := buf.Contents();
    ghost var r := MessageRun(START, ops);
    forall cs, last, tail, pending ensures Told(ops, out, ended, unread, cs, last, tail, pending) {
      TellsOne(ops, r, cs, last, tail, pending);
    }
    forall cs, last, tail, m: nat ensures InTime(ops, out, ended, unread, cs, last, tail, m) {
      EndsOne(ops, r, cs, last, tail, m);
    }
  }

  /** One call, after which a full packet is taken. */
  method CallOnce(parser: HttpParser, buf: MsgBuffer, out0: seq<seq<byte>>) returns (out: seq<seq<byte>>)
    requires buf.Valid()
    modifies parser, buf
    ensures buf.Valid()
    ensures HttpStream.Flow(parser.View(), buf.Contents(), out) ==
            old(HttpStream.Fed(HttpStream.Flow(parser.View(), buf.Contents(), out0), CallParse))
  {
    var some := buf.ReadableBytes() > 0;
    var after := parser.Parse(buf);
    var full := some && after == ExpectChunkComplete && parser.chunk.Some?;
    out := if full then out0 + [parser.chunk.value.data] else out0;
  }

  /** A body without an announced length read through the buffer: for every way it arrives and every choice of calls,
      full packets of 64 KiB are delivered, and with what the last packet holds and what is unread they are exactly
      the bytes that have arrived. */
  method ReadStream(ops: seq<Op>) returns (out: seq<seq<byte>>, held: seq<byte>, unread: seq<byte>)
    ensures forall i :: 0 <= i < |out| ==> |out[i]| == MAX_BODY_SIZE
    ensures HttpStream.Joined(out) + held + unread == Arrived(ops)
  {
    var start := Parser(ExpectStreamBody, -1, -1, true, false, None, false);
    var parser := new HttpParser(start);
    var buf := new MsgBuffer(8);
    out := [];
    for i := 0 to |ops|
      invariant buf.Valid()
      invariant HttpStream.Flow(parser.View(), buf.Contents(), out) == HttpStream.FlowRun(start, ops[..i])
    {
      assert ops[..i + 1][..i] == ops[..i] && ops[..i + 1][i] == ops[i];
      match ops[i] {
        case Arrive(bytes) => buf.Append(bytes);
        case CallParse => out := CallOnce(parser, buf, out);
      }
    }
    assert ops[..|ops|] == ops;
    HttpStream.StreamIndependent(start, ops);
    held, unread := HttpStream.Held(parser.View()), buf.Contents();
  }
}
