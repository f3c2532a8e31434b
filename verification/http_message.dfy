/** A whole chunked message: its chunks, the last chunk of length 0, and the empty line that ends it. */
module HttpMessage {
  import opened Bytes
  import opened Options
  import opened HttpBody

  /** A length line of the value 0, with an extension if that is short. */
  ghost predicate GoodLast(line: seq<byte>) {
    1 <= |line| < MAX_LENGTH_LINE && CR !in line && LengthOf(line) == 0
  }

  /** The last chunk on the wire, and the empty line behind it. */
  function Ending(last: seq<byte>): seq<byte> { last + CRLF + CRLF }

  /** The parser, what it has not read, the chunks delivered, and whether the message has ended. */
  datatype Progress = Progress(parser: Parser, unread: seq<byte>, out: seq<seq<byte>>, ended: bool)

  /** A call ends in the state for complete chunks, without a chunk: the message has ended. */
  predicate Ends(q: Parser) { q.state == ExpectChunkComplete && q.chunk.None? }

  ghost function Fed(r: Progress, op: Op): Progress {
    match op
    case Arrive(bytes) => r.(unread := r.unread + bytes)
    case CallParse =>
      if r.ended then r
      else
        var (q, rest) := Parse(r.parser, r.unread);
        Progress(q, rest, if Completes(r.parser, q) then r.out + [q.chunk.value.data] else r.out, Ends(q))
  }

  /** A run, in which no more calls are made once the message has ended. */
  ghost function MessageRun(p: Parser, ops: seq<Op>): Progress {
    if ops == [] then Progress(p, [], [], false) else Fed(MessageRun(p, ops[..|ops| - 1]), ops[|ops| - 1])
  }

  // ---- What is still to come ------------------------------------------------------------------

  /** The last length line has been read, and the empty line is still to come. */
  ghost predicate AtLastLine(p: Parser, unread: seq<byte>, pending: seq<byte>, tail: seq<byte>) {
    p.isChunked && p.state == ExpectLastEmptyChunk && unread + pending == CRLF + tail
  }

  ghost predicate Coming(p: Parser, unread: seq<byte>, pending: seq<byte>, cs: seq<Piece>, last: seq<byte>,
                         tail: seq<byte>)
  {
    || (ToCome(p, unread, pending, cs, Ending(last) + tail) && !Ends(p))
    || (cs == [] && AtLastLine(p, unread, pending, tail))
  }

  /** The chunks delivered are the first ones of the message, and the rest of it is to come; or it has ended, and
      exactly what follows it is unread or pending. */
  ghost predicate Reading(r: Progress, pending: seq<byte>, cs: seq<Piece>, last: seq<byte>, tail: seq<byte>) {
    && r.out <= Datas(cs)
    && if r.ended then r.out == Datas(cs) && Ends(r.parser) && r.unread + pending == tail
       else Coming(r.parser, r.unread, pending, cs[|r.out|..], last, tail)
  }

  /** The last length line is read exactly once all of it is there. */
  lemma LastLineStep(p: Parser, unread: seq<byte>, pending: seq<byte>, last: seq<byte>, tail: seq<byte>)
    requires p.isChunked && p.state == ExpectChunkLen && p.chunk.None? && GoodLast(last)
    requires unread + pending == Ending(last) + tail
    ensures var (q, rest) := ChunkLen(p, unread);
            if |unread| >= |last| + 2 then AtLastLine(q, rest, pending, tail) else q == p && rest == unread
  {
    assert Ending(last) + tail == last + CRLF + (CRLF + tail);
    LengthLine(last, CRLF + tail, unread, pending);
  }

  /** The message ends exactly once its final CR LF is there. */
  lemma EmptyLineStep(p: Parser, unread: seq<byte>, pending: seq<byte>, tail: seq<byte>)
    requires AtLastLine(p, unread, pending, tail)
    ensures var (q, rest) := LastEmptyChunk(p, unread);
            if |unread| >= 2 then Ends(q) && rest + pending == tail else q == p && rest == unread
  {
    assert unread + pending == [] + CRLF + tail;
    LengthLine([], tail, unread, pending);
  }

  lemma NoChunkLeft(p: Parser, unread: seq<byte>, pending: seq<byte>, tail: seq<byte>)
    requires ToCome(p, unread, pending, [], tail)
    ensures p.isChunked && unread + pending == tail && (p.state == ExpectChunkLen || p.state == ExpectChunkComplete)
    ensures p.state == ExpectChunkLen ==> p.chunk.None?
  {
    assert Stream([]) + tail == tail;
  }

  /** One call behind the last chunk with data. */
  lemma EndStep(p: Parser, unread: seq<byte>, pending: seq<byte>, last: seq<byte>, tail: seq<byte>)
    requires Coming(p, unread, pending, [], last, tail) && GoodLast(last)
    ensures var (q, rest) := Parse(p, unread);
            && !Completes(p, q)
            && if Ends(q) then rest + pending == tail else Coming(q, rest, pending, [], last, tail)
  {
    if unread != [] {
      if p.state == ExpectLastEmptyChunk {
        EmptyLineStep(p, unread, pending, tail);
      } else {
        NoChunkLeft(p, unread, pending, Ending(last) + tail);
        var c := ClearedForNext(p);
        LastLineStep(c, unread, pending, last, tail);
        assert Stream([]) + (Ending(last) + tail) == Ending(last) + tail;
      }
    }
  }

  lemma NotYetEnded(p: Parser, unread: seq<byte>, pending: seq<byte>, cs: seq<Piece>, tail: seq<byte>)
    requires ToCome(p, unread, pending, cs, tail) && !Ends(p) && cs != []
    ensures !Ends(Parse(p, unread).0)
  {
    if unread != [] {
      if p.state == ExpectChunkBody {
        BodyOfChunk(p, unread, pending, cs, tail);
      } else {
        LengthStep(ClearedForNext(p), unread, pending, cs, tail);
      }
    }
  }

  lemma CallStep(r: Progress, pending: seq<byte>, cs: seq<Piece>, last: seq<byte>, tail: seq<byte>)
    requires Reading(r, pending, cs, last, tail) && GoodLast(last) && !r.ended
    ensures Reading(Fed(r, CallParse), pending, cs, last, tail)
  {
    if |r.out| == |cs| {
      assert cs[|r.out|..] == [];
      EndStep(r.parser, r.unread, pending, last, tail);
    } else {
      ChunkCall(r, pending, cs, last, tail, Ending(last) + tail);
    }
  }

  lemma ChunkCall(r: Progress, pending: seq<byte>, cs: seq<Piece>, last: seq<byte>, tail: seq<byte>, end: seq<byte>)
    requires Reading(r, pending, cs, last, tail) && !r.ended && |r.out| < |cs| && end == Ending(last) + tail
    ensures Reading(Fed(r, CallParse), pending, cs, last, tail)
  {
    var left := cs[|r.out|..];
    ChunkStep(r.parser, r.unread, pending, left, end);
    NotYetEnded(r.parser, r.unread, pending, left, end);
    assert left[1..] == cs[|r.out| + 1..] && left[0] == cs[|r.out|];
  }

  lemma ArriveStep(r: Progress, bytes: seq<byte>, pending: seq<byte>, cs: seq<Piece>, last: seq<byte>, tail: seq<byte>)
    requires Reading(r, bytes + pending, cs, last, tail)
    ensures Reading(Fed(r, Arrive(bytes)), pending, cs, last, tail)
  {
    assert r.unread + bytes + pending == r.unread + (bytes + pending);
    if !r.ended && ToCome(r.parser, r.unread, bytes + pending, cs[|r.out|..], Ending(last) + tail) {
      ChunkArrives(r.parser, r.unread, bytes, pending, cs[|r.out|..], Ending(last) + tail);
    }
  }

  lemma ReadingFirst(p: Parser, pending: seq<byte>, cs: seq<Piece>, last: seq<byte>, tail: seq<byte>)
    requires p.state == ExpectChunkLen && p.isChunked && p.chunk.None? && GoodPieces(cs)
    requires pending == Stream(cs) + Ending(last) + tail
    ensures Reading(Progress(p, [], [], false), pending, cs, last, tail)
  {
    assert cs[0..] == cs && Stream(cs) + Ending(last) + tail == Stream(cs) + (Ending(last) + tail);
  }

  /** For every way a chunked message arrives and every choice of calls, the chunks delivered are its chunks in
      order; and it has ended only when all of it has arrived, with exactly what follows it unread. */
  lemma {:induction false} MessageIndependent(p: Parser, ops: seq<Op>, pending: seq<byte>, cs: seq<Piece>,
                                              last: seq<byte>, tail: seq<byte>)
    requires p.state == ExpectChunkLen && p.isChunked && p.chunk.None? && GoodPieces(cs) && GoodLast(last)
    requires Arrived(ops) + pending == Stream(cs) + Ending(last) + tail
    ensures Reading(MessageRun(p, ops), pending, cs, last, tail)
  {
    if ops == [] {
      assert Arrived(ops) + pending == pending;
      ReadingFirst(p, pending, cs, last, tail);
    } else {
      var l := |ops| - 1;
      var late := (if ops[l].Arrive? then ops[l].bytes else []) + pending;
      assert Arrived(ops[..l]) + late == Arrived(ops) + pending;
      MessageIndependent(p, ops[..l], late, cs, last, tail);
      var r := MessageRun(p, ops[..l]);
      if ops[l].Arrive? {
        ArriveStep(r, ops[l].bytes, pending, cs, last, tail);
      } else {
        assert late == pending;
        if !r.ended { CallStep(r, pending, cs, last, tail); }
      }
    }
  }

  /** A message has ended only when its final CR LF has arrived. */
  lemma NotBeforeItsEnd(p: Parser, ops: seq<Op>, pending: seq<byte>, cs: seq<Piece>, last: seq<byte>, tail: seq<byte>)
    requires p.state == ExpectChunkLen && p.isChunked && p.chunk.None? && GoodPieces(cs) && GoodLast(last)
    requires Arrived(ops) + pending == Stream(cs) + Ending(last) + tail && MessageRun(p, ops).ended
    ensures Stream(cs) + Ending(last) <= Arrived(ops)
  {
    MessageIndependent(p, ops, pending, cs, last, tail);
    var message, arrived := Stream(cs) + Ending(last), Arrived(ops);
    assert |message| <= |arrived|;
    assert arrived[..|message|] == (arrived + pending)[..|message|] == (message + tail)[..|message|] == message;
  }

  // ---- How many calls it takes -------------------------------------------------------------------

  /** Calls that are still needed, at most, once everything has arrived. */
  ghost function Needed(r: Progress, n: nat): int {
    if r.ended then 0
    else CallsNeeded(r.parser, if |r.out| <= n then n - |r.out| else 0) +
         if r.parser.state == ExpectLastEmptyChunk then 1 else 2
  }

  lemma EndProgress(r: Progress, cs: seq<Piece>, last: seq<byte>, tail: seq<byte>)
    requires Reading(r, [], cs, last, tail) && GoodLast(last) && !r.ended && |r.out| == |cs|
    ensures Needed(Fed(r, CallParse), |cs|) < Needed(r, |cs|)
  {
    var p, unread := r.parser, r.unread;
    assert unread + [] == unread && cs[|r.out|..] == [];
    EndStep(p, unread, [], last, tail);
    if p.state == ExpectLastEmptyChunk {
      EmptyLineStep(p, unread, [], tail);
    } else {
      NoChunkLeft(p, unread, [], Ending(last) + tail);
      LastLineStep(ClearedForNext(p), unread, [], last, tail);
    }
  }

  lemma ChunkProgress(r: Progress, cs: seq<Piece>, last: seq<byte>, tail: seq<byte>)
    requires Reading(r, [], cs, last, tail) && !r.ended && |r.out| < |cs|
    ensures Needed(Fed(r, CallParse), |cs|) < Needed(r, |cs|)
  {
    CallProgress(r.parser, r.unread, cs[|r.out|..], Ending(last) + tail);
  }

  /** Everything has arrived, and k calls since then have done their part. */
  ghost predicate OnTime(r: Progress, cs: seq<Piece>, last: seq<byte>, tail: seq<byte>, k: nat) {
    Reading(r, [], cs, last, tail) && (r.ended || Needed(r, |cs|) + k <= 2 * |cs| + 2)
  }

  lemma OnTimeStep(r: Progress, cs: seq<Piece>, last: seq<byte>, tail: seq<byte>, k: nat)
    requires OnTime(r, cs, last, tail, k) && GoodLast(last)
    ensures OnTime(Fed(r, CallParse), cs, last, tail, k + 1)
  {
    if !r.ended {
      CallStep(r, [], cs, last, tail);
      if |r.out| < |cs| { ChunkProgress(r, cs, last, tail); } else { EndProgress(r, cs, last, tail); }
    }
  }

  lemma {:induction false} CallsOnTime(p: Parser, ops: seq<Op>, m: nat, cs: seq<Piece>, last: seq<byte>,
                                       tail: seq<byte>)
    requires p.state == ExpectChunkLen && p.isChunked && p.chunk.None? && GoodPieces(cs) && GoodLast(last)
    requires m <= |ops| && OnlyCalls(ops, m) && Arrived(ops[..m]) == Stream(cs) + Ending(last) + tail
    ensures OnTime(MessageRun(p, ops), cs, last, tail, |ops| - m)
    decreases |ops|
  {
    if m < |ops| {
      var before := ops[..|ops| - 1];
      assert before[..m] == ops[..m] && ops == before + [CallParse];
      CallsOnTime(p, before, m, cs, last, tail);
      RunNext(p, ops, before);
      OnTimeStep(MessageRun(p, before), cs, last, tail, |before| - m);
    } else {
      assert ops[..m] == ops && Arrived(ops) + [] == Arrived(ops);
      MessageIndependent(p, ops, [], cs, last, tail);
      OnTimeAtFirst(MessageRun(p, ops), cs, last, tail);
    }
  }

  lemma RunNext(p: Parser, ops: seq<Op>, before: seq<Op>)
    requires ops == before + [CallParse]
    ensures MessageRun(p, ops) == Fed(MessageRun(p, before), CallParse)
  {
    assert ops[..|ops| - 1] == before;
  }

  lemma OnTimeAtFirst(r: Progress, cs: seq<Piece>, last: seq<byte>, tail: seq<byte>)
    requires Reading(r, [], cs, last, tail)
    ensures OnTime(r, cs, last, tail, 0)
  {
  }

  /** Once everything has arrived, two calls for each chunk and two more end the message. */
  lemma CallsEnd(p: Parser, ops: seq<Op>, m: nat, cs: seq<Piece>, last: seq<byte>, tail: seq<byte>)
    requires p.state == ExpectChunkLen && p.isChunked && p.chunk.None? && GoodPieces(cs) && GoodLast(last)
    requires m <= |ops| && OnlyCalls(ops, m) && Arrived(ops[..m]) == Stream(cs) + Ending(last) + tail
    requires |ops| - m >= 2 * |cs| + 2
    ensures var r := MessageRun(p, ops); r.ended && r.out == Datas(cs) && r.unread == tail
  {
    CallsOnTime(p, ops, m, cs, last, tail);
    var r := MessageRun(p, ops);
    assert r.unread + [] == r.unread;
  }

  // ---- What a reader sees --------------------------------------------------------------------------

  /** If this message arrives, the chunks delivered are its first ones; and if it has ended, it has arrived, all its
      chunks are delivered, and exactly what follows it is unread. */
  ghost predicate Told(ops: seq<Op>, out: seq<seq<byte>>, ended: bool, unread: seq<byte>,
                       cs: seq<Piece>, last: seq<byte>, tail: seq<byte>, pending: seq<byte>)
  {
    GoodPieces(cs) && GoodLast(last) && Arrived(ops) + pending == Stream(cs) + Ending(last) + tail ==>
      && out <= Datas(cs)
      && (ended ==> Stream(cs) + Ending(last) <= Arrived(ops) && out == Datas(cs) && unread + pending == tail)
  }

  /** If this message has arrived, two calls for each chunk and two more end it. */
  ghost predicate InTime(ops: seq<Op>, out: seq<seq<byte>>, ended: bool, unread: seq<byte>,
                         cs: seq<Piece>, last: seq<byte>, tail: seq<byte>, m: nat)
  {
    GoodPieces(cs) && GoodLast(last) && m + 2 * |cs| + 2 <= |ops| && OnlyCalls(ops, m) &&
    Arrived(ops[..m]) == Stream(cs) + Ending(last) + tail ==>
      ended && out == Datas(cs) && unread == tail
  }

  /** A new parser for chunks. */
  const START := Parser(ExpectChunkLen, -1, -1, false, true, None, false)

  lemma TellsOne(ops: seq<Op>, r: Progress, cs: seq<Piece>, last: seq<byte>, tail: seq<byte>, pending: seq<byte>)
    requires r == MessageRun(START, ops)
    ensures Told(ops, r.out, r.ended, r.unread, cs, last, tail, pending)
  {
    if GoodPieces(cs) && GoodLast(last) && Arrived(ops) + pending == Stream(cs) + Ending(last) + tail {
      MessageIndependent(START, ops, pending, cs, last, tail);
      if r.ended { NotBeforeItsEnd(START, ops, pending, cs, last, tail); }
    }
  }

  lemma EndsOne(ops: seq<Op>, r: Progress, cs: seq<Piece>, last: seq<byte>, tail: seq<byte>, m: nat)
    requires r == MessageRun(START, ops)
    ensures InTime(ops, r.out, r.ended, r.unread, cs, last, tail, m)
  {
    if GoodPieces(cs) && GoodLast(last) && m + 2 * |cs| + 2 <= |ops| && OnlyCalls(ops, m) &&
       Arrived(ops[..m]) == Stream(cs) + Ending(last) + tail
    {
      CallsEnd(START, ops, m, cs, last, tail);
    }
  }
}
