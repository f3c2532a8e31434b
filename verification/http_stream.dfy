/** A body without an announced length: it is delivered in packets of 64 KiB. */
module HttpStream {
  import opened Bytes
  import opened HttpBody

  /** The parser, what it has not read, and the packets delivered. */
  datatype Flow = Flow(parser: Parser, unread: seq<byte>, out: seq<seq<byte>>)

  ghost function Fed(r: Flow, op: Op): Flow {
    match op
    case Arrive(bytes) => r.(unread := r.unread + bytes)
    case CallParse =>
      var (q, rest) := Parse(r.parser, r.unread);
      var full := r.unread != [] && q.state == ExpectChunkComplete && q.chunk.Some?;
      Flow(q, rest, if full then r.out + [q.chunk.value.data] else r.out)
  }

  ghost function FlowRun(p: Parser, ops: seq<Op>): Flow {
    if ops == [] then Flow(p, [], []) else Fed(FlowRun(p, ops[..|ops| - 1]), ops[|ops| - 1])
  }

  ghost function Joined(out: seq<seq<byte>>): seq<byte> {
    if out == [] then [] else Joined(out[..|out| - 1]) + out[|out| - 1]
  }

  /** What the packet holds that is being filled. */
  function Held(p: Parser): seq<byte> {
    if p.state == ExpectStreamBody && p.chunk.Some? then p.chunk.value.data else []
  }

  ghost predicate InStream(p: Parser) {
    && p.isStream && !p.isChunked && (p.state == ExpectStreamBody || p.state == ExpectChunkComplete)
    && (p.state == ExpectStreamBody && p.chunk.Some? ==>
          p.chunk.value.capacity == MAX_BODY_SIZE && p.chunk.value.Space() > 0)
  }

  /** The packets delivered are full, and with what is held and unread they are all that has arrived. */
  ghost predicate Flows(r: Flow, arrived: seq<byte>) {
    && InStream(r.parser) && (forall i :: 0 <= i < |r.out| ==> |r.out[i]| == MAX_BODY_SIZE)
    && Joined(r.out) + Held(r.parser) + r.unread == arrived
  }

  /** One call on something unread fills the packet, and delivers it exactly when it is full. */
  lemma FillStep(p: Parser, unread: seq<byte>)
    requires InStream(p) && unread != []
    ensures var (q, rest) := Parse(p, unread);
            && InStream(q) && q.chunk.Some?
            && (q.state == ExpectChunkComplete ==> |q.chunk.value.data| == MAX_BODY_SIZE)
            && (q.state == ExpectStreamBody ==> rest == [])
            && q.chunk.value.data + rest == Held(p) + unread
  {
    var c := ClearedForNext(p);
    assert c.state == ExpectStreamBody;
    var packet := PacketFor(c, MAX_BODY_SIZE);
    assert packet.data == Held(p);
    var (f, rest) := Filled(packet, unread);
    assert f.data + rest == packet.data + unread;
  }

  lemma CallStep(r: Flow, arrived: seq<byte>)
    requires Flows(r, arrived)
    ensures Flows(Fed(r, CallParse), arrived)
  {
    if r.unread != [] {
      FillStep(r.parser, r.unread);
      var s := Fed(r, CallParse);
      var data := s.parser.chunk.value.data;
      assert Joined(r.out) + (data + s.unread) == arrived by {
        assert Joined(r.out) + (Held(r.parser) + r.unread) == Joined(r.out) + Held(r.parser) + r.unread;
      }
      if s.parser.state == ExpectChunkComplete {
        assert s.out[..|r.out|] == r.out;
        assert Joined(s.out) + [] + s.unread == Joined(r.out) + (data + s.unread);
      } else {
        assert Joined(s.out) + data + s.unread == Joined(r.out) + (data + s.unread);
      }
    }
  }

  lemma ArriveStep(r: Flow, bytes: seq<byte>, arrived: seq<byte>)
    requires Flows(r, arrived)
    ensures Flows(Fed(r, Arrive(bytes)), arrived + bytes)
  {
    assert Joined(r.out) + Held(r.parser) + (r.unread + bytes) == Joined(r.out) + Held(r.parser) + r.unread + bytes;
  }

  /** For every way the bytes arrive and every choice of calls, the packets delivered are full, and nothing is lost,
      added or moved. */
  lemma {:induction false} StreamIndependent(p: Parser, ops: seq<Op>)
    requires InStream(p) && p.state == ExpectStreamBody && p.chunk.None?
    ensures Flows(FlowRun(p, ops), Arrived(ops))
  {
    if ops != [] {
      var l := |ops| - 1;
      StreamIndependent(p, ops[..l]);
      match ops[l] {
        case Arrive(bytes) => ArriveStep(FlowRun(p, ops[..l]), bytes, Arrived(ops[..l]));
        case CallParse =>
          CallStep(FlowRun(p, ops[..l]), Arrived(ops[..l]));
          assert Arrived(ops) == Arrived(ops[..l]) + [] == Arrived(ops[..l]);
      }
    }
  }
}
