/** Packets carried over TCP, each behind a big-endian length of two bytes (section 2 of RFC 4571), and
    the buffer that carries the bytes of an unfinished packet from one read to the next. */
module Deframing {
  import opened Bytes

  const READ_CAPACITY: nat := 8388608
  const CARRY_LIMIT: nat := 32769

  // ---- The wire format -----------------------------------------------------------

  function Encode(payload: seq<byte>): seq<byte>
    requires |payload| < 65536
  { [|payload| / 256, |payload| % 256] + payload }

  ghost predicate Short(ps: seq<seq<byte>>) { forall i :: 0 <= i < |ps| ==> |ps[i]| < 32768 }

  ghost function EncodeAll(ps: seq<seq<byte>>): seq<byte>
    requires Short(ps)
  { if ps == [] then [] else Encode(ps[0]) + EncodeAll(ps[1..]) }

  /** The length field at the start of s, unsigned, and as the signed 16-bit number the session reads. */
  function Length(s: seq<byte>): (n: nat)
    requires |s| >= 2
    ensures n < 65536
  { s[0] as nat * 256 + s[1] as nat }

  function SignedLength(s: seq<byte>): int
    requires |s| >= 2
  { if Length(s) < 32768 then Length(s) else Length(s) - 65536 }

  // ---- Specification -----------------------------------------------------------------

  /** A packet with a length below 2^15 is complete at the front of s, with something in it or behind it. */
  predicate Takes(s: seq<byte>) { |s| > 2 && s[0] < 128 && |s| >= Length(s) + 2 }

  /** The packets taken from s and the bytes left over. */
  function Deframe(s: seq<byte>): (r: (seq<seq<byte>>, seq<byte>))
    decreases |s|
  {
    if Takes(s) then
      var (ps, rest) := Deframe(s[Length(s) + 2..]);
      ([s[2..Length(s) + 2]] + ps, rest)
    else ([], s)
  }

  /** No length field with its top bit set is reached. */
  predicate Clean(s: seq<byte>) { var rest := Deframe(s).1; |rest| > 2 ==> rest[0] < 128 }

  /** One packet in front of more bytes is taken, and the rest is deframed as before. */
  lemma TakeOne(p: seq<byte>, more: seq<byte>)
    requires |p| < 32768 && |p| + |more| > 0
    ensures Deframe(Encode(p) + more) == ([p] + Deframe(more).0, Deframe(more).1)
  {
    var s := Encode(p) + more;
    assert Length(s) == |p|;
    assert s[2..|p| + 2] == p && s[|p| + 2..] == more;
  }

  /** A length field and the bytes it counts are a packet. */
  lemma EncodeSplit(s: seq<byte>, n: nat)
    requires 2 <= |s| && n == Length(s) + 2 <= |s|
    ensures s == Encode(s[2..n]) + s[n..]
  {
    var p := s[2..n];
    assert |p| / 256 == s[0] && |p| % 256 == s[1];
  }

  lemma EncodeAllNext(p: seq<byte>, ps: seq<seq<byte>>, rest: seq<byte>)
    requires |p| < 32768 && Short(ps)
    ensures EncodeAll([p] + ps) + rest == Encode(p) + (EncodeAll(ps) + rest)
  {
    assert ([p] + ps)[1..] == ps;
  }

  /** Nothing is lost or added: the packets' encodings and what is left over are the bytes received. */
  lemma {:induction false} DeframeConserves(s: seq<byte>)
    ensures Short(Deframe(s).0) && EncodeAll(Deframe(s).0) + Deframe(s).1 == s
    decreases |s|
  {
    if Takes(s) {
      var n := Length(s) + 2;
      DeframeConserves(s[n..]);
      EncodeAllNext(s[2..n], Deframe(s[n..]).0, Deframe(s).1);
      EncodeSplit(s, n);
    } else {
      assert EncodeAll([]) + s == s;
    }
  }

  /** What is left over is short, and is no complete packet, unless an empty one with nothing behind it. */
  lemma {:induction false} DeframeResidue(s: seq<byte>)
    ensures !Takes(Deframe(s).1) && (Clean(s) ==> |Deframe(s).1| <= CARRY_LIMIT)
    decreases |s|
  {
    if Takes(s) { DeframeResidue(s[Length(s) + 2..]); }
  }

  lemma PacketIsTaken(rest: seq<byte>, p: seq<byte>)
    requires 0 < |p| < 32768
    ensures Encode(p) <= rest ==> Takes(rest)
  {
    if Encode(p) <= rest { assert rest[0] == Encode(p)[0] && rest[1] == Encode(p)[1]; }
  }

  lemma HeadOfSum(a: seq<byte>, b: seq<byte>, n: nat)
    requires 2 < |a| && 2 <= n <= |a|
    ensures Length(a + b) == Length(a) && (a + b)[2..n] == a[2..n] && (a + b)[n..] == a[n..] + b
  {
    assert (a + b)[0] == a[0] && (a + b)[1] == a[1];
  }

  /** Cutting the stream changes nothing: what is left over of the first part, put before the second,
      gives the packets and the rest that the whole gives. */
  lemma {:induction false} DeframeCut(a: seq<byte>, b: seq<byte>)
    ensures Deframe(a + b).0 == Deframe(a).0 + Deframe(Deframe(a).1 + b).0
    ensures Deframe(a + b).1 == Deframe(Deframe(a).1 + b).1
    decreases |a|
  {
    if Takes(a) {
      var n := Length(a) + 2;
      HeadOfSum(a, b, n);
      DeframeNext(a, n);
      DeframeNext(a + b, n);
      DeframeCut(a[n..], b);
      Associates([a[2..n]], Deframe(a[n..]).0, Deframe(Deframe(a[n..]).1 + b).0);
    }
  }

  /** The packet in front is taken. */
  lemma DeframeNext(s: seq<byte>, n: nat)
    requires Takes(s) && n == Length(s) + 2
    ensures Deframe(s).0 == [s[2..n]] + Deframe(s[n..]).0 && Deframe(s).1 == Deframe(s[n..]).1
  {
  }

  lemma Associates<T>(a: seq<T>, b: seq<T>, c: seq<T>)
    ensures a + (b + c) == a + b + c
  {
  }

  lemma CleanPrefix(a: seq<byte>, b: seq<byte>)
    requires Clean(a + b)
    ensures Clean(a)
  {
    DeframeCut(a, b);
  }

  /** The last packet sent is empty, so that nothing behind it shows that it is complete. */
  ghost predicate LastEmpty(ps: seq<seq<byte>>) { ps != [] && ps[|ps| - 1] == [] }

  /** The packets that are given out of those sent. */
  ghost function Shown(ps: seq<seq<byte>>): seq<seq<byte>> { if LastEmpty(ps) then ps[..|ps| - 1] else ps }

  lemma ShownNext(p: seq<byte>, ps: seq<seq<byte>>)
    requires p != [] || ps != []
    ensures Shown([p] + ps) == [p] + Shown(ps) && LastEmpty([p] + ps) == LastEmpty(ps)
  {
    var all := [p] + ps;
    if ps != [] { assert all[|all| - 1] == ps[|ps| - 1] && all[..|all| - 1] == [p] + ps[..|ps| - 1]; }
  }

  /** The bytes s give exactly the packets shown of ps. */
  ghost predicate Gives(s: seq<byte>, ps: seq<seq<byte>>) {
    Deframe(s).0 == Shown(ps) && Deframe(s).1 == if LastEmpty(ps) then [0, 0] else []
  }

  lemma GivesNext(p: seq<byte>, s: seq<byte>, ps: seq<seq<byte>>)
    requires |p| < 32768 && |p| + |s| > 0 && Gives(s, ps) && (p != [] || ps != [])
    ensures Gives(Encode(p) + s, [p] + ps)
  {
    TakeOne(p, s);
    ShownNext(p, ps);
  }

  lemma GivesEmptyPacket()
    ensures Gives([0, 0], [[]])
  {
    assert Shown([[]]) == [];
  }

  /** Packets that were sent come out, in order: all of them, unless the last is empty and nothing
      follows it yet. */
  lemma {:induction false} DeframeEncoded(ps: seq<seq<byte>>)
    requires Short(ps)
    ensures Gives(EncodeAll(ps), ps) && (ps != [] ==> |EncodeAll(ps)| > 1)
    decreases |ps|
  {
    if ps != [] {
      var p, others := ps[0], ps[1..];
      DeframeEncoded(others);
      assert ps == [p] + others;
      if p == [] && others == [] {
        GivesEmptyPacket();
        assert EncodeAll(ps) == [0, 0];
      } else {
        GivesNext(p, EncodeAll(others), others);
      }
    }
  }

  /** The loop takes what is in front, and the position it goes on from. */
  predicate LoopTakes(s: seq<byte>) { |s| > 2 && |s| >= SignedLength(s) + 2 }

  function Advance(s: seq<byte>): int
    requires LoopTakes(s)
  { 2 + SignedLength(s) }

  /** The loop steps over exactly the packet announced if and only if the top bit of its length is clear;
      otherwise it moves on by at most one byte, for some lengths backwards or not at all. */
  lemma StepsOverPacket(s: seq<byte>)
    requires LoopTakes(s)
    ensures Takes(s) <==> Advance(s) == 2 + Length(s)
    ensures !Takes(s) ==> Advance(s) <= 1
    ensures Length(s) == 65534 <==> Advance(s) == 0
  {
  }

  /** A length of 65534 at the front: the loop takes it and stands still. */
  lemma LoopStandsStill()
    ensures LoopTakes([255, 254, 0]) && Advance([255, 254, 0]) == 0 && !Clean([255, 254, 0])
  {
    assert Length([255, 254, 0]) == 65534;
    assert Deframe([255, 254, 0]) == ([], [255, 254, 0]);
  }

  // ---- The session -----------------------------------------------------------------------

  /** The packets taken before position i, and what the rest of the buffer gives, are what all of it gives. */
  ghost predicate Parsed(buffer: seq<byte>, i: nat, packets: seq<seq<byte>>) {
    && i <= |buffer|
    && Deframe(buffer).0 == packets + Deframe(buffer[i..]).0 && Deframe(buffer).1 == Deframe(buffer[i..]).1
  }

  lemma ParsedNext(buffer: seq<byte>, i: nat, packets: seq<seq<byte>>)
    requires Parsed(buffer, i, packets) && Takes(buffer[i..])
    ensures var j := i + 2 + Length(buffer[i..]);
            i + 2 <= j <= |buffer| && Parsed(buffer, j, packets + [buffer[i + 2..j]])
  {
    var s := buffer[i..];
    var n := Length(s) + 2;
    assert s[n..] == buffer[i + n..] && s[2..n] == buffer[i + 2..i + n];
    DeframeNext(s, n);
    Associates(packets, [s[2..n]], Deframe(s[n..]).0);
  }

  lemma ParsedFirst(buffer: seq<byte>)
    ensures Parsed(buffer, 0, [])
  {
    assert buffer[0..] == buffer;
  }

  /** Where no length has its top bit set, the loop goes on exactly if there is a packet to take, */
  lemma ParsedTakes(buffer: seq<byte>, i: nat, packets: seq<seq<byte>>)
    requires Parsed(buffer, i, packets) && Clean(buffer) && |buffer| - i > 2
    ensures var s := buffer[i..]; Takes(s) <==> |s| >= SignedLength(s) + 2
    ensures var s := buffer[i..]; Takes(s) ==> SignedLength(s) == Length(s)
  {
    var s := buffer[i..];
    if !Takes(s) { assert Deframe(s).1 == s; }
  }

  /** and ends with everything deframed. */
  lemma ParsedAll(buffer: seq<byte>, i: nat, packets: seq<seq<byte>>)
    requires Parsed(buffer, i, packets) && !Takes(buffer[i..])
    ensures packets == Deframe(buffer).0 && buffer[i..] == Deframe(buffer).1
  {
    assert packets + [] == packets;
  }

  class Session {
    var recvBuffer: seq<byte>

    constructor ()
      ensures recvBuffer == []
    {
      recvBuffer := [];
    }

    /** One read: the bytes carried over and those that arrive, packet by packet. */
    method OnRead(incoming: seq<byte>) returns (packets: seq<seq<byte>>)
      requires |recvBuffer| + |incoming| <= READ_CAPACITY && Clean(recvBuffer + incoming)
      modifies this
      ensures packets == Deframe(old(recvBuffer) + incoming).0
      ensures recvBuffer == Deframe(old(recvBuffer) + incoming).1
    {
      var buffer := recvBuffer + incoming;
      recvBuffer := [];
      packets := [];
      var parsed := 0;
      ParsedFirst(buffer);
      while |buffer| - parsed > 2
        invariant 0 <= parsed <= |buffer| && Parsed(buffer, parsed, packets) && recvBuffer == []
      {
        ParsedTakes(buffer, parsed, packets);
        var payloadSize := SignedLength(buffer[parsed..]);
        if |buffer| - parsed < payloadSize + 2 { break; }
        ParsedNext(buffer, parsed, packets);
        parsed := parsed + 2;
        packets := packets + [buffer[parsed..parsed + payloadSize]];
        parsed := parsed + payloadSize;
      }
      ParsedAll(buffer, parsed, packets);
      if |buffer| - parsed > 0 { recvBuffer := buffer[parsed..]; }
      assert recvBuffer == buffer[parsed..];
    }
  }

  ghost function Concat(segments: seq<seq<byte>>): seq<byte> {
    if segments == [] then [] else Concat(segments[..|segments| - 1]) + segments[|segments| - 1]
  }

  lemma {:induction false} ConcatPrefix(segments: seq<seq<byte>>, m: nat)
    requires m <= |segments|
    ensures Concat(segments[..m]) <= Concat(segments)
    decreases |segments|
  {
    if m < |segments| {
      ConcatPrefix(segments[..|segments| - 1], m);
      assert segments[..|segments| - 1][..m] == segments[..m];
    } else {
      assert segments[..m] == segments;
    }
  }

  lemma ConcatNext(segments: seq<seq<byte>>, i: nat)
    requires i < |segments|
    ensures Concat(segments[..i + 1]) == Concat(segments[..i]) + segments[i]
  {
    assert segments[..i + 1][..i] == segments[..i];
  }

  lemma RunStep(before: seq<byte>, segment: seq<byte>, all: seq<byte>)
    requires before + segment <= all && Clean(all)
    ensures Clean(before) && Clean(Deframe(before).1 + segment)
    ensures |Deframe(before).1| <= CARRY_LIMIT
    ensures Deframe(before + segment).0 == Deframe(before).0 + Deframe(Deframe(before).1 + segment).0
    ensures Deframe(before + segment).1 == Deframe(Deframe(before).1 + segment).1
  {
    assert Clean(before + segment) by {
      var after := before + segment;
      assert all == after + all[|after|..];
      CleanPrefix(after, all[|after|..]);
    }
    DeframeCut(before, segment);
    DeframeResidue(before);
  }

  /** A whole connection: the packets handed on and the bytes carried over depend only on the bytes
      received, not on how they were cut; together they are those bytes. */
  method Run(segments: seq<seq<byte>>) returns (packets: seq<seq<byte>>, carry: seq<byte>)
    requires Clean(Concat(segments))
    requires forall i :: 0 <= i < |segments| ==> |segments[i]| <= READ_CAPACITY - CARRY_LIMIT
    ensures packets == Deframe(Concat(segments)).0 && carry == Deframe(Concat(segments)).1
    ensures Short(packets) && EncodeAll(packets) + carry == Concat(segments)
    ensures forall p :: 0 < |p| < 32768 ==> !(Encode(p) <= carry)
    ensures forall ps :: Short(ps) && EncodeAll(ps) == Concat(segments) ==>
                           packets == Shown(ps)
  {
    var session := new Session();
    packets := [];
    for i := 0 to |segments|
      invariant Clean(Concat(segments[..i]))
      invariant packets == Deframe(Concat(segments[..i])).0 && session.recvBuffer == Deframe(Concat(segments[..i])).1
    {
      ConcatNext(segments, i);
      ConcatPrefix(segments, i + 1);
      RunStep(Concat(segments[..i]), segments[i], Concat(segments));
      var more := session.OnRead(segments[i]);
      packets := packets + more;
    }
    assert segments[..|segments|] == segments;
    carry := session.recvBuffer;
    DeframeConserves(Concat(segments));
    DeframeResidue(Concat(segments));
    forall p: seq<byte> | 0 < |p| < 32768 ensures !(Encode(p) <= carry) { PacketIsTaken(carry, p); }
    forall ps | Short(ps) && EncodeAll(ps) == Concat(segments)
      ensures packets == Shown(ps)
    {
      DeframeEncoded(ps);
    }
  }
}
