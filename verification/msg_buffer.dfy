/** A byte buffer with room at both ends: readable bytes lie between head and tail. */
module MsgBuffers {
  import opened Options
  import opened Bytes

  const BUFFER_OFFSET: nat := 8

  lemma WrittenInFront(s: seq<byte>, head: nat, tail: nat, data: seq<byte>)
    requires |data| <= head <= tail <= |s|
    ensures Overwrite(s, head - |data|, data)[head - |data|..tail] == data + s[head..tail]
  {
    var r := Overwrite(s, head - |data|, data);
    assert r[head - |data|..head] == data && r[head..] == s[head..];
    assert r[head - |data|..tail] == r[head - |data|..head] + r[head..tail];
    assert r[head..tail] == r[head..][..tail - head] && s[head..tail] == s[head..][..tail - head];
  }

  lemma ShiftedBack(s: seq<byte>, head: nat, readable: seq<byte>, data: seq<byte>)
    requires head + |data| + |readable| <= |s|
    ensures Overwrite(Overwrite(s, head + |data|, readable), head, data)[head..head + |data| + |readable|] ==
            data + readable
  {
    var a := Overwrite(s, head + |data|, readable);
    WrittenInFront(a, head + |data|, head + |data| + |readable|, data);
  }

  /** Size of the buffer once everything has been retrieved. */
  function SizeWhenEmptied(size: nat, initCap: nat): nat { if size > 2 * initCap then initCap else size }

  /** Emptying a new buffer leaves room for the head offset exactly when it was built for at least
      eight bytes. */
  lemma EmptiedFits(len: nat)
    ensures BUFFER_OFFSET <= SizeWhenEmptied(len + BUFFER_OFFSET, len) <==> len >= 8
  {
    if len < 8 { assert SizeWhenEmptied(len + BUFFER_OFFSET, len) == len; }
  }

  class MsgBuffer {
    var head: nat
    var tail: nat
    var initCap: nat
    var buffer: seq<byte>

    ghost predicate Valid()
      reads this
    {
      head <= tail <= |buffer| && BUFFER_OFFSET <= |buffer| && 8 <= initCap
    }

    /** The byte sequence the buffer stands for. */
    function Contents(): seq<byte>
      requires Valid()
      reads this
    { buffer[head..tail] }

    function ReadableBytes(): nat
      requires Valid()
      reads this
    { tail - head }

    function WritableBytes(): nat
      requires Valid()
      reads this
    { |buffer| - tail }

    constructor (len: nat)
      requires len >= 8
      ensures Valid() && Contents() == []
    {
      head, tail, initCap := BUFFER_OFFSET, BUFFER_OFFSET, len;
      buffer := seq(len + BUFFER_OFFSET, _ => 0);
    }

    /** Makes room by moving the readable bytes to the front or into a larger buffer. */
    method EnsureWritableBytes(len: nat)
      requires Valid()
      modifies this
      ensures Valid() && Contents() == old(Contents()) && WritableBytes() >= len
    {
      if WritableBytes() >= len { return; }
      var data := buffer[head..tail];
      if head + WritableBytes() >= len + BUFFER_OFFSET {
        buffer := Overwrite(buffer, BUFFER_OFFSET, data);
        tail := BUFFER_OFFSET + (tail - head);
        head := BUFFER_OFFSET;
        return;
      }
      var newLen := if 2 * |buffer| > BUFFER_OFFSET + ReadableBytes() + len then 2 * |buffer|
                    else BUFFER_OFFSET + ReadableBytes() + len;
      Reallocate(newLen, data);
    }

    /** Takes over the storage of a new buffer of the given length that holds data. */
    method Reallocate(newLen: nat, data: seq<byte>)
      requires newLen >= 8 && |data| <= newLen
      modifies this
      ensures Valid() && Contents() == data && |buffer| == newLen + BUFFER_OFFSET && tail == BUFFER_OFFSET + |data|
    {
      buffer := Overwrite(seq(newLen + BUFFER_OFFSET, _ => 0), BUFFER_OFFSET, data);
      head, tail, initCap := BUFFER_OFFSET, BUFFER_OFFSET + |data|, newLen;
    }

    method Append(data: seq<byte>)
      requires Valid()
      modifies this
      ensures Valid() && Contents() == old(Contents()) + data
    {
      EnsureWritableBytes(|data|);
      buffer := Overwrite(buffer, tail, data);
      tail := tail + |data|;
    }

    method AddInFront(data: seq<byte>)
      requires Valid()
      modifies this
      ensures Valid() && Contents() == data + old(Contents())
    {
      if head >= |data| {
        WriteBeforeHead(data);
      } else if |data| <= WritableBytes() {
        ShiftBack(data);
      } else {
        var readable := buffer[head..tail];
        Reallocate(if |data| + |readable| < initCap then initCap else |data| + |readable|, data + readable);
      }
    }

    method WriteBeforeHead(data: seq<byte>)
      requires Valid() && |data| <= head
      modifies this`buffer, this`head
      ensures Valid() && Contents() == data + old(Contents())
    {
      WrittenInFront(buffer, head, tail, data);
      buffer := Overwrite(buffer, head - |data|, data);
      head := head - |data|;
    }

    method ShiftBack(data: seq<byte>)
      requires Valid() && |data| <= WritableBytes()
      modifies this`buffer, this`tail
      ensures Valid() && Contents() == data + old(Contents())
    {
      ghost var readable := buffer[head..tail];
      ShiftedBack(buffer, head, readable, data);
      buffer := Overwrite(buffer, head + |data|, buffer[head..tail]);
      buffer := Overwrite(buffer, head, data);
      tail := tail + |data|;
      assert buffer[head..tail] == data + readable;
    }

    /** Writes of n-byte integers, in network order. */
    method AppendInt(v: nat, n: nat)
      requires Valid()
      modifies this
      ensures Valid() && Contents() == old(Contents()) + BigEndian(v, n)
    {
      Append(BigEndian(v, n));
    }

    method AddInFrontInt(v: nat, n: nat)
      requires Valid()
      modifies this
      ensures Valid() && Contents() == BigEndian(v, n) + old(Contents())
    {
      AddInFront(BigEndian(v, n));
    }

    method PeekInt(n: nat) returns (v: nat)
      requires Valid() && n <= |Contents()|
      ensures v == Value(Contents()[..n])
      ensures forall w: nat :: w < Pow256(n) && BigEndian(w, n) <= Contents() ==> v == w
    {
      v := Value(buffer[head..head + n]);
      assert buffer[head..head + n] == Contents()[..n];
      forall w: nat | w < Pow256(n) && BigEndian(w, n) <= Contents() ensures v == w {
        ReadWrite(w, n);
        assert BigEndian(w, n) == Contents()[..n];
      }
    }

    /** An integer that was written is read back, and only its bytes are taken. */
    method ReadInt(n: nat) returns (v: nat)
      requires Valid() && n <= |Contents()|
      modifies this
      ensures Valid() && Contents() == old(Contents())[n..] && v == Value(old(Contents())[..n])
      ensures forall w: nat :: w < Pow256(n) && BigEndian(w, n) <= old(Contents()) ==> v == w
    {
      v := PeekInt(n);
      Retrieve(n);
    }

    method Retrieve(len: nat)
      requires Valid()
      modifies this
      ensures Valid() && Contents() == if len <= |old(Contents())| then old(Contents())[len..] else []
    {
      if len >= ReadableBytes() {
        RetrieveAll();
        return;
      }
      head := head + len;
    }

    method RetrieveAll()
      requires Valid()
      modifies this
      ensures Valid() && Contents() == []
    {
      if |buffer| > initCap * 2 { buffer := buffer[..initCap]; }
      head, tail := BUFFER_OFFSET, BUFFER_OFFSET;
    }

    method Read(len: nat) returns (data: seq<byte>)
      requires Valid()
      modifies this
      ensures Valid() && data + Contents() == old(Contents())
      ensures |data| == if len <= |old(Contents())| then len else |old(Contents())|
    {
      var n := if len > ReadableBytes() then ReadableBytes() else len;
      data := buffer[head..head + n];
      ghost var all := Contents();
      assert data == all[..n] && all == all[..n] + all[n..];
      Retrieve(n);
    }

    /** Offset of the first CR LF among the readable bytes. */
    method FindCRLF() returns (at: Option<nat>)
      requires Valid()
      ensures at.Some? ==> FirstCrLf(Contents(), at.value)
      ensures at.None? ==> NoCrLf(Contents())
    {
      var i := head;
      while i + 1 < tail
        invariant head <= i && (i <= tail || i == head)
        invariant forall j :: 0 <= j < i - head && j + 1 < tail - head ==>
                                !(Contents()[j] == CR && Contents()[j + 1] == LF)
      {
        if buffer[i] == CR && buffer[i + 1] == LF {
          assert Contents()[i - head] == CR && Contents()[i - head + 1] == LF;
          return Some(i - head);
        }
        i := i + 1;
      }
      at := None;
    }
  }
}
