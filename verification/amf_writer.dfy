/** The AMF 0 writers, storing into a byte buffer through an advancing position, and the round trip
    through the reader. A writer that lacks room gives no position. */
module AmfWriter {
  import opened Options
  import opened Bytes
  import opened AmfValues
  import opened AmfLemmas
  import AmfReader

  /** s was written at ptr, and nothing else changed. */
  ghost predicate Wrote(before: seq<byte>, after: seq<byte>, ptr: nat, s: seq<byte>) {
    ptr + |s| <= |before| && after == Overwrite(before, ptr, s)
  }

  lemma WroteBoth(x: seq<byte>, y: seq<byte>, z: seq<byte>, ptr: nat, s: seq<byte>, t: seq<byte>)
    requires Wrote(x, y, ptr, s) && Wrote(y, z, ptr + |s|, t)
    ensures Wrote(x, z, ptr, s + t)
  {
    OverwriteTwice(x, ptr, s, t);
  }

  /** Copies s into the buffer. */
  method Copy(a: array<byte>, ptr: nat, s: seq<byte>)
    requires ptr + |s| <= a.Length
    modifies a
    ensures Wrote(old(a[..]), a[..], ptr, s)
  {
    forall i | 0 <= i < |s| { a[ptr + i] := s[i]; }
    assert a[..] == Overwrite(old(a[..]), ptr, s);
  }

  /** A writer of s: it writes all of it and gives the position behind it, or there is no room, and it does
      nothing. */
  ghost predicate Writes(before: seq<byte>, after: seq<byte>, ptr: nat, end: nat, s: seq<byte>, r: Option<nat>) {
    if ptr + |s| <= end then r == Some(ptr + |s|) && Wrote(before, after, ptr, s) else r == None && after == before
  }

  method WriteInt16(a: array<byte>, ptr: nat, end: nat, value: nat) returns (r: Option<nat>)
    requires end <= a.Length
    modifies a
    ensures Writes(old(a[..]), a[..], ptr, end, BigEndian(value, 2), r)
  {
    if ptr + 2 > end { return None; }
    a[ptr] := value / 256 % 256;
    a[ptr + 1] := value % 256;
    assert BigEndian(value / 256, 1) == BigEndian(value / 256 / 256, 0) + [value / 256 % 256];
    assert BigEndian(value, 2) == [value / 256 % 256, value % 256];
    assert a[..] == Overwrite(old(a[..]), ptr, BigEndian(value, 2));
    return Some(ptr + 2);
  }

  lemma BigEndian4(value: nat)
    ensures BigEndian(value, 4) == BigEndian(value / 65536, 2) + BigEndian(value, 2)
  {
    assert value / 256 / 256 == value / 65536;
    assert BigEndian(value, 4) == BigEndian(value / 256, 3) + [value % 256];
    assert BigEndian(value / 256, 3) == BigEndian(value / 256 / 256, 2) + [value / 256 % 256];
    assert BigEndian(value / 256, 1) == BigEndian(value / 256 / 256, 0) + [value / 256 % 256];
    assert BigEndian(value, 2) == [value / 256 % 256, value % 256];
  }

  lemma BigEndian8(value: nat)
    ensures BigEndian(value, 8) == BigEndian(value / 0x1_0000_0000, 4) + BigEndian(value, 4)
  {
    var a, b, c := value / 256, value / 65536, value / 0x100_0000;
    assert a / 256 == b && b / 256 == c && c / 256 == value / 0x1_0000_0000;
    assert BigEndian(c, 5) == BigEndian(c / 256, 4) + [c % 256];
    assert BigEndian(b, 6) == BigEndian(c / 256, 4) + [c % 256, b % 256];
    assert BigEndian(value, 8) == BigEndian(c / 256, 4) + [c % 256, b % 256, a % 256, value % 256];
    assert BigEndian(c, 1) == [c % 256];
    assert BigEndian(b, 2) == [c % 256, b % 256];
    assert BigEndian(value, 4) == [c % 256, b % 256, a % 256, value % 256];
  }

  method WriteInt32(a: array<byte>, ptr: nat, end: nat, value: nat) returns (r: Option<nat>)
    requires end <= a.Length
    modifies a
    ensures Writes(old(a[..]), a[..], ptr, end, BigEndian(value, 4), r)
  {
    if ptr + 4 > end { return None; }
    var _ := WriteInt16(a, ptr, end, value / 65536);
    ghost var middle := a[..];
    var _ := WriteInt16(a, ptr + 2, end, value);
    WroteBoth(old(a[..]), middle, a[..], ptr, BigEndian(value / 65536, 2), BigEndian(value, 2));
    BigEndian4(value);
    return Some(ptr + 4);
  }

  /** A string behind its length of two or four bytes; a length that does not fit is cut off. */
  method WriteChars(a: array<byte>, ptr: nat, end: nat, s: seq<byte>, wide: bool) returns (r: Option<nat>)
    requires end <= a.Length
    modifies a
    ensures Writes(old(a[..]), a[..], ptr, end, BigEndian(|s|, if wide then 4 else 2) + s, r)
  {
    var width := if wide then 4 else 2;
    if ptr + width + |s| > end { return None; }
    if wide {
      var _ := WriteInt32(a, ptr, end, |s|);
    } else {
      var _ := WriteInt16(a, ptr, end, |s|);
    }
    ghost var middle := a[..];
    Copy(a, ptr + width, s);
    WroteBoth(old(a[..]), middle, a[..], ptr, BigEndian(|s|, width), s);
    return Some(ptr + width + |s|);
  }

  /** The bytes of a value with its type. */
  function Typed(v: Value): seq<byte> { [Kind(v)] + Body(v) }

  method WriteBoolean(a: array<byte>, ptr: nat, end: nat, value: byte) returns (r: Option<nat>)
    requires end <= a.Length
    modifies a
    ensures Writes(old(a[..]), a[..], ptr, end, Typed(Boolean(value != 0)), r)
  {
    if ptr + 2 > end { return None; }
    a[ptr] := BOOLEAN;
    a[ptr + 1] := if 0 == value then 0 else 1;
    assert a[..] == Overwrite(old(a[..]), ptr, Typed(Boolean(value != 0)));
    return Some(ptr + 2);
  }

  method WriteDouble(a: array<byte>, ptr: nat, end: nat, bits: nat) returns (r: Option<nat>)
    requires end <= a.Length
    modifies a
    ensures Writes(old(a[..]), a[..], ptr, end, Typed(Number(bits)), r)
  {
    if ptr + 9 > end { return None; }
    Copy(a, ptr, [NUMBER]);
    ghost var one := a[..];
    var _ := WriteInt32(a, ptr + 1, end, bits / 0x1_0000_0000);
    ghost var two := a[..];
    var _ := WriteInt32(a, ptr + 5, end, bits);
    WroteBoth(one, two, a[..], ptr + 1, BigEndian(bits / 0x1_0000_0000, 4), BigEndian(bits, 4));
    BigEndian8(bits);
    WroteBoth(old(a[..]), one, a[..], ptr, [NUMBER], BigEndian(bits, 8));
    return Some(ptr + 9);
  }

  method WriteString(a: array<byte>, ptr: nat, end: nat, s: seq<byte>) returns (r: Option<nat>)
    requires end <= a.Length
    modifies a
    ensures |s| < 0x1_0000_0000 ==> Writes(old(a[..]), a[..], ptr, end, Typed(Text(s)), r)
    ensures |s| >= 0x1_0000_0000 ==> r == None && a[..] == old(a[..])
  {
    var wide := |s| >= 65536;
    if ptr + 1 + (if wide then 4 else 2) + |s| > end || |s| >= 0x1_0000_0000 { return None; }
    Copy(a, ptr, [if wide then LONG_STRING else STRING]);
    ghost var middle := a[..];
    var p := WriteChars(a, ptr + 1, end, s, wide);
    WroteBoth(old(a[..]), middle, a[..], ptr, [Kind(Text(s))], Body(Text(s)));
    return p;
  }

  function Property(p: Prop): seq<byte> { Name(p.name) + Typed(p.value) }

  predicate IsSimple(v: Value) { v.Number? || v.Boolean? || (v.Text? && |v.s| < 0x1_0000_0000) }

  method WriteValue(a: array<byte>, ptr: nat, end: nat, v: Value) returns (r: Option<nat>)
    requires end <= a.Length && IsSimple(v)
    modifies a
    ensures Writes(old(a[..]), a[..], ptr, end, Typed(v), r)
  {
    if v.Number? {
      r := WriteDouble(a, ptr, end, v.bits);
    } else if v.Boolean? {
      r := WriteBoolean(a, ptr, end, if v.b then 1 else 0);
    } else {
      r := WriteString(a, ptr, end, v.s);
    }
  }

  /** Room that a named value is asked to have before its name is written: enough, but for a long string. */
  function Asked(p: Prop): nat {
    2 + |p.name| + if p.value.Text? then 3 + |p.value.s| else if p.value.Boolean? then 2 else 9
  }

  lemma AskedFits(p: Prop)
    requires IsSimple(p.value)
    ensures 2 + |p.name| <= Asked(p) <= |Property(p)| && |Name(p.name)| == 2 + |p.name|
  {
  }

  /** Nothing before ptr or behind end changed. */
  ghost predicate Kept(x: seq<byte>, y: seq<byte>, ptr: nat, end: nat) {
    ptr <= end <= |x| == |y| && y[..ptr] == x[..ptr] && y[end..] == x[end..]
  }

  /** A writer of s that, without room for all of it, may have written part of it, but nothing outside the room. */
  ghost predicate WritesOrKeeps(x: seq<byte>, y: seq<byte>, ptr: nat, end: nat, s: seq<byte>, r: Option<nat>) {
    if ptr + |s| <= end then r == Some(ptr + |s|) && Wrote(x, y, ptr, s) else r == None && Kept(x, y, ptr, end)
  }

  lemma WritesBoth(x: seq<byte>, y: seq<byte>, z: seq<byte>, ptr: nat, end: nat, s: seq<byte>, t: seq<byte>,
                   r: Option<nat>)
    requires end <= |x| && ptr + |s| <= end && Wrote(x, y, ptr, s) && Writes(y, z, ptr + |s|, end, t, r)
    ensures WritesOrKeeps(x, z, ptr, end, s + t, r)
  {
    if r.Some? { WroteBoth(x, y, z, ptr, s, t); } else { NothingOutside(x, y, ptr, s, end); }
  }

  method WriteNamed(a: array<byte>, ptr: nat, end: nat, p: Prop) returns (r: Option<nat>)
    requires end <= a.Length && ptr <= end && IsSimple(p.value)
    modifies a
    ensures WritesOrKeeps(old(a[..]), a[..], ptr, end, Property(p), r)
  {
    AskedFits(p);
    if ptr + Asked(p) > end { return None; }
    ghost var name := Name(p.name);
    var _ := WriteChars(a, ptr, end, p.name, false);
    assert Wrote(old(a[..]), a[..], ptr, name);
    ghost var middle := a[..];
    r := WriteValue(a, ptr + 2 + |p.name|, end, p.value);
    WritesBoth(old(a[..]), middle, a[..], ptr, end, name, Typed(p.value), r);
  }

  lemma NothingOutside(x: seq<byte>, y: seq<byte>, ptr: nat, s: seq<byte>, end: nat)
    requires Wrote(x, y, ptr, s) && ptr + |s| <= end <= |x|
    ensures Kept(x, y, ptr, end)
  {
    assert y[end..] == y[ptr + |s|..][end - ptr - |s|..] && x[end..] == x[ptr + |s|..][end - ptr - |s|..];
  }

  ghost predicate Simple(ps: seq<Prop>) { forall i :: 0 <= i < |ps| ==> IsSimple(ps[i].value) }

  /** The bytes of an object up to its k-th property. */
  ghost function Front(ps: seq<Prop>, k: nat): seq<byte>
    requires k <= |ps|
  { if k == 0 then [OBJECT] else Front(ps, k - 1) + Property(ps[k - 1]) }

  lemma {:induction false} FrontAndRest(ps: seq<Prop>, k: nat)
    requires k <= |ps|
    ensures Front(ps, k) + Props(ps[k..]) == [OBJECT] + Props(ps)
  {
    if k > 0 {
      FrontAndRest(ps, k - 1);
      var rest := ps[k - 1..];
      assert rest[0] == ps[k - 1] && rest[1..] == ps[k..];
      PropsStart(rest);
      var f, p, m := Front(ps, k - 1), Property(ps[k - 1]), Props(ps[k..]);
      assert f + p + m == f + (p + m);
    } else {
      assert ps[0..] == ps;
    }
  }

  lemma PropsStart(ps: seq<Prop>)
    requires ps != []
    ensures Props(ps) == Property(ps[0]) + Props(ps[1..])
  {
    var n, k, b, m := Name(ps[0].name), [Kind(ps[0].value)], Body(ps[0].value), Props(ps[1..]);
    assert n + (k + b) + m == n + (k + (b + m));
  }

  lemma FrontAndEnd(ps: seq<Prop>)
    ensures Front(ps, |ps|) + [0, 0, OBJECT_END] == [OBJECT] + Props(ps)
    ensures |Front(ps, |ps|)| + 3 == 1 + |Props(ps)|
  {
    FrontAndRest(ps, |ps|);
    assert ps[|ps|..] == [];
    assert |Front(ps, |ps|) + [0, 0, OBJECT_END]| == |[OBJECT] + Props(ps)|;
  }

  /** An object marker and properties, up to the object end. */
  method WriteProps(a: array<byte>, end: nat, ps: seq<Prop>) returns (r: Option<nat>)
    requires end <= a.Length && Simple(ps)
    modifies a
    ensures r == if |Front(ps, |ps|)| <= end then Some(|Front(ps, |ps|)|) else None
    ensures r.Some? ==> Wrote(old(a[..]), a[..], 0, Front(ps, |ps|))
  {
    FrontGrows(ps, 0);
    if 1 > end { return None; }
    Copy(a, 0, [OBJECT]);
    var ptr := 1;
    for k := 0 to |ps|
      invariant ptr == |Front(ps, k)| && ptr <= end
      invariant Wrote(old(a[..]), a[..], 0, Front(ps, k))
    {
      FrontNext(ps, k);
      var next := WriteNext(a, ptr, end, ps[k], Front(ps, k), old(a[..]));
      if next.None? { return None; }
      ptr := next.value;
    }
    return Some(ptr);
  }

  /** A property, behind the bytes `front` already written over the bytes `orig`. */
  method WriteNext(a: array<byte>, ptr: nat, end: nat, p: Prop, ghost front: seq<byte>, ghost orig: seq<byte>)
    returns (r: Option<nat>)
    requires end <= a.Length && IsSimple(p.value)
    requires ptr == |front| <= end && Wrote(orig, a[..], 0, front)
    modifies a
    ensures r == if ptr + |Property(p)| <= end then Some(ptr + |Property(p)|) else None
    ensures r.Some? ==> Wrote(orig, a[..], 0, front + Property(p))
  {
    ghost var before := a[..];
    r := WriteNamed(a, ptr, end, p);
    if r.Some? { WroteBoth(orig, before, a[..], 0, front, Property(p)); }
  }

  lemma {:induction false} FrontGrows(ps: seq<Prop>, k: nat)
    requires k <= |ps|
    ensures 1 <= |Front(ps, k)| <= |Front(ps, |ps|)|
    decreases |ps| - k
  {
    if k < |ps| { FrontGrows(ps, k + 1); }
  }

  lemma FrontNext(ps: seq<Prop>, k: nat)
    requires k < |ps|
    ensures Front(ps, k + 1) == Front(ps, k) + Property(ps[k])
    ensures |Front(ps, k + 1)| == |Front(ps, k)| + |Property(ps[k])| <= |Front(ps, |ps|)|
  {
    FrontGrows(ps, k + 1);
  }

  /** An object with its properties and its end: written exactly when there is room for all of it. */
  method WriteObject(a: array<byte>, end: nat, ps: seq<Prop>) returns (r: Option<nat>)
    requires end <= a.Length && Simple(ps)
    modifies a
    ensures r == if 1 + |Props(ps)| <= end then Some(1 + |Props(ps)|) else None
    ensures r.Some? ==> Wrote(old(a[..]), a[..], 0, [OBJECT] + Props(ps))
  {
    FrontAndEnd(ps);
    var at := WriteProps(a, end, ps);
    if at.None? { return None; }
    r := WriteEnd(a, at.value, end, Front(ps, |ps|), old(a[..]));
  }

  /** The object end, behind the bytes `front` already written over the bytes `orig`. */
  method WriteEnd(a: array<byte>, ptr: nat, end: nat, ghost front: seq<byte>, ghost orig: seq<byte>)
    returns (r: Option<nat>)
    requires end <= a.Length && ptr == |front| <= end && Wrote(orig, a[..], 0, front)
    modifies a
    ensures r == if ptr + 3 <= end then Some(ptr + 3) else None
    ensures r.Some? ==> Wrote(orig, a[..], 0, front + [0, 0, OBJECT_END])
  {
    if ptr + 3 > end { return None; }
    ghost var before := a[..];
    Copy(a, ptr, [0, 0, OBJECT_END]);
    WroteBoth(orig, before, a[..], 0, front, [0, 0, OBJECT_END]);
    return Some(ptr + 3);
  }

  /** Every property landed, unchanged, in the first slot of its name and type, and every other slot
      keeps what it held. */
  ghost predicate Landed(slots: seq<Item>, items: seq<Item>, ps: seq<Prop>) {
    && |items| == |slots|
    && (forall k, j :: 0 <= k < |ps| && 0 <= j < |items| && Wants(slots, j, ps[k]) ==>
                         items[j] == Store(slots[j], ps[k].value))
    && (forall j :: 0 <= j < |items| && (forall k :: 0 <= k < |ps| ==> !Wants(slots, j, ps[k])) ==>
        items[j] == slots[j])
  }

  /** Writes an object into a buffer of the given size and reads it back: it fits or nothing is read; every
      property lands in its slot, and the reader ends exactly behind the object. */
  method RoundTrip(size: nat, ps: seq<Prop>, slot: Item) returns (r: ItemsResult)
    requires Simple(ps) && GoodProps(ps) && DistinctNames(ps) && slot.kind == OBJECT
    ensures r.Some? <==> 1 + |Props(ps)| <= size
    ensures r.Some? ==> && r.value.0 == 1 + |Props(ps)| && |r.value.1| == 1
                        && Landed(slot.items, r.value.1[0].items, ps)
  {
    var a := new byte[size](_ => 0);
    var end := WriteObject(a, size, ps);
    if end.None? { return None; }
    r := ReadBack(a[..end.value], ps, slot);
  }

  method ReadBack(d: seq<byte>, ghost ps: seq<Prop>, slot: Item) returns (r: ItemsResult)
    requires d == [OBJECT] + Props(ps) && GoodProps(ps) && DistinctNames(ps) && slot.kind == OBJECT
    ensures r.Some? && r.value.0 == |d| && |r.value.1| == 1 && Landed(slot.items, r.value.1[0].items, ps)
  {
    r := AmfReader.ReadItems(d, 0, [slot]);
    WholeObjectRead(d, ps, slot);
    SlotsAre(slot.items, ps);
  }

  lemma WholeObjectRead(d: seq<byte>, ps: seq<Prop>, slot: Item)
    requires d == [OBJECT] + Props(ps) && GoodProps(ps) && slot.kind == OBJECT
    ensures ItemsAt(d, 0, 0, [slot]) == Some((|d|, [slot.(items := FillAll(slot.items, ps))]))
  {
    ObjectIsRead(d, ps, Props(ps), slot);
    OneItem(d, slot, slot.(items := FillAll(slot.items, ps)));
  }

  lemma ObjectIsRead(d: seq<byte>, ps: seq<Prop>, bytes: seq<byte>, slot: Item)
    requires d == [OBJECT] + bytes && bytes == Props(ps) && GoodProps(ps)
    ensures ItemAt(d, 1, OBJECT, Some(slot)) == Some((|d|, Some(slot.(items := FillAll(slot.items, ps)))))
  {
    BehindMarker(d, bytes);
    PropsRead(d, 1, ps, slot.items, |d|, FillAll(slot.items, ps));
    ObjectItem(d, 1, slot, |d|, FillAll(slot.items, ps));
  }

  lemma BehindMarker(d: seq<byte>, bytes: seq<byte>)
    requires d == [OBJECT] + bytes
    ensures Holds(d, 1, bytes) && |d| == 1 + |bytes|
  {
  }

  lemma ObjectItem(d: seq<byte>, pos: nat, slot: Item, end: nat, items: seq<Item>)
    requires pos <= |d| && ObjectAt(d, pos, slot.items) == Some((end, items))
    ensures ItemAt(d, pos, OBJECT, Some(slot)) == Some((end, Some(slot.(items := items))))
  {
    ObjectIsContainer(d, pos, slot.items, Some((end, items)));
    ContainerStored(d, pos, OBJECT, Some(slot), end, items);
  }

  lemma OneItem(d: seq<byte>, slot: Item, item: Item)
    requires d != [] && TypeCheck(d[0], slot.kind) && ItemAt(d, 1, d[0], Some(slot)) == Some((|d|, Some(item)))
    ensures ItemsAt(d, 0, 0, [slot]) == Some((|d|, [item]))
  {
    assert Updated([slot], 0, Some(item)) == [item];
  }

  lemma SlotsAre(items: seq<Item>, ps: seq<Prop>)
    requires DistinctNames(ps)
    ensures Landed(items, FillAll(items, ps), ps)
  {
    forall k, j | 0 <= k < |ps| && 0 <= j < |items| && Wants(items, j, ps[k])
      ensures FillAll(items, ps)[j] == Store(items[j], ps[k].value)
    {
      EachLandsOnce(items, ps, k, j);
    }
    forall j | 0 <= j < |items| && (forall k :: 0 <= k < |ps| ==> !Wants(items, j, ps[k]))
      ensures FillAll(items, ps)[j] == items[j]
    {
      NobodyWants(items, ps, j);
    }
  }
}
