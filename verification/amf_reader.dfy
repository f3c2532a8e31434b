/** The AMF 0 reader as loops and mutual recursion over the bytes. */
module AmfReader {
  import opened Options
  import opened Bytes
  import opened AmfValues

  method FindItem(items: seq<Item>, name: seq<byte>, kind: byte) returns (i: nat)
    ensures i == Find(items, name, kind)
    ensures i <= |items| && (i < |items| ==> Matches(items[i], name, kind))
    ensures forall j :: 0 <= j < i ==> !Matches(items[j], name, kind)
  {
    i := 0;
    while i < |items|
      invariant i <= |items| && Find(items, name, kind) == Find(items, name, kind, i)
      invariant forall j :: 0 <= j < i ==> !Matches(items[j], name, kind)
    {
      if Matches(items[i], name, kind) { return; }
      i := i + 1;
    }
  }

  method ReadItem(d: seq<byte>, pos: nat, kind: byte, item: Option<Item>) returns (r: ItemResult)
    requires pos <= |d|
    ensures r == ItemAt(d, pos, kind, item)
    ensures r.Some? ==> pos <= r.value.0 <= |d|
    decreases |d| - pos, 2
  {
    if kind == OBJECT {
      var o := ReadObject(d, pos, ItemsOf(item));
      return Wrapped(item, o);
    } else if kind == ECMA_ARRAY {
      if pos + 4 > |d| { return None; }
      var o := ReadObject(d, pos + 4, ItemsOf(item));
      return Wrapped(item, o);
    } else if kind == STRICT_ARRAY {
      if pos + 4 > |d| { return None; }
      var o := ReadArray(d, pos + 4, IntAt(d, pos, 4), ItemsOf(item));
      return Wrapped(item, o);
    }
    return ScalarAt(d, pos, kind, item);
  }

  method ReadArray(d: seq<byte>, pos: nat, count: nat, slots: seq<Item>) returns (r: ItemsResult)
    requires pos <= |d|
    ensures r == ArrayAt(d, pos, 0, count, slots)
    ensures r.Some? ==> pos <= r.value.0 <= |d|
    decreases |d| - pos, 0
  {
    var items, at, i := slots, pos, 0;
    while i < count && at < |d|
      invariant pos <= at <= |d| && ArrayAt(d, pos, 0, count, slots) == ArrayAt(d, at, i, count, items)
      decreases |d| - at
    {
      var wanted := i < |items| && TypeCheck(d[at], items[i].kind);
      var v := ReadItem(d, at + 1, d[at], if wanted then Some(items[i]) else None);
      if v.None? { return None; }
      if wanted { items := Updated(items, i, v.value.1); }
      at, i := v.value.0, i + 1;
    }
    r := Some((at, items));
  }

  /** Reads the property whose name has the given length, and goes on behind it. */
  method ReadProperty(d: seq<byte>, pos: nat, len: nat, items: seq<Item>) returns (r: ItemsResult)
    requires pos + 2 <= |d| && len == IntAt(d, pos, 2) > 0
    ensures r.None? ==> ObjectAt(d, pos, items) == None
    ensures r.Some? ==> pos + 2 < r.value.0 <= |d| && ObjectAt(d, pos, items) == ObjectAt(d, r.value.0, r.value.1)
    decreases |d| - pos, 0
  {
    var at := pos + 2 + len;
    if at + 1 > |d| { return None; }
    var i := FindItem(items, d[pos + 2..at], d[at]);
    var v := ReadItem(d, at + 1, d[at], SlotAt(items, i));
    PropertyAt(d, pos, at, items, i, v);
    if v.None? { return None; }
    r := Some((v.value.0, Updated(items, i, v.value.1)));
  }

  method ReadObject(d: seq<byte>, pos: nat, slots: seq<Item>) returns (r: ItemsResult)
    requires pos <= |d|
    ensures r == ObjectAt(d, pos, slots)
    ensures r.Some? ==> pos <= r.value.0 <= |d|
    decreases |d| - pos, 1
  {
    var items, data := slots, pos;
    while data + 2 <= |d|
      invariant pos <= data <= |d| && ObjectAt(d, pos, slots) == ObjectAt(d, data, items)
      decreases |d| - data
    {
      var len := IntAt(d, data, 2);
      if len == 0 {
        data := data + 2;
        break;
      }
      var next := ReadProperty(d, data, len, items);
      if next.None? { return None; }
      data, items := next.value.0, next.value.1;
    }
    r := EndAt(d, data, items);
  }

  /** Reads values into slots of fitting types: at most to the end of the bytes. */
  method ReadItems(d: seq<byte>, pos: nat, slots: seq<Item>) returns (r: ItemsResult)
    requires pos <= |d|
    ensures r == ItemsAt(d, pos, 0, slots)
    ensures r.Some? ==> pos <= r.value.0 <= |d|
  {
    var items, at, i := slots, pos, 0;
    while i < |items| && at < |d|
      invariant pos <= at <= |d| && i <= |items| && ItemsAt(d, pos, 0, slots) == ItemsAt(d, at, i, items)
      decreases |items| - i
    {
      if !TypeCheck(d[at], items[i].kind) { return None; }
      var v := ReadItem(d, at + 1, d[at], Some(items[i]));
      if v.None? { return None; }
      items, at, i := Updated(items, i, v.value.1), v.value.0, i + 1;
    }
    r := Some((at, items));
  }
}
