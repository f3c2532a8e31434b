/** AMF 0 values (sections 2.2 to 2.14 of the AMF 0 specification): their encoding, and the reader as a
    function of the bytes, the position and the items requested. */
module AmfValues {
  import opened Options
  import opened Bytes

  const NUMBER: byte := 0
  const BOOLEAN: byte := 1
  const STRING: byte := 2
  const OBJECT: byte := 3
  const NULL: byte := 5
  const UNDEFINED: byte := 6
  const ECMA_ARRAY: byte := 8
  const OBJECT_END: byte := 9
  const STRICT_ARRAY: byte := 10
  const DATE: byte := 11
  const LONG_STRING: byte := 12

  // ---- Values and their encoding --------------------------------------------------

  datatype Prop = Prop(name: seq<byte>, value: Value)

  /** Doubles by their bit patterns, time zones by their 16-bit patterns. */
  datatype Value =
    | Number(bits: nat)
    | Boolean(b: bool)
    | Text(s: seq<byte>)
    | Null
    | Undefined
    | Date(bits: nat, zone: nat)
    | Object(props: seq<Prop>)
    | EcmaArray(props: seq<Prop>)
    | StrictArray(values: seq<Value>)

  function Kind(v: Value): byte {
    match v
    case Number(_) => NUMBER
    case Boolean(_) => BOOLEAN
    case Text(s) => if |s| < 65536 then STRING else LONG_STRING
    case Null => NULL
    case Undefined => UNDEFINED
    case Date(_, _) => DATE
    case Object(_) => OBJECT
    case EcmaArray(_) => ECMA_ARRAY
    case StrictArray(_) => STRICT_ARRAY
  }

  /** The bytes of a value behind its type. */
  function Body(v: Value): seq<byte> {
    match v
    case Number(bits) => BigEndian(bits, 8)
    case Boolean(b) => [if b then 1 else 0]
    case Text(s) => BigEndian(|s|, if |s| < 65536 then 2 else 4) + s
    case Null => []
    case Undefined => []
    case Date(bits, zone) => BigEndian(bits, 8) + BigEndian(zone, 2)
    case Object(props) => Props(props)
    case EcmaArray(props) => BigEndian(0, 4) + Props(props)
    case StrictArray(values) => BigEndian(|values|, 4) + Elements(values)
  }

  /** The bytes of an array's elements, each behind its type. */
  function Elements(vs: seq<Value>): seq<byte> {
    if vs == [] then [] else [Kind(vs[0])] + (Body(vs[0]) + Elements(vs[1..]))
  }

  function Name(name: seq<byte>): seq<byte> { BigEndian(|name|, 2) + name }

  /** The bytes of a property list, up to and including the object end. */
  function Props(ps: seq<Prop>): seq<byte> {
    if ps == [] then [0, 0, OBJECT_END]
    else Name(ps[0].name) + ([Kind(ps[0].value)] + (Body(ps[0].value) + Props(ps[1..])))
  }

  ghost predicate Good(v: Value) {
    match v
    case Number(bits) => bits < Pow256(8)
    case Text(s) => |s| < Pow256(4)
    case Date(bits, zone) => bits < Pow256(8) && zone < Pow256(2)
    case Object(props) => GoodProps(props)
    case EcmaArray(props) => GoodProps(props)
    case StrictArray(values) => |values| < Pow256(4) && GoodValues(values)
    case _ => true
  }

  ghost predicate GoodValues(vs: seq<Value>) { forall i :: 0 <= i < |vs| ==> Good(vs[i]) }

  ghost predicate GoodProps(ps: seq<Prop>) {
    forall i :: 0 <= i < |ps| ==> 1 <= |ps[i].name| <= 65535 && Good(ps[i].value)
  }

  // ---- Requested items ----------------------------------------------------------------

  /** A C string without its terminator. */
  type CString = s: seq<byte> | 0 !in s

  datatype Held = Nothing | Bits(n: nat) | Flag(b: byte) | Chars(s: seq<byte>) | Moment(n: nat, zone: nat)

  /** A slot for a value: what is asked for, and what has been stored. An object's slot holds slots. */
  datatype Item = Item(kind: byte, name: CString, size: nat, held: Held, items: seq<Item>)

  predicate TypeCheck(kind: byte, wanted: byte) {
    kind == wanted || (wanted == OBJECT && (kind == ECMA_ARRAY || kind == NULL))
  }

  predicate Matches(item: Item, name: seq<byte>, kind: byte) { item.name == name && TypeCheck(kind, item.kind) }

  /** The first slot from i on for a property, or the number of slots. */
  function Find(items: seq<Item>, name: seq<byte>, kind: byte, i: nat := 0): (r: nat)
    requires i <= |items|
    ensures i <= r <= |items| && (r < |items| ==> Matches(items[r], name, kind))
    ensures forall j :: i <= j < r ==> !Matches(items[j], name, kind)
    decreases |items| - i
  {
    if i < |items| && !Matches(items[i], name, kind) then Find(items, name, kind, i + 1) else i
  }

  ghost predicate SameSlot(a: Item, b: Item) { a.kind == b.kind && a.name == b.name && a.size == b.size }

  /** A slot after a value was stored in it. */
  function Store(item: Item, v: Value): (r: Item)
    ensures SameSlot(item, r)
    decreases v, 0
  {
    match v
    case Number(bits) => item.(held := Bits(bits))
    case Boolean(b) => item.(held := Flag(if b then 1 else 0))
    case Text(s) => if item.size > |s| then item.(held := Chars(s)) else item
    case Null => item
    case Undefined => item
    case Date(bits, zone) => item.(held := Moment(bits, zone))
    case Object(props) => item.(items := FillAll(item.items, props))
    case EcmaArray(props) => item.(items := FillAll(item.items, props))
    case StrictArray(values) => item.(items := StoreEach(item.items, 0, values))
  }

  /** The elements of an array are stored one by one in the slots from i on, where the types fit. */
  function StoreEach(items: seq<Item>, i: nat, vs: seq<Value>): (r: seq<Item>)
    ensures |r| == |items| && forall j :: 0 <= j < |r| ==> SameSlot(items[j], r[j])
    decreases vs, 1
  {
    if vs == [] then items
    else if i < |items| && TypeCheck(Kind(vs[0]), items[i].kind) then
      StoreEach(items[i := Store(items[i], vs[0])], i + 1, vs[1..])
    else StoreEach(items, i + 1, vs[1..])
  }

  function FillAll(items: seq<Item>, ps: seq<Prop>): (r: seq<Item>)
    ensures |r| == |items| && forall j :: 0 <= j < |r| ==> SameSlot(items[j], r[j])
    decreases ps, 1
  {
    if ps == [] then items
    else
      var i := Find(items, ps[0].name, Kind(ps[0].value));
      FillAll(if i < |items| then items[i := Store(items[i], ps[0].value)] else items, ps[1..])
  }

  // ---- The reader -------------------------------------------------------------------------

  function IntAt(d: seq<byte>, pos: nat, n: nat): nat
    requires pos + n <= |d|
  { Bytes.Value(d[pos..pos + n]) }

  /** A slot that may be missing, with h stored in it. */
  function Keep(item: Option<Item>, h: Held): Option<Item> {
    if item.Some? then Some(item.value.(held := h)) else None
  }

  function ItemsOf(item: Option<Item>): seq<Item> { if item.Some? then item.value.items else [] }

  function WithItems(item: Option<Item>, items: seq<Item>): Option<Item> {
    if item.Some? then Some(item.value.(items := items)) else None
  }

  /** The position behind what was read, and the slot or slots as they then are. */
  type ItemResult = Option<(nat, Option<Item>)>
  type ItemsResult = Option<(nat, seq<Item>)>

  function StringAt(d: seq<byte>, pos: nat, width: nat, item: Option<Item>): (r: ItemResult)
    requires pos <= |d|
    ensures r.Some? ==> pos <= r.value.0 <= |d| && r.value.1.Some? == item.Some?
  {
    if pos + width > |d| then None
    else
      var len := IntAt(d, pos, width);
      var from := pos + width;
      if from + len > |d| then None
      else if item.Some? && item.value.size > len then Some((from + len, Keep(item, Chars(d[from..from + len]))))
      else Some((from + len, item))
  }

  /** Reads a value that is no object or array. */
  function ScalarAt(d: seq<byte>, pos: nat, kind: byte, item: Option<Item>): (r: ItemResult)
    requires pos <= |d|
    ensures r.Some? ==> pos <= r.value.0 <= |d| && r.value.1.Some? == item.Some?
  {
    if kind == BOOLEAN then (if pos + 1 > |d| then None else Some((pos + 1, Keep(item, Flag(d[pos])))))
    else if kind == NUMBER then (if pos + 8 > |d| then None else Some((pos + 8, Keep(item, Bits(IntAt(d, pos, 8))))))
    else if kind == STRING then StringAt(d, pos, 2, item)
    else if kind == LONG_STRING then StringAt(d, pos, 4, item)
    else if kind == DATE then
      (if pos + 10 > |d| then None else Some((pos + 10, Keep(item, Moment(IntAt(d, pos, 8), IntAt(d, pos + 8, 2))))))
    else if kind == NULL || kind == UNDEFINED then Some((pos, item))
    else None
  }

  predicate IsContainer(kind: byte) { kind == OBJECT || kind == ECMA_ARRAY || kind == STRICT_ARRAY }

  /** Reads a value of the given type. */
  function ItemAt(d: seq<byte>, pos: nat, kind: byte, item: Option<Item>): (r: ItemResult)
    requires pos <= |d|
    ensures r.Some? ==> pos <= r.value.0 <= |d| && r.value.1.Some? == item.Some?
    decreases |d| - pos, 2
  {
    if IsContainer(kind) then Wrapped(item, ContainerAt(d, pos, kind, ItemsOf(item))) else ScalarAt(d, pos, kind, item)
  }

  function ContainerAt(d: seq<byte>, pos: nat, kind: byte, items: seq<Item>): (r: ItemsResult)
    requires pos <= |d|
    ensures r.Some? ==> pos <= r.value.0 <= |d| && |r.value.1| == |items|
    decreases |d| - pos, 1
  {
    if kind == OBJECT then ObjectAt(d, pos, items)
    else if pos + 4 > |d| then None
    else if kind == ECMA_ARRAY then ObjectAt(d, pos + 4, items)
    else ArrayAt(d, pos + 4, 0, IntAt(d, pos, 4), items)
  }

  function Wrapped(item: Option<Item>, r: ItemsResult): ItemResult {
    if r.Some? then Some((r.value.0, WithItems(item, r.value.1))) else None
  }

  /** Reads properties up to and including the object end. */
  function ObjectAt(d: seq<byte>, pos: nat, items: seq<Item>): (r: ItemsResult)
    requires pos <= |d|
    ensures r.Some? ==> pos <= r.value.0 <= |d| && |r.value.1| == |items|
    decreases |d| - pos, 0
  {
    if pos + 2 > |d| then EndAt(d, pos, items)
    else
      var len := IntAt(d, pos, 2);
      var at := pos + 2 + len;
      if len == 0 then EndAt(d, pos + 2, items)
      else if at + 1 > |d| then None
      else
        var i := Find(items, d[pos + 2..at], d[at]);
        var r := ItemAt(d, at + 1, d[at], SlotAt(items, i));
        if r.None? then None else ObjectAt(d, r.value.0, Updated(items, i, r.value.1))
  }

  /** A property is read, and reading goes on behind it. */
  lemma PropertyAt(d: seq<byte>, pos: nat, at: nat, items: seq<Item>, i: nat, v: ItemResult)
    requires pos + 2 < at < |d| && at == pos + 2 + IntAt(d, pos, 2) && i == Find(items, d[pos + 2..at], d[at])
    requires v == ItemAt(d, at + 1, d[at], SlotAt(items, i))
    ensures ObjectAt(d, pos, items) ==
            if v.None? then None else ObjectAt(d, v.value.0, Updated(items, i, v.value.1))
  {
  }

  function EndAt(d: seq<byte>, pos: nat, items: seq<Item>): (r: ItemsResult)
    requires pos <= |d|
  {
    if pos < |d| && d[pos] == OBJECT_END then Some((pos + 1, items)) else None
  }

  function SlotAt(items: seq<Item>, i: nat): Option<Item> { if i < |items| then Some(items[i]) else None }

  function Updated(items: seq<Item>, i: nat, item: Option<Item>): (r: seq<Item>)
    ensures |r| == |items|
  { if i < |items| && item.Some? then items[i := item.value] else items }

  /** Reads the elements i, .., count - 1 of an array, or as many as there are. */
  function ArrayAt(d: seq<byte>, pos: nat, i: nat, count: nat, items: seq<Item>): (r: ItemsResult)
    requires pos <= |d|
    ensures r.Some? ==> pos <= r.value.0 <= |d| && |r.value.1| == |items|
    decreases |d| - pos, 0
  {
    if i >= count || pos >= |d| then Some((pos, items))
    else
      var wanted := i < |items| && TypeCheck(d[pos], items[i].kind);
      var r := ItemAt(d, pos + 1, d[pos], if wanted then SlotAt(items, i) else None);
      if r.None? then None
      else ArrayAt(d, r.value.0, i + 1, count, if wanted then Updated(items, i, r.value.1) else items)
  }

  /** Reads a list of values into slots, whose types must fit. */
  function ItemsAt(d: seq<byte>, pos: nat, i: nat, items: seq<Item>): (r: ItemsResult)
    requires pos <= |d| && i <= |items|
    ensures r.Some? ==> pos <= r.value.0 <= |d| && |r.value.1| == |items|
    decreases |items| - i
  {
    if i >= |items| || pos >= |d| then Some((pos, items))
    else if !TypeCheck(d[pos], items[i].kind) then None
    else
      var r := ItemAt(d, pos + 1, d[pos], SlotAt(items, i));
      if r.None? then None else ItemsAt(d, r.value.0, i + 1, Updated(items, i, r.value.1))
  }
}
