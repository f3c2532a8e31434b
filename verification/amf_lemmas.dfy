/** What the AMF 0 reader promises: it undoes the encoding, and it consumes the same bytes whatever is
    requested. */
module AmfLemmas {
  import opened Options
  import opened Bytes
  import opened AmfValues

  // ---- Consumption does not depend on what is requested -------------------------------

  function EndOfItem(r: ItemResult): Option<nat> { if r.Some? then Some(r.value.0) else None }

  function EndOfItems(r: ItemsResult): Option<nat> { if r.Some? then Some(r.value.0) else None }

  lemma {:induction false} ItemConsumption(d: seq<byte>, pos: nat, kind: byte, item: Option<Item>)
    requires pos <= |d|
    ensures EndOfItem(ItemAt(d, pos, kind, item)) == EndOfItem(ItemAt(d, pos, kind, None))
    decreases |d| - pos, 1
  {
    if kind == OBJECT {
      ObjectConsumption(d, pos, ItemsOf(item));
    } else if kind == ECMA_ARRAY && pos + 4 <= |d| {
      ObjectConsumption(d, pos + 4, ItemsOf(item));
    } else if kind == STRICT_ARRAY && pos + 4 <= |d| {
      ArrayConsumption(d, pos + 4, 0, IntAt(d, pos, 4), ItemsOf(item));
    }
  }

  lemma {:induction false} ObjectConsumption(d: seq<byte>, pos: nat, items: seq<Item>)
    requires pos <= |d|
    ensures EndOfItems(ObjectAt(d, pos, items)) == EndOfItems(ObjectAt(d, pos, []))
    decreases |d| - pos, 0
  {
    if pos + 2 <= |d| {
      var at := pos + 2 + IntAt(d, pos, 2);
      if pos + 2 < at < |d| {
        var i, none := Find(items, d[pos + 2..at], d[at]), Find([], d[pos + 2..at], d[at]);
        var r, s := ItemAt(d, at + 1, d[at], SlotAt(items, i)), ItemAt(d, at + 1, d[at], None);
        ItemConsumption(d, at + 1, d[at], SlotAt(items, i));
        PropertyAt(d, pos, at, items, i, r);
        PropertyAt(d, pos, at, [], none, s);
        if r.Some? { ObjectConsumption(d, r.value.0, Updated(items, i, r.value.1)); }
      }
    }
  }

  lemma {:induction false} ArrayConsumption(d: seq<byte>, pos: nat, i: nat, count: nat, items: seq<Item>)
    requires pos <= |d|
    ensures EndOfItems(ArrayAt(d, pos, i, count, items)) == EndOfItems(ArrayAt(d, pos, i, count, []))
    decreases |d| - pos, 0
  {
    if i < count && pos < |d| {
      var wanted := i < |items| && TypeCheck(d[pos], items[i].kind);
      var slot := if wanted then SlotAt(items, i) else None;
      var r := ItemAt(d, pos + 1, d[pos], slot);
      ItemConsumption(d, pos + 1, d[pos], slot);
      if r.Some? {
        ArrayConsumption(d, r.value.0, i + 1, count, if wanted then Updated(items, i, r.value.1) else items);
      }
    }
  }

  // ---- Reading undoes writing ----------------------------------------------------------

  /** The bytes s lie at position pos of d. */
  ghost predicate Holds(d: seq<byte>, pos: nat, s: seq<byte>) { pos + |s| <= |d| && d[pos..pos + |s|] == s }

  lemma HoldsSplit(d: seq<byte>, pos: nat, s: seq<byte>, t: seq<byte>)
    requires Holds(d, pos, s + t)
    ensures Holds(d, pos, s) && Holds(d, pos + |s|, t)
  {
    var all := d[pos..pos + |s + t|];
    assert all[..|s|] == s && all[|s|..] == t;
    assert all[..|s|] == d[pos..pos + |s|] && all[|s|..] == d[pos + |s|..pos + |s| + |t|];
  }

  lemma IntRead(d: seq<byte>, pos: nat, v: nat, n: nat)
    requires Holds(d, pos, BigEndian(v, n)) && v < Pow256(n)
    ensures IntAt(d, pos, n) == v
  {
    ReadWrite(v, n);
  }

  function StoreIn(item: Option<Item>, v: Value): Option<Item> {
    if item.Some? then Some(Store(item.value, v)) else None
  }

  /** Reading at pos gives v, into whatever slot, and ends right behind it. */
  ghost predicate ValueOk(d: seq<byte>, pos: nat, v: Value, item: Option<Item>) {
    pos <= |d| && ItemAt(d, pos, Kind(v), item) == Some((pos + |Body(v)|, StoreIn(item, v)))
  }

  lemma StringStored(d: seq<byte>, pos: nat, s: seq<byte>, width: nat, item: Option<Item>)
    requires pos + width <= |d| && IntAt(d, pos, width) == |s| && Holds(d, pos + width, s)
    ensures StringAt(d, pos, width, item) == Some((pos + width + |s|, StoreIn(item, Text(s))))
  {
  }

  lemma StringRead(d: seq<byte>, pos: nat, s: seq<byte>, width: nat, item: Option<Item>)
    requires Holds(d, pos, BigEndian(|s|, width) + s) && |s| < Pow256(width)
    ensures StringAt(d, pos, width, item) == Some((pos + width + |s|, StoreIn(item, Text(s))))
  {
    HoldsSplit(d, pos, BigEndian(|s|, width), s);
    IntRead(d, pos, |s|, width);
    StringStored(d, pos, s, width, item);
  }

  lemma NumberRead(d: seq<byte>, pos: nat, v: Value, item: Option<Item>)
    requires v.Number? && Good(v) && Holds(d, pos, Body(v))
    ensures ValueOk(d, pos, v, item)
  {
    IntRead(d, pos, v.bits, 8);
  }

  lemma DateRead(d: seq<byte>, pos: nat, v: Value, item: Option<Item>)
    requires v.Date? && Good(v) && Holds(d, pos, Body(v))
    ensures ValueOk(d, pos, v, item)
  {
    HoldsSplit(d, pos, BigEndian(v.bits, 8), BigEndian(v.zone, 2));
    IntRead(d, pos, v.bits, 8);
    IntRead(d, pos + 8, v.zone, 2);
  }

  lemma TextRead(d: seq<byte>, pos: nat, v: Value, item: Option<Item>)
    requires v.Text? && Good(v) && Holds(d, pos, Body(v))
    ensures ValueOk(d, pos, v, item)
  {
    assert Pow256(2) == 65536;
    StringRead(d, pos, v.s, if |v.s| < 65536 then 2 else 4, item);
  }

  lemma PlainRead(d: seq<byte>, pos: nat, v: Value, item: Option<Item>)
    requires (v.Boolean? || v.Null? || v.Undefined?) && Holds(d, pos, Body(v))
    ensures ValueOk(d, pos, v, item)
  {
    if v.Boolean? { assert d[pos] == d[pos..pos + 1][0]; }
  }

  /** A value that was written is read back into the slot, ending exactly behind it: nested objects and
      arrays too, and whatever their slots ask for. */
  lemma {:induction false} ValueRead(d: seq<byte>, pos: nat, v: Value, item: Option<Item>)
    requires Good(v) && Holds(d, pos, Body(v))
    ensures ValueOk(d, pos, v, item)
    decreases v, 1
  {
    match v {
      case Number(_) => NumberRead(d, pos, v, item);
      case Text(_) => TextRead(d, pos, v, item);
      case Date(_, _) => DateRead(d, pos, v, item);
      case Object(_) => ObjectRead(d, pos, v, item);
      case EcmaArray(_) => EcmaArrayRead(d, pos, v, item);
      case StrictArray(_) => StrictArrayRead(d, pos, v, item);
      case _ => PlainRead(d, pos, v, item);
    }
  }

  lemma {:induction false} ObjectRead(d: seq<byte>, pos: nat, v: Value, item: Option<Item>)
    requires v.Object? && Good(v) && Holds(d, pos, Body(v))
    ensures ValueOk(d, pos, v, item)
    decreases v, 0
  {
    var end, items := pos + |Props(v.props)|, FillAll(ItemsOf(item), v.props);
    PropsRead(d, pos, v.props, ItemsOf(item), end, items);
    ObjectStored(d, pos, v, item, end, items);
  }

  lemma {:induction false} EcmaArrayRead(d: seq<byte>, pos: nat, v: Value, item: Option<Item>)
    requires v.EcmaArray? && Good(v) && Holds(d, pos, Body(v))
    ensures ValueOk(d, pos, v, item)
    decreases v, 0
  {
    HoldsSplit(d, pos, BigEndian(0, 4), Props(v.props));
    var end, items := pos + 4 + |Props(v.props)|, FillAll(ItemsOf(item), v.props);
    PropsRead(d, pos + 4, v.props, ItemsOf(item), end, items);
    EcmaArrayStored(d, pos, v, item, end, items);
  }

  lemma {:induction false} StrictArrayRead(d: seq<byte>, pos: nat, v: Value, item: Option<Item>)
    requires v.StrictArray? && Good(v) && Holds(d, pos, Body(v))
    ensures ValueOk(d, pos, v, item)
    decreases v, 0
  {
    HoldsSplit(d, pos, BigEndian(|v.values|, 4), Elements(v.values));
    IntRead(d, pos, |v.values|, 4);
    ElementsRead(d, pos + 4, 0, v.values, |v.values|, ItemsOf(item));
    StrictArrayStored(d, pos, v, item);
  }

  lemma ObjectIsContainer(d: seq<byte>, pos: nat, items: seq<Item>, r: ItemsResult)
    requires pos <= |d| && ObjectAt(d, pos, items) == r
    ensures ContainerAt(d, pos, OBJECT, items) == r
  {
  }

  lemma EcmaArrayIsContainer(d: seq<byte>, pos: nat, items: seq<Item>, r: ItemsResult)
    requires pos + 4 <= |d| && ObjectAt(d, pos + 4, items) == r
    ensures ContainerAt(d, pos, ECMA_ARRAY, items) == r
  {
  }

  lemma StrictArrayIsContainer(d: seq<byte>, pos: nat, count: nat, items: seq<Item>, r: ItemsResult)
    requires pos + 4 <= |d| && IntAt(d, pos, 4) == count && ArrayAt(d, pos + 4, 0, count, items) == r
    ensures ContainerAt(d, pos, STRICT_ARRAY, items) == r
  {
  }

  /** A container was read, and its slots hold what is stored of the value. */
  lemma ContainerOk(d: seq<byte>, pos: nat, v: Value, kind: byte, item: Option<Item>, end: nat, items: seq<Item>)
    requires pos <= |d| && kind == Kind(v) && IsContainer(kind) && end == pos + |Body(v)|
    requires ContainerAt(d, pos, kind, ItemsOf(item)) == Some((end, items))
    requires item.Some? ==> Store(item.value, v) == item.value.(items := items)
    ensures ValueOk(d, pos, v, item)
  {
    ContainerStored(d, pos, kind, item, end, items);
    ReadOk(d, pos, v, kind, item, end, WithItems(item, items));
  }

  lemma ReadOk(d: seq<byte>, pos: nat, v: Value, kind: byte, item: Option<Item>, end: nat, out: Option<Item>)
    requires pos <= |d| && kind == Kind(v) && end == pos + |Body(v)| && out == StoreIn(item, v)
    requires ItemAt(d, pos, kind, item) == Some((end, out))
    ensures ValueOk(d, pos, v, item)
  {
  }

  lemma ObjectStored(d: seq<byte>, pos: nat, v: Value, item: Option<Item>, end: nat, items: seq<Item>)
    requires v.Object? && ReadsTo(d, pos, ItemsOf(item), end, items)
    requires end == pos + |Props(v.props)| && items == FillAll(ItemsOf(item), v.props)
    ensures ValueOk(d, pos, v, item)
  {
    ObjectIsContainer(d, pos, ItemsOf(item), Some((end, items)));
    ContainerOk(d, pos, v, OBJECT, item, end, items);
  }

  lemma EcmaArrayStored(d: seq<byte>, pos: nat, v: Value, item: Option<Item>, end: nat, items: seq<Item>)
    requires v.EcmaArray? && ReadsTo(d, pos + 4, ItemsOf(item), end, items)
    requires end == pos + 4 + |Props(v.props)| && items == FillAll(ItemsOf(item), v.props)
    ensures ValueOk(d, pos, v, item)
  {
    EcmaArrayIsContainer(d, pos, ItemsOf(item), Some((end, items)));
    BodyLength(v);
    ContainerOk(d, pos, v, ECMA_ARRAY, item, end, items);
  }

  lemma BodyLength(v: Value)
    ensures v.EcmaArray? ==> |Body(v)| == 4 + |Props(v.props)|
    ensures v.StrictArray? ==> |Body(v)| == 4 + |Elements(v.values)|
  {
  }

  lemma StrictArrayStored(d: seq<byte>, pos: nat, v: Value, item: Option<Item>)
    requires v.StrictArray? && pos + 4 <= |d| && IntAt(d, pos, 4) == |v.values|
    requires ElementsOk(d, pos + 4, 0, v.values, |v.values|, ItemsOf(item))
    ensures ValueOk(d, pos, v, item)
  {
    var end, items := pos + 4 + |Elements(v.values)|, StoreEach(ItemsOf(item), 0, v.values);
    StrictArrayIsContainer(d, pos, |v.values|, ItemsOf(item), Some((end, items)));
    BodyLength(v);
    ContainerOk(d, pos, v, STRICT_ARRAY, item, end, items);
  }

  /** Reading the elements from the i-th on gives vs, and ends right behind them. */
  ghost predicate ElementsOk(d: seq<byte>, pos: nat, i: nat, vs: seq<Value>, count: nat, items: seq<Item>) {
    pos <= |d| && ArrayAt(d, pos, i, count, items) == Some((pos + |Elements(vs)|, StoreEach(items, i, vs)))
  }

  /** The slots after element i has been stored, if it fits. */
  function Placed(items: seq<Item>, i: nat, v: Value): seq<Item> {
    if i < |items| && TypeCheck(Kind(v), items[i].kind) then items[i := Store(items[i], v)] else items
  }

  lemma ElementStep(d: seq<byte>, pos: nat, i: nat, v: Value, count: nat, items: seq<Item>, end: nat)
    requires pos < |d| && d[pos] == Kind(v) && i < count && end == pos + 1 + |Body(v)| <= |d|
    requires ValueOk(d, pos + 1, v,
                     if i < |items| && TypeCheck(Kind(v), items[i].kind) then SlotAt(items, i) else None)
    ensures ArrayAt(d, pos, i, count, items) == ArrayAt(d, end, i + 1, count, Placed(items, i, v))
  {
  }

  lemma {:induction false} ElementsReadTo(d: seq<byte>, pos: nat, i: nat, vs: seq<Value>, count: nat, items: seq<Item>,
                                         last: nat, out: seq<Item>)
    requires GoodValues(vs) && Holds(d, pos, Elements(vs)) && i + |vs| == count
    requires last == pos + |Elements(vs)| && out == StoreEach(items, i, vs)
    ensures ArrayAt(d, pos, i, count, items) == Some((last, out))
    decreases vs, 1
  {
    if vs != [] {
      var v := vs[0];
      var body, more := Body(v), Elements(vs[1..]);
      ElementsAre(vs, body, more);
      HoldsSplit(d, pos, [Kind(v)], body + more);
      HoldsSplit(d, pos + 1, body, more);
      ElementsLength(vs);
      PlacedFirst(items, i, vs);
      var end := pos + 1 + |body|;
      ElementsReadTo(d, end, i + 1, vs[1..], count, Placed(items, i, v), last, out);
      ElementRead(d, pos, i, v, count, items, end);
    }
  }

  lemma {:induction false} ElementsRead(d: seq<byte>, pos: nat, i: nat, vs: seq<Value>, count: nat, items: seq<Item>)
    requires GoodValues(vs) && Holds(d, pos, Elements(vs)) && i + |vs| == count
    ensures ElementsOk(d, pos, i, vs, count, items)
    decreases vs, 2
  {
    ElementsReadTo(d, pos, i, vs, count, items, pos + |Elements(vs)|, StoreEach(items, i, vs));
  }

  lemma ElementsAre(vs: seq<Value>, body: seq<byte>, more: seq<byte>)
    requires vs != [] && body == Body(vs[0]) && more == Elements(vs[1..])
    ensures Elements(vs) == [Kind(vs[0])] + (body + more)
  {
  }

  lemma {:induction false} ElementRead(d: seq<byte>, pos: nat, i: nat, v: Value, count: nat, items: seq<Item>, end: nat)
    requires Good(v) && Holds(d, pos, [Kind(v)]) && Holds(d, pos + 1, Body(v)) && i < count
    requires end == pos + 1 + |Body(v)|
    ensures ArrayAt(d, pos, i, count, items) == ArrayAt(d, end, i + 1, count, Placed(items, i, v))
    decreases v, 2
  {
    assert d[pos] == d[pos..pos + 1][0];
    ValueRead(d, pos + 1, v, if i < |items| && TypeCheck(Kind(v), items[i].kind) then SlotAt(items, i) else None);
    ElementStep(d, pos, i, v, count, items, end);
  }

  lemma ElementsLength(vs: seq<Value>)
    requires vs != []
    ensures |Elements(vs)| == 1 + |Body(vs[0])| + |Elements(vs[1..])|
  {
  }

  lemma PlacedFirst(items: seq<Item>, i: nat, vs: seq<Value>)
    requires vs != []
    ensures StoreEach(items, i, vs) == StoreEach(Placed(items, i, vs[0]), i + 1, vs[1..])
  {
  }

  lemma ContainerStored(d: seq<byte>, pos: nat, kind: byte, item: Option<Item>, end: nat, items: seq<Item>)
    requires pos <= |d| && IsContainer(kind) && ContainerAt(d, pos, kind, ItemsOf(item)) == Some((end, items))
    ensures ItemAt(d, pos, kind, item) == Some((end, WithItems(item, items)))
  {
  }

  /** The slots after one property. */
  function Filled(items: seq<Item>, p: Prop): (r: seq<Item>)
    ensures |r| == |items|
  {
    var i := Find(items, p.name, Kind(p.value));
    Updated(items, i, StoreIn(SlotAt(items, i), p.value))
  }

  /** Name and type of the property p lie at pos, and its value and the properties behind it are there. */
  ghost predicate HeadOk(d: seq<byte>, pos: nat, p: Prop) {
    var at := pos + 2 + |p.name|;
    at < |d| && IntAt(d, pos, 2) == |p.name| && d[pos + 2..at] == p.name && d[at] == Kind(p.value)
  }

  /** Reading the object goes on at the position end. */
  ghost predicate GoesOn(d: seq<byte>, pos: nat, items: seq<Item>, end: nat, items': seq<Item>) {
    pos <= |d| && end <= |d| && ObjectAt(d, pos, items) == ObjectAt(d, end, items')
  }

  lemma PropStep(d: seq<byte>, pos: nat, p: Prop, items: seq<Item>, from: nat, end: nat)
    requires HeadOk(d, pos, p) && |p.name| > 0 && from == pos + 3 + |p.name| && end == from + |Body(p.value)|
    requires ValueOk(d, from, p.value, SlotAt(items, Find(items, p.name, Kind(p.value))))
    ensures GoesOn(d, pos, items, end, Filled(items, p))
  {
    var i := Find(items, p.name, Kind(p.value));
    PropertyAt(d, pos, from - 1, items, i, Some((end, StoreIn(SlotAt(items, i), p.value))));
  }

  /** Reading the object at pos ends at the position last, with the slots out. */
  ghost predicate ReadsTo(d: seq<byte>, pos: nat, items: seq<Item>, last: nat, out: seq<Item>) {
    pos <= |d| && ObjectAt(d, pos, items) == Some((last, out))
  }

  lemma ReadsOn(d: seq<byte>, pos: nat, items: seq<Item>, end: nat, items': seq<Item>, last: nat, out: seq<Item>)
    requires GoesOn(d, pos, items, end, items') && ReadsTo(d, end, items', last, out)
    ensures ReadsTo(d, pos, items, last, out)
  {
  }

  lemma GoodHead(ps: seq<Prop>)
    requires GoodProps(ps) && ps != []
    ensures 1 <= |ps[0].name| <= 65535 && Good(ps[0].value) && GoodProps(ps[1..])
  {
  }

  /** The first property is there, and behind it the others. */
  lemma PropsHead(d: seq<byte>, pos: nat, ps: seq<Prop>, whole: seq<byte>, body: seq<byte>, more: seq<byte>, from: nat)
    requires GoodProps(ps) && ps != [] && whole == Props(ps) && body == Body(ps[0].value) && more == Props(ps[1..])
    requires Holds(d, pos, whole) && from == pos + 3 + |ps[0].name|
    ensures HeadOk(d, pos, ps[0]) && Holds(d, from, body) && Holds(d, from + |body|, more)
    ensures pos + |whole| == from + |body| + |more|
  {
    GoodHead(ps);
    PropsAre(ps, body, more);
    PropParts(d, pos, ps[0], whole, body, more, from);
  }

  lemma PropParts(d: seq<byte>, pos: nat, p: Prop, whole: seq<byte>, body: seq<byte>, more: seq<byte>, from: nat)
    requires |p.name| < 65536 && whole == Name(p.name) + ([Kind(p.value)] + (body + more))
    requires Holds(d, pos, whole) && from == pos + 3 + |p.name|
    ensures HeadOk(d, pos, p) && Holds(d, from, body) && Holds(d, from + |body|, more)
    ensures pos + |whole| == from + |body| + |more|
  {
    HeadParts(d, pos, p, body, more);
    NameLength(p.name, Kind(p.value), body, more);
  }

  lemma NameLength(name: seq<byte>, kind: byte, body: seq<byte>, more: seq<byte>)
    ensures |Name(name) + ([kind] + (body + more))| == 3 + |name| + |body| + |more|
  {
  }

  /** Properties that were written are read back into the slots, ending exactly behind the object end. */
  lemma {:induction false} PropsRead(d: seq<byte>, pos: nat, ps: seq<Prop>, items: seq<Item>, last: nat,
                                     out: seq<Item>)
    requires GoodProps(ps) && Holds(d, pos, Props(ps)) && last == pos + |Props(ps)| && out == FillAll(items, ps)
    ensures ReadsTo(d, pos, items, last, out)
    decreases ps, 1
  {
    if ps == [] {
      EndRead(d, pos, items);
    } else {
      var p := ps[0];
      var from := pos + 3 + |p.name|;
      var end := from + |Body(p.value)|;
      GoodHead(ps);
      PropsHead(d, pos, ps, Props(ps), Body(p.value), Props(ps[1..]), from);
      FillStep(items, ps);
      PropsRead(d, end, ps[1..], Filled(items, p), last, out);
      PropRead(d, pos, p, items, from, end);
      ReadsOn(d, pos, items, end, Filled(items, p), last, out);
    }
  }

  lemma {:induction false} PropRead(d: seq<byte>, pos: nat, p: Prop, items: seq<Item>, from: nat, end: nat)
    requires HeadOk(d, pos, p) && |p.name| > 0 && Good(p.value) && Holds(d, from, Body(p.value))
    requires from == pos + 3 + |p.name| && end == from + |Body(p.value)|
    ensures GoesOn(d, pos, items, end, Filled(items, p))
    decreases p, 1
  {
    ValueRead(d, from, p.value, SlotAt(items, Find(items, p.name, Kind(p.value))));
    PropStep(d, pos, p, items, from, end);
  }

  lemma FillStep(items: seq<Item>, ps: seq<Prop>)
    requires ps != []
    ensures FillAll(items, ps) == FillAll(Filled(items, ps[0]), ps[1..])
  {
  }

  lemma EndRead(d: seq<byte>, pos: nat, items: seq<Item>)
    requires Holds(d, pos, [0, 0, OBJECT_END])
    ensures ReadsTo(d, pos, items, pos + 3, items)
  {
    assert BigEndian(0, 2) == [0, 0];
    assert [0, 0, OBJECT_END] == BigEndian(0, 2) + [OBJECT_END];
    HoldsSplit(d, pos, BigEndian(0, 2), [OBJECT_END]);
    IntRead(d, pos, 0, 2);
    assert d[pos + 2] == d[pos + 2..pos + 3][0];
  }

  lemma NameRead(d: seq<byte>, pos: nat, p: Prop)
    requires |p.name| < 65536 && Holds(d, pos, Name(p.name)) && Holds(d, pos + 2 + |p.name|, [Kind(p.value)])
    ensures HeadOk(d, pos, p)
  {
    HoldsSplit(d, pos, BigEndian(|p.name|, 2), p.name);
    assert Pow256(2) == 65536;
    IntRead(d, pos, |p.name|, 2);
    var at := pos + 2 + |p.name|;
    assert d[at] == d[at..at + 1][0];
  }

  lemma Parts(d: seq<byte>, pos: nat, name: seq<byte>, kind: seq<byte>, body: seq<byte>, more: seq<byte>, from: nat)
    requires Holds(d, pos, name + (kind + (body + more))) && |kind| == 1 && from == pos + |name| + 1
    ensures Holds(d, pos, name) && Holds(d, from - 1, kind) && Holds(d, from, body) && Holds(d, from + |body|, more)
  {
    HoldsSplit(d, pos, name, kind + (body + more));
    HoldsSplit(d, pos + |name|, kind, body + more);
    HoldsSplit(d, pos + |name| + |kind|, body, more);
  }

  lemma PropsAre(ps: seq<Prop>, body: seq<byte>, more: seq<byte>)
    requires ps != [] && body == Body(ps[0].value) && more == Props(ps[1..])
    ensures Props(ps) == Name(ps[0].name) + ([Kind(ps[0].value)] + (body + more))
  {
  }

  /** Where the parts of a property lie. */
  lemma HeadParts(d: seq<byte>, pos: nat, p: Prop, body: seq<byte>, more: seq<byte>)
    requires |p.name| < 65536 && Holds(d, pos, Name(p.name) + ([Kind(p.value)] + (body + more)))
    ensures var from := pos + 3 + |p.name|; HeadOk(d, pos, p) && Holds(d, from, body) && Holds(d, from + |body|, more)
  {
    Parts(d, pos, Name(p.name), [Kind(p.value)], body, more, pos + 3 + |p.name|);
    NameRead(d, pos, p);
  }

  // ---- What ends up in the slots -------------------------------------------------------

  ghost predicate DistinctNames(ps: seq<Prop>) {
    forall i, j :: 0 <= i < j < |ps| ==> ps[i].name != ps[j].name
  }

  /** Slot j is the first one for the property. */
  ghost predicate Wants(items: seq<Item>, j: nat, p: Prop) {
    && j < |items| && Matches(items[j], p.name, Kind(p.value))
    && forall i :: 0 <= i < j ==> !Matches(items[i], p.name, Kind(p.value))
  }

  ghost predicate SameSlots(a: seq<Item>, b: seq<Item>) {
    |a| == |b| && forall j :: 0 <= j < |a| ==> SameSlot(a[j], b[j])
  }

  lemma WantsIsFind(items: seq<Item>, j: nat, p: Prop)
    requires j < |items|
    ensures Wants(items, j, p) <==> Find(items, p.name, Kind(p.value)) == j
  {
  }

  lemma WantsSame(a: seq<Item>, b: seq<Item>, j: nat, p: Prop)
    requires SameSlots(a, b) && j < |a|
    ensures Wants(a, j, p) == Wants(b, j, p)
  {
  }

  lemma {:induction false} NobodyWants(items: seq<Item>, ps: seq<Prop>, j: nat)
    requires j < |items| && forall k :: 0 <= k < |ps| ==> !Wants(items, j, ps[k])
    ensures FillAll(items, ps)[j] == items[j]
    decreases |ps|
  {
    if ps != [] {
      var i := Find(items, ps[0].name, Kind(ps[0].value));
      WantsIsFind(items, j, ps[0]);
      var next := if i < |items| then items[i := Store(items[i], ps[0].value)] else items;
      forall k | 0 <= k < |ps[1..]| ensures !Wants(next, j, ps[1..][k]) { WantsSame(items, next, j, ps[k + 1]); }
      NobodyWants(next, ps[1..], j);
    }
  }

  /** With distinct names every property lands, unchanged, in the first slot of its name and type, and
      no other slot is touched. */
  lemma {:induction false} EachLandsOnce(items: seq<Item>, ps: seq<Prop>, k: nat, j: nat)
    requires DistinctNames(ps) && k < |ps| && Wants(items, j, ps[k])
    ensures FillAll(items, ps)[j] == Store(items[j], ps[k].value)
    decreases |ps|
  {
    var i := Find(items, ps[0].name, Kind(ps[0].value));
    WantsIsFind(items, j, ps[0]);
    var next := if i < |items| then items[i := Store(items[i], ps[0].value)] else items;
    if k == 0 {
      forall m | 0 <= m < |ps[1..]| ensures !Wants(next, j, ps[1..][m]) { assert ps[1..][m].name != ps[0].name; }
      NobodyWants(next, ps[1..], j);
    } else {
      assert ps[k].name != ps[0].name;
      WantsSame(items, next, j, ps[k]);
      assert ps[1..][k - 1] == ps[k];
      EachLandsOnce(next, ps[1..], k - 1, j);
    }
  }

  /** Element k of an array lands in the k-th slot, if the types fit, and in no other. */
  lemma {:induction false} ElementLands(items: seq<Item>, i: nat, vs: seq<Value>, j: nat)
    requires j < |items|
    ensures StoreEach(items, i, vs)[j] ==
            if i <= j < i + |vs| && TypeCheck(Kind(vs[j - i]), items[j].kind) then Store(items[j], vs[j - i])
            else items[j]
    decreases |vs|
  {
    if vs != [] { ElementLands(Placed(items, i, vs[0]), i + 1, vs[1..], j); }
  }

  /** An array with names that was written lands in the first slot of its name, if that asks for an object. */
  lemma ArrayForObject(items: seq<Item>, ps: seq<Prop>, k: nat, j: nat)
    requires DistinctNames(ps) && k < |ps| && ps[k].value.EcmaArray? && j < |items|
    requires items[j].kind == OBJECT && items[j].name == ps[k].name
    requires forall i :: 0 <= i < j ==> items[i].name != ps[k].name
    ensures FillAll(items, ps)[j] == items[j].(items := FillAll(items[j].items, ps[k].value.props))
  {
    EachLandsOnce(items, ps, k, j);
  }

  /** A string is stored exactly if the slot has room for it and its terminator. */
  lemma TextFits(item: Item, s: seq<byte>)
    requires item.held != Chars(s)
    ensures Store(item, Text(s)).held == Chars(s) <==> |s| + 1 <= item.size
    ensures |s| + 1 > item.size ==> Store(item, Text(s)) == item
  {
  }
}
