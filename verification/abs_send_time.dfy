/** The 24-bit absolute send time of RTP packets: a fixed-point number of seconds with 18 fractional bits,
    and its rewriting in place inside the header extension block (sections 4.2 and 4.3 of RFC 8285). */
module AbsSendTime {
  import opened Bytes

  const ONE: nat := 262144
  const MICROS: nat := 1000000
  const RANGE: nat := 0x100_0000
  const PERIOD: nat := 64000000

  // ---- The fixed-point format -----------------------------------------------------------

  /** A time in microseconds as a 24-bit number; the shift is that of a 64-bit word. */
  function ToFixed(timeUs: nat): (f: nat)
    ensures f < RANGE
  { timeUs * ONE % 0x1_0000_0000_0000_0000 / MICROS % RANGE }

  function Timestamp(f: nat): nat { f * MICROS / ONE }

  /** Division that drops the fraction. */
  function TruncDiv(a: int, b: nat): int
    requires b > 0
  { if a >= 0 then a / b else -(-a / b) }

  /** The difference of two 24-bit numbers as a signed one: shifted up to the top of a 32-bit word and back. */
  function SignedDelta(now: nat, before: nat): (d: int)
    requires now < RANGE && before < RANGE
  {
    var d := if now >= before then now - before else now - before + RANGE;
    if d < RANGE / 2 then d else d - RANGE
  }

  function TimeDelta(now: nat, before: nat): int
    requires now < RANGE && before < RANGE
  { TruncDiv(SignedDelta(now, before) * MICROS, ONE) }

  /** The whole number of 2^-18 seconds in a time. */
  function Units(timeUs: nat): nat { timeUs * ONE / MICROS }

  lemma UnitsBound(t: nat)
    ensures Units(t) * MICROS <= t * ONE < (Units(t) + 1) * MICROS
  {
  }

  lemma FixedIsUnits(t: nat)
    requires t < 0x4000_0000_0000
    ensures ToFixed(t) == Units(t) % RANGE
  {
  }

  /** Units of a time are those of its whole periods and of the rest. */
  lemma UnitsOfPeriods(t: nat)
    ensures Units(t) == t / PERIOD * RANGE + Units(t % PERIOD) && Units(t % PERIOD) < RANGE
  {
    var k, u := t / PERIOD, t % PERIOD;
    assert t * ONE == k * RANGE * MICROS + u * ONE;
    UnitsBound(u);
    UnitsBound(t);
  }

  /** A time below 2^46 decodes to itself modulo 64 seconds, never late and at most 4 microseconds early. */
  lemma DecodesToTime(t: nat)
    requires t < 0x4000_0000_0000
    ensures 0 <= t % PERIOD - Timestamp(ToFixed(t)) <= 4
  {
    UnitsOfPeriods(t);
    FixedIsUnits(t);
    WholePeriods(t / PERIOD, Units(t % PERIOD));
    UnitsBound(t % PERIOD);
    EarlyByFour(t % PERIOD, Units(t % PERIOD));
  }

  lemma WholePeriods(k: nat, v: nat)
    requires v < RANGE
    ensures (k * RANGE + v) % RANGE == v
  {
  }

  lemma EarlyByFour(u: nat, f: nat)
    requires f * MICROS <= u * ONE < (f + 1) * MICROS
    ensures 0 <= u - Timestamp(f) <= 4
  {
  }

  /** The signed difference is that of the units, also across the wrap, while it fits. */
  lemma DeltaOfUnits(a: nat, b: nat)
    requires -(RANGE as int / 2) <= a - b < RANGE / 2
    ensures SignedDelta(a % RANGE, b % RANGE) == a - b
  {
  }

  lemma TruncError(d: int)
    ensures var e: int := d * MICROS - TruncDiv(d * MICROS, ONE) * ONE; -262144 < e < 262144
  {
  }

  /** Differences of up to 31.999996 seconds are recovered to less than 5 microseconds, in both directions and
      across the wrap. */
  lemma RecoversDelta(t: nat, before: nat)
    requires t < 0x4000_0000_0000 && before < 0x4000_0000_0000
    requires -31999996 <= t - before <= 31999996
    ensures -5 < TimeDelta(ToFixed(t), ToFixed(before)) - (t - before) < 5
  {
    FixedIsUnits(t);
    FixedIsUnits(before);
    UnitsBound(t);
    UnitsBound(before);
    var d := Units(t) - Units(before);
    DeltaOfUnits(Units(t), Units(before));
    TruncError(d);
  }

  /** One microsecond further the difference can come out with the wrong sign. */
  lemma TooFarApart()
    ensures exists t: nat, before: nat :: t - before == 31999997 && TimeDelta(ToFixed(t), ToFixed(before)) < 0
  {
    var before := 3;
    var t := before + 31999997;
    assert TimeDelta(ToFixed(t), ToFixed(before)) < 0;
  }

  // ---- The header -----------------------------------------------------------------------

  const MIN_PACKET: nat := 12

  function BaseLength(s: seq<byte>): nat
    requires |s| >= 1
  { MIN_PACKET + 4 * (s[0] % 16) }

  predicate HasExtension(s: seq<byte>)
    requires |s| >= 1
  { s[0] / 16 % 2 == 1 }

  function Int16(s: seq<byte>, i: nat): nat
    requires i + 2 <= |s|
  { s[i] as nat * 256 + s[i + 1] as nat }

  /** The fixed header, the sources and the extension block all lie within the packet. */
  predicate ValidHeader(s: seq<byte>) {
    && |s| >= MIN_PACKET && BaseLength(s) <= |s|
    && (HasExtension(s) ==> BaseLength(s) + 4 <= |s| && BlockEnd(s) <= |s|)
  }

  function BlockStart(s: seq<byte>): nat
    requires |s| >= 1
  { BaseLength(s) + 4 }

  function BlockEnd(s: seq<byte>): nat
    requires |s| >= 1 && BaseLength(s) + 4 <= |s|
  { BlockStart(s) + 4 * Int16(s, BaseLength(s) + 2) }

  method ValidateRtpHeader(s: seq<byte>) returns (ok: bool, headerLength: nat)
    ensures ok == ValidHeader(s) && headerLength <= |s|
    ensures headerLength == if !ok then 0 else if HasExtension(s) then BlockEnd(s) else BaseLength(s)
  {
    headerLength := 0;
    if |s| < MIN_PACKET { return false, 0; }
    var sources := s[0] % 16;
    var base := MIN_PACKET + 4 * sources;
    if base > |s| { return false, 0; }
    if s[0] / 16 % 2 == 0 { return true, base; }
    if base + 4 > |s| { return false, 0; }
    var total := Int16(s, base + 2) * 4 + base + 4;
    if total > |s| { return false, 0; }
    return true, total;
  }

  // ---- The extension block -------------------------------------------------------------

  const ONE_BYTE: nat := 0xBEDE
  const TWO_BYTE: nat := 0x1000

  /** The element looked for is missing, an element does not fit, or its data lies at pos. */
  datatype Search = Missing | Broken | At(pos: nat, len: nat)

  function SkipZeros(s: seq<byte>, pos: nat, end: nat): (r: nat)
    requires pos <= end <= |s|
    ensures pos <= r <= end
    decreases end - pos
  { if pos < end && s[pos] == 0 then SkipZeros(s, pos + 1, end) else pos }

  lemma {:induction false} SkipsExactlyZeros(s: seq<byte>, pos: nat, end: nat)
    requires pos <= end <= |s|
    ensures var r := SkipZeros(s, pos, end); (forall i :: pos <= i < r ==> s[i] == 0) && (r < end ==> s[r] != 0)
    decreases end - pos
  {
    if pos < end && s[pos] == 0 { SkipsExactlyZeros(s, pos + 1, end); }
  }

  function ElementId(s: seq<byte>, pos: nat, wide: bool): nat
    requires pos < |s|
  { if wide then s[pos] else s[pos] / 16 }

  function ElementLength(s: seq<byte>, pos: nat, wide: bool): nat
    requires pos + 1 < |s|
  { if wide then s[pos + 1] else s[pos] % 16 + 1 }

  function HeaderLength(wide: bool): nat { if wide then 2 else 1 }

  /** The first element with the given id from pos on. */
  function Walk(s: seq<byte>, pos: nat, end: nat, wide: bool, id: int): (r: Search)
    requires pos <= end <= |s|
    ensures r.At? ==> pos + HeaderLength(wide) <= r.pos && r.pos + r.len <= end
    decreases end - pos
  {
    if pos + 1 >= end then Missing
    else
      var data, len := pos + HeaderLength(wide), ElementLength(s, pos, wide);
      if data + len > end then Broken
      else if ElementId(s, pos, wide) == id then At(data, len)
      else Walk(s, SkipZeros(s, data + len, end), end, wide, id)
  }

  function Find(s: seq<byte>, id: int): (r: Search)
    requires ValidHeader(s) && HasExtension(s)
    ensures r.At? ==> BlockStart(s) < r.pos && r.pos + r.len <= BlockEnd(s)
  {
    var profile := Int16(s, BaseLength(s));
    if profile == ONE_BYTE || profile == TWO_BYTE
    then Walk(s, BlockStart(s), BlockEnd(s), profile == TWO_BYTE, id) else Missing
  }

  ghost predicate Agree(s: seq<byte>, s': seq<byte>, p: nat) {
    p <= |s| == |s'| && forall i :: 0 <= i < p ==> s'[i] == s[i]
  }

  lemma ElementSame(s: seq<byte>, s': seq<byte>, pos: nat, wide: bool, p: nat)
    requires Agree(s, s', p) && pos + 1 < |s| && pos + HeaderLength(wide) <= p
    ensures ElementId(s', pos, wide) == ElementId(s, pos, wide) &&
            ElementLength(s', pos, wide) == ElementLength(s, pos, wide)
  {
  }

  /** The search goes on behind an element that is not the one, and the padding after it. */
  lemma WalkNext(s: seq<byte>, pos: nat, end: nat, wide: bool, id: int, next: nat)
    requires pos + 1 < end <= |s| && ElementId(s, pos, wide) != id
    requires pos + HeaderLength(wide) + ElementLength(s, pos, wide) <= end
    requires next == SkipZeros(s, pos + HeaderLength(wide) + ElementLength(s, pos, wide), end)
    ensures Walk(s, pos, end, wide, id) == Walk(s, next, end, wide, id)
  {
  }

  /** The search reads nothing from the data it finds on. */
  lemma {:induction false} WalkStable(s: seq<byte>, s': seq<byte>, pos: nat, end: nat, wide: bool, id: int, r: Search)
    requires pos <= end <= |s| && r.At? && Walk(s, pos, end, wide, id) == r && Agree(s, s', r.pos)
    ensures Walk(s', pos, end, wide, id) == r
    decreases end - pos
  {
    ElementSame(s, s', pos, wide, r.pos);
    if ElementId(s, pos, wide) != id {
      var after := pos + HeaderLength(wide) + ElementLength(s, pos, wide);
      var next := SkipZeros(s, after, end);
      SkipZerosStable(s, s', after, end, next, r.pos);
      WalkStable(s, s', next, end, wide, id, r);
      WalkNext(s', pos, end, wide, id, next);
    }
  }

  lemma {:induction false} SkipZerosStable(s: seq<byte>, s': seq<byte>, pos: nat, end: nat, next: nat, p: nat)
    requires pos <= next < end <= |s| && SkipZeros(s, pos, end) == next < p && Agree(s, s', p)
    ensures SkipZeros(s', pos, end) == next
    decreases end - pos
  {
    if s[pos] == 0 { SkipZerosStable(s, s', pos + 1, end, next, p); }
  }

  /** The packet with the send time in the element found, if it has room for exactly that. */
  ghost function Rewritten(s: seq<byte>, id: int, timeUs: nat): (r: seq<byte>)
    requires ValidHeader(s)
    ensures |r| == |s|
  {
    if HasExtension(s) && Find(s, id).At? && Find(s, id).len == 3
    then Overwrite(s, Find(s, id).pos, BigEndian(ToFixed(timeUs), 3)) else s
  }

  /** At most three bytes change, all inside the extension block. */
  lemma RewriteIsLocal(s: seq<byte>, id: int, timeUs: nat, i: nat)
    requires ValidHeader(s) && i < |s| && Rewritten(s, id, timeUs)[i] != s[i]
    ensures HasExtension(s) && BlockStart(s) < i < BlockEnd(s)
    ensures Find(s, id).At? && Find(s, id).pos <= i < Find(s, id).pos + 3
  {
  }

  /** The rewritten packet is valid, the element is found at the same place, and it holds the send time, so
      that rewriting again replaces it. */
  lemma RewriteReadsBack(s: seq<byte>, id: int, timeUs: nat)
    requires ValidHeader(s) && HasExtension(s) && Find(s, id).At? && Find(s, id).len == 3
    ensures var s', p := Rewritten(s, id, timeUs), Find(s, id).pos;
            && ValidHeader(s') && HasExtension(s') && Find(s', id) == Find(s, id)
            && Value(s'[p..p + 3]) == ToFixed(timeUs)
  {
    var p, data := Find(s, id).pos, BigEndian(ToFixed(timeUs), 3);
    FindStable(s, Overwrite(s, p, data), id);
    assert Pow256(3) == RANGE by { assert Pow256(2) == 65536; }
    ReadWrite(ToFixed(timeUs), 3);
  }

  lemma FindStable(s: seq<byte>, s': seq<byte>, id: int)
    requires ValidHeader(s) && HasExtension(s) && Find(s, id).At?
    requires |s| == |s'| && s'[..Find(s, id).pos] == s[..Find(s, id).pos]
    ensures ValidHeader(s') && HasExtension(s') && Find(s', id) == Find(s, id)
  {
    SameHeader(s, s', Find(s, id).pos);
    WalkStable(s, s', BlockStart(s), BlockEnd(s), Int16(s, BaseLength(s)) == TWO_BYTE, id, Find(s, id));
  }

  lemma SameHeader(s: seq<byte>, s': seq<byte>, p: nat)
    requires ValidHeader(s) && HasExtension(s) && BlockStart(s) <= p <= |s| == |s'| && s'[..p] == s[..p]
    ensures ValidHeader(s') && HasExtension(s') && BaseLength(s') == BaseLength(s) && BlockEnd(s') == BlockEnd(s)
    ensures Int16(s', BaseLength(s)) == Int16(s, BaseLength(s)) && Agree(s, s', p)
  {
    assert forall i :: 0 <= i < p ==> s'[i] == s'[..p][i] && s[i] == s[..p][i];
  }

  // ---- Rewriting in place ------------------------------------------------------------------

  method UpdateValue(a: array<byte>, pos: nat, len: nat, timeUs: nat)
    requires pos + len <= a.Length
    modifies a
    ensures a[..] == if len == 3 then Overwrite(old(a[..]), pos, BigEndian(ToFixed(timeUs), 3)) else old(a[..])
  {
    if len != 3 { return; }
    var f := ToFixed(timeUs);
    a[pos] := f / 65536 % 256;
    a[pos + 1] := f / 256 % 256;
    a[pos + 2] := f % 256;
    ThreeBytes(f);
    assert a[..] == Overwrite(old(a[..]), pos, BigEndian(f, 3));
  }

  lemma ThreeBytes(f: nat)
    ensures BigEndian(f, 3) == [f / 65536 % 256, f / 256 % 256, f % 256]
  {
    assert f / 256 / 256 == f / 65536;
    assert BigEndian(f, 3) == BigEndian(f / 256, 2) + [f % 256];
    assert BigEndian(f / 256, 2) == BigEndian(f / 65536, 1) + [f / 256 % 256];
    assert BigEndian(f / 65536, 1) == BigEndian(f / 65536 / 256, 0) + [f / 65536 % 256];
  }

  method SkipPadding(a: array<byte>, from: nat, end: nat) returns (pos: nat)
    requires from <= end <= a.Length
    ensures pos == SkipZeros(a[..], from, end) && from <= pos <= end
  {
    pos := from;
    while pos < end && a[pos] == 0
      invariant from <= pos <= end && SkipZeros(a[..], from, end) == SkipZeros(a[..], pos, end)
    {
      pos := pos + 1;
    }
  }

  /** Where the data of the first element with the given id lies. */
  method FindElement(a: array<byte>, start: nat, end: nat, wide: bool, id: int) returns (r: Search)
    requires start <= end <= a.Length
    ensures r == Walk(a[..], start, end, wide, id)
  {
    var pos := start;
    ghost var s := a[..];
    while pos + 1 < end
      invariant start <= pos <= end && Walk(s, start, end, wide, id) == Walk(s, pos, end, wide, id)
      decreases end - pos
    {
      assert a[pos] == s[pos] && a[pos + 1] == s[pos + 1];
      var data := pos + if wide then 2 else 1;
      var len: nat := if wide then a[pos + 1] else a[pos] % 16 + 1;
      if data + len > end { return Broken; }
      if (if wide then a[pos] else a[pos] / 16) == id { return At(data, len); }
      pos := SkipPadding(a, data + len, end);
    }
    r := Missing;
  }

  /** The packet is rewritten in place; true unless the element is missing or the block is broken. */
  method UpdateRtpAbsSendTimeExtension(a: array<byte>, id: int, timeUs: nat) returns (found: bool)
    requires ValidHeader(a[..])
    modifies a
    ensures a[..] == Rewritten(old(a[..]), id, timeUs)
    ensures found == old(!HasExtension(a[..]) || Find(a[..], id).At?)
  {
    if a[0] / 16 % 2 == 0 { return true; }
    var r := FindInBlock(a, id);
    if r.At? { UpdateValue(a, r.pos, r.len, timeUs); }
    found := r.At?;
  }

  method FindInBlock(a: array<byte>, id: int) returns (r: Search)
    requires ValidHeader(a[..]) && HasExtension(a[..])
    ensures r == Find(a[..], id)
  {
    var base := MIN_PACKET + 4 * (a[0] % 16);
    ghost var s := a[..];
    assert s[base] == a[base] && s[base + 1] == a[base + 1] && s[base + 2] == a[base + 2] && s[base + 3] == a[base + 3];
    var profile := a[base] as nat * 256 + a[base + 1] as nat;
    var end := base + 4 + 4 * (a[base + 2] as nat * 256 + a[base + 3] as nat);
    if profile != ONE_BYTE && profile != TWO_BYTE { return Missing; }
    r := FindElement(a, base + 4, end, profile == TWO_BYTE, id);
  }
}
