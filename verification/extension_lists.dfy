/** Lists of header extension elements as sections 4.2 and 4.3 of RFC 8285 write them, and what the search for an
    element and the rewriting of the send time do to them. */
module ExtensionLists {
  import opened Bytes
  import opened AbsSendTime

  /** An element, and the number of zero bytes behind it. */
  datatype Element = Element(id: byte, data: seq<byte>, padding: nat)

  predicate GoodElement(e: Element, wide: bool) {
    if wide then 1 <= e.id && |e.data| < 256 else 1 <= e.id < 16 && 1 <= |e.data| <= 16
  }

  ghost predicate GoodElements(es: seq<Element>, wide: bool) { forall e :: e in es ==> GoodElement(e, wide) }

  function Zeros(n: nat): seq<byte> { seq(n, _ => 0) }

  function Byte(n: int): byte { n % 256 }

  /** Id and length in two bytes, or in four bits each, the length less one; then data and padding. */
  function Header(e: Element, wide: bool): (h: seq<byte>)
    ensures |h| == HeaderLength(wide)
  { if wide then [e.id, Byte(|e.data|)] else [Byte(e.id * 16 + |e.data| - 1)] }

  function Encoded(e: Element, wide: bool): seq<byte> { Header(e, wide) + e.data + Zeros(e.padding) }

  function EncodeAll(es: seq<Element>, wide: bool): seq<byte> {
    if es == [] then [] else Encoded(es[0], wide) + EncodeAll(es[1..], wide)
  }

  /** k is the position of the first element with the id, or there is none. */
  ghost predicate FirstWith(es: seq<Element>, id: int, k: nat) {
    && k <= |es| && (k < |es| ==> es[k].id == id)
    && forall j :: 0 <= j < k ==> es[j].id != id
  }

  // ---- Finding -----------------------------------------------------------------------------------

  /** The bytes t lie at position pos of s. */
  ghost predicate Holds(s: seq<byte>, pos: nat, t: seq<byte>) { pos + |t| <= |s| && s[pos..pos + |t|] == t }

  lemma HoldsSum(s: seq<byte>, pos: nat, t: seq<byte>, u: seq<byte>)
    requires Holds(s, pos, t + u)
    ensures Holds(s, pos, t) && Holds(s, pos + |t|, u)
  {
    var both := s[pos..pos + |t + u|];
    assert both[..|t|] == t && both[|t|..] == u;
    assert both[..|t|] == s[pos..pos + |t|] && both[|t|..] == s[pos + |t|..pos + |t| + |u|];
  }

  lemma {:induction false} SkipsPadding(s: seq<byte>, pos: nat, end: nat, n: nat)
    requires pos + n <= end <= |s| && Holds(s, pos, Zeros(n)) && (pos + n < end ==> s[pos + n] != 0)
    ensures SkipZeros(s, pos, end) == pos + n
    decreases n
  {
    if n > 0 {
      assert Zeros(n) == [0] + Zeros(n - 1);
      HoldsSum(s, pos, [0], Zeros(n - 1));
      assert s[pos] == s[pos..pos + 1][0];
      SkipsPadding(s, pos + 1, end, n - 1);
    }
  }

  lemma HeaderRead(s: seq<byte>, pos: nat, e: Element, wide: bool)
    requires GoodElement(e, wide) && Holds(s, pos, Header(e, wide)) && pos + 1 < |s|
    ensures s[pos] != 0 && ElementId(s, pos, wide) == e.id && ElementLength(s, pos, wide) == |e.data|
  {
    var h := s[pos..pos + HeaderLength(wide)];
    assert s[pos] == h[0] && (wide ==> s[pos + 1] == h[1]);
  }

  /** What the search reads of an element. */
  lemma ElementRead(s: seq<byte>, pos: nat, e: Element, wide: bool)
    requires GoodElement(e, wide) && Holds(s, pos, Encoded(e, wide))
    ensures pos + 1 < |s| && s[pos] != 0 && ElementId(s, pos, wide) == e.id && ElementLength(s, pos, wide) == |e.data|
    ensures Holds(s, pos + HeaderLength(wide) + |e.data|, Zeros(e.padding))
  {
    HoldsSum(s, pos, Header(e, wide) + e.data, Zeros(e.padding));
    HoldsSum(s, pos, Header(e, wide), e.data);
    HeaderRead(s, pos, e, wide);
  }

  lemma WalkStep(s: seq<byte>, pos: nat, end: nat, e: Element, wide: bool, id: int, next: nat)
    requires GoodElement(e, wide) && Holds(s, pos, Encoded(e, wide)) && next == pos + |Encoded(e, wide)| <= end <= |s|
    requires next < end ==> s[next] != 0
    ensures Walk(s, pos, end, wide, id) ==
            if e.id == id then At(pos + HeaderLength(wide), |e.data|) else Walk(s, next, end, wide, id)
  {
    ElementRead(s, pos, e, wide);
    if e.id != id {
      SkipsPadding(s, next - e.padding, end, e.padding);
      WalkNext(s, pos, end, wide, id, next);
    }
  }

  /** Behind an element and its padding comes the next one, or the end. */
  lemma NextElement(s: seq<byte>, pos: nat, end: nat, es: seq<Element>, wide: bool, next: nat)
    requires GoodElements(es, wide) && es != [] && pos <= end <= |s| && s[pos..end] == EncodeAll(es, wide)
    requires next == pos + |Encoded(es[0], wide)|
    ensures Holds(s, pos, Encoded(es[0], wide)) && next <= end
    ensures s[next..end] == EncodeAll(es[1..], wide) && (next < end ==> s[next] != 0)
  {
    var rest := es[1..];
    assert Holds(s, pos, Encoded(es[0], wide) + EncodeAll(rest, wide));
    HoldsSum(s, pos, Encoded(es[0], wide), EncodeAll(rest, wide));
    if rest != [] {
      HoldsSum(s, next, Encoded(rest[0], wide), EncodeAll(rest[1..], wide));
      assert rest[0] in es;
      ElementRead(s, next, rest[0], wide);
    }
  }

  lemma PrefixEncoded(es: seq<Element>, wide: bool, k: nat)
    requires 0 < k <= |es|
    ensures EncodeAll(es[..k], wide) == Encoded(es[0], wide) + EncodeAll(es[1..][..k - 1], wide)
  {
    assert es[..k][1..] == es[1..][..k - 1] && es[..k][0] == es[0];
  }

  /** The search finds the data of the first element with the id, or that there is none. */
  lemma {:induction false} WalkFinds(s: seq<byte>, pos: nat, end: nat, es: seq<Element>, wide: bool, id: int, k: nat)
    requires GoodElements(es, wide) && pos <= end <= |s| && s[pos..end] == EncodeAll(es, wide) && FirstWith(es, id, k)
    ensures Walk(s, pos, end, wide, id) ==
            if k == |es| then Missing
            else At(pos + |EncodeAll(es[..k], wide)| + HeaderLength(wide), |es[k].data|)
    decreases |es|
  {
    if es != [] {
      var next := pos + |Encoded(es[0], wide)|;
      NextElement(s, pos, end, es, wide, next);
      assert es[0] in es;
      WalkStep(s, pos, end, es[0], wide, id, next);
      if k > 0 {
        WalkFinds(s, next, end, es[1..], wide, id, k - 1);
        PrefixEncoded(es, wide, k);
      }
    }
  }

  /** A packet whose extension block holds the elements, in either form. */
  ghost predicate Carries(s: seq<byte>, es: seq<Element>, wide: bool) {
    && ValidHeader(s) && HasExtension(s) && GoodElements(es, wide)
    && Int16(s, BaseLength(s)) == (if wide then TWO_BYTE else ONE_BYTE)
    && s[BlockStart(s)..BlockEnd(s)] == EncodeAll(es, wide)
  }

  /** In every packet with a list of elements, the first one with the id is found, by the position and the length of
      its data; or it is missing. */
  lemma FindsFirst(s: seq<byte>, es: seq<Element>, wide: bool, id: int, k: nat)
    requires Carries(s, es, wide) && FirstWith(es, id, k)
    ensures Find(s, id) ==
            if k == |es| then Missing
            else At(BlockStart(s) + |EncodeAll(es[..k], wide)| + HeaderLength(wide), |es[k].data|)
  {
    WalkFinds(s, BlockStart(s), BlockEnd(s), es, wide, id, k);
  }

  // ---- Whole packets -------------------------------------------------------------------------------

  function TwoBytes(v: nat): (r: seq<byte>)
    requires v < 65536
  { [v / 256, v % 256] }

  /** Version and padding bits, the extension bit and the number of sources; the rest of the fixed header; the
      sources; the form and the length of the extension block in words; the block; and what follows. */
  function RtpPacket(top: nat, fixed: seq<byte>, sources: seq<byte>, wide: bool, block: seq<byte>, rest: seq<byte>)
    : seq<byte>
    requires top < 8 && |fixed| == 11 && |sources| % 4 == 0 && |sources| < 64 && |block| % 4 == 0 && |block| / 4 < 65536
  {
    [top * 32 + 16 + |sources| / 4] + fixed + sources +
    TwoBytes(if wide then TWO_BYTE else ONE_BYTE) + TwoBytes(|block| / 4) + block + rest
  }

  /** Where the parts of such a packet are found. */
  lemma PacketParts(s: seq<byte>, front: seq<byte>, profile: seq<byte>, words: seq<byte>, block: seq<byte>,
                    rest: seq<byte>, b: nat)
    requires s == front + profile + words + block + rest && b == |front| && |profile| == |words| == 2
    ensures |s| >= b + 4 + |block| && Int16(s, b) == Int16(profile, 0) && Int16(s, b + 2) == Int16(words, 0)
    ensures s[b + 4..b + 4 + |block|] == block
  {
    assert s[b] == profile[0] && s[b + 1] == profile[1] && s[b + 2] == words[0] && s[b + 3] == words[1];
  }

  /** A packet that is put together like this is valid and carries its elements. */
  lemma PacketCarries(top: nat, fixed: seq<byte>, sources: seq<byte>, wide: bool, es: seq<Element>, rest: seq<byte>,
                      block: seq<byte>)
    requires top < 8 && |fixed| == 11 && |sources| % 4 == 0 && |sources| < 64 && |block| % 4 == 0 && |block| / 4 < 65536
    requires block == EncodeAll(es, wide) && GoodElements(es, wide)
    ensures Carries(RtpPacket(top, fixed, sources, wide, block, rest), es, wide)
  {
    var s := RtpPacket(top, fixed, sources, wide, block, rest);
    var front := [top * 32 + 16 + |sources| / 4] + fixed + sources;
    var profile, words := TwoBytes(if wide then TWO_BYTE else ONE_BYTE), TwoBytes(|block| / 4);
    PacketParts(s, front, profile, words, block, rest, |front|);
    FirstByte(top, |sources| / 4, s[0]);
    assert BaseLength(s) == |front| && BlockEnd(s) == |front| + 4 + |block|;
  }

  lemma FirstByte(top: nat, sources: nat, b: int)
    requires sources < 16 && b == top * 32 + 16 + sources
    ensures b % 16 == sources && b / 16 % 2 == 1
  {
    assert b / 16 == top * 2 + 1;
  }

  // ---- Rewriting -----------------------------------------------------------------------------------

  lemma {:induction false} SplitAt(es: seq<Element>, wide: bool, k: nat)
    requires k < |es|
    ensures EncodeAll(es, wide) == EncodeAll(es[..k], wide) + Encoded(es[k], wide) + EncodeAll(es[k + 1..], wide)
    decreases k
  {
    if k == 0 {
      assert [] + Encoded(es[0], wide) == Encoded(es[0], wide);
    } else {
      SplitAt(es[1..], wide, k - 1);
      PrefixEncoded(es, wide, k);
      assert es[1..][k - 1] == es[k] && es[1..][k..] == es[k + 1..];
      Regroup(Encoded(es[0], wide), EncodeAll(es[1..][..k - 1], wide), Encoded(es[k], wide),
              EncodeAll(es[k + 1..], wide));
    }
  }

  lemma Regroup(a: seq<byte>, b: seq<byte>, c: seq<byte>, d: seq<byte>)
    ensures a + (b + c + d) == a + b + c + d
  {
  }

  /** Overwriting inside the middle one of three parts. */
  lemma OverwriteMiddle(s: seq<byte>, start: nat, end: nat, a: seq<byte>, b: seq<byte>, c: seq<byte>,
                        i: nat, data: seq<byte>, p: nat)
    requires start <= end <= |s| && s[start..end] == a + b + c && i + |data| <= |b|
    requires p == start + |a| + i
    ensures Overwrite(s, p, data)[start..end] == a + Overwrite(b, i, data) + c
  {
    var t, m := s[start..end], Overwrite(s, p, data)[start..end];
    assert m == t[..|a| + i] + data + t[|a| + i + |data|..];
    assert t[..|a| + i] == a + b[..i] && t[|a| + i + |data|..] == b[i + |data|..] + c;
  }

  lemma NewData(e: Element, wide: bool, data: seq<byte>)
    requires GoodElement(e, wide) && |data| == |e.data|
    ensures GoodElement(e.(data := data), wide)
    ensures Encoded(e.(data := data), wide) == Overwrite(Encoded(e, wide), HeaderLength(wide), data)
  {
    assert Header(e.(data := data), wide) == Header(e, wide);
    OverwriteData(Header(e, wide), e.data, Zeros(e.padding), data);
  }

  lemma OverwriteData(h: seq<byte>, d: seq<byte>, z: seq<byte>, data: seq<byte>)
    requires |data| == |d|
    ensures Overwrite(h + d + z, |h|, data) == h + data + z
  {
  }

  lemma OtherElement(es: seq<Element>, wide: bool, k: nat, e: Element, fs: seq<Element>)
    requires k < |es| && fs == es[k := e]
    ensures EncodeAll(fs, wide) == EncodeAll(es[..k], wide) + Encoded(e, wide) + EncodeAll(es[k + 1..], wide)
    ensures GoodElements(es, wide) && GoodElement(e, wide) ==> GoodElements(fs, wide)
  {
    SplitAt(fs, wide, k);
    assert fs[..k] == es[..k] && fs[k + 1..] == es[k + 1..];
  }

  /** The block with other data of the same length in element k. */
  lemma BlockReplaced(s: seq<byte>, start: nat, end: nat, es: seq<Element>, wide: bool, k: nat, data: seq<byte>, p: nat,
                      fs: seq<Element>)
    requires start <= end <= |s| && s[start..end] == EncodeAll(es, wide)
    requires k < |es| && GoodElement(es[k], wide) && |data| == |es[k].data| && fs == es[k := es[k].(data := data)]
    requires p == start + |EncodeAll(es[..k], wide)| + HeaderLength(wide) && p + |data| <= |s|
    ensures Overwrite(s, p, data)[start..end] == EncodeAll(fs, wide)
  {
    var a, b, c := EncodeAll(es[..k], wide), Encoded(es[k], wide), EncodeAll(es[k + 1..], wide);
    SplitAt(es, wide, k);
    OverwriteMiddle(s, start, end, a, b, c, HeaderLength(wide), data, p);
    NewData(es[k], wide, data);
    OtherElement(es, wide, k, es[k].(data := data), fs);
  }

  /** Writing behind the start of the block changes neither where the block lies nor what form it has. */
  lemma SameBlock(s: seq<byte>, p: nat, data: seq<byte>)
    requires ValidHeader(s) && HasExtension(s) && BlockStart(s) <= p && p + |data| <= |s|
    ensures var t := Overwrite(s, p, data);
            && ValidHeader(t) && HasExtension(t) && BlockStart(t) == BlockStart(s) && BlockEnd(t) == BlockEnd(s)
            && Int16(t, BaseLength(t)) == Int16(s, BaseLength(s))
  {
    SameHeader(s, Overwrite(s, p, data), p);
  }

  lemma CarriesReplaced(s: seq<byte>, es: seq<Element>, wide: bool, k: nat, data: seq<byte>, p: nat)
    requires Carries(s, es, wide) && k < |es| && |data| == |es[k].data|
    requires p == BlockStart(s) + |EncodeAll(es[..k], wide)| + HeaderLength(wide) && p + |data| <= |s|
    ensures Carries(Overwrite(s, p, data), es[k := es[k].(data := data)], wide)
  {
    var fs := es[k := es[k].(data := data)];
    assert es[k] in es;
    BlockReplaced(s, BlockStart(s), BlockEnd(s), es, wide, k, data, p, fs);
    SameBlock(s, p, data);
    NewData(es[k], wide, data);
    OtherElement(es, wide, k, es[k].(data := data), fs);
  }

  /** Rewriting a packet replaces the data of the first element with the id, if it has three bytes, by the send time,
      and nothing else. */
  lemma RewriteReplaces(s: seq<byte>, es: seq<Element>, wide: bool, id: int, timeUs: nat, k: nat)
    requires Carries(s, es, wide) && FirstWith(es, id, k) && k < |es| && |es[k].data| == 3
    ensures Carries(Rewritten(s, id, timeUs), es[k := es[k].(data := BigEndian(ToFixed(timeUs), 3))], wide)
  {
    FindsFirst(s, es, wide, id, k);
    CarriesReplaced(s, es, wide, k, BigEndian(ToFixed(timeUs), 3), Find(s, id).pos);
  }
}
