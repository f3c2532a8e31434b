/** Percent-encoding of URLs, and the request path that is stored decoded. */
module UrlCodec {
  import opened Bytes

  const SPACE: byte := 32
  const PERCENT: byte := 37
  const PLUS: byte := 43

  /** Letters, digits and - _ . ! ~ * ' ( ) & = / \ ? */
  predicate IsPlain(c: byte) {
    || 48 <= c <= 57 || 65 <= c <= 90 || 97 <= c <= 122
    || c in {45, 95, 46, 33, 126, 42, 39, 40, 41, 38, 61, 47, 92, 63}
  }

  function EncodeByte(c: byte): seq<byte> {
    if c == SPACE then [PLUS]
    else if IsPlain(c) then [c]
    else [PERCENT, HexChar(c / 16), HexChar(c % 16)]
  }

  function Encode(s: seq<byte>): seq<byte> { if s == [] then [] else EncodeByte(s[0]) + Encode(s[1..]) }

  predicate Escape(s: seq<byte>) { |s| >= 3 && s[0] == PERCENT && IsHexDigit(s[1]) && IsHexDigit(s[2]) }

  function Decode(s: seq<byte>): seq<byte> {
    if s == [] then []
    else if Escape(s) then [HexValue(s[1]) * 16 + HexValue(s[2])] + Decode(s[3..])
    else [if s[0] == PLUS then SPACE else s[0]] + Decode(s[1..])
  }

  lemma DecodeByte(c: byte, rest: seq<byte>)
    ensures Decode(EncodeByte(c) + rest) == [c] + Decode(rest)
  {
    var s := EncodeByte(c) + rest;
    if c == SPACE || IsPlain(c) {
      assert s[1..] == rest;
    } else {
      assert s[3..] == rest;
      assert HexValue(s[1]) == c / 16 && HexValue(s[2]) == c % 16;
    }
  }

  /** Decoding undoes encoding, for every byte string. */
  lemma {:induction false} DecodeEncode(s: seq<byte>)
    ensures Decode(Encode(s)) == s
  {
    if s != [] {
      DecodeByte(s[0], Encode(s[1..]));
      DecodeEncode(s[1..]);
    }
  }

  /** What is sent consists of plain characters, plus signs and complete escapes only. */
  lemma {:induction false} EncodedIsSafe(s: seq<byte>)
    ensures forall i :: 0 <= i < |Encode(s)| ==>
                          var c := Encode(s)[i];
                          IsPlain(c) || c == PLUS || (c == PERCENT && Escape(Encode(s)[i..]))
  {
    if s != [] {
      EncodedIsSafe(s[1..]);
      var e, f := EncodeByte(s[0]), Encode(s[1..]);
      forall i | 0 <= i < |e + f|
        ensures IsPlain((e + f)[i]) || (e + f)[i] == PLUS || ((e + f)[i] == PERCENT && Escape((e + f)[i..]))
      {
        if i >= |e| { assert (e + f)[i..] == f[i - |e|..] && (e + f)[i] == f[i - |e|]; }
      }
    }
  }

  /** A string decodes to itself exactly when it has no plus sign and no escape. */
  ghost predicate Literal(s: seq<byte>) { forall i :: 0 <= i < |s| ==> s[i] != PLUS && !Escape(s[i..]) }

  lemma {:induction false} DecodeShrinks(s: seq<byte>)
    ensures |Decode(s)| <= |s|
  {
    if Escape(s) { DecodeShrinks(s[3..]); } else if s != [] { DecodeShrinks(s[1..]); }
  }

  lemma {:induction false} FixedIffLiteral(s: seq<byte>)
    ensures Decode(s) == s <==> Literal(s)
  {
    if s != [] {
      assert s[0..] == s;
      if Escape(s) {
        DecodeShrinks(s[3..]);
      } else {
        FixedIffLiteral(s[1..]);
        assert forall i :: 0 <= i < |s[1..]| ==> s[1..][i..] == s[i + 1..];
        assert Decode(s)[1..] == Decode(s[1..]);
        if Literal(s[1..]) && s[0] != PLUS {
          forall i | 0 <= i < |s| ensures s[i] != PLUS && !Escape(s[i..]) {
            if i > 0 { assert s[1..][i - 1] == s[i] && s[1..][i - 1..] == s[i..]; }
          }
        }
        if Literal(s) {
          forall i | 0 <= i < |s[1..]| ensures s[1..][i] != PLUS && !Escape(s[1..][i..]) {
            assert s[1..][i] == s[i + 1] && s[1..][i..] == s[i + 1..];
          }
        }
      }
    }
  }

  // ---- The loops ------------------------------------------------------------------------

  method CharToHex(c: byte) returns (r: seq<byte>)
    ensures |r| == 2 && IsHexDigit(r[0]) && IsHexDigit(r[1]) && HexValue(r[0]) * 16 + HexValue(r[1]) == c
    ensures r == [HexChar(c / 16), HexChar(c % 16)]
  {
    var first, second := c / 16, c % 16;
    first := first + if first > 9 then 55 else 48;
    second := second + if second > 9 then 55 else 48;
    r := [first, second];
  }

  lemma EncodeNext(src: seq<byte>, i: nat)
    requires i < |src|
    ensures Encode(src[i..]) == EncodeByte(src[i]) + Encode(src[i + 1..])
  {
    assert src[i..][0] == src[i] && src[i..][1..] == src[i + 1..];
  }

  method AppendByte(c: byte, to: seq<byte>) returns (result: seq<byte>)
    ensures result == to + EncodeByte(c)
  {
    if c == SPACE {
      result := to + [PLUS];
    } else if IsPlain(c) {
      result := to + [c];
    } else {
      var hex := CharToHex(c);
      result := to + [PERCENT] + hex;
    }
  }

  method UrlEncode(src: seq<byte>) returns (result: seq<byte>)
    ensures result == Encode(src) && Decode(result) == src
  {
    result := [];
    assert src[0..] == src;
    for i := 0 to |src|
      invariant result + Encode(src[i..]) == Encode(src)
    {
      EncodeNext(src, i);
      ghost var e, rest := EncodeByte(src[i]), Encode(src[i + 1..]);
      assert result + (e + rest) == result + e + rest;
      result := AppendByte(src[i], result);
    }
    assert src[|src|..] == [] && result + [] == result;
    DecodeEncode(src);
  }

  method NeedUrlDecoding(url: seq<byte>) returns (r: bool)
    ensures r <==> PLUS in url || PERCENT in url
  {
    var i := 0;
    while i < |url|
      invariant i <= |url| && forall j :: 0 <= j < i ==> url[j] != PLUS && url[j] != PERCENT
    {
      if url[i] == PLUS || url[i] == PERCENT { return true; }
      i := i + 1;
    }
    r := false;
  }

  /** The byte that decoding gives at position i, and the position it goes on from. */
  function DecodedAt(url: seq<byte>, i: nat): (r: (byte, nat))
    requires i < |url|
    ensures i < r.1 <= |url|
  {
    if i + 2 < |url| && url[i] == PERCENT && IsHexDigit(url[i + 1]) && IsHexDigit(url[i + 2])
    then (HexValue(url[i + 1]) * 16 + HexValue(url[i + 2]), i + 3)
    else (if url[i] == PLUS then SPACE else url[i], i + 1)
  }

  lemma DecodeNext(url: seq<byte>, i: nat)
    requires i < |url|
    ensures Decode(url[i..]) == [DecodedAt(url, i).0] + Decode(url[DecodedAt(url, i).1..])
  {
    var rest := url[i..];
    assert rest[0] == url[i] && rest[1..] == url[i + 1..];
    if |rest| >= 3 { assert rest[1] == url[i + 1] && rest[2] == url[i + 2] && rest[3..] == url[i + 3..]; }
  }

  /** One turn of the decoding loop. */
  method DecodeOne(url: seq<byte>, i: nat) returns (c: byte, next: nat)
    requires i < |url|
    ensures (c, next) == DecodedAt(url, i)
  {
    next := i + 1;
    if url[i] == PLUS {
      c := SPACE;
    } else if url[i] == PERCENT && i + 2 < |url| && IsHexDigit(url[i + 1]) && IsHexDigit(url[i + 2]) {
      c := HexValue(url[i + 1]) * 16 + HexValue(url[i + 2]);
      next := i + 3;
    } else {
      c := url[i];
    }
  }

  method UrlDecode(url: seq<byte>) returns (result: seq<byte>)
    ensures result == Decode(url)
    ensures forall s :: url == Encode(s) ==> result == s
  {
    result := [];
    var i := 0;
    assert url[0..] == url;
    while i < |url|
      invariant i <= |url| && result + Decode(url[i..]) == Decode(url)
    {
      DecodeNext(url, i);
      var c, next := DecodeOne(url, i);
      ghost var rest := Decode(url[next..]);
      assert result + ([c] + rest) == result + [c] + rest;
      result, i := result + [c], next;
    }
    assert url[i..] == [] && result + [] == result;
    forall s | url == Encode(s) ensures result == s { DecodeEncode(s); }
  }

  class HttpRequest {
    var path: seq<byte>

    constructor ()
      ensures path == []
    {
      path := [];
    }

    /** The path is stored decoded, on either branch. */
    method SetPath(p: seq<byte>)
      modifies this
      ensures path == Decode(p)
    {
      var need := NeedUrlDecoding(p);
      if need {
        path := UrlDecode(p);
      } else {
        FixedIffLiteral(p);
        path := p;
      }
    }
  }
}
