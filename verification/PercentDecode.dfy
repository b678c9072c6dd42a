/** Percent decoding of paths in src/dashboard.rs, on bytes.  Escapes are those of section 2.1 of
    RFC 3986, but the hexadecimal parser also takes a leading plus sign. */
module PercentDecode {
  import opened Common

  type Bytes = seq<Byte>

  const PERCENT: Byte := 0x25
  const PLUS: Byte := 0x2b

  predicate IsHex(b: Byte) { 0x30 <= b <= 0x39 || 0x41 <= b <= 0x46 || 0x61 <= b <= 0x66 }

  function HexValue(b: Byte): nat
    requires IsHex(b)
  {
    if b <= 0x39 then b - 0x30 else if b <= 0x46 then b - 0x37 else b - 0x57
  }

  /** `u8::from_str_radix` in base 16 on two bytes; bytes that are not text give an error, too. */
  function ParseHex(a: Byte, b: Byte): Option<Byte> {
    if IsHex(a) && IsHex(b) then Some(HexValue(a) * 16 + HexValue(b))
    else if a == PLUS && IsHex(b) then Some(HexValue(b))
    else None
  }

  /** The digits, by value, in both cases; and the two signs. */
  const LOWER := "0123456789abcdef"
  const UPPER := "0123456789ABCDEF"

  lemma Characters(v: nat)
    requires v < 16
    ensures LOWER[v] as int == if v < 10 then 0x30 + v else 0x57 + v
    ensures UPPER[v] as int == if v < 10 then 0x30 + v else 0x37 + v
  {
  }

  lemma DigitValue(b: Byte, v: nat)
    requires v < 16
    ensures IsDigit(b, v) <==> IsHex(b) && HexValue(b) == v
  {
    Characters(v);
  }

  lemma HexDigits(b: Byte)
    ensures IsHex(b) <==> exists v: nat :: v < 16 && IsDigit(b, v)
    ensures forall v: nat :: v < 16 && IsDigit(b, v) ==> IsHex(b) && HexValue(b) == v
    ensures PERCENT == '%' as int && PLUS == '+' as int
  {
    forall v: nat | v < 16
      ensures IsDigit(b, v) <==> IsHex(b) && HexValue(b) == v
    {
      DigitValue(b, v);
    }
    if IsHex(b) { assert IsDigit(b, HexValue(b)); }
  }

  predicate IsDigit(b: Byte, v: nat)
    requires v < 16
  {
    b == LOWER[v] as int || b == UPPER[v] as int
  }

  /** What counts as an escape: a percent sign and two hexadecimal digits, or a plus sign and one. */
  lemma EscapeMeaning(s: Bytes, i: nat, b: Byte)
    requires i < |s|
    ensures EscapeAt(s, i) == Some(b) <==>
      && s[i] == '%' as int && i + 2 < |s|
      && var first, second := s[i + 1], s[i + 2];
      exists high: nat, low: nat ::
        high < 16 && low < 16 && IsEscape(first, second, high, low) && b == 16 * high + low
  {
    if s[i] == PERCENT && i + 2 < |s| {
      HexDigits(s[i + 1]);
      HexDigits(s[i + 2]);
      if IsHex(s[i + 2]) {
        var low := HexValue(s[i + 2]);
        if IsHex(s[i + 1]) {
          assert IsEscape(s[i + 1], s[i + 2], HexValue(s[i + 1]), low);
        } else if s[i + 1] == PLUS {
          assert IsEscape(s[i + 1], s[i + 2], 0, low);
        }
      }
    }
  }

  predicate IsEscape(first: Byte, second: Byte, high: nat, low: nat)
    requires high < 16 && low < 16
  {
    (IsDigit(first, high) || (first == '+' as int && high == 0)) && IsDigit(second, low)
  }

  /** The byte that an escape at position `i` stands for, if there is one. */
  function EscapeAt(s: Bytes, i: nat): Option<Byte>
    requires i < |s|
  {
    if s[i] == PERCENT && i + 2 < |s| then ParseHex(s[i + 1], s[i + 2]) else None
  }

  function Decode(s: Bytes): Bytes {
    if s == [] then []
    else match EscapeAt(s, 0)
      case Some(b) => [b] + Decode(s[3..])
      case None => [s[0]] + Decode(s[1..])
  }

  /** One turn of the loop at position `i`. */
  lemma DecodeAt(s: Bytes, i: nat)
    requires i < |s|
    ensures var e := EscapeAt(s, i);
      (e.Some? ==> i + 3 <= |s|) &&
      Decode(s[i..]) == if e.Some? then [e.value] + Decode(s[i + 3..]) else [s[i]] + Decode(s[i + 1..])
  {
    var t := s[i..];
    assert EscapeAt(t, 0) == EscapeAt(s, i);
    if EscapeAt(s, i).Some? { assert t[3..] == s[i + 3..]; } else { assert t[1..] == s[i + 1..]; }
  }

  method PercentDecodePath(s: Bytes) returns (result: Bytes)
    ensures result == Decode(s)
  {
    result := [];
    var i := 0;
    while i < |s|
      invariant i <= |s| && Decode(s) == result + Decode(s[i..])
    {
      DecodeAt(s, i);
      if s[i] == PERCENT && i + 2 < |s| {
        var parsed := ParseHex(s[i + 1], s[i + 2]);
        if parsed.Some? {
          Associate(result, parsed.value, Decode(s[i + 3..]));
          result := result + [parsed.value];
          i := i + 3;
          continue;
        }
      }
      Associate(result, s[i], Decode(s[i + 1..]));
      result := result + [s[i]];
      i := i + 1;
    }
  }

  lemma Associate(a: Bytes, b: Byte, c: Bytes)
    ensures a + ([b] + c) == a + [b] + c
  {
  }

  // ---------------------------------------------------------------- decoding inverts encoding

  /** An encoding writes a byte as itself, unless it is a percent sign, or as an escape with
      digits of either case. */
  ghost predicate Encodes(e: Bytes, b: Byte) {
    || (b != PERCENT && e == [b])
    || (|e| == 3 && e[0] == PERCENT && IsHex(e[1]) && IsHex(e[2]) && HexValue(e[1]) * 16 + HexValue(e[2]) == b)
  }

  function Concat(parts: seq<Bytes>): Bytes {
    if parts == [] then [] else parts[0] + Concat(parts[1..])
  }

  ghost predicate Encoding(parts: seq<Bytes>, bytes: Bytes) {
    |parts| == |bytes| && forall i :: 0 <= i < |bytes| ==> Encodes(parts[i], bytes[i])
  }

  /** Every encoding of every byte sequence decodes to it. */
  lemma {:induction false} DecodeInvertsEncoding(parts: seq<Bytes>, bytes: Bytes)
    requires Encoding(parts, bytes)
    ensures Decode(Concat(parts)) == bytes
  {
    if parts != [] {
      var e, rest := parts[0], Concat(parts[1..]);
      assert Encodes(e, bytes[0]);
      assert Encoding(parts[1..], bytes[1..]);
      DecodeInvertsEncoding(parts[1..], bytes[1..]);
      assert (e + rest)[|e|..] == rest;
      assert [bytes[0]] + bytes[1..] == bytes;
    }
  }

  // ---------------------------------------------------------------- what passes through

  /** Number of escapes; each takes two bytes off the length. */
  function Escapes(s: Bytes): nat {
    if s == [] then 0
    else if EscapeAt(s, 0).Some? then 1 + Escapes(s[3..])
    else Escapes(s[1..])
  }

  /** Decoding never lengthens, and shortens by two bytes for every escape. */
  lemma {:induction false} DecodedLength(s: Bytes)
    ensures |Decode(s)| == |s| - 2 * Escapes(s)
  {
    if s != [] {
      if EscapeAt(s, 0).Some? { DecodedLength(s[3..]); } else { DecodedLength(s[1..]); }
    }
  }

  /** Escapes never overlap, so every position with one is decoded. */
  lemma {:induction false} EscapesCounted(s: Bytes)
    ensures Escapes(s) > 0 <==> exists i :: 0 <= i < |s| && EscapeAt(s, i).Some?
  {
    if s != [] && EscapeAt(s, 0).None? {
      EscapesCounted(s[1..]);
      if i :| 0 <= i < |s| && EscapeAt(s, i).Some? {
        assert EscapeAt(s[1..], i - 1) == EscapeAt(s, i);
      }
      if i :| 0 <= i < |s[1..]| && EscapeAt(s[1..], i).Some? {
        assert EscapeAt(s, i + 1) == EscapeAt(s[1..], i);
      }
    }
  }

  lemma {:induction false} NoEscapesUnchanged(s: Bytes)
    requires Escapes(s) == 0
    ensures Decode(s) == s
  {
    if s != [] { NoEscapesUnchanged(s[1..]); }
  }

  /** Input passes through byte for byte exactly if it contains no complete escape: malformed and
      truncated ones are left alone. */
  lemma {:induction false} UnchangedExactly(s: Bytes)
    ensures Decode(s) == s <==> forall i :: 0 <= i < |s| ==> EscapeAt(s, i).None?
  {
    EscapesCounted(s);
    DecodedLength(s);
    if Escapes(s) == 0 { NoEscapesUnchanged(s); }
  }

  // ---------------------------------------------------------------- the plus sign

  /** The decoder that the RFC describes: two hexadecimal digits and nothing else. */
  function StrictDecode(s: Bytes): Bytes {
    if s == [] then []
    else if StrictEscape(s, 0) then [HexValue(s[1]) * 16 + HexValue(s[2])] + StrictDecode(s[3..])
    else [s[0]] + StrictDecode(s[1..])
  }

  predicate StrictEscape(s: Bytes, i: nat)
    requires i < |s|
  {
    s[i] == PERCENT && i + 2 < |s| && IsHex(s[i + 1]) && IsHex(s[i + 2])
  }

  predicate PlusEscape(s: Bytes, i: nat)
    requires i < |s|
  {
    s[i] == PERCENT && i + 2 < |s| && s[i + 1] == PLUS && IsHex(s[i + 2])
  }

  ghost predicate HasPlusEscape(s: Bytes) {
    exists i :: 0 <= i < |s| && PlusEscape(s, i)
  }

  lemma PlusLater(s: Bytes, n: nat)
    requires n <= |s| && forall i :: 0 <= i < n ==> !PlusEscape(s, i)
    ensures HasPlusEscape(s) <==> HasPlusEscape(s[n..])
  {
    if i :| 0 <= i < |s| && PlusEscape(s, i) { assert PlusEscape(s[n..], i - n); }
    if i :| 0 <= i < |s[n..]| && PlusEscape(s[n..], i) { assert PlusEscape(s, i + n); }
  }

  lemma {:induction false} StrictNotShorter(s: Bytes)
    ensures |StrictDecode(s)| >= |Decode(s)|
    ensures HasPlusEscape(s) ==> |StrictDecode(s)| > |Decode(s)|
    ensures !HasPlusEscape(s) ==> StrictDecode(s) == Decode(s)
    decreases |s|
  {
    if s != [] {
      if StrictEscape(s, 0) {
        StrictNotShorter(s[3..]);
        PlusLater(s, 3);
      } else if PlusEscape(s, 0) {
        StrictNotShorter(s[3..]);
        SkipsTwo(s);
      } else {
        StrictNotShorter(s[1..]);
        PlusLater(s, 1);
      }
    }
  }

  /** The strict decoder copies a plus escape, byte by byte. */
  lemma {:induction false} SkipsTwo(s: Bytes)
    requires s != [] && PlusEscape(s, 0)
    ensures StrictDecode(s) == s[..3] + StrictDecode(s[3..])
  {
    assert s[1..][1..] == s[2..] && s[2..][1..] == s[3..];
    assert !StrictEscape(s, 0) && !StrictEscape(s[1..], 0) && !StrictEscape(s[2..], 0);
    var rest := StrictDecode(s[3..]);
    assert StrictDecode(s[2..]) == [s[2]] + rest && StrictDecode(s[1..]) == [s[1]] + StrictDecode(s[2..]);
    assert s[..3] + rest == [s[0]] + ([s[1]] + ([s[2]] + rest));
  }

  /** The decoder follows the RFC on exactly the inputs without an escape like "%+f". */
  lemma {:induction false} FollowsRfcExactly(s: Bytes)
    ensures Decode(s) == StrictDecode(s) <==> !HasPlusEscape(s)
  {
    StrictNotShorter(s);
  }
}
