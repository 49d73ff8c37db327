/** UTF-8 as sections 3 and 4 of RFC 3629 define it, the proof that the two definitions
    agree, and the checker that walks a NUL-terminated string byte by byte with
    masks and comparisons (native/src/json_output.c). */
module Utf8 {

  type Byte = bv8

  // Well-formed byte strings: the grammar of section 4 of RFC 3629.

  predicate Tail(b: Byte) { 0x80 <= b <= 0xBF }

  /** Second byte of a three-byte character. */
  predicate Second3(a: Byte, b: Byte) {
    if a == 0xE0 then 0xA0 <= b <= 0xBF else if a == 0xED then 0x80 <= b <= 0x9F else Tail(b)
  }

  /** Second byte of a four-byte character. */
  predicate Second4(a: Byte, b: Byte) {
    if a == 0xF0 then 0x90 <= b <= 0xBF else if a == 0xF4 then 0x80 <= b <= 0x8F else Tail(b)
  }

  /** Length of the character at the head of `s`; 0 if there is none. */
  function CharLength(s: seq<Byte>): (n: nat)
    ensures n <= |s|
  {
    if s == [] then 0
    else if s[0] <= 0x7F then 1
    else if 0xC2 <= s[0] <= 0xDF then (if |s| >= 2 && Tail(s[1]) then 2 else 0)
    else if 0xE0 <= s[0] <= 0xEF then (if |s| >= 3 && Second3(s[0], s[1]) && Tail(s[2]) then 3 else 0)
    else if 0xF0 <= s[0] <= 0xF4 then (if |s| >= 4 && Second4(s[0], s[1]) && Tail(s[2]) && Tail(s[3]) then 4 else 0)
    else 0
  }

  predicate WellFormed(s: seq<Byte>) {
    s == [] || (CharLength(s) > 0 && WellFormed(s[CharLength(s)..]))
  }

  // Encoding: the bit layout of section 3 of RFC 3629.

  predicate Scalar(cp: bv32) {
    cp <= 0x10FFFF && !(0xD800 <= cp <= 0xDFFF)
  }

  function Lead2(cp: bv32): Byte requires cp < 0x800 { (0xC0 | (cp >> 6)) as bv8 }

  function Lead3(cp: bv32): Byte requires cp < 0x10000 { (0xE0 | (cp >> 12)) as bv8 }

  function Lead4(cp: bv32): Byte requires cp <= 0x10FFFF { (0xF0 | (cp >> 18)) as bv8 }

  function Six(cp: bv32): Byte { (0x80 | (cp & 0x3F)) as bv8 }

  function Encode(cp: bv32): (s: seq<Byte>)
    requires Scalar(cp)
    ensures 1 <= |s| <= 4
  {
    if cp < 0x80 then [cp as bv8]
    else if cp < 0x800 then [Lead2(cp), Six(cp)]
    else if cp < 0x10000 then [Lead3(cp), Six(cp >> 6), Six(cp)]
    else [Lead4(cp), Six(cp >> 12), Six(cp >> 6), Six(cp)]
  }

  function EncodeAll(cps: seq<bv32>): seq<Byte>
    requires forall k :: 0 <= k < |cps| ==> Scalar(cps[k])
  {
    if cps == [] then [] else Encode(cps[0]) + EncodeAll(cps[1..])
  }

  function Low(b: Byte): bv32 { (b & 0x3F) as bv32 }

  function Code1(a: Byte): bv32 { a as bv32 }

  function Code2(a: Byte, b: Byte): bv32 { (((a & 0x1F) as bv32) << 6) | Low(b) }

  function Code3(a: Byte, b: Byte, c: Byte): bv32 { (((a & 0x0F) as bv32) << 12) | (Low(b) << 6) | Low(c) }

  function Code4(a: Byte, b: Byte, c: Byte, d: Byte): bv32 {
    (((a & 0x07) as bv32) << 18) | (Low(b) << 12) | (Low(c) << 6) | Low(d)
  }

  /** The code point of the character at the head. */
  function DecodeHead(s: seq<Byte>): bv32
    requires CharLength(s) > 0
  {
    match CharLength(s)
    case 1 => Code1(s[0])
    case 2 => Code2(s[0], s[1])
    case 3 => Code3(s[0], s[1], s[2])
    case _ => Code4(s[0], s[1], s[2], s[3])
  }

  // Encoding and the grammar agree.

  lemma Decode2(a: Byte, b: Byte)
    requires 0xC2 <= a <= 0xDF && Tail(b)
    ensures var cp := Code2(a, b); 0x80 <= cp < 0x800 && Lead2(cp) == a && Six(cp) == b
  {
  }

  lemma Decode3(a: Byte, b: Byte, c: Byte)
    requires 0xE0 <= a <= 0xEF && Second3(a, b) && Tail(c)
    ensures var cp := Code3(a, b, c);
            0x800 <= cp < 0x10000 && Scalar(cp) && Lead3(cp) == a && Six(cp >> 6) == b && Six(cp) == c
  {
  }

  lemma Decode4(a: Byte, b: Byte, c: Byte, d: Byte)
    requires 0xF0 <= a <= 0xF4 && Second4(a, b) && Tail(c) && Tail(d)
    ensures var cp := Code4(a, b, c, d);
            0x10000 <= cp <= 0x10FFFF && Lead4(cp) == a && Six(cp >> 12) == b && Six(cp >> 6) == c && Six(cp) == d
  {
  }

  lemma EncodeDecoded1(a: Byte)
    requires a <= 0x7F
    ensures Scalar(Code1(a)) && Encode(Code1(a)) == [a]
  {
  }

  lemma EncodeDecoded2(a: Byte, b: Byte)
    requires 0xC2 <= a <= 0xDF && Tail(b)
    ensures Scalar(Code2(a, b)) && Encode(Code2(a, b)) == [a, b]
  {
    Decode2(a, b);
  }

  lemma EncodeDecoded3(a: Byte, b: Byte, c: Byte)
    requires 0xE0 <= a <= 0xEF && Second3(a, b) && Tail(c)
    ensures Scalar(Code3(a, b, c)) && Encode(Code3(a, b, c)) == [a, b, c]
  {
    Decode3(a, b, c);
  }

  lemma EncodeDecoded4(a: Byte, b: Byte, c: Byte, d: Byte)
    requires 0xF0 <= a <= 0xF4 && Second4(a, b) && Tail(c) && Tail(d)
    ensures Scalar(Code4(a, b, c, d)) && Encode(Code4(a, b, c, d)) == [a, b, c, d]
  {
    Decode4(a, b, c, d);
  }

  /** The character at the head is the encoding of its code point. */
  lemma EncodeOfHead(s: seq<Byte>)
    requires CharLength(s) > 0
    ensures Scalar(DecodeHead(s)) && Encode(DecodeHead(s)) == s[..CharLength(s)]
  {
    match CharLength(s)
    case 1 => EncodeDecoded1(s[0]);
    case 2 => EncodeDecoded2(s[0], s[1]);
    case 3 => EncodeDecoded3(s[0], s[1], s[2]);
    case _ => EncodeDecoded4(s[0], s[1], s[2], s[3]);
  }

  ghost predicate AllScalar(cps: seq<bv32>) {
    forall k :: 0 <= k < |cps| ==> Scalar(cps[k])
  }

  lemma {:induction false} EncodedIsWellFormed(cps: seq<bv32>)
    requires AllScalar(cps)
    ensures WellFormed(EncodeAll(cps))
  {
    if cps != [] {
      var head, rest := Encode(cps[0]), EncodeAll(cps[1..]);
      EncodedIsWellFormed(cps[1..]);
      assert (head + rest)[|head|..] == rest;
    }
  }

  lemma HeadCode(s: seq<Byte>) returns (cp: bv32)
    requires CharLength(s) > 0
    ensures Scalar(cp) && Encode(cp) == s[..CharLength(s)]
  {
    EncodeOfHead(s);
    cp := DecodeHead(s);
  }

  lemma EncodeAllCons(cp: bv32, tail: seq<bv32>)
    requires Scalar(cp) && AllScalar(tail)
    ensures AllScalar([cp] + tail) && EncodeAll([cp] + tail) == Encode(cp) + EncodeAll(tail)
  {
    assert ([cp] + tail)[1..] == tail;
  }

  lemma {:induction false} WellFormedIsEncoded(s: seq<Byte>) returns (cps: seq<bv32>)
    requires WellFormed(s)
    ensures AllScalar(cps) && EncodeAll(cps) == s
  {
    cps := [];
    if s != [] {
      var rest := s[CharLength(s)..];
      var tail := WellFormedIsEncoded(rest);
      var cp := HeadCode(s);
      cps := [cp] + tail;
      EncodeAllCons(cp, tail);
      assert s == s[..CharLength(s)] + rest;
    }
  }

  /** The grammar accepts exactly the encodings of scalar value sequences. */
  lemma GrammarIsEncoding(s: seq<Byte>)
    ensures WellFormed(s) <==> exists cps: seq<bv32> :: AllScalar(cps) && EncodeAll(cps) == s
  {
    if WellFormed(s) { var cps := WellFormedIsEncoded(s); }
    if cps: seq<bv32> :| AllScalar(cps) && EncodeAll(cps) == s { EncodedIsWellFormed(cps); }
  }

  // The checker.

  /** What a JSON string value may hold: well-formed text without control bytes. */
  ghost predicate JsonText(s: seq<Byte>) {
    WellFormed(s) && forall k :: 0 <= k < |s| ==> s[k] >= 0x20
  }

  lemma MultibyteIsNotControl(s: seq<Byte>, n: nat)
    requires CharLength(s) == n && n > 1
    ensures forall k :: 0 <= k < n ==> s[k] >= 0x20
  {
    assert forall k :: 1 <= k < n ==> s[k] >= 0x80;
  }

  /** Checking character by character that no lead byte is a control is enough. */
  lemma TextStep(s: seq<Byte>)
    requires s != []
    ensures JsonText(s) <==> s[0] >= 0x20 && CharLength(s) > 0 && JsonText(s[CharLength(s)..])
  {
    var n := CharLength(s);
    var rest := s[n..];
    if n > 1 { MultibyteIsNotControl(s, n); }
    if s[0] >= 0x20 && n > 0 && JsonText(rest) {
      forall k | 0 <= k < |s| ensures s[k] >= 0x20 {
        if k >= n { assert s[k] == rest[k - n]; }
      }
    }
    if JsonText(s) {
      forall k | 0 <= k < |rest| ensures rest[k] >= 0x20 { assert rest[k] == s[k + n]; }
    }
  }

  lemma MasksAreRanges(b: Byte)
    ensures (b & 0xE0) == 0xC0 <==> 0xC0 <= b <= 0xDF
    ensures (b & 0xF0) == 0xE0 <==> 0xE0 <= b <= 0xEF
    ensures (b & 0xF8) == 0xF0 <==> 0xF0 <= b <= 0xF7
    ensures (b & 0xC0) == 0x80 <==> Tail(b)
  {
  }

  /** `value` is a NUL-terminated string holding `text`. */
  ghost predicate CString(value: array<Byte>, text: seq<Byte>)
    reads value
  {
    value[..] == text + [0] && forall k :: 0 <= k < |text| ==> text[k] != 0
  }

  /** One step of the checker at a byte that is not a control: the length of the
      character there, or 0. Bytes after a NUL are never looked at. */
  method CheckCharacter(value: array<Byte>, p: nat, ghost text: seq<Byte>) returns (n: nat)
    requires CString(value, text) && p < |text| && value[p] >= 0x20
    ensures n == CharLength(text[p..])
  {
    ghost var s := text[p..];
    assert forall k :: 0 <= k < |s| ==> s[k] == value[p + k];
    MasksAreRanges(value[p]);
    if value[p] < 0x80 {
      return 1;
    } else if (value[p] & 0xE0) == 0xC0 {
      if value[p+1] == 0 { return 0; }
      MasksAreRanges(value[p+1]);
      if (value[p+1] & 0xC0) != 0x80 || value[p] < 0xC2 { return 0; }
      return 2;
    } else if (value[p] & 0xF0) == 0xE0 {
      if value[p+1] == 0 || value[p+2] == 0 { return 0; }
      MasksAreRanges(value[p+1]);
      MasksAreRanges(value[p+2]);
      if (value[p+1] & 0xC0) != 0x80 || (value[p+2] & 0xC0) != 0x80 { return 0; }
      if (value[p] == 0xE0 && value[p+1] < 0xA0) || (value[p] == 0xED && value[p+1] >= 0xA0) { return 0; }
      return 3;
    } else if (value[p] & 0xF8) == 0xF0 {
      if value[p+1] == 0 || value[p+2] == 0 || value[p+3] == 0 { return 0; }
      MasksAreRanges(value[p+1]);
      MasksAreRanges(value[p+2]);
      MasksAreRanges(value[p+3]);
      if (value[p+1] & 0xC0) != 0x80 || (value[p+2] & 0xC0) != 0x80 || (value[p+3] & 0xC0) != 0x80 { return 0; }
      if (value[p] == 0xF0 && value[p+1] < 0x90) || (value[p] == 0xF4 && value[p+1] >= 0x90) || value[p] > 0xF4 { return 0; }
      return 4;
    }
    return 0;
  }

  /** A null pointer is accepted; a string exactly when it is well-formed text
      without control bytes. No byte after the terminator is read. */
  method JsonStringIsValid(value: array?<Byte>, ghost text: seq<Byte>) returns (valid: bool)
    requires value != null ==> CString(value, text)
    ensures value == null ==> valid
    ensures value != null ==> (valid <==> JsonText(text))
  {
    if value == null {
      return true;
    }
    var p := 0;
    assert text[0..] == text;
    while value[p] != 0
      invariant 0 <= p <= |text|
      invariant JsonText(text) <==> JsonText(text[p..])
      decreases |text| - p
    {
      assert p < |text|;
      TextStep(text[p..]);
      if value[p] < 0x20 {
        return false;
      }
      var n := CheckCharacter(value, p, text);
      if n == 0 {
        return false;
      }
      assert text[p..][n..] == text[p+n..];
      p := p + n;
    }
    return true;
  }
}
