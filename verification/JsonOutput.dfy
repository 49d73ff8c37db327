/** The JSON writer of the native benches (native/src/json_output.c), and a
    reader of JSON strings after section 7 of RFC 8259 to judge it by. */
module JsonOutput {
  import opened Wrappers
  import opened Utf8

  const QUOTE: Byte := 0x22
  const BACKSLASH: Byte := 0x5C

  // Reading.

  function HexValue(b: Byte): Option<bv32> {
    if 0x30 <= b <= 0x39 then Some((b - 0x30) as bv32)
    else if 0x61 <= b <= 0x66 then Some((b - 0x61) as bv32 + 10)
    else if 0x41 <= b <= 0x46 then Some((b - 0x41) as bv32 + 10)
    else None
  }

  /** The code unit written as `uXXXX`, given the bytes after the backslash. */
  function UnicodeUnit(t: seq<Byte>): Option<bv32> {
    if |t| < 5 || t[0] != 0x75 then None
    else match (HexValue(t[1]), HexValue(t[2]), HexValue(t[3]), HexValue(t[4]))
      case (Some(a), Some(b), Some(c), Some(d)) => Some((a << 12) | (b << 8) | (c << 4) | d)
      case _ => None
  }

  datatype Escape = Escape(bytes: seq<Byte>, length: nat)

  /** What an escape stands for, and how many bytes after the backslash it takes.
      A character beyond U+FFFF is written as a surrogate pair. */
  function ReadEscape(t: seq<Byte>): (e: Option<Escape>)
    ensures e.Some? ==> 0 < e.value.length <= |t|
  {
    if t == [] then None
    else if t[0] == QUOTE || t[0] == BACKSLASH || t[0] == 0x2F then Some(Escape([t[0]], 1))
    else if t[0] == 0x62 then Some(Escape([0x08], 1))
    else if t[0] == 0x66 then Some(Escape([0x0C], 1))
    else if t[0] == 0x6E then Some(Escape([0x0A], 1))
    else if t[0] == 0x72 then Some(Escape([0x0D], 1))
    else if t[0] == 0x74 then Some(Escape([0x09], 1))
    else match UnicodeUnit(t)
      case None => None
      case Some(unit) =>
        if Scalar(unit) then Some(Escape(Encode(unit), 5))
        else if unit >= 0xDC00 || |t| < 11 || t[5] != BACKSLASH then None
        else match UnicodeUnit(t[6..])
          case Some(low) =>
            if 0xDC00 <= low <= 0xDFFF then
              var cp := 0x10000 + (((unit & 0x3FF) << 10) | (low & 0x3FF));
              if Scalar(cp) then Some(Escape(Encode(cp), 11)) else None
            else None
          case None => None
  }

  datatype Reading = Reading(value: seq<Byte>, rest: seq<Byte>)

  /** Characters up to the closing quotation mark. */
  function ReadCharacters(t: seq<Byte>): Option<Reading>
    decreases |t|
  {
    if t == [] || t[0] < 0x20 then None
    else if t[0] == QUOTE then Some(Reading([], t[1..]))
    else if t[0] == BACKSLASH then
      match ReadEscape(t[1..])
      case None => None
      case Some(e) =>
        (match ReadCharacters(t[1 + e.length..])
         case None => None
         case Some(r) => Some(Reading(e.bytes + r.value, r.rest)))
    else
      match ReadCharacters(t[1..])
      case None => None
      case Some(r) => Some(Reading([t[0]] + r.value, r.rest))
  }

  function ReadString(t: seq<Byte>): Option<Reading> {
    if t == [] || t[0] != QUOTE then None else ReadCharacters(t[1..])
  }

  // Writing.

  function HexDigit(n: Byte): Byte {
    if n < 10 then 0x30 + n else 0x61 + (n - 10)
  }

  function EscapeByte(b: Byte): seq<Byte> {
    if b == QUOTE then [BACKSLASH, QUOTE]
    else if b == BACKSLASH then [BACKSLASH, BACKSLASH]
    else if b == 0x08 then [BACKSLASH, 0x62]
    else if b == 0x0C then [BACKSLASH, 0x66]
    else if b == 0x0A then [BACKSLASH, 0x6E]
    else if b == 0x0D then [BACKSLASH, 0x72]
    else if b == 0x09 then [BACKSLASH, 0x74]
    else if b < 0x20 then [BACKSLASH, 0x75, 0x30, 0x30, HexDigit(b >> 4), HexDigit(b & 0x0F)]
    else [b]
  }

  /** The pieces that `f` gives for the bytes of `s`, one after the other. */
  function Pieces(f: Byte -> seq<Byte>, s: seq<Byte>): seq<Byte> {
    if s == [] then [] else Pieces(f, s[..|s|-1]) + f(s[|s|-1])
  }

  function EscapeAll(s: seq<Byte>): seq<Byte> {
    Pieces(EscapeByte, s)
  }

  function Quoted(s: seq<Byte>): seq<Byte> {
    [QUOTE] + EscapeAll(s) + [QUOTE]
  }

  class OutputStream {
    var bytes: seq<Byte>

    constructor ()
      ensures bytes == []
    {
      bytes := [];
    }

    method Put(more: seq<Byte>)
      modifies this
      ensures bytes == old(bytes) + more
    {
      bytes := bytes + more;
    }
  }

  method JsonEscaped(out: OutputStream, value: array<Byte>, ghost text: seq<Byte>)
    requires CString(value, text)
    modifies out
    ensures out.bytes == old(out.bytes) + Quoted(text)
  {
    ghost var before := out.bytes;
    out.Put([QUOTE]);
    var p := 0;
    while value[p] != 0
      invariant 0 <= p <= |text|
      invariant out.bytes == before + ([QUOTE] + EscapeAll(text[..p]))
      decreases |text| - p
    {
      assert text[..p+1][..p] == text[..p];
      out.Put(EscapeByte(value[p]));
      p := p + 1;
    }
    assert text[..p] == text;
    out.Put([QUOTE]);
  }

  class FirstFlag {
    var first: bool
  }

  method JsonComma(out: OutputStream, flag: FirstFlag)
    modifies out, flag
    ensures !flag.first
    ensures out.bytes == old(out.bytes) + if old(flag.first) then [] else [0x2C]
  {
    if flag.first {
      flag.first := false;
    } else {
      out.Put([0x2C]);
    }
  }

  function Field(first: bool, name: seq<Byte>, value: seq<Byte>): seq<Byte> {
    (if first then [] else [0x2C]) + Quoted(name) + [0x3A] + Quoted(value)
  }

  method JsonEscapedOrEmpty(out: OutputStream, value: array?<Byte>, ghost text: seq<Byte>)
    requires if value == null then text == [] else CString(value, text)
    modifies out
    ensures out.bytes == old(out.bytes) + Quoted(text)
  {
    if value == null {
      var empty := new Byte[1](_ => 0);
      JsonEscaped(out, empty, text);
    } else {
      JsonEscaped(out, value, text);
    }
  }

  method WriteField(out: OutputStream, flag: FirstFlag, name: array<Byte>, value: array?<Byte>,
                    ghost nameText: seq<Byte>, ghost valueText: seq<Byte>)
    requires CString(name, nameText)
    requires if value == null then valueText == [] else CString(value, valueText)
    modifies out, flag
    ensures !flag.first && out.bytes == old(out.bytes) + Field(old(flag.first), nameText, valueText)
  {
    JsonComma(out, flag);
    JsonEscaped(out, name, nameText);
    out.Put([0x3A]);
    JsonEscapedOrEmpty(out, value, valueText);
  }

  /** A field is written whole or not at all; a null value is written as an empty string. */
  method JsonStringField(out: OutputStream, flag: FirstFlag, name: array<Byte>, value: array?<Byte>,
                         ghost nameText: seq<Byte>, ghost valueText: seq<Byte>)
      returns (written: bool)
    requires CString(name, nameText)
    requires if value == null then valueText == [] else CString(value, valueText)
    modifies out, flag
    ensures written <==> JsonText(nameText) && JsonText(valueText)
    ensures !written ==> out.bytes == old(out.bytes) && flag.first == old(flag.first)
    ensures written ==> !flag.first && out.bytes == old(out.bytes) + Field(old(flag.first), nameText, valueText)
  {
    var nameValid := JsonStringIsValid(name, nameText);
    var valueValid := JsonStringIsValid(value, valueText);
    if !nameValid || !valueValid {
      return false;
    }
    WriteField(out, flag, name, value, nameText, valueText);
    return true;
  }

  // Reading back what was written.

  lemma EscapedPiece(e: seq<Byte>, b: Byte, rest: seq<Byte>, r: Reading)
    requires |e| > 1 && e[0] == BACKSLASH && ReadEscape(e[1..] + rest) == Some(Escape([b], |e| - 1))
    requires ReadCharacters(rest) == Some(r)
    ensures ReadCharacters(e + rest) == Some(Reading([b] + r.value, r.rest))
  {
    var t := e + rest;
    assert t[1..] == e[1..] + rest && t[|e|..] == rest;
  }

  lemma HexReadsBack(n: Byte)
    requires n < 16
    ensures HexValue(HexDigit(n)) == Some(n as bv32)
  {
  }

  lemma NibblesJoin(b: Byte)
    requires b < 0x20
    ensures b >> 4 < 16 && b & 0x0F < 16
    ensures (0 << 12) | (0 << 8) | (((b >> 4) as bv32) << 4) | ((b & 0x0F) as bv32) == b as bv32
  {
  }

  lemma UnicodeReadsBack(b: Byte, rest: seq<Byte>)
    requires b < 0x20
    ensures UnicodeUnit([0x75, 0x30, 0x30, HexDigit(b >> 4), HexDigit(b & 0x0F)] + rest) == Some(b as bv32)
  {
    NibblesJoin(b);
    HexReadsBack(0);
    HexReadsBack(b >> 4);
    HexReadsBack(b & 0x0F);
  }

  lemma LongEscape(b: Byte, rest: seq<Byte>)
    requires b < 0x20
    ensures ReadEscape([0x75, 0x30, 0x30, HexDigit(b >> 4), HexDigit(b & 0x0F)] + rest) == Some(Escape([b], 5))
  {
    UnicodeReadsBack(b, rest);
  }

  /** What follows the backslash of an escape is read as the byte. */
  lemma EscapeIsRead(b: Byte, rest: seq<Byte>)
    requires |EscapeByte(b)| > 1
    ensures EscapeByte(b)[0] == BACKSLASH
    ensures ReadEscape(EscapeByte(b)[1..] + rest) == Some(Escape([b], |EscapeByte(b)| - 1))
  {
    var e := EscapeByte(b);
    if |e| == 2 {
      assert e[1..] == [e[1]];
    } else {
      assert e[1..] == [0x75, 0x30, 0x30, HexDigit(b >> 4), HexDigit(b & 0x0F)];
      LongEscape(b, rest);
    }
  }

  lemma PlainPiece(b: Byte, rest: seq<Byte>, r: Reading)
    requires b >= 0x20 && b != QUOTE && b != BACKSLASH && ReadCharacters(rest) == Some(r)
    ensures ReadCharacters([b] + rest) == Some(Reading([b] + r.value, r.rest))
  {
    assert ([b] + rest)[1..] == rest;
  }

  /** The escape of a byte reads back as that byte. */
  lemma EscapeReadsBack(b: Byte, rest: seq<Byte>, r: Reading)
    requires ReadCharacters(rest) == Some(r)
    ensures ReadCharacters(EscapeByte(b) + rest) == Some(Reading([b] + r.value, r.rest))
  {
    if |EscapeByte(b)| > 1 {
      EscapeIsRead(b, rest);
      EscapedPiece(EscapeByte(b), b, rest, r);
    } else {
      PlainPiece(b, rest, r);
    }
  }

  /** `read` takes the piece of any byte back to that byte. */
  ghost predicate PiecewiseInverse(f: Byte -> seq<Byte>, read: seq<Byte> -> Option<Reading>) {
    forall b: Byte, rest: seq<Byte>, r: Reading :: read(rest) == Some(r) ==>
      read(f(b) + rest) == Some(Reading([b] + r.value, r.rest))
  }

  lemma PiecesLast(f: Byte -> seq<Byte>, front: seq<Byte>, last: Byte, rest: seq<Byte>)
    ensures Pieces(f, front + [last]) + rest == Pieces(f, front) + (f(last) + rest)
  {
    assert (front + [last])[..|front|] == front;
  }

  lemma {:induction false} PiecesReadBack(f: Byte -> seq<Byte>, read: seq<Byte> -> Option<Reading>,
                                          s: seq<Byte>, rest: seq<Byte>, r: Reading)
    requires PiecewiseInverse(f, read) && read(rest) == Some(r)
    ensures read(Pieces(f, s) + rest) == Some(Reading(s + r.value, r.rest))
    decreases |s|
  {
    if s == [] {
      assert Pieces(f, s) + rest == rest && s + r.value == r.value;
    } else {
      var front, last := s[..|s|-1], s[|s|-1];
      assert s == front + [last];
      PiecesReadBack(f, read, front, f(last) + rest, Reading([last] + r.value, r.rest));
      PiecesLast(f, front, last, rest);
      assert s + r.value == front + ([last] + r.value);
    }
  }

  lemma EscapesReadBack(s: seq<Byte>, rest: seq<Byte>, r: Reading)
    requires ReadCharacters(rest) == Some(r)
    ensures ReadCharacters(EscapeAll(s) + rest) == Some(Reading(s + r.value, r.rest))
  {
    forall b: Byte, t: seq<Byte>, q: Reading | ReadCharacters(t) == Some(q)
      ensures ReadCharacters(EscapeByte(b) + t) == Some(Reading([b] + q.value, q.rest))
    {
      EscapeReadsBack(b, t, q);
    }
    PiecesReadBack(EscapeByte, ReadCharacters, s, rest, r);
  }

  lemma Framed(middle: seq<Byte>, rest: seq<Byte>)
    ensures var t := [QUOTE] + middle + [QUOTE] + rest;
            t[0] == QUOTE && t[1..] == middle + ([QUOTE] + rest)
  {
  }

  /** A written string reads back as the bytes that went in, whatever follows it. */
  lemma QuotedReadsBack(s: seq<Byte>, rest: seq<Byte>)
    ensures ReadString(Quoted(s) + rest) == Some(Reading(s, rest))
  {
    EscapesReadBack(s, [QUOTE] + rest, Reading([], rest));
    Framed(EscapeAll(s), rest);
    assert s + [] == s;
  }

  lemma ColonAfterName(quote: seq<Byte> -> seq<Byte>, read: seq<Byte> -> Option<Reading>,
                       name: seq<Byte>, value: seq<Byte>, rest: seq<Byte>)
    requires forall s: seq<Byte>, t: seq<Byte> :: read(quote(s) + t) == Some(Reading(s, t))
    ensures read(quote(name) + [0x3A] + quote(value) + rest) == Some(Reading(name, [0x3A] + quote(value) + rest))
    ensures ([0x3A] + quote(value) + rest)[1..] == quote(value) + rest
  {
    assert quote(name) + [0x3A] + quote(value) + rest == quote(name) + ([0x3A] + quote(value) + rest);
  }

  /** A written field reads back as its name, a colon, and its value. */
  lemma FieldReadsBack(name: seq<Byte>, value: seq<Byte>, rest: seq<Byte>)
    ensures var after := [0x3A] + Quoted(value) + rest;
            && ReadString(Quoted(name) + [0x3A] + Quoted(value) + rest) == Some(Reading(name, after))
            && ReadString(after[1..]) == Some(Reading(value, rest))
  {
    forall s: seq<Byte>, t: seq<Byte> ensures ReadString(Quoted(s) + t) == Some(Reading(s, t)) {
      QuotedReadsBack(s, t);
    }
    ColonAfterName(Quoted, ReadString, name, value, rest);
  }
}
