/** Hexadecimal fields of a packet: fixed-width words, numbers and strings, written and read back. */
module PacketFields {
  import opened Util
  import Bits
  import opened PacketText

  // ----- What the writers append -----

  function HexPair(b: Byte): seq<Byte> {
    [HexDigit(b / 16), HexDigit(b % 16)]
  }

  function HexText(bytes: seq<Byte>): seq<Byte> {
    if bytes == [] then [] else HexPair(bytes[0]) + HexText(bytes[1..])
  }

  lemma HexTextOfAppend(bytes: seq<Byte>, b: Byte)
    ensures HexText(bytes + [b]) == HexText(bytes) + HexPair(b)
  {
    if bytes == [] {
      assert bytes + [b] == [b];
    } else {
      assert bytes + [b] == [bytes[0]] + (bytes[1..] + [b]);
      HexTextOfAppend(bytes[1..], b);
    }
  }

  /** The part of a buffer that C sees as a string. */
  function CString(s: seq<Byte>): seq<Byte> {
    if s == [] || s[0] == 0 then [] else [s[0]] + CString(s[1..])
  }

  lemma CStringWithoutNul(s: seq<Byte>)
    requires 0 !in s
    ensures CString(s) == s
  {
  }

  function Pow256(n: nat): (p: nat)
    ensures p > 0
  {
    if n == 0 then 1 else 256 * Pow256(n - 1)
  }

  const TWO64 := 0x1_0000_0000_0000_0000

  /** The bytes of an integer in the memory of a little-endian host. */
  function LeBytes(value: nat, width: nat): (bytes: seq<Byte>)
    ensures |bytes| == width
    decreases width
  {
    if width == 0 then [] else [value % 256] + LeBytes(value / 256, width - 1)
  }

  function FromLe(bytes: seq<Byte>): nat {
    if bytes == [] then 0 else bytes[0] + 256 * FromLe(bytes[1..])
  }

  /** The lowest byte goes first: the `i`-th byte is the `i`-th digit of the value to the base 256. */
  lemma {:induction false} LeBytesAt(value: nat, width: nat, i: nat)
    requires i < width
    ensures LeBytes(value, width)[i] == value / Pow256(i) % 256
  {
    if i == 0 {
      assert Pow256(0) == 1 && value / 1 == value;
    } else {
      LeBytesAt(value / 256, width - 1, i - 1);
      DivideTwice(value, Pow256(i - 1));
    }
  }

  lemma DivideTwice(v: nat, p: nat)
    requires p > 0
    ensures v / (256 * p) == v / 256 / p
  {
    var q, r := v / 256 / p, v / 256 % p;
    Bits.Quotient(v / 256, p);
    Bits.Associates(256, q, p);
    Bits.Associates(q, 256, p);
    Bits.RemainderIs(v, 256 * p, q, 256 * r + v % 256);
  }

  /** A word as it goes on the wire: two digits for each byte, the high one first. */
  lemma {:induction false} WordIsWritten(value: nat, width: nat, i: nat)
    requires i < width
    ensures |FieldText(Word(width, value))| == 2 * width
    ensures var b := value / Pow256(i) % 256;
            && FieldText(Word(width, value))[2 * i] == LOWER[b / 16] as int
            && FieldText(Word(width, value))[2 * i + 1] == LOWER[b % 16] as int
  {
    LeBytesAt(value, width, i);
    HexTextAt(LeBytes(value, width), i);
  }

  lemma {:induction false} HexTextAt(bytes: seq<Byte>, i: nat)
    requires i < |bytes|
    ensures |HexText(bytes)| == 2 * |bytes|
    ensures HexText(bytes)[2 * i] == LOWER[bytes[i] / 16] as int && HexText(bytes)[2 * i + 1] == LOWER[bytes[i] % 16] as int
  {
    if i > 0 {
      HexTextAt(bytes[1..], i - 1);
    } else if |bytes| > 1 {
      HexTextAt(bytes[1..], 0);
    }
    NibbleIsWritten(bytes[i] / 16, 0);
    NibbleIsWritten(bytes[i] % 16, 0);
  }

  lemma {:induction false} LeBytesReadBack(value: nat, width: nat)
    requires value < Pow256(width)
    ensures FromLe(LeBytes(value, width)) == value
    decreases width
  {
    if width > 0 {
      assert value / 256 < Pow256(width - 1);
      LeBytesReadBack(value / 256, width - 1);
    }
  }

  /** Hexadecimal without leading zeros. */
  function Digits(v: nat): (d: seq<Byte>)
    ensures d != []
  {
    if v < 16 then [HexDigit(v)] else Digits(v / 16) + [HexDigit(v % 16)]
  }

  /** What `AddNumberSep` appends; a separator of 0 means none. */
  function NumberText(v: nat, sep: Byte): seq<Byte> {
    (if v == TWO64 - 1 then [MINUS, 49] else Digits(v)) + (if sep == 0 then [] else [sep])
  }

  // ----- What the readers compute -----

  datatype ByteRead = ByteRead(ok: bool, value: Byte, cursor: Cursor)
  datatype BlockRead = BlockRead(ok: bool, bytes: seq<Byte>, cursor: Cursor)
  datatype NumberRead = NumberRead(ok: bool, value: nat, sep: Byte, cursor: Cursor)

  function ReadWord8(c: Cursor): (r: ByteRead)
    requires c.Valid()
    ensures r.cursor.Valid()
  {
    var first := ReadRaw(c, 0);
    if !first.ok then ByteRead(false, 0, first.cursor)
    else
      var second := ReadRaw(first.cursor, 0);
      if !second.ok || !IsHex(first.ch) || !IsHex(second.ch) then ByteRead(false, 0, second.cursor)
      else ByteRead(true, NibbleToInt(first.ch).value * 16 + NibbleToInt(second.ch).value, second.cursor)
  }

  /** Two characters, neither a run: digits give their value and anything else fails, both consumed. */
  lemma {:induction false} PairIsRead(text: seq<Byte>, at: nat, a: int, b: int)
    requires at + 1 < |text| && text[at] != STAR && text[at + 1] != STAR
    ensures var x, y := text[at], text[at + 1];
            && (IsDigit(x, a) && IsDigit(y, b) ==> ReadWord8(Cursor(text, at)) == ByteRead(true, 16 * a + b, Cursor(text, at + 2)))
            && (!IsAnyDigit(x) || !IsAnyDigit(y) ==> ReadWord8(Cursor(text, at)) == ByteRead(false, 0, Cursor(text, at + 2)))
  {
    NibbleIsPosition(text[at]);
    NibbleIsPosition(text[at + 1]);
    hide IsDigit, IsAnyDigit, NibbleToInt;
  }

  /** `bytes` are those stored before the first failure. */
  function ReadBlock(c: Cursor, len: nat): (r: BlockRead)
    requires c.Valid()
    ensures r.cursor.Valid()
    ensures r.ok ==> |r.bytes| == len
    decreases len
  {
    if len == 0 then BlockRead(true, [], c)
    else
      var first := ReadWord8(c);
      if !first.ok then BlockRead(false, [], first.cursor)
      else
        var rest := ReadBlock(first.cursor, len - 1);
        BlockRead(rest.ok, [first.value] + rest.bytes, rest.cursor)
  }

  /** The digit loop of `GetNumberSep`: `ch` has just been read, `out` is the value so far. */
  function ReadDigits(c: Cursor, ch: Byte, out: nat): (r: NumberRead)
    requires c.Valid() && c.EndsWith(ch)
    ensures r.cursor.Valid()
    decreases Stars(c.Rest()), |c.Rest()|
  {
    if !IsHex(ch) then NumberRead(true, out, ch, c)
    else
      var value := (out * 16 + NibbleToInt(ch).value) % TWO64;
      var next := ReadRaw(c, 0);
      if !next.ok then NumberRead(true, value, next.ch, next.cursor)
      else
        ReadRawShrinks(c, 0);
        ReadDigits(next.cursor, next.ch, value)
  }

  function ReadNumber(c: Cursor): (r: NumberRead)
    requires c.Valid()
    ensures r.cursor.Valid()
  {
    var first := ReadRaw(c, 0);
    if !first.ok then NumberRead(false, 0, 0, first.cursor)
    else if first.ch == MINUS then
      var second := ReadRaw(first.cursor, first.ch);
      if !second.ok || second.ch != 49 then NumberRead(false, 0, 0, second.cursor)
      else
        var third := ReadRaw(second.cursor, 0);
        NumberRead(true, TWO64 - 1, third.ch, third.cursor)
    else ReadDigits(first.cursor, first.ch, 0)
  }

  /** The pair loop of `GetHexString`; the character that ends it is put back. */
  function ReadPairs(c: Cursor, str: seq<Byte>): (r: BlockRead)
    requires c.Valid()
    ensures r.cursor.Valid()
    decreases Stars(c.Rest()), |c.Rest()|
  {
    var first := ReadRaw(c, 0);
    if !first.ok then BlockRead(true, str, first.cursor)
    else if !IsHex(first.ch) then BlockRead(true, str, first.cursor.(pos := first.cursor.pos - 1))
    else
      var second := ReadRaw(first.cursor, 0);
      if !second.ok || !IsHex(second.ch) then BlockRead(false, str, second.cursor)
      else
        ReadRawShrinks(c, 0);
        ReadRawShrinks(first.cursor, 0);
        ReadPairs(second.cursor, str + [NibbleToInt(first.ch).value * 16 + NibbleToInt(second.ch).value])
  }

  function ReadHexString(c: Cursor): (r: BlockRead)
    requires c.Valid()
    ensures r.cursor.Valid()
  {
    if c.pos == |c.text| then BlockRead(false, [], c) else ReadPairs(c, [])
  }

  lemma ReadWord8Grows(c: Cursor)
    requires c.Valid()
    ensures |c.text| <= |ReadWord8(c).cursor.text|
  {
    ReadRawGrows(c, 0);
    ReadRawGrows(ReadRaw(c, 0).cursor, 0);
  }

  datatype SequenceRead = SequenceRead(sequence: Option<Byte>, cursor: Cursor)

  /** `ParseSequence`: two hexadecimal digits and a colon are taken, anything else is put back. */
  function ReadSequence(c: Cursor): (r: SequenceRead)
    requires c.Valid()
    ensures r.cursor.Valid()
  {
    var word := ReadWord8(c);
    ReadWord8Grows(c);
    if !word.ok then SequenceRead(None, word.cursor.(pos := c.pos))
    else
      var next := ReadRaw(word.cursor, 0);
      ReadRawGrows(word.cursor, 0);
      if next.ok && next.ch == COLON then SequenceRead(Some(word.value), next.cursor)
      else SequenceRead(None, next.cursor.(pos := c.pos))
  }

  /** A text that `ParseSequence` takes to begin with a sequence number. */
  predicate LooksSequenced(t: seq<Byte>) {
    |t| >= 3 && IsHex(t[0]) && IsHex(t[1]) && t[2] == COLON
  }

  /** A reader that starts over sees the same, whatever one read in between has expanded. */
  lemma {:induction false} ReadKeepsRewound(c: Cursor)
    requires c.Clean()
    ensures var r := ReadRaw(c, 0);
            && Unread(c.(pos := 0)) == Unread(r.cursor.(pos := 0))
            && (r.ok ==> r.cursor.Clean())
  {
    var r := ReadRaw(c, 0);
    ReadRawTakesHead(c, 0);
    if r.ok {
      RewoundText(c);
      RewoundText(r.cursor);
      assert c.text[..c.pos] + ([r.ch] + Unread(r.cursor).chars)
          == (c.text[..c.pos] + [r.ch]) + Unread(r.cursor).chars;
    }
  }

  lemma {:induction false} WordKeepsRewound(c: Cursor)
    requires c.Clean()
    ensures var r := ReadWord8(c);
            && Unread(c.(pos := 0)) == Unread(r.cursor.(pos := 0))
            && (r.ok ==> r.cursor.Clean())
  {
    ReadKeepsRewound(c);
    var first := ReadRaw(c, 0);
    if first.ok {
      ReadKeepsRewound(first.cursor);
    }
  }

  /** Looking for a sequence number that is not there changes nothing a reader can see, even if it
      expanded a run on the way. */
  lemma {:induction false} NoSequenceKeepsText(t: seq<Byte>)
    ensures var r := ReadSequence(Cursor(t, 0));
            r.sequence.None? ==> r.cursor.pos == 0 && Unread(r.cursor) == Unread(Cursor(t, 0))
  {
    WordKeepsRewound(Cursor(t, 0));
    var word := ReadWord8(Cursor(t, 0));
    if word.ok {
      ReadKeepsRewound(word.cursor);
    }
  }

  /** A sequence number is found exactly when the text itself begins with one: no run can spell
      a colon after two digits. */
  lemma {:induction false} SequenceFoundIff(t: seq<Byte>)
    ensures var r := ReadSequence(Cursor(t, 0));
            && (r.sequence.Some? <==> LooksSequenced(t))
            && (r.sequence.Some? ==>
                  && r.cursor == Cursor(t, 3)
                  && r.sequence.value == NibbleToInt(t[0]).value * 16 + NibbleToInt(t[1]).value)
  {
    var first := ReadRaw(Cursor(t, 0), 0);
    if first.ok {
      assert first.cursor == Cursor(t, 1) && t[0] != STAR;
      var second := ReadRaw(first.cursor, 0);
      if second.ok && t[1] == STAR {
        RunBlocksColon(t);
      }
    }
  }

  lemma {:induction false} RunBlocksColon(t: seq<Byte>)
    requires |t| >= 2 && t[0] != STAR && t[1] == STAR && ReadRaw(Cursor(t, 1), 0).ok
    ensures ReadSequence(Cursor(t, 0)).sequence.None?
  {
    var second := ReadRaw(Cursor(t, 1), 0);
    assert second.cursor.text[1] == t[0] && second.cursor.text[2] == t[0];
  }

  // ----- Fields read back -----

  /** `t` stands at position `at` of `text`. */
  ghost predicate Stands(text: seq<Byte>, at: nat, t: seq<Byte>) {
    at + |t| <= |text| && forall i :: 0 <= i < |t| ==> text[at + i] == t[i]
  }

  lemma StandsParts(text: seq<Byte>, at: nat, a: seq<Byte>, b: seq<Byte>)
    requires Stands(text, at, a + b)
    ensures Stands(text, at, a) && Stands(text, at + |a|, b)
  {
    forall i | 0 <= i < |a| ensures text[at + i] == a[i] {
      assert (a + b)[i] == a[i];
    }
    forall i | 0 <= i < |b| ensures text[at + |a| + i] == b[i] {
      assert (a + b)[|a| + i] == b[i];
    }
  }

  lemma {:induction false} HexPairReadsBack(text: seq<Byte>, at: nat, b: Byte)
    requires Stands(text, at, HexPair(b))
    ensures ReadWord8(Cursor(text, at)) == ByteRead(true, b, Cursor(text, at + 2))
  {
    assert text[at] == HexPair(b)[0] && text[at + 1] == HexPair(b)[1];
    HexDigitReadsBack(b / 16);
    HexDigitReadsBack(b % 16);
  }

  lemma {:induction false} BlockReadsBack(text: seq<Byte>, at: nat, bytes: seq<Byte>)
    requires Stands(text, at, HexText(bytes))
    ensures ReadBlock(Cursor(text, at), |bytes|) == BlockRead(true, bytes, Cursor(text, at + |HexText(bytes)|))
    decreases |bytes|
  {
    hide ReadWord8, ReadRaw;
    if bytes != [] {
      assert HexText(bytes) == HexPair(bytes[0]) + HexText(bytes[1..]);
      StandsParts(text, at, HexPair(bytes[0]), HexText(bytes[1..]));
      HexPairReadsBack(text, at, bytes[0]);
      BlockReadsBack(text, at + 2, bytes[1..]);
      ReadBlockCons(Cursor(text, at), bytes, Cursor(text, at + 2));
    }
  }

  lemma ReadBlockCons(c: Cursor, bytes: seq<Byte>, next: Cursor)
    requires c.Valid() && next.Valid() && bytes != []
    requires ReadWord8(c) == ByteRead(true, bytes[0], next)
    requires var r := ReadBlock(next, |bytes| - 1); r.ok && r.bytes == bytes[1..]
    ensures ReadBlock(c, |bytes|) == BlockRead(true, bytes, ReadBlock(next, |bytes| - 1).cursor)
  {
    hide ReadWord8;
    assert [bytes[0]] + bytes[1..] == bytes;
  }

  /** Where a field ends: at the end of the text, or at a character no reader takes for its own. */
  predicate EndsAt(text: seq<Byte>, at: nat) {
    at <= |text| && (at < |text| ==> !IsHex(text[at]) && text[at] != STAR)
  }

  lemma AppendHead(str: seq<Byte>, bytes: seq<Byte>)
    requires bytes != []
    ensures (str + [bytes[0]]) + bytes[1..] == str + bytes
  {
  }

  lemma PairsEnd(text: seq<Byte>, at: nat, str: seq<Byte>)
    requires EndsAt(text, at)
    ensures ReadPairs(Cursor(text, at), str) == BlockRead(true, str, Cursor(text, at))
  {
  }

  lemma {:induction false} PairsReadBack(text: seq<Byte>, at: nat, bytes: seq<Byte>, str: seq<Byte>)
    requires Stands(text, at, HexText(bytes)) && EndsAt(text, at + |HexText(bytes)|)
    ensures ReadPairs(Cursor(text, at), str) == BlockRead(true, str + bytes, Cursor(text, at + |HexText(bytes)|))
    decreases |bytes|
  {
    hide ReadPairs, ReadRaw;
    if bytes == [] {
      assert str + bytes == str;
      PairsEnd(text, at, str);
    } else {
      var b, rest := bytes[0], bytes[1..];
      assert HexText(bytes) == HexPair(b) + HexText(rest);
      hide HexText, Stands, EndsAt;
      StandsParts(text, at, HexPair(b), HexText(rest));
      PairReadsBack(text, at, b, str);
      PairsReadBack(text, at + 2, rest, str + [b]);
      AppendHead(str, bytes);
    }
  }

  lemma ReadsPlainChar(text: seq<Byte>, at: nat, previous: Byte)
    requires at < |text| && text[at] != STAR
    ensures ReadRaw(Cursor(text, at), previous) == RawChar(true, text[at], Cursor(text, at + 1))
  {
  }

  lemma {:induction false} PairReadsBack(text: seq<Byte>, at: nat, b: Byte, str: seq<Byte>)
    requires Stands(text, at, HexPair(b))
    ensures ReadPairs(Cursor(text, at), str) == ReadPairs(Cursor(text, at + 2), str + [b])
  {
    HexDigitReadsBack(b / 16);
    HexDigitReadsBack(b % 16);
    assert text[at] == HexPair(b)[0] && text[at + 1] == HexPair(b)[1];
    hide ReadRaw, Stands, HexDigit, NibbleToInt;
    ReadsPlainChar(text, at, 0);
    ReadsPlainChar(text, at + 1, 0);
    assert b / 16 * 16 + b % 16 == b;
  }

  /** The value of hexadecimal digits, read from the left into 64 bits. */
  function Horner(out: nat, digits: seq<Byte>): nat
    decreases |digits|
  {
    if digits == [] then out else Horner((out * 16 + HexValue(digits[0])) % TWO64, digits[1..])
  }

  function HexValue(d: Byte): nat {
    if IsHex(d) then NibbleToInt(d).value else 0
  }

  lemma {:induction false} HornerOfAppend(out: nat, digits: seq<Byte>, d: Byte)
    ensures Horner(out, digits + [d]) == (Horner(out, digits) * 16 + HexValue(d)) % TWO64
    decreases |digits|
  {
    if digits == [] {
      assert digits + [d] == [d];
    } else {
      assert (digits + [d])[1..] == digits[1..] + [d];
      HornerOfAppend((out * 16 + HexValue(digits[0])) % TWO64, digits[1..], d);
    }
  }

  lemma {:induction false} DigitsDenote(v: nat)
    requires v < TWO64
    ensures forall d :: d in Digits(v) ==> IsHex(d) && d != STAR && d != MINUS
    ensures Horner(0, Digits(v)) == v
    decreases v
  {
    HexDigitReadsBack(v % 16);
    hide HexDigit;
    if v >= 16 {
      DigitsDenote(v / 16);
      hide Horner;
      HornerOfAppend(0, Digits(v / 16), HexDigit(v % 16));
      LastDigitAdds(v);
    } else {
      FirstDigit(v);
    }
  }

  lemma LastDigitAdds(v: nat)
    requires v < TWO64
    ensures (v / 16 * 16 + v % 16) % TWO64 == v
  {
  }

  lemma FirstDigit(v: nat)
    requires v < 16
    ensures Horner(0, [HexDigit(v)]) == v
  {
    HexDigitReadsBack(v);
    assert [HexDigit(v)][1..] == [];
  }

  lemma {:induction false} DigitsReadBack(text: seq<Byte>, at: nat, digits: seq<Byte>, out: nat)
    requires digits != [] && forall d :: d in digits ==> IsHex(d) && d != STAR
    requires Stands(text, at, digits) && EndsAt(text, at + |digits|) && text[at] == digits[0]
    ensures var after := at + |digits|;
            ReadDigits(Cursor(text, at + 1), digits[0], out)
            == if after == |text| then NumberRead(true, Horner(out, digits), 0, Cursor(text, after))
               else NumberRead(true, Horner(out, digits), text[after], Cursor(text, after + 1))
    decreases |digits|
  {
    hide ReadDigits;
    assert digits[0] in digits;
    if |digits| > 1 {
      assert text[at + 1] == digits[1] && digits[1] in digits;
      DigitReadBack(text, at + 1, digits[0], digits[1], out);
      StandsRest(text, at, digits);
      hide Stands, ReadRaw;
      DigitsReadBack(text, at + 1, digits[1..], (out * 16 + HexValue(digits[0])) % TWO64);
    } else {
      assert digits == [digits[0]];
      LastDigitReadBack(text, at + 1, digits[0], out);
    }
  }

  lemma StandsRest(text: seq<Byte>, at: nat, t: seq<Byte>)
    requires t != [] && Stands(text, at, t)
    ensures Stands(text, at + 1, t[1..]) && forall d :: d in t[1..] ==> d in t
  {
    assert t == [t[0]] + t[1..];
    StandsParts(text, at, [t[0]], t[1..]);
  }

  lemma LastDigitReadBack(text: seq<Byte>, at: nat, d: Byte, out: nat)
    requires at <= |text| && IsHex(d) && (Cursor(text, at)).EndsWith(d) && EndsAt(text, at)
    ensures ReadDigits(Cursor(text, at), d, out)
         == if at == |text| then NumberRead(true, Horner(out, [d]), 0, Cursor(text, at))
            else NumberRead(true, Horner(out, [d]), text[at], Cursor(text, at + 1))
  {
    assert [d][1..] == [];
  }

  lemma DigitReadBack(text: seq<Byte>, at: nat, d: Byte, next: Byte, out: nat)
    requires at < |text| && IsHex(d) && text[at] == next != STAR && (Cursor(text, at)).EndsWith(d)
    ensures ReadDigits(Cursor(text, at), d, out) == ReadDigits(Cursor(text, at + 1), next, (out * 16 + HexValue(d)) % TWO64)
  {
    hide ReadRaw, NibbleToInt;
    ReadsPlainChar(text, at, 0);
  }

  datatype Field =
    | Word(width: nat, value: nat)
    | Number(number: nat, sep: Byte)
    | HexString(bytes: seq<Byte>, sep: Byte)

  /** The reader to use for a field; its value is not known to it. */
  datatype Shape = WordShape(width: nat) | NumberShape | HexStringShape

  function ShapeOf(f: Field): Shape {
    match f
    case Word(width, _) => WordShape(width)
    case Number(_, _) => NumberShape
    case HexString(_, _) => HexStringShape
  }

  /** The text of one field. A hexadecimal string is followed by its separator. */
  function FieldText(f: Field): seq<Byte> {
    match f
    case Word(width, value) => HexText(LeBytes(value, width))
    case Number(v, sep) => NumberText(v, sep)
    case HexString(bytes, sep) => HexText(CString(bytes)) + [sep]
  }

  function FieldsText(fs: seq<Field>): seq<Byte> {
    if fs == [] then [] else FieldText(fs[0]) + FieldsText(fs[1..])
  }

  function Shapes(fs: seq<Field>): seq<Shape> {
    if fs == [] then [] else [ShapeOf(fs[0])] + Shapes(fs[1..])
  }

  datatype FieldRead = FieldRead(field: Option<Field>, cursor: Cursor)
  datatype FieldsRead = FieldsRead(fields: Option<seq<Field>>, cursor: Cursor)

  function ReadField(c: Cursor, shape: Shape): (r: FieldRead)
    requires c.Valid()
    ensures r.cursor.Valid()
  {
    match shape
    case WordShape(width) =>
      var b := ReadBlock(c, width);
      FieldRead(if b.ok then Some(Word(width, FromLe(b.bytes))) else None, b.cursor)
    case NumberShape =>
      var n := ReadNumber(c);
      FieldRead(if n.ok then Some(Number(n.value, n.sep)) else None, n.cursor)
    case HexStringShape =>
      var s := ReadHexString(c);
      if !s.ok then FieldRead(None, s.cursor)
      else
        var sep := ReadRaw(s.cursor, 0);
        FieldRead(if sep.ok then Some(HexString(s.bytes, sep.ch)) else None, sep.cursor)
  }

  function ReadFields(c: Cursor, shapes: seq<Shape>): FieldsRead
    requires c.Valid()
    decreases |shapes|
  {
    if shapes == [] then FieldsRead(Some([]), c)
    else
      var first := ReadField(c, shapes[0]);
      if first.field.None? then FieldsRead(None, first.cursor)
      else
        var rest := ReadFields(first.cursor, shapes[1..]);
        FieldsRead(if rest.fields.None? then None else Some([first.field.value] + rest.fields.value), rest.cursor)
  }

  /** A separator that ends a number or a string for its reader. */
  predicate Separates(sep: Byte) {
    !IsHex(sep) && sep != STAR
  }

  /** Values that fit, strings without NUL, separators that separate; only the last number of a
      packet may do without one. */
  ghost predicate Readable(f: Field, isLast: bool) {
    match f
    case Word(width, value) => width in {1, 2, 4, 8} && value < Pow256(width)
    case Number(v, sep) => v < TWO64 && Separates(sep) && (sep == 0 ==> isLast)
    case HexString(bytes, sep) => 0 !in bytes && Separates(sep)
  }

  ghost predicate AllReadable(fs: seq<Field>) {
    forall i :: 0 <= i < |fs| ==> Readable(fs[i], i == |fs| - 1)
  }

  lemma {:induction false} NumberReadsBack(text: seq<Byte>, at: nat, f: Field)
    requires f.Number? && Readable(f, at + |FieldText(f)| == |text|)
    requires Stands(text, at, FieldText(f))
    ensures ReadNumber(Cursor(text, at)) == NumberRead(true, f.number, f.sep, Cursor(text, at + |FieldText(f)|))
  {
    var v, sep := f.number, f.sep;
    var tail := if sep == 0 then [] else [sep];
    var digits := if v == TWO64 - 1 then [MINUS, 49] else Digits(v);
    StandsParts(text, at, digits, tail);
    if sep != 0 {
      assert text[at + |digits|] == tail[0];
    }
    assert text[at] == digits[0];
    if v == TWO64 - 1 {
      assert text[at + 1] == digits[1] && digits[1] in digits;
    } else {
      DigitsDenote(v);
      assert digits[0] in digits;
      hide ReadDigits, Digits, Horner, HexDigit, Stands;
      DigitsReadBack(text, at, digits, 0);
    }
  }

  lemma {:induction false} HexStringReadsBack(text: seq<Byte>, at: nat, bytes: seq<Byte>, sep: Byte)
    requires Separates(sep) && Stands(text, at, HexText(bytes) + [sep])
    ensures ReadField(Cursor(text, at), HexStringShape)
            == FieldRead(Some(HexString(bytes, sep)), Cursor(text, at + |HexText(bytes)| + 1))
  {
    hide ReadPairs, ReadRaw, HexText;
    StandsParts(text, at, HexText(bytes), [sep]);
    assert text[at + |HexText(bytes)|] == [sep][0];
    ReadsPlainChar(text, at + |HexText(bytes)|, 0);
    PairsReadBack(text, at, bytes, []);
    assert [] + bytes == bytes;
  }

  lemma {:induction false} FieldReadsBack(text: seq<Byte>, at: nat, f: Field)
    requires Readable(f, at + |FieldText(f)| == |text|)
    requires Stands(text, at, FieldText(f))
    ensures ReadField(Cursor(text, at), ShapeOf(f)) == FieldRead(Some(f), Cursor(text, at + |FieldText(f)|))
  {
    hide ReadBlock, ReadNumber, ReadHexString, Stands, FromLe, LeBytes;
    match f {
      case Word(width, value) =>
        BlockReadsBack(text, at, LeBytes(value, width));
        LeBytesReadBack(value, width);
      case Number(_, _) =>
        NumberReadsBack(text, at, f);
      case HexString(bytes, sep) =>
        CStringWithoutNul(bytes);
        HexStringReadsBack(text, at, bytes, sep);
    }
  }

  lemma RestReadable(fs: seq<Field>)
    requires AllReadable(fs) && fs != []
    ensures AllReadable(fs[1..])
  {
    var rest := fs[1..];
    forall i | 0 <= i < |rest| ensures Readable(rest[i], i == |rest| - 1) {
      assert Readable(fs[i + 1], i + 1 == |fs| - 1);
    }
  }

  lemma {:induction false} ReadFieldsAppend(c: Cursor, fs: seq<Field>, next: Cursor)
    requires c.Valid() && next.Valid() && fs != []
    requires ReadField(c, ShapeOf(fs[0])) == FieldRead(Some(fs[0]), next)
    requires ReadFields(next, Shapes(fs[1..])).fields == Some(fs[1..])
    ensures ReadFields(c, Shapes(fs)) == FieldsRead(Some(fs), ReadFields(next, Shapes(fs[1..])).cursor)
  {
    assert Shapes(fs)[1..] == Shapes(fs[1..]);
    assert [fs[0]] + fs[1..] == fs;
  }

  lemma {:induction false} FieldsReadBackAt(text: seq<Byte>, at: nat, fs: seq<Field>)
    requires AllReadable(fs)
    requires Stands(text, at, FieldsText(fs)) && at + |FieldsText(fs)| == |text|
    ensures ReadFields(Cursor(text, at), Shapes(fs)) == FieldsRead(Some(fs), Cursor(text, |text|))
    decreases |fs|
  {
    hide ReadField, FieldText;
    if fs != [] {
      var f, rest := fs[0], fs[1..];
      var after := at + |FieldText(f)|;
      assert FieldsText(fs) == FieldText(f) + FieldsText(rest);
      StandsParts(text, at, FieldText(f), FieldsText(rest));
      assert ReadField(Cursor(text, at), ShapeOf(f)) == FieldRead(Some(f), Cursor(text, after)) by {
        assert Readable(f, |fs| == 1);
        FieldReadsBack(text, at, f);
      }
      RestReadable(fs);
      FieldsReadBackAt(text, after, rest);
      ReadFieldsAppend(Cursor(text, at), fs, Cursor(text, after));
    }
  }

  /** Any list of fields, written after any text, is read back unchanged by the matching readers,
      which then stand at the end of the packet. */
  lemma {:induction false} FieldsReadBack(before: seq<Byte>, fs: seq<Field>)
    requires AllReadable(fs)
    ensures var text := before + FieldsText(fs);
            ReadFields(Cursor(text, |before|), Shapes(fs)) == FieldsRead(Some(fs), Cursor(text, |text|))
  {
    var text := before + FieldsText(fs);
    FieldsReadBackAt(text, |before|, fs);
  }
}
