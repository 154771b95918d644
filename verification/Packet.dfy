/** The debug stub's packet object: a growing character buffer with a write and a read position. */
module Packets {
  import opened Util
  import opened PacketText
  import opened EscapedData
  import opened PacketFields

  const GROW_SIZE := 64

  /** `vector::resize`: new elements are 0. */
  function Resized(v: seq<Byte>, size: nat): (r: seq<Byte>)
    ensures |r| == size
    ensures forall i :: 0 <= i < size && i < |v| ==> r[i] == v[i]
  {
    if size <= |v| then v[..size] else v + Repeat(0 as Byte, size - |v|)
  }

  /** `memmove(&v[to], &v[from], count)`. */
  function Moved(v: seq<Byte>, to: nat, from: nat, count: nat): (r: seq<Byte>)
    requires to + count <= |v| && from + count <= |v|
    ensures |r| == |v|
  {
    v[..to] + v[from..from + count] + v[to + count..]
  }

  /** `memset(&v[at], x, count)`. */
  function Filled(v: seq<Byte>, at: nat, x: Byte, count: nat): (r: seq<Byte>)
    requires at + count <= |v|
    ensures |r| == |v|
  {
    v[..at] + Repeat(x, count) + v[at + count..]
  }

  function Reversed(s: seq<Byte>): seq<Byte> {
    if s == [] then [] else [s[|s| - 1]] + Reversed(s[..|s| - 1])
  }

  class Packet {
    var sequence: int  // -1 when unset
    var data: seq<Byte>
    var readIndex: nat
    var writeIndex: nat

    ghost predicate Valid()
      reads this
    {
      readIndex <= writeIndex < |data| && data[writeIndex] == 0
    }

    ghost function Text(): seq<Byte>
      requires Valid()
      reads this
    {
      data[..writeIndex]
    }

    ghost function View(): (c: Cursor)
      requires Valid()
      ensures c.Valid()
      reads this
    {
      Cursor(Text(), readIndex)
    }

    constructor ()
      ensures Valid() && View() == Cursor([], 0) && sequence == -1
    {
      sequence := -1;
      data := Repeat(0 as Byte, GROW_SIZE);
      readIndex, writeIndex := 0, 0;
    }

    /** The sequence number survives. */
    method Clear()
      modifies this
      ensures Valid() && View() == Cursor([], 0) && sequence == old(sequence)
    {
      data := Repeat(0 as Byte, GROW_SIZE);
      readIndex := 0;
      writeIndex := 0;
    }

    method Rewind()
      requires Valid()
      modifies this
      ensures Valid() && View() == Cursor(old(Text()), 0) && sequence == old(sequence)
    {
      readIndex := 0;
    }

    method EndOfPacket() returns (end: bool)
      requires Valid()
      ensures end <==> View().Rest() == []
    {
      end := readIndex >= writeIndex;
    }

    // ----- Writing -----

    method AddRawChar(ch: Byte)
      requires Valid()
      modifies this
      ensures Valid() && View() == Cursor(old(Text()) + [ch], old(readIndex)) && sequence == old(sequence)
    {
      if |data| <= writeIndex + 1 {
        data := Resized(data, |data| + GROW_SIZE);
      }
      data := data[writeIndex := ch];
      writeIndex := writeIndex + 1;
      data := data[writeIndex := 0];
      assert Text() == old(Text()) + [ch];
    }

    method AddWord8(b: Byte)
      requires Valid()
      modifies this
      ensures Valid() && View() == Cursor(old(Text()) + HexPair(b), old(readIndex)) && sequence == old(sequence)
    {
      AddRawChar(IntToNibble(b / 16, 0));
      AddRawChar(IntToNibble(b % 16, 0));
    }

    method AddBlock(bytes: seq<Byte>)
      requires Valid()
      modifies this
      ensures Valid() && View() == Cursor(old(Text()) + HexText(bytes), old(readIndex)) && sequence == old(sequence)
    {
      for i := 0 to |bytes|
        invariant Valid() && sequence == old(sequence)
        invariant View() == Cursor(old(Text()) + HexText(bytes[..i]), old(readIndex))
      {
        HexTextOfAppend(bytes[..i], bytes[i]);
        assert bytes[..i + 1] == bytes[..i] + [bytes[i]];
        AddWord8(bytes[i]);
      }
      assert bytes[..|bytes|] == bytes;
    }

    /** `AddWord16`, `AddWord32` and `AddWord64` for widths 2, 4 and 8. */
    method AddWord(value: nat, width: nat)
      requires Valid() && width in {2, 4, 8} && value < Pow256(width)
      modifies this
      ensures Valid() && sequence == old(sequence)
      ensures View() == Cursor(old(Text()) + FieldText(Word(width, value)), old(readIndex))
    {
      AddBlock(LeBytes(value, width));
    }

    method AddString(str: seq<Byte>)
      requires Valid()
      modifies this
      ensures Valid() && View() == Cursor(old(Text()) + CString(str), old(readIndex)) && sequence == old(sequence)
    {
      var i := 0;
      while i < |str| && str[i] != 0
        invariant i <= |str| && Valid() && readIndex == old(readIndex) && sequence == old(sequence)
        invariant old(Text()) + CString(str) == Text() + CString(str[i..])
      {
        AddRawChar(str[i]);
        i := i + 1;
      }
    }

    method AddHexString(str: seq<Byte>)
      requires Valid()
      modifies this
      ensures Valid() && sequence == old(sequence)
      ensures View() == Cursor(old(Text()) + HexText(CString(str)), old(readIndex))
    {
      var i := 0;
      while i < |str| && str[i] != 0
        invariant i <= |str| && Valid() && readIndex == old(readIndex) && sequence == old(sequence)
        invariant old(Text()) + HexText(CString(str)) == Text() + HexText(CString(str[i..]))
      {
        AddWord8(str[i]);
        i := i + 1;
      }
    }

    method AddEscapedChar(ch: Byte)
      requires Valid()
      modifies this
      ensures Valid() && View() == Cursor(old(Text()) + EscapeChar(ch), old(readIndex)) && sequence == old(sequence)
    {
      if ch == RBRACE || ch == HASH || ch == DOLLAR || ch == STAR {
        AddRawChar(RBRACE);
        AddRawChar(XorByte(ch, 0x20));
      } else {
        AddRawChar(ch);
      }
    }

    method AddEscapedData(bytes: seq<Byte>)
      requires Valid()
      modifies this
      ensures Valid() && View() == Cursor(old(Text()) + Escaped(bytes), old(readIndex)) && sequence == old(sequence)
    {
      hide RunLength, EscapeChar, Escaped;
      NothingEscaped();
      var left := bytes;
      while left != []
        invariant Valid() && readIndex == old(readIndex) && sequence == old(sequence)
        invariant old(Text()) + Escaped(bytes) == Text() + Escaped(left)
        decreases |left|
      {
        ghost var before, whole := Text(), left;
        var ch := left[0];
        AddEscapedChar(ch);
        left := left[1..];
        var count := CountRun(left, ch);
        if count >= 3 {
          if count == 6 || count == 7 {
            count := 5;
          }
          AddRawChar(STAR);
          AddRawChar(count + 29);
          left := left[count..];
          assert (before + EscapeChar(ch) + [STAR]) + [count + 29] == before + ChunkText(whole);
        }
        assert left == whole[ChunkLength(whole)..];
        RegroupChunk(before, whole);
      }
    }

    method AddNumberSep(number: nat, sep: Byte)
      requires Valid() && number < TWO64
      modifies this
      ensures Valid() && sequence == old(sequence)
      ensures View() == Cursor(old(Text()) + NumberText(number, sep), old(readIndex))
    {
      if number == TWO64 - 1 {
        AddRawChar(MINUS);
        AddRawChar(49);
      } else {
        var out := new Byte[16];
        var nibbles: nat := StoreNibbles(number, out);
        while nibbles > 0
          invariant nibbles <= out.Length && Valid() && readIndex == old(readIndex) && sequence == old(sequence)
          invariant Text() + Reversed(out[..nibbles]) == old(Text()) + Digits(number)
        {
          nibbles := nibbles - 1;
          assert out[..nibbles] == out[..nibbles + 1][..nibbles];
          AddRawChar(out[nibbles]);
        }
      }
      ghost var digits := if number == TWO64 - 1 then [MINUS, 49] else Digits(number);
      assert Text() == old(Text()) + digits;
      if sep != 0 {
        AddRawChar(sep);
        assert (old(Text()) + digits) + [sep] == old(Text()) + (digits + [sep]);
      } else {
        assert digits + [] == digits;
      }
    }

    // ----- Reading -----

    /** Makes room for `cnt` copies of the character before the `*` just read, and writes them. */
    method ExpandRunInPlace(cnt: nat) returns (ch: Byte)
      requires Valid() && 2 <= readIndex < writeIndex && cnt >= 3
      modifies this
      ensures Valid() && readIndex == old(readIndex) && sequence == old(sequence)
      ensures ch == old(Text())[readIndex - 2]
      ensures Text() == old(Text())[..readIndex - 1] + Repeat(ch, cnt - 1) + old(Text())[readIndex + 1..]
    {
      RunShifted(data, readIndex, writeIndex, cnt);
      var v := Resized(data, writeIndex + cnt - 3 + 1);
      v := Moved(v, readIndex + cnt - 3, readIndex, writeIndex - readIndex);
      ch := v[readIndex - 2];
      v := Filled(v, readIndex - 1, ch, cnt - 1);
      SameBelow(v, |v| - 1, 0);
      writeIndex := |v| - 1;
      data := v[writeIndex := 0];
    }

    /** `previous` is what the caller's variable holds before the call. */
    method GetRawChar(previous: Byte) returns (ok: bool, ch: Byte)
      requires Valid()
      modifies this
      ensures Valid() && sequence == old(sequence)
      ensures RawChar(ok, ch, View()) == ReadRaw(old(View()), previous)
    {
      if readIndex >= writeIndex {
        return false, previous;
      }
      ch := data[readIndex];
      readIndex := readIndex + 1;
      if ch == STAR {
        if readIndex < 2 {
          return false, ch;
        }
        if readIndex >= writeIndex {
          return false, ch;
        }
        var cnt := Signed(data[readIndex]) - 28;
        if cnt < 3 {
          return false, ch;
        }
        ch := ExpandRunInPlace(cnt);
      }
      ok := true;
    }

    method GetWord8() returns (ok: bool, value: Byte)
      requires Valid()
      modifies this
      ensures Valid() && sequence == old(sequence)
      ensures ByteRead(ok, value, View()) == ReadWord8(old(View()))
    {
      value := 0;
      var seq1, seq2;
      ok, seq1 := GetRawChar(0);
      if !ok {
        return;
      }
      ok, seq2 := GetRawChar(0);
      if !ok {
        return;
      }
      var val1, val2 := NibbleToInt(seq1), NibbleToInt(seq2);
      if val1.None? || val2.None? {
        return false, 0;
      }
      value := val1.value * 16 + val2.value;
    }

    method GetBlock(len: nat) returns (ok: bool, bytes: seq<Byte>)
      requires Valid()
      modifies this
      ensures Valid() && sequence == old(sequence)
      ensures BlockRead(ok, bytes, View()) == ReadBlock(old(View()), len)
    {
      hide ReadBlock, ReadWord8, Prepend;
      ok, bytes := true, [];
      ghost var start := View();
      PrependNothing(View(), len);
      for offs := 0 to len
        invariant Valid() && sequence == old(sequence) && ok
        invariant ReadBlock(start, len) == Prepend(bytes, ReadBlock(View(), len - offs))
      {
        PrependStep(bytes, View(), len - offs);
        var b;
        ok, b := GetWord8();
        if !ok {
          return;
        }
        bytes := bytes + [b];
      }
      PrependEnd(bytes, View());
    }

    /** `GetWord16`, `GetWord32` and `GetWord64` for widths 2, 4 and 8. */
    method GetWord(width: nat) returns (ok: bool, value: nat)
      requires Valid() && width in {2, 4, 8}
      modifies this
      ensures Valid() && sequence == old(sequence)
      ensures var r := ReadField(old(View()), WordShape(width));
              View() == r.cursor && ok == r.field.Some? && (ok ==> r.field == Some(Word(width, value)))
    {
      var bytes;
      ok, bytes := GetBlock(width);
      value := FromLe(bytes);
    }

    method GetNumberSep() returns (ok: bool, value: nat, sep: Byte)
      requires Valid()
      modifies this
      ensures Valid() && sequence == old(sequence)
      ensures NumberRead(ok, value, sep, View()) == ReadNumber(old(View()))
    {
      value, sep := 0, 0;
      var ch;
      ok, ch := GetRawChar(0);
      if !ok {
        return;
      }
      if ch == MINUS {
        ok, ch := GetRawChar(ch);
        if !ok || ch != 49 {
          return false, 0, 0;
        }
        value := TWO64 - 1;
        ok, sep := GetRawChar(0);
        return true, value, sep;
      }
      value, sep := GetDigits(ch);
      return true, value, sep;
    }

    /** The digit loop of `GetNumberSep`; `first` has just been read. */
    method GetDigits(first: Byte) returns (out: nat, ch: Byte)
      requires Valid() && View().EndsWith(first)
      modifies this
      ensures Valid() && sequence == old(sequence)
      ensures NumberRead(true, out, ch, View()) == ReadDigits(old(View()), first, 0)
    {
      hide Stars, ReadRaw, ReadDigits;
      out, ch := 0, first;
      ghost var goal := ReadDigits(View(), first, 0);
      while true
        invariant Valid() && sequence == old(sequence)
        invariant View().EndsWith(ch)
        invariant goal == ReadDigits(View(), ch, out)
        decreases Stars(View().Rest()), |View().Rest()|
      {
        DigitsStep(View(), ch, out);
        var nib := NibbleToInt(ch);
        if nib.None? {
          return;
        }
        out := (out * 16 + nib.value) % TWO64;
        var ok;
        ok, ch := GetRawChar(0);
        if !ok {
          return;
        }
      }
    }

    method GetHexString() returns (ok: bool, str: seq<Byte>)
      requires Valid()
      modifies this
      ensures Valid() && sequence == old(sequence)
      ensures BlockRead(ok, str, View()) == ReadHexString(old(View()))
    {
      hide Stars, ReadRaw, ReadPairs;
      str := [];
      if readIndex >= writeIndex {
        return false, str;
      }
      ghost var goal := ReadPairs(View(), []);
      while true
        invariant Valid() && sequence == old(sequence)
        invariant goal == ReadPairs(View(), str)
        decreases Stars(View().Rest()), |View().Rest()|
      {
        PairsStep(View(), str);
        var ch1, ch2;
        ok, ch1 := GetRawChar(0);
        if !ok {
          break;
        }
        var nib1 := NibbleToInt(ch1);
        if nib1.None? {
          readIndex := readIndex - 1;
          break;
        }
        ok, ch2 := GetRawChar(0);
        if !ok {
          return false, str;
        }
        var nib2 := NibbleToInt(ch2);
        if nib2.None? {
          return false, str;
        }
        str := str + [nib1.value * 16 + nib2.value];
      }
      return true, str;
    }

    method ParseSequence()
      requires Valid()
      modifies this
      ensures Valid()
      ensures var r := ReadSequence(old(View()));
              View() == r.cursor && sequence == if r.sequence.Some? then r.sequence.value else old(sequence)
    {
      var savedReadIndex := readIndex;
      var ok, word, ch;
      ReadWord8Grows(View());
      ok, word := GetWord8();
      if ok {
        ReadRawGrows(View(), 0);
        ok, ch := GetRawChar(0);
        if ok && ch == COLON {
          sequence := word;
          return;
        }
      }
      readIndex := savedReadIndex;
    }
  }

  ghost predicate Shrinks(after: Cursor, before: Cursor)
    requires after.Valid() && before.Valid()
  {
    || Stars(after.Rest()) < Stars(before.Rest())
    || (Stars(after.Rest()) == Stars(before.Rest()) && |after.Rest()| < |before.Rest()|)
  }

  lemma PairsStep(c: Cursor, str: seq<Byte>)
    requires c.Valid()
    ensures var first := ReadRaw(c, 0);
            var second := ReadRaw(first.cursor, 0);
            if !first.ok then ReadPairs(c, str) == BlockRead(true, str, first.cursor)
            else if !IsHex(first.ch) then ReadPairs(c, str) == BlockRead(true, str, first.cursor.(pos := first.cursor.pos - 1))
            else if !second.ok || !IsHex(second.ch) then ReadPairs(c, str) == BlockRead(false, str, second.cursor)
            else
              && Shrinks(second.cursor, c)
              && ReadPairs(c, str)
                 == ReadPairs(second.cursor, str + [NibbleToInt(first.ch).value * 16 + NibbleToInt(second.ch).value])
  {
    hide Stars, ReadRaw;
    var first := ReadRaw(c, 0);
    if first.ok && IsHex(first.ch) {
      ReadRawShrinks(c, 0);
      var second := ReadRaw(first.cursor, 0);
      if second.ok && IsHex(second.ch) {
        ReadRawShrinks(first.cursor, 0);
      }
    }
  }

  lemma DigitsStep(c: Cursor, ch: Byte, out: nat)
    requires c.Valid() && c.EndsWith(ch)
    ensures if !IsHex(ch) then ReadDigits(c, ch, out) == NumberRead(true, out, ch, c)
            else
            var value, next := (out * 16 + NibbleToInt(ch).value) % TWO64, ReadRaw(c, 0);
            if !next.ok then ReadDigits(c, ch, out) == NumberRead(true, value, next.ch, next.cursor)
            else
              && next.cursor.EndsWith(next.ch)
              && ReadDigits(c, ch, out) == ReadDigits(next.cursor, next.ch, value)
              && Shrinks(next.cursor, c)
  {
    hide Stars;
    if IsHex(ch) && ReadRaw(c, 0).ok {
      ReadRawShrinks(c, 0);
    }
  }

  function Prepend(bytes: seq<Byte>, r: BlockRead): BlockRead {
    r.(bytes := bytes + r.bytes)
  }

  lemma PrependNothing(c: Cursor, n: nat)
    requires c.Valid()
    ensures ReadBlock(c, n) == Prepend([], ReadBlock(c, n))
  {
  }

  lemma PrependEnd(bytes: seq<Byte>, c: Cursor)
    requires c.Valid()
    ensures Prepend(bytes, ReadBlock(c, 0)) == BlockRead(true, bytes, c)
  {
  }

  lemma PrependStep(bytes: seq<Byte>, c: Cursor, n: nat)
    requires c.Valid() && n > 0
    ensures var w := ReadWord8(c);
            Prepend(bytes, ReadBlock(c, n))
            == if w.ok then Prepend(bytes + [w.value], ReadBlock(w.cursor, n - 1)) else BlockRead(false, bytes, w.cursor)
  {
    var w := ReadWord8(c);
    if w.ok {
      var rest := ReadBlock(w.cursor, n - 1);
      assert bytes + ([w.value] + rest.bytes) == (bytes + [w.value]) + rest.bytes;
    } else {
      assert bytes + [] == bytes;
    }
  }

  lemma SameBelow(s: seq<Byte>, n: nat, x: Byte)
    requires n < |s|
    ensures s[n := x][..n] == s[..n]
  {
  }

  /** The buffer after a run `x*n` has been expanded to `cnt` copies; `r` is just behind the `*`,
      `w` is where the text ends. */
  function RunExpanded(data: seq<Byte>, r: nat, w: nat, cnt: nat): (e: seq<Byte>)
    requires 2 <= r < w < |data| && cnt >= 3
    ensures |e| == w + cnt - 2
  {
    var moved := Moved(Resized(data, w + cnt - 3 + 1), r + cnt - 3, r, w - r);
    Filled(moved, r - 1, moved[r - 2], cnt - 1)
  }

  lemma RunShifted(data: seq<Byte>, r: nat, w: nat, cnt: nat)
    requires 2 <= r < w < |data| && cnt >= 3
    ensures var e := RunExpanded(data, r, w, cnt);
            && e[r - 2] == data[r - 2]
            && e[..|e| - 1] == data[..w][..r - 1] + Repeat(data[r - 2], cnt - 1) + data[..w][r + 1..]
  {
    var resized := Resized(data, w + cnt - 3 + 1);
    var moved := Moved(resized, r + cnt - 3, r, w - r);
    var e := RunExpanded(data, r, w, cnt);
    assert moved[r - 2] == data[r - 2];
    var t := data[..w][..r - 1] + Repeat(data[r - 2], cnt - 1) + data[..w][r + 1..];
    forall i | 0 <= i < |e| - 1 ensures e[i] == t[i] {
      if i >= r + cnt - 2 {
        assert e[i] == moved[i] == resized[r..w][i - (r + cnt - 3)];
      }
    }
  }

  lemma NothingEscaped()
    ensures Escaped([]) == []
  {
  }

  lemma RegroupChunk(before: seq<Byte>, whole: seq<Byte>)
    requires whole != []
    ensures before + Escaped(whole) == (before + ChunkText(whole)) + Escaped(whole[ChunkLength(whole)..])
  {
    hide ChunkText, ChunkLength;
  }

  /** How many of the next characters repeat `ch`; at most 97 can be encoded. */
  method CountRun(left: seq<Byte>, ch: Byte) returns (count: nat)
    ensures count == RunLength(left, ch, MAX_RUN)
  {
    count := 0;
    while count < MAX_RUN && |left| > count && left[count] == ch
      invariant count <= MAX_RUN && count <= |left|
      invariant RunLength(left, ch, MAX_RUN) == count + RunLength(left[count..], ch, MAX_RUN - count)
    {
      assert left[count..][1..] == left[count + 1..];
      count := count + 1;
    }
  }

  /** Stores the digits of `number` least significant first, without a leading zero. */
  method StoreNibbles(number: nat, out: array<Byte>) returns (nibbles: nat)
    requires number < TWO64 && out.Length == 16
    modifies out
    ensures nibbles <= 16 && Reversed(out[..nibbles]) == Digits(number)
  {
    hide Digits, Reversed;
    nibbles := 0;
    NothingReversed(out[..nibbles], Digits(number));
    var val: nat := number;
    var a: nat := 0;
    ghost var done, whole: nat := [], number;
    while a < 8
      invariant a <= 8 && nibbles == 2 * a
      invariant val < Pow256(8 - a) && (a > 0 ==> val > 0)
      invariant Digits(number) == Digits(val) + Reversed(out[..nibbles])
    {
      done, whole := out[..nibbles], val;
      var byte := val % 256;
      out[nibbles] := IntToNibble(byte % 16, 0);
      out[nibbles + 1] := IntToNibble(byte / 16, 0);
      nibbles := nibbles + 2;
      assert out[..nibbles] == done + ByteNibbles(whole);
      val := val / 256;
      if val == 0 {
        break;
      }
      DigitsByByte(whole, done);
      a := a + 1;
    }
    ByteDigits(whole, done);
    if nibbles > 1 && out[nibbles - 1] == 48 {
      nibbles := nibbles - 1;
      assert out[..nibbles] == (done + ByteNibbles(whole))[..nibbles];
    }
  }

  function ByteNibbles(v: nat): (n: seq<Byte>) {
    [HexDigit(v % 256 % 16), HexDigit(v % 256 / 16)]
  }

  lemma NothingReversed(s: seq<Byte>, d: seq<Byte>)
    requires s == []
    ensures d + Reversed(s) == d
  {
  }

  lemma ReversedAppend(s: seq<Byte>, a: Byte)
    ensures Reversed(s + [a]) == [a] + Reversed(s)
  {
    assert (s + [a])[..|s|] == s;
  }

  lemma DigitsByByte(v: nat, done: seq<Byte>)
    requires v >= 256
    ensures Digits(v) + Reversed(done) == Digits(v / 256) + Reversed(done + ByteNibbles(v))
  {
    var low, high := HexDigit(v % 256 % 16), HexDigit(v % 256 / 16);
    assert v / 16 / 16 == v / 256 && v / 16 % 16 == v % 256 / 16 && v % 16 == v % 256 % 16;
    ReversedAppend(done, low);
    ReversedAppend(done + [low], high);
    assert (done + [low]) + [high] == done + ByteNibbles(v);
    assert Digits(v / 256) + ([high] + ([low] + Reversed(done))) == ((Digits(v / 256) + [high]) + [low]) + Reversed(done);
  }

  /** The last byte gives one digit or two. */
  lemma ByteDigits(v: nat, done: seq<Byte>)
    requires v < 256
    ensures var t := done + ByteNibbles(v);
            Digits(v) + Reversed(done) == if t[|t| - 1] == 48 then Reversed(t[..|t| - 1]) else Reversed(t)
  {
    var low, high := HexDigit(v % 16), HexDigit(v / 16);
    var t := done + ByteNibbles(v);
    ReversedAppend(done, low);
    ReversedAppend(done + [low], high);
    assert t == (done + [low]) + [high];
    assert t[..|t| - 1] == done + [low];
    if v >= 16 {
      assert ([high] + [low]) + Reversed(done) == [high] + ([low] + Reversed(done));
    }
  }
}
