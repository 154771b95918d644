/** Binary data in a packet: special characters escaped, then runs shortened. */
module EscapedData {
  import opened Util
  import opened Bits
  import opened PacketText

  predicate IsSpecial(ch: Byte) {
    ch == RBRACE || ch == HASH || ch == DOLLAR || ch == STAR
  }

  /** The operator `^` on characters. */
  function XorByte(x: Byte, y: Byte): Byte {
    XorOfBytes(x, y);
    Xor(x, y)
  }

  lemma XorOfBytes(x: Byte, y: Byte)
    ensures Xor(x, y) < 256
  {
    assert Pow2(8) == 256;
    hide Xor;
    XorIsBelow(x, y, 8);
  }

  lemma {:induction false} XorTwice(x: nat, y: nat)
    ensures Xor(Xor(x, y), y) == x
    decreases x + y
  {
    if x > 0 || y > 0 {
      HalvedAndLowest(x, y);
      HalvedAndLowest(Xor(x, y), y);
      hide Xor;
      XorTwice(x / 2, y / 2);
    }
  }

  lemma SpecialsXored()
    ensures XorByte(0x7D, 0x20) == 0x5D && XorByte(0x23, 0x20) == 0x03
    ensures XorByte(0x24, 0x20) == 0x04 && XorByte(0x2A, 0x20) == 0x0A
  {
    assert Xor(3, 1) == 2 && Xor(7, 2) == 5 && Xor(15, 4) == 11 && Xor(31, 8) == 23 && Xor(62, 16) == 46;
    assert Xor(1, 1) == 0 && Xor(2, 2) == 0 && Xor(4, 4) == 0 && Xor(8, 8) == 0 && Xor(17, 16) == 1;
    assert Xor(9, 8) == 1 && Xor(18, 16) == 2;
    assert Xor(5, 4) == 1 && Xor(10, 8) == 2 && Xor(21, 16) == 5;
  }

  function EscapeChar(ch: Byte): (e: seq<Byte>)
    ensures e != [] && HASH !in e && DOLLAR !in e && STAR !in e && e[|e| - 1] != RBRACE
    ensures IsSpecial(ch) ==> |e| == 2 && e[0] == RBRACE && e[1] != ch && XorByte(e[1], 0x20) == ch
    ensures !IsSpecial(ch) ==> e == [ch]
  {
    SpecialEscape(ch);
    if IsSpecial(ch) then [RBRACE, XorByte(ch, 0x20)] else [ch]
  }

  lemma SpecialEscape(ch: Byte)
    ensures IsSpecial(ch) ==> XorByte(ch, 0x20) !in [HASH, DOLLAR, STAR, RBRACE, ch]
    ensures XorByte(XorByte(ch, 0x20), 0x20) == ch
  {
    hide XorByte, Xor;
    SpecialsXored();
    XorByteTwice(ch, 0x20);
    assert IsSpecial(ch) ==> XorByte(ch, 0x20) == 0x5D || XorByte(ch, 0x20) < 16;
  }

  lemma XorByteTwice(x: Byte, y: Byte)
    ensures XorByte(XorByte(x, y), y) == x
  {
    hide Xor;
    XorTwice(x, y);
  }

  /** The escapes, in numbers; all other characters go as they are. */
  lemma SpecialsAreEscaped(ch: Byte)
    ensures EscapeChar(ch) == if ch == 0x7D then [0x7D, 0x5D] else if ch == 0x23 then [0x7D, 0x03]
                              else if ch == 0x24 then [0x7D, 0x04] else if ch == 0x2A then [0x7D, 0x0A] else [ch]
  {
    SpecialsXored();
    hide XorByte;
  }

  /** How many of the next characters are `ch`, counting at most `limit` of them. */
  function RunLength(s: seq<Byte>, ch: Byte, limit: nat): (n: nat)
    ensures n <= |s| && n <= limit
    ensures forall i :: 0 <= i < n ==> s[i] == ch
    ensures n < |s| && n < limit ==> s[n] != ch
  {
    if limit == 0 || s == [] || s[0] != ch then 0 else 1 + RunLength(s[1..], ch, limit - 1)
  }

  const MAX_RUN := 97

  /** Lengths 6 and 7 would be written as `#` and `$`. */
  function Clip(count: nat): nat {
    if count == 6 || count == 7 then 5 else count
  }

  /** How many characters the next step of the encoder takes. */
  function ChunkLength(s: seq<Byte>): (n: nat)
    requires s != []
    ensures 0 < n <= |s|
  {
    var count := RunLength(s[1..], s[0], MAX_RUN);
    if count >= 3 then 1 + Clip(count) else 1
  }

  /** What the next step of the encoder emits. */
  function ChunkText(s: seq<Byte>): seq<Byte>
    requires s != []
  {
    var count := RunLength(s[1..], s[0], MAX_RUN);
    if count >= 3 then EscapeChar(s[0]) + [STAR, Clip(count) + 29] else EscapeChar(s[0])
  }

  function Escaped(s: seq<Byte>): seq<Byte>
    decreases |s|
  {
    if s == [] then [] else ChunkText(s) + Escaped(s[ChunkLength(s)..])
  }

  /** Undoes the escape, as the other end does: `}x` stands for the exclusive or of `x` and 0x20. */
  function Unescape(s: seq<Byte>): seq<Byte>
    decreases |s|
  {
    if s == [] then []
    else if s[0] == '}' as int && |s| > 1 then [XorByte(s[1], 0x20)] + Unescape(s[2..])
    else [s[0]] + Unescape(s[1..])
  }

  /** Four equal characters in a row, of a kind that has to be escaped. */
  ghost predicate HasSpecialRun(s: seq<Byte>) {
    exists i :: 0 <= i && i + 3 < |s| && SpecialRunAt(s, i)
  }

  ghost predicate SpecialRunAt(s: seq<Byte>, i: nat)
    requires i + 3 < |s|
  {
    IsSpecial(s[i]) && s[i] == s[i + 1] == s[i + 2] == s[i + 3]
  }

  /** `AddEscapedData` never emits a framing character. */
  lemma {:induction false} EscapedIsFramingFree(s: seq<Byte>)
    ensures HASH !in Escaped(s) && DOLLAR !in Escaped(s)
    decreases |s|
  {
    if s != [] {
      hide EscapeChar;
      assert HASH !in ChunkText(s) && DOLLAR !in ChunkText(s);
      EscapedIsFramingFree(s[ChunkLength(s)..]);
    }
  }

  /** The characters a reader sees: each run written out as copies of the character before it. */
  function Wire(s: seq<Byte>): seq<Byte>
    decreases |s|
  {
    if s == [] then []
    else
      var count := RunLength(s[1..], s[0], MAX_RUN);
      var e := EscapeChar(s[0]);
      if count >= 3 then (e + Repeat(e[|e| - 1], Clip(count))) + Wire(s[1 + Clip(count)..])
      else e + Wire(s[1..])
  }

  lemma {:induction false} ExpandRun(x: Byte, count: nat, t: seq<Byte>)
    requires 3 <= count <= MAX_RUN
    ensures var e := Expand(Some(x), t);
            Expand(Some(x), [STAR, count + 29] + t) == Expansion(Repeat(x, count) + e.chars, e.complete)
  {
    var run := [STAR, count + 29] + t;
    assert run[2..] == t;
  }

  lemma {:induction false} ExpandRepeated(last: Option<Byte>, e: seq<Byte>, count: nat, t: seq<Byte>)
    requires e != [] && STAR !in e && 3 <= count <= MAX_RUN
    ensures var x := e[|e| - 1];
            var after := Expand(Some(x), t);
            Expand(last, e + [STAR, count + 29] + t)
            == Expansion((e + Repeat(x, count)) + after.chars, after.complete)
  {
    var x := e[|e| - 1];
    var run := [STAR, count + 29] + t;
    assert e + [STAR, count + 29] + t == e + run;
    ExpandPlainPrefix(last, e, run);
    ExpandRun(x, count, t);
    var after := Expand(Some(x), t);
    assert e + (Repeat(x, count) + after.chars) == (e + Repeat(x, count)) + after.chars;
  }

  /** What the encoder makes of `n` more copies of a character, in numbers: fewer than 3 are left to
      themselves, 3 to 97 are a `*` and the character n + 29, except that of 6 and 7 only 5 are taken. */
  lemma {:induction false} RunIsWritten(x: Byte, n: nat, t: seq<Byte>)
    requires t != [] ==> t[0] != x
    ensures Escaped([x] + Repeat(x, n) + t)
         == if n < 3 then EscapeChar(x) + Escaped(Repeat(x, n) + t)
            else if n == 6 || n == 7 then EscapeChar(x) + [0x2A, 34] + Escaped(Repeat(x, n - 5) + t)
            else if n <= 97 then EscapeChar(x) + [0x2A, n + 29] + Escaped(t)
            else EscapeChar(x) + [0x2A, 126] + Escaped(Repeat(x, n - 97) + t)
  {
    var s := [x] + Repeat(x, n) + t;
    assert s[1..] == Repeat(x, n) + t && s[0] == x;
    RunLengthIs(x, n, t, MAX_RUN);
    var taken := if n < 3 then 0 else if n == 6 || n == 7 then 5 else if n <= 97 then n else 97;
    hide Escaped, RunLength, EscapeChar, Repeat;
    assert ChunkLength(s) == 1 + taken;
    assert ChunkText(s) == if n < 3 then EscapeChar(x) else EscapeChar(x) + [STAR, taken + 29];
    hide ChunkLength, ChunkText;
    NextChunk(s);
    RestOfRun(x, n, t, taken);
  }

  lemma NextChunk(s: seq<Byte>)
    requires s != []
    ensures Escaped(s) == ChunkText(s) + Escaped(s[ChunkLength(s)..])
  {
  }

  lemma ClipIs(count: nat)
    ensures Clip(count) == if count == 6 || count == 7 then 5 else count
  {
  }

  lemma RestOfRun(x: Byte, n: nat, t: seq<Byte>, k: nat)
    requires k <= n
    ensures ([x] + Repeat(x, n) + t)[1 + k..] == Repeat(x, n - k) + t
    ensures Repeat(x, 0) + t == t
  {
  }

  lemma {:induction false} RunLengthIs(x: Byte, n: nat, t: seq<Byte>, limit: nat)
    requires t != [] ==> t[0] != x
    ensures RunLength(Repeat(x, n) + t, x, limit) == if n < limit then n else limit
  {
    var s := Repeat(x, n) + t;
    assert forall i :: 0 <= i < n ==> s[i] == x;
    assert |s| > n ==> s[n] == t[0];
    hide RunLength;
  }

  lemma {:induction false} ExpandEscaped(last: Option<Byte>, s: seq<Byte>)
    ensures Expand(last, Escaped(s)) == Expansion(Wire(s), true)
    decreases |s|
  {
    hide Escaped, Wire, Expand, EscapeChar, ChunkLength, ChunkText, ChunkRun, LastOf, Repeat;
    ExpandNothing(last);
    if s != [] {
      NextChunk(s);
      NextOnWire(s);
      var e, rest := EscapeChar(s[0]), s[ChunkLength(s)..];
      ExpandEscaped(LastOf(e), rest);
      ExpandChunk(last, e, ChunkRun(s), Escaped(rest));
    }
  }

  lemma ExpandNothing(last: Option<Byte>)
    ensures Expand(last, Escaped([])) == Expansion(Wire([]), true)
  {
  }

  lemma {:induction false} ExpandChunk(last: Option<Byte>, e: seq<Byte>, run: nat, t: seq<Byte>)
    requires e != [] && STAR !in e && (run == 0 || 3 <= run <= MAX_RUN)
    ensures var after := Expand(LastOf(e), t);
            Expand(last, (if run == 0 then e else e + [STAR, run + 29]) + t)
            == Expansion((if run == 0 then e else e + Repeat(e[|e| - 1], run)) + after.chars, after.complete)
  {
    hide Expand, Repeat;
    if run == 0 {
      ExpandPlainPrefix(last, e, t);
    } else {
      ExpandRepeated(last, e, run, t);
    }
  }

  /** The copies that the next step of the encoder writes as a run. */
  function ChunkRun(s: seq<Byte>): (n: nat)
    requires s != []
    ensures n == 0 || 3 <= n <= MAX_RUN
  {
    var count := RunLength(s[1..], s[0], MAX_RUN);
    if count >= 3 then Clip(count) else 0
  }

  lemma NextOnWire(s: seq<Byte>)
    requires s != []
    ensures var e, k, n := EscapeChar(s[0]), ChunkLength(s), ChunkRun(s);
            && ChunkText(s) == (if n == 0 then e else e + [STAR, n + 29])
            && Wire(s) == (if n == 0 then e else e + Repeat(e[|e| - 1], n)) + Wire(s[k..])
  {
    hide EscapeChar, RunLength;
  }

  lemma {:induction false} UnescapePlainRun(ch: Byte, n: nat, t: seq<Byte>)
    requires ch != RBRACE
    ensures Unescape(Repeat(ch, n) + t) == Repeat(ch, n) + Unescape(t)
    decreases n
  {
    if n == 0 {
      assert Repeat(ch, n) + t == t;
    } else {
      assert Repeat(ch, n) == [ch] + Repeat(ch, n - 1);
      assert Repeat(ch, n) + t == [ch] + (Repeat(ch, n - 1) + t);
      UnescapePlainRun(ch, n - 1, t);
    }
  }

  lemma {:induction false} UnescapeChar(ch: Byte, t: seq<Byte>)
    ensures Unescape(EscapeChar(ch) + t) == [ch] + Unescape(t)
  {
    hide XorByte, EscapeChar;
    assert (EscapeChar(ch) + t)[|EscapeChar(ch)|..] == t;
  }

  /** What comes back for the first character and its run. */
  lemma {:induction false} UnescapeChunk(s: seq<Byte>)
    requires s != []
    ensures var count := RunLength(s[1..], s[0], MAX_RUN);
            var e := EscapeChar(s[0]);
            Unescape(Wire(s)) ==
            if count >= 3 then [s[0]] + (Repeat(e[|e| - 1], Clip(count)) + Unescape(Wire(s[1 + Clip(count)..])))
            else [s[0]] + Unescape(Wire(s[1..]))
  {
    hide EscapeChar;
    var count := RunLength(s[1..], s[0], MAX_RUN);
    var e := EscapeChar(s[0]);
    if count >= 3 {
      var copies, rest := Repeat(e[|e| - 1], Clip(count)), Wire(s[1 + Clip(count)..]);
      assert Wire(s) == e + (copies + rest);
      UnescapeChar(s[0], copies + rest);
      UnescapePlainRun(e[|e| - 1], Clip(count), rest);
    } else {
      UnescapeChar(s[0], Wire(s[1..]));
    }
  }

  lemma {:induction false} RunsOfTail(s: seq<Byte>, k: nat)
    requires k <= |s|
    requires forall i :: 0 <= i < k && i + 3 < |s| ==> !SpecialRunAt(s, i)
    ensures HasSpecialRun(s[k..]) <==> HasSpecialRun(s)
  {
    var t := s[k..];
    if HasSpecialRun(t) {
      var i :| 0 <= i && i + 3 < |t| && SpecialRunAt(t, i);
      assert SpecialRunAt(s, i + k);
    }
    if HasSpecialRun(s) {
      var i :| 0 <= i && i + 3 < |s| && SpecialRunAt(s, i);
      assert t[i - k] == s[i] && t[i - k + 1] == s[i + 1] && t[i - k + 2] == s[i + 2] && t[i - k + 3] == s[i + 3];
      assert SpecialRunAt(t, i - k);
    }
  }

  lemma {:induction false} RunLengthOfSpecialRun(s: seq<Byte>)
    requires |s| > 3
    ensures SpecialRunAt(s, 0) <==> IsSpecial(s[0]) && RunLength(s[1..], s[0], MAX_RUN) >= 3
  {
    var n := RunLength(s[1..], s[0], MAX_RUN);
    assert s[1..][0] == s[1] && s[1..][1] == s[2] && s[1..][2] == s[3];
  }

  /** A run of a special character is what does not survive. */
  lemma {:induction false} SpecialChunkBreaks(s: seq<Byte>)
    requires s != [] && IsSpecial(s[0]) && RunLength(s[1..], s[0], MAX_RUN) >= 3
    ensures Unescape(Wire(s)) != s && HasSpecialRun(s)
  {
    UnescapeChunk(s);
    RunLengthOfSpecialRun(s);
    assert SpecialRunAt(s, 0);
    hide XorByte, EscapeChar;
    var u := Unescape(Wire(s));
    assert u[1] == EscapeChar(s[0])[1];
  }

  lemma {:induction false} PlainChunkSurvives(s: seq<Byte>, k: nat)
    requires s != [] && !IsSpecial(s[0]) && RunLength(s[1..], s[0], MAX_RUN) >= 3
    requires k == 1 + Clip(RunLength(s[1..], s[0], MAX_RUN))
    ensures Unescape(Wire(s)) == s <==> Unescape(Wire(s[k..])) == s[k..]
    ensures HasSpecialRun(s) <==> HasSpecialRun(s[k..])
  {
    hide EscapeChar;
    assert forall i :: 1 <= i < k ==> s[i] == s[1..][i - 1];
    RunsOfTail(s, k);
    UnescapeChunk(s);
    SameChunk(s, Repeat(s[0], k - 1), Unescape(Wire(s[k..])));
  }

  lemma SameChunk(s: seq<Byte>, copies: seq<Byte>, u: seq<Byte>)
    requires 1 + |copies| <= |s|
    requires forall i :: 0 <= i < |copies| ==> copies[i] == s[1 + i]
    ensures [s[0]] + (copies + u) == s <==> u == s[1 + |copies|..]
  {
    var head := [s[0]] + copies;
    assert [s[0]] + (copies + u) == head + u;
    assert head == s[..|head|];
    assert s == head + s[|head|..];
    SamePrefix(head, u, s[|head|..]);
  }

  lemma SamePrefix(p: seq<Byte>, a: seq<Byte>, b: seq<Byte>)
    ensures p + a == p + b <==> a == b
  {
    assert a == (p + a)[|p|..];
    assert b == (p + b)[|p|..];
  }

  lemma ShortRunIsNone(s: seq<Byte>)
    requires s != [] && RunLength(s[1..], s[0], MAX_RUN) < 3
    ensures HasSpecialRun(s) <==> HasSpecialRun(s[1..])
  {
    hide RunLength, HasSpecialRun;
    if |s| > 3 {
      RunLengthOfSpecialRun(s);
    }
    RunsOfTail(s, 1);
  }

  lemma {:induction false} RoundTripOfWire(s: seq<Byte>)
    ensures Unescape(Wire(s)) == s <==> !HasSpecialRun(s)
    decreases |s|
  {
    if s != [] {
      hide EscapeChar, XorByte, Wire, Unescape, RunLength, HasSpecialRun, Clip;
      var count := RunLength(s[1..], s[0], MAX_RUN);
      ClipIs(count);
      if count < 3 {
        UnescapeChunk(s);
        RoundTripOfWire(s[1..]);
        SamePrefix([s[0]], Unescape(Wire(s[1..])), s[1..]);
        assert s == [s[0]] + s[1..];
        ShortRunIsNone(s);
      } else if IsSpecial(s[0]) {
        SpecialChunkBreaks(s);
      } else {
        PlainChunkSurvives(s, 1 + Clip(count));
        RoundTripOfWire(s[1 + Clip(count)..]);
      }
    }
  }

  /** Data written after any run-free text is read back complete, and is the data again after
      undoing the escape exactly when it has no run of four equal special characters. */
  lemma {:induction false} EscapedDataRoundTrip(before: seq<Byte>, s: seq<Byte>)
    requires STAR !in before
    ensures var d := Drain(Cursor(before + Escaped(s), |before|));
            && d.cursor.pos == |d.cursor.text|
            && (Unescape(d.chars) == s <==> !HasSpecialRun(s))
  {
    var c := Cursor(before + Escaped(s), |before|);
    assert c.text[..c.pos] == before && c.Rest() == Escaped(s);
    ExpandEscaped(LastOf(before), s);
    DrainIsExpansion(c);
    RoundTripOfWire(s);
  }
}
