/** How a packet is read: one character at a time, expanding run-length encoding in place. */
module PacketText {
  import opened Util

  // ---------------------------------------------------------------------------------------------
  // What the buffer operations compute
  // ---------------------------------------------------------------------------------------------

  /** The part of a packet that readers depend on: its text and the read position. */
  datatype Cursor = Cursor(text: seq<Byte>, pos: nat) {
    predicate Valid() {
      pos <= |text|
    }

    function Rest(): seq<Byte>
      requires Valid()
    {
      text[pos..]
    }

    predicate EndsWith(ch: Byte)
      requires Valid()
    {
      0 < pos && text[pos - 1] == ch
    }

    /** No `*` is left behind the read position: every run met so far has been expanded. */
    predicate Clean() {
      Valid() && STAR !in text[..pos]
    }
  }

  datatype RawChar = RawChar(ok: bool, ch: Byte, cursor: Cursor)

  /** One `GetRawChar`: `ch` is what the caller's variable holds afterwards, `previous` what it held before. */
  function ReadRaw(c: Cursor, previous: Byte): (r: RawChar)
    requires c.Valid()
    ensures r.cursor.Valid()
    ensures r.ok ==> r.cursor.EndsWith(r.ch)
  {
    if c.pos == |c.text| then
      RawChar(false, previous, c)
    else if c.text[c.pos] != STAR then
      RawChar(true, c.text[c.pos], c.(pos := c.pos + 1))
    else if c.pos == 0 || c.pos + 1 == |c.text| || Signed(c.text[c.pos + 1]) - 28 < 3 then
      RawChar(false, STAR, c.(pos := c.pos + 1))
    else
      var count := Signed(c.text[c.pos + 1]) - 28;
      var x := c.text[c.pos - 1];
      RawChar(true, x, Cursor(c.text[..c.pos] + Repeat(x, count - 1) + c.text[c.pos + 2..], c.pos + 1))
  }

  lemma ReadRawGrows(c: Cursor, previous: Byte)
    requires c.Valid()
    ensures |c.text| <= |ReadRaw(c, previous).cursor.text|
  {
  }

  function Stars(s: seq<Byte>): nat {
    if s == [] then 0 else (if s[0] == STAR then 1 else 0) + Stars(s[1..])
  }

  lemma StarsOfConcat(a: seq<Byte>, b: seq<Byte>)
    ensures Stars(a + b) == Stars(a) + Stars(b)
  {
    if a == [] {
      assert a + b == b;
    } else {
      assert a + b == [a[0]] + (a[1..] + b);
      StarsOfConcat(a[1..], b);
    }
  }

  lemma StarsOfPlain(s: seq<Byte>)
    requires STAR !in s
    ensures Stars(s) == 0
  {
  }

  /** Why the read loops end although expansion makes the buffer longer. */
  lemma {:induction false} ReadRawShrinks(c: Cursor, previous: Byte)
    requires c.Valid()
    requires var r := ReadRaw(c, previous); r.ok && r.ch != STAR
    ensures var r := ReadRaw(c, previous);
            || Stars(r.cursor.Rest()) < Stars(c.Rest())
            || (Stars(r.cursor.Rest()) == Stars(c.Rest()) && |r.cursor.Rest()| < |c.Rest()|)
  {
    var r := ReadRaw(c, previous);
    if c.text[c.pos] != STAR {
      assert c.Rest()[1..] == r.cursor.Rest();
    } else {
      var count := Signed(c.text[c.pos + 1]) - 28;
      var run := Repeat(r.ch, count - 2);
      assert r.cursor.Rest() == run + c.text[c.pos + 2..];
      StarsOfConcat(run, c.text[c.pos + 2..]);
      StarsOfPlain(run);
      assert c.Rest()[1..][1..] == c.text[c.pos + 2..];
    }
  }

  // ---------------------------------------------------------------------------------------------
  // Reading refines run-length expansion
  // ---------------------------------------------------------------------------------------------

  /** `complete` is false when the text stops at an ill-formed run. */
  datatype Expansion = Expansion(chars: seq<Byte>, complete: bool)

  /** The text with every run `x*n` written out; `last` is the character in front of `s`, if any. */
  function Expand(last: Option<Byte>, s: seq<Byte>): Expansion
    decreases |s|
  {
    if s == [] then Expansion([], true)
    else if s[0] != STAR then
      var e := Expand(Some(s[0]), s[1..]);
      Expansion([s[0]] + e.chars, e.complete)
    else if last.None? || |s| == 1 || Signed(s[1]) - 28 < 3 then Expansion([], false)
    else
      var e := Expand(last, s[2..]);
      Expansion(Repeat(last.value, Signed(s[1]) - 29) + e.chars, e.complete)
  }

  /** What a run means, in numbers: behind a character, `*` and a character from 31 to 127 stand for 29
      fewer copies of it than that character's number; any other character ends the text there. */
  lemma {:induction false} RunMeans(x: Byte, n: Byte, t: seq<Byte>)
    ensures var e := Expand(Some(x), t);
            Expand(Some(x), [0x2A, n] + t)
            == if 31 <= n < 128 then Expansion(Repeat(x, n - 29) + e.chars, e.complete) else Expansion([], false)
  {
    assert ([0x2A, n] + t)[2..] == t;
  }

  function LastOf(s: seq<Byte>): Option<Byte> {
    if s == [] then None else Some(s[|s| - 1])
  }

  /** What is left to read. */
  function Unread(c: Cursor): Expansion
    requires c.Valid()
  {
    Expand(LastOf(c.text[..c.pos]), c.Rest())
  }

  lemma {:induction false} ExpandPlainPrefix(last: Option<Byte>, p: seq<Byte>, s: seq<Byte>)
    requires STAR !in p
    ensures var after := if p == [] then last else LastOf(p);
            Expand(last, p + s) == Expansion(p + Expand(after, s).chars, Expand(after, s).complete)
    decreases |p|
  {
    if p == [] {
      assert p + s == s;
      assert [] + Expand(last, s).chars == Expand(last, s).chars;
    } else {
      assert p + s == [p[0]] + (p[1..] + s);
      ExpandPlainPrefix(Some(p[0]), p[1..], s);
      var after := LastOf(p);
      assert [p[0]] + (p[1..] + Expand(after, s).chars) == p + Expand(after, s).chars;
    }
  }

  /** `r` is what a successful read at `c` must leave: the head of what was left to read has moved
      behind the read position, and nothing else about what can be read has changed. */
  ghost predicate TookHead(c: Cursor, r: RawChar)
    requires c.Valid() && r.cursor.Valid()
  {
    && r.ok
    && r.cursor.Clean()
    && r.ch != STAR
    && r.cursor.text[..r.cursor.pos] == c.text[..c.pos] + [r.ch]
    && Unread(c).chars == [r.ch] + Unread(r.cursor).chars
    && Unread(c).complete == Unread(r.cursor).complete
  }

  lemma {:induction false} ReadPlain(c: Cursor, previous: Byte)
    requires c.Clean() && c.pos < |c.text| && c.text[c.pos] != STAR
    ensures TookHead(c, ReadRaw(c, previous))
  {
    var r := ReadRaw(c, previous);
    assert r.cursor.text[..r.cursor.pos] == c.text[..c.pos] + [r.ch];
    assert r.cursor.Rest() == c.Rest()[1..];
    assert LastOf(r.cursor.text[..r.cursor.pos]) == Some(r.ch);
  }

  lemma Regrouped(before: seq<Byte>, x: Byte, run: seq<Byte>, tail: seq<Byte>)
    ensures before + ([x] + run) + tail == (before + [x]) + (run + tail)
  {
  }

  /** Where a read leaves the cursor that expands a run. */
  lemma {:induction false} RunRead(c: Cursor, previous: Byte)
    requires c.Clean() && c.pos < |c.text| && c.text[c.pos] == STAR && ReadRaw(c, previous).ok
    ensures 0 < c.pos < |c.text| - 1 && Signed(c.text[c.pos + 1]) - 28 >= 3
    ensures var r, x, before := ReadRaw(c, previous), c.text[c.pos - 1], c.text[..c.pos];
            && r.ch == x && LastOf(before) == Some(x) && r.cursor.text[..r.cursor.pos] == before + [x]
            && r.cursor.Rest() == Repeat(x, Signed(c.text[c.pos + 1]) - 30) + c.text[c.pos + 2..]
  {
    var r, x, before, tail := ReadRaw(c, previous), c.text[c.pos - 1], c.text[..c.pos], c.text[c.pos + 2..];
    var count := Signed(c.text[c.pos + 1]) - 28;
    var run := Repeat(x, count - 2);
    assert Repeat(x, count - 1) == [x] + run;
    hide Repeat;
    Regrouped(before, x, run, tail);
    assert |before + [x]| == c.pos + 1;
  }

  /** A run gives its character once more, and then what a run shorter by one would give. */
  lemma {:induction false} ExpandRun(x: Byte, n: Byte, tail: seq<Byte>)
    requires x != STAR && Signed(n) - 28 >= 3
    ensures var whole, rest := Expand(Some(x), [STAR, n] + tail), Expand(Some(x), Repeat(x, Signed(n) - 30) + tail);
            whole.chars == [x] + rest.chars && whole.complete == rest.complete
  {
    var run := Repeat(x, Signed(n) - 30);
    assert Repeat(x, Signed(n) - 29) == [x] + run;
    assert ([STAR, n] + tail)[2..] == tail;
    hide Repeat;
    ExpandPlainPrefix(Some(x), run, tail);
    assert ([x] + run) + Expand(Some(x), tail).chars == [x] + (run + Expand(Some(x), tail).chars);
  }

  lemma {:induction false} ReadRun(c: Cursor, previous: Byte)
    requires c.Clean() && c.pos < |c.text| && c.text[c.pos] == STAR && ReadRaw(c, previous).ok
    ensures TookHead(c, ReadRaw(c, previous))
  {
    hide ReadRaw, Repeat, Expand, Signed;
    RunRead(c, previous);
    var x := c.text[c.pos - 1];
    assert x in c.text[..c.pos];
    assert c.Rest() == [STAR, c.text[c.pos + 1]] + c.text[c.pos + 2..];
    ExpandRun(x, c.text[c.pos + 1], c.text[c.pos + 2..]);
  }

  /** One successful read takes the head of the expansion; a failing one means there is none left. */
  lemma {:induction false} ReadRawTakesHead(c: Cursor, previous: Byte)
    requires c.Clean()
    ensures var r := ReadRaw(c, previous);
            && (r.ok <==> Unread(c).chars != [])
            && (r.ok ==> TookHead(c, r))
            && (!r.ok ==> r.cursor.text == c.text && (Unread(c).complete <==> r.cursor == c))
  {
    if c.pos < |c.text| {
      if c.text[c.pos] != STAR {
        ReadPlain(c, previous);
      } else if ReadRaw(c, previous).ok {
        ReadRun(c, previous);
      } else {
        assert c.pos > 0 ==> LastOf(c.text[..c.pos]).Some?;
      }
    }
  }

  datatype Drained = Drained(chars: seq<Byte>, cursor: Cursor)

  /** Calling `GetRawChar` until it fails. */
  function Drain(c: Cursor): Drained
    requires c.Clean()
    decreases Stars(c.Rest()), |c.Rest()|
  {
    var r := ReadRaw(c, 0);
    if r.ok then
      ReadRawTakesHead(c, 0);
      ReadRawShrinks(c, 0);
      var d := Drain(r.cursor);
      Drained([r.ch] + d.chars, d.cursor)
    else
      Drained([], r.cursor)
  }

  /** Reading a packet to its end yields its run-length expansion, the in-place shifting included,
      and stops before the end of the text exactly when a run is ill-formed. */
  lemma {:induction false} DrainIsExpansion(c: Cursor)
    requires c.Clean()
    ensures Drain(c).chars == Unread(c).chars
    ensures Unread(c).complete <==> Drain(c).cursor.pos == |Drain(c).cursor.text| && Drain(c).cursor.Clean()
    decreases Stars(c.Rest()), |c.Rest()|
  {
    var r := ReadRaw(c, 0);
    ReadRawTakesHead(c, 0);
    if r.ok {
      ReadRawShrinks(c, 0);
      DrainIsExpansion(r.cursor);
    } else if r.cursor != c {
      assert c.text[c.pos] == STAR && r.cursor.text[..r.cursor.pos][c.pos] == STAR;
    }
  }

  lemma {:induction false} RewoundText(c: Cursor)
    requires c.Clean()
    ensures Unread(c.(pos := 0)) == Expansion(c.text[..c.pos] + Unread(c).chars, Unread(c).complete)
  {
    assert c.text == c.text[..c.pos] + c.Rest();
    assert c.(pos := 0).Rest() == c.text;
    assert c.text[..0] == [];
    ExpandPlainPrefix(None, c.text[..c.pos], c.Rest());
  }

  /** Rewinding after reading to the end makes the same characters readable again. */
  lemma {:induction false} RewindRereads(c: Cursor)
    requires c.Clean()
    ensures Unread(Drain(c).cursor.(pos := 0)) == Expansion(c.text[..c.pos] + Unread(c).chars, Unread(c).complete)
    decreases Stars(c.Rest()), |c.Rest()|
  {
    hide Expand, Stars, ReadRaw;
    var r := ReadRaw(c, 0);
    ReadRawTakesHead(c, 0);
    if r.ok {
      ReadRawShrinks(c, 0);
      RewindRereads(r.cursor);
      assert c.text[..c.pos] + ([r.ch] + Unread(r.cursor).chars)
          == (c.text[..c.pos] + [r.ch]) + Unread(r.cursor).chars;
    } else {
      RewoundText(c);
      assert r.cursor.(pos := 0) == c.(pos := 0);
    }
  }
}
