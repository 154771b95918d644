/** Portable bit functions: counts and reversals by parallel arithmetic and table lookups, against
    what the bits are one by one. */
module PortabilityBits {

  /** A bit of a word, by its position. */
  predicate Bit(v: bv32, i: bv5) {
    (v >> i) & 1 == 1
  }

  function BitReverse(v: bv32): bv32 {
    var a := ((v & 0x55555555) << 1) | ((v >> 1) & 0x55555555);
    var b := ((a & 0x33333333) << 2) | ((a >> 2) & 0x33333333);
    var c := ((b & 0x0F0F0F0F) << 4) | ((b >> 4) & 0x0F0F0F0F);
    (c << 24) | ((c & 0xFF00) << 8) | ((c >> 8) & 0xFF00) | (c >> 24)
  }

  lemma ReverseMovesBits(v: bv32, i: bv5)
    ensures Bit(BitReverse(v), i) <==> Bit(v, 31 - i)
  {
  }

  lemma ReverseTwice(v: bv32)
    ensures BitReverse(BitReverse(v)) == v
  {
  }

  const TRAILING: seq<int> := [
    0,   1, 28,  2, 29, 14, 24, 3, 30, 22, 20, 15, 25, 17,  4, 8,
    31, 27, 13, 23, 21, 19, 16, 7, 26, 12, 18,  6, 11,  5, 10, 9]

  function CountTrailingZeroes(v: bv32): int {
    if v != 0 then TRAILING[((v & (0 - v)) * 0x077CB531 >> 27) as int] else -1
  }

  /** The lowest bit that is set. */
  ghost predicate Lowest(v: bv32, k: bv5) {
    Bit(v, k) && forall j: bv5 :: j < k ==> !Bit(v, j)
  }

  ghost predicate Highest(v: bv32, k: bv5) {
    Bit(v, k) && forall j: bv5 :: j > k ==> !Bit(v, j)
  }

  /** No bit below the `k`-th is set. */
  predicate ClearBelow(v: bv32, k: bv5) {
    v & ((1 << k) - 1) == 0
  }

  lemma ClearBelowNext(v: bv32, k: bv5)
    requires ClearBelow(v, k) && !Bit(v, k) && v != 0
    ensures k < 31 && ClearBelow(v, k + 1)
  {
  }

  lemma IsolatesAt(v: bv32, k: bv5)
    requires ClearBelow(v, k) && Bit(v, k)
    ensures v & (0 - v) == 1 << k && Lowest(v, k)
  {
  }

  lemma FindsLowest(v: bv32) returns (k: bv5)
    requires v != 0
    ensures v & (0 - v) == 1 << k && Lowest(v, k)
  {
    k := 0;
    while !Bit(v, k)
      invariant ClearBelow(v, k)
      decreases 31 - k
    {
      ClearBelowNext(v, k);
      k := k + 1;
    }
    IsolatesAt(v, k);
  }

  lemma LooksUpTrailing(k: bv5)
    ensures TRAILING[((1 as bv32 << k) * 0x077CB531 >> 27) as int] == k as int
  {
  }

  lemma OneLowest(v: bv32, j: bv5, k: bv5)
    requires Lowest(v, j) && Lowest(v, k)
    ensures j == k
  {
    assert j < k ==> !Bit(v, j);
    assert k < j ==> !Bit(v, k);
  }

  lemma TrailingOf(v: bv32) returns (k: bv5)
    requires v != 0
    ensures Lowest(v, k) && CountTrailingZeroes(v) == k as int
  {
    k := FindsLowest(v);
    LooksUpTrailing(k);
  }

  lemma SamePosition(j: bv5, k: bv5)
    ensures j as int == k as int <==> j == k
  {
  }

  /** The trailing zeros of a word are as many as the position of its lowest set bit. */
  lemma TrailingIsLowest(v: bv32, k: bv5)
    ensures CountTrailingZeroes(v) == k as int <==> Lowest(v, k)
    ensures CountTrailingZeroes(v) == -1 <==> v == 0
  {
    if v != 0 {
      var l := TrailingOf(v);
      hide CountTrailingZeroes, Lowest;
      SamePosition(l, k);
      if Lowest(v, k) {
        OneLowest(v, k, l);
      }
    }
  }

  const LEADING: seq<int> := [
    31, 22, 30, 21, 18, 10, 29,  2, 20, 17, 15, 13, 9,  6, 28, 1,
    23, 19, 11,  3, 16, 14,  7, 24, 12,  4,  8, 25, 5, 26, 27, 0]

  /** Every bit below the highest set as well. */
  function Smeared(v: bv32): bv32 {
    var a := v | (v >> 1);
    var b := a | (a >> 2);
    var c := b | (b >> 4);
    var d := c | (c >> 8);
    d | (d >> 16)
  }

  function CountLeadingZeroes(v: bv32): int {
    if Smeared(v) != 0 then LEADING[(Smeared(v) * 0x07C4ACDD >> 27) as int] else -1
  }

  lemma LooksUpLeading(k: bv5)
    ensures LEADING[((0xFFFF_FFFF as bv32 >> (31 - k)) * 0x07C4ACDD >> 27) as int] == 31 - k as int
  {
  }

  predicate ClearAbove(v: bv32, k: bv5) {
    v >> k >> 1 == 0
  }

  lemma ClearAboveNext(v: bv32, k: bv5)
    requires ClearAbove(v, k) && !Bit(v, k) && v != 0
    ensures k > 0 && ClearAbove(v, k - 1)
  {
  }

  lemma HighestAt(v: bv32, k: bv5)
    requires ClearAbove(v, k) && Bit(v, k)
    ensures Highest(v, k)
  {
  }

  lemma SmearsTop(v: bv32)
    requires Bit(v, 31)
    ensures Smeared(v) == 0xFFFF_FFFF
  {
  }

  lemma SmearedMoves(v: bv32)
    ensures Smeared(v >> 1) == Smeared(v) >> 1
  {
  }

  /** The word one place up. */
  lemma MovedUp(v: bv32, k: bv5)
    requires ClearAbove(v, k) && Bit(v, k) && k < 31
    ensures ClearAbove(v << 1, k + 1) && Bit(v << 1, k + 1) && v << 1 >> 1 == v
  {
  }

  lemma OnesMove(k: bv5)
    requires k < 31
    ensures 0xFFFF_FFFF as bv32 >> (31 - (k + 1)) >> 1 == 0xFFFF_FFFF >> (31 - k)
  {
  }

  lemma {:induction false} SmearsAt(v: bv32, k: bv5)
    requires ClearAbove(v, k) && Bit(v, k)
    ensures Smeared(v) == 0xFFFF_FFFF >> (31 - k)
    decreases 31 - k
  {
    if k == 31 {
      SmearsTop(v);
    } else {
      MovedUp(v, k);
      hide Smeared, Bit, ClearAbove;
      SmearsAt(v << 1, k + 1);
      SmearedMoves(v << 1);
      OnesMove(k);
    }
  }

  lemma FindsHighest(v: bv32) returns (k: bv5)
    requires v != 0
    ensures Smeared(v) == 0xFFFF_FFFF >> (31 - k) && Highest(v, k)
  {
    k := 31;
    while !Bit(v, k)
      invariant ClearAbove(v, k)
      decreases k
    {
      ClearAboveNext(v, k);
      k := k - 1;
    }
    SmearsAt(v, k);
    HighestAt(v, k);
  }

  lemma OneHighest(v: bv32, j: bv5, k: bv5)
    requires Highest(v, j) && Highest(v, k)
    ensures j == k
  {
    assert j > k ==> !Bit(v, j);
    assert k > j ==> !Bit(v, k);
  }

  lemma SmearsZero(v: bv32)
    ensures Smeared(v) == 0 <==> v == 0
  {
  }

  /** The leading zeros are the positions above the highest set bit. */
  lemma LeadingIsHighest(v: bv32, k: bv5)
    ensures CountLeadingZeroes(v) == 31 - k as int <==> Highest(v, k)
    ensures CountLeadingZeroes(v) == -1 <==> v == 0
  {
    SmearsZero(v);
    if v != 0 {
      var h := FindsHighest(v);
      LooksUpLeading(h);
      if Highest(v, k) {
        OneHighest(v, k, h);
      }
    }
  }

  lemma HighestIsLowestReversed(v: bv32, k: bv5)
    requires Highest(v, k)
    ensures Lowest(BitReverse(v), 31 - k)
  {
    ReverseMovesBits(v, 31 - k);
    forall j: bv5 | j < 31 - k ensures !Bit(BitReverse(v), j) {
      ReverseMovesBits(v, j);
      assert 31 - j > k;
    }
  }

  /** Counting from the other end of the reversed word. */
  lemma LeadingIsTrailingReversed(v: bv32)
    ensures CountLeadingZeroes(v) == CountTrailingZeroes(BitReverse(v))
  {
    ReverseTwice(v);
    if v == 0 {
      LeadingIsHighest(v, 0);
      TrailingIsLowest(BitReverse(v), 0);
    } else {
      var k := FindsHighest(v);
      LeadingIsHighest(v, k);
      HighestIsLowestReversed(v, k);
      TrailingIsLowest(BitReverse(v), 31 - k);
    }
  }

  // ----- Counting bits -----

  function One(bit: bool): int {
    if bit then 1 else 0
  }

  predicate BitAt(x: bv64, i: bv6) {
    (x >> i) & 1 == 1
  }

  function Value(v: bv32): int {
    v as int
  }

  /** The number of bits that are set, from the `i`-th on. */
  function OnesFrom(x: bv64, i: bv6): int
    decreases 63 - i
  {
    One(BitAt(x, i)) + if i < 63 then OnesFrom(x, i + 1) else 0
  }

  function Ones(x: bv64): int {
    OnesFrom(x, 0)
  }

  /** The counts of the bits of each byte, side by side. */
  function ByteCounts(v: bv32): bv32 {
    var a := v - ((v >> 1) & 0x55555555);
    var b := (a & 0x33333333) + ((a >> 2) & 0x33333333);
    (b + (b >> 4)) & 0xF0F0F0F
  }

  /** The sum of the bytes, in the highest one of a product. */
  function ByteSum(c: bv32): bv32 {
    Top(Spread(c))
  }

  function Top(c: bv32): bv32 {
    c >> 24
  }

  function Spread(c: bv32): bv32 {
    c * 0x1010101
  }

  function PopCount32(v: bv32): int {
    Value(ByteSum(ByteCounts(v)))
  }

  function PopCount64(v: bv64): int {
    PopCount32(Low(v)) + PopCount32(High(v))
  }

  lemma Lane0(v: bv32)
    ensures (ByteCounts(v) >> 0) & 255
         == ((v >> 0) & 1) + ((v >> 1) & 1) + ((v >> 2) & 1) + ((v >> 3) & 1)
            + ((v >> 4) & 1) + ((v >> 5) & 1) + ((v >> 6) & 1) + ((v >> 7) & 1)
  {
  }

  lemma Lane8(v: bv32)
    ensures (ByteCounts(v) >> 8) & 255
         == ((v >> 8) & 1) + ((v >> 9) & 1) + ((v >> 10) & 1) + ((v >> 11) & 1)
            + ((v >> 12) & 1) + ((v >> 13) & 1) + ((v >> 14) & 1) + ((v >> 15) & 1)
  {
  }

  lemma Lane16(v: bv32)
    ensures (ByteCounts(v) >> 16) & 255
         == ((v >> 16) & 1) + ((v >> 17) & 1) + ((v >> 18) & 1) + ((v >> 19) & 1)
            + ((v >> 20) & 1) + ((v >> 21) & 1) + ((v >> 22) & 1) + ((v >> 23) & 1)
  {
  }

  lemma Lane24(v: bv32)
    ensures (ByteCounts(v) >> 24) & 255
         == ((v >> 24) & 1) + ((v >> 25) & 1) + ((v >> 26) & 1) + ((v >> 27) & 1)
            + ((v >> 28) & 1) + ((v >> 29) & 1) + ((v >> 30) & 1) + ((v >> 31) & 1)
  {
  }

  lemma CountsAreSmall(v: bv32)
    ensures LowNibbles(ByteCounts(v))
  {
  }

  function ByteOf(c: bv32, i: bv5): bv32 {
    (c >> i) & 255
  }

  /** No byte is above 15. */
  predicate LowNibbles(c: bv32) {
    c & 0x0F0F0F0F == c
  }

  /** No byte is above 31. */
  predicate LowFives(c: bv32) {
    c & 0x1F1F1F1F == c
  }

  /** The product by two factors: each byte with its neighbour, and then by halves. */
  function Add8(c: bv32): bv32 {
    c * 0x101
  }

  function Add16(c: bv32): bv32 {
    c * 0x10001
  }

  lemma SpreadsTwice(c: bv32)
    ensures Spread(c) == Add16(c * 0x101)
  {
  }

  lemma SpreadAdds(c: bv32)
    ensures Spread(c) == Add16(Add8(c))
  {
    SpreadsTwice(c);
    hide Spread, Add16;
  }

  lemma NeighboursAdd(c: bv32)
    requires LowNibbles(c)
    ensures LowFives(Add8(c))
    ensures ByteOf(Add8(c), 8) == Plus(ByteOf(c, 0), ByteOf(c, 8)) && ByteOf(Add8(c), 24) == Plus(ByteOf(c, 16), ByteOf(c, 24))
  {
  }

  lemma HalvesAdd(c: bv32)
    requires LowFives(c)
    ensures Top(Add16(c)) == Plus(ByteOf(c, 8), ByteOf(c, 24))
  {
  }

  function Plus(a: bv32, b: bv32): bv32 {
    a + b
  }

  function Sum4(a: bv32, b: bv32, c: bv32, d: bv32): bv32 {
    Plus(Plus(a, b), Plus(c, d))
  }

  lemma BytesAdd(c: bv32)
    requires LowNibbles(c)
    ensures ByteSum(c) == Sum4(ByteOf(c, 0), ByteOf(c, 8), ByteOf(c, 16), ByteOf(c, 24))
  {
    hide Spread, LowNibbles, LowFives, Add8, Add16, ByteOf, Top, Plus;
    SpreadAdds(c);
    NeighboursAdd(c);
    HalvesAdd(Add8(c));
  }

  lemma AddSmall(x: bv32, y: bv32)
    requires x <= 32 && y <= 32
    ensures Value(x + y) == Value(x) + Value(y)
  {
  }

  lemma ValueOfBit(b: bv32)
    requires b <= 1
    ensures Value(b) == One(b == 1)
  {
  }

  lemma NearBy(a: bv32, b: bv32, c: bv32, d: bv32)
    requires a <= 1 && b <= 1 && c <= 1 && d <= 1
    ensures a + b <= 2 && a + b + c <= 3 && a + b + c + d <= 4
    ensures Value(a + b + c + d) == One(a == 1) + One(b == 1) + One(c == 1) + One(d == 1)
  {
    ValueOfBit(a);
    ValueOfBit(b);
    ValueOfBit(c);
    ValueOfBit(d);
    hide Value, One;
    AddSmall(a, b);
    AddSmall(a + b, c);
    AddSmall(a + b + c, d);
  }

  /** A sum of eight bits does not overflow. */
  lemma EightBits(a: bv32, b: bv32, c: bv32, d: bv32, e: bv32, f: bv32, g: bv32, h: bv32)
    requires a <= 1 && b <= 1 && c <= 1 && d <= 1 && e <= 1 && f <= 1 && g <= 1 && h <= 1
    ensures a + b + c + d + e + f + g + h <= 8
    ensures Value(a + b + c + d + e + f + g + h)
         == One(a == 1) + One(b == 1) + One(c == 1) + One(d == 1) + One(e == 1) + One(f == 1) + One(g == 1) + One(h == 1)
  {
    hide Value, One;
    NearBy(a, b, c, d);
    NearBy(e, f, g, h);
    AddSmall(a + b + c + d, e + f + g + h);
    assert a + b + c + d + e + f + g + h == (a + b + c + d) + (e + f + g + h);
  }

  /** How many of the eight bits from the `i`-th on are set. */
  function OnesAt(w: bv32, i: bv5): int {
    One(Bit(w, i)) + One(Bit(w, i + 1)) + One(Bit(w, i + 2)) + One(Bit(w, i + 3))
    + One(Bit(w, i + 4)) + One(Bit(w, i + 5)) + One(Bit(w, i + 6)) + One(Bit(w, i + 7))
  }

  lemma Count0(w: bv32)
    ensures ByteOf(ByteCounts(w), 0) <= 8 && Value(ByteOf(ByteCounts(w), 0)) == OnesAt(w, 0)
  {
    hide ByteCounts, Value;
    Lane0(w);
    EightBits((w >> 0) & 1, (w >> 1) & 1, (w >> 2) & 1, (w >> 3) & 1, (w >> 4) & 1, (w >> 5) & 1, (w >> 6) & 1, (w >> 7) & 1);
  }

  lemma Count8(w: bv32)
    ensures ByteOf(ByteCounts(w), 8) <= 8 && Value(ByteOf(ByteCounts(w), 8)) == OnesAt(w, 8)
  {
    hide ByteCounts, Value;
    Lane8(w);
    EightBits((w >> 8) & 1, (w >> 9) & 1, (w >> 10) & 1, (w >> 11) & 1, (w >> 12) & 1, (w >> 13) & 1, (w >> 14) & 1, (w >> 15) & 1);
  }

  lemma Count16(w: bv32)
    ensures ByteOf(ByteCounts(w), 16) <= 8 && Value(ByteOf(ByteCounts(w), 16)) == OnesAt(w, 16)
  {
    hide ByteCounts, Value;
    Lane16(w);
    EightBits((w >> 16) & 1, (w >> 17) & 1, (w >> 18) & 1, (w >> 19) & 1, (w >> 20) & 1, (w >> 21) & 1, (w >> 22) & 1, (w >> 23) & 1);
  }

  lemma Count24(w: bv32)
    ensures ByteOf(ByteCounts(w), 24) <= 8 && Value(ByteOf(ByteCounts(w), 24)) == OnesAt(w, 24)
  {
    hide ByteCounts, Value;
    Lane24(w);
    EightBits((w >> 24) & 1, (w >> 25) & 1, (w >> 26) & 1, (w >> 27) & 1, (w >> 28) & 1, (w >> 29) & 1, (w >> 30) & 1, (w >> 31) & 1);
  }

  lemma SumIsInt(a: bv32, b: bv32, c: bv32, d: bv32)
    requires a <= 8 && b <= 8 && c <= 8 && d <= 8
    ensures Value(Sum4(a, b, c, d)) == Value(a) + Value(b) + Value(c) + Value(d)
  {
    hide Value;
    AddSmall(a, b);
    AddSmall(c, d);
    AddSmall(a + b, c + d);
  }

  lemma ByteSumIsInt(c: bv32)
    requires LowNibbles(c)
    requires ByteOf(c, 0) <= 8 && ByteOf(c, 8) <= 8 && ByteOf(c, 16) <= 8 && ByteOf(c, 24) <= 8
    ensures Value(ByteSum(c)) == Value(ByteOf(c, 0)) + Value(ByteOf(c, 8)) + Value(ByteOf(c, 16)) + Value(ByteOf(c, 24))
  {
    BytesAdd(c);
    hide ByteSum, ByteOf, Value, Sum4, LowNibbles;
    SumIsInt(ByteOf(c, 0), ByteOf(c, 8), ByteOf(c, 16), ByteOf(c, 24));
  }

  lemma PopCountOfBytes(w: bv32)
    ensures PopCount32(w) == OnesAt(w, 0) + OnesAt(w, 8) + OnesAt(w, 16) + OnesAt(w, 24)
  {
    CountsAreSmall(w);
    hide ByteCounts, OnesAt, ByteOf, ByteSum, Value, LowNibbles;
    Count0(w);
    Count8(w);
    Count16(w);
    Count24(w);
    ByteSumIsInt(ByteCounts(w));
  }

  /** How many of the eight bits from the `i`-th on are set. */
  function OnesAt64(x: bv64, i: bv6): int {
    One(BitAt(x, i)) + One(BitAt(x, i + 1)) + One(BitAt(x, i + 2)) + One(BitAt(x, i + 3))
    + One(BitAt(x, i + 4)) + One(BitAt(x, i + 5)) + One(BitAt(x, i + 6)) + One(BitAt(x, i + 7))
  }

  lemma OnesStep(x: bv64, i: bv6)
    ensures OnesFrom(x, i) == One(BitAt(x, i)) + if i < 63 then OnesFrom(x, i + 1) else 0
  {
  }

  lemma OnesOfByte(x: bv64, i: bv6)
    requires i in {0, 8, 16, 24, 32, 40, 48, 56}
    ensures OnesFrom(x, i) == OnesAt64(x, i) + if i < 56 then OnesFrom(x, i + 8) else 0
  {
    hide OnesFrom, BitAt, One;
    OnesStep(x, i);
    OnesStep(x, i + 1);
    OnesStep(x, i + 2);
    OnesStep(x, i + 3);
    OnesStep(x, i + 4);
    OnesStep(x, i + 5);
    OnesStep(x, i + 6);
    OnesStep(x, i + 7);
  }

  lemma OnesOfBytes(x: bv64)
    ensures Ones(x) == OnesAt64(x, 0) + OnesAt64(x, 8) + OnesAt64(x, 16) + OnesAt64(x, 24)
                     + OnesAt64(x, 32) + OnesAt64(x, 40) + OnesAt64(x, 48) + OnesAt64(x, 56)
  {
    hide OnesFrom, OnesAt64;
    OnesOfByte(x, 0);
    OnesOfByte(x, 8);
    OnesOfByte(x, 16);
    OnesOfByte(x, 24);
    OnesOfByte(x, 32);
    OnesOfByte(x, 40);
    OnesOfByte(x, 48);
    OnesOfByte(x, 56);
  }

  function Low(x: bv64): bv32 {
    (x & 0xFFFF_FFFF) as bv32
  }

  function High(x: bv64): bv32 {
    (x >> 32) as bv32
  }

  lemma BitsOfLow(x: bv64, i: bv5)
    ensures Bit(Low(x), i) <==> BitAt(x, i as bv6)
  {
  }

  lemma BitsOfHigh(x: bv64, i: bv5)
    ensures Bit(High(x), i) <==> BitAt(x, i as bv6 + 32)
  {
  }

  lemma OnesOfLow(x: bv64, i: bv5)
    requires i in {0, 8, 16, 24}
    ensures OnesAt(Low(x), i) == OnesAt64(x, i as bv6)
  {
    hide Bit, BitAt, Low, One;
    BitsOfLow(x, i);
    BitsOfLow(x, i + 1);
    BitsOfLow(x, i + 2);
    BitsOfLow(x, i + 3);
    BitsOfLow(x, i + 4);
    BitsOfLow(x, i + 5);
    BitsOfLow(x, i + 6);
    BitsOfLow(x, i + 7);
  }

  lemma OnesOfHigh(x: bv64, i: bv5)
    requires i in {0, 8, 16, 24}
    ensures OnesAt(High(x), i) == OnesAt64(x, i as bv6 + 32)
  {
    hide Bit, BitAt, High, One;
    BitsOfHigh(x, i);
    BitsOfHigh(x, i + 1);
    BitsOfHigh(x, i + 2);
    BitsOfHigh(x, i + 3);
    BitsOfHigh(x, i + 4);
    BitsOfHigh(x, i + 5);
    BitsOfHigh(x, i + 6);
    BitsOfHigh(x, i + 7);
  }

  /** The population count of 64 bits is the number of bits that are set. */
  lemma PopCountIsOnes(x: bv64)
    ensures PopCount64(x) == Ones(x)
  {
    hide OnesAt, OnesAt64, Ones, PopCount32;
    OnesOfBytes(x);
    OnesOfLow(x, 0);
    OnesOfHigh(x, 0);
    OnesOfLow(x, 8);
    OnesOfHigh(x, 8);
    OnesOfLow(x, 16);
    OnesOfHigh(x, 16);
    OnesOfLow(x, 24);
    OnesOfHigh(x, 24);
    PopCountOfBytes(Low(x));
    PopCountOfBytes(High(x));
  }
}
