/** Uniform random numbers from a generator of bytes: words of four bytes, low bits for a power of two
    and rejection of the lowest words for any other range. */
module SecureRandom {
  import opened Util
  import opened Bits

  // ----- Powers of two -----

  ghost predicate IsPow2(r: nat) {
    exists k :: Pow2(k) == r
  }

  lemma {:induction false} IsPow2Doubles(m: nat)
    ensures IsPow2(2 * m) <==> IsPow2(m)
  {
    if IsPow2(2 * m) {
      var k: nat :| Pow2(k) == 2 * m;
      assert k > 0 && Pow2(k - 1) == m;
    }
    if IsPow2(m) {
      var k: nat :| Pow2(k) == m;
      assert Pow2(k + 1) == 2 * m;
    }
  }

  /** The test for a power of two. */
  lemma {:induction false} AndPredecessor(r: nat)
    requires r > 0
    ensures And(r, r - 1) == 0 <==> IsPow2(r)
  {
    if r == 1 {
      assert Pow2(0) == 1;
    } else if r % 2 == 0 {
      AndPredecessor(r / 2);
      IsPow2Doubles(r / 2);
      assert (r - 1) / 2 == r / 2 - 1;
    } else {
      AndSelf(r / 2);
      assert (r - 1) / 2 == r / 2;
    }
  }

  // ----- Words from bytes -----

  /** Four bytes, the first the highest. */
  function WordOf(b: seq<Byte>): Word32
    requires |b| == 4
  {
    ((b[0] as int * 256 + b[1]) * 256 + b[2]) * 256 + b[3]
  }

  function BytesOf(w: Word32): (b: seq<Byte>)
    ensures |b| == 4
  {
    [w / 256 / 256 / 256, w / 256 / 256 % 256, w / 256 % 256, w % 256]
  }

  /** Every word comes from exactly one choice of four bytes. */
  lemma {:induction false} WordFromBytes(b: seq<Byte>, w: Word32)
    requires |b| == 4
    ensures WordOf(b) == w <==> b == BytesOf(w)
  {
    var h3, h2 := w / 256, w / 256 / 256;
    assert w == h3 * 256 + w % 256 && h3 == h2 * 256 + h3 % 256 && h2 == h2 / 256 * 256 + h2 % 256;
    if WordOf(b) == w {
      assert b[3] == w % 256 && (b[0] as int * 256 + b[1]) * 256 + b[2] == h3;
      assert b[2] == h3 % 256 && b[0] as int * 256 + b[1] == h2;
    }
  }

  /** The words that a string of bytes yields. */
  function Words(tape: seq<Byte>): seq<Word32> {
    if |tape| < 4 then [] else [WordOf(tape[..4])] + Words(tape[4..])
  }

  // ----- Sampling -----

  function Mask(range: Word32): Word32 {
    (range + WORDS - 1) % WORDS
  }

  /** The test for a power of two, or zero. */
  predicate MasksBits(range: Word32) {
    And(range, Mask(range)) == 0
  }

  function Bias(range: Word32): nat
    requires range > 0
  {
    (WORDS - 1) % range + 1
  }

  predicate Accepts(range: Word32, w: Word32) {
    MasksBits(range) || (range > 0 && Bias(range) <= w)
  }

  function Reduced(range: Word32, w: Word32): nat {
    if MasksBits(range) || range == 0 then And(w, Mask(range)) else w % range
  }

  /** The number that the first accepted word gives, and how many words that takes. */
  function Sample(range: Word32, words: seq<Word32>): Option<(nat, nat)> {
    if words == [] then None
    else if Accepts(range, words[0]) then Some((Reduced(range, words[0]), 1))
    else
      Later(Sample(range, words[1..]), 1)
  }

  /** A sample after `n` words that have been turned down. */
  function Later(sample: Option<(nat, nat)>, n: nat): Option<(nat, nat)> {
    if sample.Some? then Some((sample.value.0, sample.value.1 + n)) else None
  }

  lemma WordsNext(tape: seq<Byte>)
    requires |tape| >= 4
    ensures Words(tape) == [WordOf(tape[..4])] + Words(tape[4..])
  {
  }

  lemma {:induction false} ZeroMasks()
    ensures MasksBits(0) && Mask(0) == WORDS - 1
  {
  }

  lemma ByteBelow(high: nat, b: Byte)
    ensures high * 256 == 256 * high && Or(256 * high, b) == 256 * high + b
  {
    hide Or, Pow2;
    Powers();
    OrShifted(high, b, 8);
  }

  /** A generator; `tape` are the bytes it is going to give. */
  class SecureRng {
    var tape: seq<Byte>

    constructor (tape: seq<Byte>)
      ensures this.tape == tape
    {
      this.tape := tape;
    }

    method GenByte() returns (b: Byte)
      requires tape != []
      modifies this
      ensures b == old(tape)[0] && tape == old(tape)[1..]
    {
      b := tape[0];
      tape := tape[1..];
    }

    method GenUint32() returns (rv: Word32)
      requires |tape| >= 4
      modifies this
      ensures rv == WordOf(old(tape)[..4]) && tape == old(tape)[4..]
    {
      rv := GenByte();
      rv := ShiftIn(rv);
      rv := ShiftIn(rv);
      rv := ShiftIn(rv);
    }

    /** A shift of the word by a byte, without loss, and the next byte put below it. */
    method ShiftIn(high: Word32) returns (rv: Word32)
      requires tape != [] && high < 0x100_0000
      modifies this
      ensures rv == high * 256 + old(tape)[0] && tape == old(tape)[1..]
    {
      rv := high * 256 % WORDS;
      var b := GenByte();
      ByteBelow(high, b);
      rv := Or(rv, b);
    }

    method GenBytes(n: nat) returns (buf: seq<Byte>)
      requires |tape| >= n
      modifies this
      ensures buf == old(tape)[..n] && tape == old(tape)[n..]
    {
      buf := [];
      var i := 0;
      while i < n
        invariant 0 <= i <= n && buf == old(tape)[..i] && tape == old(tape)[i..]
      {
        var b := GenByte();
        buf := buf + [b];
        i := i + 1;
      }
    }

    /** Draws words until one is acceptable, and gives what the first of these gives. None: the tape
        ends first. */
    method Uniform(rangeMax: Word32) returns (v: Option<Word32>)
      modifies this
      ensures match Sample(rangeMax, Words(old(tape)))
              case Some((number, draws)) =>
                v == Some(number) && 4 * draws <= |old(tape)| && tape == old(tape)[4 * draws..]
              case None =>
                v == None && |tape| < 4 && exists draws: nat :: 4 * draws <= |old(tape)| && tape == old(tape)[4 * draws..]
    {
      hide Mask, WordOf, And;
      if And(rangeMax, Mask(rangeMax)) == 0 {
        if |tape| < 4 {
          assert tape == old(tape)[4 * 0..];
          return None;
        }
        var low := GenUint32();
        AndIsSmaller(low, Mask(rangeMax));
        return Some(And(low, Mask(rangeMax)));
      }
      ZeroMasks();
      var bias := (WORDS - 1) % rangeMax + 1;
      ghost var draws, target := 0, Sample(rangeMax, Words(tape));
      var word := 0;
      while word < bias
        invariant 4 * draws <= |old(tape)| && tape == old(tape)[4 * draws..]
        invariant word >= bias ==> target == Some((word % rangeMax, draws))
        invariant word < bias ==> target == Later(Sample(rangeMax, Words(tape)), draws)
        decreases if word < bias then |tape| + 1 else 0
      {
        if |tape| < 4 {
          return None;
        }
        WordsNext(tape);
        word := GenUint32();
        draws := draws + 1;
      }
      v := Some(word % rangeMax);
    }
  }

  // ----- How many words give each number -----

  predicate HasRemainder(w: int, range: int, k: int)
    requires range > 0
  {
    w % range == k
  }

  function WithRemainder(lo: int, hi: int, range: nat, k: nat): set<int>
    requires range > 0
  {
    set w | lo <= w < hi && HasRemainder(w, range, k)
  }

  /** `range` consecutive numbers have each remainder once. */
  lemma {:induction false} OnePerPeriod(lo: nat, range: nat, k: nat) returns (w: nat)
    requires k < range
    ensures lo <= w < lo + range && w % range == k
    ensures forall x :: lo <= x < lo + range && HasRemainder(x, range, k) ==> x == w
  {
    w := NextWithRemainder(lo, range, k);
    forall x | lo <= x < lo + range && HasRemainder(x, range, k) ensures x == w {
      SameRemainder(x, w, range);
    }
  }

  lemma NextWithRemainder(lo: nat, range: nat, k: nat) returns (w: nat)
    requires k < range
    ensures lo <= w < lo + range && w % range == k
  {
    var q, r := lo / range, lo % range;
    Quotient(lo, range);
    if r <= k {
      w := lo - r + k;
      RemainderIs(w, range, q, k);
    } else {
      w := lo - r + range + k;
      assert (q + 1) * range == q * range + range;
      RemainderIs(w, range, q + 1, k);
    }
  }

  lemma SameRemainder(x: nat, w: nat, range: nat)
    requires range > 0 && x % range == w % range && -(range as int) < x - w < range
    ensures x == w
  {
    Quotient(x, range);
    Quotient(w, range);
    Minus(x / range, w / range, range);
    if x / range != w / range {
      MultipleIsFar(x / range - w / range, range);
    }
  }

  /** One more period has every remainder once more. */
  lemma {:induction false} PeriodCounts(lo: nat, mid: nat, range: nat, k: nat)
    requires k < range && lo <= mid
    ensures |WithRemainder(lo, mid + range, range, k)| == |WithRemainder(lo, mid, range, k)| + 1
  {
    var w := OnePerPeriod(mid, range, k);
    assert HasRemainder(w, range, k);
    hide HasRemainder;
    assert WithRemainder(lo, mid + range, range, k) == WithRemainder(lo, mid, range, k) + {w};
  }

  /** A stretch of `q` periods has every remainder `q` times. */
  lemma {:induction false} RemaindersAreEven(lo: nat, range: nat, q: nat, k: nat)
    requires k < range
    ensures |WithRemainder(lo, lo + range * q, range, k)| == q
    decreases q
  {
    if q == 0 {
      assert WithRemainder(lo, lo, range, k) == {};
    } else {
      NotNegative(range, q - 1);
      var mid := lo + range * (q - 1);
      assert lo + range * q == mid + range;
      RemaindersAreEven(lo, range, q - 1, k);
      PeriodCounts(lo, mid, range, k);
    }
  }

  predicate Gives(range: Word32, w: Word32, k: nat) {
    Accepts(range, w) && Reduced(range, w) == k
  }

  /** The words that are accepted and reduced to `k`. */
  ghost function Giving(range: Word32, k: nat): set<Word32> {
    set w: Word32 | 0 <= w < WORDS && Gives(range, w, k)
  }

  ghost function Rejected(range: Word32): set<Word32> {
    set w: Word32 | 0 <= w < WORDS && !Accepts(range, w)
  }

  lemma Distribute(h: nat, r: nat, b: nat)
    ensures (2 * h + r) * b == 2 * (h * b) + r * b
  {
  }

  lemma HalfOfProduct(a: nat, b: nat)
    ensures a % 2 == 0 ==> a * b == 2 * (a / 2 * b)
    ensures b % 2 == 0 ==> a * b == 2 * (a * (b / 2))
    ensures a % 2 == 1 && b % 2 == 1 ==> a * b % 2 == 1
  {
    Distribute(a / 2, a % 2, b);
    Distribute(b / 2, b % 2, a);
    Parity(a * b, a / 2 * b, b);
    assert a % 2 * b == (if a % 2 == 1 then b else 0);
    assert b % 2 * a == (if b % 2 == 1 then a else 0);
  }

  lemma Parity(p: nat, h: nat, b: nat)
    ensures p == 2 * h + b && b % 2 == 1 ==> p % 2 == 1
  {
  }

  lemma ProductIsMore(a: nat, b: nat)
    requires b > 0
    ensures a * b >= a
  {
    NotNegative(a, b - 1);
    assert a * b == a * (b - 1) + a;
  }

  lemma FactorOfOne(a: nat, b: nat)
    requires a * b == 1
    ensures a == 1
  {
    ProductIsMore(a, b);
  }

  lemma {:induction false} DivisorOfPow2(range: nat, m: nat, n: nat)
    requires range * m == Pow2(n)
    ensures IsPow2(range)
    decreases n
  {
    if n == 0 {
      FactorOfOne(range, m);
      assert Pow2(0) == range;
    } else {
      HalfOfProduct(range, m);
      if range % 2 == 0 {
        DivisorOfPow2(range / 2, m, n - 1);
        IsPow2Doubles(range / 2);
      } else {
        DivisorOfPow2(range, m / 2, n - 1);
      }
    }
  }

  lemma WordsIsPow2()
    ensures WORDS == Pow2(32)
  {
    assert Pow2(8) == 256;
    assert Pow2(16) == 0x1_0000;
    assert Pow2(24) == 0x100_0000;
  }

  lemma MasksBitsIff(range: Word32)
    requires range > 0
    ensures MasksBits(range) <==> IsPow2(range)
    ensures Mask(range) == range - 1
  {
    AndPredecessor(range);
  }

  /** The bias is smaller than the range unless that is a power of two, and more than half of all
      words are accepted. */
  lemma {:induction false} BiasIsSmall(range: Word32)
    requires range > 0 && !IsPow2(range)
    ensures 1 <= Bias(range) < range
    ensures WORDS - Bias(range) == range * ((WORDS - 1) / range)
    ensures 2 * (WORDS - Bias(range)) > WORDS
  {
    var q := (WORDS - 1) / range;
    assert WORDS - 1 == range * q + (WORDS - 1) % range;
    if Bias(range) == range {
      assert range * (q + 1) == range * q + range;
      WordsIsPow2();
      DivisorOfPow2(range, q + 1, 32);
    }
    if range > WORDS / 2 {
      RemainderIs(WORDS - 1, range, 1, WORDS - 1 - range);
    }
  }

  /** Every number below the range is given by as many words: by 2^32 / range of them if the range is
      a power of two, else by (2^32 - 1) / range, and the rest are rejected. */
  lemma {:induction false} UniformOnWords(range: Word32, k: nat)
    requires k < range
    ensures |Giving(range, k)| == if IsPow2(range) then WORDS / range else (WORDS - 1) / range
    ensures |Rejected(range)| == if IsPow2(range) then 0 else Bias(range)
    ensures IsPow2(range) ==> range * (WORDS / range) == WORDS
  {
    MasksBitsIff(range);
    if IsPow2(range) {
      var j: nat :| Pow2(j) == range;
      Pow2DividesWords(range, j);
      var q := WORDS / range;
      RemaindersAreEven(0, range, q, k);
      forall w: Word32 ensures Gives(range, w, k) <==> HasRemainder(w, range, k) {
        AndLowBits(w, j);
      }
      SameSet(Giving(range, k), WithRemainder(0, range * q, range, k));
      assert Rejected(range) == {};
    } else {
      BiasIsSmall(range);
      var q, bias := (WORDS - 1) / range, Bias(range);
      RemaindersAreEven(bias, range, q, k);
      SameSet(Giving(range, k), WithRemainder(bias, bias + range * q, range, k));
      CountBelow(bias);
      SameSet(Rejected(range), Below(bias));
    }
  }

  lemma SameSet(words: set<Word32>, numbers: set<int>)
    requires forall w: int :: w in numbers <==> 0 <= w < WORDS && w in words
    ensures |words| == |numbers|
    decreases |words|
  {
    if words == {} {
      assert forall w: int :: w !in numbers;
    } else {
      var w :| w in words;
      assert (w as int) in numbers;
      SameSet(words - {w}, numbers - {w as int});
    }
  }

  function Below(n: nat): set<int> {
    if n == 0 then {} else Below(n - 1) + {n - 1}
  }

  lemma {:induction false} CountBelow(n: nat)
    ensures |Below(n)| == n && forall w :: w in Below(n) <==> 0 <= w < n
  {
    if n > 0 {
      CountBelow(n - 1);
    }
  }

  lemma {:induction false} Pow2DividesWords(range: Word32, j: nat)
    requires range == Pow2(j)
    ensures range * (WORDS / range) == WORDS
  {
    WordsIsPow2();
    hide Pow2;
    if j >= 32 {
      Pow2Grows(32, j);
    } else {
      Pow2Splits(j, 32 - j);
      DividesExactly(WORDS, range, Pow2(32 - j));
    }
  }

  lemma DividesExactly(w: nat, range: nat, rest: nat)
    requires range > 0 && w == range * rest
    ensures range * (w / range) == w
  {
    RemainderIs(w, range, rest, 0);
  }

  lemma {:induction false} Pow2Grows(i: nat, j: nat)
    requires i <= j
    ensures Pow2(i) <= Pow2(j)
    decreases j
  {
    if i < j {
      Pow2Grows(i, j - 1);
    }
  }

  // ----- How many draws give each number -----

  function Power(b: nat, n: nat): nat {
    if n == 0 then 1 else b * Power(b, n - 1)
  }

  /** One of `heads` in front of one of `tails`. */
  ghost function Prefixed(heads: set<Word32>, tails: set<seq<Word32>>): set<seq<Word32>> {
    set w, t | w in heads && t in tails :: [w] + t
  }

  lemma {:induction false} InPrefixed(s: seq<Word32>, heads: set<Word32>, tails: set<seq<Word32>>)
    ensures s in Prefixed(heads, tails) <==> s != [] && s[0] in heads && s[1..] in tails
  {
    if s in Prefixed(heads, tails) {
      var w, t :| w in heads && t in tails && s == [w] + t;
      assert ([w] + t)[1..] == t;
    }
    if s != [] && s[0] in heads && s[1..] in tails {
      assert s == [s[0]] + s[1..];
    }
  }

  lemma {:induction false} PrefixedByMore(heads: set<Word32>, w: Word32, tails: set<seq<Word32>>)
    requires w in heads
    ensures var one, rest := Prefixed({w}, tails), Prefixed(heads - {w}, tails);
            one !! rest && Prefixed(heads, tails) == one + rest
  {
    hide Prefixed;
    var one, rest := Prefixed({w}, tails), Prefixed(heads - {w}, tails);
    forall s ensures s in Prefixed(heads, tails) <==> s in one + rest
             ensures !(s in one && s in rest)
    {
      InPrefixed(s, heads, tails);
      InPrefixed(s, {w}, tails);
      InPrefixed(s, heads - {w}, tails);
    }
  }

  lemma PrefixedByNone(tails: set<seq<Word32>>)
    ensures Prefixed({}, tails) == {}
  {
  }

  lemma {:induction false} PrefixedCount(heads: set<Word32>, tails: set<seq<Word32>>)
    ensures |Prefixed(heads, tails)| == |heads| * |tails|
    decreases |heads|
  {
    hide Prefixed;
    if heads == {} {
      PrefixedByNone(tails);
    } else {
      var w :| w in heads;
      PrefixedCount(heads - {w}, tails);
      PrefixedByOne(w, tails);
      PrefixedByMore(heads, w, tails);
      OneMoreTime(|heads|, |tails|);
    }
  }

  lemma OneMoreTime(a: nat, b: nat)
    requires a > 0
    ensures a * b == (a - 1) * b + b
  {
  }

  lemma {:induction false} PrefixedByOne(w: Word32, tails: set<seq<Word32>>)
    ensures |Prefixed({w}, tails)| == |tails|
    decreases |tails|
  {
    if tails == {} {
      assert Prefixed({w}, tails) == {};
    } else {
      hide Prefixed;
      var t :| t in tails;
      PrefixedByOne(w, tails - {t});
      var all, fewer := Prefixed({w}, tails), Prefixed({w}, tails - {t});
      forall s ensures s in all <==> s in fewer + {[w] + t} {
        InPrefixed(s, {w}, tails);
        InPrefixed(s, {w}, tails - {t});
        assert s != [] && s[0] == w && s[1..] == t ==> s == [w] + t;
        assert ([w] + t)[1..] == t;
      }
      assert all == fewer + {[w] + t};
      InPrefixed([w] + t, {w}, tails - {t});
      assert ([w] + t)[1..] == t;
    }
  }

  /** The `n` words that give `k` with the last of them. */
  ghost function Runs(range: Word32, k: nat, n: nat): set<seq<Word32>> {
    if n == 0 then {}
    else if n == 1 then Prefixed(Giving(range, k), {[]})
    else Prefixed(Rejected(range), Runs(range, k, n - 1))
  }

  lemma {:induction false} RunsAreSamples(range: Word32, k: nat, n: nat, run: seq<Word32>)
    ensures run in Runs(range, k, n) <==> |run| == n && Sample(range, run) == Some((k, n))
    decreases n
  {
    if n == 1 {
      InPrefixed(run, Giving(range, k), {[]});
    } else if n > 1 {
      InPrefixed(run, Rejected(range), Runs(range, k, n - 1));
      if run != [] {
        RunsAreSamples(range, k, n - 1, run[1..]);
      }
    }
  }

  lemma TimesPower(b: nat, n: nat, q: nat)
    requires n > 0
    ensures b * (Power(b, n - 1) * q) == Power(b, n) * q
  {
  }

  /** However many words it takes, every number is as likely as any other: of the strings of `n`
      words, as many give each number below the range at their end. */
  lemma {:induction false} UniformOnRuns(range: Word32, k: nat, n: nat)
    requires k < range && n > 0
    ensures |Runs(range, k, n)|
         == if IsPow2(range) then (if n == 1 then WORDS / range else 0)
            else Power(Bias(range), n - 1) * ((WORDS - 1) / range)
    decreases n
  {
    UniformOnWords(range, k);
    hide Giving, Rejected, IsPow2, Prefixed, Bias;
    if n == 1 {
      PrefixedCount(Giving(range, k), {[]});
    } else {
      UniformOnRuns(range, k, n - 1);
      PrefixedCount(Rejected(range), Runs(range, k, n - 1));
      if !IsPow2(range) {
        TimesPower(Bias(range), n - 1, (WORDS - 1) / range);
      }
    }
  }
}
