/** The Non-SFI ELF loader: reserves an address span and maps the loadable segments over it. */
module ElfLoader {
  import opened Util
  import opened ElfSegments

  const MAX_PHNUM := 128
  const PT_LOAD := 1

  // ----- The image -----

  /** The PT_LOAD headers. */
  function Loads(phdrs: seq<Phdr>): (loads: seq<Phdr>)
    ensures forall ph :: ph in loads ==> ph in phdrs && ph.kind == PT_LOAD
  {
    if phdrs == [] then []
    else
      var last := phdrs[|phdrs| - 1];
      Loads(phdrs[..|phdrs| - 1]) + if last.kind == PT_LOAD then [last] else []
  }

  /** The size of the image, as the last segment has it. */
  function Span(loads: seq<Phdr>): Word32 {
    if loads == [] then 0 else Add32(loads[|loads| - 1].vaddr, loads[|loads| - 1].memsz)
  }

  /** In ascending order, no two segments on one page. */
  predicate Sorted(loads: seq<Phdr>) {
    forall i :: 0 < i < |loads| ==> End(loads[i - 1]) <= Start(loads[i])
  }

  function CallsFor(loads: seq<Phdr>): nat {
    if loads == [] then 0 else CallsFor(loads[..|loads| - 1]) + Calls(loads[|loads| - 1])
  }

  predicate InSegment(ph: Phdr, a: int) {
    Start(ph) <= a < End(ph)
  }

  /** The image at address `a`, each segment over those before it. */
  function ImageByte(file: seq<Byte>, loads: seq<Phdr>, a: int): Option<Byte> {
    if loads == [] then Some(0)
    else if InSegment(loads[|loads| - 1], a) then SegmentByte(file, loads[|loads| - 1], a)
    else ImageByte(file, loads[..|loads| - 1], a)
  }

  function ImageProt(loads: seq<Phdr>, a: int): Prot {
    if loads == [] then PROT_NONE
    else if InSegment(loads[|loads| - 1], a) then ElfFlagsToMmapFlags(loads[|loads| - 1].flags)
    else ImageProt(loads[..|loads| - 1], a)
  }

  ghost predicate ImagedAt(before: Memory, after: Memory, base: int, size: int, file: seq<Byte>, loads: seq<Phdr>, x: int) {
    if base <= x < base + size
    then ByteAt(after, x) == ImageByte(file, loads, x - base) && ProtAt(after, x) == Some(ImageProt(loads, x - base))
    else SameAt(before, after, x)
  }

  /** `after` is `before` with the image of `loads` at `base`, and nothing else changed. */
  ghost predicate Imaged(before: Memory, after: Memory, base: int, size: int, file: seq<Byte>, loads: seq<Phdr>) {
    forall x :: ImagedAt(before, after, base, size, file, loads, x)
  }

  /** What the loader checks of a file, in all. */
  predicate Loadable(entry: Word32, phdrs: seq<Phdr>) {
    var loads := Loads(phdrs);
    && |phdrs| <= MAX_PHNUM
    && loads != [] && loads[0].vaddr == 0
    && Sorted(loads)
    && (forall ph :: ph in loads ==> SegmentOk(ph))
    && (exists ph :: ph in loads && HasEntry(ph, entry))
  }

  lemma {:induction false} ReservesImage(before: Memory, base: int, span: int, file: seq<Byte>)
    requires base % PAGE == 0
    ensures Imaged(before, WithZeroPages(before, base, span, PROT_NONE), base, RoundUp(span), file, [])
  {
    hide WithZeroPages, ByteAt, ProtAt;
    assert RoundUp(base + span) == base + RoundUp(span);
    var after := WithZeroPages(before, base, span, PROT_NONE);
    forall x ensures ImagedAt(before, after, base, RoundUp(span), file, [], x) {
      ZeroMapped(before, base, span, PROT_NONE, x);
    }
  }

  /** Mapping one more segment inside the reserved span extends the image by it. */
  lemma {:induction false} ExtendsImage(before: Memory, now: Memory, after: Memory, base: int, size: int, file: seq<Byte>, loads: seq<Phdr>, ph: Phdr)
    requires Imaged(before, now, base, size, file, loads) && SegmentMapped(now, after, file, ph, base + Start(ph))
    requires End(ph) <= size
    ensures Imaged(before, after, base, size, file, loads + [ph])
  {
    hide ByteAt, ProtAt, SegmentByte, Start, End, ElfFlagsToMmapFlags;
    assert (loads + [ph])[..|loads|] == loads;
    forall x ensures ImagedAt(before, after, base, size, file, loads + [ph], x) {
      assert ImagedAt(before, now, base, size, file, loads, x);
      assert SegmentMappedAt(now, after, file, ph, base + Start(ph), x);
      assert x - (base + Start(ph)) + Start(ph) == x - base;
    }
  }

  /** The segments of a sorted image are disjoint: each shows what it should. */
  lemma {:induction false} SortedShowsAll(file: seq<Byte>, loads: seq<Phdr>, ph: Phdr, a: int)
    requires Sorted(loads) && (forall l :: l in loads ==> SegmentOk(l)) && ph in loads && InSegment(ph, a)
    ensures ImageByte(file, loads, a) == SegmentByte(file, ph, a)
    ensures ImageProt(loads, a) == ElfFlagsToMmapFlags(ph.flags)
  {
    hide SegmentByte, ElfFlagsToMmapFlags, Start, End;
    var front, last := loads[..|loads| - 1], loads[|loads| - 1];
    if ph != last {
      var i :| 0 <= i < |loads| && loads[i] == ph;
      assert front[i] == ph;
      SortedAscends(loads, i, |loads| - 1);
      SortedShowsAll(file, front, ph, a);
    }
  }

  lemma StartBeforeEnd(ph: Phdr)
    ensures 0 <= Start(ph) <= End(ph)
  {
  }

  lemma {:induction false} SortedAscends(loads: seq<Phdr>, i: nat, j: nat)
    requires Sorted(loads) && i < j < |loads|
    ensures End(loads[i]) <= Start(loads[j])
    decreases j
  {
    hide Start, End;
    if i < j - 1 {
      SortedAscends(loads, i, j - 1);
      StartBeforeEnd(loads[j - 1]);
    }
  }

  /** Pages in no segment stay inaccessible. */
  lemma {:induction false} GapsAreInaccessible(loads: seq<Phdr>, a: int)
    requires forall ph :: ph in loads ==> !InSegment(ph, a)
    ensures ImageProt(loads, a) == PROT_NONE
  {
    if loads != [] {
      var front, last := loads[..|loads| - 1], loads[|loads| - 1];
      assert last in loads;
      GapsAreInaccessible(front, a);
    }
  }

  // ----- The loader -----

  datatype Outcome = Loaded(entry: Word32) | Fatal | Faulted

  lemma {:induction false} LoadsPrefix(phdrs: seq<Phdr>, i: nat)
    requires i <= |phdrs|
    ensures Loads(phdrs[..i]) <= Loads(phdrs)
    ensures (forall j :: i <= j < |phdrs| ==> phdrs[j].kind != PT_LOAD) ==> Loads(phdrs[..i]) == Loads(phdrs)
    decreases |phdrs|
  {
    if i == |phdrs| {
      assert phdrs[..i] == phdrs;
    } else {
      var front := phdrs[..|phdrs| - 1];
      assert front[..i] == phdrs[..i];
      LoadsPrefix(front, i);
    }
  }

  lemma LoadsNext(phdrs: seq<Phdr>, i: nat)
    requires i < |phdrs|
    ensures Loads(phdrs[..i + 1]) == if phdrs[i].kind == PT_LOAD then Loads(phdrs[..i]) + [phdrs[i]] else Loads(phdrs[..i])
  {
    assert phdrs[..i + 1][..i] == phdrs[..i];
  }

  lemma {:induction false} NoLoads(phdrs: seq<Phdr>, i: nat)
    requires i <= |phdrs| && forall j :: 0 <= j < i ==> phdrs[j].kind != PT_LOAD
    ensures Loads(phdrs[..i]) == []
  {
    if i > 0 {
      NoLoads(phdrs, i - 1);
      LoadsNext(phdrs, i - 1);
    }
  }

  lemma {:induction false} CallsForPrefix(loads: seq<Phdr>, prefix: seq<Phdr>)
    requires prefix <= loads
    ensures CallsFor(prefix) <= CallsFor(loads)
    decreases |loads|
  {
    if |prefix| < |loads| {
      CallsForPrefix(loads[..|loads| - 1], prefix);
    } else {
      assert prefix == loads;
    }
  }

  /** In a sorted image every segment ends inside the span. */
  lemma {:induction false} SortedFits(file: seq<Byte>, loads: seq<Phdr>, k: nat)
    requires Sorted(loads) && k < |loads| && WellPlaced(file, loads[|loads| - 1])
    ensures End(loads[k]) <= RoundUp(Span(loads)) == End(loads[|loads| - 1])
  {
    var last := |loads| - 1;
    assert Span(loads) == loads[last].vaddr + loads[last].memsz;
    if k < last {
      SortedAscends(loads, k, last);
      StartBeforeEnd(loads[last]);
    }
  }

  function EndOf(loads: seq<Phdr>): int {
    if loads == [] then 0 else End(loads[|loads| - 1])
  }

  /** What the loader knows once it has mapped these. */
  ghost predicate MappedSoFar(loads: seq<Phdr>, prevEnd: int, valid: bool, entry: Word32) {
    && prevEnd == EndOf(loads) && Sorted(loads) && (forall ph :: ph in loads ==> SegmentOk(ph))
    && (valid <==> exists ph :: ph in loads && HasEntry(ph, entry))
  }

  lemma MappedOneMore(loads: seq<Phdr>, prevEnd: int, valid: bool, entry: Word32, ph: Phdr)
    requires MappedSoFar(loads, prevEnd, valid, entry) && prevEnd <= Start(ph) && SegmentOk(ph)
    ensures MappedSoFar(loads + [ph], End(ph), valid || HasEntry(ph, entry), entry)
    ensures CallsFor(loads + [ph]) == CallsFor(loads) + Calls(ph)
  {
    hide Start, End, SegmentOk, HasEntry;
    assert (loads + [ph])[..|loads|] == loads;
    forall l ensures l in loads + [ph] <==> l in loads || l == ph {
    }
  }

  ghost predicate AllOk(loads: seq<Phdr>) {
    forall ph :: ph in loads ==> SegmentOk(ph)
  }

  /** In a sorted image the next segment is where it should be, inside the span. */
  lemma {:induction false} NextSegmentFits(file: seq<Byte>, loads: seq<Phdr>, done: seq<Phdr>, ph: Phdr, hole: Word32)
    requires done + [ph] <= loads && Sorted(loads) && WellPlaced(file, loads[|loads| - 1])
    requires hole + RoundUp(Span(loads)) <= TOP
    ensures EndOf(done) <= Start(ph) <= End(ph) <= RoundUp(Span(loads))
    ensures Start(ph) < End(ph) ==> Add32(hole, Start(ph)) == hole + Start(ph)
    ensures CallsFor(done) + Calls(ph) <= CallsFor(loads)
  {
    var k := |done|;
    assert loads[k] == ph && (done + [ph])[..k] == done;
    assert k > 0 ==> done[k - 1] == loads[k - 1];
    SortedFits(file, loads, k);
    CallsForPrefix(loads, done + [ph]);
    StartBeforeEnd(ph);
  }

  /** A failure leaves alone what is outside the span of a sorted image. */
  lemma {:induction false} StaysInside(before: Memory, now: Memory, after: Memory, file: seq<Byte>, loads: seq<Phdr>, done: seq<Phdr>, ph: Phdr, hole: Word32)
    requires done + [ph] <= loads && Sorted(loads) && WellPlaced(file, loads[|loads| - 1])
    requires hole + RoundUp(Span(loads)) <= TOP
    requires Imaged(before, now, hole, RoundUp(Span(loads)), file, done)
    requires SameOutside(now, after, Add32(hole, Start(ph)), Add32(hole, Start(ph)) + End(ph) - Start(ph))
    ensures SameOutside(before, after, hole, hole + RoundUp(Span(loads)))
  {
    NextSegmentFits(file, loads, done, ph, hole);
    hide RoundUp, Span, Start, End, Add32, ByteAt, ProtAt, ImageByte, ImageProt, Sorted;
    forall x | !(hole <= x < hole + RoundUp(Span(loads))) ensures SameAt(before, after, x) {
      assert ImagedAt(before, now, hole, RoundUp(Span(loads)), file, done, x);
      assert SameAt(now, after, x);
    }
  }

  lemma {:induction false} ImageStaysInside(before: Memory, after: Memory, base: int, size: int, file: seq<Byte>, loads: seq<Phdr>)
    requires Imaged(before, after, base, size, file, loads)
    ensures SameOutside(before, after, base, base + size)
  {
    hide ByteAt, ProtAt;
    forall x | !(base <= x < base + size) ensures SameAt(before, after, x) {
      assert ImagedAt(before, after, base, size, file, loads, x);
    }
  }

  lemma {:induction false} MiddleIsNot(loads: seq<Phdr>, done: seq<Phdr>, ph: Phdr)
    requires done + [ph] <= loads
    ensures ph in loads && (Sorted(loads) ==> EndOf(done) <= Start(ph))
  {
    hide Start, End;
    var k := |done|;
    assert loads[k] == ph;
    if k > 0 {
      assert done[k - 1] == loads[k - 1];
    } else {
      StartBeforeEnd(ph);
    }
  }

  /** What holds between two segments of a file with these `loads`, `done` of them mapped. */
  ghost predicate Between(before: Memory, now: Memory, file: seq<Byte>, loads: seq<Phdr>, done: seq<Phdr>, hole: Word32,
                          prevEnd: int, valid: bool, entry: Word32) {
    && MappedSoFar(done, prevEnd, valid, entry)
    && (Sorted(loads) ==> Imaged(before, now, hole, RoundUp(Span(loads)), file, done))
  }

  lemma {:induction false} BetweenNext(before: Memory, now: Memory, after: Memory, file: seq<Byte>, loads: seq<Phdr>, done: seq<Phdr>,
                                       ph: Phdr, hole: Word32, prevEnd: int, valid: bool, entry: Word32)
    requires Between(before, now, file, loads, done, hole, prevEnd, valid, entry)
    requires done + [ph] <= loads && prevEnd <= Start(ph) && SegmentOk(ph) && WellPlaced(file, loads[|loads| - 1])
    requires hole + RoundUp(Span(loads)) <= TOP
    requires SegmentMapped(now, after, file, ph, Add32(hole, Start(ph)))
    ensures Between(before, after, file, loads, done + [ph], hole, End(ph), valid || HasEntry(ph, entry), entry)
    ensures CallsFor(done + [ph]) == CallsFor(done) + Calls(ph)
  {
    hide RoundUp, Span, Start, End, Add32, Sorted, HasEntry, WellPlaced, Calls, Imaged, SegmentMapped, CallsFor, MappedSoFar;
    MappedOneMore(done, prevEnd, valid, entry, ph);
    if Sorted(loads) {
      NextSegmentFits(file, loads, done, ph, hole);
      ExtendsImage(before, now, after, hole, RoundUp(Span(loads)), file, done, ph);
    }
  }

  lemma {:induction false} FailureIsMeant(before: Memory, now: Memory, after: Memory, file: seq<Byte>, loads: seq<Phdr>, done: seq<Phdr>,
                                          ph: Phdr, hole: Word32, prevEnd: int, valid: bool, entry: Word32, grants: nat)
    requires Between(before, now, file, loads, done, hole, prevEnd, valid, entry)
    requires done + [ph] <= loads && WellPlaced(file, loads[|loads| - 1]) && hole + RoundUp(Span(loads)) <= TOP
    requires var at := Add32(hole, Start(ph));
             && !(prevEnd <= Start(ph) && SegmentOk(ph) && at + End(ph) - Start(ph) <= TOP && grants >= Calls(ph))
             && SameOutside(now, after, at, at + End(ph) - Start(ph))
    ensures !(Sorted(loads) && AllOk(loads) && grants + CallsFor(done) >= CallsFor(loads))
    ensures Sorted(loads) ==> SameOutside(before, after, hole, hole + RoundUp(Span(loads)))
  {
    hide RoundUp, Span, Add32, Sorted, HasEntry, WellPlaced, Calls, Imaged, SameOutside, CallsFor, Start, End;
    if Sorted(loads) {
      NextSegmentFits(file, loads, done, ph, hole);
      StaysInside(before, now, after, file, loads, done, ph, hole);
      assert ph in loads by {
        MiddleIsNot(loads, done, ph);
      }
    }
  }

  // ----- How far a load gets -----

  predicate Fits(ph: Phdr, hole: Word32) {
    Add32(hole, Start(ph)) + End(ph) - Start(ph) <= TOP
  }

  /** The first `n` segments pass all checks and the kernel maps them. */
  predicate Through(loads: seq<Phdr>, n: nat, hole: Word32, grants: nat)
    requires n <= |loads|
  {
    && Sorted(loads[..n]) && (forall ph :: ph in loads[..n] ==> SegmentOk(ph) && Fits(ph, hole))
    && CallsFor(loads[..n]) <= grants
  }

  /** The loader gets as far as mapping the file pages of the `i`-th segment: those before it are
      mapped, it starts behind them, and it has pages that the kernel maps. */
  predicate Attempted(loads: seq<Phdr>, i: nat, hole: Word32, grants: nat)
    requires i < |loads|
  {
    && Sorted(loads[..i + 1])
    && (forall ph :: ph in loads[..i] ==> SegmentOk(ph) && Fits(ph, hole))
    && Start(loads[i]) < End(loads[i]) && Fits(loads[i], hole)
    && CallsFor(loads[..i]) < grants
  }

  /** Exactly the first `n` segments are attempted. */
  ghost predicate AttemptedAre(loads: seq<Phdr>, n: nat, hole: Word32, grants: nat) {
    n <= |loads| && forall i :: 0 <= i < |loads| ==> (i < n <==> Attempted(loads, i, hole, grants))
  }

  function TouchedBy(loads: seq<Phdr>, n: nat, hole: Word32): set<int>
    requires n <= |loads|
  {
    if n == 0 then {} else TouchedBy(loads, n - 1, hole) + SegmentRange(loads[n - 1], hole)
  }

  /** The first `n` segments have their protection, and nothing but their pages has changed. */
  ghost predicate Touches(before: Memory, after: Memory, loads: seq<Phdr>, n: nat, hole: Word32)
    requires n <= |loads|
  {
    && (forall x :: x !in TouchedBy(loads, n, hole) ==> SameAt(before, after, x))
    && (forall i :: 0 <= i < n ==> SegmentProtected(after, loads[i], Add32(hole, Start(loads[i]))))
  }

  lemma SortedPrefix(loads: seq<Phdr>, i: nat, n: nat)
    requires i <= n <= |loads| && Sorted(loads[..n])
    ensures Sorted(loads[..i])
  {
    hide Start, End;
    forall k | 0 < k < i ensures End(loads[..i][k - 1]) <= Start(loads[..i][k]) {
      assert loads[..n][k - 1] == loads[..i][k - 1] && loads[..n][k] == loads[..i][k];
    }
  }

  lemma SortedNext(loads: seq<Phdr>, n: nat)
    requires n < |loads| && Sorted(loads[..n])
    ensures Sorted(loads[..n + 1]) <==> EndOf(loads[..n]) <= Start(loads[n])
  {
    StartBeforeEnd(loads[n]);
    hide Start, End;
    var more := loads[..n + 1];
    assert forall k :: 0 <= k < n ==> more[k] == loads[..n][k];
    if n > 0 {
      assert more[n - 1] == loads[..n][n - 1];
    }
  }

  lemma CallsForNext(loads: seq<Phdr>, n: nat)
    requires n < |loads|
    ensures CallsFor(loads[..n + 1]) == CallsFor(loads[..n]) + Calls(loads[n])
  {
    assert loads[..n + 1][..n] == loads[..n];
  }

  lemma {:induction false} ThroughAttempted(loads: seq<Phdr>, i: nat, n: nat, hole: Word32, grants: nat)
    requires i < n <= |loads| && Through(loads, n, hole, grants)
    ensures Attempted(loads, i, hole, grants)
  {
    SortedPrefix(loads, i + 1, n);
    assert loads[i] == loads[..n][i] && loads[i] in loads[..n];
    forall ph | ph in loads[..i] ensures SegmentOk(ph) && Fits(ph, hole) {
      var k :| 0 <= k < i && loads[..i][k] == ph;
      assert loads[..n][k] == ph;
    }
    CallsForNext(loads, i);
    assert loads[..i + 1] <= loads[..n];
    CallsForPrefix(loads[..n], loads[..i + 1]);
    OneCallAtLeast(loads[i]);
  }

  /** The next segment is accepted exactly if it is attempted; if it does not get through, none after it is. */
  lemma {:induction false} AttemptedNext(loads: seq<Phdr>, n: nat, hole: Word32, grants: nat)
    requires n < |loads| && Through(loads, n, hole, grants)
    ensures var left := grants - CallsFor(loads[..n]);
            && (Accepted(loads[n], hole, EndOf(loads[..n]), left) <==> Attempted(loads, n, hole, grants))
            && (Attempted(loads, n, hole, grants) && SegmentOk(loads[n]) && left >= Calls(loads[n]) ==> Through(loads, n + 1, hole, grants))
  {
    SortedNext(loads, n);
    CallsForNext(loads, n);
    assert loads[..n + 1] == loads[..n] + [loads[n]];
    hide Sorted, CallsFor, Start, End, Add32, SegmentOk, Calls;
  }

  lemma {:induction false} NoneAfter(loads: seq<Phdr>, n: nat, i: nat, hole: Word32, grants: nat)
    requires n < i < |loads| && Attempted(loads, i, hole, grants)
    ensures Attempted(loads, n, hole, grants) && SegmentOk(loads[n]) && CallsFor(loads[..n]) + Calls(loads[n]) < grants
  {
    hide Start, End, Add32, Calls, CallsFor, Sorted, HasBit;
    SortedPrefix(loads, n + 1, i + 1);
    assert loads[n] == loads[..i][n];
    assert SegmentOk(loads[n]) && Fits(loads[n], hole);
    forall ph | ph in loads[..n] ensures SegmentOk(ph) && Fits(ph, hole) {
      var k :| 0 <= k < n && loads[..n][k] == ph;
      assert loads[..i][k] == ph;
    }
    CallsForNext(loads, n);
    assert loads[..n + 1] <= loads[..i];
    CallsForPrefix(loads[..i], loads[..n + 1]);
  }

  /** Where the attempts end. */
  lemma {:induction false} AttemptsEnd(loads: seq<Phdr>, n: nat, hole: Word32, grants: nat)
    requires n < |loads| && Through(loads, n, hole, grants)
    requires !(Attempted(loads, n, hole, grants) && SegmentOk(loads[n]) && grants - CallsFor(loads[..n]) >= Calls(loads[n]))
    ensures AttemptedAre(loads, if Attempted(loads, n, hole, grants) then n + 1 else n, hole, grants)
  {
    hide Attempted, SegmentOk, CallsFor, Calls, Through;
    forall i | 0 <= i < |loads|
      ensures Attempted(loads, i, hole, grants) <==> i < n || (i == n && Attempted(loads, n, hole, grants))
    {
      if i < n {
        ThroughAttempted(loads, i, n, hole, grants);
      } else if i > n && Attempted(loads, i, hole, grants) {
        NoneAfter(loads, n, i, hole, grants);
      }
    }
  }

  lemma {:induction false} AllAttempted(loads: seq<Phdr>, hole: Word32, grants: nat)
    requires Through(loads, |loads|, hole, grants)
    ensures AttemptedAre(loads, |loads|, hole, grants)
  {
    hide Attempted, Through;
    forall i | 0 <= i < |loads| ensures Attempted(loads, i, hole, grants) {
      ThroughAttempted(loads, i, |loads|, hole, grants);
    }
  }

  lemma NoWrap(hole: Word32, s: Word32)
    ensures Add32(hole, s) == hole + s || Add32(hole, s) == hole + s - TOP
  {
  }

  /** Attempted segments do not share addresses, wherever they wrap to. */
  lemma {:induction false} RangesDisjoint(loads: seq<Phdr>, i: nat, n: nat, hole: Word32)
    requires i < n < |loads| && Sorted(loads[..n + 1]) && End(loads[i]) < TOP && End(loads[n]) < TOP
    ensures SegmentRange(loads[i], hole) !! SegmentRange(loads[n], hole)
  {
    SortedAscends(loads[..n + 1], i, n);
    StartBeforeEnd(loads[i]);
    StartBeforeEnd(loads[n]);
    NoWrap(hole, Start(loads[i]));
    NoWrap(hole, Start(loads[n]));
    hide Add32, Start, End;
  }

  lemma EndBelowTop(file: seq<Byte>, ph: Phdr)
    requires WellPlaced(file, ph)
    ensures End(ph) < TOP
  {
  }

  lemma {:induction false} TouchesMore(before: Memory, now: Memory, after: Memory, file: seq<Byte>, loads: seq<Phdr>, n: nat, hole: Word32)
    requires n < |loads| && Touches(before, now, loads, n, hole) && Sorted(loads[..n + 1])
    requires forall ph :: ph in loads ==> WellPlaced(file, ph)
    requires var at := Add32(hole, Start(loads[n]));
             SameOutside(now, after, at, at + End(loads[n]) - Start(loads[n])) && SegmentProtected(after, loads[n], at)
    ensures Touches(before, after, loads, n + 1, hole)
  {
    hide WellPlaced, ByteAt, ProtAt, Add32, Start, End, Sorted;
    var mine := SegmentRange(loads[n], hole);
    forall x | x !in TouchedBy(loads, n + 1, hole) ensures SameAt(before, after, x) {
      assert x !in TouchedBy(loads, n, hole) && x !in mine;
      assert SameAt(before, now, x) && SameAt(now, after, x);
    }
    forall i | 0 <= i < n + 1 ensures SegmentProtected(after, loads[i], Add32(hole, Start(loads[i]))) {
      if i < n {
        EndBelowTop(file, loads[i]);
        EndBelowTop(file, loads[n]);
        RangesDisjoint(loads, i, n, hole);
        ProtectionKept(now, after, loads[i], loads[n], hole);
      }
    }
  }

  lemma ProtectionKept(now: Memory, after: Memory, ph: Phdr, other: Phdr, hole: Word32)
    requires SegmentProtected(now, ph, Add32(hole, Start(ph))) && SegmentRange(ph, hole) !! SegmentRange(other, hole)
    requires SameOutside(now, after, Add32(hole, Start(other)), Add32(hole, Start(other)) + End(other) - Start(other))
    ensures SegmentProtected(after, ph, Add32(hole, Start(ph)))
  {
    hide ByteAt, ProtAt, Add32, Start, End;
    var at := Add32(hole, Start(ph));
    forall x | at <= x < at + End(ph) - Start(ph) ensures ProtAt(after, x) == Some(ElfFlagsToMmapFlags(ph.flags)) {
      assert x in SegmentRange(ph, hole) && x !in SegmentRange(other, hole);
      assert SameAt(now, after, x);
    }
  }

  /** The first `n` segments have been mapped. */
  ghost predicate Reached(space: AddressSpace, before: Memory, touched: set<int>, loads: seq<Phdr>, n: nat, hole: Word32, grants: nat)
    reads space
  {
    && n <= |loads| && Through(loads, n, hole, grants)
    && Touches(before, space.memory, loads, n, hole)
    && space.touched == touched + TouchedBy(loads, n, hole)
    && space.grants + CallsFor(loads[..n]) == grants
  }

  lemma NothingReached(space: AddressSpace, loads: seq<Phdr>, hole: Word32)
    ensures Reached(space, space.memory, space.touched, loads, 0, hole, space.grants)
  {
  }

  /** What `MapSegment` has done to the next segment, `now` and `was` being the memory and the log before. */
  ghost predicate NextDone(space: AddressSpace, now: Memory, was: set<int>, ph: Phdr, hole: Word32, accepted: bool)
    reads space
  {
    var at := Add32(hole, Start(ph));
    && SameOutside(now, space.memory, at, at + End(ph) - Start(ph))
    && space.touched == was + (if accepted then SegmentRange(ph, hole) else {})
    && (accepted ==> SegmentProtected(space.memory, ph, at))
    && (!accepted ==> space.memory == now)
  }

  lemma {:induction false} ReachedNext(space: AddressSpace, before: Memory, touched: set<int>, file: seq<Byte>, loads: seq<Phdr>, n: nat, hole: Word32,
                                       grants: nat, now: Memory, was: set<int>)
    requires n < |loads| && Through(loads, n, hole, grants) && Touches(before, now, loads, n, hole)
    requires was == touched + TouchedBy(loads, n, hole) && forall ph :: ph in loads ==> WellPlaced(file, ph)
    requires var left := grants - CallsFor(loads[..n]);
             var accepted := Accepted(loads[n], hole, EndOf(loads[..n]), left);
             && NextDone(space, now, was, loads[n], hole, accepted)
             && accepted && SegmentOk(loads[n]) && left >= Calls(loads[n]) && space.grants == left - Calls(loads[n])
    ensures Reached(space, before, touched, loads, n + 1, hole, grants)
  {
    hide Through, Touches, WellPlaced, Add32, Start, End, SegmentOk, Calls, SameOutside, SegmentProtected, Accepted;
    AttemptedNext(loads, n, hole, grants);
    CallsForNext(loads, n);
    TouchesMore(before, now, space.memory, file, loads, n, hole);
  }

  /** How far the loader has got when a segment fails. */
  lemma {:induction false} ReachedEnd(space: AddressSpace, before: Memory, touched: set<int>, file: seq<Byte>, loads: seq<Phdr>, n: nat, hole: Word32,
                                      grants: nat, now: Memory, was: set<int>)
    returns (attempted: nat)
    requires n < |loads| && Through(loads, n, hole, grants) && Touches(before, now, loads, n, hole)
    requires was == touched + TouchedBy(loads, n, hole) && forall ph :: ph in loads ==> WellPlaced(file, ph)
    requires var left := grants - CallsFor(loads[..n]);
             var accepted := Accepted(loads[n], hole, EndOf(loads[..n]), left);
             && NextDone(space, now, was, loads[n], hole, accepted)
             && !(accepted && SegmentOk(loads[n]) && left >= Calls(loads[n]))
    ensures AttemptedAre(loads, attempted, hole, grants)
    ensures space.touched == touched + TouchedBy(loads, attempted, hole) && Touches(before, space.memory, loads, attempted, hole)
  {
    hide Through, Touches, WellPlaced, Add32, Start, End, SegmentOk, Calls, SameOutside, SegmentProtected, Accepted;
    AttemptedNext(loads, n, hole, grants);
    AttemptsEnd(loads, n, hole, grants);
    attempted := if Attempted(loads, n, hole, grants) then n + 1 else n;
    if Attempted(loads, n, hole, grants) {
      TouchesMore(before, now, space.memory, file, loads, n, hole);
    }
  }

  /** The loop over the headers from the first PT_LOAD to the last. */
  method MapSegments(space: AddressSpace, file: seq<Byte>, entry: Word32, phdrs: seq<Phdr>, first: nat, last: nat, hole: Word32,
                     ghost before: Memory)
    returns (status: Status, valid: bool, ghost attempted: nat)
    requires first <= last < |phdrs| && Loads(phdrs[..first]) == [] && Loads(phdrs[..last + 1]) == Loads(phdrs) != []
    requires forall ph :: ph in Loads(phdrs) ==> WellPlaced(file, ph)
    requires hole % PAGE == 0 && hole + RoundUp(Span(Loads(phdrs))) <= TOP
    requires Imaged(before, space.memory, hole, RoundUp(Span(Loads(phdrs))), file, [])
    modifies space
    ensures var loads := Loads(phdrs);
            && (status == Mapped <==> Sorted(loads) && AllOk(loads) && old(space.grants) >= CallsFor(loads))
            && (status == Mapped ==> Imaged(before, space.memory, hole, RoundUp(Span(loads)), file, loads))
            && (status == Mapped ==> (valid <==> exists ph :: ph in loads && HasEntry(ph, entry)))
            && (Sorted(loads) ==> SameOutside(before, space.memory, hole, hole + RoundUp(Span(loads))))
            && AttemptedAre(loads, attempted, hole, old(space.grants))
            && space.touched == old(space.touched) + TouchedBy(loads, attempted, hole)
            && Touches(old(space.memory), space.memory, loads, attempted, hole)
    ensures status != Fault
  {
    hide RoundUp, Span, Start, End, Add32, Sorted, SegmentOk, HasEntry, WellPlaced, Calls, Imaged, SameOutside, SegmentMapped,
      CallsFor, PageSizeRoundUp, Between, MappedSoFar, AllOk, Loads, Reached, NextDone, Accepted, EndOf, AttemptedAre, TouchedBy,
      Touches, SegmentRange, SegmentProtected;
    ghost var loads := Loads(phdrs);
    ghost var entered, touched, given := space.memory, space.touched, space.grants;
    StartsBetween(before, space.memory, file, loads, hole, entry);
    NothingReached(space, loads, hole);
    var prevEnd: Word32 := 0;
    valid := false;
    var i := first;
    while i <= last
      invariant first <= i <= last + 1
      invariant Between(before, space.memory, file, loads, Loads(phdrs[..i]), hole, prevEnd, valid, entry)
      invariant Reached(space, entered, touched, loads, |Loads(phdrs[..i])|, hole, given)
      invariant Loads(phdrs[..i]) <= loads
    {
      ghost var done := Loads(phdrs[..i]);
      LoadsNext(phdrs, i);
      LoadsPrefix(phdrs, i + 1);
      if phdrs[i].kind == PT_LOAD {
        InLoads(loads, done, phdrs[i]);
        status, attempted := MapNext(space, file, phdrs[i], prevEnd, hole, loads, done, valid, entry, before, entered, touched, given);
        if status != Mapped {
          return;
        }
        PageEnd(file, phdrs[i]);
        valid := valid || HasEntry(phdrs[i], entry);
        prevEnd := PageSizeRoundUp(Add32(phdrs[i].vaddr, phdrs[i].memsz));
      }
      i := i + 1;
    }
    EndsBetween(before, space.memory, file, loads, hole, prevEnd, valid, entry);
    attempted := |loads|;
    EndReached(space, entered, touched, loads, hole, given);
    status := Mapped;
  }

  /** One segment of the loop, with what it means for the whole. */
  method MapNext(space: AddressSpace, file: seq<Byte>, ph: Phdr, prevEnd: Word32, hole: Word32,
                 ghost loads: seq<Phdr>, ghost done: seq<Phdr>, ghost valid: bool, ghost entry: Word32,
                 ghost before: Memory, ghost entered: Memory, ghost touched: set<int>, ghost given: nat)
    returns (status: Status, ghost attempted: nat)
    requires done + [ph] <= loads && hole % PAGE == 0 && hole + RoundUp(Span(loads)) <= TOP
    requires forall l :: l in loads ==> WellPlaced(file, l)
    requires Between(before, space.memory, file, loads, done, hole, prevEnd, valid, entry)
    requires Reached(space, entered, touched, loads, |done|, hole, given)
    modifies space
    ensures status == Mapped ==>
              && Between(before, space.memory, file, loads, done + [ph], hole, End(ph), valid || HasEntry(ph, entry), entry)
              && Reached(space, entered, touched, loads, |done| + 1, hole, given)
    ensures status != Mapped ==>
              && !(Sorted(loads) && AllOk(loads) && given >= CallsFor(loads))
              && (Sorted(loads) ==> SameOutside(before, space.memory, hole, hole + RoundUp(Span(loads))))
              && AttemptedAre(loads, attempted, hole, given)
              && space.touched == touched + TouchedBy(loads, attempted, hole)
              && Touches(entered, space.memory, loads, attempted, hole)
    ensures status != Fault
  {
    hide RoundUp, Span, Start, End, Add32, Sorted, SegmentOk, HasEntry, WellPlaced, Calls, Imaged, SameOutside, SegmentMapped,
      CallsFor, Between, AllOk, Accepted, EndOf, AttemptedAre, TouchedBy, Touches, SegmentRange, SegmentProtected, Through;
    ghost var now, was, grants := space.memory, space.touched, space.grants;
    assert loads[..|done|] == done && loads[|done|] == ph && ph in loads;
    assert prevEnd == EndOf(done) by {
      BetweenEnd(before, now, file, loads, done, hole, prevEnd, valid, entry);
    }
    status := MapSegment(space, file, ph, hole, prevEnd);
    attempted := 0;
    if status == Mapped {
      BetweenNext(before, now, space.memory, file, loads, done, ph, hole, prevEnd, valid, entry);
      assert Accepted(ph, hole, prevEnd, grants) by {
        MappedWasAccepted(ph, hole, prevEnd, grants);
      }
      ReachedNext(space, entered, touched, file, loads, |done|, hole, given, now, was);
    } else {
      FailureIsMeant(before, now, space.memory, file, loads, done, ph, hole, prevEnd, valid, entry, grants);
      assert !(Accepted(ph, hole, prevEnd, grants) && SegmentOk(ph) && grants >= Calls(ph)) by {
        if Accepted(ph, hole, prevEnd, grants) {
          AcceptedFits(ph, hole, prevEnd, grants);
        }
      }
      attempted := ReachedEnd(space, entered, touched, file, loads, |done|, hole, given, now, was);
    }
  }

  lemma BetweenEnd(before: Memory, now: Memory, file: seq<Byte>, loads: seq<Phdr>, done: seq<Phdr>, hole: Word32,
                   prevEnd: int, valid: bool, entry: Word32)
    requires Between(before, now, file, loads, done, hole, prevEnd, valid, entry)
    ensures prevEnd == EndOf(done)
  {
  }

  lemma MappedWasAccepted(ph: Phdr, base: Word32, prevEnd: int, grants: nat)
    requires prevEnd <= Start(ph) && SegmentOk(ph) && Add32(base, Start(ph)) + End(ph) - Start(ph) <= TOP && grants >= Calls(ph)
    ensures Accepted(ph, base, prevEnd, grants)
  {
    OneCallAtLeast(ph);
  }

  lemma AcceptedFits(ph: Phdr, base: Word32, prevEnd: int, grants: nat)
    requires Accepted(ph, base, prevEnd, grants)
    ensures prevEnd <= Start(ph) && Add32(base, Start(ph)) + End(ph) - Start(ph) <= TOP
  {
  }

  lemma EndReached(space: AddressSpace, before: Memory, touched: set<int>, loads: seq<Phdr>, hole: Word32, grants: nat)
    requires Reached(space, before, touched, loads, |loads|, hole, grants)
    ensures AttemptedAre(loads, |loads|, hole, grants) && CallsFor(loads) <= grants
    ensures space.touched == touched + TouchedBy(loads, |loads|, hole) && Touches(before, space.memory, loads, |loads|, hole)
  {
    hide Touches, AttemptedAre;
    AllAttempted(loads, hole, grants);
    assert loads[..|loads|] == loads;
  }

  lemma InLoads(loads: seq<Phdr>, done: seq<Phdr>, ph: Phdr)
    requires done + [ph] <= loads
    ensures ph in loads && loads[|loads| - 1] in loads
  {
    assert loads[|done|] == ph;
  }

  lemma StartsBetween(before: Memory, now: Memory, file: seq<Byte>, loads: seq<Phdr>, hole: Word32, entry: Word32)
    requires Imaged(before, now, hole, RoundUp(Span(loads)), file, [])
    ensures Between(before, now, file, loads, [], hole, 0, false, entry) && CallsFor([]) == 0
  {
    hide Imaged;
    StartsWithNothing(entry);
  }

  lemma EndsBetween(before: Memory, now: Memory, file: seq<Byte>, loads: seq<Phdr>, hole: Word32, prevEnd: int, valid: bool, entry: Word32)
    requires Between(before, now, file, loads, loads, hole, prevEnd, valid, entry)
    ensures Sorted(loads) && AllOk(loads) && Imaged(before, now, hole, RoundUp(Span(loads)), file, loads)
    ensures valid <==> exists ph :: ph in loads && HasEntry(ph, entry)
    ensures SameOutside(before, now, hole, hole + RoundUp(Span(loads)))
  {
    hide Imaged, SameOutside, SegmentOk, HasEntry, RoundUp, Span;
    ImageStaysInside(before, now, hole, RoundUp(Span(loads)), file, loads);
  }

  lemma StartsWithNothing(entry: Word32)
    ensures MappedSoFar([], 0, false, entry) && CallsFor([]) == 0
  {
  }

  lemma PageEnd(file: seq<Byte>, ph: Phdr)
    requires WellPlaced(file, ph)
    ensures PageSizeRoundUp(Add32(ph.vaddr, ph.memsz)) == End(ph)
  {
  }

  /** The loader gets as far as reserving the span. */
  predicate Reserves(phdrs: seq<Phdr>, grants: nat) {
    var loads := Loads(phdrs);
    |phdrs| <= MAX_PHNUM && loads != [] && loads[0].vaddr == 0 && Span(loads) > 0 && grants > 0
  }

  /** Every segment that is attempted ends inside the span. */
  ghost predicate StaysInSpan(phdrs: seq<Phdr>, hole: Word32, grants: nat) {
    Reserves(phdrs, grants) ==>
      var loads := Loads(phdrs);
      forall i :: 0 <= i < |loads| && Attempted(loads, i, hole, grants - 1) ==> End(loads[i]) <= RoundUp(Span(loads))
  }

  /** What a load has touched and changed, `attempted` of its segments having been attempted. */
  ghost predicate LoadTouches(before: Memory, after: Memory, touched: set<int>, phdrs: seq<Phdr>, hole: Word32, grants: nat, attempted: nat) {
    var loads := Loads(phdrs);
    && attempted <= |loads|
    && (forall x :: x !in touched ==> SameAt(before, after, x))
    && (forall i :: 0 <= i < attempted ==> SegmentProtected(after, loads[i], Add32(hole, Start(loads[i]))))
    && if Reserves(phdrs, grants) then
         && AttemptedAre(loads, attempted, hole, grants - 1)
         && touched == Range(hole, hole + RoundUp(Span(loads))) + TouchedBy(loads, attempted, hole)
       else attempted == 0 && touched == {}
  }

  lemma {:induction false} SegmentInSpan(ph: Phdr, hole: Word32, size: int)
    requires 0 <= Start(ph) < End(ph) < TOP && Fits(ph, hole) && hole + size <= TOP
    ensures SegmentRange(ph, hole) <= Range(hole, hole + size) <==> End(ph) <= size
  {
    var at := Add32(hole, Start(ph));
    NoWrap(hole, Start(ph));
    if End(ph) > size {
      assert at in SegmentRange(ph, hole) && at + (End(ph) - Start(ph)) - 1 in SegmentRange(ph, hole);
    }
  }

  lemma AttemptInSpan(file: seq<Byte>, loads: seq<Phdr>, i: nat, hole: Word32, size: int, grants: nat)
    requires i < |loads| && WellPlaced(file, loads[i]) && Attempted(loads, i, hole, grants) && hole + size <= TOP
    ensures SegmentRange(loads[i], hole) <= Range(hole, hole + size) <==> End(loads[i]) <= size
  {
    EndBelowTop(file, loads[i]);
    StartBeforeEnd(loads[i]);
    hide Start, End, WellPlaced, SegmentRange, Range, Add32;
    SegmentInSpan(loads[i], hole, size);
  }

  lemma {:induction false} TouchedInSpan(file: seq<Byte>, loads: seq<Phdr>, n: nat, hole: Word32, size: int, grants: nat)
    requires n <= |loads| && hole + size <= TOP && forall ph :: ph in loads ==> WellPlaced(file, ph)
    requires forall i :: 0 <= i < n ==> Attempted(loads, i, hole, grants)
    ensures TouchedBy(loads, n, hole) <= Range(hole, hole + size) <==> forall i :: 0 <= i < n ==> End(loads[i]) <= size
    decreases n
  {
    hide Start, End, WellPlaced, Attempted, SegmentRange, Range, Add32;
    if n > 0 {
      assert Attempted(loads, n - 1, hole, grants) && loads[n - 1] in loads;
      AttemptInSpan(file, loads, n - 1, hole, size, grants);
      TouchedInSpan(file, loads, n - 1, hole, size, grants);
    }
  }

  /** A load touches nothing outside the reserved span if and only if every segment it attempts ends
      inside it. */
  lemma {:induction false} InsideIff(before: Memory, after: Memory, touched: set<int>, file: seq<Byte>, phdrs: seq<Phdr>, hole: Word32,
                                     grants: nat, attempted: nat)
    requires LoadTouches(before, after, touched, phdrs, hole, grants, attempted)
    requires hole + RoundUp(Span(Loads(phdrs))) <= TOP && forall ph :: ph in Loads(phdrs) ==> WellPlaced(file, ph)
    ensures touched <= Range(hole, hole + RoundUp(Span(Loads(phdrs)))) <==> StaysInSpan(phdrs, hole, grants)
  {
    hide WellPlaced, RoundUp, Span, Attempted, SegmentProtected, SameAt, Range, Start, End, TouchedBy;
    if Reserves(phdrs, grants) {
      var loads := Loads(phdrs);
      TouchedInSpan(file, loads, attempted, hole, RoundUp(Span(loads)), grants - 1);
    }
  }

  /** Loads a file, given its entry point and program headers, at a place the kernel has found. */
  method NaClLoadElfFile(space: AddressSpace, file: seq<Byte>, entry: Word32, phdrs: seq<Phdr>, hole: Word32, closes: bool)
    returns (outcome: Outcome, ghost attempted: nat)
    requires forall ph :: ph in Loads(phdrs) ==> WellPlaced(file, ph)
    requires hole % PAGE == 0 && hole + RoundUp(Span(Loads(phdrs))) <= TOP
    modifies space
    ensures outcome.Loaded? <==> Loadable(entry, phdrs) && old(space.grants) > CallsFor(Loads(phdrs)) && closes
    ensures outcome.Loaded? ==>
              && outcome.entry == Add32(hole, entry)
              && Imaged(old(space.memory), space.memory, hole, RoundUp(Span(Loads(phdrs))), file, Loads(phdrs))
    ensures LoadTouches(old(space.memory), space.memory, space.touched, phdrs, hole, old(space.grants), attempted)
    ensures space.touched <= Range(hole, hole + RoundUp(Span(Loads(phdrs)))) <==> StaysInSpan(phdrs, hole, old(space.grants))
    ensures outcome != Faulted
  {
    space.touched := {};
    outcome, attempted := LoadFile(space, file, entry, phdrs, hole, closes);
    InsideIff(old(space.memory), space.memory, space.touched, file, phdrs, hole, old(space.grants), attempted);
  }

  method LoadFile(space: AddressSpace, file: seq<Byte>, entry: Word32, phdrs: seq<Phdr>, hole: Word32, closes: bool)
    returns (outcome: Outcome, ghost attempted: nat)
    requires space.touched == {} && forall ph :: ph in Loads(phdrs) ==> WellPlaced(file, ph)
    requires hole % PAGE == 0 && hole + RoundUp(Span(Loads(phdrs))) <= TOP
    modifies space
    ensures outcome.Loaded? <==> Loadable(entry, phdrs) && old(space.grants) > CallsFor(Loads(phdrs)) && closes
    ensures outcome.Loaded? ==>
              && outcome.entry == Add32(hole, entry)
              && Imaged(old(space.memory), space.memory, hole, RoundUp(Span(Loads(phdrs))), file, Loads(phdrs))
    ensures LoadTouches(old(space.memory), space.memory, space.touched, phdrs, hole, old(space.grants), attempted)
    ensures outcome != Faulted
  {
    hide RoundUp, Start, End, Sorted, SegmentOk, HasEntry, WellPlaced, Calls, Imaged, SameOutside, CallsFor, Span, Loads,
      Add32, WithZeroPages, LoadTouches, AttemptedAre, TouchedBy, Touches, Range, SameAt;
    ghost var loads, size := Loads(phdrs), RoundUp(Span(Loads(phdrs)));
    attempted := 0;
    UntouchedYet(space.memory, phdrs, hole, space.grants);
    if |phdrs| > MAX_PHNUM {
      return Fatal, attempted;
    }
    var first, last := FindLoads(phdrs);
    if first == |phdrs| {
      return Fatal, attempted;
    }
    if phdrs[first].vaddr != 0 {
      return Fatal, attempted;
    }
    var span := Add32(phdrs[last].vaddr, phdrs[last].memsz);
    assert loads[|loads| - 1] in loads;
    LoadableHasSpan(file, loads);
    ghost var before := space.memory;
    var ok := space.MmapAnon(hole, span, PROT_NONE);
    if !ok {
      return Fatal, attempted;
    }
    ReservesImage(before, hole, span, file);
    ghost var reserved := space.memory;
    var status, valid;
    status, valid, attempted := MapSegments(space, file, entry, phdrs, first, last, hole, before);
    TouchedSoFar(before, reserved, space.memory, space.touched, file, phdrs, hole, old(space.grants), attempted);
    if status == Fault {
      return Faulted, attempted;
    } else if status == Failed || !closes || !valid {
      return Fatal, attempted;
    }
    return Loaded(Add32(hole, entry)), attempted;
  }

  lemma UntouchedYet(m: Memory, phdrs: seq<Phdr>, hole: Word32, grants: nat)
    ensures !Reserves(phdrs, grants) ==> LoadTouches(m, m, {}, phdrs, hole, grants, 0)
  {
  }

  lemma SpanPages(hole: Word32, span: int)
    requires hole % PAGE == 0
    ensures Pages(hole, span) == Range(hole, hole + RoundUp(span))
  {
    assert RoundUp(hole + span) == hole + RoundUp(span);
    hide RoundUp, Range;
  }

  lemma ChangedInBoth(before: Memory, reserved: Memory, after: Memory, loads: seq<Phdr>, n: nat, hole: Word32, size: int, x: int)
    requires n <= |loads| && SameOutside(before, reserved, hole, hole + size) && Touches(reserved, after, loads, n, hole)
    requires x !in Range(hole, hole + size) + TouchedBy(loads, n, hole)
    ensures SameAt(before, after, x)
  {
    hide ByteAt, ProtAt, TouchedBy, Range, SegmentProtected;
    assert SameAt(before, reserved, x) && SameAt(reserved, after, x);
  }

  lemma {:induction false} TouchedSoFar(before: Memory, reserved: Memory, after: Memory, touched: set<int>, file: seq<Byte>, phdrs: seq<Phdr>,
                                        hole: Word32, grants: nat, attempted: nat)
    requires Reserves(phdrs, grants) && hole % PAGE == 0
    requires var loads := Loads(phdrs);
             && Imaged(before, reserved, hole, RoundUp(Span(loads)), file, [])
             && AttemptedAre(loads, attempted, hole, grants - 1)
             && touched == Pages(hole, Span(loads)) + TouchedBy(loads, attempted, hole)
             && Touches(reserved, after, loads, attempted, hole)
    ensures LoadTouches(before, after, touched, phdrs, hole, grants, attempted)
  {
    hide Loads, TouchedBy, Span, SegmentProtected, Imaged, Attempted, RoundUp, Reserves, Start, Add32, Range, SameAt, SameOutside, Pages;
    var loads := Loads(phdrs);
    SpanPages(hole, Span(loads));
    ImageStaysInside(before, reserved, hole, RoundUp(Span(loads)), file, []);
    forall x | x !in touched ensures SameAt(before, after, x) {
      ChangedInBoth(before, reserved, after, loads, attempted, hole, RoundUp(Span(loads)), x);
    }
  }

  /** The first and the last PT_LOAD header. */
  method FindLoads(phdrs: seq<Phdr>) returns (first: nat, last: nat)
    ensures first <= |phdrs| && (first == |phdrs| <==> Loads(phdrs) == [])
    ensures first < |phdrs| ==>
              && first <= last < |phdrs| && Loads(phdrs[..first]) == [] && Loads(phdrs[..last + 1]) == Loads(phdrs)
              && phdrs[first] == Loads(phdrs)[0] && phdrs[last] == Loads(phdrs)[|Loads(phdrs)| - 1]
  {
    hide Loads;
    first := 0;
    last := 0;
    NoLoads(phdrs, 0);
    while first < |phdrs| && phdrs[first].kind != PT_LOAD
      invariant 0 <= first <= |phdrs| && Loads(phdrs[..first]) == []
    {
      LoadsNext(phdrs, first);
      first := first + 1;
    }
    if first == |phdrs| {
      assert phdrs[..first] == phdrs;
      return;
    }
    last := |phdrs| - 1;
    while last > first && phdrs[last].kind != PT_LOAD
      invariant first <= last < |phdrs| && forall j :: last < j < |phdrs| ==> phdrs[j].kind != PT_LOAD
    {
      last := last - 1;
    }
    FirstAndLast(phdrs, first, last);
  }

  lemma {:induction false} FirstAndLast(phdrs: seq<Phdr>, first: nat, last: nat)
    requires first <= last < |phdrs| && Loads(phdrs[..first]) == []
    requires phdrs[first].kind == PT_LOAD && phdrs[last].kind == PT_LOAD
    requires forall j :: last < j < |phdrs| ==> phdrs[j].kind != PT_LOAD
    ensures Loads(phdrs[..last + 1]) == Loads(phdrs) != []
    ensures phdrs[first] == Loads(phdrs)[0] && phdrs[last] == Loads(phdrs)[|Loads(phdrs)| - 1]
  {
    hide Loads;
    LoadsPrefix(phdrs, last + 1);
    LoadsNext(phdrs, last);
    LoadsPrefix(phdrs, first + 1);
    LoadsNext(phdrs, first);
  }

  lemma {:induction false} LoadableHasSpan(file: seq<Byte>, loads: seq<Phdr>)
    requires loads != [] && WellPlaced(file, loads[|loads| - 1])
    ensures AllOk(loads) ==> Span(loads) > 0
    ensures Span(loads) <= RoundUp(Span(loads))
    ensures Span(loads) == Add32(loads[|loads| - 1].vaddr, loads[|loads| - 1].memsz)
  {
    var last := loads[|loads| - 1];
    assert last in loads;
  }

  // ----- What a loaded image is -----

  /** Every segment shows its part of the file and then zeros to the end of its last page, with the
      protection it asks for; no later segment has disturbed it. */
  lemma {:induction false} LoadedSegments(before: Memory, after: Memory, hole: int, file: seq<Byte>, loads: seq<Phdr>, ph: Phdr, a: int)
    requires Imaged(before, after, hole, RoundUp(Span(loads)), file, loads) && Sorted(loads) && AllOk(loads)
    requires (forall l :: l in loads ==> WellPlaced(file, l)) && ph in loads && WellPlaced(file, ph)
    ensures ph.vaddr <= a < ph.vaddr + ph.filesz ==> ByteAt(after, hole + a) == Some(file[ph.offset + (a - ph.vaddr)])
    ensures ph.filesz < ph.memsz && ph.vaddr + ph.filesz <= a < End(ph) ==> ByteAt(after, hole + a) == Some(0)
    ensures Start(ph) <= a < End(ph) && (a < ph.vaddr || ph.filesz == ph.memsz) ==>
              var x := ph.offset + (a - ph.vaddr);
              x >= 0 && ByteAt(after, hole + a) == Some(if x < |file| then file[x] else 0)
    ensures Start(ph) <= a < End(ph) ==>
              ProtAt(after, hole + a) == Some(Prot(ph.flags / 4 % 2 == 1, ph.flags / 2 % 2 == 1, ph.flags % 2 == 1))
  {
    FlagBits(ph.flags);
    hide ByteAt, ProtAt, SegmentByte, FileByte, RoundUp, Span, Imaged, HasBit, ElfFlagsToMmapFlags;
    if InSegment(ph, a) {
      assert ImagedAt(before, after, hole, RoundUp(Span(loads)), file, loads, hole + a) by {
        ImagedEverywhere(before, after, hole, RoundUp(Span(loads)), file, loads, hole + a);
      }
      var k :| 0 <= k < |loads| && loads[k] == ph;
      SortedFits(file, loads, k);
      SortedShowsAll(file, loads, ph, a);
      assert hole + a - hole == a;
      if ph.vaddr <= a {
        SegmentShowsFile(file, ph, a);
      }
      if a < ph.vaddr || ph.filesz == ph.memsz {
        SegmentShowsAround(file, ph, a);
      }
    }
    FileInSegment(ph);
  }

  lemma ImagedEverywhere(before: Memory, after: Memory, hole: int, size: int, file: seq<Byte>, loads: seq<Phdr>, x: int)
    requires Imaged(before, after, hole, size, file, loads)
    ensures ImagedAt(before, after, hole, size, file, loads, x)
  {
    hide ImagedAt;
  }

  lemma FileInSegment(ph: Phdr)
    requires SegmentOk(ph)
    ensures Start(ph) <= ph.vaddr && ph.vaddr + ph.filesz <= End(ph)
  {
  }

  /** Pages of the span in no segment can be neither read nor written nor executed. */
  lemma {:induction false} LoadedGaps(before: Memory, after: Memory, hole: int, file: seq<Byte>, loads: seq<Phdr>, a: int)
    requires Imaged(before, after, hole, RoundUp(Span(loads)), file, loads) && 0 <= a < RoundUp(Span(loads))
    requires forall ph :: ph in loads ==> !InSegment(ph, a)
    ensures ProtAt(after, hole + a) == Some(Prot(false, false, false))
  {
    hide ByteAt, ProtAt, ImageByte, RoundUp, Span, InSegment;
    assert ImagedAt(before, after, hole, RoundUp(Span(loads)), file, loads, hole + a);
    GapsAreInaccessible(loads, a);
    assert hole + a - hole == a;
  }

  /** The entry address returned is that of a byte of the file, on an executable page. */
  lemma {:induction false} LoadedEntry(before: Memory, after: Memory, hole: Word32, file: seq<Byte>, loads: seq<Phdr>, entry: Word32)
    returns (ph: Phdr)
    requires Imaged(before, after, hole, RoundUp(Span(loads)), file, loads) && Sorted(loads) && AllOk(loads)
    requires forall l :: l in loads ==> WellPlaced(file, l)
    requires hole + RoundUp(Span(loads)) <= TOP
    requires exists l :: l in loads && HasEntry(l, entry)
    ensures ph in loads && ph.vaddr <= entry < ph.vaddr + ph.filesz && ph.offset + ph.filesz <= |file|
    ensures Add32(hole, entry) == hole + entry
    ensures ByteAt(after, Add32(hole, entry)) == Some(file[ph.offset + (entry - ph.vaddr)])
    ensures ProtAt(after, Add32(hole, entry)).Some? && ProtAt(after, Add32(hole, entry)).value.exec
  {
    hide ByteAt, ProtAt, Imaged, Sorted, HasEntry, RoundUp, Span, Start, End, SegmentOk, Add32;
    ph :| ph in loads && HasEntry(ph, entry);
    var k :| 0 <= k < |loads| && loads[k] == ph;
    assert loads[|loads| - 1] in loads;
    SortedFits(file, loads, k);
    FileInSegment(ph);
    EntryInFile(file, ph, entry);
    Unwrapped(hole, entry);
    LoadedSegments(before, after, hole, file, loads, ph, entry);
  }

  lemma EntryInFile(file: seq<Byte>, ph: Phdr, entry: Word32)
    requires WellPlaced(file, ph) && SegmentOk(ph) && HasEntry(ph, entry)
    ensures ph.vaddr <= entry < ph.vaddr + ph.filesz && ElfFlagsToMmapFlags(ph.flags).exec
    ensures 0 <= ph.offset + (entry - ph.vaddr) < |file|
  {
  }

  lemma Unwrapped(a: Word32, b: Word32)
    requires a + b < TOP
    ensures Add32(a, b) == a + b
  {
  }

  /** Segments in ascending order never take a load outside the span, however it ends. */
  lemma {:induction false} SortedStaysInSpan(file: seq<Byte>, phdrs: seq<Phdr>, hole: Word32, grants: nat)
    requires Sorted(Loads(phdrs)) && forall ph :: ph in Loads(phdrs) ==> WellPlaced(file, ph)
    ensures StaysInSpan(phdrs, hole, grants)
  {
    hide WellPlaced, Attempted, RoundUp, Span, Start, End, Sorted;
    var loads := Loads(phdrs);
    forall i | 0 <= i < |loads| ensures End(loads[i]) <= RoundUp(Span(loads)) {
      assert loads[|loads| - 1] in loads;
      SortedFits(file, loads, i);
    }
  }

  // ----- A file whose segments are not sorted -----

  const UNSORTED := [
    Phdr(PT_LOAD, 4, 0, 0, PAGE, PAGE),
    Phdr(PT_LOAD, 4, 0, 4 * PAGE, PAGE, PAGE),
    Phdr(PT_LOAD, 4, 0, PAGE, PAGE, PAGE)]

  lemma UnsortedLoads()
    ensures Loads(UNSORTED) == UNSORTED && RoundUp(Span(UNSORTED)) == 2 * PAGE
    ensures UNSORTED[..1] == [UNSORTED[0]] && UNSORTED[..2] == [UNSORTED[0], UNSORTED[1]]
  {
    assert UNSORTED[..2][..1] == UNSORTED[..1] && UNSORTED[..1][..0] == [];
    assert Loads(UNSORTED[..1]) == UNSORTED[..1];
    assert Loads(UNSORTED[..2]) == UNSORTED[..2];
    assert UNSORTED[..2] + [UNSORTED[2]] == UNSORTED;
  }

  lemma UnsortedBounds()
    ensures Start(UNSORTED[0]) == 0 && End(UNSORTED[0]) == PAGE && SegmentOk(UNSORTED[0]) && Calls(UNSORTED[0]) == 1
    ensures Start(UNSORTED[1]) == 4 * PAGE && End(UNSORTED[1]) == 5 * PAGE && Start(UNSORTED[2]) == PAGE
    ensures ElfFlagsToMmapFlags(4) == Prot(true, false, false)
  {
  }

  lemma UnsortedWellPlaced(file: seq<Byte>)
    requires |file| >= PAGE
    ensures forall ph :: ph in Loads(UNSORTED) ==> WellPlaced(file, ph)
  {
    UnsortedLoads();
    hide Loads;
    assert forall i :: 0 <= i < |UNSORTED| ==> WellPlaced(file, UNSORTED[i]);
  }

  lemma {:induction false} UnsortedAttempts(hole: Word32, grants: nat)
    requires hole + 8 * PAGE <= TOP && grants >= 2
    ensures Attempted(UNSORTED, 1, hole, grants) && !Sorted(UNSORTED)
  {
    UnsortedLoads();
    UnsortedBounds();
    Unwrapped(hole, 0);
    Unwrapped(hole, 4 * PAGE);
    assert CallsFor([UNSORTED[0]]) == 1 by {
      assert [UNSORTED[0]][..0] == [];
      hide Calls;
    }
    hide Start, End, SegmentOk, Calls, CallsFor, Add32, Loads;
    assert UNSORTED[2 - 1] == UNSORTED[1] && UNSORTED[..1 + 1] == UNSORTED[..2];
  }

  /** Every load of `UNSORTED` maps a page outside its span of two pages. */
  lemma {:induction false} UnsortedTouches(before: Memory, after: Memory, touched: set<int>, hole: Word32, grants: nat, attempted: nat)
    requires hole + 8 * PAGE <= TOP && grants >= 3 && LoadTouches(before, after, touched, UNSORTED, hole, grants, attempted)
    ensures ProtAt(after, hole + 4 * PAGE) == Some(Prot(true, false, false)) && !StaysInSpan(UNSORTED, hole, grants)
  {
    UnsortedLoads();
    UnsortedBounds();
    UnsortedAttempts(hole, grants - 1);
    Unwrapped(hole, 4 * PAGE);
    hide Start, End, SegmentOk, Calls, CallsFor, Add32, Loads, Attempted, ProtAt, SameAt, Sorted, Range, ElfFlagsToMmapFlags, TouchedBy;
    assert Reserves(UNSORTED, grants) && attempted > 1;
    assert SegmentProtected(after, UNSORTED[1], hole + 4 * PAGE);
  }

  /** A load that is turned down can have changed memory outside the span it reserved: the second
      segment is mapped before the third shows that the order is wrong. */
  method UnsortedOverruns(space: AddressSpace, file: seq<Byte>, hole: Word32) returns (outcome: Outcome)
    requires |file| >= PAGE && hole % PAGE == 0 && hole + 8 * PAGE <= TOP && space.grants >= 3
    requires ProtAt(space.memory, hole + 4 * PAGE) == None
    modifies space
    ensures outcome == Fatal && RoundUp(Span(Loads(UNSORTED))) == 2 * PAGE
    ensures ProtAt(space.memory, hole + 4 * PAGE) == Some(Prot(true, false, false))
  {
    UnsortedLoads();
    UnsortedAttempts(hole, space.grants);
    UnsortedWellPlaced(file);
    hide *;
    ghost var attempted;
    outcome, attempted := NaClLoadElfFile(space, file, 0, UNSORTED, hole, true);
    UnsortedTouches(old(space.memory), space.memory, space.touched, hole, old(space.grants), attempted);
    UnsortedRefused(0);
  }

  lemma UnsortedRefused(entry: Word32)
    ensures !Loadable(entry, UNSORTED)
  {
    UnsortedLoads();
    UnsortedBounds();
    hide Start, End, Loads, SegmentOk;
    assert UNSORTED[2 - 1] == UNSORTED[1];
  }
}
