/** What the loader accepts, said of the program headers one by one and in numbers. */
module ElfHeaders {
  import opened Util
  import opened ElfSegments
  import opened ElfLoader

  // ----- A header in numbers -----

  /** The address of a segment's first page, and the one behind its last. */
  function FirstPage(ph: Phdr): int {
    ph.vaddr / 4096 * 4096
  }

  function BehindPages(ph: Phdr): int {
    (ph.vaddr + ph.memsz + 4095) / 4096 * 4096
  }

  /** It has pages, no more file data than memory, and memory without file data only if it can be written. */
  predicate HeaderOk(ph: Phdr) {
    FirstPage(ph) < BehindPages(ph) && ph.filesz <= ph.memsz && (ph.filesz < ph.memsz ==> ph.flags / 2 % 2 == 1)
  }

  /** The entry point is in its file data, and it can be executed. */
  predicate Enters(ph: Phdr, entry: Word32) {
    ph.kind == 1 && ph.flags % 2 == 1 && ph.vaddr <= entry < (ph.vaddr + ph.filesz) % 0x1_0000_0000
  }

  predicate Ascending(phdrs: seq<Phdr>) {
    forall i, j :: 0 <= i < j < |phdrs| && phdrs[i].kind == 1 && phdrs[j].kind == 1 ==> BehindPages(phdrs[i]) <= FirstPage(phdrs[j])
  }

  predicate IsFirst(phdrs: seq<Phdr>, f: nat)
    requires f < |phdrs|
  {
    phdrs[f].kind == 1 && forall i :: 0 <= i < f ==> phdrs[i].kind != 1
  }

  predicate StartsAtZero(phdrs: seq<Phdr>) {
    exists f :: 0 <= f < |phdrs| && IsFirst(phdrs, f) && phdrs[f].vaddr == 0
  }

  lemma SameBounds(ph: Phdr)
    ensures FirstPage(ph) == Start(ph) && BehindPages(ph) == End(ph)
  {
  }

  lemma SameHeader(ph: Phdr, entry: Word32)
    ensures HeaderOk(ph) <==> SegmentOk(ph)
    ensures Enters(ph, entry) <==> ph.kind == PT_LOAD && HasEntry(ph, entry)
  {
    SameBounds(ph);
    hide FirstPage, BehindPages, Start, End;
  }

  // ----- The loadable headers -----

  lemma {:induction false} AreLoads(phdrs: seq<Phdr>, ph: Phdr)
    ensures ph in Loads(phdrs) <==> ph in phdrs && ph.kind == 1
  {
    if phdrs != [] {
      AreLoads(phdrs[..|phdrs| - 1], ph);
      assert phdrs == phdrs[..|phdrs| - 1] + [phdrs[|phdrs| - 1]];
    }
  }

  lemma {:induction false} FirstIsFirst(phdrs: seq<Phdr>, f: nat)
    requires f < |phdrs| && IsFirst(phdrs, f)
    ensures Loads(phdrs) != [] && Loads(phdrs)[0] == phdrs[f]
    decreases |phdrs|
  {
    var n := |phdrs| - 1;
    var front := phdrs[..n];
    if f < n {
      FirstIsFirst(front, f);
    } else if Loads(front) != [] {
      AreLoads(front, Loads(front)[0]);
      assert false;
    }
  }

  lemma {:induction false} HasFirst(phdrs: seq<Phdr>) returns (f: nat)
    requires Loads(phdrs) != []
    ensures f < |phdrs| && IsFirst(phdrs, f)
  {
    AreLoads(phdrs, Loads(phdrs)[0]);
    f := 0;
    while phdrs[f].kind != 1
      invariant f < |phdrs| && forall i :: 0 <= i < f ==> phdrs[i].kind != 1
      decreases |phdrs| - f
      invariant exists i :: f <= i < |phdrs| && phdrs[i].kind == 1
    {
      f := f + 1;
    }
  }

  lemma {:induction false} FirstOfLoads(phdrs: seq<Phdr>)
    ensures StartsAtZero(phdrs) <==> Loads(phdrs) != [] && Loads(phdrs)[0].vaddr == 0
  {
    hide Loads, IsFirst;
    if StartsAtZero(phdrs) {
      var f :| 0 <= f < |phdrs| && IsFirst(phdrs, f) && phdrs[f].vaddr == 0;
      FirstIsFirst(phdrs, f);
    }
    if Loads(phdrs) != [] {
      var f := HasFirst(phdrs);
      FirstIsFirst(phdrs, f);
    }
  }

  lemma LastLoad(phdrs: seq<Phdr>)
    requires phdrs != []
    ensures var front, last := Loads(phdrs[..|phdrs| - 1]), phdrs[|phdrs| - 1];
            Loads(phdrs) == if last.kind == 1 then front + [last] else front
  {
  }

  lemma NoHeaders()
    ensures Ascending([]) && Sorted(Loads([]))
  {
  }

  /** Ascending step by step is ascending throughout, if every segment has pages. */
  lemma {:induction false} AscendingIsSorted(phdrs: seq<Phdr>)
    requires forall ph :: ph in Loads(phdrs) ==> SegmentOk(ph)
    ensures Ascending(phdrs) <==> Sorted(Loads(phdrs))
  {
    hide Loads, Start, End, SegmentOk, Sorted, Ascending;
    NoHeaders();
    if phdrs != [] {
      var front, last := phdrs[..|phdrs| - 1], phdrs[|phdrs| - 1];
      LastLoad(phdrs);
      AscendingIsSorted(front);
      AscendingNext(phdrs);
      if last.kind == 1 {
        SortedNextLoad(Loads(front), last);
        forall ph ensures ph in Loads(front) <==> ph in front && ph.kind == 1 {
          AreLoads(front, ph);
        }
      }
    }
  }

  lemma AscendingNext(phdrs: seq<Phdr>)
    requires phdrs != []
    ensures var front, last := phdrs[..|phdrs| - 1], phdrs[|phdrs| - 1];
            Ascending(phdrs) <==>
            Ascending(front) && (last.kind == 1 ==> forall ph :: ph in front && ph.kind == 1 ==> End(ph) <= Start(last))
  {
    var n := |phdrs| - 1;
    forall ph | ph in phdrs ensures FirstPage(ph) == Start(ph) && BehindPages(ph) == End(ph) {
      SameBounds(ph);
    }
    hide FirstPage, BehindPages, Start, End;
    var front := phdrs[..n];
    assert forall i :: 0 <= i < n ==> front[i] == phdrs[i] && front[i] in front && phdrs[i] in phdrs;
    assert phdrs[n] in phdrs;
  }

  lemma {:induction false} SortedNextLoad(loads: seq<Phdr>, ph: Phdr)
    requires forall l :: l in loads ==> SegmentOk(l)
    ensures Sorted(loads + [ph]) <==> Sorted(loads) && forall l :: l in loads ==> End(l) <= Start(ph)
  {
    hide Start, End, SegmentOk;
    var more := loads + [ph];
    assert forall i :: 0 <= i < |loads| ==> more[i] == loads[i] && more[i] in loads;
    if Sorted(more) {
      forall k | 0 <= k < |loads| ensures End(loads[k]) <= Start(ph) {
        SortedAscends(more, k, |loads|);
      }
    }
  }

  /** A load succeeds, as far as the headers decide, for at most 128 headers of which the first loadable
      one is at address 0, all are right, no two are out of order or on one page, and one holds the
      entry point. */
  lemma {:induction false} LoadableIff(entry: Word32, phdrs: seq<Phdr>)
    ensures Loadable(entry, phdrs) <==>
            && |phdrs| <= 128
            && StartsAtZero(phdrs)
            && (forall ph :: ph in phdrs && ph.kind == 1 ==> HeaderOk(ph))
            && Ascending(phdrs)
            && exists ph :: ph in phdrs && Enters(ph, entry)
  {
    forall ph ensures ph in Loads(phdrs) <==> ph in phdrs && ph.kind == 1
              ensures (HeaderOk(ph) <==> SegmentOk(ph)) && (Enters(ph, entry) <==> ph.kind == PT_LOAD && HasEntry(ph, entry))
    {
      AreLoads(phdrs, ph);
      SameHeader(ph, entry);
    }
    FirstOfLoads(phdrs);
    hide SegmentOk, HeaderOk, HasEntry, Enters, Sorted, Ascending, StartsAtZero, Loads;
    if forall ph :: ph in Loads(phdrs) ==> SegmentOk(ph) {
      AscendingIsSorted(phdrs);
    }
  }
}
