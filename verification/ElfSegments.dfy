/** What the Non-SFI ELF loader does with one segment: memory as bytes and protected pages, the mapping
    of the file and the zeroing behind it. */
module ElfSegments {
  import opened Util

  const PAGE := 0x1000
  const TOP := WORDS

  /** The sum of two 32-bit addresses or sizes wraps around. */
  function Add32(a: Word32, b: Word32): Word32 {
    (a + b) % TOP
  }

  function RoundDown(a: int): int {
    a - a % PAGE
  }

  function RoundUp(a: int): int {
    RoundDown(a + PAGE - 1)
  }

  function PageSizeRoundDown(a: Word32): Word32 {
    RoundDown(a)
  }

  function PageSizeRoundUp(a: Word32): Word32 {
    PageSizeRoundDown(Add32(a, PAGE - 1))
  }

  /** The addresses, or page numbers, from `lo` up to `hi`. */
  function Range(lo: int, hi: int): (r: set<int>)
    ensures forall a :: a in r <==> lo <= a < hi
    decreases hi - lo
  {
    if lo >= hi then {} else Range(lo, hi - 1) + {hi - 1}
  }

  datatype Prot = Prot(read: bool, write: bool, exec: bool)

  const PROT_NONE := Prot(false, false, false)

  /** A program header; the flags are the bits 1 (execute), 2 (write) and 4 (read). */
  datatype Phdr = Phdr(kind: Word32, flags: Word32, offset: Word32, vaddr: Word32, filesz: Word32, memsz: Word32)

  predicate HasBit(flags: Word32, bit: int)
    requires bit > 0
  {
    flags / bit % 2 == 1
  }

  function ElfFlagsToMmapFlags(flags: Word32): Prot {
    Prot(HasBit(flags, 4), HasBit(flags, 2), HasBit(flags, 1))
  }

  /** Pages are readable, writable and executable by the bits 4, 2 and 1 of the flags. */
  lemma FlagBits(flags: Word32)
    ensures ElfFlagsToMmapFlags(flags) == Prot(flags / 4 % 2 == 1, flags / 2 % 2 == 1, flags % 2 == 1)
  {
  }

  /** Rounding gives the nearest multiples of 4096 on either side; up in 32 bits, unless that is 2^32. */
  lemma RoundsToPages(a: Word32)
    ensures RoundDown(a) <= a < RoundDown(a) + 4096 && RoundDown(a) % 4096 == 0 && PageSizeRoundDown(a) == RoundDown(a)
    ensures RoundUp(a) - 4096 < a <= RoundUp(a) && RoundUp(a) % 4096 == 0
    ensures PageSizeRoundUp(a) == if RoundUp(a) == 0x1_0000_0000 then 0 else RoundUp(a)
  {
  }

  // ----- Memory -----

  /** The bytes of the mapped addresses that have backing store, and the protection of every mapped
      page, by page number. */
  datatype Memory = Memory(bytes: map<int, Byte>, prot: map<int, Prot>)

  function ByteAt(m: Memory, a: int): Option<Byte> {
    if a in m.bytes then Some(m.bytes[a]) else None
  }

  function ProtAt(m: Memory, a: int): Option<Prot> {
    if a / PAGE in m.prot then Some(m.prot[a / PAGE]) else None
  }

  /** A byte of the pages of a file: zero after its end, none in a page wholly after that. */
  function FileByte(file: seq<Byte>, x: int): Option<Byte>
    requires x >= 0
  {
    if x < |file| then Some(file[x]) else if x < RoundUp(|file|) then Some(0) else None
  }

  function Fill<T>(keys: set<int>, value: T): map<int, T> {
    map a | a in keys :: value
  }

  /** The bytes of a file mapping at `addr` that have backing store. */
  function FileBytes(addresses: set<int>, addr: int, file: seq<Byte>, offset: nat): map<int, Byte>
    requires forall a :: a in addresses ==> addr <= a
  {
    map a | a in addresses && FileByte(file, offset + (a - addr)).Some? :: FileByte(file, offset + (a - addr)).value
  }

  /** The addresses of the pages that a mapping of `len` bytes takes. */
  function Pages(addr: int, len: int): set<int> {
    Range(addr, RoundUp(addr + len))
  }

  function Reprotected(prot: map<int, Prot>, addr: int, len: int, p: Prot): map<int, Prot> {
    prot + Fill(Range(addr / PAGE, RoundUp(addr + len) / PAGE), p)
  }

  function WithFile(m: Memory, addr: int, len: int, p: Prot, file: seq<Byte>, offset: nat): Memory {
    Memory(m.bytes - Pages(addr, len) + FileBytes(Pages(addr, len), addr, file, offset), Reprotected(m.prot, addr, len, p))
  }

  function WithZeroPages(m: Memory, addr: int, len: int, p: Prot): Memory {
    Memory(m.bytes + Fill(Pages(addr, len), 0), Reprotected(m.prot, addr, len, p))
  }

  function WithZeroBytes(m: Memory, addr: int, len: int): Memory {
    m.(bytes := m.bytes + Fill(Range(addr, addr + len), 0))
  }

  predicate Writable(m: Memory, a: int) {
    ByteAt(m, a).Some? && ProtAt(m, a).Some? && ProtAt(m, a).value.write
  }

  /** The memory of a process. `grants` is how many more mappings the kernel will make for it, and
      `touched` are the addresses that have been mapped or zeroed. */
  class AddressSpace {
    var memory: Memory
    var grants: nat
    ghost var touched: set<int>

    /** A file mapping at a fixed page; false is MAP_FAILED. */
    method MmapFile(addr: Word32, len: Word32, p: Prot, file: seq<Byte>, offset: Word32) returns (ok: bool)
      requires addr % PAGE == 0
      modifies this
      ensures ok <==> len != 0 && addr + len <= TOP && old(grants) > 0
      ensures memory == if ok then WithFile(old(memory), addr, len, p, file, offset) else old(memory)
      ensures touched == if ok then old(touched) + Pages(addr, len) else old(touched)
      ensures grants == if ok then old(grants) - 1 else old(grants)
    {
      ok := len != 0 && addr + len <= TOP && grants > 0;
      if ok {
        memory := WithFile(memory, addr, len, p, file, offset);
        touched := touched + Pages(addr, len);
        grants := grants - 1;
      }
    }

    /** An anonymous mapping at a fixed page, or at a place the kernel has found. */
    method MmapAnon(addr: Word32, len: Word32, p: Prot) returns (ok: bool)
      requires addr % PAGE == 0
      modifies this
      ensures ok <==> len != 0 && addr + len <= TOP && old(grants) > 0
      ensures memory == if ok then WithZeroPages(old(memory), addr, len, p) else old(memory)
      ensures touched == if ok then old(touched) + Pages(addr, len) else old(touched)
      ensures grants == if ok then old(grants) - 1 else old(grants)
    {
      ok := len != 0 && addr + len <= TOP && grants > 0;
      if ok {
        memory := WithZeroPages(memory, addr, len, p);
        touched := touched + Pages(addr, len);
        grants := grants - 1;
      }
    }

    /** Writes zeros; false is a fault, at an address that cannot be written. */
    method Memset(addr: Word32, len: Word32) returns (ok: bool)
      modifies this`memory, this`touched
      ensures ok <==> forall a :: addr <= a < addr + len ==> Writable(old(memory), a)
      ensures memory == if ok then WithZeroBytes(old(memory), addr, len) else old(memory)
      ensures touched == if ok then old(touched) + Range(addr, addr + len) else old(touched)
    {
      ok := forall a :: addr <= a < addr + len ==> Writable(memory, a);
      if ok {
        memory := WithZeroBytes(memory, addr, len);
        touched := touched + Range(addr, addr + len);
      }
    }
  }

  // ----- Looking at memory after a mapping -----

  lemma PagesOf(addr: int, len: int, a: int)
    requires addr % PAGE == 0
    ensures addr <= a < RoundUp(addr + len) <==> addr / PAGE <= a / PAGE < RoundUp(addr + len) / PAGE
  {
  }

  lemma {:induction false} FileMapped(m: Memory, addr: int, len: int, p: Prot, file: seq<Byte>, offset: nat, a: int)
    requires addr % PAGE == 0
    ensures var after := WithFile(m, addr, len, p, file, offset);
            if addr <= a < RoundUp(addr + len)
            then ByteAt(after, a) == FileByte(file, offset + (a - addr)) && ProtAt(after, a) == Some(p)
            else ByteAt(after, a) == ByteAt(m, a) && ProtAt(after, a) == ProtAt(m, a)
  {
    PagesOf(addr, len, a);
  }

  /** What a file mapping shows, in numbers: the file's bytes from the offset on, zeros behind its end up
      to the next multiple of 4096, and nothing there. */
  lemma {:induction false} FileShows(m: Memory, addr: int, len: int, p: Prot, file: seq<Byte>, offset: nat, a: int)
    requires addr % PAGE == 0 && addr <= a < addr + len
    ensures var x := offset + (a - addr);
            ByteAt(WithFile(m, addr, len, p, file, offset), a)
            == if x < |file| then Some(file[x]) else if x < (|file| + 4095) / 4096 * 4096 then Some(0) else None
  {
    FileMapped(m, addr, len, p, file, offset, a);
    hide ByteAt, ProtAt, WithFile;
    assert a < RoundUp(addr + len);
  }

  lemma {:induction false} ZeroMapped(m: Memory, addr: int, len: int, p: Prot, a: int)
    requires addr % PAGE == 0
    ensures var after := WithZeroPages(m, addr, len, p);
            if addr <= a < RoundUp(addr + len)
            then ByteAt(after, a) == Some(0) && ProtAt(after, a) == Some(p)
            else ByteAt(after, a) == ByteAt(m, a) && ProtAt(after, a) == ProtAt(m, a)
  {
    PagesOf(addr, len, a);
  }

  lemma {:induction false} ZeroFilled(m: Memory, addr: int, len: int, a: int)
    requires forall x :: addr <= x < addr + len ==> Writable(m, x)
    ensures var after := WithZeroBytes(m, addr, len);
            && ByteAt(after, a) == (if addr <= a < addr + len then Some(0) else ByteAt(m, a))
            && ProtAt(after, a) == ProtAt(m, a)
  {
  }

  // ----- Segments -----

  function Start(ph: Phdr): Word32 {
    RoundDown(ph.vaddr)
  }

  function End(ph: Phdr): int {
    RoundUp(ph.vaddr + ph.memsz)
  }

  function BssMapStart(ph: Phdr): int {
    RoundUp(ph.vaddr + ph.filesz)
  }

  /** What the loader relies on without checking it: the file offset is congruent to the address, the
      file data is in the file, and no address wraps around. */
  predicate WellPlaced(file: seq<Byte>, ph: Phdr) {
    && ph.offset % PAGE == ph.vaddr % PAGE
    && ph.offset + ph.filesz <= |file|
    && ph.vaddr + ph.memsz <= TOP - PAGE
  }

  /** What it checks, or the kernel does: some pages to map, and zeros only where they can be written. */
  predicate SegmentOk(ph: Phdr) {
    && Start(ph) < End(ph)
    && ph.filesz <= ph.memsz
    && (ph.filesz < ph.memsz ==> HasBit(ph.flags, 2))
  }

  function Calls(ph: Phdr): nat {
    if ph.filesz < ph.memsz && BssMapStart(ph) < End(ph) then 2 else 1
  }

  /** The byte a segment is to show at address `a` of the image. */
  function SegmentByte(file: seq<Byte>, ph: Phdr, a: int): Option<Byte>
    requires Start(ph) <= a
  {
    if ph.filesz < ph.memsz && ph.vaddr + ph.filesz <= a then Some(0)
    else FileByte(file, RoundDown(ph.offset) + (a - Start(ph)))
  }

  predicate HasEntry(ph: Phdr, entry: Word32) {
    HasBit(ph.flags, 1) && ph.vaddr <= entry < Add32(ph.vaddr, ph.filesz)
  }

  /** The file pages under a segment reach to the end of the page its file data ends in. */
  lemma {:induction false} FilePagesBacked(file: seq<Byte>, ph: Phdr, a: int)
    requires WellPlaced(file, ph) && Start(ph) <= a < BssMapStart(ph)
    ensures FileByte(file, RoundDown(ph.offset) + (a - Start(ph))).Some?
  {
  }

  /** A segment shows its part of the file, and zeros from there to the end of its last page. */
  lemma {:induction false} SegmentShowsFile(file: seq<Byte>, ph: Phdr, a: int)
    requires WellPlaced(file, ph) && SegmentOk(ph) && ph.vaddr <= a < End(ph)
    ensures a < ph.vaddr + ph.filesz ==> SegmentByte(file, ph, a) == Some(file[ph.offset + (a - ph.vaddr)])
    ensures ph.vaddr + ph.filesz <= a && ph.filesz < ph.memsz ==> SegmentByte(file, ph, a) == Some(0)
  {
  }

  /** Around its part of the file, a segment's pages show what is there in the file, and zeros behind its end. */
  lemma {:induction false} SegmentShowsAround(file: seq<Byte>, ph: Phdr, a: int)
    requires WellPlaced(file, ph) && SegmentOk(ph) && Start(ph) <= a < End(ph)
    requires a < ph.vaddr || ph.filesz == ph.memsz
    ensures var x := ph.offset + (a - ph.vaddr);
            x >= 0 && SegmentByte(file, ph, a) == Some(if x < |file| then file[x] else 0)
  {
    FilePagesBacked(file, ph, a);
    assert RoundDown(ph.offset) - Start(ph) == ph.offset - ph.vaddr;
    hide RoundUp, End, BssMapStart;
  }

  /** `after` is `before` with a segment's pages at `at`. */
  ghost predicate SegmentMapped(before: Memory, after: Memory, file: seq<Byte>, ph: Phdr, at: int) {
    forall x :: SegmentMappedAt(before, after, file, ph, at, x)
  }

  /** The byte and the protection a mapped segment has at `x`. */
  ghost predicate SegmentMappedAt(before: Memory, after: Memory, file: seq<Byte>, ph: Phdr, at: int, x: int) {
    if at <= x < at + End(ph) - Start(ph)
    then ByteAt(after, x) == SegmentByte(file, ph, x - at + Start(ph)) && ProtAt(after, x) == Some(ElfFlagsToMmapFlags(ph.flags))
    else SameAt(before, after, x)
  }

  ghost predicate SameAt(before: Memory, after: Memory, x: int) {
    ByteAt(after, x) == ByteAt(before, x) && ProtAt(after, x) == ProtAt(before, x)
  }

  ghost predicate SameOutside(before: Memory, after: Memory, lo: int, hi: int) {
    forall x :: !(lo <= x < hi) ==> SameAt(before, after, x)
  }

  /** `mapped` is `before` with the file pages of a segment at `at`, zeros aside. */
  ghost predicate FilePages(before: Memory, mapped: Memory, file: seq<Byte>, ph: Phdr, at: int) {
    forall x {:trigger ByteAt(mapped, x)} {:trigger ProtAt(mapped, x)} ::
      if at <= x < at + End(ph) - Start(ph)
      then ByteAt(mapped, x) == FileByte(file, RoundDown(ph.offset) + (x - at)) && ProtAt(mapped, x) == Some(ElfFlagsToMmapFlags(ph.flags))
      else ByteAt(mapped, x) == ByteAt(before, x) && ProtAt(mapped, x) == ProtAt(before, x)
  }

  lemma {:induction false} MapsFilePages(before: Memory, file: seq<Byte>, ph: Phdr, at: int)
    requires at % PAGE == 0
    ensures FilePages(before, WithFile(before, at, End(ph) - Start(ph), ElfFlagsToMmapFlags(ph.flags), file, RoundDown(ph.offset)), file, ph, at)
  {
    hide WithFile, FileByte, ByteAt, ProtAt, ElfFlagsToMmapFlags;
    var prot, len := ElfFlagsToMmapFlags(ph.flags), End(ph) - Start(ph);
    assert RoundUp(at + len) == at + len;
    var mapped := WithFile(before, at, len, prot, file, RoundDown(ph.offset));
    forall x
      ensures if at <= x < at + End(ph) - Start(ph)
              then ByteAt(mapped, x) == FileByte(file, RoundDown(ph.offset) + (x - at)) && ProtAt(mapped, x) == Some(prot)
              else ByteAt(mapped, x) == ByteAt(before, x) && ProtAt(mapped, x) == ProtAt(before, x)
    {
      FileMapped(before, at, len, prot, file, RoundDown(ph.offset), x);
    }
  }

  /** The zeroed part of the last file page can be written. */
  lemma {:induction false} TailIsWritable(before: Memory, mapped: Memory, file: seq<Byte>, ph: Phdr, at: int, x: int)
    requires WellPlaced(file, ph) && SegmentOk(ph) && ph.filesz < ph.memsz && FilePages(before, mapped, file, ph, at)
    requires at + (ph.vaddr + ph.filesz - Start(ph)) <= x < at + (BssMapStart(ph) - Start(ph))
    ensures Writable(mapped, x)
  {
    hide FileByte;
    FilePagesBacked(file, ph, x - at + Start(ph));
    assert RoundDown(ph.offset) + (x - at) == RoundDown(ph.offset) + (x - at + Start(ph) - Start(ph));
    assert ByteAt(mapped, x).Some?;
  }

  lemma SegmentByteAt(file: seq<Byte>, ph: Phdr, at: int, x: int)
    requires ph.filesz < ph.memsz && at <= x
    ensures SegmentByte(file, ph, x - at + Start(ph))
         == if at + (ph.vaddr + ph.filesz - Start(ph)) <= x then Some(0) else FileByte(file, RoundDown(ph.offset) + (x - at))
  {
    hide FileByte;
    assert x - at + Start(ph) - Start(ph) == x - at;
  }

  lemma {:induction false} CompletesAt(before: Memory, mapped: Memory, file: seq<Byte>, ph: Phdr, at: int, tail: int, pages: int, x: int)
    requires ph.filesz < ph.memsz && FilePages(before, mapped, file, ph, at)
    requires at <= tail <= pages && pages % PAGE == 0 && (at + End(ph) - Start(ph)) % PAGE == 0
    requires tail == at + (ph.vaddr + ph.filesz - Start(ph)) && pages <= at + End(ph) - Start(ph)
    requires forall y :: tail <= y < pages ==> Writable(mapped, y)
    ensures var zeroed := WithZeroBytes(mapped, tail, pages - tail);
            var whole := WithZeroPages(zeroed, pages, at + End(ph) - Start(ph) - pages, ElfFlagsToMmapFlags(ph.flags));
            && SegmentMappedAt(before, if pages < at + End(ph) - Start(ph) then whole else zeroed, file, ph, at, x)
            && (if at <= x < at + End(ph) - Start(ph) then ProtAt(zeroed, x) == Some(ElfFlagsToMmapFlags(ph.flags))
                else SameAt(before, zeroed, x))
  {
    hide WithZeroBytes, WithZeroPages, FileByte, ByteAt, ProtAt, ElfFlagsToMmapFlags, SegmentByte, Writable, Start, End, RoundDown;
    var zeroed := WithZeroBytes(mapped, tail, pages - tail);
    var end := at + End(ph) - Start(ph);
    assert RoundUp(pages + (end - pages)) == end by {
      RoundedAlready(end);
    }
    ZeroFilled(mapped, tail, pages - tail, x);
    ZeroMapped(zeroed, pages, end - pages, ElfFlagsToMmapFlags(ph.flags), x);
    if at <= x {
      SegmentByteAt(file, ph, at, x);
    }
  }

  lemma RoundedAlready(a: int)
    requires a % PAGE == 0
    ensures RoundUp(a) == a
  {
  }

  /** The zeroed tail, from `tail`, and the anonymous pages, from `pages`, complete the segment. */
  lemma {:induction false} CompletesSegment(before: Memory, mapped: Memory, file: seq<Byte>, ph: Phdr, at: int, tail: int, pages: int)
    requires WellPlaced(file, ph) && SegmentOk(ph) && ph.filesz < ph.memsz && FilePages(before, mapped, file, ph, at)
    requires at % PAGE == 0
    requires tail == at + (ph.vaddr + ph.filesz - Start(ph)) && pages == at + (BssMapStart(ph) - Start(ph))
    ensures var zeroed := WithZeroBytes(mapped, tail, pages - tail);
            var whole := WithZeroPages(zeroed, pages, End(ph) - BssMapStart(ph), ElfFlagsToMmapFlags(ph.flags));
            && SegmentMapped(before, if BssMapStart(ph) < End(ph) then whole else zeroed, file, ph, at)
            && SameOutside(before, zeroed, at, at + End(ph) - Start(ph))
            && SegmentProtected(zeroed, ph, at)
  {
    hide *;
    PlacedBelowTop(file, ph);
    BssRounding(ph);
    forall x | tail <= x < pages ensures Writable(mapped, x) {
      TailIsWritable(before, mapped, file, ph, at, x);
    }
    var zeroed := WithZeroBytes(mapped, tail, pages - tail);
    var whole := WithZeroPages(zeroed, pages, End(ph) - BssMapStart(ph), ElfFlagsToMmapFlags(ph.flags));
    assert at + End(ph) - Start(ph) - pages == End(ph) - BssMapStart(ph);
    EndsOnPage(ph, at);
    var last := if BssMapStart(ph) < End(ph) then whole else zeroed;
    forall x
      ensures SegmentMappedAt(before, last, file, ph, at, x)
      ensures if at <= x < at + End(ph) - Start(ph) then ProtAt(zeroed, x) == Some(ElfFlagsToMmapFlags(ph.flags))
              else SameAt(before, zeroed, x)
    {
      CompletesAt(before, mapped, file, ph, at, tail, pages, x);
    }
    ProtectedEverywhere(zeroed, ph, at);
    assert SegmentMapped(before, last, file, ph, at) by {
      MappedEverywhere(before, last, file, ph, at);
    }
    OutsideEverywhere(before, zeroed, at, at + End(ph) - Start(ph));
  }

  lemma ProtectedEverywhere(m: Memory, ph: Phdr, at: int)
    requires forall x :: at <= x < at + End(ph) - Start(ph) ==> ProtAt(m, x) == Some(ElfFlagsToMmapFlags(ph.flags))
    ensures SegmentProtected(m, ph, at)
  {
    hide ProtAt;
  }

  lemma MappedEverywhere(before: Memory, after: Memory, file: seq<Byte>, ph: Phdr, at: int)
    requires forall x :: SegmentMappedAt(before, after, file, ph, at, x)
    ensures SegmentMapped(before, after, file, ph, at)
  {
    hide SegmentMappedAt;
  }

  lemma OutsideEverywhere(before: Memory, after: Memory, lo: int, hi: int)
    requires forall x :: !(lo <= x < hi) ==> SameAt(before, after, x)
    ensures SameOutside(before, after, lo, hi)
  {
    hide SameAt;
  }

  lemma EndsOnPage(ph: Phdr, at: int)
    requires at % PAGE == 0
    ensures (at + End(ph) - Start(ph)) % PAGE == 0 && (at + BssMapStart(ph) - Start(ph)) % PAGE == 0
  {
    Rounding(ph.vaddr, ph.vaddr);
    Rounding(ph.vaddr + ph.filesz, ph.vaddr + ph.filesz);
    Rounding(ph.vaddr + ph.memsz, ph.vaddr + ph.memsz);
    hide RoundDown, RoundUp;
    SumAligned(at, End(ph), Start(ph));
    SumAligned(at, BssMapStart(ph), Start(ph));
  }


  /** Without zeros to add, the file pages are the segment. */
  lemma {:induction false} FilePagesAreSegment(before: Memory, mapped: Memory, file: seq<Byte>, ph: Phdr, at: int)
    requires FilePages(before, mapped, file, ph, at)
    ensures ph.filesz >= ph.memsz ==> SegmentMapped(before, mapped, file, ph, at)
    ensures SameOutside(before, mapped, at, at + End(ph) - Start(ph))
  {
    hide FileByte, ByteAt, ProtAt, Start, End;
    forall x ensures ph.filesz >= ph.memsz ==> SegmentMappedAt(before, mapped, file, ph, at, x)
             ensures !(at <= x < at + End(ph) - Start(ph)) ==> SameAt(before, mapped, x)
    {
      assert x - at + Start(ph) - Start(ph) == x - at;
    }
  }

  lemma {:induction false} SegmentRounding(ph: Phdr, base: Word32)
    requires ph.vaddr + ph.memsz <= TOP - PAGE && base % PAGE == 0
    ensures PageSizeRoundUp(Add32(ph.vaddr, ph.memsz)) == End(ph) && 0 <= Start(ph) <= End(ph) < TOP
    ensures Add32(base, Start(ph)) % PAGE == 0 && Start(ph) % PAGE == 0 && End(ph) % PAGE == 0
  {
    Rounding(ph.vaddr, ph.vaddr + ph.memsz);
    Rounding(ph.vaddr + ph.memsz, ph.vaddr + ph.memsz);
    assert Add32(ph.vaddr, ph.memsz) == ph.vaddr + ph.memsz;
    assert Add32(ph.vaddr + ph.memsz, PAGE - 1) == ph.vaddr + ph.memsz + (PAGE - 1);
    hide RoundDown;
    AddAligned(base, Start(ph));
  }

  /** All pages of a segment at `at` have its protection. */
  ghost predicate SegmentProtected(m: Memory, ph: Phdr, at: int) {
    forall x :: at <= x < at + End(ph) - Start(ph) ==> ProtAt(m, x) == Some(ElfFlagsToMmapFlags(ph.flags))
  }

  lemma MappedIsProtected(before: Memory, after: Memory, file: seq<Byte>, ph: Phdr, at: int)
    requires SegmentMapped(before, after, file, ph, at)
    ensures SegmentProtected(after, ph, at)
  {
    hide ByteAt, ProtAt, SegmentByte, Start, End;
    forall x | at <= x < at + End(ph) - Start(ph) ensures ProtAt(after, x) == Some(ElfFlagsToMmapFlags(ph.flags)) {
      assert SegmentMappedAt(before, after, file, ph, at, x);
    }
  }

  /** The addresses of a segment's pages. */
  function SegmentRange(ph: Phdr, base: Word32): set<int> {
    Range(Add32(base, Start(ph)), Add32(base, Start(ph)) + End(ph) - Start(ph))
  }

  /** A segment gets as far as its file pages being mapped. */
  predicate Accepted(ph: Phdr, base: Word32, prevEnd: int, grants: nat) {
    && prevEnd <= Start(ph) < End(ph)
    && Add32(base, Start(ph)) + End(ph) - Start(ph) <= TOP
    && grants > 0
  }

  /** The pages and the zeros of a segment are inside its range. */
  lemma {:induction false} RangesOfSegment(file: seq<Byte>, ph: Phdr, base: Word32)
    requires WellPlaced(file, ph) && base % PAGE == 0
    ensures Pages(Add32(base, Start(ph)), End(ph) - Start(ph)) == SegmentRange(ph, base)
    ensures ph.filesz < ph.memsz ==>
              var at := Add32(base, Start(ph));
              && Range(at + (ph.vaddr + ph.filesz - Start(ph)), at + (BssMapStart(ph) - Start(ph))) <= SegmentRange(ph, base)
              && Pages(at + (BssMapStart(ph) - Start(ph)), End(ph) - BssMapStart(ph)) <= SegmentRange(ph, base)
  {
    var at := Add32(base, Start(ph));
    SegmentRounding(ph, base);
    EndsOnPage(ph, at);
    RoundedAlready(at + End(ph) - Start(ph));
    if ph.filesz < ph.memsz {
      BssRounding(ph);
    }
    hide RoundUp, RoundDown, Start, End, BssMapStart, Add32, WellPlaced;
    assert at + (End(ph) - Start(ph)) == at + End(ph) - Start(ph);
    assert at + (BssMapStart(ph) - Start(ph)) + (End(ph) - BssMapStart(ph)) == at + End(ph) - Start(ph);
  }

  datatype Status = Mapped | Failed | Fault

  method MapSegment(space: AddressSpace, file: seq<Byte>, ph: Phdr, base: Word32, prevEnd: Word32) returns (status: Status)
    requires WellPlaced(file, ph) && base % PAGE == 0
    modifies space
    ensures var at := Add32(base, Start(ph));
            && (status == Mapped <==>
                  prevEnd <= Start(ph) && SegmentOk(ph) && at + End(ph) - Start(ph) <= TOP && old(space.grants) >= Calls(ph))
            && (status == Mapped ==> SegmentMapped(old(space.memory), space.memory, file, ph, at))
            && SameOutside(old(space.memory), space.memory, at, at + End(ph) - Start(ph))
    ensures status == Mapped ==> space.grants == old(space.grants) - Calls(ph)
    ensures var accepted := Accepted(ph, base, prevEnd, old(space.grants));
            && space.touched == old(space.touched) + (if accepted then SegmentRange(ph, base) else {})
            && (accepted ==> SegmentProtected(space.memory, ph, Add32(base, Start(ph))))
            && (!accepted ==> space.memory == old(space.memory))
    ensures status != Fault
  {
    hide WithFile, FileByte, ByteAt, ProtAt, HasBit, FilePages, SegmentMapped, SameOutside, RoundUp, RoundDown,
      Add32, PageSizeRoundUp, End, Calls, BssMapStart, SegmentProtected, SegmentRange, Range;
    RangesOfSegment(file, ph, base);
    SegmentRounding(ph, base);
    OneCallAtLeast(ph);
    var prot := ElfFlagsToMmapFlags(ph.flags);
    var segmentStart := PageSizeRoundDown(ph.vaddr);
    var segmentEnd := PageSizeRoundUp(Add32(ph.vaddr, ph.memsz));
    var at := Add32(base, segmentStart);
    SameOutsideItself(space.memory, at, at + End(ph) - Start(ph));
    if segmentStart < prevEnd {
      return Failed;
    }
    ghost var before := space.memory;
    var ok := space.MmapFile(at, segmentEnd - segmentStart, prot, file, PageSizeRoundDown(ph.offset));
    if !ok {
      return Failed;
    }
    MapsFilePages(before, file, ph, at);
    FilePagesAreSegment(before, space.memory, file, ph, at);
    FilePagesProtected(before, space.memory, file, ph, at);
    if ph.memsz < ph.filesz {
      return Failed;
    }
    if ph.memsz > ph.filesz {
      if !HasBit(ph.flags, 2) {
        return Failed;
      }
      status := MapBss(space, file, ph, base, before);
      return;
    }
    return Mapped;
  }

  lemma FilePagesProtected(before: Memory, mapped: Memory, file: seq<Byte>, ph: Phdr, at: int)
    requires FilePages(before, mapped, file, ph, at)
    ensures SegmentProtected(mapped, ph, at)
  {
    hide ByteAt, ProtAt, FileByte, Start, End;
  }

  lemma OneCallAtLeast(ph: Phdr)
    ensures Calls(ph) >= 1 && (ph.filesz >= ph.memsz ==> Calls(ph) == 1)
  {
  }

  lemma SameOutsideItself(m: Memory, lo: int, hi: int)
    ensures SameOutside(m, m, lo, hi)
  {
  }

  lemma Rounding(a: int, b: int)
    requires a <= b
    ensures RoundDown(a) % PAGE == 0 && RoundUp(a) % PAGE == 0
    ensures RoundDown(a) <= a <= RoundUp(a) < a + PAGE
    ensures RoundUp(a) <= RoundUp(b)
  {
  }

  lemma AddFurther(base: Word32, s: Word32, b: Word32)
    requires s <= b && Add32(base, s) + (b - s) < TOP
    ensures Add32(base, b) == Add32(base, s) + (b - s)
  {
  }

  lemma AddAligned(base: Word32, s: Word32)
    requires base % PAGE == 0 && s % PAGE == 0
    ensures Add32(base, s) % PAGE == 0
  {
  }

  lemma SumAligned(a: int, b: int, c: int)
    requires a % PAGE == 0 && b % PAGE == 0 && c % PAGE == 0
    ensures (a + b - c) % PAGE == 0
  {
  }

  /** Where the zeros of a segment are, at the place its pages are mapped. */
  lemma {:induction false} BssAddresses(ph: Phdr, base: Word32)
    requires ph.vaddr + ph.memsz <= TOP - PAGE && ph.filesz < ph.memsz && base % PAGE == 0
    requires Add32(base, Start(ph)) + End(ph) - Start(ph) <= TOP
    ensures var at, bssStart := Add32(base, Start(ph)), Add32(ph.vaddr, ph.filesz);
            && bssStart == ph.vaddr + ph.filesz && PageSizeRoundUp(bssStart) == BssMapStart(ph)
            && at % PAGE == 0
            && Add32(base, bssStart) == at + (bssStart - Start(ph))
            && 0 <= Start(ph) <= bssStart <= BssMapStart(ph) <= End(ph) < TOP
            && (BssMapStart(ph) < End(ph) ==>
                  && Add32(base, BssMapStart(ph)) == at + (BssMapStart(ph) - Start(ph))
                  && Add32(base, BssMapStart(ph)) % PAGE == 0)
  {
    BssRounding(ph);
    hide RoundDown, RoundUp, PageSizeRoundUp, Start, End, BssMapStart, Add32;
    AddAligned(base, Start(ph));
    AddFurther(base, Start(ph), ph.vaddr + ph.filesz);
    if BssMapStart(ph) < End(ph) {
      AddFurther(base, Start(ph), BssMapStart(ph));
      AddAligned(base, BssMapStart(ph));
    }
  }

  lemma {:induction false} BssRounding(ph: Phdr)
    requires ph.vaddr + ph.memsz <= TOP - PAGE && ph.filesz < ph.memsz
    ensures var bssStart := Add32(ph.vaddr, ph.filesz);
            && bssStart == ph.vaddr + ph.filesz && PageSizeRoundUp(bssStart) == BssMapStart(ph)
            && 0 <= Start(ph) <= bssStart <= BssMapStart(ph) <= End(ph) < TOP
            && Start(ph) % PAGE == 0 && BssMapStart(ph) % PAGE == 0 && bssStart < End(ph)
  {
    var f, e := ph.vaddr + ph.filesz, ph.vaddr + ph.memsz;
    assert Add32(f, PAGE - 1) == f + (PAGE - 1);
    Rounding(ph.vaddr, f);
    Rounding(f, e);
    Rounding(e, e);
    hide RoundDown;
  }

  lemma MappedKeepsOutside(before: Memory, after: Memory, file: seq<Byte>, ph: Phdr, at: int)
    requires SegmentMapped(before, after, file, ph, at)
    ensures SameOutside(before, after, at, at + End(ph) - Start(ph))
  {
    forall x | !(at <= x < at + End(ph) - Start(ph)) ensures SameAt(before, after, x) {
      assert SegmentMappedAt(before, after, file, ph, at, x);
    }
  }

  lemma PlacedBelowTop(file: seq<Byte>, ph: Phdr)
    requires WellPlaced(file, ph)
    ensures ph.vaddr + ph.memsz <= TOP - PAGE
  {
  }

  lemma TwoCallsForMorePages(ph: Phdr)
    requires ph.filesz < ph.memsz
    ensures Calls(ph) == if BssMapStart(ph) < End(ph) then 2 else 1
  {
  }

  /** The branch for a segment that is longer in memory than in the file. */
  method MapBss(space: AddressSpace, file: seq<Byte>, ph: Phdr, base: Word32, ghost before: Memory) returns (status: Status)
    requires WellPlaced(file, ph) && SegmentOk(ph) && ph.filesz < ph.memsz && base % PAGE == 0
    requires Add32(base, Start(ph)) + End(ph) - Start(ph) <= TOP
    requires FilePages(before, space.memory, file, ph, Add32(base, Start(ph)))
    requires SegmentRange(ph, base) <= space.touched
    modifies space
    ensures var at := Add32(base, Start(ph));
            && (status == Mapped <==> old(space.grants) >= Calls(ph) - 1)
            && (status == Mapped ==> SegmentMapped(before, space.memory, file, ph, at))
            && SameOutside(before, space.memory, at, at + End(ph) - Start(ph))
    ensures status == Mapped ==> space.grants == old(space.grants) - (Calls(ph) - 1)
    ensures space.touched == old(space.touched) && SegmentProtected(space.memory, ph, Add32(base, Start(ph)))
    ensures status != Fault
  {
    hide WithFile, WithZeroBytes, WithZeroPages, FileByte, ByteAt, ProtAt, HasBit, FilePages, Writable, SegmentMapped,
      SameOutside, SegmentOk, WellPlaced, RoundUp, RoundDown, Start, End, BssMapStart, PageSizeRoundUp, Add32, Calls,
      SegmentProtected, SegmentRange, Range, Pages;
    RangesOfSegment(file, ph, base);
    ghost var at, mapped := Add32(base, Start(ph)), space.memory;
    assert ph.vaddr + ph.memsz <= TOP - PAGE by {
      PlacedBelowTop(file, ph);
    }
    BssAddresses(ph, base);
    TwoCallsForMorePages(ph);
    var bssStart := Add32(ph.vaddr, ph.filesz);
    var bssMapStart := PageSizeRoundUp(bssStart);
    ghost var tail, pages := at + (bssStart - Start(ph)), at + (bssMapStart - Start(ph));
    forall x | tail <= x < pages ensures Writable(mapped, x) {
      TailIsWritable(before, mapped, file, ph, at, x);
    }
    CompletesSegment(before, mapped, file, ph, at, tail, pages);
    var ok := space.Memset(Add32(base, bssStart), bssMapStart - bssStart);
    if !ok {
      return Fault;
    }
    if bssMapStart < End(ph) {
      ok := space.MmapAnon(Add32(base, bssMapStart), End(ph) - bssMapStart, ElfFlagsToMmapFlags(ph.flags));
      if !ok {
        return Failed;
      }
    }
    MappedKeepsOutside(before, space.memory, file, ph, at);
    MappedIsProtected(before, space.memory, file, ph, at);
    return Mapped;
  }
}
