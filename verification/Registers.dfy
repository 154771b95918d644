/** The debugger's access to a thread's registers: a table of registers laid out one after the other,
    and updates of the saved context that keep what the debugger must not change. */
module Registers {
  import opened Util
  import opened Bits
  import opened PacketFields

  datatype RegType = General | ReadOnly | ArmTrustedPtr | ArmStatus | X86TrustedPtr | ReadOnlyZero

  datatype RegDef = RegDef(name: string, bytes: Word32, kind: RegType, index: nat, offset: Word32)

  const LOW28 := 0x1000_0000
  const LOW30 := 0x4000_0000

  const MASK28: Word32 := 0x0FFF_FFFF
  const MASK30: Word32 := 0x3FFF_FFFF
  const TOP4: Word32 := 0xF000_0000

  /** What the masks of the code do to a word. */
  lemma {:induction false} Masked(v: Word32)
    ensures And(v, MASK28) == v % LOW28 && And(v, MASK30) == v % LOW30 && And(v, TOP4) == v / LOW28 * LOW28
  {
    hide And, Pow2;
    Powers();
    AndLowBits(v, 28);
    AndLowBits(v, 30);
    AndHighBits(v, 28, 32);
    Quotient(v, LOW28);
  }

  /** The top bits of one word with the low bits of another. */
  lemma {:induction false} PutTogether(x: Word32, y: Word32)
    ensures Or(And(x, TOP4), And(y, MASK28)) == x / LOW28 * LOW28 + y % LOW28 < WORDS
  {
    hide And, Or, Pow2;
    Powers();
    Masked(x);
    Masked(y);
    TopAndLow(x, y);
    OrShifted(x / LOW28, y % LOW28, 28);
  }

  // ----- The layout -----

  function TotalBytes(defs: seq<RegDef>): nat {
    if defs == [] then 0 else TotalBytes(defs[..|defs| - 1]) + defs[|defs| - 1].bytes
  }

  /** Each register starts where the one before it ends. */
  predicate LaidOut(defs: seq<RegDef>) {
    forall i :: 0 <= i < |defs| ==> defs[i].index == i && defs[i].offset == TotalBytes(defs[..i])
  }

  /** What a table holds besides the layout. */
  predicate SameRegister(a: RegDef, b: RegDef) {
    a.name == b.name && a.bytes == b.bytes && a.kind == b.kind
  }

  lemma {:induction false} SameTotal(a: seq<RegDef>, b: seq<RegDef>)
    requires |a| == |b| && forall i :: 0 <= i < |a| ==> SameRegister(a[i], b[i])
    ensures TotalBytes(a) == TotalBytes(b)
  {
    if a != [] {
      SameTotal(a[..|a| - 1], b[..|b| - 1]);
    }
  }

  lemma TotalGrows(defs: seq<RegDef>, i: nat)
    requires i < |defs|
    ensures TotalBytes(defs[..i + 1]) == TotalBytes(defs[..i]) + defs[i].bytes
  {
    assert defs[..i + 1][..i] == defs[..i];
  }

  lemma {:induction false} TotalOfPrefix(defs: seq<RegDef>, i: nat, j: nat)
    requires i <= j <= |defs|
    ensures TotalBytes(defs[..i]) <= TotalBytes(defs[..j])
    decreases j
  {
    if i < j {
      TotalOfPrefix(defs, i, j - 1);
      TotalGrows(defs, j - 1);
    }
  }

  /** Gives the registers of a table their indexes and offsets, in 32 bits, and returns the size of a
      context. */
  method Register(regs: array<RegDef>) returns (ctxSize: Word32)
    modifies regs
    ensures ctxSize == TotalBytes(old(regs[..])) % WORDS
    ensures forall i :: 0 <= i < regs.Length ==> SameRegister(regs[i], old(regs[i]))
    ensures TotalBytes(old(regs[..])) < WORDS ==> LaidOut(regs[..])
  {
    hide TotalBytes, LaidOut;
    var offs: Word32 := 0;
    NothingTaken(regs[..]);
    ghost var before := regs[..];
    var loop := 0;
    while loop < regs.Length
      invariant 0 <= loop <= regs.Length && offs == TotalBytes(before[..loop]) % WORDS
      invariant forall i :: loop <= i < regs.Length ==> regs[i] == before[i]
      invariant forall i :: 0 <= i < loop ==>
                  SameRegister(regs[i], before[i]) && regs[i].index == i && regs[i].offset == TotalBytes(before[..i]) % WORDS
    {
      regs[loop] := regs[loop].(index := loop, offset := offs);
      TotalGrows(before, loop);
      ModAdds(TotalBytes(before[..loop]), before[loop].bytes);
      offs := (offs + regs[loop].bytes) % WORDS;
      loop := loop + 1;
    }
    assert before[..regs.Length] == before;
    LayoutFits(before, regs[..]);
    return offs;
  }

  lemma NothingTaken(defs: seq<RegDef>)
    ensures TotalBytes(defs[..0]) == 0
  {
  }

  lemma ModAdds(total: nat, bytes: nat)
    ensures (total % WORDS + bytes) % WORDS == (total + bytes) % WORDS
  {
  }

  lemma {:induction false} LayoutFits(before: seq<RegDef>, after: seq<RegDef>)
    requires |after| == |before|
    requires forall i :: 0 <= i < |after| ==>
               SameRegister(after[i], before[i]) && after[i].index == i && after[i].offset == TotalBytes(before[..i]) % WORDS
    ensures TotalBytes(before) < WORDS ==> LaidOut(after)
  {
    hide TotalBytes;
    if TotalBytes(before) < WORDS {
      forall i | 0 <= i < |after| ensures after[i].offset == TotalBytes(after[..i]) {
        WithoutOverflow(before, i);
        hide SameRegister;
        SameTotal(after[..i], before[..i]);
      }
    }
  }

  lemma WithoutOverflow(defs: seq<RegDef>, i: nat)
    requires i <= |defs| && TotalBytes(defs) < WORDS
    ensures TotalBytes(defs[..i]) % WORDS == TotalBytes(defs[..i])
  {
    assert defs[..|defs|] == defs;
    TotalOfPrefix(defs, i, |defs|);
    hide TotalBytes;
    Small(TotalBytes(defs[..i]), WORDS);
  }

  /** The registers do not overlap, and end inside the context. */
  lemma {:induction false} Disjoint(defs: seq<RegDef>, i: nat, j: nat)
    requires LaidOut(defs) && i < |defs| && j < |defs|
    ensures i < j ==> defs[i].offset + defs[i].bytes <= defs[j].offset
    ensures defs[i].offset + defs[i].bytes <= TotalBytes(defs)
  {
    TotalGrows(defs, i);
    TotalOfPrefix(defs, i + 1, |defs|);
    assert defs[..|defs|] == defs;
    if i < j {
      TotalOfPrefix(defs, i + 1, j);
    }
  }

  // ----- Parts of a context -----

  function Slice(s: seq<Byte>, d: RegDef): (r: seq<Byte>)
    requires d.offset + d.bytes <= |s|
    ensures |r| == d.bytes
  {
    s[d.offset..d.offset + d.bytes]
  }

  function Splice(s: seq<Byte>, at: nat, part: seq<Byte>): (r: seq<Byte>)
    requires at + |part| <= |s|
    ensures |r| == |s|
  {
    s[..at] + part + s[at + |part|..]
  }

  /** A part for each register. */
  predicate Fits(defs: seq<RegDef>, size: nat, parts: seq<seq<Byte>>) {
    && LaidOut(defs) && TotalBytes(defs) <= size && |parts| == |defs|
    && forall i :: 0 <= i < |defs| ==> |parts[i]| == defs[i].bytes && defs[i].offset + defs[i].bytes <= size
  }

  /** `s` with the parts of the first `n` registers put in place. */
  function Patched(defs: seq<RegDef>, s: seq<Byte>, parts: seq<seq<Byte>>, n: nat): (r: seq<Byte>)
    requires n <= |defs| && Fits(defs, |s|, parts)
    ensures |r| == |s|
  {
    if n == 0 then s else Splice(Patched(defs, s, parts, n - 1), defs[n - 1].offset, parts[n - 1])
  }

  /** A part put in the place of register `a` is read back there, and nowhere else. */
  lemma SplicedSlice(s: seq<Byte>, a: RegDef, part: seq<Byte>, b: RegDef)
    requires a.offset + a.bytes <= |s| && b.offset + b.bytes <= |s| && |part| == a.bytes
    ensures Slice(Splice(s, a.offset, part), a) == part
    ensures b.offset + b.bytes <= a.offset || a.offset + a.bytes <= b.offset ==>
              Slice(Splice(s, a.offset, part), b) == Slice(s, b)
  {
    var r := Splice(s, a.offset, part);
    assert forall k :: 0 <= k < a.offset ==> r[k] == s[k];
    assert forall k :: a.offset <= k < a.offset + a.bytes ==> r[k] == part[k - a.offset];
    assert forall k :: a.offset + a.bytes <= k < |s| ==> r[k] == s[k];
  }

  lemma FitsPart(defs: seq<RegDef>, size: nat, parts: seq<seq<Byte>>, i: nat)
    requires Fits(defs, size, parts) && i < |defs|
    ensures |parts[i]| == defs[i].bytes && defs[i].offset + defs[i].bytes <= size && LaidOut(defs)
  {
  }

  lemma {:induction false} PatchedStep(defs: seq<RegDef>, s: seq<Byte>, parts: seq<seq<Byte>>, n: nat, i: nat)
    requires n < |defs| && Fits(defs, |s|, parts) && i < |defs|
    ensures Slice(Patched(defs, s, parts, n + 1), defs[i])
         == if i == n then parts[i] else Slice(Patched(defs, s, parts, n), defs[i])
  {
    FitsPart(defs, |s|, parts, n);
    FitsPart(defs, |s|, parts, i);
    hide Splice, TotalBytes, LaidOut, Slice, Fits;
    if i < n {
      Disjoint(defs, i, n);
    } else if i > n {
      Disjoint(defs, n, i);
    }
    SplicedSlice(Patched(defs, s, parts, n), defs[n], parts[n], defs[i]);
  }

  lemma {:induction false} PatchedPart(defs: seq<RegDef>, s: seq<Byte>, parts: seq<seq<Byte>>, n: nat, i: nat)
    requires n <= |defs| && Fits(defs, |s|, parts) && i < |defs|
    ensures Slice(Patched(defs, s, parts, n), defs[i]) == if i < n then parts[i] else Slice(s, defs[i])
    decreases n
  {
    if n > 0 {
      hide Splice, TotalBytes, LaidOut, Patched, Slice, Fits;
      PatchedPart(defs, s, parts, n - 1, i);
      PatchedStep(defs, s, parts, n - 1, i);
    } else {
      hide TotalBytes, LaidOut, Slice;
    }
  }

  lemma {:induction false} PatchedRest(defs: seq<RegDef>, s: seq<Byte>, parts: seq<seq<Byte>>, n: nat)
    requires n <= |defs| && Fits(defs, |s|, parts)
    ensures Patched(defs, s, parts, n)[TotalBytes(defs)..] == s[TotalBytes(defs)..]
  {
    if n > 0 {
      PatchedRest(defs, s, parts, n - 1);
      FitsPart(defs, |s|, parts, n - 1);
      Disjoint(defs, n - 1, n - 1);
      hide Splice, LaidOut, TotalBytes, Fits;
      SplicedRest(Patched(defs, s, parts, n - 1), defs[n - 1].offset, parts[n - 1], TotalBytes(defs));
    }
  }

  lemma SplicedRest(s: seq<Byte>, at: nat, part: seq<Byte>, end: nat)
    requires at + |part| <= end <= |s|
    ensures Splice(s, at, part)[end..] == s[end..]
  {
    assert forall k :: end <= k < |s| ==> Splice(s, at, part)[k] == s[k];
    hide Splice;
  }

  lemma SplicedWithItself(s: seq<Byte>, d: RegDef)
    requires d.offset + d.bytes <= |s|
    ensures Splice(s, d.offset, Slice(s, d)) == s
  {
  }

  /** The upper half of eight bytes stays if only the lower is put in place. */
  lemma SplicedLowerHalf(s: seq<Byte>, d: RegDef, low: seq<Byte>)
    requires d.offset + d.bytes <= |s| && d.bytes == 8 && |low| == 4
    ensures Splice(s, d.offset, low) == Splice(s, d.offset, low + Slice(s, d)[4..])
  {
    var a, b := Splice(s, d.offset, low), Splice(s, d.offset, low + Slice(s, d)[4..]);
    assert forall k :: 0 <= k < |s| ==> a[k] == b[k];
  }

  lemma {:induction false} PatchedWithItself(defs: seq<RegDef>, s: seq<Byte>, parts: seq<seq<Byte>>, n: nat)
    requires n <= |defs| && Fits(defs, |s|, parts) && forall i :: 0 <= i < |defs| ==> parts[i] == Slice(s, defs[i])
    ensures Patched(defs, s, parts, n) == s
  {
    hide Splice, Slice, LaidOut, TotalBytes;
    if n > 0 {
      PatchedWithItself(defs, s, parts, n - 1);
      SplicedWithItself(s, defs[n - 1]);
    }
  }

  // ----- What the debugger sees and may set -----

  /** The sizes that the special registers must have; anything else stops the program. */
  predicate Checked(d: RegDef) {
    && ((d.kind.ArmTrustedPtr? || d.kind.ArmStatus?) ==> d.bytes == 4)
    && (d.kind.X86TrustedPtr? ==> d.bytes == 8)
  }

  predicate Table(defs: seq<RegDef>, size: nat) {
    LaidOut(defs) && TotalBytes(defs) <= size && forall d :: d in defs ==> Checked(d) && d.offset + d.bytes <= size
  }

  predicate IsZero(buf: seq<Byte>) {
    forall i :: 0 <= i < |buf| ==> buf[i] == 0
  }

  /** The part of a register that is given to the debugger. */
  function Shown(d: RegDef, current: seq<Byte>): (r: seq<Byte>)
    requires |current| == d.bytes && Checked(d)
    ensures |r| == d.bytes
  {
    match d.kind
    case ReadOnlyZero => Repeat(0, d.bytes)
    case ArmStatus => LeBytes(FromLe(current) / LOW28 * LOW28, 4)
    case _ => current
  }

  /** Whether the debugger may ask for `new` bytes. */
  predicate Allowed(d: RegDef, current: seq<Byte>, wanted: seq<Byte>)
    requires |current| == |wanted| == d.bytes && Checked(d)
  {
    match d.kind
    case ReadOnly => wanted == current
    case ReadOnlyZero => wanted == current || IsZero(wanted)
    case ArmTrustedPtr => FromLe(wanted) < LOW30
    case ArmStatus => FromLe(wanted) % LOW28 == 0
    case X86TrustedPtr => wanted[4..] == current[4..] || IsZero(wanted[4..])
    case General => true
  }

  /** What the register is then. */
  function Updated(d: RegDef, current: seq<Byte>, wanted: seq<Byte>): (r: seq<Byte>)
    requires |current| == |wanted| == d.bytes && Checked(d)
    ensures |r| == d.bytes
  {
    match d.kind
    case ReadOnly => current
    case ReadOnlyZero => current
    case X86TrustedPtr => wanted[..4] + current[4..]
    case ArmStatus => LeBytes(FromLe(wanted) / LOW28 * LOW28 + FromLe(current) % LOW28, 4)
    case _ => wanted
  }

  function ShownParts(defs: seq<RegDef>, context: seq<Byte>): (parts: seq<seq<Byte>>)
    requires Table(defs, |context|)
    ensures forall size :: Table(defs, size) ==> Fits(defs, size, parts)
  {
    seq(|defs|, i requires 0 <= i < |defs| => Shown(defs[i], Slice(context, defs[i])))
  }

  function UpdatedParts(defs: seq<RegDef>, context: seq<Byte>, src: seq<Byte>): (parts: seq<seq<Byte>>)
    requires Table(defs, |context|) && Table(defs, |src|)
    ensures Fits(defs, |context|, parts)
  {
    seq(|defs|, i requires 0 <= i < |defs| => Updated(defs[i], Slice(context, defs[i]), Slice(src, defs[i])))
  }

  predicate AllAllowed(defs: seq<RegDef>, context: seq<Byte>, src: seq<Byte>)
    requires Table(defs, |context|) && Table(defs, |src|)
  {
    AllowedUpTo(defs, context, src, |defs|)
  }

  predicate AllowedUpTo(defs: seq<RegDef>, context: seq<Byte>, src: seq<Byte>, n: nat)
    requires Table(defs, |context|) && Table(defs, |src|) && n <= |defs|
  {
    forall i :: 0 <= i < n ==> Allowed(defs[i], Slice(context, defs[i]), Slice(src, defs[i]))
  }

  lemma AllowedNext(defs: seq<RegDef>, context: seq<Byte>, src: seq<Byte>, n: nat)
    requires Table(defs, |context|) && Table(defs, |src|) && n < |defs|
    ensures Checked(defs[n]) && defs[n].offset + defs[n].bytes <= |context| && defs[n].offset + defs[n].bytes <= |src|
    ensures AllowedUpTo(defs, context, src, n + 1)
       <==> AllowedUpTo(defs, context, src, n) && Allowed(defs[n], Slice(context, defs[n]), Slice(src, defs[n]))
    ensures AllAllowed(defs, context, src) ==> AllowedUpTo(defs, context, src, n + 1)
  {
    AtRegister(defs, |context|, n);
    AtRegister(defs, |src|, n);
    hide Allowed, Slice, LaidOut, Checked;
  }

  lemma AtRegister(defs: seq<RegDef>, size: nat, i: nat)
    requires Table(defs, size) && i < |defs|
    ensures Checked(defs[i]) && defs[i].offset + defs[i].bytes <= size
  {
    assert defs[i] in defs;
  }

  lemma AllowedToTheEnd(defs: seq<RegDef>, context: seq<Byte>, src: seq<Byte>)
    requires Table(defs, |context|) && Table(defs, |src|)
    ensures AllAllowed(defs, context, src) <==> AllowedUpTo(defs, context, src, |defs|)
  {
  }

  lemma SliceOf(s: seq<Byte>, d: RegDef)
    requires d.offset + d.bytes <= |s|
    ensures Slice(s, d) == s[d.offset..d.offset + d.bytes]
  {
  }

  lemma StartsUnpatched(defs: seq<RegDef>, s: seq<Byte>, parts: seq<seq<Byte>>)
    requires Fits(defs, |s|, parts)
    ensures Patched(defs, s, parts, 0) == s
  {
  }

  lemma PatchedNext(defs: seq<RegDef>, s: seq<Byte>, parts: seq<seq<Byte>>, n: nat)
    requires n < |defs| && Fits(defs, |s|, parts)
    ensures |parts[n]| == defs[n].bytes && defs[n].offset + defs[n].bytes <= |s|
    ensures Patched(defs, s, parts, n + 1) == Splice(Patched(defs, s, parts, n), defs[n].offset, parts[n])
  {
  }

  /** A buffer after the registers have been read into it. */
  function Gotten(defs: seq<RegDef>, context: seq<Byte>, dst: seq<Byte>): (r: seq<Byte>)
    requires Table(defs, |context|) && Table(defs, |dst|)
    ensures |r| == |dst|
  {
    Patched(defs, dst, ShownParts(defs, context), |defs|)
  }

  /** The context after an attempt to set the registers. */
  function AfterSet(defs: seq<RegDef>, context: seq<Byte>, src: seq<Byte>): (r: seq<Byte>)
    requires Table(defs, |context|) && Table(defs, |src|)
    ensures |r| == |context|
  {
    if AllAllowed(defs, context, src) then Patched(defs, context, UpdatedParts(defs, context, src), |defs|) else context
  }

  /** A thread under the debugger. */
  class Thread {
    const abi: seq<RegDef>
    const context: array<Byte>

    ghost predicate Valid()
      reads context
    {
      Table(abi, context.Length)
    }

    constructor (abi: seq<RegDef>, context: array<Byte>)
      requires Table(abi, context.Length)
      ensures this.abi == abi && this.context == context && Valid()
    {
      this.abi := abi;
      this.context := context;
    }

    method GetRegisters(dst: array<Byte>)
      requires Valid() && Table(abi, dst.Length) && dst != context
      modifies dst
      ensures dst[..] == Gotten(abi, context[..], old(dst[..]))
    {
      hide Table, Fits, Patched, Splice, Slice, Shown;
      ghost var parts, before := ShownParts(abi, context[..]), dst[..];
      var a := 0;
      StartsUnpatched(abi, before, parts);
      while a < |abi|
        invariant 0 <= a <= |abi| && dst[..] == Patched(abi, before, parts, a)
      {
        AtRegister(abi, context.Length, a);
        AtRegister(abi, dst.Length, a);
        PatchedNext(abi, before, parts, a);
        ShowRegister(abi[a], dst);
        a := a + 1;
      }
    }

    /** Gives one register to the debugger. */
    method ShowRegister(reg: RegDef, dst: array<Byte>)
      requires Checked(reg) && reg.offset + reg.bytes <= dst.Length && reg.offset + reg.bytes <= context.Length
      requires dst != context
      modifies dst
      ensures dst[..] == Splice(old(dst[..]), reg.offset, Shown(reg, Slice(context[..], reg)))
    {
      SliceOf(context[..], reg);
      hide Splice, Slice, And, FromLe, LeBytes;
      if reg.kind.ReadOnlyZero? {
        CopyTo(dst, reg.offset, Repeat(0, reg.bytes));
      } else if reg.kind.ArmStatus? {
        var value := LoadWord(context, reg.offset);
        Masked(value);
        CopyTo(dst, reg.offset, LeBytes(And(value, TOP4), 4));
      } else {
        CopyTo(dst, reg.offset, context[reg.offset..reg.offset + reg.bytes]);
      }
    }

    method SetRegisters(src: array<Byte>) returns (ok: bool)
      requires Valid() && Table(abi, src.Length) && src != context
      modifies context
      ensures ok <==> AllAllowed(abi, old(context[..]), src[..])
      ensures context[..] == AfterSet(abi, old(context[..]), src[..])
    {
      hide Table, AllAllowed, Patched;
      ok := Validate(src);
      if ok {
        UpdateAll(src);
      }
    }

    method UpdateAll(src: array<Byte>)
      requires Valid() && Table(abi, src.Length) && src != context
      modifies context
      ensures context[..] == Patched(abi, old(context[..]), UpdatedParts(abi, old(context[..]), src[..]), |abi|)
    {
      hide Table, Fits, Patched, Splice, Slice, Updated;
      ghost var before, wanted := context[..], src[..];
      ghost var parts := UpdatedParts(abi, before, wanted);
      var a := 0;
      StartsUnpatched(abi, before, parts);
      while a < |abi|
        invariant 0 <= a <= |abi| && src[..] == wanted && context[..] == Patched(abi, before, parts, a)
      {
        AtRegister(abi, context.Length, a);
        AtRegister(abi, src.Length, a);
        PatchedNext(abi, before, parts, a);
        PatchedPart(abi, before, parts, a, a);
        UpdateRegister(abi[a], src);
        a := a + 1;
      }
    }

    /** Puts one register in place. */
    method UpdateRegister(reg: RegDef, src: array<Byte>)
      requires Checked(reg) && reg.offset + reg.bytes <= src.Length && reg.offset + reg.bytes <= context.Length
      modifies context
      requires src != context
      ensures context[..] == Splice(old(context[..]), reg.offset, Updated(reg, Slice(old(context[..]), reg), Slice(src[..], reg)))
    {
      ghost var before := context[..];
      SliceOf(before, reg);
      SliceOf(src[..], reg);
      hide Splice, Slice, And, Or, FromLe, LeBytes;
      if reg.kind.ReadOnly? || reg.kind.ReadOnlyZero? {
        SplicedWithItself(before, reg);
      } else if reg.kind.X86TrustedPtr? {
        LowerHalf(src[..], reg);
        SplicedLowerHalf(before, reg, src[reg.offset..reg.offset + 4]);
        CopyTo(context, reg.offset, src[reg.offset..reg.offset + 4]);
      } else if reg.kind.ArmStatus? {
        var newVal := LoadWord(src, reg.offset);
        var curVal := LoadWord(context, reg.offset);
        PutTogether(newVal, curVal);
        CopyTo(context, reg.offset, LeBytes(Or(And(newVal, TOP4), And(curVal, MASK28)), 4));
      } else {
        CopyTo(context, reg.offset, src[reg.offset..reg.offset + reg.bytes]);
      }
    }

    /** Validates all registers before any is changed. */
    method Validate(src: array<Byte>) returns (ok: bool)
      requires Valid() && Table(abi, src.Length)
      ensures ok <==> AllAllowed(abi, context[..], src[..])
    {
      hide Table, Slice, Allowed, AllAllowed;
      ok := true;
      var a := 0;
      assert AllowedUpTo(abi, context[..], src[..], 0);
      hide AllowedUpTo;
      while a < |abi|
        invariant 0 <= a <= |abi| && AllowedUpTo(abi, context[..], src[..], a)
      {
        var reg := abi[a];
        AllowedNext(abi, context[..], src[..], a);
        ok := ValidateRegister(reg, src);
        if !ok {
          return;
        }
        a := a + 1;
      }
      assert AllAllowed(abi, context[..], src[..]) by {
        AllowedToTheEnd(abi, context[..], src[..]);
      }
    }

    /** Validates one register. */
    method ValidateRegister(reg: RegDef, src: array<Byte>) returns (valid: bool)
      requires Checked(reg) && reg.offset + reg.bytes <= src.Length && reg.offset + reg.bytes <= context.Length
      ensures valid <==> Allowed(reg, Slice(context[..], reg), Slice(src[..], reg))
    {
      SliceOf(context[..], reg);
      SliceOf(src[..], reg);
      AllowedByMasks(reg, Slice(context[..], reg), Slice(src[..], reg));
      hide Slice, And, FromLe, IsZero, Allowed;
      valid := true;
      match reg.kind
      case General =>
      case ReadOnly =>
        var diff := MemCmp(src, context, reg.offset, reg.bytes);
        valid := diff == 0;
      case ReadOnlyZero =>
        valid := UnchangedOrZero(src, reg.offset, reg.bytes);
      case ArmTrustedPtr =>
        var newVal := LoadWord(src, reg.offset);
        valid := And(newVal, MASK30) == newVal;
      case ArmStatus =>
        var newVal := LoadWord(src, reg.offset);
        valid := And(newVal, MASK28) == 0;
      case X86TrustedPtr =>
        UpperHalf(src[..], reg);
        UpperHalf(context[..], reg);
        valid := UnchangedOrZero(src, reg.offset + 4, 4);
    }

    method UnchangedOrZero(src: array<Byte>, at: nat, n: nat) returns (valid: bool)
      requires at + n <= src.Length && at + n <= context.Length
      ensures valid <==> src[at..at + n] == context[at..at + n] || IsZero(src[at..at + n])
    {
      hide IsZero;
      var diff := MemCmp(src, context, at, n);
      valid := diff == 0;
      if !valid {
        valid := AllZero(src, at, n);
      }
    }

    /** Clears the top two bits of the stack pointer of an ARM context. */
    method MaskSPRegister()
      requires Valid() && |abi| > 13 && abi[13].bytes == 4 && abi[13].name == "sp"
      modifies context
      ensures context[..] == Splice(old(context[..]), abi[13].offset, LeBytes(FromLe(Slice(old(context[..]), abi[13])) % LOW30, 4))
    {
      hide Splice, And, FromLe, LeBytes;
      var reg := abi[13];
      var value := LoadWord(context, reg.offset);
      Masked(value);
      CopyTo(context, reg.offset, LeBytes(And(value, MASK30), 4));
    }
  }

  /** The checks as the code makes them. */
  lemma {:induction false} AllowedByMasks(d: RegDef, current: seq<Byte>, wanted: seq<Byte>)
    requires |current| == |wanted| == d.bytes && Checked(d)
    ensures Allowed(d, current, wanted) <==>
            match d.kind
            case General => true
            case ReadOnly => wanted == current
            case ReadOnlyZero => wanted == current || IsZero(wanted)
            case ArmTrustedPtr => And(FromLe(wanted), MASK30) == FromLe(wanted)
            case ArmStatus => And(FromLe(wanted), MASK28) == 0
            case X86TrustedPtr => wanted[4..] == current[4..] || IsZero(wanted[4..])
  {
    hide And, FromLe, IsZero;
    if d.kind.ArmTrustedPtr? || d.kind.ArmStatus? {
      FourBytes(wanted);
      Masked(FromLe(wanted));
      BelowMask(FromLe(wanted));
    }
  }

  lemma BelowMask(v: Word32)
    ensures v % LOW30 == v <==> v < LOW30
  {
  }

  lemma UpperHalf(s: seq<Byte>, d: RegDef)
    requires d.bytes == 8 && d.offset + 8 <= |s|
    ensures Slice(s, d)[4..] == s[d.offset + 4..d.offset + 4 + 4]
  {
  }

  lemma LowerHalf(s: seq<Byte>, d: RegDef)
    requires d.bytes == 8 && d.offset + 8 <= |s|
    ensures Slice(s, d)[..4] == s[d.offset..d.offset + 4]
  {
  }

  /** The 32-bit integer stored at `at`. */
  method LoadWord(buf: array<Byte>, at: nat) returns (value: Word32)
    requires at + 4 <= buf.Length
    ensures value == FromLe(buf[at..at + 4])
  {
    FourBytes(buf[at..at + 4]);
    value := FromLe(buf[at..at + 4]);
  }

  /** The difference of the first bytes that differ. */
  method MemCmp(a: array<Byte>, b: array<Byte>, at: nat, n: nat) returns (diff: int)
    requires at + n <= a.Length && at + n <= b.Length
    ensures diff == 0 <==> a[at..at + n] == b[at..at + n]
  {
    var i := 0;
    while i < n
      invariant 0 <= i <= n && forall k :: at <= k < at + i ==> a[k] == b[k]
    {
      if a[at + i] != b[at + i] {
        assert a[at..at + n][i] != b[at..at + n][i];
        return a[at + i] as int - b[at + i] as int;
      }
      i := i + 1;
    }
    return 0;
  }

  method AllZero(buf: array<Byte>, at: nat, size: nat) returns (zero: bool)
    requires at + size <= buf.Length
    ensures zero <==> IsZero(buf[at..at + size])
  {
    var i := 0;
    while i < size
      invariant 0 <= i <= size && forall k :: at <= k < at + i ==> buf[k] == 0
    {
      if buf[at + i] != 0 {
        assert buf[at..at + size][i] != 0;
        return false;
      }
      i := i + 1;
    }
    return true;
  }

  method CopyTo(dst: array<Byte>, at: nat, part: seq<Byte>)
    requires at + |part| <= dst.Length
    modifies dst
    ensures dst[..] == Splice(old(dst[..]), at, part)
  {
    ghost var before := dst[..];
    var i := 0;
    while i < |part|
      invariant 0 <= i <= |part|
      invariant forall k :: 0 <= k < dst.Length ==> dst[k] == if at <= k < at + i then part[k - at] else before[k]
    {
      dst[at + i] := part[i];
      i := i + 1;
    }
  }

  // ----- What any number of calls keeps -----

  lemma {:induction false} LeBytesOfValue(b: seq<Byte>)
    ensures LeBytes(FromLe(b), |b|) == b
    decreases |b|
  {
    if b != [] {
      LeBytesOfValue(b[1..]);
      LowestByte(b[0], FromLe(b[1..]));
    }
  }

  lemma LowestByte(low: Byte, high: nat)
    ensures (low + 256 * high) % 256 == low && (low + 256 * high) / 256 == high
  {
  }

  lemma FourBytes(b: seq<Byte>)
    requires |b| == 4
    ensures FromLe(b) < WORDS && LeBytes(FromLe(b), 4) == b
  {
    LeBytesOfValue(b);
    assert FromLe(b[3..]) < 256;
    assert FromLe(b[2..]) == b[2] as int + 256 * FromLe(b[2..][1..]) && b[2..][1..] == b[3..];
    assert FromLe(b[1..]) == b[1] as int + 256 * FromLe(b[1..][1..]) && b[1..][1..] == b[2..];
  }

  lemma ValueOfFourBytes(v: Word32)
    ensures FromLe(LeBytes(v, 4)) == v
  {
    assert Pow256(2) == 0x1_0000 && Pow256(4) == WORDS;
    LeBytesReadBack(v, 4);
  }

  /** What of a register the debugger must not change. */
  function Protected(d: RegDef, bytes: seq<Byte>): seq<int>
    requires |bytes| == d.bytes && Checked(d)
  {
    match d.kind
    case ReadOnly => bytes
    case ReadOnlyZero => bytes
    case X86TrustedPtr => bytes[4..]
    case ArmStatus => [FromLe(bytes) % LOW28]
    case _ => []
  }

  lemma {:induction false} UpdatedKeepsProtected(d: RegDef, current: seq<Byte>, wanted: seq<Byte>)
    requires |current| == |wanted| == d.bytes && Checked(d)
    ensures Protected(d, Updated(d, current, wanted)) == Protected(d, current)
  {
    if d.kind.ArmStatus? {
      FourBytes(wanted);
      TopAndLow(FromLe(wanted), FromLe(current));
      ValueOfFourBytes(FromLe(wanted) / LOW28 * LOW28 + FromLe(current) % LOW28);
    }
  }

  lemma TopAndLow(x: Word32, y: nat)
    ensures var v := x / LOW28 * LOW28 + y % LOW28; v < WORDS && v % LOW28 == y % LOW28
  {
  }

  predicate AllTables(defs: seq<RegDef>, srcs: seq<seq<Byte>>) {
    forall src :: src in srcs ==> Table(defs, |src|)
  }

  /** The context after attempts to set the registers, one after the other. */
  function AfterSets(defs: seq<RegDef>, context: seq<Byte>, srcs: seq<seq<Byte>>): (r: seq<Byte>)
    requires Table(defs, |context|) && AllTables(defs, srcs)
    ensures |r| == |context|
  {
    if srcs == [] then context
    else
      assert srcs[|srcs| - 1] in srcs;
      AfterSet(defs, AfterSets(defs, context, srcs[..|srcs| - 1]), srcs[|srcs| - 1])
  }

  /** Each register after one call: the update if all are allowed, else as it was. */
  lemma {:induction false} SetSlice(defs: seq<RegDef>, context: seq<Byte>, src: seq<Byte>, i: nat)
    requires Table(defs, |context|) && Table(defs, |src|) && i < |defs|
    ensures Checked(defs[i]) && defs[i].offset + defs[i].bytes <= |context| && defs[i].offset + defs[i].bytes <= |src|
    ensures Slice(AfterSet(defs, context, src), defs[i])
         == if AllAllowed(defs, context, src) then Updated(defs[i], Slice(context, defs[i]), Slice(src, defs[i]))
            else Slice(context, defs[i])
    ensures AfterSet(defs, context, src)[TotalBytes(defs)..] == context[TotalBytes(defs)..]
  {
    AtRegister(defs, |context|, i);
    AtRegister(defs, |src|, i);
    var parts := UpdatedParts(defs, context, src);
    hide AllAllowed, Patched, Fits;
    PatchedPart(defs, context, parts, |defs|, i);
    PatchedRest(defs, context, parts, |defs|);
  }

  /** Over any calls with any bytes: read-only registers, the upper half of an x86-64 trusted pointer,
      the low 28 bits of an ARM status register and what is behind the registers never change. */
  lemma {:induction false} ProtectedNeverChanges(defs: seq<RegDef>, context: seq<Byte>, srcs: seq<seq<Byte>>, i: nat)
    requires Table(defs, |context|) && AllTables(defs, srcs) && i < |defs|
    ensures Checked(defs[i]) && defs[i].offset + defs[i].bytes <= |context|
    ensures Protected(defs[i], Slice(AfterSets(defs, context, srcs), defs[i])) == Protected(defs[i], Slice(context, defs[i]))
    ensures AfterSets(defs, context, srcs)[TotalBytes(defs)..] == context[TotalBytes(defs)..]
    decreases |srcs|
  {
    AtRegister(defs, |context|, i);
    if srcs != [] {
      var front, last := srcs[..|srcs| - 1], srcs[|srcs| - 1];
      assert last in srcs;
      var before := AfterSets(defs, context, front);
      ProtectedNeverChanges(defs, context, front, i);
      SetSlice(defs, before, last, i);
      UpdatedKeepsProtected(defs[i], Slice(before, defs[i]), Slice(last, defs[i]));
    }
  }

  // ----- What is read can be written back -----

  lemma {:induction false} ShownAllowed(d: RegDef, current: seq<Byte>)
    requires |current| == d.bytes && Checked(d)
    ensures Allowed(d, current, Shown(d, current)) <==> (d.kind.ArmTrustedPtr? ==> FromLe(current) < LOW30)
    ensures Updated(d, current, Shown(d, current)) == current
  {
    if d.kind.ArmStatus? {
      FourBytes(current);
      TopOnly(FromLe(current));
      ValueOfFourBytes(FromLe(current) / LOW28 * LOW28);
    }
  }

  lemma TopOnly(x: Word32)
    ensures x / LOW28 * LOW28 < WORDS && x / LOW28 * LOW28 % LOW28 == 0
    ensures x / LOW28 * LOW28 / LOW28 * LOW28 + x % LOW28 == x
  {
  }

  lemma {:induction false} GottenSlice(defs: seq<RegDef>, context: seq<Byte>, dst: seq<Byte>, i: nat)
    requires Table(defs, |context|) && Table(defs, |dst|) && i < |defs|
    ensures Checked(defs[i]) && defs[i].offset + defs[i].bytes <= |context| && defs[i].offset + defs[i].bytes <= |dst|
    ensures Slice(Gotten(defs, context, dst), defs[i]) == Shown(defs[i], Slice(context, defs[i]))
  {
    AtRegister(defs, |context|, i);
    AtRegister(defs, |dst|, i);
    hide Patched, Fits;
    PatchedPart(defs, dst, ShownParts(defs, context), |defs|, i);
  }

  predicate PointersMasked(defs: seq<RegDef>, context: seq<Byte>)
    requires Table(defs, |context|)
  {
    forall i :: 0 <= i < |defs| && defs[i].kind.ArmTrustedPtr? ==> FromLe(Slice(context, defs[i])) < LOW30
  }

  /** What has been read is accepted back exactly if the ARM trusted pointers have their top two bits
      clear; the context is then, and in any case, as it was. */
  lemma {:induction false} ReadBackAccepted(defs: seq<RegDef>, context: seq<Byte>, dst: seq<Byte>)
    requires Table(defs, |context|) && Table(defs, |dst|)
    ensures AllAllowed(defs, context, Gotten(defs, context, dst)) <==> PointersMasked(defs, context)
    ensures AfterSet(defs, context, Gotten(defs, context, dst)) == context
  {
    hide Patched, Fits, Allowed, Shown, Updated, Slice, Table, Gotten;
    var src := Gotten(defs, context, dst);
    forall i | 0 <= i < |defs|
      ensures Checked(defs[i]) && defs[i].offset + defs[i].bytes <= |context| && defs[i].offset + defs[i].bytes <= |src|
      ensures Allowed(defs[i], Slice(context, defs[i]), Slice(src, defs[i]))
         <==> (defs[i].kind.ArmTrustedPtr? ==> FromLe(Slice(context, defs[i])) < LOW30)
      ensures Updated(defs[i], Slice(context, defs[i]), Slice(src, defs[i])) == Slice(context, defs[i])
    {
      GottenSlice(defs, context, dst, i);
      ShownAllowed(defs[i], Slice(context, defs[i]));
    }
    PatchedWithItself(defs, context, UpdatedParts(defs, context, src), |defs|);
  }

  lemma {:induction false} UpdatedShows(d: RegDef, current: seq<Byte>, wanted: seq<Byte>)
    requires |current| == |wanted| == d.bytes && Checked(d) && Allowed(d, current, wanted)
    ensures var got := Shown(d, Updated(d, current, wanted));
            match d.kind
            case ReadOnlyZero => IsZero(got)
            case X86TrustedPtr => got == wanted[..4] + current[4..]
            case _ => got == wanted
  {
    if d.kind.ArmStatus? {
      FourBytes(wanted);
      TopAndLow(FromLe(wanted), FromLe(current));
      ValueOfFourBytes(FromLe(wanted) / LOW28 * LOW28 + FromLe(current) % LOW28);
      TopAgain(FromLe(wanted), FromLe(current));
    }
  }

  lemma TopAgain(x: Word32, y: nat)
    requires x % LOW28 == 0
    ensures (x / LOW28 * LOW28 + y % LOW28) / LOW28 * LOW28 == x
  {
  }

  /** What has been set with success is read back, but for hidden registers, which read as zero, and
      the upper half of an x86-64 trusted pointer, which is the old one. */
  lemma {:induction false} SetReadsBack(defs: seq<RegDef>, context: seq<Byte>, src: seq<Byte>, dst: seq<Byte>, i: nat)
    requires Table(defs, |context|) && Table(defs, |src|) && Table(defs, |dst|) && i < |defs|
    requires AllAllowed(defs, context, src)
    ensures defs[i].offset + defs[i].bytes <= |context| && defs[i].offset + defs[i].bytes <= |src|
    ensures defs[i].offset + defs[i].bytes <= |dst| && Checked(defs[i])
    ensures var d := defs[i];
            var got := Slice(Gotten(defs, AfterSet(defs, context, src), dst), d);
            match d.kind
            case ReadOnlyZero => IsZero(got)
            case X86TrustedPtr => got == Slice(src, d)[..4] + Slice(context, d)[4..]
            case _ => got == Slice(src, d)
  {
    SetSlice(defs, context, src, i);
    assert Allowed(defs[i], Slice(context, defs[i]), Slice(src, defs[i]));
    hide Table, Slice, Gotten, AfterSet, Allowed, Shown, Updated, IsZero;
    GottenSlice(defs, AfterSet(defs, context, src), dst, i);
    UpdatedShows(defs[i], Slice(context, defs[i]), Slice(src, defs[i]));
  }

  /** Two contexts that the debugger must not tell apart: equal but for hidden registers and the low
      28 bits of a status register. */
  predicate LookAlike(defs: seq<RegDef>, a: seq<Byte>, b: seq<Byte>)
    requires Table(defs, |a|) && Table(defs, |b|)
  {
    forall i :: 0 <= i < |defs| ==>
      match defs[i].kind
      case ReadOnlyZero => true
      case ArmStatus => FromLe(Slice(a, defs[i])) / LOW28 == FromLe(Slice(b, defs[i])) / LOW28
      case _ => Slice(a, defs[i]) == Slice(b, defs[i])
  }

  /** The hidden parts do not show. */
  lemma {:induction false} HiddenDoesNotShow(defs: seq<RegDef>, a: seq<Byte>, b: seq<Byte>, dst: seq<Byte>)
    requires Table(defs, |a|) && Table(defs, |b|) && Table(defs, |dst|) && LookAlike(defs, a, b)
    ensures Gotten(defs, a, dst) == Gotten(defs, b, dst)
  {
    hide Table, Slice, Patched, Fits;
    assert ShownParts(defs, a) == ShownParts(defs, b);
  }

  /** Once the stack pointer is masked and no other register is a trusted pointer, what is read is
      accepted back. */
  lemma {:induction false} MaskedStackPointerAccepted(defs: seq<RegDef>, context: seq<Byte>, dst: seq<Byte>)
    requires Table(defs, |context|) && Table(defs, |dst|) && |defs| > 13 && defs[13].bytes == 4
    requires forall i :: 0 <= i < |defs| && i != 13 ==> !defs[i].kind.ArmTrustedPtr?
    ensures defs[13].offset + 4 <= |context|
    ensures var masked := Splice(context, defs[13].offset, LeBytes(FromLe(Slice(context, defs[13])) % LOW30, 4));
            AllAllowed(defs, masked, Gotten(defs, masked, dst))
  {
    AtRegister(defs, |context|, 13);
    var part := LeBytes(FromLe(Slice(context, defs[13])) % LOW30, 4);
    var masked := Splice(context, defs[13].offset, part);
    SplicedSlice(context, defs[13], part, defs[13]);
    ValueOfFourBytes(FromLe(Slice(context, defs[13])) % LOW30);
    hide AllAllowed, Gotten, Splice, Table, Slice;
    ReadBackAccepted(defs, masked, dst);
  }
}
