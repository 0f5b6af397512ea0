/** The software TLB of cputlb.c: a direct-mapped table per MMU mode, and the one region that
    stands for all large pages, kept by mask arithmetic on 64-bit addresses. */
module Tlb {

  type Addr = bv64

  const TLB_SIZE := 256
  const PAGE_MASK: Addr := 0xfffffffffffff000
  const INVALID: Addr := 0x8
  const NOTDIRTY: Addr := 0x10
  const MMIO: Addr := 0x20
  const NONE: Addr := 0xffffffffffffffff

  /** CPUTLBEntry */
  datatype Entry = Entry(addrRead: Addr, addrWrite: Addr, addrCode: Addr, addend: Addr)

  const EMPTY := Entry(NONE, NONE, NONE, NONE)

  /** A large page as it was installed. */
  datatype LargePage = LargePage(vaddr: Addr, size: Addr)

  // ---------- masks ----------

  function And(a: Addr, m: Addr): Addr { a & m }

  /** Do two addresses agree under a mask? */
  predicate Agree(a: Addr, b: Addr, m: Addr) { (a ^ b) & m == 0 }

  function Shifted(m: Addr): Addr { m << 1 }

  /** Ones from some bit upwards, zeros below. */
  predicate HighOnes(m: Addr) { (!m) & (!m + 1) == 0 }

  predicate PowerOfTwo(size: Addr) { size != 0 && size & (size - 1) == 0 }

  function SizeMask(size: Addr): Addr { !(size - 1) }

  /** The bits of m are among those of n. */
  predicate Within(m: Addr, n: Addr) { m & n == m }

  predicate InRegion(x: Addr, addr: Addr, mask: Addr) { And(x, mask) == addr }

  predicate InPage(p: LargePage, x: Addr) { And(x, SizeMask(p.size)) == And(p.vaddr, SizeMask(p.size)) }

  /** The region (addr, mask) contains the whole page. */
  predicate Contains(addr: Addr, mask: Addr, p: LargePage) {
    And(p.vaddr, mask) == addr && Within(mask, SizeMask(p.size))
  }

  lemma Coarser(x: Addr, v: Addr, s: Addr, m: Addr)
    requires And(x, s) == And(v, s) && Within(m, s)
    ensures And(x, m) == And(v, m)
  {
  }

  lemma AndTwice(v: Addr, n: Addr, m: Addr)
    requires Within(m, n)
    ensures And(And(v, n), m) == And(v, m) && And(And(v, m), m) == And(v, m)
  {
    AndAssoc(v, n, m);
    AndAssoc(v, m, m);
  }

  lemma AndAssoc(v: Addr, n: Addr, m: Addr)
    ensures (v & n) & m == v & (n & m)
  {
  }

  lemma WithinChain(m: Addr, n: Addr, k: Addr)
    requires Within(m, n) && Within(n, k)
    ensures Within(m, k)
  {
  }

  lemma BothWithin(m: Addr, n: Addr)
    ensures Within(And(m, n), m) && Within(And(m, n), n) && Within(m, m)
  {
  }

  lemma AgreeMeans(a: Addr, v: Addr, m: Addr)
    requires Agree(a, v, m)
    ensures And(a, m) == And(v, m)
  {
  }

  lemma AllAgree(a: Addr, v: Addr)
    ensures Agree(a, v, 0)
  {
  }

  predicate AtMost(m: Addr, n: Addr) { m <= n }

  lemma SizeMaskIsHigh(size: Addr)
    requires PowerOfTwo(size)
    ensures HighOnes(SizeMask(size))
  {
  }

  lemma ShiftNarrows(m: Addr)
    requires HighOnes(m)
    ensures HighOnes(Shifted(m)) && Within(Shifted(m), m) && (m != 0 ==> Shifted(m) < m)
  {
  }

  /** The size of a large page is a power of two exactly if its mask takes every offset into the
      page to 0. The assertion of tlb_set_page lets other sizes through. */
  lemma SizeMaskExactly(size: Addr)
    requires size != 0
    ensures PowerOfTwo(size) <==> forall x: Addr :: x < size ==> And(x, SizeMask(size)) == 0
  {
    if PowerOfTwo(size) {
      forall x: Addr | x < size
        ensures And(x, SizeMask(size)) == 0
      {
        OffsetMasked(size, x);
      }
    } else {
      LowestBit(size);
      assert And(size & (!size + 1), SizeMask(size)) != 0;
    }
  }

  lemma OffsetMasked(size: Addr, x: Addr)
    requires PowerOfTwo(size) && x < size
    ensures And(x, SizeMask(size)) == 0
  {
  }

  lemma LowestBit(size: Addr)
    requires size != 0 && !PowerOfTwo(size)
    ensures var x := size & (!size + 1); x < size && And(x, SizeMask(size)) != 0
  {
  }

  /** m shifted left n times. */
  function ShiftedBy(m: Addr, n: nat): Addr { if n == 0 then m else Shifted(ShiftedBy(m, n - 1)) }

  function ByteUp(m: Addr): Addr { m << 8 }

  lemma EightShifts(m: Addr)
    ensures Shifted(Shifted(Shifted(Shifted(Shifted(Shifted(Shifted(Shifted(m)))))))) == ByteUp(m)
  {
  }

  lemma EightByteUps(m: Addr)
    ensures ByteUp(ByteUp(ByteUp(ByteUp(ByteUp(ByteUp(ByteUp(ByteUp(m)))))))) == 0
  {
  }

  lemma EightMore(m: Addr, n: nat)
    ensures ShiftedBy(m, n + 8) == ByteUp(ShiftedBy(m, n))
  {
    hide Shifted, ByteUp, ShiftedBy;
    EightShifts(ShiftedBy(m, n));
    OneShift(m, n);
    OneShift(m, n + 1);
    OneShift(m, n + 2);
    OneShift(m, n + 3);
    OneShift(m, n + 4);
    OneShift(m, n + 5);
    OneShift(m, n + 6);
    OneShift(m, n + 7);
  }

  lemma OneShift(m: Addr, n: nat)
    ensures ShiftedBy(m, n + 1) == Shifted(ShiftedBy(m, n)) && ShiftedBy(m, 0) == m
  {
    hide Shifted;
  }

  lemma ShiftedOut(m: Addr)
    ensures ShiftedBy(m, 0) == m && ShiftedBy(m, 64) == 0
  {
    hide ByteUp, ShiftedBy;
    OneShift(m, 0);
    EightMore(m, 0);
    EightMore(m, 8);
    EightMore(m, 16);
    EightMore(m, 24);
    EightMore(m, 32);
    EightMore(m, 40);
    EightMore(m, 48);
    EightMore(m, 56);
    EightByteUps(m);
  }

  lemma AndKeepsHigh(m: Addr, n: Addr)
    requires HighOnes(m) && HighOnes(n)
    ensures HighOnes(And(m, n))
  {
  }

  lemma BelowBoth(m: Addr, n: Addr, k: Addr)
    requires Within(m, n) && Within(m, k)
    ensures AtMost(m, And(n, k))
  {
  }

  /** Below a mask of high ones comes that mask shifted left. */
  lemma NextHighMask(m: Addr, mask: Addr)
    requires HighOnes(m) && HighOnes(mask) && AtMost(m, mask) && m != mask
    ensures AtMost(m, Shifted(mask))
  {
  }

  lemma NotAllOnes(addr: Addr, mask: Addr, size: Addr)
    requires PowerOfTwo(size) && size > 0x1000 && Within(mask, SizeMask(size))
    ensures And(addr, mask) != NONE
  {
  }

  /** Every address of a contained page falls into the region. */
  lemma ContainsMeans(addr: Addr, mask: Addr, p: LargePage, x: Addr)
    requires Contains(addr, mask, p) && InPage(p, x)
    ensures And(x, mask) == addr
  {
    hide And, Within, SizeMask;
    Coarser(x, p.vaddr, SizeMask(p.size), mask);
  }

  lemma StillContained(addr: Addr, was: Addr, mask: Addr, q: LargePage)
    requires Contains(addr, was, q) && Within(mask, was)
    ensures Contains(And(addr, mask), mask, q)
  {
    hide And, Within, SizeMask;
    AndTwice(q.vaddr, was, mask);
    WithinChain(mask, was, SizeMask(q.size));
  }

  lemma NewlyContained(addr: Addr, mask: Addr, p: LargePage)
    requires Agree(addr, p.vaddr, mask) && Within(mask, SizeMask(p.size))
    ensures Contains(And(addr, mask), mask, p)
  {
    hide And, Within, SizeMask;
    AgreeMeans(addr, p.vaddr, mask);
  }

  /** Masks a region could have that holds (addr, was) and (vaddr, own). */
  ghost predicate Fits(m: Addr, addr: Addr, was: Addr, vaddr: Addr, own: Addr) {
    HighOnes(m) && Within(m, was) && Within(m, own) && Agree(addr, vaddr, m)
  }

  /** The largest of them. */
  ghost predicate Largest(mask: Addr, addr: Addr, was: Addr, vaddr: Addr, own: Addr) {
    Fits(mask, addr, was, vaddr, own) && forall m :: Fits(m, addr, was, vaddr, own) ==> AtMost(m, mask)
  }

  /** The loop of tlb_add_large_page: the mask of the old region and of the new page, shifted left
      until both addresses agree under it. It ends because its low bits run out, and for masks of
      high ones it stops at the largest that will do, so the region grows no more than needed. */
  method Widen(addr: Addr, was: Addr, vaddr: Addr, own: Addr) returns (mask: Addr)
    ensures Agree(addr, vaddr, mask)
    ensures HighOnes(was) && HighOnes(own) ==> Largest(mask, addr, was, vaddr, own)
  {
    hide HighOnes, Agree, Shifted, And, Largest, Grown, ShiftedBy;
    mask := And(own, was);
    ghost var n, start := 0, mask;
    ShiftedOut(start);
    GrownStart(addr, was, vaddr, own);
    while !Agree(addr, vaddr, mask)
      invariant n <= 64 && mask == ShiftedBy(start, n) && Grown(mask, addr, was, vaddr, own)
      decreases 64 - n
    {
      AllAgree(addr, vaddr);
      OneShift(start, n);
      GrownStep(mask, addr, was, vaddr, own);
      mask, n := Shifted(mask), n + 1;
    }
    GrownEnd(mask, addr, was, vaddr, own);
  }

  ghost predicate Grown(mask: Addr, addr: Addr, was: Addr, vaddr: Addr, own: Addr) {
    HighOnes(was) && HighOnes(own) ==> Widening(mask, addr, was, vaddr, own)
  }

  lemma GrownStart(addr: Addr, was: Addr, vaddr: Addr, own: Addr)
    ensures Grown(And(own, was), addr, was, vaddr, own)
  {
    hide HighOnes, Widening, And;
    if HighOnes(was) && HighOnes(own) {
      WideningStart(addr, was, vaddr, own);
    }
  }

  lemma GrownStep(mask: Addr, addr: Addr, was: Addr, vaddr: Addr, own: Addr)
    requires Grown(mask, addr, was, vaddr, own) && !Agree(addr, vaddr, mask)
    ensures Grown(Shifted(mask), addr, was, vaddr, own)
  {
    hide HighOnes, Widening, Agree, Shifted;
    if HighOnes(was) && HighOnes(own) {
      WideningStep(mask, addr, was, vaddr, own);
    }
  }

  lemma GrownEnd(mask: Addr, addr: Addr, was: Addr, vaddr: Addr, own: Addr)
    requires Grown(mask, addr, was, vaddr, own) && Agree(addr, vaddr, mask)
    ensures HighOnes(was) && HighOnes(own) ==> Largest(mask, addr, was, vaddr, own)
  {
    hide HighOnes, Widening, Agree, Largest;
    if HighOnes(was) && HighOnes(own) {
      WideningEnd(mask, addr, was, vaddr, own);
    }
  }

  /** A mask of high ones within both, and no smaller than any that will do. */
  ghost predicate Widening(mask: Addr, addr: Addr, was: Addr, vaddr: Addr, own: Addr) {
    HighOnes(mask) && Within(mask, was) && Within(mask, own) &&
    forall m :: Fits(m, addr, was, vaddr, own) ==> AtMost(m, mask)
  }

  lemma WideningStart(addr: Addr, was: Addr, vaddr: Addr, own: Addr)
    requires HighOnes(was) && HighOnes(own)
    ensures Widening(And(own, was), addr, was, vaddr, own)
  {
    hide HighOnes, Within, Agree, And, AtMost;
    AndKeepsHigh(own, was);
    BothWithin(own, was);
    forall m | Fits(m, addr, was, vaddr, own)
      ensures AtMost(m, And(own, was))
    {
      BelowBoth(m, own, was);
    }
  }

  lemma WideningStep(mask: Addr, addr: Addr, was: Addr, vaddr: Addr, own: Addr)
    requires Widening(mask, addr, was, vaddr, own) && !Agree(addr, vaddr, mask)
    ensures Widening(Shifted(mask), addr, was, vaddr, own)
  {
    hide HighOnes, Within, Agree, And, AtMost, Shifted;
    ShiftNarrows(mask);
    WithinChain(Shifted(mask), mask, was);
    WithinChain(Shifted(mask), mask, own);
    forall m | Fits(m, addr, was, vaddr, own)
      ensures AtMost(m, Shifted(mask))
    {
      NextHighMask(m, mask);
    }
  }

  lemma WideningEnd(mask: Addr, addr: Addr, was: Addr, vaddr: Addr, own: Addr)
    requires Widening(mask, addr, was, vaddr, own) && Agree(addr, vaddr, mask)
    ensures Largest(mask, addr, was, vaddr, own)
  {
    hide HighOnes, Within, Agree, AtMost;
  }

  // ---------- entries ----------

  function Slot(a: Addr): (i: int)
    ensures 0 <= i < TLB_SIZE
  {
    ((a >> 12) & 0xff) as int
  }

  predicate Aligned(page: Addr) { page & 0xfff == 0 }

  /** The test of tlb_flush_entry and of the fast path: flags other than INVALID are ignored. */
  predicate Matches(field: Addr, page: Addr) { page == field & (PAGE_MASK | INVALID) }

  predicate Translates(e: Entry, page: Addr) {
    Matches(e.addrRead, page) || Matches(e.addrWrite, page) || Matches(e.addrCode, page)
  }

  /** A field without the INVALID flag sits in the slot of its own page. */
  predicate FieldAt(field: Addr, i: int) { field & INVALID == 0 ==> Slot(field) == i }

  predicate EntryAt(e: Entry, i: int) { FieldAt(e.addrRead, i) && FieldAt(e.addrWrite, i) && FieldAt(e.addrCode, i) }

  lemma PageOf(a: Addr)
    ensures Aligned(And(a, PAGE_MASK))
  {
  }

  lemma MatchBits(field: Addr, page: Addr)
    requires Aligned(page) && Matches(field, page)
    ensures field & INVALID == 0 && (field >> 12) & 0xff == (page >> 12) & 0xff
  {
  }

  lemma MatchFixesSlot(field: Addr, page: Addr, i: int)
    requires Aligned(page) && Matches(field, page) && FieldAt(field, i)
    ensures Slot(page) == i
  {
    MatchBits(field, page);
  }

  /** An entry in another slot does not translate the page. */
  lemma OtherSlot(e: Entry, page: Addr, j: int)
    requires EntryAt(e, j) && Aligned(page) && j != Slot(page)
    ensures !Translates(e, page)
  {
    hide Slot, Matches, FieldAt, Aligned;
    if Matches(e.addrRead, page) {
      MatchFixesSlot(e.addrRead, page, j);
    }
    if Matches(e.addrWrite, page) {
      MatchFixesSlot(e.addrWrite, page, j);
    }
    if Matches(e.addrCode, page) {
      MatchFixesSlot(e.addrCode, page, j);
    }
  }

  lemma EmptyEntry(i: int)
    ensures EntryAt(EMPTY, i)
  {
  }

  lemma EmptyTranslatesNothing(page: Addr)
    requires Aligned(page)
    ensures !Translates(EMPTY, page)
  {
  }

  lemma NoneMatchesNothing(page: Addr, i: int)
    ensures FieldAt(NONE, i) && (Aligned(page) ==> !Matches(NONE, page))
  {
  }

  /** The flag bits of a new entry change neither its slot nor its page. */
  lemma FlagBits(v: Addr, flags: Addr)
    requires Aligned(v) && flags & 0x30 == flags
    ensures ((v | flags) >> 12) & 0xff == (v >> 12) & 0xff && (v | flags) & INVALID == 0 && Matches(v | flags, v)
  {
  }

  predicate OnlyFlags(flags: Addr) { flags & 0x30 == flags }

  lemma FieldIs(on: bool, v: Addr, flags: Addr)
    requires Aligned(v) && OnlyFlags(flags)
    ensures FieldAt(Field(on, v, flags), Slot(v)) && (Matches(Field(on, v, flags), v) <==> on)
  {
    if on {
      FlagBits(v, flags);
    } else {
      NoneMatchesNothing(v, Slot(v));
    }
  }

  // ---------- the TLB of one CPU ----------

  datatype Prot = Prot(read: bool, write: bool, exec: bool)

  /** What tlb_set_page asks of the memory region behind a page. */
  datatype Section = Section(isRam: bool, isRomd: bool, readonly: bool, dirty: bool, watched: bool)

  function ReadFlags(s: Section): Addr { if (s.isRam || s.isRomd) && !s.watched then 0 else MMIO }

  function CodeFlags(s: Section): Addr { if s.isRam || s.isRomd then 0 else MMIO }

  function WriteFlags(s: Section): Addr {
    if (s.isRam && s.readonly) || s.isRomd then MMIO
    else if s.isRam && !s.dirty then ReadFlags(s) | NOTDIRTY
    else ReadFlags(s)
  }

  lemma FlagsAreFlags(s: Section)
    ensures OnlyFlags(ReadFlags(s)) && OnlyFlags(CodeFlags(s)) && OnlyFlags(WriteFlags(s))
  {
  }

  function Field(on: bool, vaddr: Addr, flags: Addr): Addr { if on then vaddr | flags else NONE }

  function Offset(addend: Addr, vaddr: Addr): Addr { addend - vaddr }

  /** The entry tlb_set_page builds. */
  function NewEntry(vaddr: Addr, prot: Prot, s: Section, addend: Addr): Entry {
    Entry(Field(prot.read, vaddr, ReadFlags(s)), Field(prot.write, vaddr, WriteFlags(s)),
          Field(prot.exec, vaddr, CodeFlags(s)), Offset(addend, vaddr))
  }

  /** The new entry answers for exactly the accesses the protection allows, in its own slot. */
  lemma NewEntryIs(vaddr: Addr, prot: Prot, s: Section, addend: Addr)
    requires Aligned(vaddr)
    ensures var e := NewEntry(vaddr, prot, s, addend);
            EntryAt(e, Slot(vaddr)) && (Matches(e.addrRead, vaddr) <==> prot.read) &&
            (Matches(e.addrWrite, vaddr) <==> prot.write) && (Matches(e.addrCode, vaddr) <==> prot.exec)
  {
    hide ReadFlags, CodeFlags, WriteFlags, Slot, FieldAt, Matches, Aligned, Field, Offset, OnlyFlags;
    FlagsAreFlags(s);
    FieldIs(prot.read, vaddr, ReadFlags(s));
    FieldIs(prot.write, vaddr, WriteFlags(s));
    FieldIs(prot.exec, vaddr, CodeFlags(s));
  }

  /** x is the page of a, or lies with a in one of the installed large pages. */
  ghost predicate SameGuestPage(large: set<LargePage>, a: Addr, x: Addr) {
    x == And(a, PAGE_MASK) || exists p :: p in large && InPage(p, a) && InPage(p, x)
  }

  // ---------- dirty tracking in the entries ----------

  /** tlb_is_dirty_ram: a store through this entry goes straight to memory, unseen by the dirty log. */
  predicate FastWrite(e: Entry) { Unlogged(e.addrWrite) }

  predicate Unlogged(a: Addr) { a & (INVALID | MMIO | NOTDIRTY) == 0 }

  function Logged(a: Addr): Addr { a | NOTDIRTY }

  function Plus(a: Addr, b: Addr): Addr { a + b }

  function HostPage(e: Entry): Addr { Plus(And(e.addrWrite, PAGE_MASK), e.addend) }

  // ---------- loads, stores and fetches through an entry ----------

  /** What softmmu_template.h does with an access: fill the TLB, call a handler, or go to memory. */
  datatype Access = Miss | Handler | Host(address: Addr)

  function Through(field: Addr, addend: Addr, x: Addr): Access {
    if !Matches(field, And(x, PAGE_MASK)) then Miss
    else if And(field, 0xfff) != 0 then Handler
    else Host(Plus(x, addend))
  }

  lemma NoneMisses(addend: Addr, x: Addr)
    ensures Through(NONE, addend, x) == Miss
  {
    hide Aligned, Matches;
    PageOf(x);
    NoneMatchesNothing(And(x, PAGE_MASK), 0);
  }

  function Flagged(v: Addr, flags: Addr): Addr { v | flags }

  lemma FlagsAway(v: Addr, flags: Addr)
    requires Aligned(v) && OnlyFlags(flags)
    ensures And(Flagged(v, flags), PAGE_MASK | INVALID) == v
  {
  }

  lemma FlagsKept(v: Addr, flags: Addr)
    requires Aligned(v) && OnlyFlags(flags)
    ensures And(Flagged(v, flags), 0xfff) == flags
  {
  }

  lemma Regroup(x: Addr, addend: Addr, m: Addr)
    ensures Plus(x, addend - m) == Plus(addend, x - m)
  {
  }

  lemma OffsetInPage(x: Addr)
    ensures x - (x & PAGE_MASK) == x & 0xfff
  {
  }

  lemma OffsetIs(addend: Addr, v: Addr)
    ensures Offset(addend, v) == addend - v
  {
  }

  lemma AndIs(x: Addr, m: Addr)
    ensures And(x, m) == x & m
  {
  }

  lemma HostAddress(v: Addr, addend: Addr, x: Addr)
    requires And(x, PAGE_MASK) == v
    ensures Plus(x, Offset(addend, v)) == Plus(addend, And(x, 0xfff))
  {
    hide Plus, Offset, And;
    Regroup(x, addend, x & PAGE_MASK);
    OffsetInPage(x);
    OffsetIs(addend, x & PAGE_MASK);
    AndIs(x, PAGE_MASK);
    AndIs(x, 0xfff);
  }

  lemma PageAgain(v: Addr, addend: Addr)
    ensures Plus(v, addend - v) == addend
  {
  }

  lemma OwnHost(v: Addr, addend: Addr)
    ensures Plus(v, Offset(addend, v)) == addend
  {
    hide Plus, Offset;
    PageAgain(v, addend);
    OffsetIs(addend, v);
  }

  lemma FlaggedField(v: Addr, flags: Addr, x: Addr)
    requires Aligned(v) && OnlyFlags(flags)
    ensures Matches(Flagged(v, flags), And(x, PAGE_MASK)) <==> And(x, PAGE_MASK) == v
    ensures And(Flagged(v, flags), 0xfff) == flags
  {
    hide And, Flagged, Aligned, OnlyFlags;
    FlagsAway(v, flags);
    FlagsKept(v, flags);
    MatchesIs(Flagged(v, flags), And(x, PAGE_MASK));
  }

  lemma MatchesIs(field: Addr, page: Addr)
    ensures Matches(field, page) <==> page == And(field, PAGE_MASK | INVALID)
  {
  }

  /** An access at x to a page at v: it misses off the page or without the right, and goes to a handler
      or, if the page is memory to it, to the byte of the host page with the offset of x. */
  function Reaches(on: bool, memory: bool, v: Addr, addend: Addr, x: Addr): Access {
    if !on || And(x, PAGE_MASK) != v then Miss else if memory then Host(Plus(addend, And(x, 0xfff))) else Handler
  }

  lemma FieldReaches(on: bool, v: Addr, flags: Addr, addend: Addr, x: Addr)
    requires Aligned(v) && OnlyFlags(flags)
    ensures Through(Field(on, v, flags), Offset(addend, v), x) == Reaches(on, flags == 0, v, addend, x)
  {
    hide Aligned, OnlyFlags, Matches, And, Offset, Flagged, Field, Plus;
    FieldAsFlagged(on, v, flags);
    if !on {
      NoneMisses(Offset(addend, v), x);
    } else {
      FlaggedField(v, flags, x);
      if And(x, PAGE_MASK) == v {
        HostAddress(v, addend, x);
      }
    }
  }

  lemma FieldAsFlagged(on: bool, v: Addr, flags: Addr)
    ensures Field(on, v, flags) == if on then Flagged(v, flags) else NONE
  {
  }

  lemma FlagsMean(s: Section)
    ensures ReadFlags(s) == 0 <==> (s.isRam || s.isRomd) && !s.watched
    ensures CodeFlags(s) == 0 <==> s.isRam || s.isRomd
    ensures WriteFlags(s) == 0 <==> s.isRam && !s.isRomd && !s.readonly && s.dirty && !s.watched
  {
  }

  /** A load goes to memory if the page is RAM or ROM without a watchpoint, a fetch if it is RAM or ROM, and a
      store if it is writable RAM that is already dirty and not watched. */
  predicate Serves(e: Entry, vaddr: Addr, prot: Prot, s: Section, addend: Addr, x: Addr) {
    && Through(e.addrRead, e.addend, x) ==
       Reaches(prot.read, (s.isRam || s.isRomd) && !s.watched, vaddr, addend, x)
    && Through(e.addrWrite, e.addend, x) ==
       Reaches(prot.write, s.isRam && !s.isRomd && !s.readonly && s.dirty && !s.watched, vaddr, addend, x)
    && Through(e.addrCode, e.addend, x) == Reaches(prot.exec, s.isRam || s.isRomd, vaddr, addend, x)
  }

  /** Main result: what a load, a store and a fetch at any address do through the entry of a page. */
  lemma NewEntryServes(vaddr: Addr, prot: Prot, s: Section, addend: Addr, x: Addr)
    requires Aligned(vaddr)
    ensures Serves(NewEntry(vaddr, prot, s, addend), vaddr, prot, s, addend, x)
  {
    hide Aligned, OnlyFlags, And, Offset, Field, ReadFlags, WriteFlags, CodeFlags, Through, Plus;
    FlagsAreFlags(s);
    FlagsMean(s);
    FieldReaches(prot.read, vaddr, ReadFlags(s), addend, x);
    FieldReaches(prot.write, vaddr, WriteFlags(s), addend, x);
    FieldReaches(prot.exec, vaddr, CodeFlags(s), addend, x);
  }

  /** The host page that tlb_reset_dirty_range computes is the page the entry was made for, and stores go
      straight to it exactly when the section lets them. */
  lemma NewEntryHost(vaddr: Addr, prot: Prot, s: Section, addend: Addr)
    requires Aligned(vaddr)
    ensures var e := NewEntry(vaddr, prot, s, addend);
            && (prot.write ==> HostPage(e) == addend)
            && (FastWrite(e) <==>
                prot.write && s.isRam && !s.isRomd && !s.readonly && s.dirty && !s.watched)
  {
    hide Aligned, OnlyFlags, Offset, ReadFlags, WriteFlags, CodeFlags, Unlogged, Field, HostPage, Flagged, Plus;
    FlagsAreFlags(s);
    FlagsMean(s);
    FieldAsFlagged(prot.write, vaddr, WriteFlags(s));
    FlaggedHost(NewEntry(vaddr, prot, s, addend), vaddr, WriteFlags(s), addend);
    FlaggedFast(vaddr, WriteFlags(s));
    NoneIsNotFast();
  }

  lemma FlaggedHost(e: Entry, v: Addr, flags: Addr, addend: Addr)
    requires Aligned(v) && OnlyFlags(flags) && e.addend == Offset(addend, v)
    ensures e.addrWrite == Flagged(v, flags) ==> HostPage(e) == addend
  {
    hide And, Offset, Aligned, OnlyFlags, Flagged, Plus;
    FlagsOff(v, flags);
    OwnHost(v, addend);
  }

  lemma FlagsOff(v: Addr, flags: Addr)
    requires Aligned(v) && OnlyFlags(flags)
    ensures And(Flagged(v, flags), PAGE_MASK) == v
  {
  }

  lemma FlaggedFast(v: Addr, flags: Addr)
    requires Aligned(v) && OnlyFlags(flags)
    ensures Unlogged(Flagged(v, flags)) <==> flags == 0
  {
  }

  lemma NoneIsNotFast()
    ensures !Unlogged(NONE)
  {
  }

  /** After tlb_reset_dirty_range a store that went to memory in the range calls a handler, and any other access
      is as before. */
  lemma ResetStores(e: Entry, start: Addr, length: Addr, x: Addr)
    ensures var f := ResetEntry(e, start, length);
            var was := Through(e.addrWrite, e.addend, x);
            && f.addrRead == e.addrRead && f.addrCode == e.addrCode && f.addend == e.addend
            && Through(f.addrWrite, f.addend, x) ==
               if was.Host? && InRange(Plus(And(x, PAGE_MASK), e.addend), start, length) then Handler else was
  {
    hide Through, FastWrite, HostPage, And, Plus, InRange, Logged;
    LoggedThrough(e.addrWrite, e.addend, x);
    if Through(e.addrWrite, e.addend, x).Host? {
      HostMeans(e, x);
    }
  }

  lemma LoggedThrough(field: Addr, addend: Addr, x: Addr)
    ensures var was := Through(field, addend, x);
            Through(Logged(field), addend, x) == if was.Host? then Handler else was
  {
    hide Matches, And, Plus, Logged;
    LoggedMatches(field, And(x, PAGE_MASK));
    LoggedCalls(field);
  }

  lemma HostMeans(e: Entry, x: Addr)
    requires Through(e.addrWrite, e.addend, x).Host?
    ensures FastWrite(e) && HostPage(e) == Plus(And(x, PAGE_MASK), e.addend)
  {
    hide Matches, And, Plus, Unlogged;
    HitPage(e.addrWrite, x);
    PlainIsFast(e.addrWrite);
  }

  lemma LoggedMatches(field: Addr, page: Addr)
    ensures Matches(Logged(field), page) <==> Matches(field, page)
  {
    hide Logged;
    FlagKeepsSlot(field);
  }

  lemma LoggedCalls(field: Addr)
    ensures And(Logged(field), 0xfff) != 0
  {
  }

  lemma HitPage(field: Addr, x: Addr)
    requires Matches(field, And(x, PAGE_MASK)) && And(field, 0xfff) == 0
    ensures And(field, PAGE_MASK) == And(x, PAGE_MASK)
  {
  }

  lemma PlainIsFast(field: Addr)
    requires And(field, 0xfff) == 0
    ensures Unlogged(field)
  {
  }

  /** tlb_set_dirty1 undoes it for a page: the stores that called the handler go to memory again. */
  lemma SetDirtyStores(e: Entry, x: Addr)
    requires e.addrWrite == Logged(And(x, PAGE_MASK))
    ensures Through(e.addrWrite, e.addend, x) == Handler
    ensures Through(SetDirtyEntry(e, And(x, PAGE_MASK)).addrWrite, e.addend, x) == Host(Plus(x, e.addend))
  {
    hide Matches, And, Plus, Logged, Aligned;
    var page := And(x, PAGE_MASK);
    PageOf(x);
    LoggedMatches(page, page);
    LoggedCalls(page);
    PagePlain(page);
  }

  lemma PagePlain(page: Addr)
    requires Aligned(page)
    ensures Matches(page, page) && And(page, 0xfff) == 0
  {
  }

  /** Main result: the two updates of an entry agree with tlb_set_page. What tlb_set_dirty1 makes of a new entry is
      the entry of the same page dirty, and what tlb_reset_dirty_range makes of it is the entry of the page clean. */
  lemma UpdatesAgree(vaddr: Addr, prot: Prot, s: Section, addend: Addr, start: Addr, length: Addr)
    requires Aligned(vaddr)
    ensures var e := NewEntry(vaddr, prot, s, addend);
            && SetDirtyEntry(e, vaddr) ==
               NewEntry(vaddr, prot, if s.watched then s else s.(dirty := true), addend)
            && ResetEntry(e, start, length) ==
               NewEntry(vaddr, prot, if InRange(addend, start, length) && !s.watched then s.(dirty := false) else s,
                        addend)
  {
    hide Aligned, Offset, HostPage, Logged, FastWrite, InRange, Field, Flagged;
    var f := WriteFlags(s);
    NewEntryHost(vaddr, prot, s, addend);
    FieldAsFlagged(prot.write, vaddr, f);
    FieldAsFlagged(prot.write, vaddr, NOTDIRTY);
    FieldAsFlagged(prot.write, vaddr, 0);
    FlagsAreFlags(s);
    FlagAlone(vaddr, f);
  }

  lemma FlagAlone(v: Addr, flags: Addr)
    requires Aligned(v) && OnlyFlags(flags)
    ensures Flagged(v, flags) == Logged(v) <==> flags == NOTDIRTY
    ensures Flagged(v, NOTDIRTY) == Logged(v) && Flagged(v, 0) == v && NONE != Logged(v)
  {
  }

  /** Two addresses share a slot exactly if bits 12 to 19 agree. */
  lemma SlotExactly(a: Addr, b: Addr)
    ensures Slot(a) == Slot(b) <==> Agree(a, b, 0xff000)
  {
    SlotBits(a, b);
  }

  lemma SlotBits(a: Addr, b: Addr)
    ensures (a >> 12) & 0xff == (b >> 12) & 0xff <==> Agree(a, b, 0xff000)
  {
  }

  predicate InRange(host: Addr, start: Addr, length: Addr) { host - start < length }

  /** The range is the length addresses from start on, modulo 2^64. */
  lemma RangeIs(start: Addr, length: Addr, o: Addr)
    ensures InRange(start + o, start, length) <==> o < length
  {
  }

  /** tlb_reset_dirty_range */
  function ResetEntry(e: Entry, start: Addr, length: Addr): Entry {
    if FastWrite(e) && InRange(HostPage(e), start, length) then e.(addrWrite := Logged(e.addrWrite)) else e
  }

  /** tlb_set_dirty1 */
  function SetDirtyEntry(e: Entry, page: Addr): Entry {
    if e.addrWrite == Logged(page) then e.(addrWrite := page) else e
  }

  predicate SameTranslation(e: Entry, f: Entry) {
    e.addrRead == f.addrRead && e.addrCode == f.addrCode && e.addend == f.addend &&
    SamePageField(e.addrWrite, f.addrWrite)
  }

  predicate SamePageField(a: Addr, b: Addr) { a & (PAGE_MASK | INVALID) == b & (PAGE_MASK | INVALID) }

  lemma FlagKeepsField(a: Addr, i: int)
    requires FieldAt(a, i)
    ensures SamePageField(Logged(a), a) && FieldAt(Logged(a), i)
  {
    FlagKeepsSlot(a);
  }

  lemma FlagKeepsSlot(a: Addr)
    ensures SamePageField(Logged(a), a) && Logged(a) & INVALID == a & INVALID
    ensures (Logged(a) >> 12) & 0xff == (a >> 12) & 0xff
  {
  }

  lemma FlagStopsFastWrite(a: Addr)
    ensures !Unlogged(Logged(a))
  {
  }

  /** After the reset the entry gives no unseen store into the range, and translates as before. */
  lemma ResetEntryIs(e: Entry, start: Addr, length: Addr, i: int)
    requires EntryAt(e, i)
    ensures var f := ResetEntry(e, start, length);
            EntryAt(f, i) && SameTranslation(f, e) &&
            (FastWrite(f) <==> FastWrite(e) && !InRange(HostPage(e), start, length))
  {
    hide FieldAt, SamePageField, HostPage, InRange, Unlogged, Logged;
    FlagKeepsField(e.addrWrite, i);
    FlagStopsFastWrite(e.addrWrite);
    SameField(e.addrWrite);
  }

  lemma SameField(a: Addr)
    ensures SamePageField(a, a)
  {
  }

  lemma SetDirtyEntryIs(e: Entry, page: Addr, i: int)
    requires EntryAt(e, i) && Aligned(page)
    ensures var f := SetDirtyEntry(e, page);
            EntryAt(f, i) && SameTranslation(f, e) && (e.addrWrite == Logged(page) ==> FastWrite(f))
  {
    hide FieldAt, SamePageField, Unlogged, Logged;
    SameField(e.addrWrite);
    if e.addrWrite == Logged(page) {
      UnflagField(page, i);
    }
  }

  lemma UnflagField(page: Addr, i: int)
    requires Aligned(page) && FieldAt(Logged(page), i)
    ensures SamePageField(page, Logged(page)) && FieldAt(page, i) && Unlogged(page)
  {
    FlagKeepsSlot(page);
  }

  class CpuTlb {
    const modes: nat
    const table: array2<Entry>
    var flushAddr: Addr
    var flushMask: Addr
    /** The large pages installed since the last full flush. */
    ghost var large: set<LargePage>

    ghost predicate Placed()
      reads table
    {
      table.Length0 == modes && table.Length1 == TLB_SIZE &&
      forall m, i :: 0 <= m < modes && 0 <= i < TLB_SIZE ==> EntryAt(table[m, i], i)
    }

    ghost predicate RegionOk()
      reads this
    {
      HighOnes(flushMask) && (flushAddr == NONE ==> large == {}) &&
      forall p :: p in large ==> Contains(flushAddr, flushMask, p)
    }

    ghost predicate Valid()
      reads this, table
    {
      Placed() && RegionOk()
    }

    constructor (modes: nat)
      ensures Valid() && large == {} && flushAddr == NONE && this.modes == modes && fresh(table)
    {
      hide EntryAt, HighOnes;
      this.modes := modes;
      table := new Entry[modes, TLB_SIZE]((_, _) => EMPTY);
      flushAddr, flushMask, large := NONE, 0, {};
      new;
      ZeroIsHigh();
      forall m, i | 0 <= m < modes && 0 <= i < TLB_SIZE
        ensures EntryAt(table[m, i], i)
      {
        EmptyEntry(i);
      }
    }

    /** tlb_flush */
    method Flush()
      requires table.Length0 == modes && table.Length1 == TLB_SIZE
      modifies this, table
      ensures Valid() && large == {} && flushAddr == NONE
      ensures forall m, i :: 0 <= m < modes && 0 <= i < TLB_SIZE ==> table[m, i] == EMPTY
    {
      hide EntryAt, HighOnes;
      for i := 0 to TLB_SIZE
        modifies table
        invariant forall m, j :: 0 <= m < modes && 0 <= j < i ==> table[m, j] == EMPTY
      {
        for m := 0 to modes
          modifies table
          invariant forall n, j :: 0 <= n < modes && 0 <= j < i ==> table[n, j] == EMPTY
          invariant forall n :: 0 <= n < m ==> table[n, i] == EMPTY
        {
          table[m, i] := EMPTY;
        }
      }
      flushAddr, flushMask, large := NONE, 0, {};
      ZeroIsHigh();
      forall m, i | 0 <= m < modes && 0 <= i < TLB_SIZE
        ensures EntryAt(table[m, i], i)
      {
        EmptyEntry(i);
      }
    }

    /** tlb_add_large_page: a first large page gives its own region; a later one widens the region
        until the addresses agree. If the size is a power of two the region then holds the new page
        and all those it held. */
    method AddLargePage(vaddr: Addr, size: Addr)
      requires size > 0x1000
      modifies this`flushAddr, this`flushMask, this`large
      ensures large == old(large) + {LargePage(vaddr, size)}
      ensures old(flushAddr) == NONE ==> flushAddr == And(vaddr, SizeMask(size)) && flushMask == SizeMask(size)
      ensures old(flushAddr) != NONE ==>
                Agree(old(flushAddr), vaddr, flushMask) && flushAddr == And(old(flushAddr), flushMask)
      ensures old(RegionOk()) && PowerOfTwo(size) ==> RegionOk() && flushAddr != NONE
    {
      hide HighOnes, PowerOfTwo, SizeMask, Contains, And, Within, Agree, Fits;
      var mask := SizeMask(size);
      ghost var p := LargePage(vaddr, size);
      ghost var ok, pages := RegionOk() && PowerOfTwo(size), large;
      large := large + {p};
      if ok {
        SizeMaskIsHigh(size);
      }
      if flushAddr == NONE {
        flushAddr := And(vaddr, mask);
        flushMask := mask;
        if ok {
          BothWithin(mask, mask);
          NotAllOnes(vaddr, mask, size);
          OwnRegion(vaddr, size);
        }
        return;
      }
      mask := Widen(flushAddr, flushMask, vaddr, mask);
      if ok {
        RegionGrows(flushAddr, flushMask, mask, pages, p);
      }
      flushAddr := And(flushAddr, mask);
      flushMask := mask;
    }

    /** tlb_set_page: one entry in the slot of vaddr, and the region extended if the guest's page
        is larger than ours. */
    method SetPage(vaddr: Addr, prot: Prot, section: Section, addend: Addr, mode: nat, size: Addr)
      requires Placed() && mode < modes && Aligned(vaddr) && size >= 0x1000
      modifies this`flushAddr, this`flushMask, this`large, table
      ensures Placed() && (old(RegionOk()) && PowerOfTwo(size) ==> RegionOk())
      ensures large == if size == 0x1000 then old(large) else old(large) + {LargePage(vaddr, size)}
      ensures size == 0x1000 ==> flushAddr == old(flushAddr) && flushMask == old(flushMask)
      ensures size != 0x1000 && old(flushAddr) == NONE ==>
                flushAddr == And(vaddr, SizeMask(size)) && flushMask == SizeMask(size)
      ensures table[mode, Slot(vaddr)] == NewEntry(vaddr, prot, section, addend)
      ensures forall x :: Serves(table[mode, Slot(vaddr)], vaddr, prot, section, addend, x)
      ensures forall m, i :: 0 <= m < modes && 0 <= i < TLB_SIZE && (m != mode || i != Slot(vaddr)) ==>
                table[m, i] == old(table[m, i])
    {
      hide EntryAt, HighOnes, PowerOfTwo, Slot, NewEntry, Contains, Aligned, And, SizeMask, Serves;
      if size != 0x1000 {
        assert size > 0x1000;
        AddLargePage(vaddr, size);
      }
      NewEntryIs(vaddr, prot, section, addend);
      forall x
        ensures Serves(NewEntry(vaddr, prot, section, addend), vaddr, prot, section, addend, x)
      {
        NewEntryServes(vaddr, prot, section, addend, x);
      }
      table[mode, Slot(vaddr)] := NewEntry(vaddr, prot, section, addend);
    }

    /** tlb_flush_page: an address of the region empties the table, any other exactly the entries
        that translate its page. If the region holds every large page, no entry of any mode is left
        that translates a page of the guest page addr is in. */
    method FlushPage(addr: Addr)
      requires Placed()
      modifies this, table
      ensures Placed() && (old(RegionOk()) ==> RegionOk())
      ensures if InRegion(addr, old(flushAddr), old(flushMask)) then large == {}
              else large == old(large) && flushAddr == old(flushAddr) && flushMask == old(flushMask)
      ensures forall m, i :: 0 <= m < modes && 0 <= i < TLB_SIZE ==>
                table[m, i] ==
                  if InRegion(addr, old(flushAddr), old(flushMask)) then EMPTY
                  else if old(Translates(table[m, i], And(addr, PAGE_MASK))) then EMPTY
                  else old(table[m, i])
      ensures old(RegionOk()) ==> forall m, i, x |
                0 <= m < modes && 0 <= i < TLB_SIZE && Aligned(x) && SameGuestPage(old(large), addr, x) ::
                  !Translates(table[m, i], x)
    {
      hide EntryAt, HighOnes, InPage, Contains, Translates, And, Slot, Aligned;
      var page := And(addr, PAGE_MASK);
      PageOf(addr);
      ghost var ok := RegionOk();
      if InRegion(addr, flushAddr, flushMask) {
        Flush();
        forall x | Aligned(x)
          ensures !Translates(EMPTY, x)
        {
          EmptyTranslatesNothing(x);
        }
        return;
      }
      if ok {
        forall p | p in large
          ensures !InPage(p, addr)
        {
          OutsideRegion(flushAddr, flushMask, p, addr);
        }
      }
      FlushSlot(page);
    }

    /** The body of cpu_tlb_reset_dirty_all for one CPU: no entry is left through which a store into
        the host range would escape the dirty log, and no translation changes. */
    method ResetDirty(start: Addr, length: Addr)
      requires Placed()
      modifies table
      ensures Placed()
      ensures forall m, i :: 0 <= m < modes && 0 <= i < TLB_SIZE ==>
                table[m, i] == ResetEntry(old(table[m, i]), start, length) &&
                SameTranslation(table[m, i], old(table[m, i])) &&
                (FastWrite(table[m, i]) <==>
                 old(FastWrite(table[m, i]) && !InRange(HostPage(table[m, i]), start, length)))
    {
      hide EntryAt, HighOnes, Contains, FastWrite, HostPage, InRange, SameTranslation, ResetEntry;
      for m := 0 to modes
        invariant forall n, j :: 0 <= n < modes && 0 <= j < TLB_SIZE ==>
            table[n, j] == if n < m then ResetEntry(old(table[n, j]), start, length) else old(table[n, j])
      {
        for i := 0 to TLB_SIZE
          invariant forall n, j :: 0 <= n < modes && 0 <= j < TLB_SIZE ==>
              table[n, j] == if n < m || (n == m && j < i) then ResetEntry(old(table[n, j]), start, length)
                else old(table[n, j])
        {
          table[m, i] := ResetEntry(table[m, i], start, length);
        }
      }
      forall m, i | 0 <= m < modes && 0 <= i < TLB_SIZE
        ensures EntryAt(table[m, i], i) && SameTranslation(table[m, i], old(table[m, i]))
        ensures FastWrite(table[m, i]) <==>
                  old(FastWrite(table[m, i]) && !InRange(HostPage(table[m, i]), start, length))
      {
        ResetEntryIs(old(table[m, i]), start, length, i);
      }
    }

    /** tlb_set_dirty: the not-dirty entries of the page, and no others, write directly again. */
    method SetDirty(vaddr: Addr)
      requires Placed()
      modifies table
      ensures Placed()
      ensures var page := And(vaddr, PAGE_MASK);
              forall m, i :: 0 <= m < modes && 0 <= i < TLB_SIZE ==>
                SameTranslation(table[m, i], old(table[m, i])) &&
                table[m, i] == (if i == Slot(page) then SetDirtyEntry(old(table[m, i]), page) else old(table[m, i])) &&
                (i == Slot(page) && old(table[m, i]).addrWrite == Logged(page) ==> FastWrite(table[m, i]))
    {
      hide EntryAt, HighOnes, Contains, FastWrite, SamePageField, Slot, And, Aligned, Logged;
      var page := And(vaddr, PAGE_MASK);
      PageOf(vaddr);
      var i := Slot(page);
      for m := 0 to modes
        invariant forall n, j :: 0 <= n < modes && 0 <= j < TLB_SIZE ==>
            table[n, j] == if n < m && j == i then SetDirtyEntry(old(table[n, j]), page) else old(table[n, j])
      {
        table[m, i] := SetDirtyEntry(table[m, i], page);
      }
      forall m, j | 0 <= m < modes && 0 <= j < TLB_SIZE
        ensures EntryAt(table[m, j], j) && SameTranslation(table[m, j], old(table[m, j]))
        ensures j == i && old(table[m, j]).addrWrite == Logged(page) ==> FastWrite(table[m, j])
      {
        SetDirtyEntryIs(old(table[m, j]), page, j);
        SameField(table[m, j].addrWrite);
      }
    }

    /** The loop over the modes in tlb_flush_page, with tlb_flush_entry inside. */
    method FlushSlot(page: Addr)
      requires Placed() && Aligned(page)
      modifies table
      ensures Placed()
      ensures forall m, i :: 0 <= m < modes && 0 <= i < TLB_SIZE ==>
                table[m, i] == (if old(Translates(table[m, i], page)) then EMPTY else old(table[m, i])) &&
                !Translates(table[m, i], page)
    {
      hide EntryAt, Translates, Slot, Aligned;
      var i := Slot(page);
      EmptyTranslatesNothing(page);
      EmptyEntry(i);
      for m := 0 to modes
        invariant Placed()
        invariant forall n, j :: 0 <= n < modes && 0 <= j < TLB_SIZE ==>
            table[n, j] == if n < m && j == i && old(Translates(table[n, j], page)) then EMPTY else old(table[n, j])
      {
        if Translates(table[m, i], page) {
          table[m, i] := EMPTY;
        }
      }
      forall m, j | 0 <= m < modes && 0 <= j < TLB_SIZE && j != i
        ensures !old(Translates(table[m, j], page))
      {
        OtherSlot(old(table[m, j]), page, j);
      }
    }
  }

  /** The region after a large page was added: it holds the pages it held, and the new one. */
  lemma RegionGrows(addr: Addr, was: Addr, mask: Addr, pages: set<LargePage>, p: LargePage)
    requires forall q :: q in pages ==> Contains(addr, was, q)
    requires PowerOfTwo(p.size) && p.size > 0x1000 && Fits(mask, addr, was, p.vaddr, SizeMask(p.size))
    ensures HighOnes(mask) && And(addr, mask) != NONE
    ensures forall q :: q in pages + {p} ==> Contains(And(addr, mask), mask, q)
  {
    hide HighOnes, PowerOfTwo, SizeMask, Contains, And, Within, Agree;
    NotAllOnes(addr, mask, p.size);
    NewlyContained(addr, mask, p);
    forall q | q in pages
      ensures Contains(And(addr, mask), mask, q)
    {
      StillContained(addr, was, mask, q);
    }
  }

  /** A first large page of this size at address 0, then a flush of addr: the entry of page 0 stays
      exactly if addr lies neither in page 0 nor under the mask. */
  method FirstLargePage(size: Addr, addr: Addr, prot: Prot, section: Section, addend: Addr) returns (cpu: CpuTlb)
    requires size > 0x1000 && (prot.read || prot.write || prot.exec)
    ensures cpu.Placed() && cpu.modes == 1 && cpu.table.Length0 == 1 && cpu.table.Length1 == TLB_SIZE
    ensures Translates(cpu.table[0, 0], 0) <==> And(addr, SizeMask(size)) != 0 && And(addr, PAGE_MASK) != 0
  {
    hide EntryAt, HighOnes, PowerOfTwo, SizeMask, Contains, And, Translates, NewEntry, Aligned, Slot;
    cpu := new CpuTlb(1);
    AtZero(SizeMask(size));
    cpu.SetPage(0, prot, section, addend, 0, size);
    PageOf(addr);
    NewTranslates(prot, section, addend, And(addr, PAGE_MASK));
    NewTranslates(prot, section, addend, 0);
    EmptyTranslatesNothing(0);
    cpu.FlushPage(addr);
  }

  lemma AtZero(mask: Addr)
    ensures Aligned(0) && Slot(0) == 0 && And(0, mask) == 0
  {
  }

  lemma FieldMatches(on: bool, v: Addr, flags: Addr, page: Addr)
    requires Aligned(v) && Aligned(page) && OnlyFlags(flags)
    ensures Matches(Field(on, v, flags), page) <==> on && page == v
  {
  }

  lemma NewTranslates(prot: Prot, section: Section, addend: Addr, page: Addr)
    requires Aligned(page) && (prot.read || prot.write || prot.exec)
    ensures Translates(NewEntry(0, prot, section, addend), page) <==> page == 0
  {
    hide ReadFlags, CodeFlags, WriteFlags, Matches, Aligned, Field, Offset, OnlyFlags, Slot;
    AtZero(0);
    FlagsAreFlags(section);
    FieldMatches(prot.read, 0, ReadFlags(section), page);
    FieldMatches(prot.write, 0, WriteFlags(section), page);
    FieldMatches(prot.exec, 0, CodeFlags(section), page);
  }

  /** Three pages of 4K as one large page: after a flush of the second the first is still there. */
  method OddSizeEscapes(section: Section, addend: Addr) returns (cpu: CpuTlb)
    ensures cpu.Placed() && cpu.modes == 1 && cpu.table.Length0 == 1 && cpu.table.Length1 == TLB_SIZE
    ensures Translates(cpu.table[0, 0], 0)
  {
    assert And(0x1000, SizeMask(0x3000)) != 0 && And(0x1000, PAGE_MASK) != 0;
    cpu := FirstLargePage(0x3000, 0x1000, Prot(true, true, true), section, addend);
  }

  /** For a whole number of pages, no address below the size escapes exactly if it is a power of two. */
  lemma NoneEscapesExactly(size: Addr)
    requires size > 0x1000 && Aligned(size)
    ensures PowerOfTwo(size) <==> forall x: Addr :: x < size ==> And(x, SizeMask(size)) == 0 || And(x, PAGE_MASK) == 0
  {
    hide And, PowerOfTwo, SizeMask, Aligned;
    if PowerOfTwo(size) {
      forall x: Addr | x < size
        ensures And(x, SizeMask(size)) == 0
      {
        OffsetMasked(size, x);
      }
    } else {
      var x := LowestPage(size);
    }
  }

  lemma LowestPage(size: Addr) returns (x: Addr)
    requires size > 0x1000 && Aligned(size) && !PowerOfTwo(size)
    ensures x < size && And(x, SizeMask(size)) != 0 && And(x, PAGE_MASK) != 0
  {
    x := size & (!size + 1);
  }

  ghost predicate Distinct(cpus: seq<CpuTlb>) {
    forall c, d :: 0 <= c < d < |cpus| ==> cpus[c] != cpus[d] && cpus[c].table != cpus[d].table
  }

  /** cpu_tlb_reset_dirty_all: on every CPU, no entry is left through which a store into the host
      range would escape the dirty log, and no translation changes. */
  method ResetDirtyAll(cpus: seq<CpuTlb>, start: Addr, length: Addr)
    requires Distinct(cpus) && forall c :: 0 <= c < |cpus| ==> cpus[c].Placed()
    modifies set c | 0 <= c < |cpus| :: cpus[c].table
    ensures forall c :: 0 <= c < |cpus| ==> cpus[c].Placed()
    ensures forall c, m, i :: 0 <= c < |cpus| && cpus[c].Placed() && 0 <= m < cpus[c].modes && 0 <= i < TLB_SIZE ==>
              cpus[c].table[m, i] == ResetEntry(old(cpus[c].table[m, i]), start, length) &&
              SameTranslation(cpus[c].table[m, i], old(cpus[c].table[m, i])) &&
              (FastWrite(cpus[c].table[m, i]) <==>
               old(FastWrite(cpus[c].table[m, i]) && !InRange(HostPage(cpus[c].table[m, i]), start, length)))
  {
    hide EntryAt, HighOnes, Contains, FastWrite, HostPage, InRange, SameTranslation, ResetEntry;
    for c := 0 to |cpus|
      invariant forall d :: 0 <= d < |cpus| ==> cpus[d].Placed()
      invariant forall d, m, i :: 0 <= d < c && 0 <= m < cpus[d].modes && 0 <= i < TLB_SIZE ==>
          cpus[d].table[m, i] == ResetEntry(old(cpus[d].table[m, i]), start, length) &&
          SameTranslation(cpus[d].table[m, i], old(cpus[d].table[m, i])) &&
          (FastWrite(cpus[d].table[m, i]) <==>
           old(FastWrite(cpus[d].table[m, i]) && !InRange(HostPage(cpus[d].table[m, i]), start, length)))
      invariant forall d, m, i :: c <= d < |cpus| && 0 <= m < cpus[d].modes && 0 <= i < TLB_SIZE ==>
          cpus[d].table[m, i] == old(cpus[d].table[m, i])
    {
      cpus[c].ResetDirty(start, length);
    }
  }

  lemma ZeroIsHigh()
    ensures HighOnes(0)
  {
  }

  lemma OwnRegion(vaddr: Addr, size: Addr)
    ensures Contains(And(vaddr, SizeMask(size)), SizeMask(size), LargePage(vaddr, size))
  {
  }

  lemma OutsideRegion(addr: Addr, mask: Addr, p: LargePage, x: Addr)
    requires Contains(addr, mask, p) && And(x, mask) != addr
    ensures !InPage(p, x)
  {
    hide And, Within, SizeMask;
    if InPage(p, x) {
      ContainsMeans(addr, mask, p, x);
    }
  }
}
