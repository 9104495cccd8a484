/** The macros of kernel/memory.h as written there, with shifts, masks and bitwise or. The
    postconditions say what they compute. */
module MemoryMacros {
  import opened Bits
  import opened MemoryLayout

  function PageAlignDown(v: Word): (r: Word)
    ensures r == AlignDown(v)
  {
    PowerOfPage();
    ShiftLeft(ShiftRight(v, 21), 21)
  }

  function PageAlignUp(v: Word): (r: Word)
    ensures v + PAGE_SIZE - 1 < WORD_LIMIT ==> r == AlignUp(v)
    ensures v + PAGE_SIZE - 1 >= WORD_LIMIT ==> r == 0
  {
    PowerOfPage();
    ShiftLeft(ShiftRight((v + PAGE_SIZE - 1) % WORD_LIMIT, 21), 21)
  }

  function PageDirectoryTableAddress(e: Word): (r: Word)
    ensures r == TableAddress(e)
  {
    assert Pow2(12) == 4096;
    ShiftLeft(ShiftRight(e, 12), 12)
  }

  function PageAddressOf(e: Word): (r: Word)
    ensures r == PageAddress(e)
  {
    PowerOfPage();
    ShiftLeft(ShiftRight(e, 21), 21)
  }

  predicate IsPresent(e: Word)
    ensures IsPresent(e) <==> e % 2 == 1
  {
    assert Pow2(1) == 2;
    AndMask(e, 1);
    BitAnd(e, PRESENT) != 0
  }

  /** `phys | attr` for a table, `phys | attr | LARGE` for a page: address and attribute bits do not overlap. */
  function MakeTableEntry(p: Word, attr: nat): (e: Word)
    requires Aligned(p) && attr < LARGE
    ensures e == TableEntry(p, attr)
  {
    OrIntoPage(p, attr);
    BitOr(p, attr)
  }

  function MakeLeafEntry(p: Word, attr: nat): (e: Word)
    requires Aligned(p) && attr < LARGE
    ensures e == LeafEntry(p, attr)
  {
    OrIntoPage(p, attr + LARGE);
    OrIntoLarge(attr);
    OrAssociates(p, attr, LARGE);
    BitOr(BitOr(p, attr), LARGE)
  }

  /** `(v >> low) & 0x1FF` for the three table levels. */
  function Pml4IndexOf(v: Word): (i: Index)
    ensures i == Pml4Index(v)
  {
    PowerOfPage();
    MaskNine(ShiftRight(v, 39));
    BitAnd(ShiftRight(v, 39), 0x1FF)
  }

  function PdptIndexOf(v: Word): (i: Index)
    ensures i == PdptIndex(v)
  {
    PowerOfPage();
    MaskNine(ShiftRight(v, 30));
    BitAnd(ShiftRight(v, 30), 0x1FF)
  }

  function PdIndexOf(v: Word): (i: Index)
    ensures i == PdIndex(v)
  {
    PowerOfPage();
    MaskNine(ShiftRight(v, 21));
    BitAnd(ShiftRight(v, 21), 0x1FF)
  }

  /** TABLE_ENTRY_PRESENT_ATTRIBUTE | TABLE_ENTRY_WRITABLE_ATTRIBUTE, and with TABLE_ENTRY_USER_ATTRIBUTE. */
  function KernelAttributes(): (a: nat)
    ensures a == 3
  {
    BitOr(PRESENT, WRITABLE)
  }

  function UserAttributes(): (a: nat)
    ensures a == 7
  {
    BitOr(BitOr(PRESENT, WRITABLE), USER)
  }

  /** An entry built by the kernel gives back the table or page it was built from. */
  lemma EntryRoundTrip(p: Word, attr: nat)
    requires Aligned(p) && attr < LARGE
    ensures PageDirectoryTableAddress(MakeTableEntry(p, attr)) == p
    ensures PageAddressOf(MakeLeafEntry(p, attr)) == p
    ensures attr % 2 == 1 ==> IsPresent(MakeTableEntry(p, attr)) && IsPresent(MakeLeafEntry(p, attr))
  {
    var t, l := MakeTableEntry(p, attr), MakeLeafEntry(p, attr);
    assert t == p + attr && l == p + (attr + LARGE);
    PageMultiple(p, attr);
    PageMultiple(p, attr + LARGE);
  }

  /** Rounding up gives the first page boundary at or above `v` exactly when that boundary is a 64-bit number. */
  lemma AlignUpIsCeiling(v: Word)
    ensures v <= PageAlignUp(v) < v + PAGE_SIZE <==> v + PAGE_SIZE - 1 < WORD_LIMIT
  {
    var q, r := (v + PAGE_SIZE - 1) / PAGE_SIZE, (v + PAGE_SIZE - 1) % PAGE_SIZE;
    assert v + PAGE_SIZE - 1 == q * PAGE_SIZE + r;
  }

  lemma PowerOfPage()
    ensures Pow2(12) == 4096 && Pow2(21) == PAGE_SIZE && Pow2(30) == 0x4000_0000 && Pow2(39) == 0x80_0000_0000
  {
    assert Pow2(12) == 4096;
    assert Pow2(21) == PAGE_SIZE;
    assert Pow2(30) == 0x4000_0000;
  }

  lemma MaskNine(x: nat)
    ensures BitAnd(x, 0x1FF) == x % ENTRIES
  {
    assert Pow2(9) == ENTRIES;
    AndMask(x, 9);
  }

  lemma OrIntoLarge(attr: nat)
    requires attr < LARGE
    ensures BitOr(attr, LARGE) == attr + LARGE
  {
    assert Pow2(7) == LARGE;
    OrCommutes(attr, LARGE);
    OrDisjoint(LARGE, attr, 7);
  }

  lemma OrIntoPage(p: Word, x: nat)
    requires Aligned(p) && x < 4096
    ensures BitOr(p, x) == p + x < WORD_LIMIT
  {
    PageMultiple(p, x);
    assert Pow2(12) == 4096;
    OrDisjoint(p, x, 12);
  }

  lemma PageMultiple(p: Word, x: nat)
    requires Aligned(p) && x < 4096
    ensures p % 4096 == 0 && p + x < WORD_LIMIT
    ensures (p + x) % 4096 == x && (p + x) % PAGE_SIZE == x && (p + x) % 2 == x % 2
  {
    var q := p / PAGE_SIZE;
    assert p == PAGE_SIZE * q && p == 4096 * (512 * q);
    assert q < 0x800_0000_0000;
    QuotientUnique(p + x, PAGE_SIZE, q, x);
    QuotientUnique(p + x, 4096, 512 * q, x);
    QuotientUnique(p + x, 2, 0x10_0000 * q + x / 2, x % 2);
    QuotientUnique(p, 4096, 512 * q, 0);
  }
}
