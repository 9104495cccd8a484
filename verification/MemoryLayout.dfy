/** Addresses and table entries in arithmetic terms: what the macros of kernel/memory.h mean.
    Module MemoryMacros has them bit by bit. */
module MemoryLayout {
  import opened Bits

  const PAGE_SIZE := 0x20_0000
  const KERNEL_BASE := 0xFFFF_8000_0000_0000
  const USER_BASE := 0x40_0000
  const PHYSICAL_MEMORY_SIZE := 0x4000_0000
  const VIRTUAL_END := KERNEL_BASE + PHYSICAL_MEMORY_SIZE
  const PRESENT := 1
  const WRITABLE := 2
  const USER := 4
  const LARGE := 128
  const ENTRIES := 512

  type Index = i: nat | i < ENTRIES

  predicate Aligned(a: Word) { a % PAGE_SIZE == 0 }

  function AlignDown(v: Word): Word { v - v % PAGE_SIZE }

  /** The next page boundary at or above `v`, provided it is a 64-bit number. */
  function AlignUp(v: Word): Word
    requires v + PAGE_SIZE - 1 < WORD_LIMIT
  {
    (v + PAGE_SIZE - 1) / PAGE_SIZE * PAGE_SIZE
  }

  function PhyToVir(p: Word): Word { (p + KERNEL_BASE) % WORD_LIMIT }

  function VirToPhy(v: Word): Word { (v - KERNEL_BASE) % WORD_LIMIT }

  /** The address field of an entry that points to a table, and of one that maps a 2 MB page. */
  function TableAddress(e: Word): Word { e - e % 4096 }
  function PageAddress(e: Word): Word { e - e % PAGE_SIZE }

  /** An entry for the table, or the 2 MB page, at physical address `p`. */
  function TableEntry(p: Word, attr: nat): Word
    requires Aligned(p) && attr < LARGE
  {
    p + attr
  }

  function LeafEntry(p: Word, attr: nat): Word
    requires Aligned(p) && attr < LARGE
  {
    p + attr + LARGE
  }

  function Pml4Index(v: Word): Index { v / 0x80_0000_0000 % ENTRIES }
  function PdptIndex(v: Word): Index { v / 0x4000_0000 % ENTRIES }
  function PdIndex(v: Word): Index { v / PAGE_SIZE % ENTRIES }
}
