/** The user page of a process as bytes. */
module UserMemory {
  import opened Bits
  import opened MemoryLayout
  import opened PageTables
  import opened MapGrowth
  import opened AddressSpaces
  import opened CStrings

  const HALF := 0x1_0000_0000

  /** Eight bytes, the least significant first. */
  function WordOfBytes(b: seq<Byte>): Word
    requires |b| == 8
  {
    HalfOfBytes(b[..4]) + HALF * HalfOfBytes(b[4..])
  }

  function HalfOfBytes(b: seq<Byte>): (n: nat)
    requires |b| == 4
    ensures n < HALF
  {
    (b[0] as int) + 0x100 * (b[1] as int) + 0x1_0000 * (b[2] as int) + 0x100_0000 * (b[3] as int)
  }

  /** Byte `k` of a word. */
  function ByteOfWord(w: Word, k: nat): Byte
    requires k < 8
  {
    if k < 4 then ByteOfHalf(w % HALF, k) else ByteOfHalf(w / HALF, k - 4)
  }

  function ByteOfHalf(h: nat, k: nat): Byte
    requires h < HALF && k < 4
  {
    if k == 0 then h % 0x100 else if k == 1 then h / 0x100 % 0x100 else if k == 2 then h / 0x1_0000 % 0x100
      else h / 0x100_0000
  }

  lemma HalfRoundTrip(b: seq<Byte>, k: nat)
    requires |b| == 4 && k < 4
    ensures ByteOfHalf(HalfOfBytes(b), k) == b[k]
  {
    var h, b0: int, b1: int, b2: int, b3: int := HalfOfBytes(b), b[0], b[1], b[2], b[3];
    var q := b2 + 0x100 * b3;
    var r := b1 + 0x100 * q;
    QuotientUnique(h, 0x100, r, b0);
    QuotientUnique(r, 0x100, q, b1);
    QuotientUnique(q, 0x100, b3, b2);
    QuotientUnique(h, 0x1_0000, q, b0 + 0x100 * b1);
    QuotientUnique(h, 0x100_0000, b3, b0 + 0x100 * b1 + 0x1_0000 * b2);
  }

  lemma WordRoundTrip(b: seq<Byte>, k: nat)
    requires |b| == 8 && k < 8
    ensures ByteOfWord(WordOfBytes(b), k) == b[k]
  {
    var low, high := HalfOfBytes(b[..4]), HalfOfBytes(b[4..]);
    QuotientUnique(WordOfBytes(b), HALF, high, low);
    if k < 4 { HalfRoundTrip(b[..4], k); } else { HalfRoundTrip(b[4..], k - 4); }
  }

  /** The least significant byte comes first. */
  lemma LowByteFirst(b: seq<Byte>)
    requires |b| == 8
    ensures WordOfBytes(b) == (b[0] as int) + 0x100 * (b[1] as int) + 0x1_0000 * (b[2] as int)
      + 0x100_0000 * (b[3] as int) + 0x1_0000_0000 * (b[4] as int) + 0x100_0000_0000 * (b[5] as int)
      + 0x1_0000_0000_0000 * (b[6] as int) + 0x100_0000_0000_0000 * (b[7] as int)
  {
  }

  /** A page with these bytes, and the bytes of a page. */
  function PageOfBytes(b: seq<Byte>): PageData
    requires |b| == PAGE_SIZE
  {
    seq(PAGE_WORDS, i requires 0 <= i < PAGE_WORDS => WordOfBytes(b[8 * i..8 * i + 8]))
  }

  function BytesOfPage(page: PageData): (b: seq<Byte>)
    ensures |b| == PAGE_SIZE
  {
    seq(PAGE_SIZE, i requires 0 <= i < PAGE_SIZE => ByteOfWord(page[i / 8], i % 8))
  }

  lemma PageRoundTrip(b: seq<Byte>)
    requires |b| == PAGE_SIZE
    ensures BytesOfPage(PageOfBytes(b)) == b
  {
    forall i | 0 <= i < PAGE_SIZE ensures BytesOfPage(PageOfBytes(b))[i] == b[i] {
      WordRoundTrip(b[8 * (i / 8)..8 * (i / 8) + 8], i % 8);
    }
  }

  /** Two pages with the same bytes are the same. */
  lemma BytesDetermine(p: PageData, q: PageData)
    requires BytesOfPage(p) == BytesOfPage(q)
    ensures p == q
  {
    forall i | 0 <= i < PAGE_WORDS ensures p[i] == q[i] {
      forall k: nat | k < 8 ensures ByteOfWord(p[i], k) == ByteOfWord(q[i], k) {
        assert (8 * i + k) / 8 == i && (8 * i + k) % 8 == k;
        assert BytesOfPage(p)[8 * i + k] == BytesOfPage(q)[8 * i + k];
      }
      WordByBytes(p[i], q[i]);
    }
  }

  lemma WordByBytes(v: Word, w: Word)
    requires forall k: nat :: k < 8 ==> ByteOfWord(v, k) == ByteOfWord(w, k)
    ensures v == w
  {
    forall k: nat | k < 4 ensures ByteOfHalf(v % HALF, k) == ByteOfHalf(w % HALF, k)
      && ByteOfHalf(v / HALF, k) == ByteOfHalf(w / HALF, k) {
      assert ByteOfWord(v, k) == ByteOfWord(w, k) && ByteOfWord(v, k + 4) == ByteOfWord(w, k + 4);
    }
    HalfByBytes(v % HALF, w % HALF);
    HalfByBytes(v / HALF, w / HALF);
  }

  lemma HalfByBytes(g: nat, h: nat)
    requires g < HALF && h < HALF && forall k: nat :: k < 4 ==> ByteOfHalf(g, k) == ByteOfHalf(h, k)
    ensures g == h
  {
    HalfDigits(g);
    HalfDigits(h);
    assert ByteOfHalf(g, 0) == ByteOfHalf(h, 0) && ByteOfHalf(g, 1) == ByteOfHalf(h, 1);
    assert ByteOfHalf(g, 2) == ByteOfHalf(h, 2) && ByteOfHalf(g, 3) == ByteOfHalf(h, 3);
  }

  lemma HalfDigits(h: nat)
    requires h < HALF
    ensures h == ByteOfHalf(h, 0) + 0x100 * ByteOfHalf(h, 1) + 0x1_0000 * ByteOfHalf(h, 2) + 0x100_0000 * ByteOfHalf(h,
      3)
  {
    var q := h / 0x100;
    var r := q / 0x100;
    QuotientUnique(h, 0x1_0000, r, h % 0x100 + 0x100 * (q % 0x100));
    QuotientUnique(h, 0x100_0000, r / 0x100, h % 0x100 + 0x100 * (q % 0x100) + 0x1_0000 * (r % 0x100));
  }

  /** `data` written over `b` from position `at` on. */
  function Overwrite(b: seq<Byte>, at: nat, data: seq<Byte>): (c: seq<Byte>)
    requires at + |data| <= |b|
    ensures |c| == |b| && forall i :: 0 <= i < |b| ==> c[i] == if at <= i < at + |data| then data[i - at] else b[i]
  {
    b[..at] + data + b[at + |data|..]
  }

  /** The bytes from `address` on lie in the user page. */
  predicate InUserPage(address: Word, size: nat) { USER_BASE <= address && address + size <= USER_BASE + PAGE_SIZE }

  /** Exactly these bytes of the user page of the map changed, and no other page in use. */
  ghost predicate Stored(a: Snapshot, b: Snapshot, pageMap: Word, address: Word, data: seq<Byte>) {
    && InUserPage(address, |data|) && InDirectMap(pageMap)
    && HasUserPage(a.ram, PageAt(pageMap)) && HasUserPage(b.ram, PageAt(pageMap)) && b.own == a.own
    && var u := UserPageOf(a.ram, PageAt(pageMap));
       && UserPageOf(b.ram, PageAt(pageMap)) == u
       && BytesOfPage(b.ram[u]) == Overwrite(BytesOfPage(a.ram[u]), address - USER_BASE, data)
       && forall p: PageNo :: p == u || SamePage(a, b, p)
  }

  lemma StoredInUserPage(a: Snapshot, b: Snapshot, pageMap: Word, address: Word, data: seq<Byte>)
    requires InUserPage(address, |data|) && InDirectMap(pageMap) && HasUserPage(a.ram, PageAt(pageMap))
      && b.own == a.own
    requires var u := UserPageOf(a.ram, PageAt(pageMap));
      && b.ram == a.ram[u := PageOfBytes(Overwrite(BytesOfPage(a.ram[u]), address - USER_BASE, data))]
    requires SameWalks(a.ram, b.ram, PageAt(pageMap))
    ensures Stored(a, b, pageMap, address, data)
  {
    PageRoundTrip(Overwrite(BytesOfPage(a.ram[UserPageOf(a.ram, PageAt(pageMap))]), address - USER_BASE, data));
  }

  /** Storing after a step that only changed free pages. */
  lemma StoredAfter(a: Snapshot, m: Snapshot, b: Snapshot, pageMap: Word, address: Word, data: seq<Byte>)
    requires SameUse(a, m) && Stored(m, b, pageMap, address, data)
    requires HasUserPage(a.ram, PageAt(pageMap))
      && UserPageOf(a.ram, PageAt(pageMap)) == UserPageOf(m.ram, PageAt(pageMap))
    requires a.own[UserPageOf(a.ram, PageAt(pageMap))] != Free
    ensures Stored(a, b, pageMap, address, data)
  {
    var u := UserPageOf(a.ram, PageAt(pageMap));
    assert SamePage(a, m, u);
    forall p: PageNo ensures p == u || SamePage(a, b, p) { assert SamePage(a, m, p) && (p == u || SamePage(m, b, p)); }
    forall p: PageNo ensures b.own[p] == a.own[p] { assert SamePage(a, m, p); }
    assert b.own == a.own;
  }

  /** The user page of the child's map holds what that of the parent's map held. */
  predicate PageCopied(a: Ram, b: Ram, parent: Word, child: Word) {
    && InDirectMap(parent) && InDirectMap(child) && HasUserPage(a, PageAt(parent)) && HasUserPage(b, PageAt(child))
    && b[UserPageOf(b, PageAt(child))] == a[UserPageOf(a, PageAt(parent))]
  }

  /** The user page of the map holds these bytes. */
  ghost predicate UserPageHolds(ram: Ram, pageMap: Word, image: seq<Byte>) {
    && |image| == PAGE_SIZE && InDirectMap(pageMap) && HasUserPage(ram, PageAt(pageMap))
    && BytesOfPage(ram[UserPageOf(ram, PageAt(pageMap))]) == image
  }

  /** Storing a whole page leaves nothing of what was there. */
  lemma WholePageStored(a: Snapshot, b: Snapshot, pageMap: Word, image: seq<Byte>)
    requires Stored(a, b, pageMap, USER_BASE, image) && |image| == PAGE_SIZE
    ensures UserPageHolds(b.ram, pageMap, image)
  {
    var bytes := BytesOfPage(a.ram[UserPageOf(a.ram, PageAt(pageMap))]);
    assert Overwrite(bytes, 0, image) == image;
  }

  // ----- What user mode sees -----

  /** A load of user mode from the address `v`, with this map loaded, gives the byte `b`: the walk of the processor
      finds a page that user mode may read, and this is the byte there. */
  ghost predicate Sees(ram: Ram, pageMap: Word, v: Word, b: Byte) {
    var w := Walk(ram, VirToPhy(pageMap), v);
    && w.Some? && UserAccess(w.value)
    && var t := Target(w.value, v);
       t < PAGES * PAGE_SIZE && b == ByteOfWord(ram[t / PAGE_SIZE][t % PAGE_SIZE / 8], t % 8)
  }

  /** The addresses of the user page show its bytes in order. */
  lemma SeesUserPage(ram: Ram, own: Owners, pages: nat, pageMap: Word, k: nat)
    requires Shape(ram, own) && SpacesOk(ram, own, pages) && pages <= PAGES && k < PAGE_SIZE
    requires InDirectMap(pageMap) && own[PageAt(pageMap)].Root? && HasUserPage(ram, PageAt(pageMap))
    ensures Sees(ram, pageMap, USER_BASE + k, BytesOfPage(ram[UserPageOf(ram, PageAt(pageMap))])[k])
  {
    var r, v := PageAt(pageMap), USER_BASE + k;
    assert Space(ram, own, r, pages);
    UserHalf(ram, own, r, pages, v);
    QuotientUnique(v, PAGE_SIZE, 2, k);
    var u := UserPageOf(ram, r);
    QuotientUnique(u * PAGE_SIZE + k, PAGE_SIZE, u, k);
    QuotientUnique(u * PAGE_SIZE + k, 8, u * (PAGE_SIZE / 8) + k / 8, k % 8);
  }

  /** And nothing else is seen there. */
  lemma SeesExactly(ram: Ram, own: Owners, pages: nat, pageMap: Word, k: nat, c: Byte)
    requires Shape(ram, own) && SpacesOk(ram, own, pages) && pages <= PAGES && k < PAGE_SIZE
    requires InDirectMap(pageMap) && own[PageAt(pageMap)].Root? && HasUserPage(ram, PageAt(pageMap))
    ensures Sees(ram, pageMap, USER_BASE + k, c) <==> c == BytesOfPage(ram[UserPageOf(ram, PageAt(pageMap))])[k]
  {
    SeesUserPage(ram, own, pages, pageMap, k);
  }

  ghost predicate SeesAt(ram: Ram, pageMap: Word, address: Word, data: seq<Byte>, k: nat)
    requires InUserPage(address, |data|) && k < |data|
  {
    Sees(ram, pageMap, address + k, data[k])
  }

  /** User mode sees these bytes from the address on. */
  ghost predicate SeesBytes(ram: Ram, pageMap: Word, address: Word, data: seq<Byte>) {
    InUserPage(address, |data|) && forall k: nat :: k < |data| ==> SeesAt(ram, pageMap, address, data, k)
  }

  lemma SeesStored(a: Snapshot, b: Snapshot, pages: nat, pageMap: Word, address: Word, data: seq<Byte>)
    requires Shape(a.ram, a.own) && SpacesOk(a.ram, a.own, pages) && pages <= PAGES
    requires Shape(b.ram, b.own) && SpacesOk(b.ram, b.own, pages)
    requires Stored(a, b, pageMap, address, data) && a.own[PageAt(pageMap)].Root?
    ensures SeesBytes(b.ram, pageMap, address, data)
  {
    forall k: nat | k < |data| ensures SeesAt(b.ram, pageMap, address, data, k) {
      StoredIsSeen(a, b, pages, pageMap, address, data, address - USER_BASE + k, data[k]);
    }
  }

  /** After a store, user mode sees the stored bytes at their addresses, and everywhere else what it saw before. */
  lemma StoredIsSeen(a: Snapshot, b: Snapshot, pages: nat, pageMap: Word, address: Word, data: seq<Byte>, k: nat,
      c: Byte)
    requires Shape(a.ram, a.own) && SpacesOk(a.ram, a.own, pages) && pages <= PAGES && k < PAGE_SIZE
    requires Shape(b.ram, b.own) && SpacesOk(b.ram, b.own, pages)
    requires Stored(a, b, pageMap, address, data) && a.own[PageAt(pageMap)].Root?
    ensures var v := USER_BASE + k;
      Sees(b.ram, pageMap, v, c) <==>
        if address <= v < address + |data| then c == data[v - address] else Sees(a.ram, pageMap, v, c)
  {
    SeesExactly(a.ram, a.own, pages, pageMap, k, c);
    SeesExactly(b.ram, b.own, pages, pageMap, k, c);
  }

  ghost predicate SameSight(a: Ram, pageMap: Word, b: Ram, pageMap': Word, k: nat, c: Byte)
    requires k < PAGE_SIZE
  {
    Sees(a, pageMap, USER_BASE + k, c) <==> Sees(b, pageMap', USER_BASE + k, c)
  }

  /** User mode sees the same with both maps, at all addresses of the user page. */
  ghost predicate SameView(a: Ram, pageMap: Word, b: Ram, pageMap': Word) {
    forall k: nat, c: Byte :: k < PAGE_SIZE ==> SameSight(a, pageMap, b, pageMap', k, c)
  }

  /** After the copy for a child, it sees what its parent saw. */
  lemma ChildSees(a: Snapshot, b: Snapshot, pages: nat, parent: Word, child: Word)
    requires Shape(a.ram, a.own) && SpacesOk(a.ram, a.own, pages) && pages <= PAGES
    requires Shape(b.ram, b.own) && SpacesOk(b.ram, b.own, pages)
    requires PageCopied(a.ram, b.ram, parent, child)
    requires a.own[PageAt(parent)].Root? && b.own[PageAt(child)].Root?
    ensures SameView(a.ram, parent, b.ram, child)
  {
    forall k: nat, c: Byte | k < PAGE_SIZE ensures SameSight(a.ram, parent, b.ram, child, k, c) {
      SeesExactly(a.ram, a.own, pages, parent, k, c);
      SeesExactly(b.ram, b.own, pages, child, k, c);
    }
  }
}
