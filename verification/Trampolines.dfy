/** Trampoline pages: allocations bumped through pages of memory whose first word links each page
    to the one before, and the blocks found again from the code pointers handed out. */
module Trampolines {
  import opened Words

  /** The size of a page of the target, whatever it is: room at least for the link word and the two
      words in front of a trampoline. */
  const PAGE_SIZE: PageSize

  type PageSize = n: nat | n >= 24 witness 4096
  const WORD_BYTES: nat := 8

  type Memory = map<int, nat>

  // ---- Bytes and words ----------------------------------------------------------------------

  ghost predicate InMemory(m: Memory, a: nat, n: nat) {
    forall x :: a <= x < a + n ==> x in m
  }

  function Load(m: Memory, a: nat, n: nat): (bytes: seq<nat>)
    requires InMemory(m, a, n)
    ensures |bytes| == n
  {
    seq(n, i requires 0 <= i < n => m[a + i])
  }

  function Store(m: Memory, a: nat, bytes: seq<nat>): (m': Memory)
    ensures m'.Keys == m.Keys
  {
    map x | x in m :: if a <= x < a + |bytes| then bytes[x - a] else m[x]
  }

  /** `n` bytes of a number, the least significant first. */
  function Encode(v: nat, n: nat): (bytes: seq<nat>)
    ensures |bytes| == n
  {
    if n == 0 then [] else [v % 256] + Encode(v / 256, n - 1)
  }

  function Decode(bytes: seq<nat>): nat {
    if bytes == [] then 0 else bytes[0] + 256 * Decode(bytes[1..])
  }

  lemma NextByte(v: nat, n: nat)
    requires n > 0 && v < Pow2(8 * n)
    ensures v / 256 < Pow2(8 * (n - 1))
  {
    Pow2Add(8 * (n - 1), 8);
    Pow2Constants();
    DivBelow(v, Pow2(8 * (n - 1)), 256);
  }

  lemma {:induction false} DecodeEncode(v: nat, n: nat)
    requires v < Pow2(8 * n)
    ensures Decode(Encode(v, n)) == v
  {
    if n > 0 {
      NextByte(v, n);
      DecodeEncode(v / 256, n - 1);
      assert Encode(v, n)[1..] == Encode(v / 256, n - 1);
    }
  }

  function LoadPointer(m: Memory, a: nat): nat
    requires InMemory(m, a, WORD_BYTES)
  {
    Decode(Load(m, a, WORD_BYTES))
  }

  function StorePointer(m: Memory, a: nat, v: nat): (m': Memory)
    ensures m'.Keys == m.Keys
  {
    Store(m, a, Encode(v, WORD_BYTES))
  }

  lemma LoadStored(m: Memory, a: nat, bytes: seq<nat>)
    requires InMemory(m, a, |bytes|)
    ensures Load(Store(m, a, bytes), a, |bytes|) == bytes
  {
  }

  lemma LoadApart(m: Memory, a: nat, bytes: seq<nat>, b: nat, n: nat)
    requires InMemory(m, b, n)
    requires b + n <= a || a + |bytes| <= b
    ensures Load(Store(m, a, bytes), b, n) == Load(m, b, n)
  {
  }

  lemma PointerApart(m: Memory, a: nat, bytes: seq<nat>, b: nat)
    requires InMemory(m, b, WORD_BYTES)
    requires b + WORD_BYTES <= a || a + |bytes| <= b
    ensures LoadPointer(Store(m, a, bytes), b) == LoadPointer(m, b)
  {
    LoadApart(m, a, bytes, b, WORD_BYTES);
  }

  lemma PointerStored(m: Memory, a: nat, v: nat)
    requires InMemory(m, a, WORD_BYTES) && v < TWO64
    ensures LoadPointer(StorePointer(m, a, v), a) == v
  {
    LoadStored(m, a, Encode(v, WORD_BYTES));
    Pow2Constants();
    DecodeEncode(v, WORD_BYTES);
  }

  /** Anonymous mapping: a page of zeros. */
  function MapPage(m: Memory, a: nat): Memory {
    m + map x | x in PageBytes(a) :: 0
  }

  function PageBytes(a: nat): (s: set<int>)
    ensures forall x :: x in s <==> a <= x < a + PAGE_SIZE
  {
    Range(a + PAGE_SIZE) - Range(a)
  }

  // ---- Pages, allocations and what was stored -----------------------------------------------

  datatype Region = Region(page: nat, start: nat, size: nat)

  /** A block installed in a region: where it starts, the block's code and copy, the trampoline. */
  datatype Entry = Entry(region: Region, invoke: nat, copy: nat, code: seq<nat>)

  ghost predicate PagesApart(pages: seq<nat>) {
    forall i, j :: 0 <= i < j < |pages| ==> pages[i] + PAGE_SIZE <= pages[j] || pages[j] + PAGE_SIZE <= pages[i]
  }

  ghost predicate PagesMapped(m: Memory, pages: seq<nat>) {
    forall i :: 0 <= i < |pages| ==> 0 < pages[i] < TWO64 && InMemory(m, pages[i], PAGE_SIZE)
  }

  function Head(pages: seq<nat>): nat { if pages == [] then 0 else pages[0] }

  /** The first word of every page is the address of the page mapped before it. */
  ghost predicate Linked(m: Memory, pages: seq<nat>)
    requires PagesMapped(m, pages)
  {
    forall i :: 0 <= i < |pages| ==> LoadPointer(m, pages[i]) == Head(pages[i + 1..])
  }

  /** Allocations start past the link word of a page of the list and do not overlap. */
  ghost predicate RegionsPlaced(pages: seq<nat>, regions: seq<Region>) {
    && (forall i :: 0 <= i < |regions| ==> regions[i].page in pages && regions[i].start >= regions[i].page + WORD_BYTES)
    && (forall i, j :: 0 <= i < j < |regions| && regions[i].page == regions[j].page ==>
          regions[i].start + regions[i].size <= regions[j].start)
  }

  /** The allocations of the current page end at or before the offset. */
  ghost predicate Bumped(pages: seq<nat>, regions: seq<Region>, offset: nat) {
    forall i :: 0 <= i < |regions| && regions[i].page == Head(pages) ==>
      regions[i].start + regions[i].size <= Head(pages) + offset
  }

  predicate Inside(r: Region) { r.page + WORD_BYTES <= r.start && r.start + r.size <= r.page + PAGE_SIZE }

  ghost predicate EntryHeld(m: Memory, e: Entry) {
    && e.region.size == 2 * WORD_BYTES + |e.code| && |e.code| > 0
    && Inside(e.region) && InMemory(m, e.region.page, PAGE_SIZE)
    && LoadPointer(m, e.region.start) == e.invoke
    && LoadPointer(m, e.region.start + WORD_BYTES) == e.copy
    && Load(m, e.region.start + 2 * WORD_BYTES, |e.code|) == e.code
  }

  function ImpOf(e: Entry): nat { e.region.start + 2 * WORD_BYTES }

  ghost predicate EntriesHeld(m: Memory, regions: seq<Region>, entries: seq<Entry>) {
    forall k :: 0 <= k < |entries| ==> entries[k].region in regions && EntryHeld(m, entries[k])
  }

  ghost predicate Apart(r: Region, s: Region) { r.start + r.size <= s.start || s.start + s.size <= r.start }

  /** Any two allocations that stay in their pages share no byte. */
  lemma AllocationsApart(m: Memory, pages: seq<nat>, regions: seq<Region>, i: nat, j: nat)
    requires PagesMapped(m, pages) && PagesApart(pages) && RegionsPlaced(pages, regions)
    requires i < j < |regions| && Inside(regions[i]) && Inside(regions[j])
    ensures Apart(regions[i], regions[j])
  {
    var u :| 0 <= u < |pages| && pages[u] == regions[i].page;
    var v :| 0 <= v < |pages| && pages[v] == regions[j].page;
  }

  /** No allocation that stays in its page touches the link word of any page. */
  lemma LinksApart(m: Memory, pages: seq<nat>, regions: seq<Region>, i: nat, p: nat)
    requires PagesMapped(m, pages) && PagesApart(pages) && RegionsPlaced(pages, regions)
    requires i < |regions| && Inside(regions[i]) && p < |pages|
    ensures Apart(regions[i], Region(pages[p], pages[p], WORD_BYTES))
  {
    var u :| 0 <= u < |pages| && pages[u] == regions[i].page;
  }

  /** Writing inside the latest allocation leaves the links alone. */
  lemma WriteKeepsLinks(m: Memory, pages: seq<nat>, regions: seq<Region>, a: nat, bytes: seq<nat>)
    requires PagesMapped(m, pages) && PagesApart(pages) && Linked(m, pages) && RegionsPlaced(pages, regions)
    requires |regions| > 0 && Inside(regions[|regions| - 1])
    requires regions[|regions| - 1].start <= a
      && a + |bytes| <= regions[|regions| - 1].start + regions[|regions| - 1].size
    ensures PagesMapped(Store(m, a, bytes), pages) && Linked(Store(m, a, bytes), pages)
  {
    hide Store, LoadPointer, RegionsPlaced, PagesApart, Inside;
    forall i | 0 <= i < |pages| ensures LoadPointer(Store(m, a, bytes), pages[i]) == LoadPointer(m, pages[i]) {
      LinksApart(m, pages, regions, |regions| - 1, i);
      PointerApart(m, a, bytes, pages[i]);
    }
  }

  lemma EntryInside(m: Memory, e: Entry)
    requires EntryHeld(m, e)
    ensures Inside(e.region)
  {
  }

  lemma EntryKept(m: Memory, e: Entry, a: nat, bytes: seq<nat>)
    requires EntryHeld(m, e) && (a + |bytes| <= e.region.start || e.region.start + e.region.size <= a)
    ensures EntryHeld(Store(m, a, bytes), e)
  {
    hide Load, Decode;
    LoadApart(m, a, bytes, e.region.start, WORD_BYTES);
    LoadApart(m, a, bytes, e.region.start + WORD_BYTES, WORD_BYTES);
    LoadApart(m, a, bytes, e.region.start + 2 * WORD_BYTES, |e.code|);
  }

  /** Writing inside the latest allocation leaves what the earlier ones hold alone. */
  lemma WriteKeepsEntries(m: Memory, pages: seq<nat>, regions: seq<Region>, entries: seq<Entry>, a: nat,
                          bytes: seq<nat>)
    requires PagesMapped(m, pages) && PagesApart(pages) && RegionsPlaced(pages, regions)
    requires |regions| > 0 && Inside(regions[|regions| - 1])
    requires EntriesHeld(m, regions[..|regions| - 1], entries)
    requires regions[|regions| - 1].start <= a
      && a + |bytes| <= regions[|regions| - 1].start + regions[|regions| - 1].size
    ensures EntriesHeld(Store(m, a, bytes), regions[..|regions| - 1], entries)
  {
    hide EntryHeld, Store, PagesApart, RegionsPlaced;
    var n := |regions| - 1;
    forall k | 0 <= k < |entries| ensures EntryHeld(Store(m, a, bytes), entries[k]) {
      var i :| 0 <= i < n && regions[i] == entries[k].region;
      EntryInside(m, entries[k]);
      AllocationsApart(m, pages, regions, i, n);
      EntryKept(m, entries[k], a, bytes);
    }
  }

  lemma MapPageKeeps(m: Memory, a: nat, b: nat, n: nat)
    requires InMemory(m, b, n) && (forall x :: a <= x < a + PAGE_SIZE ==> x !in m)
    ensures InMemory(MapPage(m, a), b, n) && Load(MapPage(m, a), b, n) == Load(m, b, n)
    ensures InMemory(MapPage(m, a), a, PAGE_SIZE)
  {
  }

  // ---- The allocator ------------------------------------------------------------------------

  /** The answer of `mmap`. */
  datatype Mapping = Failed | Mapped(address: nat)

  /** A mapping is somewhere else than all memory in use, and not at zero. */
  ghost predicate Fresh(m: Memory, mapping: Mapping) {
    mapping.Mapped? ==>
      && 0 < mapping.address < TWO64
      && (forall x :: mapping.address <= x < mapping.address + PAGE_SIZE ==> x !in m)
  }

  datatype Trampoline = Trampoline(blockData: nat, trampoline: nat)

  const INVALID := Trampoline(0, 0)

  /** A block: its flags word and its invoke pointer. */
  datatype Block = Block(flags: nat, invoke: nat)

  /** `(flags & BLOCK_USE_STRET) == BLOCK_USE_STRET`: bit 29. */
  predicate UsesStret(b: Block) { b.flags / 0x2000_0000 % 2 == 1 }

  /** The flags above the bit and those below it do not matter. */
  lemma StretIsBit29(b: Block, above: nat, bit: nat, below: nat)
    requires b.flags == above * Pow2(30) + bit * Pow2(29) + below && bit < 2 && below < Pow2(29)
    ensures UsesStret(b) <==> bit == 1
  {
    assert Pow2(29) == 0x2000_0000 && Pow2(30) == 0x4000_0000 by {
      Pow2Constants();
      Pow2Add(29, 1);
    }
    hide Pow2;
    ModUnique(b.flags, 0x2000_0000, above * 2 + bit, below);
    ModUnique(above * 2 + bit, 2, above, bit);
  }

  ghost predicate Placed(m: Memory, pages: seq<nat>, regions: seq<Region>, offset: nat) {
    && PagesMapped(m, pages) && PagesApart(pages) && Linked(m, pages)
    && RegionsPlaced(pages, regions) && Bumped(pages, regions, offset)
    && (offset == 0 <==> pages == [])
    && (offset != 0 ==> offset >= WORD_BYTES)
  }

  lemma OldPageKept(m: Memory, a: nat, link: nat, p: nat)
    requires Fresh(m, Mapped(a)) && InMemory(m, p, PAGE_SIZE)
    ensures var m' := StorePointer(MapPage(m, a), a, link);
      InMemory(m', p, PAGE_SIZE) && LoadPointer(m', p) == LoadPointer(m, p)
    ensures p + PAGE_SIZE <= a || a + PAGE_SIZE <= p
  {
    assert p in m && p + PAGE_SIZE - 1 in m;
    MapPageKeeps(m, a, p, PAGE_SIZE);
    MapPageKeeps(m, a, p, WORD_BYTES);
    LoadApart(MapPage(m, a), a, Encode(link, WORD_BYTES), p, WORD_BYTES);
  }

  lemma NewPage(m: Memory, a: nat, link: nat)
    requires Fresh(m, Mapped(a)) && link < TWO64
    ensures var m' := StorePointer(MapPage(m, a), a, link);
      InMemory(m', a, PAGE_SIZE) && LoadPointer(m', a) == link
  {
    MapPageKeeps(m, a, a, 0);
    PointerStored(MapPage(m, a), a, link);
  }

  /** Mapping a page and linking it in front of the list. */
  lemma PageLinked(m: Memory, pages: seq<nat>, a: nat)
    requires PagesMapped(m, pages) && PagesApart(pages) && Linked(m, pages) && Fresh(m, Mapped(a))
    ensures var m' := StorePointer(MapPage(m, a), a, Head(pages));
      PagesMapped(m', [a] + pages) && PagesApart([a] + pages) && Linked(m', [a] + pages)
  {
    hide StorePointer, LoadPointer, MapPage, Fresh;
    var m' := StorePointer(MapPage(m, a), a, Head(pages));
    FreshBounds(m, a);
    NewPage(m, a, Head(pages));
    var all := [a] + pages;
    forall i | 1 <= i < |all|
      ensures InMemory(m', all[i], PAGE_SIZE)
      ensures all[i] + PAGE_SIZE <= a || a + PAGE_SIZE <= all[i]
    {
      OldPageKept(m, a, Head(pages), pages[i - 1]);
    }
    assert PagesMapped(m', all);
    hide PagesMapped, PagesApart, InMemory;
    forall i | 0 <= i < |all| ensures LoadPointer(m', all[i]) == Head(all[i + 1..]) {
      LinkKept(m, pages, a, i);
    }
  }

  lemma LinkKept(m: Memory, pages: seq<nat>, a: nat, i: nat)
    requires PagesMapped(m, pages) && Linked(m, pages) && Fresh(m, Mapped(a)) && i <= |pages| && Head(pages) < TWO64
    ensures var m' := StorePointer(MapPage(m, a), a, Head(pages)); var all := [a] + pages;
      LoadPointer(m', all[i]) == Head(all[i + 1..])
  {
    hide StorePointer, LoadPointer, MapPage, Fresh;
    var all := [a] + pages;
    if i == 0 {
      NewPage(m, a, Head(pages));
      assert all[1..] == pages;
    } else {
      OldPageKept(m, a, Head(pages), pages[i - 1]);
      assert all[i + 1..] == pages[i..];
    }
  }

  lemma FreshBounds(m: Memory, a: nat)
    requires Fresh(m, Mapped(a))
    ensures 0 < a < TWO64
  {
  }

  lemma PageAdded(m: Memory, pages: seq<nat>, regions: seq<Region>, offset: nat, a: nat)
    requires Placed(m, pages, regions, offset) && Fresh(m, Mapped(a))
    ensures Placed(StorePointer(MapPage(m, a), a, Head(pages)), [a] + pages, regions, WORD_BYTES)
  {
    hide StorePointer, LoadPointer, MapPage, Linked, PagesMapped, Fresh;
    PageLinked(m, pages, a);
    forall i | 0 <= i < |regions| ensures regions[i].page in [a] + pages && regions[i].page != a {
      var k :| 0 <= k < |pages| && pages[k] == regions[i].page;
      var all := [a] + pages;
      assert all[k + 1] == regions[i].page && all[0] == a;
    }
  }

  /** The latest allocation, taken at the offset of the current page. */
  lemma RegionAdded(m: Memory, pages: seq<nat>, regions: seq<Region>, offset: nat, size: nat)
    requires Placed(m, pages, regions, offset) && pages != []
    ensures Placed(m, pages, regions + [Region(Head(pages), Head(pages) + offset, size)], offset + size)
  {
    hide LoadPointer;
    assert pages[0] in pages;
  }

  lemma WriteKeepsPlaced(m: Memory, pages: seq<nat>, regions: seq<Region>, offset: nat, a: nat, bytes: seq<nat>)
    requires Placed(m, pages, regions, offset)
    requires |regions| > 0 && Inside(regions[|regions| - 1])
    requires regions[|regions| - 1].start <= a
      && a + |bytes| <= regions[|regions| - 1].start + regions[|regions| - 1].size
    ensures Placed(Store(m, a, bytes), pages, regions, offset)
  {
    hide LoadPointer, Store, Inside, Bumped, RegionsPlaced;
    WriteKeepsLinks(m, pages, regions, a, bytes);
  }

  /** What is in memory already is still there. */
  ghost predicate MemoryKept(m: Memory, m': Memory) {
    forall x :: x in m ==> x in m' && m'[x] == m[x]
  }

  lemma KeptEntries(m: Memory, m': Memory, regions: seq<Region>, entries: seq<Entry>)
    requires EntriesHeld(m, regions, entries) && MemoryKept(m, m')
    ensures EntriesHeld(m', regions, entries)
  {
    forall k | 0 <= k < |entries| ensures EntryHeld(m', entries[k]) {
      var e := entries[k];
      LoadKept(m, m', e.region.start, WORD_BYTES);
      LoadKept(m, m', e.region.start + WORD_BYTES, WORD_BYTES);
      LoadKept(m, m', e.region.start + 2 * WORD_BYTES, |e.code|);
    }
  }

  lemma SameMemory(m: Memory)
    ensures MemoryKept(m, m)
  {
  }

  lemma PageKeepsMemory(m: Memory, a: nat, link: nat)
    requires Fresh(m, Mapped(a))
    ensures MemoryKept(m, StorePointer(MapPage(m, a), a, link))
  {
  }

  lemma MoreRegions(m: Memory, regions: seq<Region>, entries: seq<Entry>, r: Region)
    requires EntriesHeld(m, regions, entries)
    ensures EntriesHeld(m, regions + [r], entries)
  {
    hide EntryHeld;
  }

  lemma PlacedBounds(m: Memory, pages: seq<nat>, regions: seq<Region>, offset: nat)
    requires Placed(m, pages, regions, offset)
    ensures offset == 0 <==> pages == []
    ensures pages != [] ==> offset >= WORD_BYTES && Head(pages) > 0
  {
  }

  lemma LoadKept(m: Memory, m': Memory, a: nat, n: nat)
    requires InMemory(m, a, n) && MemoryKept(m, m')
    ensures InMemory(m', a, n) && Load(m', a, n) == Load(m, a, n)
  {
  }

  /** Writing what an entry consists of into its region. */
  function StoreEntry(m: Memory, e: Entry): Memory {
    Store(StorePointer(StorePointer(m, e.region.start, e.invoke), e.region.start + WORD_BYTES, e.copy),
          e.region.start + 2 * WORD_BYTES, e.code)
  }

  lemma EntryStored(m: Memory, e: Entry)
    requires e.region.size == 2 * WORD_BYTES + |e.code| && |e.code| > 0
    requires Inside(e.region) && InMemory(m, e.region.page, PAGE_SIZE)
    requires e.invoke < TWO64 && e.copy < TWO64
    ensures EntryHeld(StoreEntry(m, e), e)
  {
    hide Load, Store, Encode, Decode, Pow2;
    var a := e.region.start;
    var m1 := StorePointer(m, a, e.invoke);
    var m2 := StorePointer(m1, a + WORD_BYTES, e.copy);
    PointerStored(m, a, e.invoke);
    PointerStored(m1, a + WORD_BYTES, e.copy);
    LoadApart(m1, a + WORD_BYTES, Encode(e.copy, WORD_BYTES), a, WORD_BYTES);
    LoadApart(m2, a + 2 * WORD_BYTES, e.code, a, WORD_BYTES);
    LoadApart(m2, a + 2 * WORD_BYTES, e.code, a + WORD_BYTES, WORD_BYTES);
    LoadStored(m2, a + 2 * WORD_BYTES, e.code);
  }

  /** Installing a block in the latest allocation. */
  lemma EntryInstalled(m: Memory, pages: seq<nat>, regions: seq<Region>, before: seq<Region>, entries: seq<Entry>,
                       offset: nat, e: Entry)
    requires Placed(m, pages, regions, offset) && EntriesHeld(m, before, entries)
    requires regions == before + [e.region] && Inside(e.region)
    requires e.region.size == 2 * WORD_BYTES + |e.code| && |e.code| > 0
    requires e.invoke < TWO64 && e.copy < TWO64
    ensures Placed(StoreEntry(m, e), pages, regions, offset) && EntriesHeld(StoreEntry(m, e), regions, entries + [e])
  {
    hide Placed, EntriesHeld, Store, Encode, EntryHeld;
    var a := e.region.start;
    assert regions[..|regions| - 1] == before && regions[|regions| - 1] == e.region;
    var m1 := StorePointer(m, a, e.invoke);
    var m2 := StorePointer(m1, a + WORD_BYTES, e.copy);
    LatestPageMapped(m, pages, regions, offset);
    WriteKeeps(m, pages, regions, entries, offset, a, Encode(e.invoke, WORD_BYTES));
    WriteKeeps(m1, pages, regions, entries, offset, a + WORD_BYTES, Encode(e.copy, WORD_BYTES));
    WriteKeeps(m2, pages, regions, entries, offset, a + 2 * WORD_BYTES, e.code);
    EntryStored(m, e);
    OneMoreEntry(StoreEntry(m, e), before, entries, e);
  }

  lemma LatestPageMapped(m: Memory, pages: seq<nat>, regions: seq<Region>, offset: nat)
    requires Placed(m, pages, regions, offset) && |regions| > 0
    ensures InMemory(m, regions[|regions| - 1].page, PAGE_SIZE)
  {
    hide Linked, PagesApart, Bumped;
  }

  lemma OneMoreEntry(m: Memory, before: seq<Region>, entries: seq<Entry>, e: Entry)
    requires EntriesHeld(m, before, entries) && EntryHeld(m, e)
    ensures EntriesHeld(m, before + [e.region], entries + [e])
  {
    hide EntryHeld;
    var all := before + [e.region];
    assert all[|before|] == e.region;
  }

  lemma WriteKeeps(m: Memory, pages: seq<nat>, regions: seq<Region>, entries: seq<Entry>, offset: nat, a: nat,
                   bytes: seq<nat>)
    requires Placed(m, pages, regions, offset)
    requires |regions| > 0 && Inside(regions[|regions| - 1])
    requires EntriesHeld(m, regions[..|regions| - 1], entries)
    requires regions[|regions| - 1].start <= a
      && a + |bytes| <= regions[|regions| - 1].start + regions[|regions| - 1].size
    ensures Placed(Store(m, a, bytes), pages, regions, offset)
    ensures EntriesHeld(Store(m, a, bytes), regions[..|regions| - 1], entries)
  {
    hide Linked, Store, Inside, Bumped, RegionsPlaced, EntriesHeld, PagesMapped, PagesApart;
    WriteKeepsPlaced(m, pages, regions, offset, a, bytes);
    WriteKeepsEntries(m, pages, regions, entries, a, bytes);
  }

  ghost predicate InsideAPage(pages: seq<nat>, a: nat) {
    exists i :: 0 <= i < |pages| && pages[i] < a < pages[i] + PAGE_SIZE
  }

  /** A code pointer handed out is strictly inside a page, and the word before it can be read. */
  lemma ImpInside(m: Memory, pages: seq<nat>, regions: seq<Region>, offset: nat, entries: seq<Entry>, k: nat)
    requires Placed(m, pages, regions, offset) && EntriesHeld(m, regions, entries) && k < |entries|
    ensures var imp := ImpOf(entries[k]);
      && InsideAPage(pages, imp) && InMemory(m, imp - WORD_BYTES, WORD_BYTES)
      && LoadPointer(m, imp - WORD_BYTES) == entries[k].copy
  {
    hide LoadPointer, Linked, Bumped, PagesApart;
    assert EntryHeld(m, entries[k]);
    var i :| 0 <= i < |regions| && regions[i] == entries[k].region;
    var p :| 0 <= p < |pages| && pages[p] == regions[i].page;
  }

  /** The code pointer into the latest allocation is not one of the earlier ones. */
  lemma NewImp(m: Memory, pages: seq<nat>, regions: seq<Region>, before: seq<Region>, entries: seq<Entry>, offset: nat,
               e: Entry, k: nat)
    requires Placed(m, pages, regions, offset) && EntriesHeld(m, before, entries) && k < |entries|
    requires regions == before + [e.region] && Inside(e.region)
    ensures ImpOf(entries[k]) != ImpOf(e)
  {
    hide LoadPointer, Linked, Bumped;
    assert EntryHeld(m, entries[k]);
    var i :| 0 <= i < |before| && before[i] == entries[k].region;
    assert regions[i] == before[i] && regions[|before|] == e.region;
    AllocationsApart(m, pages, regions, i, |before|);
  }

  /** The static variables of the allocator and the memory; with, as ghosts, the pages mapped so
      far, the latest first, the allocations, and the blocks installed. */
  class Allocator {
    var executeBuffer: nat
    var writeBuffer: nat
    var offset: nat
    var memory: Memory
    ghost var pages: seq<nat>
    ghost var regions: seq<Region>
    ghost var entries: seq<Entry>

    ghost predicate Valid()
      reads this
    {
      && executeBuffer == Head(pages) && writeBuffer == Head(pages)
      && Placed(memory, pages, regions, offset)
      && EntriesHeld(memory, regions, entries)
    }

    constructor (initial: Memory)
      ensures Valid() && memory == initial && pages == [] && regions == [] && entries == []
    {
      executeBuffer, writeBuffer, offset := 0, 0, 0;
      memory := initial;
      pages, regions, entries := [], [], [];
    }

    /** An allocation lies in the current page exactly if a page can hold it and the link word. */
    method AllocBuffer(size: nat, mapping: Mapping) returns (tramp: Trampoline)
      requires Valid() && Fresh(memory, mapping)
      modifies this
      ensures Valid() && entries == old(entries) && MemoryKept(old(memory), memory)
      ensures old(pages) != [] && old(offset) + size < PAGE_SIZE ==>
        && pages == old(pages) && offset == old(offset) + size && memory == old(memory)
        && tramp.blockData == Head(pages) + old(offset)
      ensures !(old(pages) != [] && old(offset) + size < PAGE_SIZE) && mapping.Mapped? ==>
        && pages == [mapping.address] + old(pages) && offset == WORD_BYTES + size
        && tramp.blockData == mapping.address + WORD_BYTES
      ensures tramp == INVALID <==> !(old(pages) != [] && old(offset) + size < PAGE_SIZE) && mapping.Failed?
      ensures tramp == INVALID ==>
        pages == old(pages) && regions == old(regions) && offset == old(offset) && memory == old(memory)
      ensures tramp != INVALID ==>
        && tramp.blockData == tramp.trampoline > 0
        && regions == old(regions) + [Region(Head(pages), tramp.blockData, size)]
        && (Inside(Region(Head(pages), tramp.blockData, size)) <==> WORD_BYTES + size <= PAGE_SIZE)
    {
      hide Placed, EntriesHeld, MapPage, StorePointer, Fresh, MemoryKept;
      SameMemory(memory);
      PlacedBounds(memory, pages, regions, offset);
      tramp := INVALID;
      if offset == 0 || offset + size >= PAGE_SIZE {
        if mapping.Failed? {
          return;
        }
        var buffer := mapping.address;
        PageAdded(memory, pages, regions, offset, buffer);
        PageKeepsMemory(memory, buffer, Head(pages));
        KeptEntries(memory, StorePointer(MapPage(memory, buffer), buffer, Head(pages)), regions, entries);
        executeBuffer := buffer;
        memory := StorePointer(MapPage(memory, buffer), buffer, writeBuffer);
        writeBuffer := buffer;
        offset := WORD_BYTES;
        pages := [buffer] + pages;
        PlacedBounds(memory, pages, regions, offset);
      }
      tramp := Trampoline(executeBuffer + offset, writeBuffer + offset);
      RegionAdded(memory, pages, regions, offset, size);
      MoreRegions(memory, regions, entries, Region(Head(pages), tramp.blockData, size));
      regions := regions + [Region(Head(pages), tramp.blockData, size)];
      offset := offset + size;
    }

    /** The two templates are the trampoline's code, `copied` is what `Block_copy` made of the block
        and `failureImp` the function that logs. A new code pointer is returned, with the invoke
        pointer and the copy in the two words before it and the template after it. */
    method ImplementationWithBlock(b: Block, copied: nat, template: seq<nat>, sretTemplate: seq<nat>,
                                   mapping: Mapping, failureImp: nat)
      returns (imp: nat)
      requires Valid() && Fresh(memory, mapping) && b.invoke < TWO64 && copied < TWO64
      requires 3 * WORD_BYTES + |template| <= PAGE_SIZE && 3 * WORD_BYTES + |sretTemplate| <= PAGE_SIZE
      modifies this
      ensures Valid()
      ensures var code := if UsesStret(b) then sretTemplate else template;
        if code == [] then imp == 0 && entries == old(entries) && memory == old(memory)
        else if !(old(pages) != [] && old(offset) + |code| + 2 * WORD_BYTES < PAGE_SIZE) && mapping.Failed? then
          imp == failureImp && entries == old(entries) && memory == old(memory)
        else
          && regions != [] && entries == old(entries) + [Entry(regions[|regions| - 1], b.invoke, copied, code)]
          && imp == ImpOf(entries[|entries| - 1])
          && (forall k :: 0 <= k < |old(entries)| ==> ImpOf(old(entries)[k]) != imp)
    {
      hide Placed, EntriesHeld, EntryHeld, StorePointer, Store, Fresh, MemoryKept, UsesStret, InMemory, PagesMapped;
      var code := if UsesStret(b) then sretTemplate else template;
      var trampolineSize := |code|;
      if trampolineSize == 0 {
        return 0;
      }
      var buf := AllocBuffer(trampolineSize + 2 * WORD_BYTES, mapping);
      if buf.blockData == 0 || buf.trampoline == 0 {
        return failureImp;
      }
      var out := buf.blockData;
      ghost var e := Entry(regions[|regions| - 1], b.invoke, copied, code);
      KeptEntries(old(memory), memory, old(regions), entries);
      forall k | 0 <= k < |entries| ensures ImpOf(entries[k]) != ImpOf(e) {
        NewImp(memory, pages, regions, old(regions), entries, offset, e, k);
      }
      EntryInstalled(memory, pages, regions, old(regions), entries, offset, e);
      memory := StorePointer(memory, out, b.invoke);
      memory := StorePointer(memory, out + WORD_BYTES, copied);
      memory := Store(memory, out + 2 * WORD_BYTES, code);
      entries := entries + [e];
      return buf.trampoline + 2 * WORD_BYTES;
    }

    /** The walk down the page list accepts exactly the addresses strictly inside a page. */
    method IsBlockIMP(anIMP: nat) returns (address: nat)
      requires Valid()
      ensures address != 0 <==> InsideAPage(pages, anIMP)
      ensures address != 0 ==> address == anIMP
    {
      hide LoadPointer, EntriesHeld, RegionsPlaced, Bumped, PagesApart;
      var e, w := executeBuffer, writeBuffer;
      ghost var k := 0;
      assert pages[0..] == pages;
      while e != 0
        invariant 0 <= k <= |pages| && e == w == Head(pages[k..])
        invariant !InsideAPage(pages[..k], anIMP)
        decreases |pages| - k
      {
        assert e == pages[k];
        if anIMP > e && anIMP < e + PAGE_SIZE {
          return w + (anIMP - e);
        }
        e := LoadPointer(memory, e);
        w := LoadPointer(memory, w);
        k := k + 1;
      }
      assert pages[..k] == pages;
      return 0;
    }

    /** For every code pointer handed out, the copy stored for it; for an address outside the pages,
        null. Inside a page the word before the address is read, so it must be there. */
    method GetBlock(anImp: nat) returns (block: nat)
      requires Valid()
      requires InsideAPage(pages, anImp) ==> anImp >= WORD_BYTES && InMemory(memory, anImp - WORD_BYTES, WORD_BYTES)
      ensures !InsideAPage(pages, anImp) ==> block == 0
      ensures forall k :: 0 <= k < |entries| && ImpOf(entries[k]) == anImp ==> block == entries[k].copy
    {
      hide LoadPointer, Placed;
      var address := IsBlockIMP(anImp);
      forall k | 0 <= k < |entries| && ImpOf(entries[k]) == anImp
        ensures address != 0 && LoadPointer(memory, anImp - WORD_BYTES) == entries[k].copy
      {
        ImpInside(memory, pages, regions, offset, entries, k);
      }
      if address == 0 {
        return 0;
      }
      return LoadPointer(memory, anImp - WORD_BYTES);
    }
  }
}
