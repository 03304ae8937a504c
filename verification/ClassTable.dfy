/** The serialised class table: the string table of class names with, for each name, the class
    and header it stands for, or the range of duplicates it has. */
module ClassTable {
  import opened Words
  import opened PerfectTables
  import opened StringTable

  /** objc_classheader_t: two 32-bit offsets. For a duplicated name clsOffset is count*2 + 1 and
      hiOffset the index of its first entry in duplicateOffsets. */
  datatype ClassHeader = ClassHeader(clsOffset: int, hiOffset: int) {
    predicate IsDuplicate() { clsOffset % 2 == 1 }

    function DuplicateCount(): nat { (clsOffset / 2) % TWO32 }

    function DuplicateIndex(): nat { hiOffset % TWO32 }
  }

  datatype ClassImage = ClassImage(names: Image, classOffsets: seq<ClassHeader>, duplicateOffsets: seq<ClassHeader>)

  /** A class and the header_info it comes from. */
  datatype Pair = Pair(cls: nat, hi: nat)

  datatype ClassEntry = ClassEntry(name: seq<Byte>, pair: Pair)

  /** The pairs of a name, in the order of the multimap. */
  function Pairs(classes: seq<ClassEntry>, name: seq<Byte>): (p: seq<Pair>)
    ensures |p| <= |classes|
  {
    if classes == [] then []
    else
      var n := |classes| - 1;
      Pairs(classes[..n], name) + (if classes[n].name == name then [classes[n].pair] else [])
  }

  function HeaderFor(p: Pair, base: nat): ClassHeader {
    ClassHeader(Offset(p.cls, base), Offset(p.hi, base))
  }

  function HeadersFor(ps: seq<Pair>, base: nat): (hs: seq<ClassHeader>)
    ensures |hs| == |ps| && forall i :: 0 <= i < |ps| ==> hs[i] == HeaderFor(ps[i], base)
  {
    seq(|ps|, i requires 0 <= i < |ps| => HeaderFor(ps[i], base))
  }

  function PairAt(self: nat, h: ClassHeader): Pair {
    Pair(AddressAt(self, h.clsOffset), AddressAt(self, h.hiOffset))
  }

  /** A pair where the cache is mapped `slide` bytes further on. */
  function Slid(p: Pair, slide: nat): Pair {
    Pair((p.cls + slide) % TWO64, (p.hi + slide) % TWO64)
  }

  const EMPTY: ClassHeader := ClassHeader(ZERO_OFFSET, ZERO_OFFSET)

  // ---- Reading ------------------------------------------------------------------------------

  ghost predicate ReadableClasses(im: ClassImage) {
    && Readable(im.names)
    && |im.classOffsets| == im.names.t.capacity
  }

  /** The duplicates a header leads to are in the table. */
  predicate InRange(im: ClassImage, h: ClassHeader) {
    h.DuplicateIndex() + h.DuplicateCount() <= |im.duplicateOffsets|
  }

  /** getClassAndHeader's count and its two out-parameters. */
  datatype Answer = Answer(count: nat, cls: nat, hi: nat)

  function GetClassAndHeader(im: ClassImage, mem: nat -> seq<Byte>, self: nat, key: seq<Byte>): Answer
    requires ReadableClasses(im)
  {
    IndexBound(im.names, mem, self, key);
    var h := GetIndex(im.names, mem, self, key);
    if h == INDEX_NOT_FOUND then Answer(0, NULL_ADDRESS, NULL_ADDRESS)
    else
      var clshi := im.classOffsets[h];
      if !clshi.IsDuplicate() then
        Answer(1, AddressAt(self, clshi.clsOffset), AddressAt(self, clshi.hiOffset))
      else
        Answer(clshi.DuplicateCount(), NULL_ADDRESS, NULL_ADDRESS)
  }

  /** The pairs getClassesAndHeaders writes out. */
  function ReadPairs(im: ClassImage, mem: nat -> seq<Byte>, self: nat, key: seq<Byte>): seq<Pair>
    requires ReadableClasses(im)
  {
    IndexBound(im.names, mem, self, key);
    var h := GetIndex(im.names, mem, self, key);
    if h == INDEX_NOT_FOUND then []
    else
      var clshi := im.classOffsets[h];
      if !clshi.IsDuplicate() then [PairAt(self, clshi)]
      else if InRange(im, clshi) then
        var d := clshi.DuplicateIndex();
        seq(clshi.DuplicateCount(),
            i requires 0 <= i < clshi.DuplicateCount() => PairAt(self, im.duplicateOffsets[d + i]))
      else []
  }

  /** What is found in the slot of a key. */
  lemma PairsRead(im: ClassImage, mem: nat -> seq<Byte>, self: nat, key: seq<Byte>)
    requires ReadableClasses(im)
    ensures var h, ps := GetIndex(im.names, mem, self, key), ReadPairs(im, mem, self, key);
      if h == INDEX_NOT_FOUND then ps == []
      else
        && h < |im.classOffsets|
        && var c := im.classOffsets[h];
           && GetClassAndHeader(im, mem, self, key).count == (if c.IsDuplicate() then c.DuplicateCount() else 1)
           && (!c.IsDuplicate() ==> ps == [PairAt(self, c)])
           && (c.IsDuplicate() && InRange(im, c) ==> ReadFrom(self, im.duplicateOffsets, c, ps))
  {
    hide GetIndex, AddressAt;
    IndexBound(im.names, mem, self, key);
  }

  ghost predicate ReadFrom(self: nat, dups: seq<ClassHeader>, c: ClassHeader, ps: seq<Pair>) {
    && c.DuplicateIndex() + c.DuplicateCount() <= |dups| && |ps| == c.DuplicateCount()
    && forall i :: 0 <= i < |ps| ==> ps[i] == PairAt(self, dups[c.DuplicateIndex() + i])
  }

  /** getClassesAndHeaders: fill the caller's arrays, which have room for the count that
      getClassAndHeader gave. */
  method GetClassesAndHeaders(im: ClassImage, mem: nat -> seq<Byte>, self: nat, key: seq<Byte>, cls: array<nat>,
                              hi: array<nat>)
    requires ReadableClasses(im) && cls != hi
    requires GetClassAndHeader(im, mem, self, key).count <= cls.Length
    requires GetClassAndHeader(im, mem, self, key).count <= hi.Length
    requires var h := GetIndex(im.names, mem, self, key);
      h < |im.classOffsets| && im.classOffsets[h].IsDuplicate() ==> InRange(im, im.classOffsets[h])
    modifies cls, hi
    ensures var ps := ReadPairs(im, mem, self, key);
      && |ps| <= cls.Length && |ps| <= hi.Length
      && (forall i :: 0 <= i < |ps| ==> cls[i] == ps[i].cls && hi[i] == ps[i].hi)
      && cls[|ps|..] == old(cls[|ps|..]) && hi[|ps|..] == old(hi[|ps|..])
  {
    hide GetIndex, ReadPairs, GetClassAndHeader, Readable, AddressAt;
    PairsRead(im, mem, self, key);
    var h := GetIndex(im.names, mem, self, key);
    if h == INDEX_NOT_FOUND {
      return;
    }
    var clshi := im.classOffsets[h];
    if !clshi.IsDuplicate() {
      cls[0] := AddressAt(self, clshi.clsOffset);
      hi[0] := AddressAt(self, clshi.hiOffset);
    } else {
      var count := clshi.DuplicateCount();
      var list := clshi.DuplicateIndex();
      CopyPairs(self, im.duplicateOffsets[list..list + count], cls, hi);
    }
  }

  /** Its loop over a range of duplicates. */
  method CopyPairs(self: nat, list: seq<ClassHeader>, cls: array<nat>, hi: array<nat>)
    requires cls != hi && |list| <= cls.Length && |list| <= hi.Length
    modifies cls, hi
    ensures forall i :: 0 <= i < |list| ==> cls[i] == PairAt(self, list[i]).cls && hi[i] == PairAt(self, list[i]).hi
    ensures cls[|list|..] == old(cls[|list|..]) && hi[|list|..] == old(hi[|list|..])
  {
    hide AddressAt;
    for i := 0 to |list|
      invariant forall j :: 0 <= j < i ==> cls[j] == PairAt(self, list[j]).cls && hi[j] == PairAt(self, list[j]).hi
      invariant forall j :: |list| <= j < cls.Length ==> cls[j] == old(cls[j])
      invariant forall j :: |list| <= j < hi.Length ==> hi[j] == old(hi[j])
    {
      cls[i] := AddressAt(self, list[i].clsOffset);
      hi[i] := AddressAt(self, list[i].hiOffset);
    }
  }

  // ---- What a finished table says of a name -------------------------------------------------

  ghost predicate Fits32(offset: int) { -0x8000_0000 <= offset < 0x8000_0000 }

  /** Header h of the table describes exactly the pairs ps. */
  ghost predicate Describes(h: ClassHeader, dups: seq<ClassHeader>, ps: seq<Pair>, base: nat) {
    if |ps| == 0 then h == EMPTY
    else if |ps| == 1 then h == HeaderFor(ps[0], base)
    else
      && h.clsOffset == 2 * |ps| + 1
      && 0 <= h.hiOffset <= h.hiOffset + |ps| <= |dups|
      && dups[h.hiOffset..h.hiOffset + |ps|] == HeadersFor(ps, base)
  }

  /** The name is one of the classes' names. */
  ghost predicate IsClass(classes: seq<ClassEntry>, name: seq<Byte>) {
    exists i :: 0 <= i < |classes| && classes[i].name == name
  }

  /** The slot of string i. */
  ghost function SlotOf(im: ClassImage, strings: seq<Entry>, i: int): (h: nat)
    requires ReadableClasses(im) && 0 <= i < |strings|
    ensures h < |im.classOffsets|
  {
    ReadHashBound(im.names.t, strings[i].name);
    ReadHash(im.names.t, strings[i].name)
  }

  /** Each name met among the first n classes is described in full; the others are still empty. */
  ghost predicate Described(im: ClassImage, strings: seq<Entry>, classes: seq<ClassEntry>, n: nat, base: nat)
    requires ReadableClasses(im) && n <= |classes|
  {
    forall i :: 0 <= i < |strings| ==>
      Describes(im.classOffsets[SlotOf(im, strings, i)], im.duplicateOffsets,
                if IsClass(classes[..n], strings[i].name) then Pairs(classes, strings[i].name) else [], base)
  }

  /** Entry k of duplicateOffsets is in the range of string i, a name met more than once. */
  ghost predicate InRangeOf(im: ClassImage, strings: seq<Entry>, classes: seq<ClassEntry>, n: nat, i: int, k: int)
    requires ReadableClasses(im) && 0 <= i < |strings| && n <= |classes|
  {
    var c := |Pairs(classes, strings[i].name)|;
    var first := im.classOffsets[SlotOf(im, strings, i)].hiOffset;
    IsClass(classes[..n], strings[i].name) && c >= 2 && first <= k < first + c
  }

  ghost predicate Covered(im: ClassImage, strings: seq<Entry>, classes: seq<ClassEntry>, n: nat, k: int)
    requires ReadableClasses(im) && n <= |classes|
  {
    exists i :: 0 <= i < |strings| && InRangeOf(im, strings, classes, n, i, k)
  }

  /** The ranges of different names are disjoint and together make up duplicateOffsets. */
  ghost predicate Tiled(im: ClassImage, strings: seq<Entry>, classes: seq<ClassEntry>, n: nat)
    requires ReadableClasses(im) && n <= |classes|
  {
    && (forall k :: 0 <= k < |im.duplicateOffsets| ==> Covered(im, strings, classes, n, k))
    && (forall i, k :: 0 <= i < |strings| && InRangeOf(im, strings, classes, n, i, k) ==>
          0 <= k < |im.duplicateOffsets|)
    && (forall i, j, k :: 0 <= i < j < |strings| && InRangeOf(im, strings, classes, n, i, k) ==>
          !InRangeOf(im, strings, classes, n, j, k))
  }

  ghost predicate PairFits(p: Pair, base: nat) {
    Fits32(Offset(p.cls, base)) && Fits32(Offset(p.hi, base))
  }

  /** The entries whose names are among the first n. */
  ghost function Met(classes: seq<ClassEntry>, n: nat): (s: set<int>)
    requires n <= |classes|
    ensures s <= Range(|classes|)
    ensures forall j :: j in s <==> 0 <= j < |classes| && IsClass(classes[..n], classes[j].name)
  {
    set j | j in Range(|classes|) && IsClass(classes[..n], classes[j].name)
  }

  ghost function EntriesOf(classes: seq<ClassEntry>, name: seq<Byte>): (s: set<int>)
    ensures forall j :: j in s <==> 0 <= j < |classes| && classes[j].name == name
  {
    set j | j in Range(|classes|) && classes[j].name == name
  }

  lemma {:induction false} PairsCount(classes: seq<ClassEntry>, name: seq<Byte>)
    ensures |Pairs(classes, name)| == |EntriesOf(classes, name)|
  {
    if classes != [] {
      hide EntriesOf;
      var n := |classes| - 1;
      PairsCount(classes[..n], name);
      OneMoreEntry(classes, name);
    } else {
      assert EntriesOf(classes, name) == {};
    }
  }

  lemma OneMoreEntry(classes: seq<ClassEntry>, name: seq<Byte>)
    requires classes != []
    ensures var n := |classes| - 1;
      |EntriesOf(classes, name)| == |EntriesOf(classes[..n], name)| + (if classes[n].name == name then 1 else 0)
  {
    hide EntriesOf;
    var n := |classes| - 1;
    var e := EntriesOf(classes[..n], name);
    assert n !in e;
    var all := if classes[n].name == name then e + {n} else e;
    forall j ensures j in all <==> j in EntriesOf(classes, name) {
      assert 0 <= j < n ==> classes[..n][j] == classes[j];
    }
    assert EntriesOf(classes, name) == all;
  }

  lemma MetMore(classes: seq<ClassEntry>, n: nat)
    requires n < |classes|
    ensures IsClass(classes[..n], classes[n].name) ==> |Met(classes, n + 1)| == |Met(classes, n)|
    ensures !IsClass(classes[..n], classes[n].name) ==>
      |Met(classes, n + 1)| == |Met(classes, n)| + |Pairs(classes, classes[n].name)|
  {
    hide IsClass, Pairs;
    var name := classes[n].name;
    forall j | 0 <= j < |classes|
      ensures IsClass(classes[..n + 1], classes[j].name) <==>
        IsClass(classes[..n], classes[j].name) || classes[j].name == name
    {
      NamesSoFar(classes, n, classes[j].name);
    }
    PairsCount(classes, name);
    if IsClass(classes[..n], name) {
      assert Met(classes, n + 1) == Met(classes, n);
    } else {
      assert Met(classes, n + 1) == Met(classes, n) + EntriesOf(classes, name);
      assert Met(classes, n) !! EntriesOf(classes, name);
    }
  }

  /** There are no more duplicates than classes. */
  lemma DuplicatesFit(im: ClassImage, strings: seq<Entry>, classes: seq<ClassEntry>, n: nat, base: nat)
    requires Partial(im, strings, classes, n, base)
    ensures |im.duplicateOffsets| <= |classes|
  {
    hide Described, Tiled, PerfectFor, ReadableClasses, IsClass, PairFits;
    SubsetSize(Met(classes, n), Range(|classes|));
    RangeSize(|classes|);
  }

  /** The table after the first n classes. */
  ghost predicate Partial(im: ClassImage, strings: seq<Entry>, classes: seq<ClassEntry>, n: nat, base: nat) {
    && ReadableClasses(im) && n <= |classes|
    && PerfectFor(im.names.t, Names(strings))
    && Described(im, strings, classes, n, base)
    && Tiled(im, strings, classes, n)
    && |im.duplicateOffsets| <= |Met(classes, n)|
    && (forall i :: 0 <= i < |classes| && IsClass(classes[..n], classes[i].name) ==> PairFits(classes[i].pair, base))
  }

  lemma DifferentSlots(im: ClassImage, strings: seq<Entry>, i: int, j: int)
    requires ReadableClasses(im) && PerfectFor(im.names.t, Names(strings))
    requires 0 <= i < |strings| && 0 <= j < |strings| && i != j
    ensures SlotOf(im, strings, i) != SlotOf(im, strings, j)
    ensures strings[i].name != strings[j].name
  {
    hide ReadHash, Readable;
    var lo, hi := if i < j then i else j, if i < j then j else i;
    assert Names(strings)[lo] == strings[lo].name && Names(strings)[hi] == strings[hi].name;
  }

  lemma NamesSoFar(classes: seq<ClassEntry>, n: nat, name: seq<Byte>)
    requires n < |classes|
    ensures IsClass(classes[..n + 1], name) <==> IsClass(classes[..n], name) || name == classes[n].name
  {
    var s := classes[..n + 1];
    assert s[n] == classes[n] && forall i :: 0 <= i < n ==> s[i] == classes[..n][i];
  }

  /** Pairs counts the entries of a name. */
  lemma {:induction false} PairsOfClass(classes: seq<ClassEntry>, name: seq<Byte>, i: nat, j: nat)
    requires i < |classes| && j < |classes| && classes[i].name == name && classes[j].name == name
    ensures classes[i].pair in Pairs(classes, name)
    ensures |Pairs(classes, name)| >= 1 && (i != j ==> |Pairs(classes, name)| >= 2)
    decreases |classes|
  {
    var n := |classes| - 1;
    var s := classes[..n];
    if i < n {
      PairsOfClass(s, name, i, if j < n then j else i);
    }
    if j < n {
      PairsOfClass(s, name, j, j);
    }
  }

  lemma {:induction false} PairsFrom(classes: seq<ClassEntry>, name: seq<Byte>, x: int)
    requires 0 <= x < |Pairs(classes, name)|
    ensures exists i :: 0 <= i < |classes| && classes[i].name == name && classes[i].pair == Pairs(classes, name)[x]
    decreases |classes|
  {
    var n := |classes| - 1;
    var s := classes[..n];
    if x < |Pairs(s, name)| {
      PairsFrom(s, name, x);
      var i :| 0 <= i < |s| && s[i].name == name && s[i].pair == Pairs(s, name)[x];
      assert classes[i] == s[i];
    } else {
      assert classes[n].name == name;
    }
  }

  lemma NoPairs(classes: seq<ClassEntry>, name: seq<Byte>)
    ensures |Pairs(classes, name)| == 0 <==> !IsClass(classes, name)
  {
    if |Pairs(classes, name)| > 0 {
      PairsFrom(classes, name, 0);
    }
    if IsClass(classes, name) {
      var i :| 0 <= i < |classes| && classes[i].name == name;
      PairsOfClass(classes, name, i, i);
    }
  }

  /** Only a name not met before still has the empty class offset. */
  lemma EmptyMeansNew(im: ClassImage, strings: seq<Entry>, classes: seq<ClassEntry>, n: nat, base: nat, i: int)
    requires Partial(im, strings, classes, n, base) && n < |classes|
    requires 0 <= i < |strings| && strings[i].name == classes[n].name
    ensures im.classOffsets[SlotOf(im, strings, i)].clsOffset == ZERO_OFFSET <==>
      !IsClass(classes[..n], classes[n].name)
  {
    hide SlotOf, Tiled, ReadableClasses, PerfectFor, Offset, IsClass, PairFits, Pairs;
    DescribedAt(im, strings, classes, n, base, i);
    var h := im.classOffsets[SlotOf(im, strings, i)];
    if IsClass(classes[..n], classes[n].name) {
      MetTwice(classes, n);
      assert h.clsOffset == 2 * |Pairs(classes, classes[n].name)| + 1;
    }
  }

  lemma DescribedAt(im: ClassImage, strings: seq<Entry>, classes: seq<ClassEntry>, n: nat, base: nat, i: int)
    requires Partial(im, strings, classes, n, base) && 0 <= i < |strings|
    ensures Describes(im.classOffsets[SlotOf(im, strings, i)], im.duplicateOffsets,
              if IsClass(classes[..n], strings[i].name) then Pairs(classes, strings[i].name) else [], base)
  {
    hide SlotOf, Tiled, ReadableClasses, PerfectFor, IsClass, PairFits, Pairs, Describes;
  }

  lemma MetTwice(classes: seq<ClassEntry>, n: nat)
    requires n < |classes| && IsClass(classes[..n], classes[n].name)
    ensures |Pairs(classes, classes[n].name)| >= 2
  {
    var j :| 0 <= j < n && classes[..n][j].name == classes[n].name;
    PairsOfClass(classes, classes[n].name, j, n);
  }

  /** Being met is all that the ranges depend on. */
  lemma TiledSame(im: ClassImage, strings: seq<Entry>, classes: seq<ClassEntry>, n: nat, m: nat)
    requires ReadableClasses(im) && n <= |classes| && m <= |classes| && Tiled(im, strings, classes, n)
    requires forall name :: IsClass(classes[..m], name) <==> IsClass(classes[..n], name)
    ensures Tiled(im, strings, classes, m)
  {
    hide Readable, IsClass, SlotOf, Pairs;
    forall i, k | 0 <= i < |strings|
      ensures InRangeOf(im, strings, classes, m, i, k) <==> InRangeOf(im, strings, classes, n, i, k)
    {
    }
    hide InRangeOf;
    forall k | 0 <= k < |im.duplicateOffsets| ensures Covered(im, strings, classes, m, k) {
      assert Covered(im, strings, classes, n, k);
      var i :| 0 <= i < |strings| && InRangeOf(im, strings, classes, n, i, k);
      assert InRangeOf(im, strings, classes, m, i, k);
    }
  }

  /** A class whose name was met before changes nothing. */
  lemma MetBefore(im: ClassImage, strings: seq<Entry>, classes: seq<ClassEntry>, n: nat, base: nat)
    requires Partial(im, strings, classes, n, base) && n < |classes| && IsClass(classes[..n], classes[n].name)
    ensures Partial(im, strings, classes, n + 1, base)
  {
    hide Describes, SlotOf, ReadableClasses, PerfectFor, PairFits, IsClass, Tiled;
    var m := n + 1;
    forall name ensures IsClass(classes[..m], name) <==> IsClass(classes[..n], name) {
      NamesSoFar(classes, n, name);
    }
    TiledSame(im, strings, classes, n, m);
    MetMore(classes, n);
  }

  /** The table after a new name: one more header, and its duplicates at the end. */
  function WithHeader(im: ClassImage, slot: nat, h: ClassHeader, dups: seq<ClassHeader>): ClassImage
    requires slot < |im.classOffsets|
  {
    im.(classOffsets := im.classOffsets[slot := h], duplicateOffsets := im.duplicateOffsets + dups)
  }

  lemma DescribesMore(h: ClassHeader, dups: seq<ClassHeader>, more: seq<ClassHeader>, ps: seq<Pair>, base: nat)
    requires Describes(h, dups, ps, base)
    ensures Describes(h, dups + more, ps, base)
  {
    if |ps| >= 2 {
      assert (dups + more)[h.hiOffset..h.hiOffset + |ps|] == dups[h.hiOffset..h.hiOffset + |ps|];
    }
  }

  /** What the writer stores for a name: one header, or a range at the end of duplicateOffsets. */
  ghost predicate HeaderOf(h: ClassHeader, dups: seq<ClassHeader>, ps: seq<Pair>, first: nat, base: nat) {
    if |ps| == 1 then h == HeaderFor(ps[0], base) && dups == []
    else |ps| >= 2 && h == ClassHeader(2 * |ps| + 1, first) && dups == HeadersFor(ps, base)
  }

  lemma DescribesNew(h: ClassHeader, before: seq<ClassHeader>, dups: seq<ClassHeader>, ps: seq<Pair>, base: nat)
    requires HeaderOf(h, dups, ps, |before|, base)
    ensures Describes(h, before + dups, ps, base)
  {
    if |ps| >= 2 {
      assert (before + dups)[|before|..|before| + |ps|] == dups;
    }
  }

  lemma NewName(im: ClassImage, strings: seq<Entry>, classes: seq<ClassEntry>, n: nat, base: nat, i: int,
                h: ClassHeader, dups: seq<ClassHeader>)
    requires Partial(im, strings, classes, n, base) && n < |classes| && !IsClass(classes[..n], classes[n].name)
    requires 0 <= i < |strings| && strings[i].name == classes[n].name
    requires HeaderOf(h, dups, Pairs(classes, classes[n].name), |im.duplicateOffsets|, base)
    requires forall x :: 0 <= x < |Pairs(classes, classes[n].name)| ==>
      PairFits(Pairs(classes, classes[n].name)[x], base)
    ensures Partial(WithHeader(im, SlotOf(im, strings, i), h, dups), strings, classes, n + 1, base)
  {
    hide Readable, PairFits, HeaderOf, Describes, IsClass, InRangeOf, ReadHash, Pairs;
    var im' := WithHeader(im, SlotOf(im, strings, i), h, dups);
    SlotsKept(im, im', strings, i, h);
    forall j | 0 <= j < |strings|
      ensures Describes(im'.classOffsets[SlotOf(im', strings, j)], im'.duplicateOffsets,
                        if IsClass(classes[..n + 1], strings[j].name) then Pairs(classes, strings[j].name) else [],
                        base)
    {
      NamesSoFar(classes, n, strings[j].name);
      if j == i {
        DescribesNew(h, im.duplicateOffsets, dups, Pairs(classes, classes[n].name), base);
      } else {
        DifferentSlots(im, strings, i, j);
        DescribesMore(im.classOffsets[SlotOf(im, strings, j)], im.duplicateOffsets, dups,
                      if IsClass(classes[..n], strings[j].name) then Pairs(classes, strings[j].name) else [], base);
      }
    }
    RangesAfter(im, strings, classes, n, base, i, h, dups);
    MetMore(classes, n);
    HeaderCount(h, dups, Pairs(classes, classes[n].name), |im.duplicateOffsets|, base);
    forall j | 0 <= j < |classes| && IsClass(classes[..n + 1], classes[j].name)
      ensures PairFits(classes[j].pair, base)
    {
      NamesSoFar(classes, n, classes[j].name);
      if classes[j].name == classes[n].name {
        PairsOfClass(classes, classes[n].name, j, j);
      }
    }
  }

  lemma HeaderCount(h: ClassHeader, dups: seq<ClassHeader>, ps: seq<Pair>, first: nat, base: nat)
    requires HeaderOf(h, dups, ps, first, base)
    ensures |dups| <= |ps|
  {
  }

  lemma SlotsKept(im: ClassImage, im': ClassImage, strings: seq<Entry>, i: int, h: ClassHeader)
    requires ReadableClasses(im) && PerfectFor(im.names.t, Names(strings)) && 0 <= i < |strings|
    requires im'.names == im.names && im'.classOffsets == im.classOffsets[SlotOf(im, strings, i) := h]
    ensures ReadableClasses(im')
    ensures forall j :: 0 <= j < |strings| ==> SlotOf(im', strings, j) == SlotOf(im, strings, j)
    ensures forall j :: 0 <= j < |strings| ==>
      im'.classOffsets[SlotOf(im', strings, j)] == if j == i then h else im.classOffsets[SlotOf(im, strings, j)]
  {
    hide Readable, ReadHash, PerfectFor;
    forall j | 0 <= j < |strings| && j != i ensures SlotOf(im, strings, j) != SlotOf(im, strings, i) {
      DifferentSlots(im, strings, i, j);
    }
  }

  /** The new range lies just behind the old ones. */
  lemma RangesAfter(im: ClassImage, strings: seq<Entry>, classes: seq<ClassEntry>, n: nat, base: nat, i: int,
                    h: ClassHeader, dups: seq<ClassHeader>)
    requires Partial(im, strings, classes, n, base) && n < |classes| && !IsClass(classes[..n], classes[n].name)
    requires 0 <= i < |strings| && strings[i].name == classes[n].name
    requires HeaderOf(h, dups, Pairs(classes, classes[n].name), |im.duplicateOffsets|, base)
    ensures var im' := WithHeader(im, SlotOf(im, strings, i), h, dups);
      ReadableClasses(im') && Tiled(im', strings, classes, n + 1)
  {
    hide Readable, Describes, IsClass, ReadHash, Pairs, Described, PairFits, PerfectFor, SlotOf;
    var im' := WithHeader(im, SlotOf(im, strings, i), h, dups);
    var m, before := n + 1, |im.duplicateOffsets|;
    SlotsKept(im, im', strings, i, h);
    forall j, k | 0 <= j < |strings|
      ensures InRangeOf(im', strings, classes, m, j, k)
         <==> if j == i then before <= k < before + |dups| else InRangeOf(im, strings, classes, n, j, k)
    {
      NamesSoFar(classes, n, strings[j].name);
      if j != i {
        DifferentSlots(im, strings, i, j);
      }
    }
    hide InRangeOf, HeaderOf;
    forall k | 0 <= k < |im'.duplicateOffsets| ensures Covered(im', strings, classes, m, k) {
      if k < before {
        assert Covered(im, strings, classes, n, k);
        var j :| 0 <= j < |strings| && InRangeOf(im, strings, classes, n, j, k);
        OldRangesOthers(im, strings, classes, n, i, k);
        assert InRangeOf(im', strings, classes, m, j, k);
      } else {
        assert InRangeOf(im', strings, classes, m, i, k);
      }
    }
  }

  lemma OldRangesOthers(im: ClassImage, strings: seq<Entry>, classes: seq<ClassEntry>, n: nat, i: int, k: int)
    requires ReadableClasses(im) && n <= |classes| && 0 <= i < |strings| && !IsClass(classes[..n], strings[i].name)
    ensures !InRangeOf(im, strings, classes, n, i, k)
  {
  }

  lemma NothingMet(im: ClassImage, strings: seq<Entry>, classes: seq<ClassEntry>, base: nat)
    requires ReadableClasses(im) && PerfectFor(im.names.t, Names(strings)) && im.duplicateOffsets == []
    requires forall h :: 0 <= h < |im.classOffsets| ==> im.classOffsets[h] == EMPTY
    ensures Partial(im, strings, classes, 0, base)
  {
    hide PerfectFor, Readable, SlotOf, Pairs;
    assert forall name :: !IsClass(classes[..0], name);
  }

  // ---- The class table agrees with the multimap ---------------------------------------------

  /** A finished table, mapped into memory. */
  ghost predicate Finished(im: ClassImage, mem: nat -> seq<Byte>, strings: seq<Entry>, classes: seq<ClassEntry>,
                           base: nat, slide: nat)
  {
    && Partial(im, strings, classes, |classes|, base)
    && Stored(im.names, strings, |strings|, base)
    && Mapped(mem, strings, base, slide)
    && |classes| < 0x4000_0000
    && (forall i :: 0 <= i < |classes| ==> InTable(strings, classes[i].name))
  }

  function SlidPairs(ps: seq<Pair>, slide: nat): (r: seq<Pair>)
    ensures |r| == |ps| && forall i :: 0 <= i < |ps| ==> r[i] == Slid(ps[i], slide)
  {
    seq(|ps|, i requires 0 <= i < |ps| => Slid(ps[i], slide))
  }

  /** What getClassAndHeader is to say of a name with these pairs. */
  function Expected(ps: seq<Pair>, slide: nat): Answer {
    if |ps| == 1 then Answer(1, Slid(ps[0], slide).cls, Slid(ps[0], slide).hi)
    else Answer(|ps|, NULL_ADDRESS, NULL_ADDRESS)
  }

  /** The offset of a class is even just when its distance from the table is. */
  lemma OffsetParity(address: nat, base: nat)
    ensures Offset(address, base) % 2 == (address - base) % 2
  {
    var d := address - base;
    ModMod(d, 2, TWO64 / 2);
  }

  lemma PairReads(p: Pair, base: nat, slide: nat)
    ensures PairAt(base + slide, HeaderFor(p, base)) == Slid(p, slide)
  {
    OffsetReverses(p.cls, base, slide);
    OffsetReverses(p.hi, base, slide);
  }

  lemma FinishedFacts(im: ClassImage, mem: nat -> seq<Byte>, strings: seq<Entry>, classes: seq<ClassEntry>,
                      base: nat, slide: nat)
    requires Finished(im, mem, strings, classes, base, slide)
    ensures Partial(im, strings, classes, |classes|, base) && ReadableClasses(im) && Readable(im.names)
    ensures Stored(im.names, strings, |strings|, base) && Mapped(mem, strings, base, slide)
    ensures |classes| < 0x4000_0000 && (forall i :: 0 <= i < |classes| ==> InTable(strings, classes[i].name))
  {
    hide Described, Tiled, Stored, Mapped, PerfectFor, InTable;
  }

  /** The slot of a name in a finished table describes the pairs of the name. */
  lemma FinishedSlot(im: ClassImage, mem: nat -> seq<Byte>, strings: seq<Entry>, classes: seq<ClassEntry>,
                     base: nat, slide: nat, key: seq<Byte>)
    requires Finished(im, mem, strings, classes, base, slide) && key != []
    ensures ReadableClasses(im) && Readable(im.names)
    ensures |im.duplicateOffsets| < TWO32 && |Pairs(classes, key)| < 0x4000_0000
    ensures var h := GetIndex(im.names, mem, base + slide, key);
      && (h == INDEX_NOT_FOUND <==> !InTable(strings, key))
      && (h != INDEX_NOT_FOUND ==> h < |im.classOffsets|)
      && (h != INDEX_NOT_FOUND ==> Describes(im.classOffsets[h], im.duplicateOffsets, Pairs(classes, key), base))
    ensures !InTable(strings, key) ==> Pairs(classes, key) == []
  {
    var n := |classes|;
    FinishedFacts(im, mem, strings, classes, base, slide);
    hide Finished, Partial, Readable, InTable, PerfectFor, ReadableClasses, Described, Tiled, Stored, Mapped, GetIndex,
         SlotOf, Describes, PairFits;
    SlotOfName(im, mem, strings, base, slide, key);
    DuplicatesFit(im, strings, classes, n, base);
    NoPairs(classes, key);
    if InTable(strings, key) {
      var i := StringAt(strings, key);
      DescribedInFull(im, strings, classes, base, i);
    } else {
      NotAString(strings, classes, key);
    }
  }

  lemma StringAt(strings: seq<Entry>, key: seq<Byte>) returns (i: int)
    requires InTable(strings, key)
    ensures 0 <= i < |strings| && strings[i].name == key
  {
    i :| 0 <= i < |strings| && strings[i].name == key;
  }

  lemma NotAString(strings: seq<Entry>, classes: seq<ClassEntry>, key: seq<Byte>)
    requires !InTable(strings, key) && (forall i :: 0 <= i < |classes| ==> InTable(strings, classes[i].name))
    ensures !IsClass(classes, key)
  {
  }

  lemma DescribedInFull(im: ClassImage, strings: seq<Entry>, classes: seq<ClassEntry>, base: nat, i: int)
    requires Partial(im, strings, classes, |classes|, base) && 0 <= i < |strings|
    ensures ReadableClasses(im)
    ensures Describes(im.classOffsets[SlotOf(im, strings, i)], im.duplicateOffsets, Pairs(classes, strings[i].name),
                      base)
  {
    var n := |classes|;
    DescribedAt(im, strings, classes, n, base, i);
    assert classes[..n] == classes;
    NoPairs(classes, strings[i].name);
    hide Described, Tiled, PerfectFor, PairFits, SlotOf, Pairs, Describes, IsClass, ReadableClasses;
  }

  /** getClassAndHeader gives a name's multiplicity, and its one pair if it has just one, exactly
      when the name is not one of the strings, or it is a class and, if it is so only once, lies
      at an even distance from the table. */
  lemma LookupExact(im: ClassImage, mem: nat -> seq<Byte>, strings: seq<Entry>, classes: seq<ClassEntry>,
                    base: nat, slide: nat, key: seq<Byte>)
    requires Finished(im, mem, strings, classes, base, slide) && key != []
    requires forall i :: 0 <= i < |classes| ==> (classes[i].pair.cls + slide) % TWO64 != NULL_ADDRESS
    ensures ReadableClasses(im)
    ensures var ps := Pairs(classes, key);
      GetClassAndHeader(im, mem, base + slide, key) == Expected(ps, slide)
      <==> !InTable(strings, key) || |ps| >= 2 || (|ps| == 1 && (ps[0].cls - base) % 2 == 0)
  {
    hide Finished, GetIndex, ReadableClasses, Describes, Offset, AddressAt, Pairs, Slid;
    FinishedSlot(im, mem, strings, classes, base, slide, key);
    var ps := Pairs(classes, key);
    FinishedZero(im, mem, strings, classes, base, slide);
    var h := GetIndex(im.names, mem, base + slide, key);
    if h != INDEX_NOT_FOUND {
      var clshi := im.classOffsets[h];
      AnswerFor(clshi, im.duplicateOffsets, ps, base, slide);
      if |ps| == 1 {
        PairsFrom(classes, key, 0);
        SlidClass(ps[0], slide);
      }
    }
  }

  lemma SlidClass(p: Pair, slide: nat)
    ensures Slid(p, slide).cls == (p.cls + slide) % TWO64
  {
  }

  lemma FinishedZero(im: ClassImage, mem: nat -> seq<Byte>, strings: seq<Entry>, classes: seq<ClassEntry>, base: nat,
                     slide: nat)
    requires Finished(im, mem, strings, classes, base, slide)
    ensures AddressAt(base + slide, ZERO_OFFSET) == base + slide + ZERO_OFFSET != NULL_ADDRESS
  {
    assert Mapped(mem, strings, base, slide);
    ZeroField(base, slide);
  }

  /** What each kind of header is read as. */
  lemma AnswerFor(h: ClassHeader, dups: seq<ClassHeader>, ps: seq<Pair>, base: nat, slide: nat)
    requires Describes(h, dups, ps, base) && |ps| < 0x4000_0000 && |dups| < TWO32
    ensures |ps| == 0 ==> h == EMPTY && !h.IsDuplicate()
    ensures |ps| == 1 ==> PairAt(base + slide, h) == Slid(ps[0], slide)
    ensures |ps| == 1 ==> (h.IsDuplicate() <==> (ps[0].cls - base) % 2 == 1)
    ensures |ps| >= 2 ==> h.IsDuplicate() && h.DuplicateCount() == |ps| && h.DuplicateIndex() + |ps| <= |dups|
    ensures |ps| >= 2 ==> forall i :: 0 <= i < |ps| ==>
      PairAt(base + slide, dups[h.DuplicateIndex() + i]) == Slid(ps[i], slide)
  {
    hide Offset, AddressAt;
    if |ps| == 1 {
      OffsetParity(ps[0].cls, base);
      PairReads(ps[0], base, slide);
    } else if |ps| >= 2 {
      var d := h.hiOffset;
      assert h.DuplicateIndex() == d;
      forall i | 0 <= i < |ps| ensures PairAt(base + slide, dups[d + i]) == Slid(ps[i], slide) {
        assert dups[d + i] == dups[d..d + |ps|][i] == HeaderFor(ps[i], base);
        PairReads(ps[i], base, slide);
      }
    }
  }

  /** Under the same condition getClassesAndHeaders lists exactly the pairs of the name. */
  lemma PairsListed(im: ClassImage, mem: nat -> seq<Byte>, strings: seq<Entry>, classes: seq<ClassEntry>,
                    base: nat, slide: nat, key: seq<Byte>)
    requires Finished(im, mem, strings, classes, base, slide) && key != []
    ensures ReadableClasses(im)
    ensures var ps := Pairs(classes, key);
      !InTable(strings, key) || |ps| >= 2 || (|ps| == 1 && (ps[0].cls - base) % 2 == 0) ==>
        ReadPairs(im, mem, base + slide, key) == SlidPairs(ps, slide)
  {
    hide Finished, GetIndex, ReadableClasses, Describes, Offset, AddressAt, Pairs, Slid;
    FinishedSlot(im, mem, strings, classes, base, slide, key);
    var ps := Pairs(classes, key);
    var h := GetIndex(im.names, mem, base + slide, key);
    if h != INDEX_NOT_FOUND {
      AnswerFor(im.classOffsets[h], im.duplicateOffsets, ps, base, slide);
    }
  }

  /** A string that is no class is answered with the empty header field, once. */
  lemma NotAClass(im: ClassImage, mem: nat -> seq<Byte>, strings: seq<Entry>, classes: seq<ClassEntry>,
                  base: nat, slide: nat, key: seq<Byte>)
    requires Finished(im, mem, strings, classes, base, slide) && key != []
    requires InTable(strings, key) && !IsClass(classes, key)
    ensures ReadableClasses(im)
    ensures var zero := base + slide + ZERO_OFFSET;
      GetClassAndHeader(im, mem, base + slide, key) == Answer(1, zero, zero)
  {
    hide Finished, GetIndex, ReadableClasses, Offset, AddressAt, Pairs, Describes, IsClass;
    FinishedSlot(im, mem, strings, classes, base, slide, key);
    NoPairs(classes, key);
    FinishedZero(im, mem, strings, classes, base, slide);
    AnswerFor(im.classOffsets[GetIndex(im.names, mem, base + slide, key)], im.duplicateOffsets, Pairs(classes, key),
              base, slide);
  }

  // ---- Writing ------------------------------------------------------------------------------

  /** write's result: success, or one of the messages it returns. */
  datatype ClassStatus =
    | Written
    | NotWritten(strings: Status)
    | TooSmall
    | ClassListBusted
    | ClassOffsetTooBig
    | HeaderOffsetTooBig

  /** The slot of a class name, where the strings are in memory. */
  lemma SlotOfName(im: ClassImage, mem: nat -> seq<Byte>, strings: seq<Entry>, base: nat, slide: nat, name: seq<Byte>)
    requires ReadableClasses(im) && Stored(im.names, strings, |strings|, base) && Mapped(mem, strings, base, slide)
    requires name != []
    ensures GetIndex(im.names, mem, base + slide, name) == INDEX_NOT_FOUND <==> !InTable(strings, name)
    ensures InTable(strings, name) ==> GetIndex(im.names, mem, base + slide, name) < |im.classOffsets|
    ensures forall i :: 0 <= i < |strings| && strings[i].name == name ==>
      GetIndex(im.names, mem, base + slide, name) == SlotOf(im, strings, i)
  {
    hide Readable, Stored, Mapped, ReadHash, GetIndex;
    IndexBound(im.names, mem, base + slide, name);
    if !InTable(strings, name) {
      GetOutside(im.names, mem, strings, base, slide, name);
    }
    forall i | 0 <= i < |strings| && strings[i].name == name
      ensures GetIndex(im.names, mem, base + slide, name) == SlotOf(im, strings, i)
      ensures GetIndex(im.names, mem, base + slide, name) != INDEX_NOT_FOUND
    {
      GetFindsStored(im.names, mem, strings, base, slide, i);
    }
  }

  /** Bytes the class table takes. */
  function ClassSize(t: PerfectTable, duplicates: nat): nat { Size(t) + 8 * t.capacity + 4 + 8 * duplicates }

  /** Those of the string table, eight for a header, and the count of the duplicates. */
  lemma ClassSizeIsLayout(im: ClassImage)
    requires ReadableClasses(im)
    ensures ClassSize(im.names.t, |im.duplicateOffsets|)
      == Size(im.names.t) + 8 * |im.classOffsets| + 4 + 8 * |im.duplicateOffsets|
  {
  }

  /** The pair's offset of the kind complained of does not fit 32 bits. */
  ghost predicate PairMisfit(p: Pair, base: nat, status: ClassStatus) {
    || (status.ClassOffsetTooBig? && !Fits32(Offset(p.cls, base)))
    || (status.HeaderOffsetTooBig? && !Fits32(Offset(p.hi, base)))
  }

  /** Such a pair is among the classes. */
  ghost predicate Misfit(classes: seq<ClassEntry>, base: nat, status: ClassStatus) {
    exists i :: 0 <= i < |classes| && PairMisfit(classes[i].pair, base, status)
  }

  lemma MisfitFrom(classes: seq<ClassEntry>, name: seq<Byte>, base: nat, x: nat, status: ClassStatus)
    requires x < |Pairs(classes, name)| && PairMisfit(Pairs(classes, name)[x], base, status)
    ensures Misfit(classes, base, status)
  {
    hide PairMisfit, Pairs;
    PairsFrom(classes, name, x);
  }

  /** objc_clsopt_t. */
  class ClassHash {
    const names: StringHash
    var classOffsets: array<ClassHeader>
    var duplicateCount: nat
    var duplicateOffsets: seq<ClassHeader>

    /** A zero-filled section. */
    constructor ()
      ensures fresh(names) && duplicateCount == 0 && duplicateOffsets == []
    {
      names := new StringHash();
      classOffsets := new ClassHeader[0];
      duplicateCount := 0;
      duplicateOffsets := [];
    }

    function Bytes(): ClassImage
      reads this, names, names.scramble, names.tab, names.checkbytes, names.offsets, classOffsets
    {
      ClassImage(names.Bytes(), classOffsets[..], duplicateOffsets)
    }

    method Write(base: nat, remaining: nat, strings: seq<Entry>, classes: seq<ClassEntry>,
                 mem: nat -> seq<Byte>, slide: nat, tries: nat) returns (status: ClassStatus)
      requires duplicateCount == 0 && duplicateOffsets == []
      requires 2 <= |strings| <= 0x4000_0000 && tries > 0
      requires forall i :: 0 <= i < |strings| ==> IsCString(strings[i].name)
      requires |classes| < 0x4000_0000 && forall i :: 0 <= i < |classes| ==> classes[i].name != []
      requires Mapped(mem, strings, base, slide)
      modifies this, names
      ensures status.Written? ==> Partial(Bytes(), strings, classes, |classes|, base)
      ensures status.Written? ==> Stored(Bytes().names, strings, |strings|, base)
      ensures status.Written? ==> duplicateCount == |duplicateOffsets|
      ensures status.Written? ==> forall i :: 0 <= i < |classes| ==> InTable(strings, classes[i].name)
      ensures status.Written? ==> ClassSize(names.Tables(), duplicateCount) <= remaining
      ensures status.TooSmall? ==> ClassSize(names.Tables(), duplicateCount) > remaining
      ensures status.NotWritten? ==> !status.strings.Ok?
      ensures status.NotWritten? && status.strings.SectionTooSmall? ==>
        HEADER_SIZE > remaining || Size(names.Tables()) > remaining
      ensures status.NotWritten? && status.strings.OffsetTooBig? ==> SomeTooFar(strings, base)
      ensures status == NotWritten(HashFailed) <==> HEADER_SIZE <= remaining && Hopeless(Names(strings), tries)
      ensures status.ClassListBusted? ==> exists i :: 0 <= i < |classes| && !InTable(strings, classes[i].name)
      ensures status.ClassOffsetTooBig? || status.HeaderOffsetTooBig? ==> Misfit(classes, base, status)
    {
      hide Partial, Stored, Readable, ReadableClasses, PerfectFor, Mapped, IsCString, SomeTooFar, InTable, Size,
           ClassSize, Misfit, Hopeless, ChosenSize, FoundBy;
      var err := names.Write(base, remaining, strings, tries);
      if !err.Ok? {
        return NotWritten(err);
      }
      if ClassSize(names.Tables(), duplicateCount) > remaining {
        return TooSmall;
      }
      classOffsets := EmptyHeaders(names.capacity);
      ReadableStart(Bytes());
      NothingMet(Bytes(), strings, classes, base);
      status := WriteClasses(base, remaining, strings, classes, mem, slide);
    }

    /** The real class offsets: the loop over the classes. */
    method WriteClasses(base: nat, remaining: nat, strings: seq<Entry>, classes: seq<ClassEntry>,
                        mem: nat -> seq<Byte>, slide: nat) returns (status: ClassStatus)
      requires forall i :: 0 <= i < |classes| ==> classes[i].name != []
      requires Partial(Bytes(), strings, classes, 0, base) && duplicateCount == |duplicateOffsets|
      requires Readable(names.Bytes()) && Stored(names.Bytes(), strings, |strings|, base)
        && Mapped(mem, strings, base, slide)
      requires ClassSize(names.Tables(), duplicateCount) <= remaining
      modifies classOffsets, this`duplicateCount, this`duplicateOffsets
      ensures !status.NotWritten? && names.Bytes() == old(names.Bytes())
      ensures status.Written? ==>
        Partial(Bytes(), strings, classes, |classes|, base) && duplicateCount == |duplicateOffsets|
      ensures status.Written? ==> forall i :: 0 <= i < |classes| ==> InTable(strings, classes[i].name)
      ensures status.Written? ==> ClassSize(names.Tables(), duplicateCount) <= remaining
      ensures status.TooSmall? ==> ClassSize(names.Tables(), duplicateCount) > remaining
      ensures status.ClassListBusted? ==> exists i :: 0 <= i < |classes| && !InTable(strings, classes[i].name)
      ensures status.ClassOffsetTooBig? || status.HeaderOffsetTooBig? ==> Misfit(classes, base, status)
    {
      hide Partial, Stored, Readable, Mapped, InTable, Size, ClassSize, Misfit;
      var n := 0;
      while n < |classes|
        invariant 0 <= n <= |classes| && Partial(Bytes(), strings, classes, n, base)
        invariant names.Bytes() == old(names.Bytes()) && names.Tables() == old(names.Tables())
        invariant duplicateCount == |duplicateOffsets| && ClassSize(names.Tables(), duplicateCount) <= remaining
        invariant forall i :: 0 <= i < n ==> InTable(strings, classes[i].name)
      {
        status := WriteClass(base, remaining, strings, classes, n, mem, slide);
        if !status.Written? {
          return;
        }
        n := n + 1;
      }
      status := Written;
    }

    /** The loop's body: nothing for a name already written, otherwise its one header, or its
        range of duplicates. */
    method WriteClass(base: nat, remaining: nat, strings: seq<Entry>, classes: seq<ClassEntry>, n: nat,
                      mem: nat -> seq<Byte>, slide: nat) returns (status: ClassStatus)
      requires n < |classes| && classes[n].name != []
      requires Partial(Bytes(), strings, classes, n, base) && duplicateCount == |duplicateOffsets|
      requires Readable(names.Bytes()) && Stored(names.Bytes(), strings, |strings|, base)
        && Mapped(mem, strings, base, slide)
      requires ClassSize(names.Tables(), duplicateCount) <= remaining
      modifies classOffsets, this`duplicateCount, this`duplicateOffsets
      ensures status.Written? ==>
        Partial(Bytes(), strings, classes, n + 1, base) && duplicateCount == |duplicateOffsets|
      ensures !status.NotWritten?
      ensures status.Written? ==> InTable(strings, classes[n].name)
      ensures status.Written? ==> ClassSize(names.Tables(), duplicateCount) <= remaining
      ensures status.TooSmall? ==> ClassSize(names.Tables(), duplicateCount) > remaining
      ensures status.ClassListBusted? ==> !InTable(strings, classes[n].name)
      ensures status.ClassOffsetTooBig? || status.HeaderOffsetTooBig? ==> Misfit(classes, base, status)
    {
      hide Partial, Stored, Readable, ReadableClasses, PerfectFor, Mapped, InTable, Size, ClassSize, GetIndex, SlotOf,
           HeaderOf, Offset, Pairs, Misfit, PairMisfit;
      ghost var im := Bytes();
      ghost var i := FindSlot(im, mem, strings, classes, n, base, slide);
      var h := GetIndex(names.Bytes(), mem, base + slide, classes[n].name);
      if h == INDEX_NOT_FOUND {
        return ClassListBusted;
      }
      if classOffsets[h].clsOffset != ZERO_OFFSET {
        MetBefore(im, strings, classes, n, base);
        return Written;
      }
      var ps := Pairs(classes, classes[n].name);
      PairsOfClass(classes, classes[n].name, n, n);
      var count := |ps|;
      if count == 1 {
        status := CheckPair(ps[0], base);
        if !status.Written? {
          MisfitFrom(classes, classes[n].name, base, 0, status);
          return;
        }
        classOffsets[h] := HeaderFor(ps[0], base);
        OneHeader(im, ps, base);
        NewName(im, strings, classes, n, base, i, HeaderFor(ps[0], base), []);
        assert Bytes() == WithHeader(im, h, HeaderFor(ps[0], base), []);
      } else {
        var dest := duplicateCount;
        duplicateCount := duplicateCount + count;
        if ClassSize(names.Tables(), duplicateCount) > remaining {
          return TooSmall;
        }
        classOffsets[h] := ClassHeader(count * 2 + 1, dest);
        ghost var x;
        status, x := WriteDuplicates(ps, base);
        if !status.Written? {
          MisfitFrom(classes, classes[n].name, base, x, status);
          return;
        }
        ManyHeaders(im, ps, base);
        NewName(im, strings, classes, n, base, i, ClassHeader(2 * count + 1, dest), HeadersFor(ps, base));
        assert Bytes() == WithHeader(im, h, ClassHeader(2 * count + 1, dest), HeadersFor(ps, base));
      }
    }

    /** The entries of one name, at the end of duplicateOffsets. */
    method WriteDuplicates(ps: seq<Pair>, base: nat) returns (status: ClassStatus, ghost bad: nat)
      modifies this`duplicateOffsets
      ensures status.Written? || status.ClassOffsetTooBig? || status.HeaderOffsetTooBig?
      ensures status.Written? ==> duplicateOffsets == old(duplicateOffsets) + HeadersFor(ps, base)
      ensures status.Written? ==> forall x :: 0 <= x < |ps| ==> PairFits(ps[x], base)
      ensures !status.Written? ==> bad < |ps| && PairMisfit(ps[bad], base, status)
    {
      hide Offset, PairFits, PairMisfit;
      status, bad := Written, 0;
      var x := 0;
      while x < |ps|
        invariant 0 <= x <= |ps| && status.Written?
        invariant duplicateOffsets == old(duplicateOffsets) + HeadersFor(ps, base)[..x]
        invariant forall y :: 0 <= y < x ==> PairFits(ps[y], base)
      {
        status := CheckPair(ps[x], base);
        if !status.Written? {
          bad := x;
          return;
        }
        duplicateOffsets := duplicateOffsets + [HeaderFor(ps[x], base)];
        x := x + 1;
      }
      assert HeadersFor(ps, base)[..x] == HeadersFor(ps, base);
    }
  }

  /** The two tests that offsets fit 32 bits. */
  method CheckPair(p: Pair, base: nat) returns (status: ClassStatus)
    ensures status.Written? || status.ClassOffsetTooBig? || status.HeaderOffsetTooBig?
    ensures status.Written? <==> PairFits(p, base)
    ensures status.ClassOffsetTooBig? <==> !Fits32(Offset(p.cls, base))
    ensures status.HeaderOffsetTooBig? <==> Fits32(Offset(p.cls, base)) && !Fits32(Offset(p.hi, base))
    ensures !status.Written? ==> PairMisfit(p, base, status)
  {
    var coff, hoff := Offset(p.cls, base), Offset(p.hi, base);
    LowWordFits(coff);
    LowWordFits(hoff);
    if LowWord(coff) != coff {
      return ClassOffsetTooBig;
    }
    if LowWord(hoff) != hoff {
      return HeaderOffsetTooBig;
    }
    status := Written;
  }

  method EmptyHeaders(n: nat) returns (a: array<ClassHeader>)
    ensures fresh(a) && a.Length == n && forall i :: 0 <= i < n ==> a[i] == EMPTY
  {
    a := new ClassHeader[n](i => EMPTY);
    for i := 0 to n
      invariant forall j :: 0 <= j < i ==> a[j] == EMPTY
    {
      a[i] := EMPTY;
    }
  }

  lemma ReadableStart(im: ClassImage)
    requires Readable(im.names) && |im.classOffsets| == im.names.t.capacity
    ensures ReadableClasses(im) && Shaped(im.names.t)
  {
  }

  lemma OneHeader(im: ClassImage, ps: seq<Pair>, base: nat)
    requires |ps| == 1
    ensures HeaderOf(HeaderFor(ps[0], base), [], ps, |im.duplicateOffsets|, base)
  {
  }

  lemma ManyHeaders(im: ClassImage, ps: seq<Pair>, base: nat)
    requires |ps| >= 2
    ensures HeaderOf(ClassHeader(2 * |ps| + 1, |im.duplicateOffsets|), HeadersFor(ps, base), ps, |im.duplicateOffsets|,
                     base)
  {
  }

  /** The string that a class name is, if any, with what its slot says. */
  lemma FindSlot(im: ClassImage, mem: nat -> seq<Byte>, strings: seq<Entry>, classes: seq<ClassEntry>, n: nat,
                 base: nat, slide: nat) returns (i: int)
    requires n < |classes| && classes[n].name != [] && Partial(im, strings, classes, n, base)
    requires Stored(im.names, strings, |strings|, base) && Mapped(mem, strings, base, slide)
    ensures var h := GetIndex(im.names, mem, base + slide, classes[n].name);
      && (h == INDEX_NOT_FOUND ==> !InTable(strings, classes[n].name))
      && (h != INDEX_NOT_FOUND ==>
            && InTable(strings, classes[n].name)
            && ReadableClasses(im) && 0 <= i < |strings| && strings[i].name == classes[n].name
            && h == SlotOf(im, strings, i) && h < |im.classOffsets|
            && (im.classOffsets[h].clsOffset == ZERO_OFFSET <==> !IsClass(classes[..n], classes[n].name)))
  {
    hide Described, Stored, Readable, PerfectFor, Mapped, GetIndex, SlotOf, Tiled, PairFits, IsClass;
    i := 0;
    SlotOfName(im, mem, strings, base, slide, classes[n].name);
    if InTable(strings, classes[n].name) {
      var j :| 0 <= j < |strings| && strings[j].name == classes[n].name;
      i := j;
      EmptyMeansNew(im, strings, classes, n, base, i);
    }
  }
}
