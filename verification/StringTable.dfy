/** The serialised perfect-hash table of strings: how it is written, and how it is read where it
    is mapped. */
module StringTable {
  import opened Words
  import opened PerfectTables

  const INDEX_NOT_FOUND: nat := 0xffff_ffff
  const NULL_ADDRESS: nat := 0

  /** offsetof(objc_stringhash_t, zero), and sizeof(objc_stringhash_t). */
  const ZERO_OFFSET: int := 16
  const HEADER_SIZE: nat := 1056

  /** The table as bytes in the section: header and tab, then check bytes and offsets. */
  datatype Image = Image(t: PerfectTable, checkbytes: seq<Byte>, offsets: seq<int>)

  ghost predicate Readable(im: Image) {
    && Shaped(im.t) && im.t.shift < 64 && im.t.salt < TWO64
    && |im.checkbytes| == im.t.capacity && |im.offsets| == im.t.capacity
  }

  /** A NUL-terminated string's bytes before the NUL. */
  ghost predicate IsCString(s: seq<Byte>) {
    |s| < TWO32 && (forall i :: 0 <= i < |s| ==> s[i] != 0)
  }

  // ---- Reading ------------------------------------------------------------------------------

  /** Three bits of the first byte, which is the NUL of an empty string, and five of the length. */
  function CheckByte(key: seq<Byte>): Byte {
    (if key == [] then 0 else (key[0] as nat) % 8) * 32 + |key| % 32
  }

  /** The two fields of a check byte. */
  lemma CheckByteFields(key: seq<Byte>)
    ensures CheckByte(key) / 32 == (if key == [] then 0 else key[0] % 8)
    ensures CheckByte(key) % 32 == |key| % 32
  {
  }

  /** The address `offset` bytes from the table. */
  function AddressAt(self: nat, offset: int): nat { (self + offset) % TWO64 }

  /** getIndex: the slot of a key, whose string is looked up in memory. */
  function GetIndex(im: Image, mem: nat -> seq<Byte>, self: nat, key: seq<Byte>): nat
    requires Readable(im)
  {
    ReadHashBound(im.t, key);
    var h := ReadHash(im.t, key);
    if im.checkbytes[h] != CheckByte(key) then INDEX_NOT_FOUND
    else if mem(AddressAt(self, im.offsets[h])) != key then INDEX_NOT_FOUND
    else h
  }

  /** objc_selopt_t::get */
  function Get(im: Image, mem: nat -> seq<Byte>, self: nat, key: seq<Byte>): nat
    requires Readable(im)
  {
    IndexBound(im, mem, self, key);
    var h := GetIndex(im, mem, self, key);
    if h == INDEX_NOT_FOUND then NULL_ADDRESS else AddressAt(self, im.offsets[h])
  }

  lemma IndexBound(im: Image, mem: nat -> seq<Byte>, self: nat, key: seq<Byte>)
    requires Readable(im)
    ensures GetIndex(im, mem, self, key) == INDEX_NOT_FOUND || GetIndex(im, mem, self, key) < im.t.capacity
    ensures im.t.capacity < INDEX_NOT_FOUND
  {
    ReadHashBound(im.t, key);
  }

  // ---- Writing ------------------------------------------------------------------------------

  datatype Entry = Entry(name: seq<Byte>, address: nat)

  /** write's result: success, or one of the messages it returns. */
  datatype Status = Ok | SectionTooSmall | HashFailed | OffsetTooBig

  /** `s->second - base` as a signed 64-bit number. */
  function Offset(address: nat, base: nat): int {
    var d := (address - base) % TWO64;
    if d < TWO64 / 2 then d else d - TWO64
  }

  /** Strings below the table have negative offsets. */
  lemma OffsetIsDifference(address: nat, base: nat)
    requires -0x8000_0000_0000_0000 <= address - base < 0x8000_0000_0000_0000
    ensures Offset(address, base) == address - base
  {
    var d := address - base;
    ModUnique(d, TWO64, if d < 0 then -1 else 0, if d < 0 then d + TWO64 else d);
  }

  /** `(offset << SHIFT) >> SHIFT`: the low 32 bits, sign-extended. */
  function LowWord(offset: int): int {
    var d := offset % TWO32;
    if d < TWO32 / 2 then d else d - TWO32
  }

  /** The test on offsets accepts exactly the 32-bit ones. */
  lemma LowWordFits(offset: int)
    ensures LowWord(offset) == offset <==> -0x8000_0000 <= offset < 0x8000_0000
  {
  }

  /** Adding the stored offset to the table's address gives back the string's address. */
  lemma OffsetReverses(address: nat, base: nat, slide: nat)
    ensures AddressAt(base + slide, Offset(address, base)) == (address + slide) % TWO64
  {
    var d := address - base;
    ModAdd(d, base + slide, TWO64);
    ModShift(d % TWO64 + (base + slide), TWO64, -1);
  }

  /** Bytes the table takes. */
  function Size(t: PerfectTable): nat { HEADER_SIZE + (t.mask + 1) + t.capacity + 4 * t.capacity }

  /** They are the header, and one byte, one byte and four bytes for an entry of the arrays. */
  lemma SizeIsLayout(im: Image)
    requires Readable(im)
    ensures Size(im.t) == HEADER_SIZE + |im.t.tab| + |im.checkbytes| + 4 * |im.offsets|
  {
    hide Pow2;
  }

  /** Slot h belongs to one of the first n strings. */
  ghost predicate Taken(t: PerfectTable, strings: seq<Entry>, n: nat, h: nat)
    requires n <= |strings| && Shaped(t) && t.shift < 64
  {
    exists i :: 0 <= i < n && ReadHash(t, strings[i].name) == h
  }

  /** The first n strings are in their slots and the other slots are empty. */
  ghost predicate Stored(im: Image, strings: seq<Entry>, n: nat, base: nat)
    requires n <= |strings| && Readable(im)
  {
    && (forall i :: 0 <= i < n ==>
          var h := ReadHash(im.t, strings[i].name);
          h < im.t.capacity
          && im.offsets[h] == Offset(strings[i].address, base)
          && im.checkbytes[h] == CheckByte(strings[i].name))
    && (forall h :: 0 <= h < im.t.capacity && !Taken(im.t, strings, n, h) ==>
          im.offsets[h] == ZERO_OFFSET && im.checkbytes[h] == 0)
  }

  function Names(strings: seq<Entry>): (names: seq<seq<Byte>>)
    ensures |names| == |strings| && forall i :: 0 <= i < |strings| ==> names[i] == strings[i].name
  {
    seq(|strings|, i requires 0 <= i < |strings| => strings[i].name)
  }

  lemma NamesFit(strings: seq<Entry>)
    requires forall i :: 0 <= i < |strings| ==> IsCString(strings[i].name)
    ensures FitLength(Names(strings))
  {
  }

  function EmptyImage(t: PerfectTable): Image {
    Image(t, seq(t.capacity, i => 0), seq(t.capacity, i => ZERO_OFFSET))
  }

  lemma NothingStored(t: PerfectTable, strings: seq<Entry>, base: nat)
    requires Shaped(t) && t.shift < 64 && t.salt < TWO64
    ensures Readable(EmptyImage(t)) && Stored(EmptyImage(t), strings, 0, base)
  {
  }

  lemma StoreReady(im: Image, name: seq<Byte>)
    requires Readable(im)
    ensures Shaped(im.t) && im.t.shift < 64
    ensures ReadHash(im.t, name) < im.t.capacity == |im.checkbytes| == |im.offsets|
  {
    ReadHashBound(im.t, name);
  }

  /** The next string goes to a slot no other string has. */
  lemma StoreOne(im: Image, im': Image, strings: seq<Entry>, i: nat, base: nat)
    requires Readable(im) && i < |strings| && Stored(im, strings, i, base) && PerfectFor(im.t, Names(strings))
    requires var h := ReadHash(im.t, strings[i].name);
      && h < im.t.capacity
      && im' == Image(im.t, im.checkbytes[h := CheckByte(strings[i].name)],
                      im.offsets[h := Offset(strings[i].address, base)])
    ensures Readable(im') && Stored(im', strings, i + 1, base)
  {
    hide ReadHash, Shaped, CheckByte, Offset;
    var h := ReadHash(im.t, strings[i].name);
    forall j | 0 <= j < i ensures ReadHash(im.t, strings[j].name) != h {
      assert Names(strings)[j] == strings[j].name && Names(strings)[i] == strings[i].name;
    }
    TakenNext(im.t, strings, i);
  }

  lemma TakenNext(t: PerfectTable, strings: seq<Entry>, i: nat)
    requires Shaped(t) && t.shift < 64 && i < |strings|
    ensures forall g: nat :: Taken(t, strings, i + 1, g) <==>
      Taken(t, strings, i, g) || ReadHash(t, strings[i].name) == g
  {
    hide ReadHash, Shaped;
    forall g: nat
      ensures Taken(t, strings, i + 1, g) <==> Taken(t, strings, i, g) || ReadHash(t, strings[i].name) == g
    {
      if ReadHash(t, strings[i].name) == g {
        assert strings[i].name == strings[i].name;
      }
    }
  }

  // ---- The table agrees with the string map -------------------------------------------------

  /** Memory where the table is mapped, `slide` bytes from where it was laid out: every string is
      at its address, and the header's zero field reads as the empty string. */
  ghost predicate Mapped(mem: nat -> seq<Byte>, strings: seq<Entry>, base: nat, slide: nat) {
    && base + slide + HEADER_SIZE <= TWO64
    && mem(base + slide + ZERO_OFFSET) == []
    && (forall i :: 0 <= i < |strings| ==>
          strings[i].address < TWO64 && mem((strings[i].address + slide) % TWO64) == strings[i].name)
  }

  ghost predicate InTable(strings: seq<Entry>, key: seq<Byte>) {
    exists i :: 0 <= i < |strings| && strings[i].name == key
  }

  lemma ZeroField(base: nat, slide: nat)
    requires base + slide + HEADER_SIZE <= TWO64
    ensures AddressAt(base + slide, ZERO_OFFSET) == base + slide + ZERO_OFFSET != NULL_ADDRESS
  {
    ModUnique(base + slide + ZERO_OFFSET, TWO64, 0, base + slide + ZERO_OFFSET);
  }

  /** A string of the map is found, at the address the map gives it. */
  lemma GetFindsStored(im: Image, mem: nat -> seq<Byte>, strings: seq<Entry>, base: nat, slide: nat, i: nat)
    requires Readable(im) && Stored(im, strings, |strings|, base) && Mapped(mem, strings, base, slide) && i < |strings|
    ensures GetIndex(im, mem, base + slide, strings[i].name) == ReadHash(im.t, strings[i].name)
    ensures Get(im, mem, base + slide, strings[i].name) == (strings[i].address + slide) % TWO64
  {
    hide CheckByte, Shaped, ReadHash, Offset, AddressAt;
    IndexBound(im, mem, base + slide, strings[i].name);
    OffsetReverses(strings[i].address, base, slide);
  }

  /** What lookup makes of a string outside the map: it is rejected, except that the empty string
      is accepted when its slot is empty. */
  lemma GetOutside(im: Image, mem: nat -> seq<Byte>, strings: seq<Entry>, base: nat, slide: nat, key: seq<Byte>)
    requires Readable(im) && Stored(im, strings, |strings|, base) && Mapped(mem, strings, base, slide)
    requires !InTable(strings, key)
    ensures GetIndex(im, mem, base + slide, key) == INDEX_NOT_FOUND
       <==> key != [] || Taken(im.t, strings, |strings|, ReadHash(im.t, key))
    ensures Get(im, mem, base + slide, key) == NULL_ADDRESS
       <==> key != [] || Taken(im.t, strings, |strings|, ReadHash(im.t, key))
  {
    hide Shaped, ReadHash, Offset, AddressAt;
    IndexBound(im, mem, base + slide, key);
    ReadHashBound(im.t, key);
    ZeroField(base, slide);
    var h := ReadHash(im.t, key);
    if Taken(im.t, strings, |strings|, h) {
      var i :| 0 <= i < |strings| && ReadHash(im.t, strings[i].name) == h;
      OffsetReverses(strings[i].address, base, slide);
    } else {
      assert CheckByte([]) == 0;
    }
  }

  /** The table agrees with the string map on every non-empty string. */
  lemma GetAgrees(im: Image, mem: nat -> seq<Byte>, strings: seq<Entry>, base: nat, slide: nat, key: seq<Byte>)
    requires Readable(im) && Stored(im, strings, |strings|, base) && Mapped(mem, strings, base, slide)
    requires key != []
    ensures InTable(strings, key) ==>
              (exists i :: 0 <= i < |strings| && strings[i].name == key
                && Get(im, mem, base + slide, key) == (strings[i].address + slide) % TWO64)
    ensures !InTable(strings, key) ==> Get(im, mem, base + slide, key) == NULL_ADDRESS
  {
    hide Shaped, ReadHash, Get, GetIndex, Stored, Mapped, Readable;
    if InTable(strings, key) {
      var i :| 0 <= i < |strings| && strings[i].name == key;
      GetFindsStored(im, mem, strings, base, slide, i);
    } else {
      GetOutside(im, mem, strings, base, slide, key);
    }
  }

  /** The offset of some string does not fit 32 bits. */
  ghost predicate SomeTooFar(strings: seq<Entry>, base: nat) {
    exists i :: 0 <= i < |strings| && !(-0x8000_0000 <= Offset(strings[i].address, base) < 0x8000_0000)
  }

  /** objc_stringhash_t, with its flexible arrays. */
  class StringHash {
    var capacity: nat
    var occupied: nat
    var shift: nat
    var mask: nat
    var salt: nat
    var scramble: array<nat>
    var tab: array<nat>
    var checkbytes: array<Byte>
    var offsets: array<int>

    constructor ()
      ensures fresh(scramble) && fresh(tab) && fresh(checkbytes) && fresh(offsets)
    {
      capacity, occupied, shift, mask, salt := 0, 0, 0, 0, 0;
      scramble := new nat[256](i => 0);
      tab := new nat[0];
      checkbytes := new Byte[0];
      offsets := new int[0];
    }

    function Tables(): PerfectTable
      reads this, scramble, tab
    {
      PerfectTable(capacity, occupied, shift, mask, salt, tab[..], scramble[..])
    }

    /** The bytes in the section. */
    function Bytes(): Image
      reads this, scramble, tab, checkbytes, offsets
    {
      Image(Tables(), checkbytes[..], offsets[..])
    }

    /** write: the strings map is given in the order in which it is walked. */
    method Write(base: nat, remaining: nat, strings: seq<Entry>, tries: nat) returns (status: Status)
      requires 2 <= |strings| <= 0x4000_0000 && tries > 0
      requires forall i :: 0 <= i < |strings| ==> IsCString(strings[i].name)
      modifies this
      ensures status.Ok? ==> Readable(Bytes()) && PerfectFor(Tables(), Names(strings))
      ensures status.Ok? ==> Stored(Bytes(), strings, |strings|, base)
      ensures status.Ok? ==> Size(Tables()) <= remaining && occupied == |strings|
      ensures status.Ok? ==> forall i :: 0 <= i < |strings| ==>
        -0x8000_0000 <= Offset(strings[i].address, base) < 0x8000_0000
      ensures status.SectionTooSmall? ==> HEADER_SIZE > remaining || Size(Tables()) > remaining
      ensures status.OffsetTooBig? ==> SomeTooFar(strings, base)
      ensures status.HashFailed? <==> HEADER_SIZE <= remaining && Hopeless(Names(strings), tries)
      ensures status.Ok? ==> capacity == ChosenSize(Names(strings), tries)
      ensures status.Ok? ==> exists trail :: FoundBy(Names(strings), tries, Tables(), trail)
    {
      hide Shaped, ReadHash, PerfectFor, Stored, Readable, Taken, Offset, LowWord, CheckByte, IsCString, FitLength,
           Size, EmptyImage, Hopeless, ChosenSize, FoundBy;
      if HEADER_SIZE > remaining {
        return SectionTooSmall;
      }
      var phash := MakePerfect(Names(strings), tries);
      if phash.capacity == 0 {
        return HashFailed;
      }
      NamesFit(strings);
      SetHeader(phash);
      if Size(phash) > remaining {
        return SectionTooSmall;
      }
      SetEmpty(phash);
      NothingStored(phash, strings, base);
      var i := 0;
      while i < |strings|
        invariant 0 <= i <= |strings|
        invariant Tables() == phash && Readable(Bytes()) && Stored(Bytes(), strings, i, base)
        invariant fresh(offsets) && fresh(checkbytes)
        invariant forall j :: 0 <= j < i ==> -0x8000_0000 <= Offset(strings[j].address, base) < 0x8000_0000
      {
        var offset := Offset(strings[i].address, base);
        LowWordFits(offset);
        if LowWord(offset) != offset {
          return OffsetTooBig;
        }
        SetString(base, strings, i, offset);
        i := i + 1;
      }
      status := Ok;
    }

    /** The offset and the check byte of one string. */
    method SetString(base: nat, strings: seq<Entry>, i: nat, offset: int)
      requires i < |strings| && offset == Offset(strings[i].address, base)
      requires Readable(Bytes()) && Stored(Bytes(), strings, i, base) && PerfectFor(Tables(), Names(strings))
      modifies offsets, checkbytes
      ensures Tables() == old(Tables()) && Readable(Bytes()) && Stored(Bytes(), strings, i + 1, base)
    {
      hide Shaped, ReadHash, PerfectFor, Stored, Readable, Taken, Offset, CheckByte;
      ghost var im := Bytes();
      StoreReady(im, strings[i].name);
      var h := ReadHash(Tables(), strings[i].name);
      offsets[h] := offset;
      checkbytes[h] := CheckByte(strings[i].name);
      StoreOne(im, Bytes(), strings, i, base);
    }

    /** The header, and the arrays it lays out. */
    method SetHeader(phash: PerfectTable)
      requires Shaped(phash)
      modifies this
      ensures Tables() == phash
    {
      capacity, occupied, shift, mask, salt := phash.capacity, phash.occupied, phash.shift, phash.mask, phash.salt;
      var s := CopyWords(phash.scramble, 256);
      var t := CopyWords(phash.tab, phash.mask + 1);
      scramble, tab := s, t;
    }

    /** Every offset leads to the empty string in the header, every check byte is 0. */
    method SetEmpty(phash: PerfectTable)
      requires Tables() == phash
      modifies this`checkbytes, this`offsets
      ensures fresh(checkbytes) && fresh(offsets) && Bytes() == EmptyImage(phash)
    {
      offsets := EmptyOffsets(phash.capacity);
      checkbytes := EmptyCheckbytes(phash.capacity);
      assert offsets[..] == EmptyImage(phash).offsets && checkbytes[..] == EmptyImage(phash).checkbytes;
    }
  }

  method EmptyOffsets(n: nat) returns (a: array<int>)
    ensures fresh(a) && a.Length == n && forall h :: 0 <= h < n ==> a[h] == ZERO_OFFSET
  {
    a := new int[n](i => 0);
    for i := 0 to n
      invariant forall h :: 0 <= h < i ==> a[h] == ZERO_OFFSET
    {
      a[i] := ZERO_OFFSET;
    }
  }

  method EmptyCheckbytes(n: nat) returns (a: array<Byte>)
    ensures fresh(a) && a.Length == n && forall h :: 0 <= h < n ==> a[h] == 0
  {
    a := new Byte[n](i => 0);
    for i := 0 to n
      invariant forall h :: 0 <= h < i ==> a[h] == 0
    {
      a[i] := 0;
    }
  }

  method CopyWords(words: seq<nat>, n: nat) returns (a: array<nat>)
    requires |words| == n
    ensures fresh(a) && a[..] == words
  {
    a := new nat[n](i => 0);
    for i := 0 to n
      invariant forall j :: 0 <= j < i ==> a[j] == words[j]
    {
      a[i] := words[i];
    }
  }
}
