/** The footer and the header of a dynamic VHD: packing, unpacking, checksums and checks. */
module VhdStructs {
  import opened Basics

  const FOOTER_SIZE: nat := 512
  const HEADER_SIZE: nat := 1024
  const SECTOR_SIZE: nat := 512
  const BLOCK_UNUSED: nat := 0xffff_ffff
  const PARENT_LOCATOR_ENTRIES: nat := 8
  const FILE_FORMAT_VERSION: nat := 0x1_0000
  const HEADER_VERSION: nat := 0x1_0000
  const DYNAMIC: nat := 3
  const DIFFERENCING: nat := 4

  // ----- unsigned integers, most significant byte first

  function Pow256(w: nat): nat {
    if w == 0 then 1 else 256 * Pow256(w - 1)
  }

  function BigEndian(n: nat, w: nat): (b: Bytes)
    requires n < Pow256(w)
    ensures |b| == w
  {
    if w == 0 then [] else BigEndian(n / 256, w - 1) + [n % 256]
  }

  function UInt(b: Bytes): nat {
    if b == [] then 0 else UInt(b[..|b| - 1]) * 256 + b[|b| - 1] as int
  }

  lemma {:induction false} UIntOfBigEndian(n: nat, w: nat)
    requires n < Pow256(w)
    ensures UInt(BigEndian(n, w)) == n
  {
    if w > 0 {
      var b := BigEndian(n, w);
      UIntOfBigEndian(n / 256, w - 1);
      assert b[..|b| - 1] == BigEndian(n / 256, w - 1);
    }
  }

  lemma Widths()
    ensures Pow256(4) == 0x1_0000_0000 && Pow256(8) == 0x1_0000_0000_0000_0000
  {
    assert Pow256(2) == 0x1_0000 && Pow256(3) == 0x100_0000;
    assert Pow256(5) == 0x100_0000_0000 && Pow256(6) == 0x1_0000_0000_0000;
    assert Pow256(7) == 0x100_0000_0000_0000;
  }

  // ----- structures

  function Concat(parts: seq<Bytes>): Bytes {
    if parts == [] then [] else parts[0] + Concat(parts[1..])
  }

  function Total(sizes: seq<nat>): nat {
    if sizes == [] then 0 else sizes[0] + Total(sizes[1..])
  }

  /** Unfolds the sum of the sizes of a structure. */
  lemma TotalOf(sizes: seq<nat>)
    ensures Total(sizes[0..]) == Total(sizes) && Total(sizes[|sizes|..]) == 0
    ensures forall i {:trigger Total(sizes[i..])} :: 0 <= i < |sizes| ==>
      Total(sizes[i..]) == sizes[i] + Total(sizes[i + 1..])
  {
    assert sizes[0..] == sizes;
    forall i | 0 <= i < |sizes| ensures Total(sizes[i..]) == sizes[i] + Total(sizes[i + 1..]) {
      assert sizes[i..][1..] == sizes[i + 1..];
    }
  }

  /** The fields of a structure, by their sizes. */
  function Split(b: Bytes, sizes: seq<nat>): (parts: seq<Bytes>)
    requires |b| == Total(sizes)
    ensures |parts| == |sizes| && forall i :: 0 <= i < |sizes| ==> |parts[i]| == sizes[i]
  {
    if sizes == [] then [] else [b[..sizes[0]]] + Split(b[sizes[0]..], sizes[1..])
  }

  predicate HaveSizes(parts: seq<Bytes>, sizes: seq<nat>) {
    |parts| == |sizes| && forall i :: 0 <= i < |sizes| ==> |parts[i]| == sizes[i]
  }

  lemma {:induction false} SplitConcat(parts: seq<Bytes>, sizes: seq<nat>)
    requires HaveSizes(parts, sizes)
    ensures |Concat(parts)| == Total(sizes) && Split(Concat(parts), sizes) == parts
  {
    if sizes != [] {
      SplitConcat(parts[1..], sizes[1..]);
      var b := Concat(parts);
      assert b[..sizes[0]] == parts[0] && b[sizes[0]..] == Concat(parts[1..]);
      assert parts == [parts[0]] + parts[1..];
    }
  }

  function Sum(b: Bytes): nat {
    if b == [] then 0 else Sum(b[..|b| - 1]) + b[|b| - 1] as int
  }

  /** The complement of the sum of all the bytes but those of the field `k`, the checksum. */
  function Checksum(parts: seq<Bytes>, k: nat): nat
    requires k < |parts|
  {
    var sum := Sum(Concat(parts[..k] + parts[k + 1..]));
    if sum <= 0xffff_ffff then 0xffff_ffff - sum else 0
  }

  // ----- the footer

  datatype Footer = Footer(cookie: Bytes, features: nat, fileFormatVersion: nat, dataOffset: nat, creator: Bytes,
                           originalSize: nat, currentSize: nat, geometry: Bytes, diskType: nat, checksum: nat,
                             rest: Bytes)

  /**
   cookie, features, fileFormatVersion, dataOffset, timestamp to creatorHostOs, originalSize,
   currentSize, diskGeometry, diskType, checksum, uuid to reserved
   */
  const FOOTER_FIELDS: seq<nat> := [8, 4, 4, 8, 16, 8, 8, 4, 4, 4, 444]
  const FOOTER_CHECKSUM: nat := 9

  /** 'conectix' */
  const FOOTER_COOKIE: Bytes := [99, 111, 110, 101, 99, 116, 105, 120]

  predicate FooterFits(f: Footer) {
    && |f.cookie| == 8 && |f.creator| == 16 && |f.geometry| == 4 && |f.rest| == 444
    && f.features <= 0xffff_ffff && f.fileFormatVersion <= 0xffff_ffff
    && f.diskType <= 0xffff_ffff && f.checksum <= 0xffff_ffff
    && f.dataOffset <= 0xffff_ffff_ffff_ffff && f.originalSize <= 0xffff_ffff_ffff_ffff
    && f.currentSize <= 0xffff_ffff_ffff_ffff
  }

  function FooterParts(f: Footer): (parts: seq<Bytes>)
    requires FooterFits(f)
    ensures HaveSizes(parts, FOOTER_FIELDS)
  {
    Widths();
    [f.cookie, BigEndian(f.features, 4), BigEndian(f.fileFormatVersion, 4), BigEndian(f.dataOffset, 8), f.creator,
     BigEndian(f.originalSize, 8), BigEndian(f.currentSize, 8), f.geometry, BigEndian(f.diskType, 4),
     BigEndian(f.checksum, 4), f.rest]
  }

  function FooterOf(p: seq<Bytes>): Footer
    requires HaveSizes(p, FOOTER_FIELDS)
  {
    Footer(p[0], UInt(p[1]), UInt(p[2]), UInt(p[3]), p[4], UInt(p[5]), UInt(p[6]), p[7], UInt(p[8]), UInt(p[9]), p[10])
  }

  lemma FooterOfParts(f: Footer)
    requires FooterFits(f)
    ensures FooterOf(FooterParts(f)) == f
  {
    hide UInt, BigEndian, Pow256;
    Widths();
    UIntOfBigEndian(f.features, 4);
    UIntOfBigEndian(f.fileFormatVersion, 4);
    UIntOfBigEndian(f.dataOffset, 8);
    UIntOfBigEndian(f.originalSize, 8);
    UIntOfBigEndian(f.currentSize, 8);
    UIntOfBigEndian(f.diskType, 4);
    UIntOfBigEndian(f.checksum, 4);
  }

  /** `checkFooter`. */
  predicate CheckFooter(f: Footer) {
    && f.cookie == FOOTER_COOKIE
    && f.dataOffset == FOOTER_SIZE
    && f.fileFormatVersion == FILE_FORMAT_VERSION
    && f.originalSize <= f.currentSize
    && (f.diskType == DIFFERENCING || f.diskType == DYNAMIC)
  }

  /** A footer with the checksum that `checksumStruct` writes into it. */
  function SealedFooter(f: Footer): (r: Footer)
    requires FooterFits(f)
    ensures FooterFits(r)
  {
    f.(checksum := Checksum(FooterParts(f), FOOTER_CHECKSUM))
  }

  function PackFooter(f: Footer): (b: Bytes)
    requires FooterFits(f)
    ensures |b| == FOOTER_SIZE
  {
    FooterTotal();
    SplitConcat(FooterParts(f), FOOTER_FIELDS);
    Concat(FooterParts(f))
  }

  lemma FooterTotal()
    ensures Total(FOOTER_FIELDS) == FOOTER_SIZE
  {
    TotalOf(FOOTER_FIELDS);
  }

  /** The fields alone, without looking at the checksum. */
  function ReadFooter(b: Bytes): Footer
    requires |b| == FOOTER_SIZE
  {
    FooterTotal();
    FooterOf(Split(b, FOOTER_FIELDS))
  }

  /** `unpackFooter`: None when the checksum or the checks fail. */
  function UnpackFooter(b: Bytes): Option<Footer>
    requires |b| == FOOTER_SIZE
  {
    FooterTotal();
    var parts := Split(b, FOOTER_FIELDS);
    var f := ReadFooter(b);
    if f.checksum == Checksum(parts, FOOTER_CHECKSUM) && CheckFooter(f) then Some(f) else None
  }

  /** The checksum does not depend on itself. */
  lemma SealKeepsSum(parts: seq<Bytes>, parts': seq<Bytes>, k: nat)
    requires k < |parts| == |parts'| && forall i :: 0 <= i < |parts| && i != k ==> parts[i] == parts'[i]
    ensures Checksum(parts, k) == Checksum(parts', k)
  {
    assert parts[..k] == parts'[..k] && parts[k + 1..] == parts'[k + 1..];
  }

  /** A sealed footer unpacks to itself exactly when it passes the checks. */
  lemma FooterRoundTrip(f: Footer)
    requires FooterFits(f)
    ensures UnpackFooter(PackFooter(SealedFooter(f))) == if CheckFooter(f) then Some(SealedFooter(f)) else None
  {
    var sealed := SealedFooter(f);
    FooterTotal();
    SealKeepsSum(FooterParts(f), FooterParts(sealed), FOOTER_CHECKSUM);
    SplitConcat(FooterParts(sealed), FOOTER_FIELDS);
    FooterOfParts(sealed);
  }

  // ----- the header

  /** A parent locator entry; `space` counts sectors. */
  datatype Locator = Locator(code: nat, space: nat, length: nat, reserved: nat, offset: nat)

  datatype Header = Header(cookie: Bytes, dataOffset: Bytes, tableOffset: nat, headerVersion: nat, maxTableEntries: nat,
                           blockSize: nat, checksum: nat, parent: Bytes, locators: seq<Locator>, reserved: Bytes)

  /**
   cookie, dataOffset, tableOffset, headerVersion, maxTableEntries, blockSize, checksum, parentUuid to
   parentUnicodeName, parentLocatorEntry, reserved2
   */
  const HEADER_FIELDS: seq<nat> := [8, 8, 8, 4, 4, 4, 4, 536, 192, 256]
  const HEADER_CHECKSUM: nat := 6
  const LOCATOR_FIELDS: seq<nat> := [4, 4, 4, 4, 8]
  const LOCATORS: seq<nat> := [24, 24, 24, 24, 24, 24, 24, 24]

  /** 'cxsparse' */
  const HEADER_COOKIE: Bytes := [99, 120, 115, 112, 97, 114, 115, 101]

  /** How an undefined `dataOffset` is written. */
  const UNDEFINED: Bytes := [255, 255, 255, 255, 255, 255, 255, 255]

  predicate LocatorInRange(l: Locator) {
    && l.code <= 0xffff_ffff && l.space <= 0xffff_ffff && l.length <= 0xffff_ffff && l.reserved <= 0xffff_ffff
    && l.offset <= 0xffff_ffff_ffff_ffff
  }

  predicate HeaderFits(h: Header) {
    && |h.cookie| == 8 && |h.dataOffset| == 8 && |h.parent| == 536 && |h.reserved| == 256
    && h.tableOffset <= 0xffff_ffff_ffff_ffff && h.headerVersion <= 0xffff_ffff
    && h.maxTableEntries <= 0xffff_ffff && h.blockSize <= 0xffff_ffff && h.checksum <= 0xffff_ffff
    && |h.locators| == PARENT_LOCATOR_ENTRIES
    && forall i :: 0 <= i < PARENT_LOCATOR_ENTRIES ==> LocatorInRange(h.locators[i])
  }

  function LocatorParts(l: Locator): (parts: seq<Bytes>)
    requires LocatorInRange(l)
    ensures HaveSizes(parts, LOCATOR_FIELDS)
  {
    Widths();
    [BigEndian(l.code, 4), BigEndian(l.space, 4), BigEndian(l.length, 4), BigEndian(l.reserved, 4),
      BigEndian(l.offset, 8)]
  }

  lemma LocatorTotal()
    ensures Total(LOCATOR_FIELDS) == 24
  {
    TotalOf(LOCATOR_FIELDS);
  }

  function PackLocator(l: Locator): (b: Bytes)
    requires LocatorInRange(l)
    ensures |b| == 24
  {
    LocatorTotal();
    SplitConcat(LocatorParts(l), LOCATOR_FIELDS);
    Concat(LocatorParts(l))
  }

  function UnpackLocator(b: Bytes): Locator
    requires |b| == 24
  {
    LocatorTotal();
    var p := Split(b, LOCATOR_FIELDS);
    Locator(UInt(p[0]), UInt(p[1]), UInt(p[2]), UInt(p[3]), UInt(p[4]))
  }

  lemma LocatorRoundTrip(l: Locator)
    requires LocatorInRange(l)
    ensures UnpackLocator(PackLocator(l)) == l
  {
    hide UInt, BigEndian, Pow256;
    Widths();
    LocatorTotal();
    SplitConcat(LocatorParts(l), LOCATOR_FIELDS);
    UIntOfBigEndian(l.code, 4);
    UIntOfBigEndian(l.space, 4);
    UIntOfBigEndian(l.length, 4);
    UIntOfBigEndian(l.reserved, 4);
    UIntOfBigEndian(l.offset, 8);
  }

  function PackLocators(ls: seq<Locator>): (parts: seq<Bytes>)
    requires |ls| == PARENT_LOCATOR_ENTRIES && forall i :: 0 <= i < PARENT_LOCATOR_ENTRIES ==> LocatorInRange(ls[i])
    ensures HaveSizes(parts, LOCATORS)
  {
    seq(PARENT_LOCATOR_ENTRIES, i requires 0 <= i < PARENT_LOCATOR_ENTRIES => PackLocator(ls[i]))
  }

  lemma LocatorsTotal()
    ensures Total(LOCATORS) == 192
  {
    TotalOf(LOCATORS);
  }

  function HeaderParts(h: Header): (parts: seq<Bytes>)
    requires HeaderFits(h)
    ensures HaveSizes(parts, HEADER_FIELDS)
  {
    Widths();
    LocatorsTotal();
    SplitConcat(PackLocators(h.locators), LOCATORS);
    [h.cookie, h.dataOffset, BigEndian(h.tableOffset, 8), BigEndian(h.headerVersion, 4),
      BigEndian(h.maxTableEntries, 4),
     BigEndian(h.blockSize, 4), BigEndian(h.checksum, 4), h.parent, Concat(PackLocators(h.locators)), h.reserved]
  }

  function LocatorsOf(b: Bytes): (ls: seq<Locator>)
    requires |b| == 192
    ensures |ls| == PARENT_LOCATOR_ENTRIES
  {
    LocatorsTotal();
    var q := Split(b, LOCATORS);
    seq(PARENT_LOCATOR_ENTRIES, i requires 0 <= i < PARENT_LOCATOR_ENTRIES => UnpackLocator(q[i]))
  }

  function HeaderOf(p: seq<Bytes>): (h: Header)
    requires HaveSizes(p, HEADER_FIELDS)
    ensures |h.locators| == PARENT_LOCATOR_ENTRIES
  {
    Header(p[0], p[1], UInt(p[2]), UInt(p[3]), UInt(p[4]), UInt(p[5]), UInt(p[6]), p[7], LocatorsOf(p[8]), p[9])
  }

  lemma LocatorsRoundTrip(ls: seq<Locator>)
    requires |ls| == PARENT_LOCATOR_ENTRIES && forall i :: 0 <= i < PARENT_LOCATOR_ENTRIES ==> LocatorInRange(ls[i])
    ensures |Concat(PackLocators(ls))| == 192 && LocatorsOf(Concat(PackLocators(ls))) == ls
  {
    hide Split, Concat, PackLocator, UnpackLocator;
    LocatorsTotal();
    SplitConcat(PackLocators(ls), LOCATORS);
    forall i | 0 <= i < PARENT_LOCATOR_ENTRIES ensures UnpackLocator(PackLocator(ls[i])) == ls[i] {
      LocatorRoundTrip(ls[i]);
    }
  }

  lemma HeaderOfParts(h: Header)
    requires HeaderFits(h)
    ensures HeaderOf(HeaderParts(h)) == h
  {
    hide UInt, BigEndian, Pow256, LocatorsOf, PackLocators, Concat;
    Widths();
    UIntOfBigEndian(h.tableOffset, 8);
    UIntOfBigEndian(h.headerVersion, 4);
    UIntOfBigEndian(h.maxTableEntries, 4);
    UIntOfBigEndian(h.blockSize, 4);
    UIntOfBigEndian(h.checksum, 4);
    LocatorsRoundTrip(h.locators);
  }

  predicate IsPowerOfTwo(n: nat) {
    n == 1 || (n > 1 && n % 2 == 0 && IsPowerOfTwo(n / 2))
  }

  lemma MultipleHasNoRest(k: nat, n: nat)
    requires n > 0
    ensures k * n % n == 0
  {
    var q, rest := k * n / n, k * n % n;
    if q < k {
      MulBelow(q + 1, k, n);
    } else {
      MulBelow(k, q, n);
    }
  }

  lemma {:induction false} PowersDivide(f: nat, d: nat)
    requires IsPowerOfTwo(f) && IsPowerOfTwo(d) && f >= d
    ensures f % d == 0
    decreases d
  {
    if d > 1 {
      PowersDivide(f / 2, d / 2);
      var q := f / 2 / (d / 2);
      assert f / 2 == q * (d / 2);
      assert f == q * d;
      MultipleHasNoRest(q, d);
    }
  }

  lemma {:induction false} ProductIsPower(a: nat, b: nat)
    requires IsPowerOfTwo(a) && IsPowerOfTwo(b)
    ensures IsPowerOfTwo(a * b)
  {
    if a > 1 {
      ProductIsPower(a / 2, b);
      assert a * b == 2 * (a / 2 * b);
    }
  }

  /**
   `checkHeader`: among others, the quotient of the block and the sector has an integer binary
   logarithm, possibly negative, and the blocks cover the disk.
   */
  predicate CheckHeader(h: Header, f: Footer) {
    && h.cookie == HEADER_COOKIE
    && h.dataOffset == UNDEFINED
    && h.headerVersion == HEADER_VERSION
    && IsPowerOfTwo(h.blockSize)
    && h.maxTableEntries * h.blockSize >= f.currentSize
  }

  function SealedHeader(h: Header): (r: Header)
    requires HeaderFits(h)
    ensures HeaderFits(r)
  {
    h.(checksum := Checksum(HeaderParts(h), HEADER_CHECKSUM))
  }

  lemma HeaderTotal()
    ensures Total(HEADER_FIELDS) == HEADER_SIZE
  {
    TotalOf(HEADER_FIELDS);
  }

  function PackHeader(h: Header): (b: Bytes)
    requires HeaderFits(h)
    ensures |b| == HEADER_SIZE
  {
    HeaderTotal();
    SplitConcat(HeaderParts(h), HEADER_FIELDS);
    Concat(HeaderParts(h))
  }

  function ReadHeader(b: Bytes): (h: Header)
    requires |b| == HEADER_SIZE
    ensures |h.locators| == PARENT_LOCATOR_ENTRIES
  {
    HeaderTotal();
    HeaderOf(Split(b, HEADER_FIELDS))
  }

  /** `unpackHeader`. */
  function UnpackHeader(b: Bytes, f: Footer): (r: Option<Header>)
    requires |b| == HEADER_SIZE
    ensures r.Some? ==> |r.value.locators| == PARENT_LOCATOR_ENTRIES && CheckHeader(r.value, f)
  {
    HeaderTotal();
    var parts := Split(b, HEADER_FIELDS);
    var h := ReadHeader(b);
    if h.checksum == Checksum(parts, HEADER_CHECKSUM) && CheckHeader(h, f) then Some(h) else None
  }

  lemma ReadOfPackFooter(f: Footer)
    requires FooterFits(f)
    ensures ReadFooter(PackFooter(f)) == f
  {
    hide FooterOf, FooterParts, Split, Concat;
    FooterTotal();
    SplitConcat(FooterParts(f), FOOTER_FIELDS);
    FooterOfParts(f);
  }

  lemma ReadOfPackHeader(h: Header)
    requires HeaderFits(h)
    ensures ReadHeader(PackHeader(h)) == h
  {
    hide HeaderOf, HeaderParts, Split, Concat;
    HeaderTotal();
    SplitConcat(HeaderParts(h), HEADER_FIELDS);
    HeaderOfParts(h);
  }

  /** A sealed header unpacks to itself exactly when it passes the checks. */
  lemma HeaderRoundTrip(h: Header, f: Footer)
    requires HeaderFits(h)
    ensures UnpackHeader(PackHeader(SealedHeader(h)), f) == if CheckHeader(h, f) then Some(SealedHeader(h)) else None
  {
    var sealed := SealedHeader(h);
    HeaderTotal();
    SealKeepsSum(HeaderParts(h), HeaderParts(sealed), HEADER_CHECKSUM);
    SplitConcat(HeaderParts(sealed), HEADER_FIELDS);
    HeaderOfParts(sealed);
  }

  // ----- what the bytes say

  /** The first byte is the most significant one. */
  lemma {:induction false} FirstByteCounts(b: Bytes)
    requires b != []
    ensures UInt(b) == b[0] as int * Pow256(|b| - 1) + UInt(b[1..])
  {
    var init, last := b[..|b| - 1], b[|b| - 1] as int;
    if |b| > 1 {
      FirstByteCounts(init);
      assert b[1..][..|b| - 2] == init[1..];
      assert b[1..][|b| - 2] == b[|b| - 1];
      assert b[0] as int * Pow256(|b| - 2) * 256 == b[0] as int * Pow256(|b| - 1);
    } else {
      assert init == [] && b[1..] == [];
    }
  }

  lemma {:induction false} ConcatAppend(p: seq<Bytes>, q: seq<Bytes>)
    ensures Concat(p + q) == Concat(p) + Concat(q)
  {
    if p == [] {
      assert p + q == q;
    } else {
      assert (p + q)[1..] == p[1..] + q;
      ConcatAppend(p[1..], q);
    }
  }

  lemma {:induction false} SumAppend(a: Bytes, b: Bytes)
    ensures Sum(a + b) == Sum(a) + Sum(b)
  {
    if b == [] {
      assert a + b == a;
    } else {
      assert (a + b)[..|a + b| - 1] == a + b[..|b| - 1];
      SumAppend(a, b[..|b| - 1]);
    }
  }

  lemma {:induction false} SumBound(b: Bytes)
    ensures Sum(b) <= 255 * |b|
  {
    if b != [] {
      SumBound(b[..|b| - 1]);
    }
  }

  /** Where the field `k` of a structure is in its bytes. */
  lemma PartAt(parts: seq<Bytes>, sizes: seq<nat>, k: nat)
    requires HaveSizes(parts, sizes) && k < |parts|
    ensures var b, o := Concat(parts), Total(sizes[..k]);
      && o + sizes[k] <= |b| && b[o..o + sizes[k]] == parts[k]
      && b[..o] == Concat(parts[..k]) && b[o + sizes[k]..] == Concat(parts[k + 1..])
  {
    var before, after := Concat(parts[..k]), Concat(parts[k + 1..]);
    SplitConcat(parts[..k], sizes[..k]);
    assert parts == parts[..k] + ([parts[k]] + parts[k + 1..]);
    ConcatAppend(parts[..k], [parts[k]] + parts[k + 1..]);
    assert Concat([parts[k]] + parts[k + 1..]) == parts[k] + after by {
      assert ([parts[k]] + parts[k + 1..])[1..] == parts[k + 1..];
    }
    assert Concat(parts) == before + (parts[k] + after);
  }

  lemma {:induction false} ConcatSplit(b: Bytes, sizes: seq<nat>)
    requires |b| == Total(sizes)
    ensures Concat(Split(b, sizes)) == b
    decreases |sizes|
  {
    if sizes != [] {
      ConcatSplit(b[sizes[0]..], sizes[1..]);
      assert Split(b, sizes)[1..] == Split(b[sizes[0]..], sizes[1..]);
      assert b == b[..sizes[0]] + b[sizes[0]..];
    }
  }

  lemma FieldAt(b: Bytes, sizes: seq<nat>, k: nat)
    requires |b| == Total(sizes) && k < |sizes|
    ensures var o := Total(sizes[..k]); o + sizes[k] <= |b| && Split(b, sizes)[k] == b[o..o + sizes[k]]
  {
    ConcatSplit(b, sizes);
    PartAt(Split(b, sizes), sizes, k);
  }

  /** The big-endian number at `o` and the sum of all other bytes make 0xFFFFFFFF. */
  predicate SumsUp(b: Bytes, o: nat)
    requires o + 4 <= |b|
  {
    UInt(b[o..o + 4]) + Sum(b[..o]) + Sum(b[o + 4..]) == 0xffff_ffff
  }

  /** A structure of up to a kilobyte holds its checksum exactly if its bytes sum up. */
  lemma ChecksumIff(parts: seq<Bytes>, sizes: seq<nat>, k: nat)
    requires HaveSizes(parts, sizes) && k < |parts| && sizes[k] == 4 && Total(sizes) <= HEADER_SIZE
    ensures var b, o := Concat(parts), Total(sizes[..k]);
      o + 4 <= |b| && (UInt(parts[k]) == Checksum(parts, k) <==> SumsUp(b, o))
  {
    hide UInt, Sum, Concat, Total;
    PartAt(parts, sizes, k);
    SplitConcat(parts, sizes);
    var before, after := Concat(parts[..k]), Concat(parts[k + 1..]);
    ConcatAppend(parts[..k], parts[k + 1..]);
    SumAppend(before, after);
    SumBound(before);
    SumBound(after);
  }

  lemma TotalAppend(sizes: seq<nat>, n: nat)
    ensures Total(sizes + [n]) == Total(sizes) + n
  {
    if sizes == [] {
      assert sizes + [n] == [n] && [n][1..] == [];
    } else {
      assert (sizes + [n])[1..] == sizes[1..] + [n];
      TotalAppend(sizes[1..], n);
    }
  }

  lemma OffsetAfter(sizes: seq<nat>, k: nat)
    requires k < |sizes|
    ensures Total(sizes[..0]) == 0 && Total(sizes[..k + 1]) == Total(sizes[..k]) + sizes[k]
  {
    assert sizes[..k + 1] == sizes[..k] + [sizes[k]];
    TotalAppend(sizes[..k], sizes[k]);
  }

  /** The offsets of the format: the fields of the footer and of the header that are used. */
  lemma FooterOffsets()
    ensures var at := k requires 0 <= k <= |FOOTER_FIELDS| => Total(FOOTER_FIELDS[..k]);
      && at(0) == 0 && at(2) == 12 && at(3) == 16 && at(5) == 40 && at(6) == 48 && at(8) == 60
           && at(FOOTER_CHECKSUM) == 64
  {
    OffsetAfter(FOOTER_FIELDS, 0);
    OffsetAfter(FOOTER_FIELDS, 1);
    OffsetAfter(FOOTER_FIELDS, 2);
    OffsetAfter(FOOTER_FIELDS, 3);
    OffsetAfter(FOOTER_FIELDS, 4);
    OffsetAfter(FOOTER_FIELDS, 5);
    OffsetAfter(FOOTER_FIELDS, 6);
    OffsetAfter(FOOTER_FIELDS, 7);
    OffsetAfter(FOOTER_FIELDS, 8);
  }

  lemma HeaderOffsets()
    ensures var at := k requires 0 <= k <= |HEADER_FIELDS| => Total(HEADER_FIELDS[..k]);
      && at(0) == 0 && at(1) == 8 && at(2) == 16 && at(3) == 24 && at(4) == 28 && at(5) == 32
           && at(HEADER_CHECKSUM) == 36
      && at(8) == 576
  {
    OffsetAfter(HEADER_FIELDS, 0);
    OffsetAfter(HEADER_FIELDS, 1);
    OffsetAfter(HEADER_FIELDS, 2);
    OffsetAfter(HEADER_FIELDS, 3);
    OffsetAfter(HEADER_FIELDS, 4);
    OffsetAfter(HEADER_FIELDS, 5);
    OffsetAfter(HEADER_FIELDS, 6);
    OffsetAfter(HEADER_FIELDS, 7);
  }

  /** The constants of the format. */
  lemma ConstantsAre()
    ensures |FOOTER_COOKIE| == |HEADER_COOKIE| == 8
    ensures forall i :: 0 <= i < 8 ==> FOOTER_COOKIE[i] == "conectix"[i] as int
    ensures forall i :: 0 <= i < 8 ==> HEADER_COOKIE[i] == "cxsparse"[i] as int
    ensures BLOCK_UNUSED < Pow256(4) && BigEndian(BLOCK_UNUSED, 4) == [0xFF, 0xFF, 0xFF, 0xFF]
    ensures UNDEFINED == [0xFF, 0xFF, 0xFF, 0xFF, 0xFF, 0xFF, 0xFF, 0xFF]
  {
    Widths();
    assert BigEndian(0xff, 1) == [0xFF];
    assert BigEndian(0xffff, 2) == BigEndian(0xff, 1) + [0xFF];
    assert BigEndian(0xff_ffff, 3) == BigEndian(0xffff, 2) + [0xFF];
  }

  /** Where the fields of a footer are. */
  lemma FooterBytes(b: Bytes)
    requires |b| == FOOTER_SIZE
    ensures var f := ReadFooter(b);
      && f.cookie == b[..8] && f.fileFormatVersion == UInt(b[12..16]) && f.dataOffset == UInt(b[16..24])
      && f.originalSize == UInt(b[40..48]) && f.currentSize == UInt(b[48..56])
      && f.diskType == UInt(b[60..64]) && f.checksum == UInt(b[64..68])
  {
    hide UInt, Split, Total;
    FooterTotal();
    FooterOffsets();
    FieldAt(b, FOOTER_FIELDS, 0);
    FieldAt(b, FOOTER_FIELDS, 2);
    FieldAt(b, FOOTER_FIELDS, 3);
    FieldAt(b, FOOTER_FIELDS, 5);
    FieldAt(b, FOOTER_FIELDS, 6);
    FieldAt(b, FOOTER_FIELDS, 8);
    FieldAt(b, FOOTER_FIELDS, 9);
    assert b[0..8] == b[..8];
  }

  /** What the bytes of a footer have to say to be accepted. */
  predicate FooterAccepted(b: Bytes)
    requires |b| == FOOTER_SIZE
  {
    && SumsUp(b, 64)
    && b[..8] == FOOTER_COOKIE && UInt(b[12..16]) == 0x1_0000 && UInt(b[16..24]) == 512
    && UInt(b[40..48]) <= UInt(b[48..56]) && (UInt(b[60..64]) == 3 || UInt(b[60..64]) == 4)
  }

  lemma UnpackFooterIff(b: Bytes)
    requires |b| == FOOTER_SIZE
    ensures UnpackFooter(b) == if FooterAccepted(b) then Some(ReadFooter(b)) else None
  {
    hide UInt, Split, Total, Checksum, ReadFooter;
    FooterTotal();
    FooterBytes(b);
    FooterOffsets();
    ConcatSplit(b, FOOTER_FIELDS);
    FieldAt(b, FOOTER_FIELDS, FOOTER_CHECKSUM);
    ChecksumIff(Split(b, FOOTER_FIELDS), FOOTER_FIELDS, FOOTER_CHECKSUM);
  }

  /** The bytes of a sealed footer sum up. */
  lemma SealedFooterSumsUp(f: Footer)
    requires FooterFits(f)
    ensures SumsUp(PackFooter(SealedFooter(f)), 64)
  {
    hide UInt, Total, BigEndian, Pow256, Checksum, FooterFits, SumsUp, FooterParts;
    var parts := FooterParts(SealedFooter(f));
    FooterTotal();
    FooterOffsets();
    FooterChecksumPart(f);
    ChecksumIff(parts, FOOTER_FIELDS, FOOTER_CHECKSUM);
  }

  lemma FooterChecksumPart(f: Footer)
    requires FooterFits(f)
    ensures UInt(FooterParts(SealedFooter(f))[FOOTER_CHECKSUM])
      == Checksum(FooterParts(SealedFooter(f)), FOOTER_CHECKSUM)
  {
    hide UInt, BigEndian, Pow256;
    Widths();
    UIntOfBigEndian(Checksum(FooterParts(f), FOOTER_CHECKSUM), 4);
    SealKeepsSum(FooterParts(f), FooterParts(SealedFooter(f)), FOOTER_CHECKSUM);
  }

  /** Where the fields of a header are. */
  lemma HeaderBytes(b: Bytes)
    requires |b| == HEADER_SIZE
    ensures var h := ReadHeader(b);
      && h.cookie == b[..8] && h.dataOffset == b[8..16] && h.tableOffset == UInt(b[16..24])
      && h.headerVersion == UInt(b[24..28]) && h.maxTableEntries == UInt(b[28..32]) && h.blockSize == UInt(b[32..36])
      && h.checksum == UInt(b[36..40]) && h.locators == LocatorsOf(b[576..768])
  {
    hide UInt, Split, Total, LocatorsOf;
    HeaderTotal();
    HeaderOffsets();
    FieldAt(b, HEADER_FIELDS, 0);
    FieldAt(b, HEADER_FIELDS, 1);
    FieldAt(b, HEADER_FIELDS, 2);
    FieldAt(b, HEADER_FIELDS, 3);
    FieldAt(b, HEADER_FIELDS, 4);
    FieldAt(b, HEADER_FIELDS, 5);
    FieldAt(b, HEADER_FIELDS, 6);
    FieldAt(b, HEADER_FIELDS, 8);
    assert b[0..8] == b[..8];
  }

  /** Where the fields of the locators are, in the 192 bytes they take. */
  lemma LocatorBytesAre(b: Bytes, i: nat)
    requires |b| == 192 && i < PARENT_LOCATOR_ENTRIES
    ensures var l, o := LocatorsOf(b)[i], 24 * i;
      l == Locator(UInt(b[o..o + 4]), UInt(b[o + 4..o + 8]), UInt(b[o + 8..o + 12]), UInt(b[o + 12..o + 16]),
                   UInt(b[o + 16..o + 24]))
  {
    hide UInt, Split, Total;
    LocatorsTotal();
    LocatorTotal();
    LocatorOffset(i);
    FieldAt(b, LOCATORS, i);
    var e := b[24 * i..24 * i + 24];
    OffsetAfter(LOCATOR_FIELDS, 0);
    OffsetAfter(LOCATOR_FIELDS, 1);
    OffsetAfter(LOCATOR_FIELDS, 2);
    OffsetAfter(LOCATOR_FIELDS, 3);
    FieldAt(e, LOCATOR_FIELDS, 0);
    FieldAt(e, LOCATOR_FIELDS, 1);
    FieldAt(e, LOCATOR_FIELDS, 2);
    FieldAt(e, LOCATOR_FIELDS, 3);
    FieldAt(e, LOCATOR_FIELDS, 4);
    SliceOfSlice(b, 24 * i, 24 * i + 24, 0, 4);
    SliceOfSlice(b, 24 * i, 24 * i + 24, 4, 4);
    SliceOfSlice(b, 24 * i, 24 * i + 24, 8, 4);
    SliceOfSlice(b, 24 * i, 24 * i + 24, 12, 4);
    SliceOfSlice(b, 24 * i, 24 * i + 24, 16, 8);
  }

  lemma {:induction false} LocatorOffset(i: nat)
    requires i <= PARENT_LOCATOR_ENTRIES
    ensures Total(LOCATORS[..i]) == 24 * i
  {
    if i > 0 {
      LocatorOffset(i - 1);
      OffsetAfter(LOCATORS, i - 1);
    }
  }

  /** What the bytes of a header have to say to be accepted for a disk of that size. */
  predicate HeaderAccepted(b: Bytes, currentSize: nat)
    requires |b| == HEADER_SIZE
  {
    && SumsUp(b, 36)
    && b[..8] == HEADER_COOKIE && b[8..16] == UNDEFINED && UInt(b[24..28]) == 0x1_0000
    && IsPowerOfTwo(UInt(b[32..36])) && currentSize <= UInt(b[28..32]) * UInt(b[32..36])
  }

  lemma UnpackHeaderIff(b: Bytes, f: Footer)
    requires |b| == HEADER_SIZE
    ensures UnpackHeader(b, f) == if HeaderAccepted(b, f.currentSize) then Some(ReadHeader(b)) else None
  {
    hide UInt, Split, Total, Checksum, ReadHeader, IsPowerOfTwo;
    HeaderTotal();
    HeaderBytes(b);
    HeaderOffsets();
    ConcatSplit(b, HEADER_FIELDS);
    FieldAt(b, HEADER_FIELDS, HEADER_CHECKSUM);
    ChecksumIff(Split(b, HEADER_FIELDS), HEADER_FIELDS, HEADER_CHECKSUM);
  }

  lemma SealedHeaderSumsUp(h: Header)
    requires HeaderFits(h)
    ensures SumsUp(PackHeader(SealedHeader(h)), 36)
  {
    hide UInt, Total, BigEndian, Pow256, Checksum, HeaderFits, SumsUp, HeaderParts;
    var parts := HeaderParts(SealedHeader(h));
    HeaderTotal();
    HeaderOffsets();
    HeaderChecksumPart(h);
    ChecksumIff(parts, HEADER_FIELDS, HEADER_CHECKSUM);
  }

  lemma HeaderChecksumPart(h: Header)
    requires HeaderFits(h)
    ensures UInt(HeaderParts(SealedHeader(h))[HEADER_CHECKSUM])
      == Checksum(HeaderParts(SealedHeader(h)), HEADER_CHECKSUM)
  {
    hide UInt, BigEndian, Pow256, PackLocators;
    Widths();
    UIntOfBigEndian(Checksum(HeaderParts(h), HEADER_CHECKSUM), 4);
    SealKeepsSum(HeaderParts(h), HeaderParts(SealedHeader(h)), HEADER_CHECKSUM);
  }

  lemma SumOfChanged(b: Bytes, i: nat, x: Byte)
    requires i < |b|
    ensures Sum(b[i := x]) - Sum(b) == x as int - b[i] as int
  {
    var before, after := b[..i], b[i + 1..];
    assert b == before + [b[i]] + after && b[i := x] == before + [x] + after;
    SumAppend(before + [b[i]], after);
    SumAppend(before + [x], after);
    SumAppend(before, [b[i]]);
    SumAppend(before, [x]);
    OneByte(x);
    OneByte(b[i]);
  }

  lemma OneByte(x: Byte)
    ensures Sum([x]) == x as int
  {
    assert [x][..0] == [];
  }

  lemma FourBytes(b: Bytes)
    requires |b| == 4
    ensures UInt(b) == b[0] as int * 0x100_0000 + b[1] as int * 0x1_0000 + b[2] as int * 0x100 + b[3] as int
  {
    var b3, b2, b1 := b[..3], b[..2], b[..1];
    assert b3[..2] == b2 && b2[..1] == b1 && b1[..0] == [];
    assert UInt(b1) == b[0] as int;
    assert UInt(b2) == UInt(b1) * 256 + b[1] as int;
    assert UInt(b3) == UInt(b2) * 256 + b[2] as int;
  }

  /** Whatever single byte is changed, what summed up does not any more. */
  lemma ChangedByteIsSeen(b: Bytes, o: nat, i: nat, x: Byte)
    requires o + 4 <= |b| && SumsUp(b, o) && i < |b| && x != b[i]
    ensures !SumsUp(b[i := x], o)
  {
    var c := b[i := x];
    if i < o {
      SumOfChanged(b[..o], i, x);
      assert c[..o] == b[..o][i := x] && c[o + 4..] == b[o + 4..] && c[o..o + 4] == b[o..o + 4];
    } else if i < o + 4 {
      FourBytes(b[o..o + 4]);
      FourBytes(c[o..o + 4]);
      assert c[..o] == b[..o] && c[o + 4..] == b[o + 4..];
      assert c[o..o + 4] == b[o..o + 4][i - o := x];
    } else {
      SumOfChanged(b[o + 4..], i - o - 4, x);
      assert c[..o] == b[..o] && c[o + 4..] == b[o + 4..][i - o - 4 := x] && c[o..o + 4] == b[o..o + 4];
    }
  }

  /** A footer or a header of which one byte has been changed is refused. */
  lemma ChangedFooterIsRefused(b: Bytes, i: nat, x: Byte)
    requires |b| == FOOTER_SIZE && UnpackFooter(b).Some? && i < |b| && x != b[i]
    ensures UnpackFooter(b[i := x]).None?
  {
    hide UnpackFooter, ReadFooter, SumsUp;
    UnpackFooterIff(b);
    UnpackFooterIff(b[i := x]);
    ChangedByteIsSeen(b, 64, i, x);
  }

  lemma ChangedHeaderIsRefused(b: Bytes, f: Footer, i: nat, x: Byte)
    requires |b| == HEADER_SIZE && UnpackHeader(b, f).Some? && i < |b| && x != b[i]
    ensures UnpackHeader(b[i := x], f).None?
  {
    hide UnpackHeader, ReadHeader, SumsUp;
    UnpackHeaderIff(b, f);
    UnpackHeaderIff(b[i := x], f);
    ChangedByteIsSeen(b, 36, i, x);
  }
}
