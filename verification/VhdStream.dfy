/**
 The stream form of a dynamic VHD: footer, header, block allocation table, parent locators,
 blocks, footer.  The table is written before the blocks, from positions computed in advance.
 */
module VhdStream {
  import opened Basics
  import opened VhdStructs

  // ----- sizes

  function SectorsRoundUpNoZero(bytes: nat): nat {
    var n := (bytes + SECTOR_SIZE - 1) / SECTOR_SIZE;
    if n == 0 then 1 else n
  }

  function BatSize(entries: nat): nat {
    SectorsRoundUpNoZero(entries * 4) * SECTOR_SIZE
  }

  /** A bitmap with one bit for each sector, rounded up to sectors, then the data. */
  function FullBlockSize(blockSize: nat): nat {
    blockSize + SECTOR_SIZE * SectorsRoundUpNoZero(blockSize / SECTOR_SIZE / 8)
  }

  lemma Sizes(entries: nat, blockSize: nat)
    ensures 4 * entries <= BatSize(entries) && BatSize(entries) % SECTOR_SIZE == 0 && BatSize(entries) > 0
    ensures FullBlockSize(blockSize) > blockSize
    ensures blockSize % SECTOR_SIZE == 0 ==> FullBlockSize(blockSize) % SECTOR_SIZE == 0
  {
  }

  /** The least number of sectors, one at least, that have room for so many bytes. */
  lemma LeastSectors(bytes: nat)
    ensures var n := SectorsRoundUpNoZero(bytes);
      1 <= n && bytes <= n * SECTOR_SIZE && (n > 1 ==> (n - 1) * SECTOR_SIZE < bytes)
  {
  }

  /** The bitmap of a block has a bit for each of its sectors, and no sector that is not needed for that. */
  lemma BitmapHasBitForEachSector(blockSize: nat)
    requires IsPowerOfTwo(blockSize) && SECTOR_SIZE <= blockSize
    ensures var sectors, bitmap := blockSize / SECTOR_SIZE, FullBlockSize(blockSize) - blockSize;
      && bitmap % SECTOR_SIZE == 0 && bitmap > 0 && sectors <= 8 * bitmap
      && (bitmap > SECTOR_SIZE ==> 8 * (bitmap - SECTOR_SIZE) < sectors)
  {
    hide FullBlockSize;
    PowerOrMultiple(blockSize);
    BitmapFits(blockSize);
  }

  lemma PowerOrMultiple(n: nat)
    requires IsPowerOfTwo(n)
    ensures n < 4096 || n % 4096 == 0
  {
    if n >= 4096 {
      assert IsPowerOfTwo(4096) by {
        assert IsPowerOfTwo(64);
        ProductIsPower(64, 64);
      }
      PowersDivide(n, 4096);
    }
  }

  lemma BitmapFits(n: nat)
    requires SECTOR_SIZE <= n && (n < 4096 || n % 4096 == 0)
    ensures var sectors, bitmap := n / SECTOR_SIZE, FullBlockSize(n) - n;
      && bitmap % SECTOR_SIZE == 0 && bitmap > 0 && sectors <= 8 * bitmap
      && (bitmap > SECTOR_SIZE ==> 8 * (bitmap - SECTOR_SIZE) < sectors)
  {
    hide SectorsRoundUpNoZero;
    var k := n / 4096;
    assert n / SECTOR_SIZE / 8 == k;
    assert if n < 4096 then k == 0 && n / SECTOR_SIZE < 8 else n / SECTOR_SIZE == 8 * k;
    LeastSectors(k);
  }

  /** A table of an accepted header has an entry for each byte of the disk. */
  lemma TableCoversDisk(h: Header, f: Footer, address: nat)
    requires CheckHeader(h, f) && address < f.currentSize
    ensures h.blockSize > 0 && address / h.blockSize < h.maxTableEntries
  {
    var q := address / h.blockSize;
    assert address == q * h.blockSize + address % h.blockSize;
    if h.maxTableEntries <= q {
      MulBelow(h.maxTableEntries, q, h.blockSize);
    }
  }

  // ----- what is streamed

  /** A disk: its blocks, each a bitmap followed by data, and the data of its parent locators. */
  datatype Vhd = Vhd(footer: Footer, header: Header, blocks: map<nat, Bytes>, locatorData: seq<Bytes>)

  ghost predicate ValidVhd(v: Vhd) {
    && FooterFits(v.footer) && CheckFooter(v.footer)
    && HeaderFits(v.header) && CheckHeader(v.header, v.footer) && v.header.blockSize % SECTOR_SIZE == 0
    && |v.locatorData| == PARENT_LOCATOR_ENTRIES
    && (forall i :: 0 <= i < PARENT_LOCATOR_ENTRIES ==> LocatorFits(v, i))
    && BlocksAreFull(v)
    && BlocksEnd(v) / SECTOR_SIZE <= BLOCK_UNUSED
  }

  /** The data of a locator has its length, and the space of the locator is enough for it. */
  predicate LocatorFits(v: Vhd, i: nat)
    requires i < |v.header.locators| && i < |v.locatorData|
  {
    && |v.locatorData[i]| <= v.header.locators[i].space * SECTOR_SIZE
    && (v.header.locators[i].space > 0 ==> |v.locatorData[i]| == v.header.locators[i].length)
  }

  ghost predicate LocatorsFit(v: Vhd, k: nat) {
    && k <= |v.header.locators| && k <= |v.locatorData|
    && forall i :: 0 <= i < k ==> LocatorFits(v, i)
  }

  ghost predicate BlocksAreFull(v: Vhd) {
    forall i :: i in v.blocks ==> |v.blocks[i]| == FullBlockSize(v.header.blockSize)
  }

  function Zeros(n: nat): Bytes {
    seq(n, _ => 0)
  }

  function Padded(data: Bytes, size: nat): Bytes
    requires |data| <= size
  {
    data + Zeros(size - |data|)
  }

  /** The sectors of the first `k` locators. */
  function LocatorBytes(v: Vhd, k: nat): Bytes
    requires LocatorsFit(v, k)
  {
    if k == 0 then []
    else
      assert LocatorFits(v, k - 1);
      LocatorBytes(v, k - 1) + Padded(v.locatorData[k - 1], v.header.locators[k - 1].space * SECTOR_SIZE)
  }

  /** The size of the first `k` locators. */
  function LocatorsSize(locators: seq<Locator>, k: nat): nat
    requires k <= |locators|
  {
    if k == 0 then 0 else LocatorsSize(locators, k - 1) + locators[k - 1].space * SECTOR_SIZE
  }

  /** Where the first `k` locators end. */
  function LocatorsEnd(v: Vhd, k: nat): nat
    requires k <= |v.header.locators|
  {
    FOOTER_SIZE + HEADER_SIZE + BatSize(v.header.maxTableEntries) + LocatorsSize(v.header.locators, k)
  }

  function BlocksStart(v: Vhd): nat {
    LocatorsEnd(v, |v.header.locators|)
  }

  /** The blocks whose number is below `k`, in order. */
  function BlockBytes(v: Vhd, k: nat): Bytes {
    if k == 0 then []
    else BlockBytes(v, k - 1) + if k - 1 in v.blocks then v.blocks[k - 1] else []
  }

  function BlocksEnd(v: Vhd): nat {
    BlocksStart(v) + |BlockBytes(v, v.header.maxTableEntries)|
  }

  /** The sector where a block will be found. */
  function BatEntry(v: Vhd, i: nat): nat {
    if i in v.blocks then (BlocksStart(v) + |BlockBytes(v, i)|) / SECTOR_SIZE else BLOCK_UNUSED
  }

  ghost predicate EntriesFit(v: Vhd) {
    forall i :: 0 <= i < v.header.maxTableEntries ==> BatEntry(v, i) <= BLOCK_UNUSED
  }

  function BatBytes(v: Vhd, k: nat): (b: Bytes)
    requires k <= v.header.maxTableEntries && EntriesFit(v)
    ensures |b| == 4 * k
  {
    Widths();
    if k == 0 then [] else BatBytes(v, k - 1) + BigEndian(BatEntry(v, k - 1), 4)
  }

  /** The header as streamed: the table follows it, the locators follow the table. */
  function StreamedLocators(v: Vhd, k: nat): seq<Locator>
    requires k <= |v.header.locators|
  {
    seq(k, i requires 0 <= i < k => v.header.locators[i].(offset := LocatorsEnd(v, i)))
  }

  function StreamedHeader(v: Vhd): Header {
    v.header.(tableOffset := FOOTER_SIZE + HEADER_SIZE, locators := StreamedLocators(v, |v.header.locators|))
  }

  ghost predicate Streamable(v: Vhd, pad: Bytes) {
    ValidVhd(v) && EntriesFit(v) && HeaderFits(StreamedHeader(v))
      && |pad| == BatSize(v.header.maxTableEntries) - 4 * v.header.maxTableEntries
  }

  /** The whole stream; the bytes of the table after its last entry are whatever they are. */
  ghost function Image(v: Vhd, pad: Bytes): Bytes
    requires Streamable(v, pad)
  {
    PackFooter(SealedFooter(v.footer)) + PackHeader(SealedHeader(StreamedHeader(v)))
      + (BatBytes(v, v.header.maxTableEntries) + pad)
      + LocatorBytes(v, PARENT_LOCATOR_ENTRIES) + BlockBytes(v, v.header.maxTableEntries)
        + PackFooter(SealedFooter(v.footer))
  }

  lemma {:induction false} LocatorBytesLength(v: Vhd, k: nat)
    requires LocatorsFit(v, k)
    ensures |LocatorBytes(v, k)| == LocatorsSize(v.header.locators, k)
    ensures LocatorsSize(v.header.locators, k) % SECTOR_SIZE == 0
  {
    if k > 0 {
      LocatorBytesLength(v, k - 1);
      assert LocatorFits(v, k - 1);
      SumIsAligned(LocatorsSize(v.header.locators, k - 1), v.header.locators[k - 1].space);
    }
  }

  lemma SumIsAligned(n: nat, sectors: nat)
    requires n % SECTOR_SIZE == 0
    ensures (n + sectors * SECTOR_SIZE) % SECTOR_SIZE == 0
  {
  }

  lemma {:induction false} LocatorBytesPrefix(v: Vhd, i: nat, k: nat)
    requires i <= k && LocatorsFit(v, k)
    ensures LocatorBytes(v, i) <= LocatorBytes(v, k)
    decreases k
  {
    if i < k {
      LocatorBytesPrefix(v, i, k - 1);
    }
  }

  lemma {:induction false} BlockBytesPrefix(v: Vhd, i: nat, k: nat)
    requires i <= k
    ensures BlockBytes(v, i) <= BlockBytes(v, k)
    decreases k
  {
    if i < k {
      BlockBytesPrefix(v, i, k - 1);
    }
  }

  /** The blocks take whole sectors. */
  lemma {:induction false} BlockBytesAligned(v: Vhd, k: nat)
    requires v.header.blockSize % SECTOR_SIZE == 0
    requires BlocksAreFull(v)
    ensures |BlockBytes(v, k)| % SECTOR_SIZE == 0
  {
    if k > 0 {
      BlockBytesAligned(v, k - 1);
      Sizes(0, v.header.blockSize);
    }
  }

  lemma ValidFacts(v: Vhd)
    requires ValidVhd(v)
    ensures v.header.blockSize % SECTOR_SIZE == 0 && BlocksAreFull(v)
    ensures |v.header.locators| == PARENT_LOCATOR_ENTRIES && LocatorsFit(v, PARENT_LOCATOR_ENTRIES)
    ensures BlocksEnd(v) / SECTOR_SIZE <= BLOCK_UNUSED
  {
    hide IsPowerOfTwo, BlocksEnd;
  }

  lemma BlocksStartAligned(v: Vhd)
    requires ValidVhd(v)
    ensures BlocksStart(v) % SECTOR_SIZE == 0
  {
    hide ValidVhd, LocatorsFit, LocatorBytes, LocatorsSize, BlocksStart, BatSize;
    ValidFacts(v);
    BlocksStartIs(v);
    Sizes(v.header.maxTableEntries, 0);
    LocatorBytesLength(v, PARENT_LOCATOR_ENTRIES);
  }

  lemma OneMoreBlockLength(v: Vhd, i: nat)
    requires BlocksAreFull(v) && i in v.blocks
    ensures |BlockBytes(v, i + 1)| == |BlockBytes(v, i)| + FullBlockSize(v.header.blockSize)
  {
  }

  /** The sectors of the table are the positions of the blocks, and none of them reads as unused. */
  lemma BatEntryIs(v: Vhd, i: nat)
    requires ValidVhd(v) && i < v.header.maxTableEntries
    ensures BatEntry(v, i) <= BLOCK_UNUSED
    ensures i in v.blocks <==> BatEntry(v, i) != BLOCK_UNUSED
    ensures i in v.blocks ==> BatEntry(v, i) * SECTOR_SIZE == BlocksStart(v) + |BlockBytes(v, i)|
  {
    hide ValidVhd, LocatorsFit, BlocksStart, FullBlockSize, BlockBytes;
    ValidFacts(v);
    BlocksStartAligned(v);
    BlockBytesAligned(v, i);
    if i in v.blocks {
      BlockBytesPrefix(v, i + 1, v.header.maxTableEntries);
      Sizes(0, v.header.blockSize);
      OneMoreBlockLength(v, i);
      SectorBelow(BlocksStart(v) + |BlockBytes(v, i)|, FullBlockSize(v.header.blockSize), BlocksEnd(v));
    }
  }

  lemma SectorBelow(pos: nat, full: nat, end: nat)
    requires pos % SECTOR_SIZE == 0 && full % SECTOR_SIZE == 0 && full > 0 && pos + full <= end
    ensures pos / SECTOR_SIZE < end / SECTOR_SIZE && pos / SECTOR_SIZE * SECTOR_SIZE == pos
  {
  }

  lemma {:induction false} LocatorsEndBound(v: Vhd, k: nat)
    requires HeaderFits(v.header) && k <= |v.header.locators|
    ensures LocatorsEnd(v, k) <= 0x8_0000_0000 + k * 0x400_0000_0000
  {
    if k > 0 {
      LocatorsEndBound(v, k - 1);
      assert LocatorInRange(v.header.locators[k - 1]);
    }
  }

  lemma EntriesDoFit(v: Vhd)
    requires ValidVhd(v)
    ensures EntriesFit(v) && HeaderFits(StreamedHeader(v))
  {
    forall i | 0 <= i < PARENT_LOCATOR_ENTRIES ensures LocatorInRange(StreamedHeader(v).locators[i]) {
      LocatorsEndBound(v, i);
    }
    forall i | 0 <= i < v.header.maxTableEntries ensures BatEntry(v, i) <= BLOCK_UNUSED {
      BatEntryIs(v, i);
    }
  }

  lemma StreamableFacts(v: Vhd, pad: Bytes)
    requires Streamable(v, pad)
    ensures ValidVhd(v) && EntriesFit(v) && HeaderFits(StreamedHeader(v))
    ensures |pad| == BatSize(v.header.maxTableEntries) - 4 * v.header.maxTableEntries
  {
  }

  lemma BlocksStartIs(v: Vhd)
    requires |v.header.locators| == PARENT_LOCATOR_ENTRIES
    ensures BlocksStart(v)
      == FOOTER_SIZE + HEADER_SIZE + BatSize(v.header.maxTableEntries)
        + LocatorsSize(v.header.locators, PARENT_LOCATOR_ENTRIES)
  {
  }

  lemma ImageSum(v: Vhd, pad: Bytes)
    requires Streamable(v, pad) && EntriesFit(v) && LocatorsFit(v, PARENT_LOCATOR_ENTRIES)
    ensures |Image(v, pad)| == FOOTER_SIZE + HEADER_SIZE + 4 * v.header.maxTableEntries + |pad|
      + |LocatorBytes(v, PARENT_LOCATOR_ENTRIES)| + |BlockBytes(v, v.header.maxTableEntries)| + FOOTER_SIZE
  {
    hide ValidVhd, EntriesFit, LocatorsFit, PackFooter, PackHeader, SealedFooter, SealedHeader, BatBytes,
      LocatorBytes, BlockBytes;
  }

  /** The parts of the stream begin where the header and the table say. */
  lemma ImageLength(v: Vhd, pad: Bytes)
    requires Streamable(v, pad)
    ensures |Image(v, pad)| == BlocksStart(v) + |BlockBytes(v, v.header.maxTableEntries)| + FOOTER_SIZE
    ensures |Image(v, pad)| % SECTOR_SIZE == 0
  {
    hide ValidVhd, EntriesFit, HeaderFits, StreamedHeader, LocatorsFit, LocatorBytes, LocatorsSize, BlocksStart,
      LocatorsEnd, BatSize, BatBytes, BlockBytes, Image, Streamable, BlocksAreFull, BlocksEnd;
    StreamableFacts(v, pad);
    ValidFacts(v);
    LocatorBytesLength(v, PARENT_LOCATOR_ENTRIES);
    BlocksStartAligned(v);
    BlocksStartIs(v);
    BlockBytesAligned(v, v.header.maxTableEntries);
    ImageSum(v, pad);
  }

  /** `streamSize`. */
  method StreamSize(v: Vhd, ghost pad: Bytes) returns (fileSize: nat)
    requires Streamable(v, pad)
    ensures fileSize == |Image(v, pad)|
  {
    ImageLength(v, pad);
    fileSize := FOOTER_SIZE + HEADER_SIZE + BatSize(v.header.maxTableEntries) + FOOTER_SIZE;
    for i := 0 to PARENT_LOCATOR_ENTRIES
      invariant fileSize == LocatorsEnd(v, i) + FOOTER_SIZE
    {
      fileSize := fileSize + v.header.locators[i].space * SECTOR_SIZE;
    }
    for i := 0 to v.header.maxTableEntries
      invariant fileSize == BlocksStart(v) + |BlockBytes(v, i)| + FOOTER_SIZE
    {
      if i in v.blocks {
        fileSize := fileSize + FullBlockSize(v.header.blockSize);
      }
    }
  }

  // ----- `stream`

  lemma {:induction false} ConcatMore(parts: seq<Bytes>, b: Bytes)
    ensures Concat(parts + [b]) == Concat(parts) + b
  {
    if parts == [] {
      assert Concat([b]) == b + Concat([b][1..]);
    } else {
      assert (parts + [b])[1..] == parts[1..] + [b];
      ConcatMore(parts[1..], b);
    }
  }

  /** The locators get their places one after the other. */
  method PlaceLocators(v: Vhd) returns (locators: seq<Locator>, offset: nat)
    requires |v.header.locators| == PARENT_LOCATOR_ENTRIES
    ensures locators == StreamedLocators(v, PARENT_LOCATOR_ENTRIES) && offset == BlocksStart(v)
  {
    locators, offset := [], LocatorsEnd(v, 0);
    for i := 0 to PARENT_LOCATOR_ENTRIES
      invariant locators == StreamedLocators(v, i) && offset == LocatorsEnd(v, i)
    {
      locators := locators + [v.header.locators[i].(offset := offset)];
      offset := offset + v.header.locators[i].space * SECTOR_SIZE;
    }
  }

  method WriteUInt32BE(a: array<Byte>, n: nat, at: nat)
    requires n <= 0xffff_ffff && at + 4 <= a.Length
    modifies a
    ensures BigEndianFits(n) && a[..at + 4] == old(a[..at]) + BigEndian(n, 4)
  {
    BigEndianFits'(n);
    var b := BigEndian(n, 4);
    a[at], a[at + 1], a[at + 2], a[at + 3] := b[0], b[1], b[2], b[3];
    assert a[..at] == old(a[..at]);
    assert a[at..at + 4] == b;
  }

  predicate BigEndianFits(n: nat) {
    n < Pow256(4)
  }

  lemma BigEndianFits'(n: nat)
    requires n <= 0xffff_ffff
    ensures BigEndianFits(n)
  {
    Widths();
  }

  /** The table and the announced length, computed before anything is sent; the end of the table is not set. */
  method ComputeBat(v: Vhd, offset: nat) returns (bat: array<Byte>, fileSize: nat)
    requires ValidVhd(v) && offset == BlocksStart(v)
    ensures fresh(bat) && bat.Length == BatSize(v.header.maxTableEntries) && 4 * v.header.maxTableEntries <= bat.Length
    ensures EntriesFit(v) && bat[..4 * v.header.maxTableEntries] == BatBytes(v, v.header.maxTableEntries)
    ensures fileSize == BlocksEnd(v) + FOOTER_SIZE
  {
    hide BatSize, FullBlockSize, BlocksStart, ValidVhd, LocatorsFit, BigEndian, HeaderFits, StreamedHeader;
    var n := v.header.maxTableEntries;
    var full := FullBlockSize(v.header.blockSize);
    EntriesDoFit(v);
    Sizes(n, v.header.blockSize);
    BlocksStartAligned(v);
    bat := new Byte[BatSize(n)];
    var offsetSector := offset / SECTOR_SIZE;
    fileSize := offsetSector * SECTOR_SIZE + FOOTER_SIZE;
    ValidFacts(v);
    for i := 0 to n
      invariant bat[..4 * i] == BatBytes(v, i)
      invariant offsetSector * SECTOR_SIZE == BlocksStart(v) + |BlockBytes(v, i)|
      invariant fileSize == BlocksStart(v) + |BlockBytes(v, i)| + FOOTER_SIZE
    {
      BatEntryIs(v, i);
      if i in v.blocks {
        WriteUInt32BE(bat, offsetSector, i * 4);
        offsetSector := offsetSector + full / SECTOR_SIZE;
        fileSize := fileSize + full;
      } else {
        WriteUInt32BE(bat, BLOCK_UNUSED, i * 4);
      }
    }
  }

  /** Reading an entry of the table back. */
  lemma {:induction false} BatEntryRead(v: Vhd, i: nat, k: nat)
    requires i < k <= v.header.maxTableEntries && EntriesFit(v)
    ensures UInt(BatBytes(v, k)[4 * i..4 * i + 4]) == BatEntry(v, i)
    decreases k
  {
    hide UInt, BigEndian, BatEntry;
    EntryReadBack(v, k - 1);
    if i < k - 1 {
      BatEntryRead(v, i, k - 1);
      assert BatBytes(v, k)[4 * i..4 * i + 4] == BatBytes(v, k - 1)[4 * i..4 * i + 4];
    } else {
      assert BatBytes(v, k)[4 * i..4 * i + 4] == BigEndian(BatEntry(v, i), 4);
    }
  }

  lemma EntryReadBack(v: Vhd, i: nat)
    requires i < v.header.maxTableEntries && EntriesFit(v)
    ensures BatEntry(v, i) < Pow256(4) && |BigEndian(BatEntry(v, i), 4)| == 4
    ensures UInt(BigEndian(BatEntry(v, i), 4)) == BatEntry(v, i)
  {
    hide BatEntry, UInt, BigEndian;
    Widths();
    UIntOfBigEndian(BatEntry(v, i), 4);
  }

  /** The parent locators, padded to sectors. */
  method SendLocators(v: Vhd) returns (chunks: seq<Bytes>)
    requires LocatorsFit(v, PARENT_LOCATOR_ENTRIES)
    ensures Concat(chunks) == LocatorBytes(v, PARENT_LOCATOR_ENTRIES)
  {
    chunks := [];
    for i := 0 to PARENT_LOCATOR_ENTRIES
      invariant Concat(chunks) == LocatorBytes(v, i)
    {
      assert LocatorFits(v, i);
      var space := v.header.locators[i].space * SECTOR_SIZE;
      if space > 0 {
        var buffer := Padded(v.locatorData[i], space);
        ConcatMore(chunks, buffer);
        chunks := chunks + [buffer];
      }
    }
  }

  /** The blocks that the table has a sector for. */
  method SendBlocks(v: Vhd, bat: Bytes) returns (chunks: seq<Bytes>)
    requires ValidVhd(v) && EntriesFit(v) && 4 * v.header.maxTableEntries <= |bat|
    requires bat[..4 * v.header.maxTableEntries] == BatBytes(v, v.header.maxTableEntries)
    ensures Concat(chunks) == BlockBytes(v, v.header.maxTableEntries)
  {
    hide ValidVhd, EntriesFit, UInt, BatBytes;
    var n := v.header.maxTableEntries;
    chunks := [];
    for i := 0 to n
      invariant Concat(chunks) == BlockBytes(v, i)
    {
      BatEntryIs(v, i);
      BatEntryRead(v, i, n);
      assert bat[4 * i..4 * i + 4] == BatBytes(v, n)[4 * i..4 * i + 4];
      if UInt(bat[i * 4..i * 4 + 4]) != BLOCK_UNUSED {
        ConcatMore(chunks, v.blocks[i]);
        chunks := chunks + [v.blocks[i]];
      }
    }
  }

  /** `stream`: what is sent is the image, of exactly the announced length. */
  method Stream(v: Vhd) returns (chunks: seq<Bytes>, length: nat, ghost pad: Bytes)
    requires ValidVhd(v)
    ensures Streamable(v, pad)
    ensures Concat(chunks) == Image(v, pad) && length == |Concat(chunks)|
  {
    hide PackFooter, PackHeader, SealedFooter, SealedHeader, Checksum, Concat, LocatorBytes, BlockBytes, BatBytes,
      BatSize, BlocksStart, LocatorsFit, EntriesFit, IsPowerOfTwo, BlocksAreFull;
    ValidFacts(v);
    var rawFooter := PackFooter(SealedFooter(v.footer));
    var locators, offset := PlaceLocators(v);
    EntriesDoFit(v);
    var header := v.header.(tableOffset := FOOTER_SIZE + HEADER_SIZE, locators := locators);
    var rawHeader := PackHeader(SealedHeader(header));
    var bat, fileSize := ComputeBat(v, offset);
    pad := bat[4 * v.header.maxTableEntries..];
    var parts := SendLocators(v);
    var blocks := SendBlocks(v, bat[..]);
    ImageLength(v, pad);
    assert bat[..] == BatBytes(v, v.header.maxTableEntries) + pad;
    length := fileSize;
    chunks := [rawFooter, rawHeader, bat[..]] + parts + blocks + [rawFooter];
    ImageOf(rawFooter, rawHeader, bat[..], parts, blocks);
  }

  lemma ImageOf(footer: Bytes, header: Bytes, bat: Bytes, locators: seq<Bytes>, blocks: seq<Bytes>)
    ensures Concat([footer, header, bat] + locators + blocks + [footer])
         == footer + header + bat + Concat(locators) + Concat(blocks) + footer
  {
    ConcatMore([], footer);
    ConcatMore([footer], header);
    ConcatMore([footer, header], bat);
    assert [] + [footer] == [footer] && [footer] + [header] == [footer, header]
      && [footer, header] + [bat] == [footer, header, bat];
    ConcatAppend([footer, header, bat], locators);
    ConcatAppend([footer, header, bat] + locators, blocks);
    ConcatMore([footer, header, bat] + locators + blocks, footer);
  }
}
