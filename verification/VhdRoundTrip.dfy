/** A streamed VHD parses back to the VHD, and what the reader requires for that. */
module VhdRoundTrip {
  import opened Basics
  import opened VhdStructs
  import opened VhdStream
  import opened VhdParser

  // ----- parts laid out one after the other

  function EndOf(pos: nat, index: seq<Entry>): nat {
    if index == [] then pos else index[|index| - 1].offset + index[|index| - 1].size
  }

  /** Every part can be read in turn. */
  predicate Laid(input: Bytes, pos: nat, index: seq<Entry>)
    decreases |index|
  {
    index == [] || (Readable(input, pos, index[0].offset, index[0].size)
                    && Laid(input, index[0].offset + index[0].size, index[1..]))
  }

  lemma {:induction false} LaidMore(input: Bytes, pos: nat, index: seq<Entry>, e: Entry)
    ensures Laid(input, pos, index + [e])
       <==> Laid(input, pos, index) && Readable(input, EndOf(pos, index), e.offset, e.size)
    decreases |index|
  {
    if index == [] {
      assert [e][1..] == [];
    } else {
      assert (index + [e])[1..] == index[1..] + [e];
      LaidMore(input, index[0].offset + index[0].size, index[1..], e);
    }
  }

  function ItemAt(h: Header, input: Bytes, e: Entry): Item {
    if e.offset + e.size <= |input| then ItemOf(h, e.part, input[e.offset..e.offset + e.size], true)
      else ItemOf(h, e.part, [], true)
  }

  function ItemsAt(h: Header, input: Bytes, index: seq<Entry>): seq<Item> {
    seq(|index|, i requires 0 <= i < |index| => ItemAt(h, input, index[i]))
  }

  /** After the table, the walk succeeds exactly when the parts can be read in turn and the footer ends the stream. */
  lemma {:induction false} WalkIsItems(h: Header, input: Bytes, pos: nat, index: seq<Entry>)
    ensures Walk(h, input, pos, index, true).ok <==> Laid(input, pos, index) && EndsWithFooter(input, EndOf(pos, index))
    ensures Laid(input, pos, index) ==> Walk(h, input, pos, index, true).items == ItemsAt(h, input, index)
    decreases |index|
  {
    hide EndsWithFooter, ItemOf;
    if index != [] {
      var e := index[0];
      if Readable(input, pos, e.offset, e.size) {
        WalkIsItems(h, input, e.offset + e.size, index[1..]);
        assert ItemsAt(h, input, index) == [ItemAt(h, input, e)] + ItemsAt(h, input, index[1..]);
      }
    }
  }

  // ----- the parts of a streamed VHD

  /** The locators that take space, in order. */
  function Locs(v: Vhd, k: nat): seq<Entry>
    requires k <= |v.header.locators|
  {
    LocatorEntries(StreamedHeader(v).locators, k)
  }

  function Blks(v: Vhd, k: nat): seq<Entry> {
    if k == 0 then []
    else
      Blks(v, k - 1) + if k - 1 !in v.blocks then []
                       else [Entry(BlockPart(k - 1), BlocksStart(v) + |BlockBytes(v, k - 1)|,
                                   FullBlockSize(v.header.blockSize))]
  }

  /** What the reader refuses: a locator with space but without data, and chunks of a gigabyte. */
  ghost predicate ChunksAreRead(v: Vhd) {
    && BatSize(v.header.maxTableEntries) < CHUNK_LIMIT
    && (forall i :: 0 <= i < |v.header.locators| && v.header.locators[i].space > 0
         ==> 0 < v.header.locators[i].length < CHUNK_LIMIT)
    && (forall i :: i in v.blocks && i < v.header.maxTableEntries ==> FullBlockSize(v.header.blockSize) < CHUNK_LIMIT)
  }

  /** A locator as it is expected: its data, and also that data cut like a block. */
  function LocatorItemOf(v: Vhd, id: nat): Item
    requires id < |v.locatorData|
  {
    LocatorItem(id, v.locatorData[id], Some(HalvesOf(v.header, v.locatorData[id])))
  }

  /** The locators as they are expected. */
  function LocatorItems(v: Vhd, k: nat): seq<Item>
    requires k <= |v.header.locators| && k <= |v.locatorData|
  {
    if k == 0 then []
    else LocatorItems(v, k - 1) + if v.header.locators[k - 1].space == 0 then []
      else [LocatorItemOf(v, k - 1)]
  }

  /** A block as it is expected: its bitmap and its data. */
  function BlockItemOf(v: Vhd, id: nat): Item
    requires id in v.blocks && |v.blocks[id]| == FullBlockSize(v.header.blockSize)
  {
    var n := BitmapSize(v.header.blockSize);
    BlockItem(id, Halves(v.blocks[id][..n], v.blocks[id][n..]))
  }

  function BlockItems(v: Vhd, k: nat): seq<Item>
    requires BlocksAreFull(v)
  {
    if k == 0 then [] else BlockItems(v, k - 1) + if k - 1 in v.blocks then [BlockItemOf(v, k - 1)] else []
  }

  // ----- where the parts are in the stream

  function TableStart(): nat {
    FOOTER_SIZE + HEADER_SIZE
  }

  function TableEnd(v: Vhd): nat {
    TableStart() + BatSize(v.header.maxTableEntries)
  }

  /** `x` is at position `a` of the stream. */
  predicate Holds(input: Bytes, a: nat, x: Bytes) {
    a + |x| <= |input| && input[a..a + |x|] == x
  }

  lemma PartHolds(input: Bytes, a: nat, x: Bytes, off: nat, n: nat)
    requires Holds(input, a, x) && off + n <= |x|
    ensures Holds(input, a + off, x[off..off + n])
  {
    SliceOfSlice(input, a, a + |x|, off, n);
  }

  lemma HoldsBefore(input: Bytes, a: nat, x: Bytes, more: Bytes)
    requires Holds(input, a, x)
    ensures Holds(input + more, a, x)
  {
    assert (input + more)[a..a + |x|] == input[a..a + |x|];
  }

  lemma HoldsLast(input: Bytes, more: Bytes)
    ensures Holds(input + more, |input|, more)
  {
    assert (input + more)[|input|..|input| + |more|] == more;
  }

  lemma SixParts(a: Bytes, b: Bytes, c: Bytes, d: Bytes, e: Bytes, f: Bytes)
    ensures var all := a + b + c + d + e + f;
      && Holds(all, 0, a) && Holds(all, |a|, b) && Holds(all, |a| + |b|, c) && Holds(all, |a| + |b| + |c|, d)
      && Holds(all, |a| + |b| + |c| + |d|, e) && Holds(all, |a| + |b| + |c| + |d| + |e|, f)
      && |all| == |a| + |b| + |c| + |d| + |e| + |f|
  {
    assert Holds(a, 0, a);
    HoldsBefore(a, 0, a, b);
    HoldsLast(a, b);
    HoldsBefore(a + b, 0, a, c);
    HoldsBefore(a + b, |a|, b, c);
    HoldsLast(a + b, c);
    LastThree(a + b + c, d, e, f);
    FirstThree(a + b + c, 0, a, d, e, f);
    FirstThree(a + b + c, |a|, b, d, e, f);
    FirstThree(a + b + c, |a| + |b|, c, d, e, f);
  }

  lemma FirstThree(input: Bytes, at: nat, x: Bytes, d: Bytes, e: Bytes, f: Bytes)
    requires Holds(input, at, x)
    ensures Holds(input + d + e + f, at, x)
  {
    hide Holds;
    HoldsBefore(input, at, x, d);
    HoldsBefore(input + d, at, x, e);
    HoldsBefore(input + d + e, at, x, f);
  }

  lemma LastThree(input: Bytes, d: Bytes, e: Bytes, f: Bytes)
    ensures var all := input + d + e + f;
      Holds(all, |input|, d) && Holds(all, |input| + |d|, e) && Holds(all, |input| + |d| + |e|, f)
  {
    hide Holds;
    HoldsLast(input, d);
    HoldsBefore(input + d, |input|, d, e);
    HoldsBefore(input + d + e, |input|, d, f);
    HoldsLast(input + d, e);
    HoldsBefore(input + d + e, |input| + |d|, e, f);
    HoldsLast(input + d + e, f);
  }

  lemma ImageParts(v: Vhd, pad: Bytes)
    requires Streamable(v, pad)
    ensures var input, footer := Image(v, pad), PackFooter(SealedFooter(v.footer));
      && Holds(input, 0, footer) && Holds(input, FOOTER_SIZE, PackHeader(SealedHeader(StreamedHeader(v))))
      && Holds(input, TableStart(), BatBytes(v, v.header.maxTableEntries) + pad)
      && LocatorsFit(v, PARENT_LOCATOR_ENTRIES)
      && Holds(input, TableEnd(v), LocatorBytes(v, PARENT_LOCATOR_ENTRIES))
      && Holds(input, BlocksStart(v), BlockBytes(v, v.header.maxTableEntries))
      && Holds(input, BlocksEnd(v), footer)
      && |input| == BlocksEnd(v) + FOOTER_SIZE
      && TableEnd(v) + |LocatorBytes(v, PARENT_LOCATOR_ENTRIES)| == BlocksStart(v)
  {
    hide ValidVhd, Holds, LocatorBytes, BlockBytes, BatBytes, LocatorsSize, BatSize, SealedFooter, PackFooter,
      SealedHeader, PackHeader, StreamedHeader, LocatorsFit, EntriesFit, HeaderFits, FooterFits;
    StreamableFacts(v, pad);
    ValidFacts(v);
    LocatorBytesLength(v, PARENT_LOCATOR_ENTRIES);
    SixParts(PackFooter(SealedFooter(v.footer)), PackHeader(SealedHeader(StreamedHeader(v))),
             BatBytes(v, v.header.maxTableEntries) + pad, LocatorBytes(v, PARENT_LOCATOR_ENTRIES),
             BlockBytes(v, v.header.maxTableEntries), PackFooter(SealedFooter(v.footer)));
  }

  lemma PartOf(all: Bytes, before: Bytes, x: Bytes, after: Bytes)
    requires before + (x + after) <= all
    ensures all[|before|..|before| + |x|] == x
  {
    var part := before + (x + after);
    assert all[..|part|] == part;
    assert all[|before|..|before| + |x|] == part[|before|..|before| + |x|];
  }

  function Filled(data: Bytes, space: nat): (b: Bytes)
    requires |data| <= space
    ensures |b| == space
  {
    data + Zeros(space - |data|)
  }

  /** A locator, filled up to its sectors, is where the header says. */
  lemma LocatorIsFilled(v: Vhd, pad: Bytes, i: nat)
    requires Streamable(v, pad) && i < PARENT_LOCATOR_ENTRIES
    ensures LocatorFits(v, i) && i < |v.header.locators| == |v.locatorData| == PARENT_LOCATOR_ENTRIES
    ensures var data, space := v.locatorData[i], v.header.locators[i].space * SECTOR_SIZE;
      && |data| <= space && Holds(Image(v, pad), LocatorsEnd(v, i), Filled(data, space))
      && LocatorsEnd(v, i) + space == LocatorsEnd(v, i + 1) <= BlocksStart(v) <= BlocksEnd(v)
  {
    hide ValidVhd, Image, Holds, BlockBytes, BatBytes, BatSize, Streamable, LocatorBytes, LocatorFits, Zeros,
      LocatorsSize, LocatorsEnd, BlocksStart, BlocksEnd;
    StreamableFacts(v, pad);
    ValidFacts(v);
    LocatorCount(v);
    ImageParts(v, pad);
    LocatorBytesLength(v, i);
    LocatorBytesPrefix(v, i + 1, PARENT_LOCATOR_ENTRIES);
    OneLocator(v, i);
    LocatorsEndsInOrder(v, i);
    var space := v.header.locators[i].space * SECTOR_SIZE;
    var all, x := LocatorBytes(v, PARENT_LOCATOR_ENTRIES), Filled(v.locatorData[i], space);
    assert x + [] == x;
    PartOf(all, LocatorBytes(v, i), x, []);
    PartHolds(Image(v, pad), TableEnd(v), all, |LocatorBytes(v, i)|, space);
  }

  lemma LocatorCount(v: Vhd)
    requires ValidVhd(v)
    ensures |v.locatorData| == PARENT_LOCATOR_ENTRIES
  {
    hide IsPowerOfTwo;
  }

  /** The data of a locator is where the header says. */
  lemma LocatorIsThere(v: Vhd, pad: Bytes, i: nat)
    requires Streamable(v, pad) && i < PARENT_LOCATOR_ENTRIES
    ensures LocatorFits(v, i) && Holds(Image(v, pad), LocatorsEnd(v, i), v.locatorData[i])
    ensures LocatorsEnd(v, i) + |v.locatorData[i]| <= LocatorsEnd(v, i + 1) <= BlocksStart(v) <= BlocksEnd(v)
  {
    hide ValidVhd, Image, Holds, Streamable, LocatorFits, Zeros, LocatorsEnd, BlocksStart, BlocksEnd;
    LocatorIsFilled(v, pad, i);
    var data, space := v.locatorData[i], v.header.locators[i].space * SECTOR_SIZE;
    assert Filled(data, space)[0..|data|] == data;
    PartHolds(Image(v, pad), LocatorsEnd(v, i), Filled(data, space), 0, |data|);
  }

  lemma OneLocator(v: Vhd, i: nat)
    requires LocatorsFit(v, i + 1)
    ensures LocatorFits(v, i) && |v.locatorData[i]| <= v.header.locators[i].space * SECTOR_SIZE
    ensures LocatorBytes(v, i + 1)
      == LocatorBytes(v, i) + (v.locatorData[i] + Zeros(v.header.locators[i].space * SECTOR_SIZE - |v.locatorData[i]|))
  {
    hide Zeros;
    assert LocatorFits(v, i);
  }

  lemma {:induction false} SizesInOrder(locators: seq<Locator>, i: nat, k: nat)
    requires i <= k <= |locators|
    ensures LocatorsSize(locators, i) <= LocatorsSize(locators, k)
  {
    if i < k {
      SizesInOrder(locators, i, k - 1);
    }
  }

  lemma LocatorsEndsInOrder(v: Vhd, i: nat)
    requires i < |v.header.locators| == PARENT_LOCATOR_ENTRIES
    ensures LocatorsEnd(v, i) == TableEnd(v) + LocatorsSize(v.header.locators, i)
    ensures LocatorsEnd(v, i) + v.header.locators[i].space * SECTOR_SIZE == LocatorsEnd(v, i + 1) <= BlocksStart(v)
      <= BlocksEnd(v)
  {
    SizesInOrder(v.header.locators, i + 1, PARENT_LOCATOR_ENTRIES);
  }

  /** A block is where the table says. */
  lemma BlockIsThere(v: Vhd, pad: Bytes, i: nat)
    requires Streamable(v, pad) && i < v.header.maxTableEntries && i in v.blocks
    ensures Holds(Image(v, pad), BlocksStart(v) + |BlockBytes(v, i)|, v.blocks[i])
    ensures |v.blocks[i]| == FullBlockSize(v.header.blockSize)
  {
    hide ValidVhd, Image, Holds, LocatorBytes, BatBytes, BatSize, Streamable, BlocksStart, FullBlockSize;
    StreamableFacts(v, pad);
    ValidFacts(v);
    ImageParts(v, pad);
    BlockBytesPrefix(v, i + 1, v.header.maxTableEntries);
    var all := BlockBytes(v, v.header.maxTableEntries);
    assert v.blocks[i] + [] == v.blocks[i];
    PartOf(all, BlockBytes(v, i), v.blocks[i], []);
    PartHolds(Image(v, pad), BlocksStart(v), all, |BlockBytes(v, i)|, |v.blocks[i]|);
  }

  // ----- the index the reader ends up with

  ghost predicate LocatorChunksAreRead(v: Vhd, k: nat)
    requires k <= |v.header.locators|
  {
    forall i :: 0 <= i < k && v.header.locators[i].space > 0 ==> 0 < v.header.locators[i].length < CHUNK_LIMIT
  }

  lemma {:induction false} LocatorsLaid(v: Vhd, pad: Bytes, k: nat)
    requires Streamable(v, pad) && k <= |v.header.locators| == |v.locatorData| == PARENT_LOCATOR_ENTRIES
    ensures Laid(Image(v, pad), TableEnd(v), Locs(v, k)) <==> LocatorChunksAreRead(v, k)
    ensures EndOf(TableEnd(v), Locs(v, k)) <= LocatorsEnd(v, k)
    ensures ItemsAt(SealedHeader(StreamedHeader(v)), Image(v, pad), Locs(v, k)) == LocatorItems(v, k)
  {
    hide Image, Streamable, Laid, EndOf, LocatorsEnd, Locs, LocatorItems, LocatorItemOf, ItemsAt, SealedHeader,
      StreamedHeader;
    if k > 0 {
      LocatorsLaid(v, pad, k - 1);
      LocatorIsThere(v, pad, k - 1);
      LocatorItemsMore(v, k);
      if v.header.locators[k - 1].space > 0 {
        OneMoreLocator(v, pad, k);
      }
    } else {
      NoLocators(v);
      NoItems(v, Image(v, pad));
      EmptyIndex(Image(v, pad), TableEnd(v));
    }
  }

  lemma LocatorItemsMore(v: Vhd, k: nat)
    requires 0 < k <= |v.header.locators| && k <= |v.locatorData|
    ensures LocatorItems(v, k)
         == LocatorItems(v, k - 1) + if v.header.locators[k - 1].space == 0 then [] else [LocatorItemOf(v, k - 1)]
    ensures v.header.locators[k - 1].space == 0
      ==> Locs(v, k) == Locs(v, k - 1) && LocatorItems(v, k) == LocatorItems(v, k - 1)
  {
  }

  lemma NoItems(v: Vhd, input: Bytes)
    ensures LocatorItems(v, 0) == [] && forall h :: ItemsAt(h, input, []) == []
  {
  }

  lemma EmptyIndex(input: Bytes, pos: nat)
    ensures Laid(input, pos, []) && EndOf(pos, []) == pos
  {
  }

  lemma NoLocators(v: Vhd)
    requires |v.header.locators| == PARENT_LOCATOR_ENTRIES
    ensures LocatorsEnd(v, 0) == TableEnd(v) && Locs(v, 0) == []
  {
  }

  lemma EndOfMore(pos: nat, index: seq<Entry>, e: Entry)
    ensures EndOf(pos, index + [e]) == e.offset + e.size
  {
  }

  lemma ItemsMore(h: Header, input: Bytes, index: seq<Entry>, e: Entry)
    ensures ItemsAt(h, input, index + [e]) == ItemsAt(h, input, index) + [ItemAt(h, input, e)]
  {
  }

  lemma ItemThere(h: Header, input: Bytes, e: Entry, x: Bytes)
    requires Holds(input, e.offset, x) && e.size == |x|
    ensures ItemAt(h, input, e) == ItemOf(h, e.part, x, true)
  {
  }

  /** One more part behind the others. */
  lemma OneMorePart(h: Header, input: Bytes, pos: nat, index: seq<Entry>, e: Entry, x: Bytes)
    requires EndOf(pos, index) <= e.offset && Holds(input, e.offset, x) && e.size == |x|
    ensures Laid(input, pos, index + [e]) <==> Laid(input, pos, index) && 0 < |x| < CHUNK_LIMIT
    ensures EndOf(pos, index + [e]) == e.offset + |x|
    ensures ItemsAt(h, input, index + [e]) == ItemsAt(h, input, index) + [ItemOf(h, e.part, x, true)]
  {
    assert e.offset + |x| <= |input|;
    LaidMore(input, pos, index, e);
    EndOfMore(pos, index, e);
    ItemsMore(h, input, index, e);
    ItemThere(h, input, e, x);
  }

  lemma LocsMore(v: Vhd, k: nat, e: Entry)
    requires 0 < k <= |v.header.locators| && v.header.locators[k - 1].space > 0
    requires e == Entry(LocatorPart(k - 1), LocatorsEnd(v, k - 1), v.header.locators[k - 1].length)
    ensures Locs(v, k) == Locs(v, k - 1) + [e]
  {
  }

  lemma OneMoreLocator(v: Vhd, pad: Bytes, k: nat)
    requires Streamable(v, pad) && 0 < k <= |v.header.locators| == |v.locatorData| == PARENT_LOCATOR_ENTRIES
    requires v.header.locators[k - 1].space > 0
    requires EndOf(TableEnd(v), Locs(v, k - 1)) <= LocatorsEnd(v, k - 1)
    ensures Laid(Image(v, pad), TableEnd(v), Locs(v, k))
       <==> Laid(Image(v, pad), TableEnd(v), Locs(v, k - 1)) && 0 < v.header.locators[k - 1].length < CHUNK_LIMIT
    ensures EndOf(TableEnd(v), Locs(v, k)) <= LocatorsEnd(v, k)
    ensures ItemsAt(SealedHeader(StreamedHeader(v)), Image(v, pad), Locs(v, k))
         == ItemsAt(SealedHeader(StreamedHeader(v)), Image(v, pad), Locs(v, k - 1))
           + [LocatorItemOf(v, k - 1)]
  {
    var h, input := SealedHeader(StreamedHeader(v)), Image(v, pad);
    var e := Entry(LocatorPart(k - 1), LocatorsEnd(v, k - 1), v.header.locators[k - 1].length);
    LocatorIsThere(v, pad, k - 1);
    LocsMore(v, k, e);
    assert e.size == |v.locatorData[k - 1]|;
    OneMorePart(h, input, TableEnd(v), Locs(v, k - 1), e, v.locatorData[k - 1]);
  }

  ghost predicate BlockChunksAreRead(v: Vhd, k: nat) {
    forall i :: i in v.blocks && i < k ==> FullBlockSize(v.header.blockSize) < CHUNK_LIMIT
  }

  function WholeIndex(v: Vhd, k: nat): seq<Entry>
    requires |v.header.locators| == PARENT_LOCATOR_ENTRIES
  {
    Locs(v, PARENT_LOCATOR_ENTRIES) + Blks(v, k)
  }

  lemma {:induction false} BlocksLaid(v: Vhd, pad: Bytes, k: nat)
    requires Streamable(v, pad) && k <= v.header.maxTableEntries
    requires |v.header.locators| == |v.locatorData| == PARENT_LOCATOR_ENTRIES && BlocksAreFull(v)
    ensures Laid(Image(v, pad), TableEnd(v), WholeIndex(v, k))
      <==> LocatorChunksAreRead(v, PARENT_LOCATOR_ENTRIES) && BlockChunksAreRead(v, k)
    ensures EndOf(TableEnd(v), WholeIndex(v, k)) <= BlocksStart(v) + |BlockBytes(v, k)|
    ensures ItemsAt(SealedHeader(StreamedHeader(v)), Image(v, pad), WholeIndex(v, k))
         == LocatorItems(v, PARENT_LOCATOR_ENTRIES) + BlockItems(v, k)
  {
    hide Image, Streamable, Laid, EndOf, BlocksStart, LocatorChunksAreRead, Locs, LocatorItems;
    if k == 0 {
      LocatorsLaid(v, pad, PARENT_LOCATOR_ENTRIES);
      assert WholeIndex(v, 0) == Locs(v, PARENT_LOCATOR_ENTRIES);
      AllLocators(v);
    } else {
      BlocksLaid(v, pad, k - 1);
      if k - 1 in v.blocks {
        OneMoreBlock(v, pad, k);
      } else {
        assert WholeIndex(v, k) == WholeIndex(v, k - 1);
      }
    }
  }

  lemma AllLocators(v: Vhd)
    requires |v.header.locators| == PARENT_LOCATOR_ENTRIES
    ensures LocatorsEnd(v, PARENT_LOCATOR_ENTRIES) == BlocksStart(v)
  {
  }

  lemma WholeIndexMore(v: Vhd, k: nat, e: Entry)
    requires 0 < k && k - 1 in v.blocks && |v.header.locators| == PARENT_LOCATOR_ENTRIES
    requires e == Entry(BlockPart(k - 1), BlocksStart(v) + |BlockBytes(v, k - 1)|, FullBlockSize(v.header.blockSize))
    ensures WholeIndex(v, k) == WholeIndex(v, k - 1) + [e]
    ensures |BlockBytes(v, k)| == |BlockBytes(v, k - 1)| + |v.blocks[k - 1]|
  {
    hide Locs, FullBlockSize, BlocksStart;
  }

  lemma OneMoreBlock(v: Vhd, pad: Bytes, k: nat)
    requires Streamable(v, pad) && 0 < k <= v.header.maxTableEntries && k - 1 in v.blocks
    requires |v.header.locators| == PARENT_LOCATOR_ENTRIES && BlocksAreFull(v)
    requires EndOf(TableEnd(v), WholeIndex(v, k - 1)) <= BlocksStart(v) + |BlockBytes(v, k - 1)|
    ensures Laid(Image(v, pad), TableEnd(v), WholeIndex(v, k))
       <==> Laid(Image(v, pad), TableEnd(v), WholeIndex(v, k - 1)) && FullBlockSize(v.header.blockSize) < CHUNK_LIMIT
    ensures EndOf(TableEnd(v), WholeIndex(v, k)) <= BlocksStart(v) + |BlockBytes(v, k)|
    ensures ItemsAt(SealedHeader(StreamedHeader(v)), Image(v, pad), WholeIndex(v, k))
         == ItemsAt(SealedHeader(StreamedHeader(v)), Image(v, pad), WholeIndex(v, k - 1)) + [BlockItemOf(v, k - 1)]
  {
    hide Image, Streamable, Laid, BlocksStart, EndOf, WholeIndex, SealedHeader, StreamedHeader, ItemsAt, BlockBytes,
      FullBlockSize, Holds, TableEnd, ValidVhd, BatBytes, LocatorsFit, BatSize, TableStart;
    StreamableFacts(v, pad);
    var h, input := SealedHeader(StreamedHeader(v)), Image(v, pad);
    var e := Entry(BlockPart(k - 1), BlocksStart(v) + |BlockBytes(v, k - 1)|, FullBlockSize(v.header.blockSize));
    SizesOfStream(v, pad);
    BlockIsThere(v, pad, k - 1);
    Sizes(0, v.header.blockSize);
    WholeIndexMore(v, k, e);
    OneMorePart(h, input, TableEnd(v), WholeIndex(v, k - 1), e, v.blocks[k - 1]);
  }

  // ----- the round trip

  lemma TableEntry(v: Vhd, pad: Bytes, i: nat)
    requires Streamable(v, pad) && i < v.header.maxTableEntries
    ensures var n := v.header.maxTableEntries;
      |BatBytes(v, n) + pad| >= 4 * n && UInt((BatBytes(v, n) + pad)[4 * i..4 * i + 4]) == BatEntry(v, i)
  {
    hide UInt, BatEntry, ValidVhd, HeaderFits, EntriesFit, BatBytes, Streamable;
    var n := v.header.maxTableEntries;
    StreamableFacts(v, pad);
    BatEntryRead(v, i, n);
    assert (BatBytes(v, n) + pad)[4 * i..4 * i + 4] == BatBytes(v, n)[4 * i..4 * i + 4];
  }

  lemma BlocksComeAfter(v: Vhd)
    ensures TableEnd(v) <= BlocksStart(v)
  {
  }

  lemma BlockEntriesMore(h: Header, bat: Bytes, k: nat, s: seq<Entry>, sector: nat)
    requires 0 < k && 4 * k <= |bat| && BlockEntries(h, bat, k - 1) == Some(s)
      && sector == UInt(bat[4 * (k - 1)..4 * (k - 1) + 4])
    requires sector == BLOCK_UNUSED || h.tableOffset + BatSize(h.maxTableEntries) <= sector * SECTOR_SIZE
    ensures BlockEntries(h, bat, k) == Some(if sector == BLOCK_UNUSED then s
                                            else s + [Entry(BlockPart(k - 1), sector * SECTOR_SIZE,
                                              FullBlockSize(h.blockSize))])
  {
    hide UInt, BatSize, FullBlockSize;
  }

  /** The table on the stream leads to the blocks, in the order of their numbers. */
  lemma {:induction false} TableLeadsToBlocks(v: Vhd, pad: Bytes, bat: Bytes, h: Header, k: nat)
    requires Streamable(v, pad) && k <= v.header.maxTableEntries && bat == BatBytes(v, v.header.maxTableEntries) + pad
    requires h.tableOffset == TableStart() && h.maxTableEntries == v.header.maxTableEntries
      && h.blockSize == v.header.blockSize
    ensures 4 * k <= |bat| && BlockEntries(h, bat, k) == Some(Blks(v, k))
  {
    hide ValidVhd, HeaderFits, Streamable, FullBlockSize, BatSize, BatEntry, UInt, EntriesFit, BatBytes, BlocksStart,
      BlockBytes;
    StreamableFacts(v, pad);
    if k == 0 {
      assert BlockEntries(h, bat, 0) == Some([]);
    } else {
      TableLeadsToBlocks(v, pad, bat, h, k - 1);
      TableEntry(v, pad, k - 1);
      BatEntryIs(v, k - 1);
      BlocksComeAfter(v);
      BlockEntriesMore(h, bat, k, Blks(v, k - 1), BatEntry(v, k - 1));
      assert Blks(v, k - 1) + [] == Blks(v, k - 1);
    }
  }

  lemma {:induction false} LocsAreSorted(v: Vhd, k: nat)
    requires k <= |v.header.locators|
    ensures Sorted(Locs(v, k))
    ensures forall i :: 0 <= i < |Locs(v, k)| ==> LocatorsEnd(v, 0) <= Locs(v, k)[i].offset <= LocatorsEnd(v, k)
  {
    if k > 0 {
      LocsAreSorted(v, k - 1);
    }
  }

  lemma {:induction false} WholeIndexIsSorted(v: Vhd, k: nat)
    requires |v.header.locators| == PARENT_LOCATOR_ENTRIES
    ensures Sorted(WholeIndex(v, k))
    ensures forall i :: 0 <= i < |WholeIndex(v, k)| ==>
      WholeIndex(v, k)[i].offset <= BlocksStart(v) + |BlockBytes(v, k)|
  {
    if k == 0 {
      LocsAreSorted(v, PARENT_LOCATOR_ENTRIES);
      assert WholeIndex(v, 0) == Locs(v, PARENT_LOCATOR_ENTRIES);
    } else {
      WholeIndexIsSorted(v, k - 1);
      if k - 1 in v.blocks {
        assert WholeIndex(v, k) == WholeIndex(v, k - 1)
          + [Entry(BlockPart(k - 1), BlocksStart(v) + |BlockBytes(v, k - 1)|, FullBlockSize(v.header.blockSize))];
      } else {
        assert WholeIndex(v, k) == WholeIndex(v, k - 1);
      }
    }
  }

  /** The index starts with the table, which comes before the locators. */
  lemma FirstIndexIs(v: Vhd)
    requires HeaderFits(StreamedHeader(v)) && |v.header.locators| == PARENT_LOCATOR_ENTRIES
    ensures FirstIndex(SealedHeader(StreamedHeader(v)))
      == [Entry(BatPart, TableStart(), BatSize(v.header.maxTableEntries))] + Locs(v, PARENT_LOCATOR_ENTRIES)
  {
    var h := SealedHeader(StreamedHeader(v));
    var l := Locs(v, PARENT_LOCATOR_ENTRIES);
    LocsAreSorted(v, PARENT_LOCATOR_ENTRIES);
    NoLocators(v);
    Sizes(v.header.maxTableEntries, 0);
    assert FirstIndex(h) == Sort(l + [BatOf(h)]);
    assert (l + [BatOf(h)])[..|l|] == l;
    SortOfSorted(l);
    InsertFirst(BatOf(h), l);
  }

  lemma EndsWell(input: Bytes, pos: nat, end: nat, footer: Bytes)
    requires |footer| == FOOTER_SIZE && Holds(input, 0, footer) && Holds(input, end, footer)
      && |input| == end + FOOTER_SIZE
    requires pos <= end
    ensures EndsWithFooter(input, pos)
  {
    assert input[0..FOOTER_SIZE] == input[..FOOTER_SIZE];
    var rest := input[pos..];
    assert rest[|rest| - SECTOR_SIZE..] == input[end..end + FOOTER_SIZE];
  }

  /** The table is read first: the blocks it names are sorted in behind the locators. */
  lemma TableIsRead(h: Header, input: Bytes, pos: nat, table: Bytes, rest: seq<Entry>, blocks: seq<Entry>)
    requires Holds(input, pos, table) && 0 < |table| && 4 * h.maxTableEntries <= |table|
    requires BlockEntries(h, table, h.maxTableEntries) == Some(blocks)
    ensures Walk(h, input, pos, [Entry(BatPart, pos, |table|)] + rest, false)
         == if |table| < CHUNK_LIMIT
           then Then([BatItem(|blocks|, table)], Walk(h, input, pos + |table|, Sort(rest + blocks), true))
            else Parsed([], false)
  {
    hide BlockEntries, Sort, EndsWithFooter;
    assert ([Entry(BatPart, pos, |table|)] + rest)[1..] == rest;
  }

  lemma SizesOfStream(v: Vhd, pad: Bytes)
    requires Streamable(v, pad)
    ensures BlocksAreFull(v) && LocatorsFit(v, PARENT_LOCATOR_ENTRIES)
    ensures |v.header.locators| == |v.locatorData| == PARENT_LOCATOR_ENTRIES
    ensures 0 < |BatBytes(v, v.header.maxTableEntries) + pad| == BatSize(v.header.maxTableEntries)
    ensures TableEnd(v) == TableStart() + BatSize(v.header.maxTableEntries)
    ensures var h := SealedHeader(StreamedHeader(v));
      h.tableOffset == TableStart() && h.maxTableEntries == v.header.maxTableEntries
        && h.blockSize == v.header.blockSize
  {
    hide ValidVhd, EntriesFit, HeaderFits, LocatorsFit, BatBytes, BatSize, StreamedLocators, Checksum;
    StreamableFacts(v, pad);
    ValidFacts(v);
    Sizes(v.header.maxTableEntries, 0);
    ValidLocators(v);
  }

  lemma ValidLocators(v: Vhd)
    requires ValidVhd(v)
    ensures |v.locatorData| == PARENT_LOCATOR_ENTRIES
  {
  }

  /** How the walk goes after the table. */
  lemma WalkBehindTable(v: Vhd, pad: Bytes)
    requires Streamable(v, pad) && |v.header.locators| == |v.locatorData| == PARENT_LOCATOR_ENTRIES && BlocksAreFull(v)
    ensures var n := v.header.maxTableEntries;
      var w := Walk(SealedHeader(StreamedHeader(v)), Image(v, pad), TableEnd(v), WholeIndex(v, n), true);
      && (w.ok <==> LocatorChunksAreRead(v, PARENT_LOCATOR_ENTRIES) && BlockChunksAreRead(v, n))
      && (w.ok ==> w.items == LocatorItems(v, PARENT_LOCATOR_ENTRIES) + BlockItems(v, n))
  {
    hide Image, Walk, Streamable, SealedHeader, StreamedHeader, WholeIndex, Laid, EndOf, EndsWithFooter, TableEnd,
      BlocksStart, BlockBytes, BlocksAreFull, LocatorChunksAreRead, BlockChunksAreRead, LocatorItems, BlockItems,
      ItemsAt, LocatorsFit, BatBytes, LocatorBytes, Holds, SealedFooter, PackFooter, PackHeader;
    var n, input := v.header.maxTableEntries, Image(v, pad);
    StreamableFacts(v, pad);
    ImageParts(v, pad);
    BlocksLaid(v, pad, n);
    WalkIsItems(SealedHeader(StreamedHeader(v)), input, TableEnd(v), WholeIndex(v, n));
    EndsWell(input, EndOf(TableEnd(v), WholeIndex(v, n)), BlocksEnd(v), PackFooter(SealedFooter(v.footer)));
  }

  /** How the walk along a streamed VHD goes. */
  lemma WalkImage(v: Vhd, pad: Bytes)
    requires Streamable(v, pad)
    ensures var h := SealedHeader(StreamedHeader(v));
      var w := Walk(h, Image(v, pad), TableStart(), FirstIndex(h), false);
      && (w.ok <==> ChunksAreRead(v))
      && (w.ok ==> w.items == Expected(v, pad))
  {
    hide Image, Walk, Streamable, SealedHeader, StreamedHeader, FirstIndex, Sort, BlockEntries, Locs, Blks, ValidVhd,
      EntriesFit, HeaderFits, Holds, BlocksAreFull, LocatorItems, BlockItems, LocatorsFit, BatBytes, BatSize,
      TableEnd, TableStart, LocatorBytes, BlockBytes, BlocksStart, BlocksEnd, FullBlockSize;
    StreamableFacts(v, pad);
    var n := v.header.maxTableEntries;
    var h, table := SealedHeader(StreamedHeader(v)), BatBytes(v, n) + pad;
    SizesOfStream(v, pad);
    ImageParts(v, pad);
    FirstIndexIs(v);
    TableLeadsToBlocks(v, pad, table, h, n);
    TableIsRead(h, Image(v, pad), TableStart(), table, Locs(v, PARENT_LOCATOR_ENTRIES), Blks(v, n));
    WholeIndexIsSorted(v, n);
    SortOfSorted(WholeIndex(v, n));
    WalkBehindTable(v, pad);
  }

  function Expected(v: Vhd, pad: Bytes): seq<Item>
    requires EntriesFit(v) && BlocksAreFull(v) && |v.header.locators| == |v.locatorData| == PARENT_LOCATOR_ENTRIES
  {
    [BatItem(|Blks(v, v.header.maxTableEntries)|, BatBytes(v, v.header.maxTableEntries) + pad)]
      + (LocatorItems(v, PARENT_LOCATOR_ENTRIES) + BlockItems(v, v.header.maxTableEntries))
  }

  /**
   A streamed VHD parses back to its footer and header, its table, the data of its locators
   and its blocks in order, and the footer at the end is found equal to the first; the reader
   refuses it exactly when one of its parts has a size that cannot be read as a chunk.
   */
  lemma StreamRoundTripIff(v: Vhd, pad: Bytes)
    requires Streamable(v, pad)
    ensures BlocksAreFull(v)
    ensures ParseStream(Image(v, pad)).ok <==> ChunksAreRead(v)
    ensures var items := [FooterItem(SealedFooter(v.footer)), HeaderItem(SealedHeader(StreamedHeader(v)))]
      + Expected(v, pad);
      ChunksAreRead(v) ==> ParseStream(Image(v, pad)).items == items
  {
    hide Image, Walk, FirstIndex, FooterOf, HeaderOf, UnpackFooter, UnpackHeader, PackFooter, PackHeader,
      ChunksAreRead, Expected, StreamedHeader, SealedHeader, SealedFooter, ValidVhd, HeaderFits, FooterFits,
      EntriesFit, Streamable, LocatorsFit, BatBytes, LocatorBytes, BlockBytes, BlocksStart, TableEnd, BlocksEnd;
    StreamableFacts(v, pad);
    SizesOfStream(v, pad);
    ImageParts(v, pad);
    WalkImage(v, pad);
    HeadersAreRead(v, pad);
    var input := Image(v, pad);
    assert input[0..FOOTER_SIZE] == input[..FOOTER_SIZE];
  }

  /** An empty disk whose first locator has a sector of space and no data. */
  function EmptySample(): Vhd {
    Vhd(Footer(FOOTER_COOKIE, 2, FILE_FORMAT_VERSION, FOOTER_SIZE, Zeros(16), 0, 0, Zeros(4), DYNAMIC, 0, Zeros(444)),
        Header(HEADER_COOKIE, UNDEFINED, 0, HEADER_VERSION, 0, SECTOR_SIZE, 0, Zeros(536),
               [Locator(0, 1, 0, 0, 0)] + UnusedLocators(7), Zeros(256)),
        map[], seq(PARENT_LOCATOR_ENTRIES, _ => []))
  }

  function UnusedLocators(n: nat): seq<Locator> {
    seq(n, _ => Locator(0, 0, 0, 0, 0))
  }

  lemma {:induction false} SampleLocators(k: nat)
    requires k <= PARENT_LOCATOR_ENTRIES
    ensures LocatorsSize(EmptySample().header.locators, k) == if k == 0 then 0 else SECTOR_SIZE
  {
    if k > 0 {
      SampleLocators(k - 1);
      assert k > 1 ==> EmptySample().header.locators[k - 1] == UnusedLocators(7)[k - 2];
    }
  }

  lemma SampleChecks()
    ensures FooterFits(EmptySample().footer) && CheckFooter(EmptySample().footer)
    ensures CheckHeader(EmptySample().header, EmptySample().footer) && EmptySample().header.blockSize == SECTOR_SIZE
  {
    assert IsPowerOfTwo(8);
    ProductIsPower(8, 8);
    ProductIsPower(64, 8);
  }

  lemma SampleFits()
    ensures HeaderFits(EmptySample().header) && HeaderFits(StreamedHeader(EmptySample()))
    ensures BlocksStart(EmptySample()) == FOOTER_SIZE + HEADER_SIZE + BatSize(0) + SECTOR_SIZE
  {
    hide LocatorsSize, BatSize;
    var v := EmptySample();
    BatSizeIsSector();
    forall k: nat | k <= PARENT_LOCATOR_ENTRIES ensures LocatorsSize(v.header.locators, k) <= SECTOR_SIZE {
      SampleLocators(k);
    }
    SampleLocators(PARENT_LOCATOR_ENTRIES);
  }

  lemma BatSizeIsSector()
    ensures BatSize(0) == SECTOR_SIZE
  {
  }

  lemma EmptySampleStreams()
    ensures Streamable(EmptySample(), VhdStream.Zeros(BatSize(0)))
    ensures BlocksStart(EmptySample()) != TableEnd(EmptySample())
  {
    hide LocatorsSize, PackLocator, BatSize, BlocksStart, FooterFits, HeaderFits, CheckFooter, CheckHeader,
      StreamedHeader;
    var v := EmptySample();
    SampleChecks();
    SampleFits();
    BatSizeIsSector();
    assert BlockBytes(v, 0) == [];
  }

  /** Its stream is refused. */
  lemma EmptyLocatorIsRefused()
    ensures var v, pad := EmptySample(), VhdStream.Zeros(BatSize(0));
      Streamable(v, pad) && !ParseStream(Image(v, pad)).ok
  {
    hide Streamable, Image, ParseStream;
    EmptySampleStreams();
    StreamRoundTripIff(EmptySample(), VhdStream.Zeros(BatSize(0)));
    assert EmptySample().header.locators[0].space == 1;
  }

  lemma HeadersAreRead(v: Vhd, pad: Bytes)
    requires Streamable(v, pad)
    ensures UnpackFooter(PackFooter(SealedFooter(v.footer))) == Some(SealedFooter(v.footer))
    ensures UnpackHeader(PackHeader(SealedHeader(StreamedHeader(v))), SealedFooter(v.footer))
      == Some(SealedHeader(StreamedHeader(v)))
  {
    FooterRoundTrip(v.footer);
    HeaderRoundTrip(StreamedHeader(v), SealedFooter(v.footer));
  }

  // ----- reading in place

  /** The block is where its entry in the bytes of the table says; without one the entry is unused. */
  predicate BlockInPlace(v: Vhd, image: Bytes, i: nat) {
    var at := 1536 + 4 * i;
    && at + 4 <= |image|
    && var entry := UInt(image[at..at + 4]);
      if i in v.blocks then entry != 0xffff_ffff && Holds(image, entry * 512, v.blocks[i]) else entry == 0xffff_ffff
  }

  /** The data of a locator is where its entry in the bytes of the header says, and zeros fill its sectors up. */
  predicate LocatorInPlace(v: Vhd, image: Bytes, k: nat)
    requires k < |v.locatorData|
  {
    var at := 512 + 576 + 24 * k;
    && at + 24 <= |image|
    && var offset, space := UInt(image[at + 16..at + 24]), UInt(image[at + 4..at + 8]) * 512;
      && Holds(image, offset, v.locatorData[k])
      && |v.locatorData[k]| <= space && offset + space <= |image|
      && forall p :: offset + |v.locatorData[k]| <= p < offset + space ==> image[p] == 0
  }

  /**
   A reader that goes from the header to the table and from the table to the blocks finds them:
   the footer at both ends, the header behind the first, and everything where their bytes say.
   */
  lemma ImageReadsInPlace(v: Vhd, pad: Bytes)
    requires Streamable(v, pad)
    ensures var image := Image(v, pad);
      && |image| >= 2048
      && image[..512] == image[|image| - 512..] == PackFooter(SealedFooter(v.footer))
      && SumsUp(image[..512], 64) && SumsUp(image[512..1536], 36)
      && UInt(image[512 + 16..512 + 24]) == 1536
      && UInt(image[512 + 28..512 + 32]) == v.header.maxTableEntries
      && UInt(image[512 + 32..512 + 36]) == v.header.blockSize
    ensures forall i: nat :: i < v.header.maxTableEntries ==> BlockInPlace(v, Image(v, pad), i)
    ensures |v.locatorData| == 8 && forall k: nat :: k < 8 ==> LocatorInPlace(v, Image(v, pad), k)
  {
    hide ValidVhd, Image, LocatorBytes, BlockBytes, BatBytes, LocatorsSize, BatSize, SealedFooter, PackFooter,
      SealedHeader, PackHeader, StreamedHeader, LocatorsFit, EntriesFit, HeaderFits, FooterFits, Streamable, SumsUp,
      UInt, BlockInPlace, LocatorInPlace, ReadHeader;
    StreamableFacts(v, pad);
    var image, h := Image(v, pad), SealedHeader(StreamedHeader(v));
    ImageParts(v, pad);
    FooterSums(v);
    SealedHeaderSumsUp(StreamedHeader(v));
    HeaderBytes(PackHeader(h));
    ReadOfPackHeader(h);
    StreamedFields(v);
    HeaderSlice(image, PackHeader(h), 16, 8);
    HeaderSlice(image, PackHeader(h), 28, 4);
    HeaderSlice(image, PackHeader(h), 32, 4);
    forall i: nat | i < v.header.maxTableEntries ensures BlockInPlace(v, image, i) {
      BlockReadsInPlace(v, pad, i);
    }
    LocatorCount(v);
    forall k: nat | k < 8 ensures LocatorInPlace(v, image, k) {
      LocatorReadsInPlace(v, pad, k);
    }
  }

  lemma FooterSums(v: Vhd)
    requires ValidVhd(v)
    ensures FooterFits(v.footer) && SumsUp(PackFooter(SealedFooter(v.footer)), 64)
  {
    hide SumsUp, IsPowerOfTwo;
    SealedFooterSumsUp(v.footer);
  }

  lemma StreamedFields(v: Vhd)
    requires HeaderFits(StreamedHeader(v))
    ensures var h := SealedHeader(StreamedHeader(v));
      && h.tableOffset == 1536 && h.maxTableEntries == v.header.maxTableEntries && h.blockSize == v.header.blockSize
      && h.locators == StreamedLocators(v, |v.header.locators|) && HeaderFits(h)
  {
    hide HeaderFits, HeaderParts, Checksum;
  }

  lemma HeaderSlice(image: Bytes, header: Bytes, off: nat, n: nat)
    requires Holds(image, FOOTER_SIZE, header) && off + n <= |header|
    ensures image[512 + off..512 + off + n] == header[off..off + n]
  {
    PartHolds(image, FOOTER_SIZE, header, off, n);
  }

  lemma BlockReadsInPlace(v: Vhd, pad: Bytes, i: nat)
    requires Streamable(v, pad) && i < v.header.maxTableEntries
    ensures BlockInPlace(v, Image(v, pad), i)
  {
    hide ValidVhd, Image, LocatorBytes, BlockBytes, BatBytes, LocatorsSize, BatSize, SealedFooter, PackFooter,
      SealedHeader, PackHeader, StreamedHeader, LocatorsFit, HeaderFits, FooterFits, Streamable, UInt, BlocksStart,
      BatEntry;
    var image, n := Image(v, pad), v.header.maxTableEntries;
    StreamableFacts(v, pad);
    ImageParts(v, pad);
    BatEntryIs(v, i);
    BatEntryRead(v, i, n);
    var table := BatBytes(v, n) + pad;
    assert table[4 * i..4 * i + 4] == BatBytes(v, n)[4 * i..4 * i + 4];
    PartHolds(image, TableStart(), table, 4 * i, 4);
    if i in v.blocks {
      BlockIsThere(v, pad, i);
    }
  }

  lemma LocatorReadsInPlace(v: Vhd, pad: Bytes, k: nat)
    requires Streamable(v, pad) && k < 8 && |v.locatorData| == 8
    ensures LocatorInPlace(v, Image(v, pad), k)
  {
    hide ValidVhd, Image, LocatorBytes, BlockBytes, BatBytes, LocatorsSize, BatSize, SealedFooter, PackFooter,
      SealedHeader, PackHeader, StreamedHeader, LocatorsFit, EntriesFit, HeaderFits, FooterFits, Streamable, UInt,
      LocatorsEnd, ReadHeader, LocatorsOf, LocatorFits;
    StreamableFacts(v, pad);
    ValidFacts(v);
    var image, h := Image(v, pad), SealedHeader(StreamedHeader(v));
    var b := PackHeader(h);
    ImageParts(v, pad);
    StreamedFields(v);
    HeaderBytes(b);
    ReadOfPackHeader(h);
    LocatorBytesAre(b[576..768], k);
    SliceOfSlice(b, 576, 768, 24 * k + 16, 8);
    SliceOfSlice(b, 576, 768, 24 * k + 4, 4);
    HeaderSlice(image, b, 576 + 24 * k + 16, 8);
    HeaderSlice(image, b, 576 + 24 * k + 4, 4);
    LocatorIsThere(v, pad, k);
    LocatorIsFilled(v, pad, k);
    HeldZeros(image, LocatorsEnd(v, k), v.locatorData[k], v.header.locators[k].space * SECTOR_SIZE);
  }

  lemma HeldZeros(image: Bytes, a: nat, data: Bytes, space: nat)
    requires |data| <= space && Holds(image, a, Filled(data, space))
    ensures a + space <= |image| && forall p :: a + |data| <= p < a + space ==> image[p] == 0
  {
    forall p | a + |data| <= p < a + space ensures image[p] == 0 {
      assert image[a..a + space][p - a] == image[p];
    }
  }
}
