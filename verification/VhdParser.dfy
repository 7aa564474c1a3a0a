/**
 Reading a VHD from a stream, in one pass: the parts are found through an index ordered by
 position, to which the block allocation table adds the blocks.
 */
module VhdParser {
  import opened Basics
  import opened VhdStructs
  import opened VhdStream

  /** `readChunk` refuses an empty chunk and one of a gigabyte. */
  const CHUNK_LIMIT: nat := 0x4000_0000

  datatype Part = LocatorPart(id: nat) | BatPart | BlockPart(id: nat)

  /** An element of the index. */
  datatype Entry = Entry(part: Part, offset: nat, size: nat)

  /** A buffer cut where the bitmap of a block would end. */
  datatype Halves = Halves(bitmap: Bytes, data: Bytes)

  /** What the parser yields; `cut`: the loop over the blocks cuts whatever it reads, locators too. */
  datatype Item =
    | FooterItem(footer: Footer)
    | HeaderItem(header: Header)
    | LocatorItem(id: nat, buffer: Bytes, cut: Option<Halves>)
    | BatItem(blockCount: nat, buffer: Bytes)
    | BlockItem(id: nat, halves: Halves)

  /** What has been yielded, and whether the parser came to the end without an error. */
  datatype Parsed = Parsed(items: seq<Item>, ok: bool)

  function Then(items: seq<Item>, p: Parsed): Parsed {
    Parsed(items + p.items, p.ok)
  }

  lemma ThenNothing(p: Parsed)
    ensures Then([], p) == p
  {
  }

  // ----- the order of the index

  ghost predicate Sorted(s: seq<Entry>) {
    forall i, j :: 0 <= i < j < |s| ==> s[i].offset <= s[j].offset
  }

  /** Behind all the entries that are not after it. */
  function Insert(x: Entry, s: seq<Entry>): (r: seq<Entry>)
    ensures |r| == |s| + 1
  {
    if s == [] || s[|s| - 1].offset <= x.offset then s + [x]
    else Insert(x, s[..|s| - 1]) + [s[|s| - 1]]
  }

  /** A stable sort by offset. */
  function Sort(s: seq<Entry>): (r: seq<Entry>)
    ensures |r| == |s|
  {
    if s == [] then [] else Insert(s[|s| - 1], Sort(s[..|s| - 1]))
  }

  lemma {:induction false} InsertSorts(x: Entry, s: seq<Entry>)
    requires Sorted(s)
    ensures Sorted(Insert(x, s)) && multiset(Insert(x, s)) == multiset(s) + multiset{x}
  {
    if !(s == [] || s[|s| - 1].offset <= x.offset) {
      var init, last := s[..|s| - 1], s[|s| - 1];
      InsertSorts(x, init);
      assert s == init + [last];
      LastStaysLast(x, init, last, Insert(x, init));
    }
  }

  lemma LastStaysLast(x: Entry, init: seq<Entry>, last: Entry, r: seq<Entry>)
    requires Sorted(init + [last]) && Sorted(r) && x.offset <= last.offset
      && multiset(r) == multiset(init) + multiset{x}
    ensures Sorted(r + [last])
  {
    forall i | 0 <= i < |r| ensures r[i].offset <= last.offset {
      assert r[i] in multiset(r);
      if r[i] != x {
        assert r[i] in multiset(init);
        var k :| 0 <= k < |init| && init[k] == r[i];
        assert (init + [last])[k] == r[i] && (init + [last])[|init|] == last;
      }
    }
  }

  /** The index is sorted and keeps its entries. */
  lemma {:induction false} SortSorts(s: seq<Entry>)
    ensures Sorted(Sort(s)) && multiset(Sort(s)) == multiset(s)
  {
    if s != [] {
      SortSorts(s[..|s| - 1]);
      InsertSorts(s[|s| - 1], Sort(s[..|s| - 1]));
      assert s == s[..|s| - 1] + [s[|s| - 1]];
    }
  }

  lemma {:induction false} SortOfSorted(s: seq<Entry>)
    requires Sorted(s)
    ensures Sort(s) == s
  {
    if s != [] {
      SortOfSorted(s[..|s| - 1]);
      assert s == s[..|s| - 1] + [s[|s| - 1]];
    }
  }

  lemma {:induction false} InsertFirst(x: Entry, s: seq<Entry>)
    requires forall i :: 0 <= i < |s| ==> x.offset < s[i].offset
    ensures Insert(x, s) == [x] + s
  {
    if s != [] {
      InsertFirst(x, s[..|s| - 1]);
      assert s == s[..|s| - 1] + [s[|s| - 1]];
    }
  }

  // ----- parsing, as a function of the whole input

  predicate Readable(input: Bytes, pos: nat, offset: nat, size: nat) {
    pos <= offset && 0 < size < CHUNK_LIMIT && offset + size <= |input|
  }

  function BitmapSize(blockSize: nat): nat {
    FullBlockSize(blockSize) - blockSize
  }

  function LocatorEntries(locators: seq<Locator>, k: nat): seq<Entry>
    requires k <= |locators|
  {
    if k == 0 then []
    else
      var l := locators[k - 1];
      LocatorEntries(locators, k - 1) + if l.space == 0 then [] else [Entry(LocatorPart(k - 1), l.offset, l.length)]
  }

  function BatOf(h: Header): Entry {
    Entry(BatPart, h.tableOffset, BatSize(h.maxTableEntries))
  }

  /** The blocks of the first `k` entries of the table; None when one of them would lie before its end. */
  function BlockEntries(h: Header, bat: Bytes, k: nat): Option<seq<Entry>>
    requires 4 * k <= |bat|
  {
    if k == 0 then Some([])
    else match BlockEntries(h, bat, k - 1)
      case None => None
      case Some(s) =>
        var sector := UInt(bat[4 * (k - 1)..4 * (k - 1) + 4]);
        if sector == BLOCK_UNUSED then Some(s)
        else if sector * SECTOR_SIZE < h.tableOffset + BatSize(h.maxTableEntries) then None
        else Some(s + [Entry(BlockPart(k - 1), sector * SECTOR_SIZE, FullBlockSize(h.blockSize))])
  }

  /** `slice` goes as far as the buffer does. */
  function HalvesOf(h: Header, buffer: Bytes): Halves {
    var n := if BitmapSize(h.blockSize) <= |buffer| then BitmapSize(h.blockSize) else |buffer|;
    Halves(buffer[..n], buffer[n..])
  }

  /** What is yielded for a part, up to the table and behind it. */
  function ItemOf(h: Header, part: Part, buffer: Bytes, batFound: bool): Item {
    match part
    case LocatorPart(id) => LocatorItem(id, buffer, if batFound then Some(HalvesOf(h, buffer)) else None)
    case BatPart => BatItem(0, buffer)
    case BlockPart(id) => BlockItem(id, HalvesOf(h, buffer))
  }

  /** The last sector of what is left, all of it when it is shorter. */
  function LastSector(b: Bytes): Bytes {
    if |b| > SECTOR_SIZE then b[|b| - SECTOR_SIZE..] else b
  }

  predicate EndsWithFooter(input: Bytes, pos: nat) {
    FOOTER_SIZE <= |input| && pos <= |input| && LastSector(input[pos..]) == input[..FOOTER_SIZE]
  }

  /** Reading the parts of the index, from position `pos` on. */
  function Walk(h: Header, input: Bytes, pos: nat, index: seq<Entry>, batFound: bool): Parsed
    decreases !batFound, |index|
  {
    if index == [] then Parsed([], batFound && EndsWithFooter(input, pos))
    else
      var e := index[0];
      if !Readable(input, pos, e.offset, e.size) then Parsed([], false)
      else
        var buffer := input[e.offset..e.offset + e.size];
        if e.part.BatPart? && !batFound then
          if |buffer| < 4 * h.maxTableEntries then Parsed([], false)
          else match BlockEntries(h, buffer, h.maxTableEntries)
            case None => Parsed([], false)
            case Some(blocks) =>
              Then([BatItem(|blocks|, buffer)], Walk(h, input, e.offset + e.size, Sort(index[1..] + blocks), true))
        else
          Then([ItemOf(h, e.part, buffer, batFound)], Walk(h, input, e.offset + e.size, index[1..], batFound))
  }

  /** One more part read, or a failure; `w` is the outcome of the whole walk. */
  lemma WalkOn(w: Parsed, items: seq<Item>, h: Header, input: Bytes, pos: nat, index: seq<Entry>, batFound: bool)
    requires w == Then(items, Walk(h, input, pos, index, batFound))
    requires index != [] && !(index[0].part.BatPart? && !batFound)
    ensures var e := index[0];
      w == if Readable(input, pos, e.offset, e.size)
           then Then(items + [ItemOf(h, e.part, input[e.offset..e.offset + e.size], batFound)],
                     Walk(h, input, e.offset + e.size, index[1..], batFound))
           else Parsed(items, false)
  {
  }

  /** The table read, or a failure. */
  lemma WalkBat(w: Parsed, items: seq<Item>, h: Header, input: Bytes, pos: nat, index: seq<Entry>)
    requires w == Then(items, Walk(h, input, pos, index, false))
    requires index != [] && index[0].part.BatPart?
    ensures var e := index[0];
      if Readable(input, pos, e.offset, e.size) && 4 * h.maxTableEntries <= e.size
         && BlockEntries(h, input[e.offset..e.offset + e.size], h.maxTableEntries).Some? then
        var buffer := input[e.offset..e.offset + e.size];
        var blocks := BlockEntries(h, buffer, h.maxTableEntries).value;
        w == Then(items + [BatItem(|blocks|, buffer)],
          Walk(h, input, e.offset + e.size, Sort(index[1..] + blocks), true))
      else w == Parsed(items, false)
  {
  }

  lemma WalkEnds(w: Parsed, items: seq<Item>, h: Header, input: Bytes, pos: nat, batFound: bool)
    requires w == Then(items, Walk(h, input, pos, [], batFound))
    ensures w == Parsed(items, batFound && EndsWithFooter(input, pos))
  {
  }

  function FirstIndex(h: Header): seq<Entry> {
    Sort(LocatorEntries(h.locators, |h.locators|) + [BatOf(h)])
  }

  function ParseStream(input: Bytes): Parsed {
    if |input| < FOOTER_SIZE then Parsed([], false)
    else match UnpackFooter(input[..FOOTER_SIZE])
      case None => Parsed([], false)
      case Some(footer) =>
        var n := FOOTER_SIZE + HEADER_SIZE;
        if |input| < n then Parsed([FooterItem(footer)], false)
        else match UnpackHeader(input[FOOTER_SIZE..n], footer)
          case None => Parsed([FooterItem(footer)], false)
          case Some(h) =>
            // the reader wants blocks of whole sectors, the checks of the header do not
            if h.blockSize % SECTOR_SIZE != 0 then Parsed([FooterItem(footer), HeaderItem(h)], false)
            else Then([FooterItem(footer), HeaderItem(h)], Walk(h, input, n, FirstIndex(h), false))
  }

  // ----- the parser

  class StreamParser {
    const input: Bytes
    var rest: Bytes          // what the stream still holds
    var bytesRead: nat
    var index: seq<Entry>
    var bufFooter: Bytes

    predicate Valid()
      reads this
    {
      bytesRead <= |input| && rest == input[bytesRead..]
    }

    constructor (stream: Bytes)
      ensures Valid() && input == stream && bytesRead == 0
    {
      input, rest, bytesRead := stream, stream, 0;
      index, bufFooter := [], [];
      new;
      assert rest == input[0..];
    }

    /** `_read`: skips to the offset and takes a chunk; None stands for an error. */
    method Read(offset: nat, size: nat) returns (r: Option<Bytes>)
      requires Valid()
      modifies this`rest, this`bytesRead
      ensures Valid()
      ensures r == if Readable(input, old(bytesRead), offset, size) then Some(input[offset..offset + size]) else None
      ensures r.Some? ==> bytesRead == offset + size
    {
      if bytesRead > offset {
        return None;
      }
      if bytesRead < offset {
        if offset - bytesRead > |rest| {
          return None;
        }
        rest := rest[offset - bytesRead..];
        bytesRead := offset;
      }
      if !(0 < size < CHUNK_LIMIT) || |rest| < size {
        return None;
      }
      assert rest == input[offset..];
      assert rest[..size] == input[offset..offset + size];
      r := Some(rest[..size]);
      rest := rest[size..];
      bytesRead := bytesRead + size;
    }

    /** The entries of the table are added to the index. */
    method AddBlocks(h: Header, buffer: Bytes) returns (ok: bool, blockCount: nat)
      requires 4 * h.maxTableEntries <= |buffer|
      modifies this`index
      ensures ok <==> BlockEntries(h, buffer, h.maxTableEntries).Some?
      ensures ok ==> var blocks := BlockEntries(h, buffer, h.maxTableEntries).value;
                blockCount == |blocks| && index == Sort(old(index) + blocks)
    {
      hide Sort, FullBlockSize, BatSize, UInt;
      blockCount := 0;
      for blockCounter := 0 to h.maxTableEntries
        invariant BlockEntries(h, buffer, blockCounter).Some?
        invariant var blocks := BlockEntries(h, buffer, blockCounter).value;
          blockCount == |blocks| && index == old(index) + blocks
      {
        var batEntrySector := UInt(buffer[blockCounter * 4..blockCounter * 4 + 4]);
        if batEntrySector != BLOCK_UNUSED {
          var batEntryBytes := batEntrySector * SECTOR_SIZE;
          if batEntryBytes < h.tableOffset + BatSize(h.maxTableEntries) {
            NoBlockEntries(h, buffer, blockCounter + 1, h.maxTableEntries);
            return false, blockCount;
          }
          index := index + [Entry(BlockPart(blockCounter), batEntryBytes, FullBlockSize(h.blockSize))];
          blockCount := blockCount + 1;
        }
      }
      index := Sort(index);
      ok := true;
    }

    /** The index before the table has been read. */
    method BuildIndex(h: Header)
      modifies this`index
      ensures index == FirstIndex(h)
    {
      index := [];
      for id := 0 to |h.locators|
        invariant index == LocatorEntries(h.locators, id)
      {
        if h.locators[id].space != 0 {
          index := index + [Entry(LocatorPart(id), h.locators[id].offset, h.locators[id].length)];
        }
      }
      index := index + [BatOf(h)];
      index := Sort(index);
    }

    /** The second part of `headers`: everything up to the table. */
    method UntilBat(h: Header) returns (items: seq<Item>, ok: bool)
      requires Valid()
      modifies this
      ensures Valid() && bufFooter == old(bufFooter)
      ensures Walk(h, input, old(bytesRead), FirstIndex(h), false)
           == if ok then Then(items, Walk(h, input, bytesRead, index, true)) else Parsed(items, false)
    {
      hide Walk, Then, Sort, BlockEntries, FirstIndex, BatSize, FullBlockSize, BitmapSize, ItemOf, Readable,
        EndsWithFooter, LocatorEntries;
      BuildIndex(h);
      items := [];
      ghost var w := Walk(h, input, bytesRead, index, false);
      ThenNothing(w);
      while index != []
        invariant Valid() && bufFooter == old(bufFooter)
        invariant w == Then(items, Walk(h, input, bytesRead, index, false))
        decreases |index|
      {
        var item := index[0];
        if item.part.BatPart? {
          WalkBat(w, items, h, input, bytesRead, index);
        } else {
          WalkOn(w, items, h, input, bytesRead, index, false);
        }
        index := index[1..];
        var buffer := Read(item.offset, item.size);
        if buffer.None? {
          return items, false;
        }
        if item.part.BatPart? {
          if |buffer.value| < 4 * h.maxTableEntries {
            return items, false;
          }
          var blockCount;
          ok, blockCount := AddBlocks(h, buffer.value);
          if ok {
            items := items + [BatItem(blockCount, buffer.value)];
          }
          return items, ok;
        }
        items := items + [ItemOf(h, item.part, buffer.value, false)];
      }
      WalkEnds(w, items, h, input, bytesRead, false);
      ok := false;
    }

    /** `blocks`: the rest of the index, then the footer again. */
    method Blocks(h: Header) returns (items: seq<Item>, ok: bool)
      requires Valid() && FOOTER_SIZE <= |input| && bufFooter == input[..FOOTER_SIZE]
      modifies this
      ensures Walk(h, input, old(bytesRead), old(index), true) == Parsed(items, ok)
    {
      hide Walk, Then, Sort, BlockEntries, BatSize, FullBlockSize, BitmapSize, ItemOf;
      items := [];
      ghost var w := Walk(h, input, bytesRead, index, true);
      ThenNothing(w);
      while index != []
        invariant Valid() && bufFooter == input[..FOOTER_SIZE]
        invariant w == Then(items, Walk(h, input, bytesRead, index, true))
        decreases |index|
      {
        var item := index[0];
        WalkOn(w, items, h, input, bytesRead, index, true);
        index := index[1..];
        var buffer := Read(item.offset, item.size);
        if buffer.None? {
          return items, false;
        }
        items := items + [ItemOf(h, item.part, buffer.value, true)];
      }
      var chunks := Arrive();
      var bufFooterEnd := ReadLastSector(chunks);
      WalkEnds(w, items, h, input, bytesRead, true);
      ok := bufFooter == bufFooterEnd;
    }

    /** The rest of the stream, in chunks that the parser does not choose. */
    method Arrive() returns (chunks: seq<Bytes>)
      requires Valid()
      ensures Concat(chunks) == rest
    {
      chunks := [rest];
    }

    /** `parse`. */
    method Parse() returns (items: seq<Item>, ok: bool)
      requires Valid() && bytesRead == 0
      modifies this
      ensures Parsed(items, ok) == ParseStream(input)
    {
      hide Walk, FirstIndex;
      var footerBytes := Read(0, FOOTER_SIZE);
      if footerBytes.None? {
        return [], false;
      }
      bufFooter := footerBytes.value;
      assert bufFooter == input[..FOOTER_SIZE];
      var footer := UnpackFooter(bufFooter);
      if footer.None? {
        return [], false;
      }
      items := [FooterItem(footer.value)];
      var headerBytes := Read(FOOTER_SIZE, HEADER_SIZE);
      if headerBytes.None? {
        return items, false;
      }
      var header := UnpackHeader(headerBytes.value, footer.value);
      if header.None? {
        return items, false;
      }
      items := items + [HeaderItem(header.value)];
      if header.value.blockSize % SECTOR_SIZE != 0 {
        return items, false;
      }
      var more;
      more, ok := UntilBat(header.value);
      items := items + more;
      if ok {
        more, ok := Blocks(header.value);
        items := items + more;
      }
    }
  }

  lemma {:induction false} NoBlockEntries(h: Header, bat: Bytes, i: nat, k: nat)
    requires i <= k && 4 * k <= |bat| && BlockEntries(h, bat, i).None?
    ensures BlockEntries(h, bat, k).None?
    decreases k
  {
    if i < k {
      NoBlockEntries(h, bat, i, k - 1);
    }
  }

  lemma LastSectorMore(a: Bytes, b: Bytes)
    ensures LastSector(LastSector(a) + b) == LastSector(a + b)
  {
    if |a| > SECTOR_SIZE && |b| <= SECTOR_SIZE {
      assert (a[|a| - SECTOR_SIZE..] + b)[|b|..] == (a + b)[|a| + |b| - SECTOR_SIZE..];
    } else if |a| > SECTOR_SIZE {
      assert (a[|a| - SECTOR_SIZE..] + b)[|b|..] == (a + b)[|a| + |b| - SECTOR_SIZE..];
    }
  }

  lemma LastSectorOfNone()
    ensures LastSector(Concat([])) == []
    ensures forall a :: LastSector(a + []) == LastSector(a)
  {
    assert forall a: Bytes :: a + [] == a;
  }

  /** `readLastSector`, with its capped buffer: the last sector, whatever the chunks. */
  method ReadLastSector(chunks: seq<Bytes>) returns (bufFooterEnd: Bytes)
    ensures bufFooterEnd == LastSector(Concat(chunks))
  {
    hide LastSector, Concat;
    bufFooterEnd := [];
    assert chunks[..0] == [];
    LastSectorOfNone();
    for i := 0 to |chunks|
      invariant bufFooterEnd == LastSector(Concat(chunks[..i]))
    {
      assert chunks[..i + 1] == chunks[..i] + [chunks[i]];
      ConcatMore(chunks[..i], chunks[i]);
      LastSectorMore(Concat(chunks[..i]), chunks[i]);
      if |chunks[i]| > 0 {
        bufFooterEnd := LastSector(bufFooterEnd + chunks[i]);
      }
    }
    assert chunks[..|chunks|] == chunks;
  }
}
