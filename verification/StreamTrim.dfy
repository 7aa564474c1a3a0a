/**
 Cutting a VHD stream behind its last block, so that its length is known in advance.
 */
module StreamTrim {
  import opened Basics
  import opened VhdStructs
  import opened VhdStream
  import opened VhdParser
  import opened VhdRoundTrip

  // ----- the first and the last block of a table

  function SectorAt(table: Bytes, i: nat): nat
    requires 4 * i + 4 <= |table|
  {
    UInt(table[4 * i..4 * i + 4])
  }

  predicate IsUsed(table: Bytes, i: nat) {
    4 * i + 4 <= |table| && SectorAt(table, i) != BLOCK_UNUSED
  }

  datatype Range = Range(first: nat, firstSector: nat, last: nat, lastSector: nat)

  /** The range spans the sectors of the used entries below `k`. */
  ghost predicate Spans(table: Bytes, k: nat, r: Range) {
    && r.first < k && IsUsed(table, r.first) && SectorAt(table, r.first) == r.firstSector
    && r.last < k && IsUsed(table, r.last) && SectorAt(table, r.last) == r.lastSector
    && forall i :: 0 <= i < k && IsUsed(table, i) ==> r.firstSector <= SectorAt(table, i) <= r.lastSector
  }

  ghost predicate NoneUsed(table: Bytes, k: nat) {
    forall i :: 0 <= i < k ==> !IsUsed(table, i)
  }

  /** `getFirstAndLastBlocks`: None when no entry is used. */
  method GetFirstAndLastBlocks(bat: Bytes) returns (r: Option<Range>)
    requires |bat| % 4 == 0
    ensures match r
      case Some(range) => Spans(bat, |bat| / 4, range)
      case None => NoneUsed(bat, |bat| / 4)
  {
    hide UInt, Spans;
    var n := |bat|;
    if n == 0 {
      return None;
    }
    var i, j := 0, 0;
    var firstSector := UInt(bat[j..j + 4]);
    while firstSector == BLOCK_UNUSED
      invariant j == 4 * i && j < n && firstSector == SectorAt(bat, i)
      invariant forall k :: 0 <= k < i ==> !IsUsed(bat, k)
      decreases n - j
    {
      i := i + 1;
      j := j + 4;
      if j == n {
        return None;
      }
      firstSector := UInt(bat[j..j + 4]);
    }
    var lastSector := firstSector;
    var first, last := i, i;
    ghost var start := i;
    while j < n
      invariant j == 4 * i && start <= i && j <= n && first <= i && last <= i
      invariant i == start
        ==> first == last == i && firstSector == lastSector == SectorAt(bat, i) != BLOCK_UNUSED && j < n
      invariant i > start ==> Spans(bat, i, Range(first, firstSector, last, lastSector))
      invariant NoneUsed(bat, start)
      decreases n - j
    {
      SpansMore(bat, i, start, Range(first, firstSector, last, lastSector));
      var sector := UInt(bat[j..j + 4]);
      assert sector == SectorAt(bat, i);
      if sector != BLOCK_UNUSED {
        if sector < firstSector {
          first := i;
          firstSector := sector;
        } else if sector > lastSector {
          last := i;
          lastSector := sector;
        }
      }
      i := i + 1;
      j := j + 4;
    }
    r := Some(Range(first, firstSector, last, lastSector));
  }

  /** One more entry widens the range, or not. */
  lemma SpansMore(table: Bytes, i: nat, start: nat, r: Range)
    requires 4 * i + 4 <= |table| && start <= i && NoneUsed(table, start)
    requires i == start ==> r == Range(i, SectorAt(table, i), i, SectorAt(table, i)) && IsUsed(table, i)
    requires i > start ==> Spans(table, i, r)
    ensures var sector := SectorAt(table, i);
      Spans(table, i + 1,
        if sector == BLOCK_UNUSED then r
        else if sector < r.firstSector then r.(first := i, firstSector := sector)
        else if sector > r.lastSector then r.(last := i, lastSector := sector)
        else r)
  {
    hide SectorAt;
  }

  // ----- the cut

  /** A stream cut at `footerOffset`, the footer behind it; one that does not get there is not changed. */
  function Trimmed(input: Bytes, footerOffset: nat, footer: Bytes): Bytes {
    if footerOffset <= |input| then input[..footerOffset] + footer else input
  }

  class EndCutterStream {
    const footerOffset: nat
    const footerBuffer: Bytes
    var position: nat
    var done: bool
    var pushed: Bytes       // what has been sent on
    ghost var fed: Bytes    // what has been received

    ghost predicate Valid()
      reads this
    {
      && footerOffset > 0
      && pushed == Trimmed(fed, footerOffset, footerBuffer)
      && (done <==> footerOffset <= |fed|)
      && (!done ==> position == |fed|)
    }

    constructor (footerOffset: nat, footerBuffer: Bytes)
      requires footerOffset > 0
      ensures Valid() && fed == [] && this.footerOffset == footerOffset && this.footerBuffer == footerBuffer
    {
      this.footerOffset, this.footerBuffer := footerOffset, footerBuffer;
      position, done, pushed, fed := 0, false, [], [];
    }

    /** `_transform`: after any chunks, what has been sent on depends only on the bytes received. */
    method Transform(data: Bytes)
      requires Valid()
      modifies this
      ensures Valid() && fed == old(fed) + data
    {
      fed := fed + data;
      if !done {
        var sent := data;
        if position + |data| >= footerOffset {
          done := true;
          var difference := footerOffset - position;
          sent := data[..difference];
          pushed := pushed + sent;
          pushed := pushed + footerBuffer;
          assert fed[..footerOffset] == old(fed) + sent;
        } else {
          pushed := pushed + sent;
        }
        position := position + |sent|;
      } else {
        assert fed[..footerOffset] == old(fed)[..footerOffset];
      }
    }
  }

  // ----- where to cut

  datatype Trim = Trim(output: Bytes, length: nat)

  /** Rounded up once, at the end. */
  function BitmapBytes(blockSize: nat): nat {
    (blockSize + 0x1F_FFFF) / 0x20_0000 * SECTOR_SIZE
  }

  /** Where the sectors that end with position `n` end. */
  function RoundUp(n: nat): nat {
    (n + SECTOR_SIZE - 1) / SECTOR_SIZE * SECTOR_SIZE
  }

  /** The next boundary of a sector. */
  lemma RoundUpIsNext(n: nat)
    ensures n <= RoundUp(n) < n + SECTOR_SIZE && RoundUp(n) % SECTOR_SIZE == 0
  {
  }

  /** The size of a block is computed in two ways, which agree on powers of two. */
  lemma BitmapsAgree(blockSize: nat)
    requires IsPowerOfTwo(blockSize)
    ensures BitmapBytes(blockSize) + blockSize == FullBlockSize(blockSize)
  {
    if blockSize >= 4096 {
      assert IsPowerOfTwo(4096) by {
        assert IsPowerOfTwo(64);
        ProductIsPower(64, 64);
      }
      PowersDivide(blockSize, 4096);
    }
    RoundedOnce(blockSize);
  }

  lemma RoundedOnce(n: nat)
    requires 0 < n < 4096 || (n > 0 && n % 4096 == 0)
    ensures BitmapBytes(n) + n == FullBlockSize(n)
  {
    var k := n / 4096;
    assert n / SECTOR_SIZE / 8 == k;
    if n >= 4096 {
      assert n == 4096 * k;
      assert (n + 0x1F_FFFF) / 0x20_0000 == (k + 511) / 512;
    }
  }

  /** The announced position of the footer. */
  ghost predicate IsCut(h: Header, table: Bytes, cut: nat)
    requires |table| == 4 * h.maxTableEntries
  {
    if NoneUsed(table, h.maxTableEntries) then cut == RoundUp(h.tableOffset + |table|)
    else exists r ::
      Spans(table, h.maxTableEntries, r) && cut == r.lastSector * SECTOR_SIZE + FullBlockSize(h.blockSize)
  }

  /** All blocks end at the cut or before it, and one of them at the cut. */
  lemma CutIsLastEnd(h: Header, table: Bytes, cut: nat)
    requires |table| == 4 * h.maxTableEntries && IsCut(h, table, cut)
    ensures forall i :: 0 <= i < h.maxTableEntries && IsUsed(table, i) ==>
      SectorAt(table, i) * SECTOR_SIZE + FullBlockSize(h.blockSize) <= cut
    ensures NoneUsed(table, h.maxTableEntries)
         || exists i :: 0 <= i < h.maxTableEntries && IsUsed(table, i)
              && SectorAt(table, i) * SECTOR_SIZE + FullBlockSize(h.blockSize) == cut
  {
    hide SectorAt, FullBlockSize, IsUsed;
    if !NoneUsed(table, h.maxTableEntries) {
      var r :| Spans(table, h.maxTableEntries, r) && cut == r.lastSector * SECTOR_SIZE + FullBlockSize(h.blockSize);
      assert IsUsed(table, r.last) && SectorAt(table, r.last) == r.lastSector;
    }
  }

  /** What is read before anything is sent on. */
  predicate Opens(input: Bytes) {
    && FOOTER_SIZE + HEADER_SIZE <= |input|
    && var footer := ReadFooter(input[..FOOTER_SIZE]);
       var h := ReadHeader(input[FOOTER_SIZE..FOOTER_SIZE + HEADER_SIZE]);
       && CheckFooter(footer) && CheckHeader(h, footer)
       && FOOTER_SIZE + HEADER_SIZE <= h.tableOffset < FOOTER_SIZE + HEADER_SIZE + CHUNK_LIMIT
       && 4 * h.maxTableEntries < CHUNK_LIMIT
       && h.tableOffset + 4 * h.maxTableEntries <= |input|
  }

  function HeaderIn(input: Bytes): Header
    requires Opens(input)
  {
    ReadHeader(input[FOOTER_SIZE..FOOTER_SIZE + HEADER_SIZE])
  }

  function TableIn(input: Bytes): Bytes
    requires Opens(input)
  {
    var h := HeaderIn(input);
    input[h.tableOffset..h.tableOffset + 4 * h.maxTableEntries]
  }

  /** The stream being read: what is left of it and what has been taken. */
  class Source {
    var rest: Bytes
    var streamPosition: nat
    var readBuffers: seq<Bytes>

    constructor (input: Bytes)
      ensures Holds(input) && streamPosition == 0
    {
      rest, streamPosition, readBuffers := input, 0, [];
    }

    predicate Holds(input: Bytes)
      reads this
    {
      Concat(readBuffers) + rest == input && |Concat(readBuffers)| == streamPosition
    }

    /** `readStream`; None stands for an error. */
    method ReadStream(length: int, ghost input: Bytes) returns (r: Option<Bytes>)
      requires Holds(input)
      modifies this
      ensures r.Some? <==> 0 <= length < CHUNK_LIMIT && old(streamPosition) + length <= |input|
      ensures r.Some? ==> Holds(input) && streamPosition == old(streamPosition) + length
      ensures r.Some? ==> r.value == input[old(streamPosition)..streamPosition]
    {
      if length == 0 {
        return Some([]);
      }
      if length < 0 || length >= CHUNK_LIMIT || |rest| < length {
        return None;
      }
      var chunk := rest[..length];
      ConcatMore(readBuffers, chunk);
      assert input[streamPosition..streamPosition + length] == chunk;
      rest := rest[length..];
      streamPosition := streamPosition + length;
      readBuffers := readBuffers + [chunk];
      r := Some(chunk);
    }

    /** All that was taken is put back, the last one first. */
    method PutBack(ghost input: Bytes)
      requires Holds(input)
      modifies this
      ensures rest == input
    {
      var i := |readBuffers|;
      assert readBuffers[..i] == readBuffers;
      while i > 0
        invariant 0 <= i <= |readBuffers| && readBuffers == old(readBuffers)
        invariant Concat(readBuffers[..i]) + rest == input
      {
        i := i - 1;
        assert readBuffers[..i + 1] == readBuffers[..i] + [readBuffers[i]];
        ConcatMore(readBuffers[..i], readBuffers[i]);
        rest := readBuffers[i] + rest;
      }
    }

    /** The stream in chunks that the reader does not choose. */
    method Chunks() returns (chunks: seq<Bytes>)
      ensures Concat(chunks) == rest
    {
      chunks := [rest];
    }
  }

  /**
   `createVhdStreamWithLength`: the stream up to the end of its last block, then its first
   footer.  The announced length is right exactly when the stream gets to the cut.  None
   stands for a stream that cannot be opened.
   */
  method CreateVhdStreamWithLength(input: Bytes) returns (r: Option<Trim>, ghost cut: nat)
    ensures r.Some? <==> Opens(input)
    ensures r.Some? ==> IsCut(HeaderIn(input), TableIn(input), cut)
    ensures r.Some? ==> r.value == Trim(Trimmed(input, cut, input[..FOOTER_SIZE]), cut + FOOTER_SIZE)
    ensures r.Some? ==> (|r.value.output| == r.value.length <==> cut <= |input|)
  {
    cut := 0;
    var stream := new Source(input);
    var footerBuffer := stream.ReadStream(FOOTER_SIZE, input);
    if footerBuffer.None? || !CheckFooter(ReadFooter(footerBuffer.value)) {
      return None, cut;
    }
    var headerBuffer := stream.ReadStream(HEADER_SIZE, input);
    if headerBuffer.None? {
      return None, cut;
    }
    var header := ReadHeader(headerBuffer.value);
    assert footerBuffer.value == input[..FOOTER_SIZE]
      && headerBuffer.value == input[FOOTER_SIZE..FOOTER_SIZE + HEADER_SIZE];
    if !CheckHeader(header, ReadFooter(footerBuffer.value)) {
      return None, cut;
    }
    var skipped := stream.ReadStream(header.tableOffset - stream.streamPosition, input);
    if skipped.None? {
      return None, cut;
    }
    var table := stream.ReadStream(header.maxTableEntries * 4, input);
    if table.None? {
      return None, cut;
    }
    assert Opens(input) && table.value == TableIn(input) && header == HeaderIn(input);
    var position := stream.streamPosition;
    stream.PutBack(input);
    var footerOffset := FooterOffset(header, table.value, position);
    cut := footerOffset;
    var output := Cut(stream, footerOffset, footerBuffer.value);
    r := Some(Trim(output, footerOffset + FOOTER_SIZE));
  }

  /** The end of the last block; without blocks, the end of the sector where the table ends. */
  method FooterOffset(h: Header, table: Bytes, position: nat) returns (footerOffset: nat)
    requires |table| == 4 * h.maxTableEntries && position == h.tableOffset + |table| && position > 0
    requires IsPowerOfTwo(h.blockSize)
    ensures footerOffset > 0 && IsCut(h, table, footerOffset)
  {
    hide Spans, NoneUsed, BitmapBytes, FullBlockSize, IsPowerOfTwo;
    var firstAndLastBlocks := GetFirstAndLastBlocks(table);
    BitmapsAgree(h.blockSize);
    Sizes(0, h.blockSize);
    match firstAndLastBlocks {
      case Some(range) =>
        SpansSome(table, h.maxTableEntries, range);
        footerOffset := range.lastSector * SECTOR_SIZE + BitmapBytes(h.blockSize) + h.blockSize;
      case None =>
        footerOffset := RoundUp(position);
    }
  }

  lemma SpansSome(table: Bytes, k: nat, r: Range)
    requires Spans(table, k, r)
    ensures !NoneUsed(table, k)
  {
    hide SectorAt;
    assert IsUsed(table, r.first);
  }

  method Cut(stream: Source, footerOffset: nat, footerBuffer: Bytes) returns (output: Bytes)
    requires footerOffset > 0
    ensures output == Trimmed(stream.rest, footerOffset, footerBuffer)
  {
    var chunks := stream.Chunks();
    var newStream := new EndCutterStream(footerOffset, footerBuffer);
    assert chunks[..0] == [];
    for i := 0 to |chunks|
      invariant newStream.Valid() && newStream.fed == Concat(chunks[..i])
      invariant newStream.footerOffset == footerOffset && newStream.footerBuffer == footerBuffer
    {
      assert chunks[..i + 1] == chunks[..i] + [chunks[i]];
      ConcatMore(chunks[..i], chunks[i]);
      newStream.Transform(chunks[i]);
    }
    assert chunks[..|chunks|] == chunks;
    output := newStream.pushed;
  }

  // ----- streams that need no cutting

  lemma SealedChecks(v: Vhd)
    requires ValidVhd(v) && HeaderFits(StreamedHeader(v))
    ensures FooterFits(v.footer) && CheckFooter(SealedFooter(v.footer))
    ensures CheckHeader(SealedHeader(StreamedHeader(v)), SealedFooter(v.footer))
  {
    hide Checksum, StreamedLocators, BlocksAreFull, LocatorFits, BlocksEnd, IsPowerOfTwo;
  }

  lemma ImageOpensIff(v: Vhd, pad: Bytes)
    requires Streamable(v, pad)
    ensures Opens(Image(v, pad)) <==> 4 * v.header.maxTableEntries < CHUNK_LIMIT
    ensures Opens(Image(v, pad)) ==> HeaderIn(Image(v, pad)) == SealedHeader(StreamedHeader(v))
    ensures Opens(Image(v, pad)) ==> TableIn(Image(v, pad)) == BatBytes(v, v.header.maxTableEntries)
    ensures Image(v, pad)[..FOOTER_SIZE] == PackFooter(SealedFooter(v.footer))
  {
    hide Image, Streamable, ReadFooter, ReadHeader, PackFooter, PackHeader, SealedFooter, SealedHeader,
      StreamedHeader, CheckHeader, CheckFooter, ValidVhd, EntriesFit, HeaderFits, FooterFits, LocatorsFit, BatBytes,
      BatSize, LocatorBytes, BlockBytes, BlocksStart, BlocksEnd, TableEnd;
    StreamableFacts(v, pad);
    SealedChecks(v);
    SizesOfStream(v, pad);
    var input, n := Image(v, pad), v.header.maxTableEntries;
    ImageParts(v, pad);
    ReadOfPackFooter(SealedFooter(v.footer));
    ReadOfPackHeader(SealedHeader(StreamedHeader(v)));
    assert input[0..FOOTER_SIZE] == input[..FOOTER_SIZE];
    PartHolds(input, TableStart(), BatBytes(v, n) + pad, 0, 4 * n);
    assert (BatBytes(v, n) + pad)[0..4 * n] == BatBytes(v, n);
  }

  /** The entries of the streamed table, as the scan sees them. */
  lemma ImageEntry(v: Vhd, pad: Bytes, i: nat)
    requires Streamable(v, pad) && i < v.header.maxTableEntries
    ensures var table := BatBytes(v, v.header.maxTableEntries);
      && (IsUsed(table, i) <==> i in v.blocks)
      && (i in v.blocks ==>
            SectorAt(table, i) * SECTOR_SIZE + FullBlockSize(v.header.blockSize)
            == BlocksStart(v) + |BlockBytes(v, i + 1)| <= BlocksEnd(v))
  {
    hide Streamable, EntriesFit, HeaderFits, StreamedHeader, UInt, BatEntry, ValidVhd, BatBytes, FullBlockSize,
      BlocksStart;
    StreamableFacts(v, pad);
    ValidFacts(v);
    BatEntryRead(v, i, v.header.maxTableEntries);
    BatEntryIs(v, i);
    BlockBytesPrefix(v, i + 1, v.header.maxTableEntries);
  }

  /** The block with the largest number below `k`. */
  lemma {:induction false} LastBlock(v: Vhd, k: nat) returns (i: nat)
    requires exists j :: 0 <= j < k && j in v.blocks
    ensures i < k && i in v.blocks && BlockBytes(v, i + 1) == BlockBytes(v, k)
  {
    if k - 1 in v.blocks {
      i := k - 1;
    } else {
      i := LastBlock(v, k - 1);
      assert BlockBytes(v, k) == BlockBytes(v, k - 1);
    }
  }

  lemma CutWithBlocks(v: Vhd, pad: Bytes, h: Header, cut: nat)
    requires Streamable(v, pad) && h == SealedHeader(StreamedHeader(v))
    requires exists j :: 0 <= j < v.header.maxTableEntries && j in v.blocks
    requires IsCut(h, BatBytes(v, v.header.maxTableEntries), cut)
    ensures cut == BlocksEnd(v)
  {
    hide Streamable, ValidVhd, EntriesFit, HeaderFits, IsCut, BatBytes, IsUsed, SectorAt, BlocksStart, FullBlockSize,
      BlockBytes, SealedHeader, StreamedHeader;
    StreamableFacts(v, pad);
    SizesOfStream(v, pad);
    var n := v.header.maxTableEntries;
    var table := BatBytes(v, n);
    CutIsLastEnd(h, table, cut);
    var last := LastBlock(v, n);
    forall i | 0 <= i < n
      ensures IsUsed(table, i) <==> i in v.blocks
      ensures i in v.blocks ==> SectorAt(table, i) * SECTOR_SIZE + FullBlockSize(v.header.blockSize) <= BlocksEnd(v)
    {
      ImageEntry(v, pad, i);
    }
    ImageEntry(v, pad, last);
    assert IsUsed(table, last);
  }

  lemma CutWithoutBlocks(v: Vhd, pad: Bytes, h: Header, cut: nat)
    requires Streamable(v, pad) && h == SealedHeader(StreamedHeader(v))
    requires forall j :: 0 <= j < v.header.maxTableEntries ==> j !in v.blocks
    requires IsCut(h, BatBytes(v, v.header.maxTableEntries), cut)
    ensures cut == RoundUp(TableStart() + 4 * v.header.maxTableEntries) && BlocksEnd(v) == BlocksStart(v)
  {
    hide Streamable, ValidVhd, EntriesFit, HeaderFits, BatBytes, IsUsed, SectorAt, BlocksStart, BlockBytes,
      SealedHeader, StreamedHeader;
    StreamableFacts(v, pad);
    SizesOfStream(v, pad);
    var n := v.header.maxTableEntries;
    var table := BatBytes(v, n);
    NoBlockBytes(v, n);
    forall i | 0 <= i < n ensures !IsUsed(table, i) {
      ImageEntry(v, pad, i);
    }
  }

  lemma {:induction false} NoBlockBytes(v: Vhd, k: nat)
    requires forall j :: 0 <= j < k ==> j !in v.blocks
    ensures BlockBytes(v, k) == []
  {
    if k > 0 {
      NoBlockBytes(v, k - 1);
    }
  }

  lemma TableRoundsUp(n: nat)
    ensures RoundUp(TableStart() + 4 * n) == if n > 0 then TableStart() + BatSize(n) else TableStart()
    ensures BatSize(n) > 0
  {
  }

  /**
   Cutting a stream that `stream` has made changes nothing if the disk has a block; without
   blocks, exactly if the table has entries and no locator takes space.
   */
  lemma TrimKeepsImageIff(v: Vhd, pad: Bytes, cut: nat)
    requires Streamable(v, pad) && Opens(Image(v, pad))
    requires IsCut(HeaderIn(Image(v, pad)), TableIn(Image(v, pad)), cut)
    ensures Trimmed(Image(v, pad), cut, Image(v, pad)[..FOOTER_SIZE]) == Image(v, pad)
       <==> (exists j :: 0 <= j < v.header.maxTableEntries && j in v.blocks)
            || (v.header.maxTableEntries > 0 && BlocksStart(v) == TableEnd(v))
  {
    hide Image, Streamable, HeaderIn, TableIn, Opens, IsCut, BlocksStart, BlockBytes, LocatorsFit, LocatorBytes,
      BatBytes, SealedHeader, StreamedHeader, BlocksEnd, RoundUp, BatSize, PackFooter, PackHeader, SealedFooter,
      Holds, Trimmed, ValidVhd, EntriesFit, HeaderFits, FooterFits;
    StreamableFacts(v, pad);
    var input, n := Image(v, pad), v.header.maxTableEntries;
    ImageOpensIff(v, pad);
    SizesOfStream(v, pad);
    ImageParts(v, pad);
    var h := SealedHeader(StreamedHeader(v));
    if exists j :: 0 <= j < n && j in v.blocks {
      CutWithBlocks(v, pad, h, cut);
    } else {
      CutWithoutBlocks(v, pad, h, cut);
      TableRoundsUp(n);
      BlocksComeAfter(v);
    }
    TrimKeepsIff(input, cut, BlocksEnd(v), input[..FOOTER_SIZE]);
  }

  lemma EmptyTableIsCut(h: Header, table: Bytes)
    requires h.maxTableEntries == 0 && table == []
    ensures IsCut(h, table, RoundUp(h.tableOffset))
  {
  }

  lemma SampleOpens()
    ensures var v, pad := EmptySample(), VhdStream.Zeros(BatSize(0));
      && Streamable(v, pad) && Opens(Image(v, pad)) && HeaderIn(Image(v, pad)).maxTableEntries == 0
      && TableIn(Image(v, pad)) == []
  {
    hide Image, Streamable, Opens, HeaderIn, TableIn;
    EmptySampleStreams();
    ImageOpensIff(EmptySample(), VhdStream.Zeros(BatSize(0)));
  }

  ghost predicate IsCutShort(input: Bytes) {
    && Opens(input)
    && exists cut :: IsCut(HeaderIn(input), TableIn(input), cut) && Trimmed(input, cut, input[..FOOTER_SIZE]) != input
  }

  /** The stream of `EmptySample` is cut before the sectors of its locator. */
  lemma EmptyDiskIsCutShort()
    ensures Streamable(EmptySample(), VhdStream.Zeros(BatSize(0)))
    ensures IsCutShort(Image(EmptySample(), VhdStream.Zeros(BatSize(0))))
  {
    hide Streamable, Image, Opens, HeaderIn, TableIn, Trimmed, IsCut, RoundUp, BlocksStart, BatSize;
    var v, pad := EmptySample(), VhdStream.Zeros(BatSize(0));
    SampleOpens();
    var input := Image(v, pad);
    var cut := RoundUp(HeaderIn(input).tableOffset);
    EmptyTableIsCut(HeaderIn(input), TableIn(input));
    EmptySampleStreams();
    TrimKeepsImageIff(v, pad, cut);
    OpensHasFooter(input);
  }

  lemma OpensHasFooter(input: Bytes)
    requires Opens(input)
    ensures FOOTER_SIZE <= |input|
  {
  }

  lemma TrimKeepsIff(input: Bytes, cut: nat, end: nat, footer: Bytes)
    requires |footer| == FOOTER_SIZE && Holds(input, end, footer) && |input| == end + FOOTER_SIZE && cut <= |input|
    ensures Trimmed(input, cut, footer) == input <==> cut == end
  {
    if cut == end {
      assert input == input[..end] + input[end..end + FOOTER_SIZE];
    }
  }
}
