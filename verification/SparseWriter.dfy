/**
 Writing a VHD from a stream of fragments whose blocks may be interleaved.  The block
 allocation table is computed before the data, from the addresses of the fragments alone; a
 block is sent when its last fragment has come in.
 */
module SparseWriter {
  import opened Basics
  import opened VhdStructs

  const VHD_BLOCK_SIZE_BYTES: nat := 0x20_0000
  const VHD_BLOCK_SIZE_SECTORS: nat := 4096
  const BITMAP_SIZE: nat := 512
  const FULL_SECTORS: nat := 4097

  datatype Fragment = Fragment(logicalAddressBytes: nat, data: Bytes)

  /** Fragments of one size, which divides a block, for blocks that have an entry in the table. */
  ghost predicate ValidInput(fragmentSize: nat, frags: seq<Fragment>, entries: nat) {
    && fragmentSize > 0 && fragmentSize % SECTOR_SIZE == 0 && VHD_BLOCK_SIZE_BYTES % fragmentSize == 0
    && forall i :: 0 <= i < |frags| ==>
         frags[i].logicalAddressBytes % fragmentSize == 0 && |frags[i].data| == fragmentSize
           && BlockOf(frags[i]) < entries
  }

  function BlockOf(f: Fragment): nat {
    f.logicalAddressBytes / VHD_BLOCK_SIZE_BYTES
  }

  // ----- the order of the blocks

  /** The last of the first `n` fragments that belongs to block `b`; -1 when none does. */
  function LastIndex(frags: seq<Fragment>, b: nat, n: nat): (i: int)
    requires n <= |frags|
    ensures -1 <= i < n && (i >= 0 ==> BlockOf(frags[i]) == b)
    ensures forall j :: i < j < n ==> BlockOf(frags[j]) != b
  {
    if n == 0 then -1 else if BlockOf(frags[n - 1]) == b then n - 1 else LastIndex(frags, b, n - 1)
  }

  function Last(frags: seq<Fragment>, b: nat): (i: int)
    ensures -1 <= i < |frags| && (i >= 0 ==> BlockOf(frags[i]) == b)
    ensures forall j :: i < j < |frags| ==> BlockOf(frags[j]) != b
  {
    LastIndex(frags, b, |frags|)
  }

  predicate IsLast(frags: seq<Fragment>, i: nat)
    requires i < |frags|
  {
    Last(frags, BlockOf(frags[i])) == i
  }

  /** The blocks whose last fragment is among the first `k`, in the order of these. */
  function Order(frags: seq<Fragment>, k: nat): seq<nat>
    requires k <= |frags|
  {
    if k == 0 then []
    else Order(frags, k - 1) + if IsLast(frags, k - 1) then [BlockOf(frags[k - 1])] else []
  }

  /** The number of blocks that come before `b`. */
  function Rank(frags: seq<Fragment>, b: nat): nat
    requires Last(frags, b) >= 0
  {
    |Order(frags, Last(frags, b))|
  }

  lemma {:induction false} OrderPrefix(frags: seq<Fragment>, i: nat, k: nat)
    requires i <= k <= |frags|
    ensures Order(frags, i) <= Order(frags, k)
    decreases k
  {
    if i < k {
      OrderPrefix(frags, i, k - 1);
    }
  }

  /** A block stands at its rank, and only there. */
  lemma RankIs(frags: seq<Fragment>, b: nat, k: nat)
    requires 0 <= Last(frags, b) < k <= |frags|
    ensures Rank(frags, b) < |Order(frags, k)| && Order(frags, k)[Rank(frags, b)] == b
  {
    OrderPrefix(frags, Last(frags, b) + 1, k);
  }

  lemma {:induction false} OrderRanks(frags: seq<Fragment>, k: nat, r: nat)
    requires k <= |frags| && r < |Order(frags, k)|
    ensures Last(frags, Order(frags, k)[r]) >= 0 && Last(frags, Order(frags, k)[r]) < k
      && Rank(frags, Order(frags, k)[r]) == r
    decreases k
  {
    if r < |Order(frags, k - 1)| {
      OrderRanks(frags, k - 1, r);
    }
  }

  // ----- when a block is sent

  /** The test that the writer makes: the address is that of the last fragment of its block. */
  predicate IsEvent(frags: seq<Fragment>, i: nat)
    requires i < |frags|
  {
    var last := Last(frags, BlockOf(frags[i]));
    last >= 0 && frags[i].logicalAddressBytes == frags[last].logicalAddressBytes
  }

  function Count(frags: seq<Fragment>, k: nat): nat
    requires k <= |frags|
  {
    if k == 0 then 0 else Count(frags, k - 1) + if IsEvent(frags, k - 1) then 1 else 0
  }

  /** A block is sent where the table says: after as many blocks as come before it. */
  predicate InPlace(frags: seq<Fragment>, i: nat)
    requires i < |frags|
  {
    Last(frags, BlockOf(frags[i])) >= 0 && Count(frags, i) == Rank(frags, BlockOf(frags[i]))
  }

  ghost predicate AllInPlace(frags: seq<Fragment>, k: nat)
    requires k <= |frags|
  {
    forall i :: 0 <= i < k && IsEvent(frags, i) ==> InPlace(frags, i)
  }

  /** The address of the last fragment of a block is not that of an earlier one. */
  ghost predicate LastAddressesAreUnique(frags: seq<Fragment>) {
    forall i :: 0 <= i < |frags| && IsEvent(frags, i) ==> IsLast(frags, i)
  }

  lemma LastOfOwn(frags: seq<Fragment>, i: nat)
    requires i < |frags|
    ensures Last(frags, BlockOf(frags[i])) >= i
  {
  }

  lemma LastIsEvent(frags: seq<Fragment>, i: nat)
    requires i < |frags| && IsLast(frags, i)
    ensures IsEvent(frags, i)
  {
  }

  lemma {:induction false} CountIsOrder(frags: seq<Fragment>, k: nat)
    requires k <= |frags| && LastAddressesAreUnique(frags)
    ensures Count(frags, k) == |Order(frags, k)|
  {
    if k > 0 {
      CountIsOrder(frags, k - 1);
      if IsLast(frags, k - 1) {
        LastIsEvent(frags, k - 1);
      }
    }
  }

  lemma {:induction false} CountGrows(frags: seq<Fragment>, i: nat, k: nat)
    requires i < k <= |frags| && IsEvent(frags, i)
    ensures Count(frags, i) < Count(frags, k)
    decreases k
  {
    if i < k - 1 {
      CountGrows(frags, i, k - 1);
    }
  }

  /**
   Every block is sent where the table says exactly when the address of the last fragment of
   each block occurs only once.
   */
  lemma BlocksInPlaceIff(frags: seq<Fragment>)
    ensures AllInPlace(frags, |frags|) <==> LastAddressesAreUnique(frags)
  {
    hide Last, IsEvent;
    if LastAddressesAreUnique(frags) {
      forall i | 0 <= i < |frags| && IsEvent(frags, i) ensures InPlace(frags, i) {
        CountIsOrder(frags, i);
        LastOfOwn(frags, i);
      }
    }
    if AllInPlace(frags, |frags|) {
      forall i | 0 <= i < |frags| && IsEvent(frags, i) ensures IsLast(frags, i) {
        var last := Last(frags, BlockOf(frags[i]));
        LastOfOwn(frags, i);
        LastIsEvent(frags, last);
        assert InPlace(frags, i) && InPlace(frags, last);
        if i < last {
          CountGrows(frags, i, last);
        }
      }
    }
  }

  /** The same fragment twice: its block is sent twice, the second time behind its place. */
  lemma RepeatedFragmentIsMisplaced(f: Fragment)
    ensures !AllInPlace([f, f], 2)
  {
    var frags := [f, f];
    LastOfOwn(frags, 0);
    assert Last(frags, BlockOf(f)) == 1;
    assert IsEvent(frags, 0) && !IsLast(frags, 0);
    BlocksInPlaceIff(frags);
  }

  /** Distinct addresses are enough. */
  lemma DistinctIsEnough(frags: seq<Fragment>)
    requires forall i, j :: 0 <= i < j < |frags| ==> frags[i].logicalAddressBytes != frags[j].logicalAddressBytes
    ensures LastAddressesAreUnique(frags)
  {
    forall i | 0 <= i < |frags| && IsEvent(frags, i) ensures IsLast(frags, i) {
      LastOfOwn(frags, i);
    }
  }

  // ----- the contents of a block

  predicate TestBv(b: bv8, k: nat)
    requires k < 8
  {
    (b << k) & 0x80 != 0
  }

  function SetBv(b: bv8, k: nat): bv8
    requires k < 8
  {
    b | ((0x80 as bv8) >> k)
  }

  predicate TestBit(b: Byte, k: nat)
    requires k < 8
  {
    TestBv(b as bv8, k)
  }

  function SetBit(b: Byte, k: nat): Byte
    requires k < 8
  {
    SetBv(b as bv8, k) as Byte
  }

  lemma SetBvSets(b: bv8, j: nat, k: nat)
    requires j < 8 && k < 8
    ensures TestBv(SetBv(b, j), k) <==> j == k || TestBv(b, k)
  {
    assert j == 0 || j == 1 || j == 2 || j == 3 || j == 4 || j == 5 || j == 6 || j == 7;
    assert k == 0 || k == 1 || k == 2 || k == 3 || k == 4 || k == 5 || k == 6 || k == 7;
  }

  lemma SetBitSets(b: Byte, j: nat, k: nat)
    requires j < 8 && k < 8
    ensures TestBit(SetBit(b, j), k) <==> j == k || TestBit(b, k)
  {
    hide TestBv, SetBv;
    BitsBack(SetBv(b as bv8, j));
    SetBvSets(b as bv8, j, k);
  }

  lemma ZeroIsClear(k: nat)
    requires k < 8
    ensures !TestBit(0, k)
  {
    assert k == 0 || k == 1 || k == 2 || k == 3 || k == 4 || k == 5 || k == 6 || k == 7;
  }

  predicate Test(map': Bytes, bit: nat)
    requires bit / 8 < |map'|
  {
    TestBit(map'[bit / 8], bit % 8)
  }

  /** The offset of a fragment in its block. */
  function OffsetOf(f: Fragment): nat {
    f.logicalAddressBytes % VHD_BLOCK_SIZE_BYTES
  }

  /** Of the bits of a byte the first one is the most significant. */
  lemma FirstBitIsHighest(b: Byte, k: nat)
    requires k < 8
    ensures TestBit(b, k) <==> b as int / [128, 64, 32, 16, 8, 4, 2, 1][k] % 2 == 1
  {
    hide TestBv;
    BitsOfByte(b);
    BitOf(b as bv8, k);
  }

  lemma BitOf(v: bv8, k: nat)
    requires k < 8
    ensures TestBv(v, k) <==> v as int / [128, 64, 32, 16, 8, 4, 2, 1][k] % 2 == 1
  {
    hide TestBv;
    match k
    case 0 => BitZero(v);
    case 1 => BitOne(v);
    case 2 => BitTwo(v);
    case 3 => BitThree(v);
    case 4 => BitFour(v);
    case 5 => BitFive(v);
    case 6 => BitSix(v);
    case 7 => BitSeven(v);
  }

  lemma BitZero(b: bv8)
    ensures TestBv(b, 0) <==> b as int / 128 % 2 == 1
  {
    assert TestBv(b, 0) <==> (b / 128) % 2 == 1;
    assert (b / 128) as int == b as int / 128 && ((b / 128) % 2) as int == (b / 128) as int % 2;
  }

  lemma BitOne(b: bv8)
    ensures TestBv(b, 1) <==> b as int / 64 % 2 == 1
  {
    assert TestBv(b, 1) <==> (b / 64) % 2 == 1;
    assert (b / 64) as int == b as int / 64 && ((b / 64) % 2) as int == (b / 64) as int % 2;
  }

  lemma BitTwo(b: bv8)
    ensures TestBv(b, 2) <==> b as int / 32 % 2 == 1
  {
    assert TestBv(b, 2) <==> (b / 32) % 2 == 1;
    assert (b / 32) as int == b as int / 32 && ((b / 32) % 2) as int == (b / 32) as int % 2;
  }

  lemma BitThree(b: bv8)
    ensures TestBv(b, 3) <==> b as int / 16 % 2 == 1
  {
    assert TestBv(b, 3) <==> (b / 16) % 2 == 1;
    assert (b / 16) as int == b as int / 16 && ((b / 16) % 2) as int == (b / 16) as int % 2;
  }

  lemma BitFour(b: bv8)
    ensures TestBv(b, 4) <==> b as int / 8 % 2 == 1
  {
    assert TestBv(b, 4) <==> (b / 8) % 2 == 1;
    assert (b / 8) as int == b as int / 8 && ((b / 8) % 2) as int == (b / 8) as int % 2;
  }

  lemma BitFive(b: bv8)
    ensures TestBv(b, 5) <==> b as int / 4 % 2 == 1
  {
    assert TestBv(b, 5) <==> (b / 4) % 2 == 1;
    assert (b / 4) as int == b as int / 4 && ((b / 4) % 2) as int == (b / 4) as int % 2;
  }

  lemma BitSix(b: bv8)
    ensures TestBv(b, 6) <==> b as int / 2 % 2 == 1
  {
    assert TestBv(b, 6) <==> (b / 2) % 2 == 1;
    assert (b / 2) as int == b as int / 2 && ((b / 2) % 2) as int == (b / 2) as int % 2;
  }

  lemma BitSeven(b: bv8)
    ensures TestBv(b, 7) <==> b as int / 1 % 2 == 1
  {
    assert TestBv(b, 7) <==> (b / 1) % 2 == 1;
    assert (b / 1) as int == b as int / 1 && ((b / 1) % 2) as int == (b / 1) as int % 2;
  }

  predicate CoversSector(f: Fragment, b: nat, s: nat) {
    BlockOf(f) == b && OffsetOf(f) / SECTOR_SIZE <= s < OffsetOf(f) / SECTOR_SIZE + |f.data| / SECTOR_SIZE
  }

  predicate CoversByte(f: Fragment, b: nat, p: nat) {
    BlockOf(f) == b && OffsetOf(f) <= p < OffsetOf(f) + |f.data|
  }

  /** Some of the first `n` fragments covers the sector. */
  predicate Covered(frags: seq<Fragment>, n: nat, b: nat, s: nat)
    requires n <= |frags|
  {
    n > 0 && (CoversSector(frags[n - 1], b, s) || Covered(frags, n - 1, b, s))
  }

  /** The byte that the first `n` fragments leave at an offset of a block: that of the last one there, or zero. */
  function ByteAt(frags: seq<Fragment>, n: nat, b: nat, p: nat): Byte
    requires n <= |frags|
  {
    if n == 0 then 0
    else if CoversByte(frags[n - 1], b, p) then frags[n - 1].data[p - OffsetOf(frags[n - 1])]
    else ByteAt(frags, n - 1, b, p)
  }

  /** A byte behind the bitmap. */
  function DataAt(block: Bytes, p: nat): Byte
    requires BITMAP_SIZE + p < |block|
  {
    block[BITMAP_SIZE + p]
  }

  /** A bit for each sector that is covered, then the data. */
  ghost predicate IsBlock(frags: seq<Fragment>, n: nat, b: nat, block: Bytes)
    requires n <= |frags|
  {
    && |block| == BITMAP_SIZE + VHD_BLOCK_SIZE_BYTES
    && (forall s :: 0 <= s < VHD_BLOCK_SIZE_SECTORS ==> (Test(block, s) <==> Covered(frags, n, b, s)))
    && (forall p :: 0 <= p < VHD_BLOCK_SIZE_BYTES ==> DataAt(block, p) == ByteAt(frags, n, b, p))
  }

  /** In the disk: the byte at an address is in the block and at the offset of that address. */
  lemma CoversByteIff(fragmentSize: nat, f: Fragment, address: nat)
    requires fragmentSize > 0 && fragmentSize % SECTOR_SIZE == 0 && VHD_BLOCK_SIZE_BYTES % fragmentSize == 0
    requires f.logicalAddressBytes % fragmentSize == 0 && |f.data| == fragmentSize
    ensures CoversByte(f, address / VHD_BLOCK_SIZE_BYTES, address % VHD_BLOCK_SIZE_BYTES)
       <==> f.logicalAddressBytes <= address < f.logicalAddressBytes + |f.data|
  {
    FragmentFits(fragmentSize, f);
    var size := VHD_BLOCK_SIZE_BYTES;
    assert address == address / size * size + address % size;
    assert f.logicalAddressBytes == BlockOf(f) * size + OffsetOf(f);
  }

  // ----- filling a block

  /** Where a fragment lies in its block. */
  lemma FragmentFits(fragmentSize: nat, f: Fragment)
    requires fragmentSize > 0 && fragmentSize % SECTOR_SIZE == 0 && VHD_BLOCK_SIZE_BYTES % fragmentSize == 0
    requires f.logicalAddressBytes % fragmentSize == 0 && |f.data| == fragmentSize
    ensures OffsetOf(f) + fragmentSize <= VHD_BLOCK_SIZE_BYTES
    ensures (f.logicalAddressBytes / SECTOR_SIZE) % VHD_BLOCK_SIZE_SECTORS == OffsetOf(f) / SECTOR_SIZE
    ensures OffsetOf(f) / SECTOR_SIZE + fragmentSize / SECTOR_SIZE <= VHD_BLOCK_SIZE_SECTORS
  {
    var a, n := f.logicalAddressBytes, fragmentSize;
    var q, r := VHD_BLOCK_SIZE_BYTES / n, a / n;
    assert a == n * r && VHD_BLOCK_SIZE_BYTES == n * q;
    RemainderFits(n, q, r);
    SectorInBlock(a);
    SectorsFit(OffsetOf(f), n);
  }

  lemma SectorsFit(offset: nat, n: nat)
    requires offset + n <= VHD_BLOCK_SIZE_BYTES && n % SECTOR_SIZE == 0
    ensures offset / SECTOR_SIZE + n / SECTOR_SIZE <= VHD_BLOCK_SIZE_SECTORS
  {
  }

  lemma SectorInBlock(a: nat)
    ensures (a / SECTOR_SIZE) % VHD_BLOCK_SIZE_SECTORS == (a % VHD_BLOCK_SIZE_BYTES) / SECTOR_SIZE
  {
  }

  /** A multiple of `n`, reduced by another one, is a whole step below it. */
  lemma RemainderFits(n: nat, q: nat, r: nat)
    requires n > 0 && q > 0 && n * q > 0
    ensures (n * r) % (n * q) + n <= n * q
  {
    var m := n * q;
    var k := (n * r) / m;
    assert n * r == m * k + (n * r) % m;
    assert m * k == n * (q * k);
    assert n * (r - q * k) == n * r - n * (q * k);
    var d := r - q * k;
    assert n * d == (n * r) % m < n * q;
    assert d >= q ==> n * d >= n * q;
    assert n * d + n == n * (d + 1);
    assert d + 1 <= q ==> n * (d + 1) <= n * q;
  }

  /** The sectors from `from` on are marked, `count` of them. */
  method MarkSectors(block: array<Byte>, from: nat, count: nat)
    requires block.Length == BITMAP_SIZE + VHD_BLOCK_SIZE_BYTES && from + count <= VHD_BLOCK_SIZE_SECTORS
    modifies block
    ensures forall s :: 0 <= s < VHD_BLOCK_SIZE_SECTORS ==>
              (Test(block[..], s) <==> from <= s < from + count || old(Test(block[..], s)))
    ensures block[BITMAP_SIZE..] == old(block[BITMAP_SIZE..])
  {
    hide TestBit, SetBit;
    for bitPos := 0 to count
      invariant forall s :: 0 <= s < VHD_BLOCK_SIZE_SECTORS ==>
                  (Test(block[..], s) <==> from <= s < from + bitPos || old(Test(block[..], s)))
      invariant block[BITMAP_SIZE..] == old(block[BITMAP_SIZE..])
    {
      var bit := from + bitPos;
      ghost var before := block[..];
      block[bit / 8] := SetBit(block[bit / 8], bit % 8);
      forall s | 0 <= s < VHD_BLOCK_SIZE_SECTORS ensures Test(block[..], s) <==> s == bit || Test(before, s) {
        SetBitSets(before[bit / 8], bit % 8, s % 8);
      }
    }
  }

  /** `insertFragmentInBlock`. */
  method InsertFragmentInBlock(fragmentSize: nat, fragment: Fragment, block: array<Byte>)
    requires fragmentSize > 0 && fragmentSize % SECTOR_SIZE == 0 && VHD_BLOCK_SIZE_BYTES % fragmentSize == 0
    requires fragment.logicalAddressBytes % fragmentSize == 0 && |fragment.data| == fragmentSize
    requires block.Length == BITMAP_SIZE + VHD_BLOCK_SIZE_BYTES
    modifies block
    ensures forall s :: 0 <= s < VHD_BLOCK_SIZE_SECTORS ==>
              (Test(block[..], s) <==> CoversSector(fragment, BlockOf(fragment), s) || old(Test(block[..], s)))
    ensures forall p :: 0 <= p < VHD_BLOCK_SIZE_BYTES ==>
              DataAt(block[..], p) == if CoversByte(fragment, BlockOf(fragment), p)
                then fragment.data[p - OffsetOf(fragment)]
                                      else old(DataAt(block[..], p))
  {
    hide OffsetOf, TestBit;
    FragmentFits(fragmentSize, fragment);
    var fragmentOffsetInBlock := (fragment.logicalAddressBytes / SECTOR_SIZE) % VHD_BLOCK_SIZE_SECTORS;
    MarkSectors(block, fragmentOffsetInBlock, fragmentSize / SECTOR_SIZE);
    ghost var marked := block[..];
    assert forall p :: 0 <= p < VHD_BLOCK_SIZE_BYTES ==> DataAt(marked, p) == old(block[BITMAP_SIZE..])[p];
    var offset := OffsetOf(fragment);
    CopyInto(block, BITMAP_SIZE + offset, fragment.data);
    forall s | 0 <= s < VHD_BLOCK_SIZE_SECTORS ensures Test(block[..], s) == Test(marked, s) {
      assert block[s / 8] == marked[s / 8];
    }
  }

  method CopyInto(block: array<Byte>, at: nat, data: Bytes)
    requires at + |data| <= block.Length
    modifies block
    ensures forall p :: 0 <= p < block.Length ==>
              block[p] == if at <= p < at + |data| then data[p - at] else old(block[p])
  {
    forall i | 0 <= i < |data| {
      block[at + i] := data[i];
    }
  }

  /** One more fragment. */
  lemma BlockGrows(frags: seq<Fragment>, k: nat, before: Bytes, after: Bytes)
    requires k < |frags| && IsBlock(frags, k, BlockOf(frags[k]), before) && |after| == |before|
    requires forall s :: 0 <= s < VHD_BLOCK_SIZE_SECTORS ==>
      (Test(after, s) <==> CoversSector(frags[k], BlockOf(frags[k]), s) || Test(before, s))
    requires forall p :: 0 <= p < VHD_BLOCK_SIZE_BYTES ==>
      DataAt(after, p) == if CoversByte(frags[k], BlockOf(frags[k]), p) then frags[k].data[p - OffsetOf(frags[k])]
                          else DataAt(before, p)
    ensures IsBlock(frags, k + 1, BlockOf(frags[k]), after)
  {
    hide Test, CoversSector, OffsetOf;
    var b := BlockOf(frags[k]);
    forall s | 0 <= s < VHD_BLOCK_SIZE_SECTORS ensures Test(after, s) <==> Covered(frags, k + 1, b, s) {
      assert Covered(frags, k + 1, b, s) <==> CoversSector(frags[k], b, s) || Covered(frags, k, b, s);
    }
    forall p | 0 <= p < VHD_BLOCK_SIZE_BYTES ensures DataAt(after, p) == ByteAt(frags, k + 1, b, p) {
      assert DataAt(before, p) == ByteAt(frags, k, b, p);
    }
  }

  /** The fragments of other blocks leave a block alone. */
  lemma {:induction false} BlockStays(frags: seq<Fragment>, i: nat, k: nat, b: nat, block: Bytes)
    requires i <= k <= |frags| && IsBlock(frags, i, b, block)
    requires forall j :: i <= j < k ==> BlockOf(frags[j]) != b
    ensures IsBlock(frags, k, b, block)
    decreases k
  {
    hide Test;
    if i < k {
      BlockStays(frags, i, k - 1, b, block);
      assert BlockOf(frags[k - 1]) != b;
      forall s | 0 <= s < VHD_BLOCK_SIZE_SECTORS ensures Test(block, s) <==> Covered(frags, k, b, s) {
        assert Covered(frags, k, b, s) <==> Covered(frags, k - 1, b, s);
      }
      forall p | 0 <= p < VHD_BLOCK_SIZE_BYTES ensures DataAt(block, p) == ByteAt(frags, k, b, p) {
        assert ByteAt(frags, k, b, p) == ByteAt(frags, k - 1, b, p);
      }
    }
  }

  lemma EmptyBlock(frags: seq<Fragment>, k: nat, b: nat, block: Bytes)
    requires k <= |frags| && |block| == BITMAP_SIZE + VHD_BLOCK_SIZE_BYTES
    requires forall p :: 0 <= p < |block| ==> block[p] == 0
    requires forall j :: 0 <= j < k ==> BlockOf(frags[j]) != b
    ensures IsBlock(frags, k, b, block)
  {
    hide TestBit;
    forall s | 0 <= s < VHD_BLOCK_SIZE_SECTORS ensures !Test(block, s) {
      ZeroIsClear(s % 8);
    }
    BlockStays(frags, 0, k, b, block);
  }

  // ----- the table

  /** The sector of a block when the first one is at sector `first`. */
  function BatEntry(frags: seq<Fragment>, first: nat, b: nat): nat {
    if Last(frags, b) >= 0 then first + Rank(frags, b) * FULL_SECTORS else BLOCK_UNUSED
  }

  ghost predicate IsBat(frags: seq<Fragment>, first: nat, bat: seq<nat>, placed: nat) {
    forall b :: 0 <= b < |bat| ==>
      bat[b] == if Last(frags, b) >= 0 && Rank(frags, b) < placed then BatEntry(frags, first, b) else BLOCK_UNUSED
  }

  /** The addresses, in units of the size of a fragment, announce the fragments. */
  ghost predicate Announced(fragmentSize: nat, addresses: seq<nat>, frags: seq<Fragment>) {
    && |addresses| == |frags|
    && forall i :: 0 <= i < |frags| ==> addresses[i] * fragmentSize == frags[i].logicalAddressBytes
  }

  ghost predicate LastAddresses(frags: seq<Fragment>, k: nat, last: map<nat, nat>) {
    && (forall b :: b in last <==> Last(frags, b) >= k)
    && (forall b :: b in last ==> last[b] == frags[Last(frags, b)].logicalAddressBytes)
  }

  /** The blocks met from the right, the last one first. */
  ghost predicate FromRight(frags: seq<Fragment>, k: nat, blocks: seq<nat>)
    requires k <= |frags|
  {
    var order := Order(frags, |frags|);
    && |order| == |Order(frags, k)| + |blocks|
    && forall j :: 0 <= j < |blocks| ==> blocks[j] == order[|order| - 1 - j]
  }

  lemma FromRightStep(frags: seq<Fragment>, k: nat, blocks: seq<nat>)
    requires 0 < k <= |frags| && FromRight(frags, k, blocks)
    ensures FromRight(frags, k - 1, if IsLast(frags, k - 1) then blocks + [BlockOf(frags[k - 1])] else blocks)
  {
    hide Last;
    OrderPrefix(frags, k, |frags|);
  }

  /** The first pass of `createBAT`. */
  method LastFragments(fragmentSize: nat, addresses: seq<nat>, ghost frags: seq<Fragment>)
      returns (last: map<nat, nat>, blocks: seq<nat>)
    requires Announced(fragmentSize, addresses, frags)
    ensures LastAddresses(frags, 0, last) && FromRight(frags, 0, blocks)
  {
    hide Order, Last;
    last, blocks := map[], [];
    var k := |addresses|;
    while k > 0
      invariant 0 <= k <= |frags| && LastAddresses(frags, k, last) && FromRight(frags, k, blocks)
    {
      FromRightStep(frags, k, blocks);
      k := k - 1;
      LastOfOwn(frags, k);
      var vhdTableIndex := addresses[k] * fragmentSize / VHD_BLOCK_SIZE_BYTES;
      assert vhdTableIndex == BlockOf(frags[k]);
      if vhdTableIndex !in last {
        last := last[vhdTableIndex := addresses[k] * fragmentSize];
        blocks := blocks + [vhdTableIndex];
      }
      LastStep(frags, k);
    }
  }

  lemma LastStep(frags: seq<Fragment>, k: nat)
    requires k < |frags|
    ensures forall b :: Last(frags, b) == k ==> b == BlockOf(frags[k])
  {
  }

  lemma BatStep(frags: seq<Fragment>, first: nat, bat: seq<nat>, r: nat, b: nat)
    requires IsBat(frags, first, bat, r) && r < |Order(frags, |frags|)| && b == Order(frags, |frags|)[r] && b < |bat|
    ensures Last(frags, b) >= 0 && Rank(frags, b) == r && bat[b] == BLOCK_UNUSED
    ensures IsBat(frags, first, bat[b := first + r * FULL_SECTORS], r + 1)
  {
    hide Last, Order, Rank;
    OrderRanks(frags, |frags|, r);
    forall c: nat | Last(frags, c) >= 0 && Rank(frags, c) == r ensures c == b {
      RankIs(frags, c, |frags|);
    }
  }

  /** Every block of a fragment has an entry. */
  lemma OrderFits(fragmentSize: nat, frags: seq<Fragment>, entries: nat, r: nat)
    requires ValidInput(fragmentSize, frags, entries) && r < |Order(frags, |frags|)|
    ensures Order(frags, |frags|)[r] < entries
  {
    hide Order, Last;
    OrderRanks(frags, |frags|, r);
    var b := Order(frags, |frags|)[r];
    assert BlockOf(frags[Last(frags, b)]) == b;
  }

  /** `createBAT`: the blocks get consecutive places in the order of their last fragments. */
  method CreateBat(fragmentSize: nat, addresses: seq<nat>, ghost frags: seq<Fragment>, firstBlockPosition: nat,
                   bat: array<nat>)
      returns (end: nat, last: map<nat, nat>)
    requires ValidInput(fragmentSize, frags, bat.Length) && Announced(fragmentSize, addresses, frags)
    requires forall b :: 0 <= b < bat.Length ==> bat[b] == BLOCK_UNUSED
    requires firstBlockPosition / SECTOR_SIZE + |Order(frags, |frags|)| * FULL_SECTORS <= BLOCK_UNUSED
    modifies bat
    ensures IsBat(frags, firstBlockPosition / SECTOR_SIZE, bat[..], |Order(frags, |frags|)|)
    ensures end == firstBlockPosition / SECTOR_SIZE + |Order(frags, |frags|)| * FULL_SECTORS
    ensures LastAddresses(frags, 0, last)
  {
    hide ValidInput, Announced, IsBat, Order, LastAddresses, FromRight;
    var blocks;
    last, blocks := LastFragments(fragmentSize, addresses, frags);
    end := firstBlockPosition / SECTOR_SIZE;
    ghost var first, order := end, Order(frags, |frags|);
    NothingPlaced(frags, first, bat[..]);
    Reversed(frags, blocks);
    var j := |blocks|;
    while j > 0
      invariant 0 <= j <= |blocks| == |order|
      invariant IsBat(frags, first, bat[..], |blocks| - j) && end == first + (|blocks| - j) * FULL_SECTORS
    {
      j := j - 1;
      PlaceBlock(fragmentSize, frags, first, |blocks| - 1 - j, blocks[j], end, bat);
      end := end + (BITMAP_SIZE + VHD_BLOCK_SIZE_BYTES) / SECTOR_SIZE;
    }
  }

  lemma NothingPlaced(frags: seq<Fragment>, first: nat, bat: seq<nat>)
    requires forall b :: 0 <= b < |bat| ==> bat[b] == BLOCK_UNUSED
    ensures IsBat(frags, first, bat, 0) && Order(frags, 0) == []
  {
  }

  lemma Reversed(frags: seq<Fragment>, blocks: seq<nat>)
    requires FromRight(frags, 0, blocks) && Order(frags, 0) == []
    ensures |blocks| == |Order(frags, |frags|)|
    ensures forall j :: 0 <= j < |blocks| ==> blocks[j] == Order(frags, |frags|)[|blocks| - 1 - j]
  {
  }

  method PlaceBlock(ghost fragmentSize: nat, ghost frags: seq<Fragment>, ghost first: nat, ghost r: nat,
                    vhdTableIndex: nat,
                    currentVhdPositionSector: nat, bat: array<nat>)
    requires ValidInput(fragmentSize, frags, bat.Length) && IsBat(frags, first, bat[..], r)
    requires r < |Order(frags, |frags|)| && vhdTableIndex == Order(frags, |frags|)[r]
    requires currentVhdPositionSector == first + r * FULL_SECTORS
    modifies bat
    ensures IsBat(frags, first, bat[..], r + 1)
  {
    hide *;
    OrderFits(fragmentSize, frags, bat.Length, r);
    BatStep(frags, first, bat[..], r, vhdTableIndex);
    ghost var before := bat[..];
    if bat[vhdTableIndex] == BLOCK_UNUSED {
      bat[vhdTableIndex] := currentVhdPositionSector;
    }
    assert bat[..] == before[vhdTableIndex := currentVhdPositionSector];
  }

  // ----- sending the blocks

  /** The blocks that wait for fragments and those sent, when each was sent behind its last fragment. */
  ghost predicate InOrder(frags: seq<Fragment>, k: nat, waiting: map<nat, Bytes>, sent: seq<Bytes>)
    requires k <= |frags|
  {
    && (forall b :: b in waiting ==> IsBlock(frags, k, b, waiting[b]) && Last(frags, b) >= k)
    && (forall j :: 0 <= j < k && Last(frags, BlockOf(frags[j])) >= k ==> BlockOf(frags[j]) in waiting)
    && |sent| == |Order(frags, k)|
    && forall r :: 0 <= r < |sent| ==> IsBlock(frags, k, Order(frags, k)[r], sent[r])
  }

  lemma NotYetMet(frags: seq<Fragment>, k: nat, waiting: map<nat, Bytes>, sent: seq<Bytes>)
    requires k < |frags| && InOrder(frags, k, waiting, sent) && BlockOf(frags[k]) !in waiting
    ensures forall j :: 0 <= j < k ==> BlockOf(frags[j]) != BlockOf(frags[k])
  {
    hide Last, Order, IsBlock;
    LastOfOwn(frags, k);
  }

  /** A block that a fragment does not belong to. */
  lemma StaysOne(frags: seq<Fragment>, k: nat, b: nat, block: Bytes)
    requires k < |frags| && IsBlock(frags, k, b, block) && BlockOf(frags[k]) != b
    ensures IsBlock(frags, k + 1, b, block)
  {
    hide IsBlock;
    BlockStays(frags, k, k + 1, b, block);
  }

  lemma SentStay(frags: seq<Fragment>, k: nat, sent: seq<Bytes>, r: nat)
    requires k < |frags| && r < |sent| == |Order(frags, k)| && IsBlock(frags, k, Order(frags, k)[r], sent[r])
    ensures r < |Order(frags, k + 1)| && Order(frags, k + 1)[r] == Order(frags, k)[r]
    ensures IsBlock(frags, k + 1, Order(frags, k)[r], sent[r])
  {
    hide IsBlock;
    OrderPrefix(frags, k, k + 1);
    OrderRanks(frags, k, r);
    StaysOne(frags, k, Order(frags, k)[r], sent[r]);
  }

  /** One more fragment; its block, now `after`, is sent if this was its last one. */
  lemma InOrderStep(frags: seq<Fragment>, k: nat, waiting: map<nat, Bytes>, sent: seq<Bytes>, after: Bytes)
    requires k < |frags| && InOrder(frags, k, waiting, sent) && IsBlock(frags, k + 1, BlockOf(frags[k]), after)
    ensures var b := BlockOf(frags[k]);
      if IsLast(frags, k) then InOrder(frags, k + 1, waiting - {b}, sent + [after])
      else InOrder(frags, k + 1, waiting[b := after], sent)
  {
    hide IsBlock, Last, BlockOf;
    var b := BlockOf(frags[k]);
    var waiting' := if IsLast(frags, k) then waiting - {b} else waiting[b := after];
    var sent' := if IsLast(frags, k) then sent + [after] else sent;
    LastOfOwn(frags, k);
    LastStep(frags, k);
    forall c | c in waiting' ensures IsBlock(frags, k + 1, c, waiting'[c]) && Last(frags, c) >= k + 1 {
      if c != b {
        StaysOne(frags, k, c, waiting[c]);
      }
    }
    forall r | 0 <= r < |sent'|
      ensures |sent'| == |Order(frags, k + 1)| && IsBlock(frags, k + 1, Order(frags, k + 1)[r], sent'[r])
    {
      if r < |sent| {
        SentStay(frags, k, sent, r);
      }
    }
  }

  /** At the end nothing waits. */
  lemma InOrderEnds(frags: seq<Fragment>, waiting: map<nat, Bytes>, sent: seq<Bytes>)
    requires InOrder(frags, |frags|, waiting, sent)
    ensures waiting == map[]
  {
    hide IsBlock, Order;
    assert forall b :: b in waiting ==> Last(frags, b) < |frags|;
  }

  /** Fills the buffer of one block; when it held the first `k` fragments it holds one more. */
  method Fill(fragmentSize: nat, frags: seq<Fragment>, ghost entries: nat, k: nat, block: array<Byte>)
    requires ValidInput(fragmentSize, frags, entries) && k < |frags|
      && block.Length == BITMAP_SIZE + VHD_BLOCK_SIZE_BYTES
    modifies block
    ensures old(IsBlock(frags, k, BlockOf(frags[k]), block[..])) ==> IsBlock(frags, k + 1, BlockOf(frags[k]), block[..])
  {
    hide IsBlock, Test, CoversSector, OffsetOf;
    ghost var before := block[..];
    InsertFragmentInBlock(fragmentSize, frags[k], block);
    if IsBlock(frags, k, BlockOf(frags[k]), before) {
      BlockGrows(frags, k, before, block[..]);
    }
  }

  /** The table is written and has room for everything. */
  ghost predicate TableReady(frags: seq<Fragment>, first: nat, bat: seq<nat>, last: map<nat, nat>) {
    && IsBat(frags, first, bat, |Order(frags, |frags|)|) && LastAddresses(frags, 0, last)
    && first + |Order(frags, |frags|)| * FULL_SECTORS <= BLOCK_UNUSED
  }

  /** The place of the block of a fragment, and the test for its last one, as the writer sees them. */
  lemma TableSays(fragmentSize: nat, frags: seq<Fragment>, first: nat, bat: seq<nat>, last: map<nat, nat>, k: nat)
    requires ValidInput(fragmentSize, frags, |bat|) && TableReady(frags, first, bat, last) && k < |frags|
    ensures var b := BlockOf(frags[k]);
      && b < |bat| && Last(frags, b) >= 0 && bat[b] == first + Rank(frags, b) * FULL_SECTORS && bat[b] != BLOCK_UNUSED
      && b in last && (last[b] == frags[k].logicalAddressBytes <==> IsEvent(frags, k))
  {
    hide Last, Order;
    LastOfOwn(frags, k);
    RankIs(frags, BlockOf(frags[k]), |frags|);
  }

  /** The block of a fragment, made when there is none, with the fragment in it. */
  method TakeFragment(fragmentSize: nat, frags: seq<Fragment>, ghost entries: nat, k: nat,
                      batIndexToBlockMap: map<nat, Bytes>)
      returns (block: Bytes)
    requires ValidInput(fragmentSize, frags, entries) && k < |frags|
    requires forall b :: b in batIndexToBlockMap ==> |batIndexToBlockMap[b]| == BITMAP_SIZE + VHD_BLOCK_SIZE_BYTES
    ensures forall sent :: InOrder(frags, k, batIndexToBlockMap, sent) ==>
      IsBlock(frags, k + 1, BlockOf(frags[k]), block)
    ensures |block| == BITMAP_SIZE + VHD_BLOCK_SIZE_BYTES
  {
    hide IsBlock, InOrder, ValidInput, BlockOf;
    var batIndex := BlockOf(frags[k]);
    var buffer: array<Byte>;
    if batIndex in batIndexToBlockMap {
      buffer := BufferOf(batIndexToBlockMap[batIndex]);
    } else {
      buffer := new Byte[BITMAP_SIZE + VHD_BLOCK_SIZE_BYTES](_ => 0);
    }
    ghost var before := buffer[..];
    forall sent | InOrder(frags, k, batIndexToBlockMap, sent) ensures IsBlock(frags, k, batIndex, before) {
      BufferIsBlock(frags, k, batIndexToBlockMap, sent, before);
    }
    Fill(fragmentSize, frags, entries, k, buffer);
    block := buffer[..];
  }

  method BufferOf(block: Bytes) returns (buffer: array<Byte>)
    ensures fresh(buffer) && buffer[..] == block
  {
    buffer := new Byte[|block|](i requires 0 <= i < |block| => block[i]);
  }

  lemma BufferIsBlock(frags: seq<Fragment>, k: nat, waiting: map<nat, Bytes>, sent: seq<Bytes>, block: Bytes)
    requires k < |frags| && InOrder(frags, k, waiting, sent)
    requires if BlockOf(frags[k]) in waiting then block == waiting[BlockOf(frags[k])]
             else |block| == BITMAP_SIZE + VHD_BLOCK_SIZE_BYTES && forall p :: 0 <= p < |block| ==> block[p] == 0
    ensures IsBlock(frags, k, BlockOf(frags[k]), block)
  {
    hide IsBlock;
    if BlockOf(frags[k]) !in waiting {
      NotYetMet(frags, k, waiting, sent);
      EmptyBlock(frags, k, BlockOf(frags[k]), block);
    } else {
    }
  }

  /** The position reached is that of the table exactly when the block is in its place. */
  lemma PositionIs(frags: seq<Fragment>, start: nat, first: nat, sent: nat, k: nat, sector: nat, position: nat)
    requires StartsAt(start, first) && k < |frags| && sent == Count(frags, k) && Last(frags, BlockOf(frags[k])) >= 0
    requires sector == first + Rank(frags, BlockOf(frags[k])) * FULL_SECTORS && After(start, sent, position)
    ensures position == FirstByte(sector) <==> InPlace(frags, k)
  {
  }

  /** The data starts with a sector. */
  predicate StartsAt(start: nat, first: nat) {
    start == first * SECTOR_SIZE
  }

  /** The position after `n` blocks. */
  predicate After(start: nat, n: nat, position: nat) {
    position == start + n * (BITMAP_SIZE + VHD_BLOCK_SIZE_BYTES)
  }

  function FirstByte(sector: nat): nat {
    sector * SECTOR_SIZE
  }

  lemma CountStep(frags: seq<Fragment>, k: nat)
    requires k < |frags|
    ensures Count(frags, k + 1) == Count(frags, k) + if IsEvent(frags, k) then 1 else 0
    ensures AllInPlace(frags, k + 1) <==> AllInPlace(frags, k) && (IsEvent(frags, k) ==> InPlace(frags, k))
    ensures AllInPlace(frags, |frags|) ==> AllInPlace(frags, k + 1)
    ensures LastAddressesAreUnique(frags) ==> (IsEvent(frags, k) <==> IsLast(frags, k))
  {
    hide Last, IsEvent, InPlace;
    if IsLast(frags, k) {
      LastIsEvent(frags, k);
    }
  }

  lemma WithoutAgain(m: map<nat, Bytes>, b: nat, x: Bytes)
    ensures m[b := x] - {b} == m - {b}
  {
  }

  /**
   `generateBlocks`: sends every block behind its last fragment; not `ok` when the position
   reached is not the one in the table, where the source throws.  `left` holds the blocks
   still waiting at the end.
   */
  method GenerateBlocks(fragmentSize: nat, frags: seq<Fragment>, bat: seq<nat>, last: map<nat, nat>, start: nat,
                        ghost first: nat)
      returns (sent: seq<Bytes>, ok: bool, left: map<nat, Bytes>)
    requires ValidInput(fragmentSize, frags, |bat|) && StartsAt(start, first)
    requires TableReady(frags, first, bat, last)
    ensures ok <==> LastAddressesAreUnique(frags)
    ensures ok ==> left == map[] && Complete(frags, sent)
  {
    hide *;
    sent := [];
    var position := start;
    var batIndexToBlockMap: map<nat, Bytes> := map[];
    BlocksInPlaceIff(frags);
    SendStarts(frags, start, batIndexToBlockMap);
    for k := 0 to |frags|
      invariant Sending(frags, k, start, position, batIndexToBlockMap, sent)
    {
      ok, batIndexToBlockMap, sent, position :=
        SendFragment(fragmentSize, frags, bat, last, start, first, k, position, batIndexToBlockMap, sent);
      if !ok {
        left := batIndexToBlockMap;
        return;
      }
    }
    ok, left := true, batIndexToBlockMap;
    AllSent(frags, start, position, batIndexToBlockMap, sent);
  }

  /** All the blocks, in the order of their last fragments, each with all its fragments. */
  ghost predicate Complete(frags: seq<Fragment>, sent: seq<Bytes>) {
    && |sent| == |Order(frags, |frags|)|
    && forall r :: 0 <= r < |sent| ==> IsBlock(frags, |frags|, Order(frags, |frags|)[r], sent[r])
  }

  /** What happens to one fragment; not `ok` when a block would be sent at the wrong position. */
  method SendFragment(fragmentSize: nat, frags: seq<Fragment>, bat: seq<nat>, last: map<nat, nat>, ghost start: nat,
                      ghost first: nat,
                      k: nat, position: nat, batIndexToBlockMap: map<nat, Bytes>, sent: seq<Bytes>)
      returns (ok: bool, batIndexToBlockMap': map<nat, Bytes>, sent': seq<Bytes>, position': nat)
    requires ValidInput(fragmentSize, frags, |bat|) && StartsAt(start, first)
    requires TableReady(frags, first, bat, last) && k < |frags|
    requires Sending(frags, k, start, position, batIndexToBlockMap, sent)
    ensures ok ==> Sending(frags, k + 1, start, position', batIndexToBlockMap', sent')
    ensures !ok ==> !AllInPlace(frags, |frags|)
  {
    var batIndex := BlockOf(frags[k]);
    assert forall b :: b in batIndexToBlockMap ==> |batIndexToBlockMap[b]| == BITMAP_SIZE + VHD_BLOCK_SIZE_BYTES;
    var block := TakeFragment(fragmentSize, frags, |bat|, k, batIndexToBlockMap);
    SendStep(fragmentSize, frags, bat, last, start, first, k, position, batIndexToBlockMap, sent, block);
    ok, batIndexToBlockMap', sent', position' := true, batIndexToBlockMap[batIndex := block], sent, position;
    if last[batIndex] == frags[k].logicalAddressBytes {
      batIndexToBlockMap' := batIndexToBlockMap' - {batIndex};
      if position == FirstByte(bat[batIndex]) {
        sent', position' := sent + [block], position + |block|;
      } else {
        ok := false;
      }
    }
  }

  /** The state of the writer after `k` fragments. */
  ghost predicate Sending(frags: seq<Fragment>, k: nat, start: nat, position: nat, waiting: map<nat, Bytes>,
                          sent: seq<Bytes>)
    requires k <= |frags|
  {
    && (forall b :: b in waiting ==> |waiting[b]| == BITMAP_SIZE + VHD_BLOCK_SIZE_BYTES)
    && After(start, |sent|, position) && |sent| == Count(frags, k) && AllInPlace(frags, k)
    && (LastAddressesAreUnique(frags) ==> InOrder(frags, k, waiting, sent))
  }

  lemma SendStarts(frags: seq<Fragment>, start: nat, waiting: map<nat, Bytes>)
    requires waiting == map[]
    ensures Sending(frags, 0, start, start, waiting, [])
  {
  }

  /** One more fragment, which may be the last one of its block. */
  lemma SendStep(fragmentSize: nat, frags: seq<Fragment>, bat: seq<nat>, last: map<nat, nat>, start: nat, first: nat,
                 k: nat, position: nat,
                 waiting: map<nat, Bytes>, sent: seq<Bytes>, after: Bytes)
    requires ValidInput(fragmentSize, frags, |bat|) && StartsAt(start, first)
    requires TableReady(frags, first, bat, last) && k < |frags| && Sending(frags, k, start, position, waiting, sent)
    requires |after| == BITMAP_SIZE + VHD_BLOCK_SIZE_BYTES
    requires InOrder(frags, k, waiting, sent) ==> IsBlock(frags, k + 1, BlockOf(frags[k]), after)
    ensures var b := BlockOf(frags[k]);
      && b < |bat| && b in last
      && if last[b] != frags[k].logicalAddressBytes
           then Sending(frags, k + 1, start, position, waiting[b := after], sent)
         else if position == FirstByte(bat[b]) then
           Sending(frags, k + 1, start, position + |after|, waiting[b := after] - {b}, sent + [after])
         else !AllInPlace(frags, |frags|)
  {
    hide InOrder, IsBlock, Count, AllInPlace, LastAddressesAreUnique, IsEvent, IsLast, InPlace, After, ValidInput,
      TableReady, BlockOf, Rank, Last;
    var b := BlockOf(frags[k]);
    TableSays(fragmentSize, frags, first, bat, last, k);
    CountStep(frags, k);
    WithoutAgain(waiting, b, after);
    PositionIs(frags, start, first, |sent|, k, bat[b], position);
    AfterOneMore(start, |sent|, position);
    if LastAddressesAreUnique(frags) {
      InOrderStep(frags, k, waiting, sent, after);
    }
  }

  lemma AfterOneMore(start: nat, n: nat, position: nat)
    requires After(start, n, position)
    ensures After(start, n + 1, position + (BITMAP_SIZE + VHD_BLOCK_SIZE_BYTES))
  {
  }

  lemma AllSent(frags: seq<Fragment>, start: nat, position: nat, waiting: map<nat, Bytes>, sent: seq<Bytes>)
    requires Sending(frags, |frags|, start, position, waiting, sent)
    ensures AllInPlace(frags, |frags|)
    ensures LastAddressesAreUnique(frags) ==> waiting == map[] && Complete(frags, sent)
  {
    hide IsBlock, Order;
    if LastAddressesAreUnique(frags) {
      InOrderEnds(frags, waiting, sent);
    }
  }

  // ----- the whole stream

  /** The position where a chunk starts. */
  function Start(chunks: seq<Bytes>, i: nat): nat
    requires i <= |chunks|
  {
    if i == 0 then 0 else Start(chunks, i - 1) + |chunks[i - 1]|
  }

  function Bytes32(n: nat): (b: Bytes)
    requires n <= 0xffff_ffff
    ensures |b| == 4
  {
    [n / 0x100_0000, n / 0x1_0000 % 0x100, n / 0x100 % 0x100, n % 0x100]
  }

  ghost predicate EntriesAreUInt32(bat: seq<nat>) {
    forall b :: 0 <= b < |bat| ==> bat[b] <= 0xffff_ffff
  }

  function TableBytes(bat: seq<nat>): (b: Bytes)
    requires EntriesAreUInt32(bat)
    ensures |b| == 4 * |bat|
  {
    if bat == [] then []
    else
      assert bat[|bat| - 1] <= 0xffff_ffff;
      TableBytes(bat[..|bat| - 1]) + Bytes32(bat[|bat| - 1])
  }

  lemma BatIsUInt32(frags: seq<Fragment>, first: nat, bat: seq<nat>, last: map<nat, nat>)
    requires TableReady(frags, first, bat, last)
    ensures EntriesAreUInt32(bat)
  {
    forall b | 0 <= b < |bat| ensures bat[b] <= 0xffff_ffff {
      EntryIsUsed(frags, first, bat, last, b);
    }
  }

  lemma {:induction false} StartOfBlock(chunks: seq<Bytes>, sent: seq<Bytes>, r: nat)
    requires 3 + r <= |chunks| && r <= |sent| && (forall i :: 0 <= i < r ==> chunks[3 + i] == sent[i])
    requires forall i :: 0 <= i < r ==> |sent[i]| == BITMAP_SIZE + VHD_BLOCK_SIZE_BYTES
    ensures Start(chunks, 3 + r) == Start(chunks, 3) + r * (BITMAP_SIZE + VHD_BLOCK_SIZE_BYTES)
  {
    if r > 0 {
      StartOfBlock(chunks, sent, r - 1);
      assert chunks[3 + (r - 1)] == sent[r - 1];
    }
  }

  /** Every block is at the position that the table gives, and has all its fragments. */
  ghost predicate BlocksAreWhereTableSays(frags: seq<Fragment>, bat: seq<nat>, chunks: seq<Bytes>) {
    forall b :: 0 <= b < |bat| ==>
      if bat[b] == BLOCK_UNUSED then Last(frags, b) < 0 else BlockIsAt(frags, b, bat[b], chunks)
  }

  ghost predicate BlockIsAt(frags: seq<Fragment>, b: nat, sector: nat, chunks: seq<Bytes>) {
    && Last(frags, b) >= 0 && 3 + Rank(frags, b) < |chunks|
    && Start(chunks, 3 + Rank(frags, b)) == FirstByte(sector)
    && IsBlock(frags, |frags|, b, chunks[3 + Rank(frags, b)])
  }

  lemma EntryIsUsed(frags: seq<Fragment>, first: nat, bat: seq<nat>, last: map<nat, nat>, b: nat)
    requires TableReady(frags, first, bat, last) && b < |bat|
    ensures if Last(frags, b) >= 0 then bat[b] == first + Rank(frags, b) * FULL_SECTORS < BLOCK_UNUSED
      && Rank(frags, b) < |Order(frags, |frags|)|
            else bat[b] == BLOCK_UNUSED
  {
    hide LastAddresses, Last, Order;
    if Last(frags, b) >= 0 {
      RankIs(frags, b, |frags|);
    }
  }

  /** The chunks are the head, the blocks and a footer. */
  ghost predicate Assembled(chunks: seq<Bytes>, sent: seq<Bytes>, footer: Bytes) {
    && |chunks| == 4 + |sent| && chunks[3 + |sent|] == footer
    && (forall i :: 0 <= i < |sent| ==> chunks[3 + i] == sent[i])
    && (forall i :: 0 <= i < |sent| ==> |sent[i]| == BITMAP_SIZE + VHD_BLOCK_SIZE_BYTES)
  }

  lemma IsAssembled(frags: seq<Fragment>, head: seq<Bytes>, sent: seq<Bytes>, footer: Bytes)
    requires |head| == 3 && Complete(frags, sent)
    ensures Assembled(head + sent + [footer], sent, footer)
  {
    hide Test, ByteAt, Order, Covered;
    var chunks := head + sent + [footer];
    assert forall i :: 0 <= i < |sent| ==> chunks[3 + i] == sent[i];
  }

  lemma BlockIsThere(frags: seq<Fragment>, first: nat, sector: nat, chunks: seq<Bytes>, sent: seq<Bytes>,
                     footer: Bytes, b: nat)
    requires Complete(frags, sent) && Assembled(chunks, sent, footer) && Start(chunks, 3) == first * SECTOR_SIZE
    requires Last(frags, b) >= 0 && sector == first + Rank(frags, b) * FULL_SECTORS
    ensures BlockIsAt(frags, b, sector, chunks)
  {
    hide IsBlock, Last, Start, Order;
    RankIs(frags, b, |frags|);
    StartOfBlock(chunks, sent, Rank(frags, b));
  }

  lemma BlocksAreThere(frags: seq<Fragment>, first: nat, bat: seq<nat>, last: map<nat, nat>, chunks: seq<Bytes>,
                       sent: seq<Bytes>, footer: Bytes)
    requires TableReady(frags, first, bat, last) && Complete(frags, sent) && Assembled(chunks, sent, footer)
    requires Start(chunks, 3) == first * SECTOR_SIZE
    ensures BlocksAreWhereTableSays(frags, bat, chunks)
  {
    hide TableReady, Complete, Assembled, Start, Last, Order, Rank, BlockIsAt;
    forall b | 0 <= b < |bat|
      ensures if bat[b] == BLOCK_UNUSED then Last(frags, b) < 0 else BlockIsAt(frags, b, bat[b], chunks)
    {
      EntryIsUsed(frags, first, bat, last, b);
      if Last(frags, b) >= 0 {
        BlockIsThere(frags, first, bat[b], chunks, sent, footer, b);
      }
    }
  }

  lemma EndOfStream(frags: seq<Fragment>, first: nat, chunks: seq<Bytes>, sent: seq<Bytes>, footer: Bytes)
    requires Complete(frags, sent) && Assembled(chunks, sent, footer) && Start(chunks, 3) == first * SECTOR_SIZE
    ensures Start(chunks, |chunks|) == (first + |Order(frags, |frags|)| * FULL_SECTORS) * SECTOR_SIZE + |footer|
  {
    hide IsBlock, Order;
    StartOfBlock(chunks, sent, |sent|);
  }

  function TablePhysicalSize(maxTableEntries: nat): nat {
    (maxTableEntries * 4 + SECTOR_SIZE - 1) / SECTOR_SIZE * SECTOR_SIZE
  }

  /** The two checks of the size of a fragment: it divides a block, into 53 parts at most. */
  predicate SizeAccepted(fragmentSize: nat) {
    fragmentSize > 0 && VHD_BLOCK_SIZE_BYTES % fragmentSize == 0 && VHD_BLOCK_SIZE_BYTES / fragmentSize <= 53
  }

  /** Fragments of one size, for blocks that have an entry in the table. */
  ghost predicate ConstantSized(fragmentSize: nat, frags: seq<Fragment>, entries: nat) {
    fragmentSize > 0 && forall i :: 0 <= i < |frags| ==> |frags[i].data| == fragmentSize && BlockOf(frags[i]) < entries
  }

  lemma {:induction false} FactorIsPower(r: nat, f: nat, p: nat)
    requires IsPowerOfTwo(p) && r * f == p
    ensures IsPowerOfTwo(f)
    decreases p
  {
    if f > 1 {
      assert r > 0 && p > 1;
      if f % 2 == 0 {
        assert p == 2 * (r * (f / 2));
        FactorIsPower(r, f / 2, p / 2);
      } else {
        OddFactor(r, f);
        assert p == 2 * ((r / 2) * f);
        FactorIsPower(r / 2, f, p / 2);
      }
    }
  }

  lemma OddFactor(r: nat, f: nat)
    requires f % 2 == 1 && r * f % 2 == 0
    ensures r % 2 == 0
  {
    assert r * f == 2 * (r * (f / 2)) + r;
  }

  /** An accepted size is a whole number of sectors, so that the assertion on the addresses always holds. */
  lemma AcceptedIsAligned(fragmentSize: nat)
    requires SizeAccepted(fragmentSize)
    ensures fragmentSize % SECTOR_SIZE == 0
  {
    var r := VHD_BLOCK_SIZE_BYTES / fragmentSize;
    assert r * fragmentSize == VHD_BLOCK_SIZE_BYTES;
    assert fragmentSize < SECTOR_SIZE ==> r * fragmentSize <= 53 * SECTOR_SIZE;
    BlockIsPower();
    FactorIsPower(r, fragmentSize, VHD_BLOCK_SIZE_BYTES);
    PowersDivide(fragmentSize, SECTOR_SIZE);
  }

  lemma BlockIsPower()
    ensures IsPowerOfTwo(VHD_BLOCK_SIZE_BYTES) && IsPowerOfTwo(SECTOR_SIZE)
  {
    assert IsPowerOfTwo(0x8);
    ProductIsPower(0x8, 0x8);
    ProductIsPower(0x40, 0x8);
    ProductIsPower(0x200, 0x8);
    ProductIsPower(0x1000, 0x200);
  }

  lemma AcceptedIsValid(fragmentSize: nat, addresses: seq<nat>, frags: seq<Fragment>, entries: nat)
    requires SizeAccepted(fragmentSize) && ConstantSized(fragmentSize, frags, entries)
      && Announced(fragmentSize, addresses, frags)
    ensures ValidInput(fragmentSize, frags, entries)
  {
    hide SizeAccepted;
    AcceptedIsAligned(fragmentSize);
    AcceptedDivides(fragmentSize);
    forall i | 0 <= i < |frags| ensures frags[i].logicalAddressBytes % fragmentSize == 0 {
      MultipleHasNoRest(addresses[i], fragmentSize);
    }
  }

  lemma AcceptedDivides(fragmentSize: nat)
    requires SizeAccepted(fragmentSize)
    ensures VHD_BLOCK_SIZE_BYTES % fragmentSize == 0
  {
  }

  /**
   `createReadableSparseStream`, once the footer and the header are packed.  When it does not
   throw, what it sends has the announced length and every entry of the table leads to its
   block.
   */
  method CreateReadableSparseStream(footer: Bytes, header: Bytes, maxTableEntries: nat, fragmentSize: nat,
                                    addresses: seq<nat>,
                                    frags: seq<Fragment>)
      returns (chunks: seq<Bytes>, length: nat, ok: bool, bat: seq<nat>)
    requires |footer| == FOOTER_SIZE && |header| == HEADER_SIZE && Announced(fragmentSize, addresses, frags)
    requires ConstantSized(fragmentSize, frags, maxTableEntries)
    requires 3 + TablePhysicalSize(maxTableEntries) / SECTOR_SIZE + |Order(frags, |frags|)| * FULL_SECTORS
      <= BLOCK_UNUSED
    ensures ok <==> SizeAccepted(fragmentSize) && LastAddressesAreUnique(frags)
    ensures ok ==> Start(chunks, |chunks|) == length
    ensures ok ==> EntriesAreUInt32(bat) && |chunks| > 3 && chunks[2] == TableBytes(bat)
    ensures ok ==> BlocksAreWhereTableSays(frags, bat, chunks)
    ensures ok ==> |Concat(chunks)| == length && IsImage(frags, footer, header, maxTableEntries, Concat(chunks))
  {
    hide Last, Order, IsBat, LastAddresses, Complete, ValidInput, Announced, LastAddressesAreUnique, Start,
      TableBytes, BlocksAreWhereTableSays, EntriesAreUInt32, TablePhysicalSize, TableReady, Assembled, IsImage, Concat;
    if fragmentSize == 0 || VHD_BLOCK_SIZE_BYTES % fragmentSize != 0 || VHD_BLOCK_SIZE_BYTES / fragmentSize > 53 {
      return [], 0, false, [];
    }
    AcceptedIsValid(fragmentSize, addresses, frags, maxTableEntries);
    TableSize(maxTableEntries);
    var tablePhysicalSizeBytes := TablePhysicalSize(maxTableEntries);
    var firstBlockPosition := FOOTER_SIZE + HEADER_SIZE + tablePhysicalSizeBytes;
    var table := new nat[tablePhysicalSizeBytes / 4](_ => BLOCK_UNUSED);
    MoreEntries(fragmentSize, frags, maxTableEntries, table.Length);
    var end, last := CreateBat(fragmentSize, addresses, frags, firstBlockPosition, table);
    bat := table[..];
    length := end * SECTOR_SIZE + FOOTER_SIZE;
    ghost var first := firstBlockPosition / SECTOR_SIZE;
    TableIsReady(frags, first, bat, last);
    BatIsUInt32(frags, first, bat, last);
    var sent, left;
    sent, ok, left := GenerateBlocks(fragmentSize, frags, bat, last, firstBlockPosition, first);
    chunks := [footer, header, TableBytes(bat)] + sent + [footer];
    if ok {
      HeadEnds(footer, header, TableBytes(bat), sent);
      IsAssembled(frags, [footer, header, TableBytes(bat)], sent, footer);
      BlocksAreThere(frags, first, bat, last, chunks, sent, footer);
      EndOfStream(frags, first, chunks, sent, footer);
      ChunksAreImage(frags, footer, header, maxTableEntries, bat, chunks, sent);
    }
  }

  // ----- the stream as a whole

  /**
   The image as a reader sees it, who goes from the table to the blocks: behind the footer and the
   header is the big-endian table; an unused entry is that of a block without a fragment, any
   other leads to the block with all its fragments; the footer ends it all.
   */
  ghost predicate IsImage(frags: seq<Fragment>, footer: Bytes, header: Bytes, entries: nat, image: Bytes) {
    && FOOTER_SIZE + HEADER_SIZE + 4 * entries + FOOTER_SIZE <= |image|
    && image[..FOOTER_SIZE] == footer && image[FOOTER_SIZE..FOOTER_SIZE + HEADER_SIZE] == header
    && image[|image| - FOOTER_SIZE..] == footer
    && forall b: nat :: b < entries ==> BlockReads(frags, b, image)
  }

  ghost predicate BlockReads(frags: seq<Fragment>, b: nat, image: Bytes) {
    var at := FOOTER_SIZE + HEADER_SIZE + 4 * b;
    && at + 4 <= |image|
    && var position := UInt(image[at..at + 4]) * SECTOR_SIZE;
      if position == BLOCK_UNUSED * SECTOR_SIZE then forall i :: 0 <= i < |frags| ==> BlockOf(frags[i]) != b
      else
        && position + FULL_SECTORS * SECTOR_SIZE + FOOTER_SIZE <= |image|
        && IsBlock(frags, |frags|, b, image[position..position + FULL_SECTORS * SECTOR_SIZE])
  }

  lemma {:induction false} StartIs(chunks: seq<Bytes>, i: nat)
    requires i <= |chunks|
    ensures Start(chunks, i) == |Concat(chunks[..i])|
  {
    if i > 0 {
      StartIs(chunks, i - 1);
      assert chunks[..i] == chunks[..i - 1] + [chunks[i - 1]];
      ConcatAppend(chunks[..i - 1], [chunks[i - 1]]);
      ConcatOne(chunks[i - 1]);
    } else {
      assert chunks[..0] == [];
    }
  }

  lemma ConcatOne(x: Bytes)
    ensures Concat([x]) == x
  {
    assert [x][1..] == [];
    assert x + [] == x;
  }

  /** A chunk is in the stream where it starts. */
  lemma ChunkIsThere(chunks: seq<Bytes>, i: nat)
    requires i < |chunks|
    ensures |Concat(chunks)| == Start(chunks, |chunks|)
    ensures Start(chunks, i) + |chunks[i]| <= |Concat(chunks)|
    ensures Concat(chunks)[Start(chunks, i)..Start(chunks, i) + |chunks[i]|] == chunks[i]
  {
    hide Concat, Start;
    StartIs(chunks, i);
    StartIs(chunks, |chunks|);
    assert chunks[..|chunks|] == chunks;
    var before, after := chunks[..i], chunks[i + 1..];
    assert chunks == before + ([chunks[i]] + after);
    ConcatAppend(before, [chunks[i]] + after);
    ConcatAppend([chunks[i]], after);
    ConcatOne(chunks[i]);
  }

  lemma UIntOfBytes32(n: nat)
    requires n <= 0xffff_ffff
    ensures UInt(Bytes32(n)) == n
  {
    hide UInt;
    UIntOfFour(Bytes32(n));
    DigitsOf32(n);
  }

  lemma UIntOfFour(b: Bytes)
    requires |b| == 4
    ensures UInt(b) == ((b[0] as int * 256 + b[1] as int) * 256 + b[2] as int) * 256 + b[3] as int
  {
    assert b[..3][..2] == b[..2] && b[..2][..1] == b[..1] && b[..1][..0] == [];
    assert UInt(b[..1]) == b[0] as int;
    assert UInt(b[..2]) == UInt(b[..1]) * 256 + b[1] as int;
    assert UInt(b[..3]) == UInt(b[..2]) * 256 + b[2] as int;
  }

  lemma DigitsOf32(n: nat)
    ensures ((n / 0x100_0000 * 256 + n / 0x1_0000 % 0x100) * 256 + n / 0x100 % 0x100) * 256 + n % 0x100 == n
  {
    assert n / 0x1_0000 == n / 0x100 / 0x100 && n / 0x100_0000 == n / 0x1_0000 / 0x100;
  }

  lemma {:induction false} TableEntryIs(bat: seq<nat>, b: nat)
    requires EntriesAreUInt32(bat) && b < |bat|
    ensures UInt(TableBytes(bat)[4 * b..4 * b + 4]) == bat[b]
    decreases |bat|
  {
    var n := |bat| - 1;
    if b < n {
      TableEntryIs(bat[..n], b);
      assert TableBytes(bat)[4 * b..4 * b + 4] == TableBytes(bat[..n])[4 * b..4 * b + 4];
    } else {
      UIntOfBytes32(bat[n]);
      assert TableBytes(bat)[4 * n..4 * n + 4] == Bytes32(bat[n]);
    }
  }

  lemma ChunksAreImage(frags: seq<Fragment>, footer: Bytes, header: Bytes, entries: nat, bat: seq<nat>,
                       chunks: seq<Bytes>, sent: seq<Bytes>)
    requires |footer| == FOOTER_SIZE && |header| == HEADER_SIZE && EntriesAreUInt32(bat) && entries <= |bat|
    requires chunks == [footer, header, TableBytes(bat)] + sent + [footer]
      && BlocksAreWhereTableSays(frags, bat, chunks)
    requires Complete(frags, sent)
    ensures |Concat(chunks)| == Start(chunks, |chunks|) && IsImage(frags, footer, header, entries, Concat(chunks))
  {
    hide Concat, Complete, TableBytes, IsBlock, BlocksAreWhereTableSays, BlockReads, UInt;
    var image := Concat(chunks);
    assert chunks[0] == footer && chunks[1] == header && chunks[2] == TableBytes(bat) && chunks[|chunks| - 1] == footer;
    assert Start(chunks, 1) == FOOTER_SIZE && Start(chunks, 2) == FOOTER_SIZE + HEADER_SIZE;
    ChunkIsThere(chunks, 0);
    ChunkIsThere(chunks, 1);
    ChunkIsThere(chunks, 2);
    ChunkIsThere(chunks, |chunks| - 1);
    StartsInOrder(chunks, 3, |chunks| - 1);
    forall b: nat | b < entries ensures BlockReads(frags, b, image) {
      BlockIsRead(frags, b, bat, chunks, sent);
    }
  }

  lemma {:induction false} StartsInOrder(chunks: seq<Bytes>, i: nat, j: nat)
    requires i <= j <= |chunks|
    ensures Start(chunks, i) <= Start(chunks, j)
  {
    if i < j {
      StartsInOrder(chunks, i, j - 1);
    }
  }

  lemma BlockIsRead(frags: seq<Fragment>, b: nat, bat: seq<nat>, chunks: seq<Bytes>, sent: seq<Bytes>)
    requires EntriesAreUInt32(bat) && b < |bat| && |chunks| == 4 + |sent| && chunks[2] == TableBytes(bat)
    requires Start(chunks, 2) == FOOTER_SIZE + HEADER_SIZE && |chunks[|chunks| - 1]| == FOOTER_SIZE
    requires BlocksAreWhereTableSays(frags, bat, chunks) && Complete(frags, sent)
    ensures BlockReads(frags, b, Concat(chunks))
  {
    hide Concat, TableBytes, IsBlock, UInt, Last, Order, Rank, Start;
    var at := FOOTER_SIZE + HEADER_SIZE;
    ChunkIsThere(chunks, 2);
    SliceOfSlice(Concat(chunks), at, at + |chunks[2]|, 4 * b, 4);
    TableEntryIs(bat, b);
    if bat[b] != BLOCK_UNUSED {
      var r := 3 + Rank(frags, b);
      assert BlockIsAt(frags, b, bat[b], chunks);
      RankIs(frags, b, |frags|);
      ChunkIsThere(chunks, r);
      ChunkIsThere(chunks, |chunks| - 1);
      StartsInOrder(chunks, r + 1, |chunks| - 1);
      NextStart(chunks, r);
      BlockLength(frags, b, chunks[r]);
    }
  }

  lemma NextStart(chunks: seq<Bytes>, i: nat)
    requires i < |chunks|
    ensures Start(chunks, i + 1) == Start(chunks, i) + |chunks[i]|
  {
  }

  lemma BlockLength(frags: seq<Fragment>, b: nat, block: Bytes)
    requires IsBlock(frags, |frags|, b, block)
    ensures |block| == FULL_SECTORS * SECTOR_SIZE
  {
  }

  lemma TableSize(maxTableEntries: nat)
    ensures var size := TablePhysicalSize(maxTableEntries);
      && maxTableEntries <= size / 4 && 4 * (size / 4) == size && size % SECTOR_SIZE == 0
      && StartsAt(FOOTER_SIZE + HEADER_SIZE + size, (FOOTER_SIZE + HEADER_SIZE + size) / SECTOR_SIZE)
      && (FOOTER_SIZE + HEADER_SIZE + size) / SECTOR_SIZE == 3 + size / SECTOR_SIZE
  {
  }

  lemma MoreEntries(fragmentSize: nat, frags: seq<Fragment>, entries: nat, more: nat)
    requires ValidInput(fragmentSize, frags, entries) && entries <= more
    ensures ValidInput(fragmentSize, frags, more)
  {
  }

  lemma TableIsReady(frags: seq<Fragment>, first: nat, bat: seq<nat>, last: map<nat, nat>)
    requires IsBat(frags, first, bat, |Order(frags, |frags|)|) && LastAddresses(frags, 0, last)
    requires first + |Order(frags, |frags|)| * FULL_SECTORS <= BLOCK_UNUSED
    ensures TableReady(frags, first, bat, last)
  {
  }

  lemma HeadEnds(footer: Bytes, header: Bytes, table: Bytes, sent: seq<Bytes>)
    ensures Start([footer, header, table] + sent + [footer], 3) == |footer| + |header| + |table|
  {
    var chunks := [footer, header, table] + sent + [footer];
    assert chunks[0] == footer && chunks[1] == header && chunks[2] == table;
    assert Start(chunks, 1) == |footer| && Start(chunks, 2) == |footer| + |header|;
  }
}
