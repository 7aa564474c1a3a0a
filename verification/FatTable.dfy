/**
 The file allocation table as bytes: entries of 12, 16 or 32 bits, two of the 12-bit ones
 sharing three bytes.  The table of statuses that the cluster chains work on is read off it.
 */
module FatTable {
  import opened Basics
  import opened FatChains
  import SectorGroups
  import opened ChainBytes
  import opened ChainFiles
  import opened ChainSectors

  function EntrySize(ty: FatType): nat {
    match ty
    case Fat12 => 3
    case Fat16 => 2
    case Fat32 => 4
  }

  /** One more than the largest value that fits in an entry. */
  function Width(ty: FatType): nat {
    match ty
    case Fat12 => 0x1000
    case Fat16 => 0x1_0000
    case Fat32 => 0x1_0000_0000
  }

  function EntryOffset(ty: FatType, n: nat): nat {
    if ty.Fat12? then n / 2 * 3 else n * EntrySize(ty)
  }

  /** The number of entries in a table of that many bytes. */
  function EntryCount(ty: FatType, size: nat): nat {
    if ty.Fat12? then size / 3 * 2 else size / EntrySize(ty)
  }

  lemma EntryFits(ty: FatType, size: nat, n: nat)
    ensures n < EntryCount(ty, size) <==> EntryOffset(ty, n) + EntrySize(ty) <= size
  {
  }

  /** `fatInfoForCluster`: the sector and the offset in it where an entry starts. */
  datatype Info = Info(sector: nat, offset: nat)

  function FatInfoForCluster(ty: FatType, sectorSize: nat, n: nat): Info
    requires sectorSize > 0
  {
    Info(EntryOffset(ty, n) / sectorSize, EntryOffset(ty, n) % sectorSize)
  }

  // ----- the fields of an entry

  /** The pair of 12-bit entries in three bytes. */
  datatype Pair = Pair(field0bc: Byte, field1c: int, field0a: int, field1ab: Byte)

  function Unpack(b: seq<Byte>): Pair
    requires |b| == 3
  {
    Pair(b[0], b[1] / 16, b[1] % 16, b[2])
  }

  function Pack(p: Pair): (b: seq<Byte>)
    requires 0 <= p.field1c < 16 && 0 <= p.field0a < 16
    ensures |b| == 3 && Unpack(b) == p
  {
    [p.field0bc, p.field1c * 16 + p.field0a, p.field1ab]
  }

  function Uint16(b: seq<Byte>): nat
    requires |b| == 2
  {
    b[0] as int + b[1] as int * 0x100
  }

  function Uint32(b: seq<Byte>): nat
    requires |b| == 4
  {
    b[0] as int + b[1] as int * 0x100 + b[2] as int * 0x1_0000 + b[3] as int * 0x100_0000
  }

  /** The value of entry `n` in the bytes of its structure. */
  function ValueFrom(ty: FatType, n: nat, b: seq<Byte>): nat
    requires |b| == EntrySize(ty)
  {
    match ty
    case Fat12 =>
      var p := Unpack(b);
      if n % 2 == 1 then p.field1ab * 16 + p.field1c else p.field0a * 256 + p.field0bc
    case Fat16 => Uint16(b)
    case Fat32 => Uint32(b) % 0x1000_0000
  }

  /** Those bytes with entry `n` replaced; only the 12-bit form keeps anything of what was there. */
  function BytesWith(ty: FatType, n: nat, b: seq<Byte>, value: nat): (b': seq<Byte>)
    requires |b| == EntrySize(ty) && value < Width(ty)
    ensures |b'| == EntrySize(ty)
  {
    match ty
    case Fat12 =>
      var p := Unpack(b);
      Pack(if n % 2 == 1 then p.(field1ab := value / 16, field1c := value % 16)
           else p.(field0a := value / 256, field0bc := value % 256))
    case Fat16 => [value % 0x100, value / 0x100]
    case Fat32 => [value % 0x100, value / 0x100 % 0x100, value / 0x1_0000 % 0x100, value / 0x100_0000]
  }

  lemma Digits(value: nat)
    requires value < 0x1_0000_0000
    ensures value ==
      value % 0x100 + value / 0x100 % 0x100 * 0x100 + value / 0x1_0000 % 0x100 * 0x1_0000
        + value / 0x100_0000 * 0x100_0000
  {
    assert value / 0x1_0000 == value / 0x100 / 0x100;
    assert value / 0x100_0000 == value / 0x1_0000 / 0x100;
  }

  lemma ValueOfBytes(ty: FatType, n: nat, b: seq<Byte>, value: nat)
    requires |b| == EntrySize(ty) && value < Width(ty)
    ensures ValueFrom(ty, n, BytesWith(ty, n, b, value)) == value % 0x1000_0000
  {
    if ty.Fat32? {
      Digits(value);
    }
  }

  lemma OtherOfPair(n: nat, m: nat, b: seq<Byte>, value: nat)
    requires |b| == 3 && value < 0x1000 && n % 2 != m % 2
    ensures ValueFrom(Fat12, m, BytesWith(Fat12, n, b, value)) == ValueFrom(Fat12, m, b)
  {
  }

  // ----- entries of the table

  function Entry(ty: FatType, t: seq<Byte>, n: nat): (e: seq<Byte>)
    requires n < EntryCount(ty, |t|)
    ensures |e| == EntrySize(ty)
  {
    EntryFits(ty, |t|, n);
    t[EntryOffset(ty, n)..EntryOffset(ty, n) + EntrySize(ty)]
  }

  function Raw(ty: FatType, t: seq<Byte>, n: nat): nat
    requires n < EntryCount(ty, |t|)
  {
    ValueFrom(ty, n, Entry(ty, t, n))
  }

  function Put(ty: FatType, t: seq<Byte>, n: nat, value: nat): (t': seq<Byte>)
    requires n < EntryCount(ty, |t|) && value < Width(ty)
    ensures |t'| == |t|
  {
    EntryFits(ty, |t|, n);
    var o := EntryOffset(ty, n);
    t[..o] + BytesWith(ty, n, Entry(ty, t, n), value) + t[o + EntrySize(ty)..]
  }

  lemma SliceApart(t: seq<Byte>, o: nat, mid: seq<Byte>, p: nat, size: nat)
    requires o + |mid| <= |t| && p + size <= |t|
    ensures p + size <= o || o + |mid| <= p ==> (t[..o] + mid + t[o + |mid|..])[p..p + size] == t[p..p + size]
    ensures p == o && size == |mid| ==> (t[..o] + mid + t[o + |mid|..])[p..p + size] == mid
  {
    var r := t[..o] + mid + t[o + |mid|..];
    var now, was := r[p..p + size], t[p..p + size];
    if p + size <= o || o + |mid| <= p {
      assert forall i :: 0 <= i < size ==> now[i] == was[i];
    }
  }

  /** Different entries lie apart, unless they are the two halves of a pair. */
  lemma EntriesApart(ty: FatType, n: nat, m: nat)
    requires n != m
    ensures var s := EntrySize(ty);
      || EntryOffset(ty, m) + s <= EntryOffset(ty, n)
      || EntryOffset(ty, n) + s <= EntryOffset(ty, m)
      || (ty.Fat12? && EntryOffset(ty, m) == EntryOffset(ty, n) && n % 2 != m % 2)
  {
  }

  /** The bytes of an entry after another one, or the same, has been stored. */
  lemma EntryAfterPut(ty: FatType, t: seq<Byte>, n: nat, value: nat, m: nat)
    requires n < EntryCount(ty, |t|) && m < EntryCount(ty, |t|) && value < Width(ty)
    ensures Entry(ty, Put(ty, t, n, value), m) ==
      if EntryOffset(ty, m) == EntryOffset(ty, n) then BytesWith(ty, n, Entry(ty, t, n), value) else Entry(ty, t, m)
  {
    hide BytesWith, EntryCount, EntryOffset, EntrySize, Width;
    EntryFits(ty, |t|, n);
    EntryFits(ty, |t|, m);
    if m != n {
      EntriesApart(ty, n, m);
    }
    SliceApart(t, EntryOffset(ty, n), BytesWith(ty, n, Entry(ty, t, n), value), EntryOffset(ty, m), EntrySize(ty));
    SizePositive(ty);
  }

  lemma SizePositive(ty: FatType)
    ensures EntrySize(ty) > 0
  {
  }

  lemma OffsetsDiffer(ty: FatType, n: nat, m: nat)
    requires n != m && EntryOffset(ty, n) == EntryOffset(ty, m)
    ensures ty.Fat12? && n % 2 != m % 2
  {
    EntriesApart(ty, n, m);
    SizePositive(ty);
  }

  /** Storing an entry sets it and no other, though two may share a byte. */
  lemma EntryIndependence(ty: FatType, t: seq<Byte>, n: nat, value: nat, m: nat)
    requires n < EntryCount(ty, |t|) && m < EntryCount(ty, |t|) && value < Width(ty)
    ensures Raw(ty, Put(ty, t, n, value), m) == if m == n then value % 0x1000_0000 else Raw(ty, t, m)
  {
    hide Entry, Put, EntryOffset, BytesWith, ValueFrom, EntryCount;
    EntryAfterPut(ty, t, n, value, m);
    ValueOfBytes(ty, n, Entry(ty, t, n), value);
    if n != m && EntryOffset(ty, n) == EntryOffset(ty, m) {
      OffsetsDiffer(ty, n, m);
      OtherOfPair(n, m, Entry(ty, t, n), value);
      SameBytes(ty, t, n, m);
    }
  }

  lemma SameBytes(ty: FatType, t: seq<Byte>, n: nat, m: nat)
    requires n < EntryCount(ty, |t|) && m < EntryCount(ty, |t|) && EntryOffset(ty, n) == EntryOffset(ty, m)
    ensures Entry(ty, t, n) == Entry(ty, t, m)
  {
  }

  /** A 32-bit entry keeps its four reserved bits only if they are those of the value: clear, for 28 bits. */
  lemma ReservedBitsKeptIff(t: seq<Byte>, n: nat, value: nat)
    requires n < EntryCount(Fat32, |t|) && value < Width(Fat32)
    ensures Entry(Fat32, Put(Fat32, t, n, value), n)[3] / 16 == Entry(Fat32, t, n)[3] / 16
       <==> Entry(Fat32, t, n)[3] / 16 == value / 0x1000_0000
  {
    SliceApart(t, EntryOffset(Fat32, n), BytesWith(Fat32, n, Entry(Fat32, t, n), value), EntryOffset(Fat32, n), 4);
    assert value / 0x100_0000 / 16 == value / 0x1000_0000;
  }

  lemma ReservedBitsAreLost()
    ensures Put(Fat32, [0, 0, 0, 0xA0], 0, 5) == [5, 0, 0, 0]
  {
    assert Entry(Fat32, [0, 0, 0, 0xA0], 0) == [0, 0, 0, 0xA0];
  }

  // ----- the table as one number

  /** The first byte is the least significant one. */
  function LittleEndian(b: Bytes): nat {
    if b == [] then 0 else b[0] as int + 0x100 * LittleEndian(b[1..])
  }

  function Power(base: nat, n: nat): nat {
    if n == 0 then 1 else base * Power(base, n - 1)
  }

  lemma {:induction false} LittleEndianBound(b: Bytes)
    ensures LittleEndian(b) < Power(0x100, |b|)
  {
    if b != [] {
      LittleEndianBound(b[1..]);
    }
  }

  lemma Associates(a: nat, b: nat, c: nat)
    ensures a * (b * c) == a * b * c
  {
  }

  lemma {:induction false} LittleEndianAppend(a: Bytes, b: Bytes)
    ensures LittleEndian(a + b) == LittleEndian(a) + Power(0x100, |a|) * LittleEndian(b)
    decreases |a|
  {
    if a == [] {
      assert a + b == b;
    } else {
      assert (a + b)[1..] == a[1..] + b;
      LittleEndianAppend(a[1..], b);
      Associates(0x100, Power(0x100, |a| - 1), LittleEndian(b));
    }
  }

  lemma {:induction false} PowerPositive(base: nat, n: nat)
    requires base > 0
    ensures Power(base, n) > 0
  {
    if n > 0 {
      PowerPositive(base, n - 1);
    }
  }

  lemma {:induction false} PowerMore(base: nat, n: nat, m: nat)
    ensures Power(base, n + m) == Power(base, n) * Power(base, m)
  {
    if n > 0 {
      PowerMore(base, n - 1, m);
      Associates(base, Power(base, n - 1), Power(base, m));
    }
  }

  lemma PowersOf256()
    ensures Power(0x100, 2) == 0x1_0000 && Power(0x100, 3) == 0x100_0000 && Power(0x100, 4) == 0x1_0000_0000
  {
    assert Power(0x100, 1) == 0x100;
    assert Power(0x100, 2) == 0x1_0000;
  }

  /** Entry `n` starts at the digit `n`. */
  lemma {:induction false} DigitsBefore(ty: FatType, n: nat)
    ensures Power(Width(ty), n)
         == Power(0x100, EntryOffset(ty, n)) * if ty.Fat12? && n % 2 == 1 then 0x1000 else 1
    decreases n
  {
    PowersOf256();
    if ty.Fat12? && n >= 2 {
      DigitsBefore(ty, n - 2);
      PowerMore(0x100, EntryOffset(ty, n - 2), 3);
      PowerMore(0x1000, n - 2, 2);
      TwoDigits();
      Regroup(Power(0x100, EntryOffset(ty, n - 2)), if n % 2 == 1 then 0x1000 else 1, 0x100_0000);
    } else if !ty.Fat12? && n > 0 {
      DigitsBefore(ty, n - 1);
      PowerMore(0x100, EntryOffset(ty, n - 1), EntrySize(ty));
      PowerMore(Width(ty), n - 1, 1);
      assert Power(Width(ty), 1) == Width(ty);
    } else if n == 1 {
      TwoDigits();
    }
  }

  lemma TwoDigits()
    ensures Power(0x1000, 0) == 1 && Power(0x1000, 1) == 0x1000 && Power(0x1000, 2) == 0x100_0000
  {
    assert Power(0x1000, 1) == 0x1000;
  }

  lemma Regroup(p: nat, d: nat, q: nat)
    ensures p * d * q == p * q * d
  {
  }

  lemma FewBytes(b: Bytes)
    ensures |b| == 2 ==> LittleEndian(b) == b[0] as int + 0x100 * b[1] as int
    ensures |b| == 3 ==> LittleEndian(b) == b[0] as int + 0x100 * b[1] as int + 0x1_0000 * b[2] as int
    ensures |b| == 4 ==>
      LittleEndian(b) == b[0] as int + 0x100 * b[1] as int + 0x1_0000 * b[2] as int + 0x100_0000 * b[3] as int
  {
    if |b| > 0 {
      assert LittleEndian(b) == b[0] as int + 0x100 * LittleEndian(b[1..]);
    }
    if |b| > 1 {
      assert LittleEndian(b[1..]) == b[1] as int + 0x100 * LittleEndian(b[1..][1..]);
      assert b[1..][1..] == b[2..];
    }
    if |b| > 2 {
      assert LittleEndian(b[2..]) == b[2] as int + 0x100 * LittleEndian(b[2..][1..]);
      assert b[2..][1..] == b[3..];
    }
    if |b| > 3 {
      assert LittleEndian(b[3..]) == b[3] as int + 0x100 * LittleEndian(b[3..][1..]);
      assert |b| == 4 ==> b[3..][1..] == [];
    }
    assert LittleEndian([]) == 0;
  }

  lemma TwoEntriesInNumber(b0: Byte, b1: Byte, b2: Byte)
    ensures var x := b0 as int + 0x100 * b1 as int + 0x1_0000 * b2 as int;
      && x / 0x1000 == b2 as int * 16 + b1 as int / 16 < 0x1000
      && x % 0x1000 == b1 as int % 16 * 256 + b0 as int
  {
    var high, low := b1 as int / 16 + 16 * b2 as int, b0 as int + 0x100 * (b1 as int % 16);
    assert b0 as int + 0x100 * b1 as int + 0x1_0000 * b2 as int == high * 0x1000 + low;
    SectorGroups.DivMod(high, low, 0x1000);
  }

  /** The value of an entry in the number that its bytes are. */
  lemma ValueInNumber(ty: FatType, n: nat, b: Bytes)
    requires |b| == EntrySize(ty)
    ensures var x := LittleEndian(b);
      ValueFrom(ty, n, b) == (if ty.Fat12? && n % 2 == 1 then x / 0x1000 else x) % Width(ty) % 0x1000_0000
  {
    hide LittleEndian;
    FewBytes(b);
    if ty.Fat12? {
      TwoEntriesInNumber(b[0], b[1], b[2]);
    }
  }

  lemma Product(z: nat, q: nat, s: nat, p: nat)
    ensures (z * q + s) * p == z * (p * q) + s * p
  {
    Associates(z, q, p);
    assert q * p == p * q;
    assert (z * q + s) * p == z * q * p + s * p;
  }

  lemma QuotientOfQuotient(x: nat, p: nat, q: nat)
    requires p > 0 && q > 0
    ensures p * q > 0 && x / (p * q) == x / p / q
  {
    var y, r := x / p, x % p;
    var z, s := y / q, y % q;
    Parts(x, p);
    Parts(y, q);
    Product(z, q, s, p);
    assert s * p + r < p * q by {
      MulBelow(s + 1, q, p);
    }
    SectorGroups.DivMod(z, s * p + r, p * q);
  }

  lemma Parts(x: nat, d: nat)
    requires d > 0
    ensures x == x / d * d + x % d && x % d < d
  {
  }

  /** The number from a byte of the table on. */
  lemma NumberAfter(t: Bytes, o: nat)
    requires o <= |t|
    ensures Power(0x100, o) > 0 && LittleEndian(t) / Power(0x100, o) == LittleEndian(t[o..])
  {
    hide LittleEndian, Power;
    assert t == t[..o] + t[o..];
    LittleEndianAppend(t[..o], t[o..]);
    LittleEndianBound(t[..o]);
    PowerPositive(0x100, o);
    WithoutLowPart(LittleEndian(t[..o]), LittleEndian(t[o..]), Power(0x100, o));
  }

  lemma NumberFrom(t: Bytes, o: nat, size: nat)
    requires o + size <= |t|
    ensures Power(0x100, o) > 0
    ensures LittleEndian(t) / Power(0x100, o)
         == LittleEndian(t[o..o + size]) + Power(0x100, size) * LittleEndian(t[o + size..])
  {
    hide LittleEndian, Power;
    NumberAfter(t, o);
    NumberSplits(t[o..], size);
    AfterBoth(t, o, size);
  }

  lemma AfterBoth(t: Bytes, o: nat, n: nat)
    requires o + n <= |t|
    ensures t[o..][..n] == t[o..o + n] && t[o..][n..] == t[o + n..]
  {
  }

  lemma NumberSplits(b: Bytes, n: nat)
    requires n <= |b|
    ensures LittleEndian(b) == LittleEndian(b[..n]) + Power(0x100, n) * LittleEndian(b[n..])
  {
    hide LittleEndian, Power;
    LittleEndianAppend(b[..n], b[n..]);
    assert b[..n] + b[n..] == b;
  }

  lemma WithoutLowPart(low: nat, x: nat, p: nat)
    requires low < p
    ensures (low + p * x) / p == x
  {
    assert p * x == x * p;
    SectorGroups.DivMod(x, low, p);
  }

  lemma LowDigit(ty: FatType, x: nat, rest: nat)
    ensures (x + (if ty.Fat12? then 0x100_0000 else Width(ty)) * rest) % Width(ty) == x % Width(ty)
  {
    var w, k := Width(ty), if ty.Fat12? then 0x1000 * rest else rest;
    Parts(x, w);
    assert (if ty.Fat12? then 0x100_0000 else w) * rest == k * w;
    SumOfDigits(x, k, w);
  }

  lemma SumOfDigits(x: nat, k: nat, w: nat)
    requires w > 0
    ensures (x + k * w) % w == x % w
  {
    Parts(x, w);
    assert x + k * w == (x / w + k) * w + x % w;
    SectorGroups.DivMod(x / w + k, x % w, w);
  }

  lemma HighDigit(x: nat, rest: nat)
    ensures (x + 0x100_0000 * rest) / 0x1000 % 0x1000 == x / 0x1000 % 0x1000
  {
  }

  lemma SizePower(ty: FatType)
    ensures Power(0x100, EntrySize(ty)) == if ty.Fat12? then 0x100_0000 else Width(ty)
  {
    PowersOf256();
  }

  /**
   The table is one little-endian number, whose digits in base 4096, 65536 or 2^32 are the
   entries, of which 28 bits count.
   */
  lemma EntriesAreDigits(ty: FatType, t: Bytes, n: nat)
    requires n < EntryCount(ty, |t|)
    ensures Power(Width(ty), n) > 0
    ensures Raw(ty, t, n) == LittleEndian(t) / Power(Width(ty), n) % Width(ty) % 0x1000_0000
  {
    hide LittleEndian, ValueFrom, Power, EntryOffset, EntrySize, EntryCount, Width, Raw;
    EntryFits(ty, |t|, n);
    var o, size := EntryOffset(ty, n), EntrySize(ty);
    NumberFrom(t, o, size);
    DigitsBefore(ty, n);
    SizePower(ty);
    ValueInNumber(ty, n, t[o..o + size]);
    DigitFrom(ty, n, LittleEndian(t), Power(0x100, o), Power(Width(ty), n),
              LittleEndian(t[o..o + size]), LittleEndian(t[o + size..]));
    RawIs(ty, t, n);
  }

  lemma RawIs(ty: FatType, t: Bytes, n: nat)
    requires n < EntryCount(ty, |t|)
    ensures var o, size := EntryOffset(ty, n), EntrySize(ty);
      o + size <= |t| && Raw(ty, t, n) == ValueFrom(ty, n, t[o..o + size])
  {
    hide ValueFrom, EntryOffset, EntrySize, EntryCount;
    EntryFits(ty, |t|, n);
  }

  lemma DigitFrom(ty: FatType, n: nat, number: nat, p: nat, power: nat, x: nat, rest: nat)
    requires p > 0 && number / p == x + (if ty.Fat12? then 0x100_0000 else Width(ty)) * rest
    requires power == p * if ty.Fat12? && n % 2 == 1 then 0x1000 else 1
    ensures power > 0
    ensures number / power % Width(ty) == (if ty.Fat12? && n % 2 == 1 then x / 0x1000 else x) % Width(ty)
  {
    hide Width;
    if ty.Fat12? && n % 2 == 1 {
      QuotientOfQuotient(number, p, 0x1000);
      HighDigit(x, rest);
      TwelveBits();
    } else {
      LowDigit(ty, x, rest);
    }
  }

  lemma TwelveBits()
    ensures Width(Fat12) == 0x1000
  {
  }

  // ----- statuses

  /** What `storeToFAT` can be given: a cluster number, or a name the table of statuses has. */
  predicate Storable(ty: FatType, st: Status) {
    match st
    case Link(next) => next < Width(ty)
    case Free | Eof | Bad => true
    case _ => false
  }

  function Encode(ty: FatType, st: Status): (value: nat)
    requires Storable(ty, st)
    ensures value < Width(ty)
  {
    match st
    case Link(next) => next
    case Eof => Prefix(ty) + 0xFF
    case Bad => Prefix(ty) + 0xF7
    case _ => Prefix(ty) + 0x00
  }

  /**
   A status reads back as it was stored, unless it is a number that means something else, or
   'free', which reads back as a link to the cluster whose number is the prefix.
   */
  lemma ReadsBackIff(ty: FatType, st: Status)
    requires Storable(ty, st)
    ensures ReadBack(ty, Encode(ty, st)) == st
       <==> match st
            case Link(next) => Linkable(ty, next)
            case Eof | Bad => true
            case _ => false
    ensures st.Free? ==> ReadBack(ty, Encode(ty, st)) == Link(Prefix(ty))
  {
    if st.Link? {
      LinkableIff(ty, st.next);
    }
  }

  /** One more than the largest number that an entry of 12, 16 or 28 bits can be. */
  function Top(ty: FatType): nat {
    match ty
    case Fat12 => 0x1000
    case Fat16 => 0x1_0000
    case Fat32 => 0x1000_0000
  }

  /**
   The last eight numbers mark the end of a chain (section "FAT Data Structure" of the FAT32
   File System Specification).  The first of them is taken for a reserved one; all the others
   are ends, the number before them is a bad cluster, and what is stored as an end is the last.
   */
  lemma EndMarkIff(ty: FatType, value: nat)
    requires value < Top(ty)
    ensures (Decode(ty, value).Eof? <==> Top(ty) - 8 <= value) <==> value != Top(ty) - 8
    ensures Decode(ty, value).Bad? <==> value == Top(ty) - 9
    ensures Decode(ty, value).Reserved? <==> Top(ty) - 15 <= value < Top(ty) - 9 || value == Top(ty) - 8
    ensures Decode(ty, value).Link? <==> 2 <= value <= Top(ty) - 16
    ensures Encode(ty, Eof) == Top(ty) - 1 && Encode(ty, Bad) == Top(ty) - 9
  {
  }

  /** The table of statuses. */
  function Table(ty: FatType, t: seq<Byte>): Fat {
    seq(EntryCount(ty, |t|), m requires 0 <= m < EntryCount(ty, |t|) => Decode(ty, Raw(ty, t, m)))
  }

  /** Storing a status replaces one element of the table of statuses. */
  lemma StoreIsUpdate(ty: FatType, t: seq<Byte>, n: nat, st: Status)
    requires n < EntryCount(ty, |t|) && Storable(ty, st)
    ensures Table(ty, Put(ty, t, n, Encode(ty, st))) == Table(ty, t)[n := ReadBack(ty, Encode(ty, st))]
  {
    hide Put, Raw, Decode, Encode, EntryCount;
    var t' := Put(ty, t, n, Encode(ty, st));
    forall m: nat | m < EntryCount(ty, |t|)
      ensures Raw(ty, t', m) == if m == n then Encode(ty, st) % 0x1000_0000 else Raw(ty, t, m)
    {
      EntryIndependence(ty, t, n, Encode(ty, st), m);
    }
  }

  // ----- taking clusters away

  /** `shrinkChainToLength`: 'free' is stored in the entries behind the first `k` of the chain, the last one first. */
  function Shrunk(ty: FatType, fat: Fat, s: seq<nat>, k: nat): (fat': Fat)
    requires forall i :: 0 <= i < |s| ==> s[i] < |fat|
    ensures |fat'| == |fat|
    decreases |s|
  {
    if |s| <= k then fat
    else Shrunk(ty, fat[s[|s| - 1] := ReadBack(ty, Encode(ty, Free))], s[..|s| - 1], k)
  }

  lemma {:induction false} ShrunkAt(ty: FatType, fat: Fat, s: seq<nat>, k: nat, c: nat)
    requires (forall i :: 0 <= i < |s| ==> s[i] < |fat|) && c < |fat|
    ensures Shrunk(ty, fat, s, k)[c] == if exists i :: k <= i < |s| && s[i] == c then Link(Prefix(ty)) else fat[c]
    decreases |s|
  {
    if k < |s| {
      var last, rest := s[|s| - 1], s[..|s| - 1];
      ReadsBackIff(ty, Free);
      ShrunkAt(ty, fat[last := Link(Prefix(ty))], rest, k, c);
      assert forall i :: k <= i < |rest| ==> rest[i] == s[i];
      if i :| k <= i < |s| && s[i] == c {
        assert i < |rest| ==> rest[i] == c;
      }
    }
  }

  /** Up to a cluster whose predecessors are as they were, a walk is as it was. */
  lemma {:induction false} WalkKept(fat: Fat, fat': Fat, s: seq<nat>, i: nat)
    requires IsChain(fat, s) && i < |s| && |fat'| == |fat| && forall j :: 0 <= j < i ==> fat'[s[j]] == fat[s[j]]
    ensures Walk(fat', s[0], i) == Cluster(s[i])
  {
    if i > 0 {
      WalkKept(fat, fat', s, i - 1);
      WalkOneMore(fat', s[0], i - 1);
      assert Follows(fat, s, i - 1);
    }
  }

  /**
   Shrinking a chain does not shorten it: it still has the first cluster that was taken away,
   from where it goes on to the one whose number is the prefix.
   */
  lemma ShrinkingLeadsAway(ty: FatType, fat: Fat, s: seq<nat>, k: nat)
    requires IsChain(fat, s) && 0 < k < |s|
    ensures Walk(Shrunk(ty, fat, s, k), s[0], k) == Cluster(s[k])
    ensures Walk(Shrunk(ty, fat, s, k), s[0], k + 1) == Cluster(Prefix(ty))
  {
    hide Shrunk, IsChain, Walk;
    ChainIsInTable(fat, s);
    var fat' := Shrunk(ty, fat, s, k);
    forall j | 0 <= j < k ensures fat'[s[j]] == fat[s[j]] {
      ShrunkAt(ty, fat, s, k, s[j]);
      forall i | k <= i < |s| ensures s[i] != s[j] {
        ChainIsAcyclic(fat, s, j, i);
      }
    }
    WalkKept(fat, fat', s, k);
    ShrunkAt(ty, fat, s, k, s[k]);
    WalkOneMore(fat', s[0], k);
  }

  lemma ChainIsInTable(fat: Fat, s: seq<nat>)
    requires IsChain(fat, s)
    ensures s != [] && forall i :: 0 <= i < |s| ==> s[i] < |fat|
  {
  }

  // ----- the table in its sectors

  /** The bytes of an entry are those at its sector and offset, in one sector or across two. */
  lemma EntryInSectors(ty: FatType, ss: nat, v: seq<Sector>, n: nat)
    requires ss > 0 && Sized(ss, v) && n < EntryCount(ty, |Flatten(v)|)
    ensures var info := FatInfoForCluster(ty, ss, n);
      && info.offset < ss && Position(ss, info.sector, info.offset) == EntryOffset(ty, n)
      && RangeIn(v, info.sector, info.offset, EntrySize(ty))
      && RangeOf(v, info.sector, info.offset, EntrySize(ty)) == Entry(ty, Flatten(v), n)
  {
    hide Flatten, RangeIn, RangeOf, EntryOffset, EntryCount, EntrySize;
    var o := EntryOffset(ty, n);
    assert o == (o / ss) * ss + o % ss;
    EntryFits(ty, |Flatten(v)|, n);
    SizePositive(ty);
    RangeIsSlice(ss, v, o / ss, o % ss, EntrySize(ty));
  }

  /** What `readFromPosition` returns for an entry is its bytes. */
  lemma ReadIsEntry(ty: FatType, ss: nat, v: seq<Sector>, n: nat, b: Bytes)
    requires ss > 0 && Sized(ss, v) && n < EntryCount(ty, |Flatten(v)|)
    requires IsRead(v, FatInfoForCluster(ty, ss, n).sector, FatInfoForCluster(ty, ss, n).offset, EntrySize(ty), b)
    ensures b == Entry(ty, Flatten(v), n)
  {
    hide Flatten, RangeIn, RangeOf, Entry, FatInfoForCluster;
    EntryInSectors(ty, ss, v, n);
    SizePositive(ty);
  }

  /** What `writeToPosition` makes of the table, given the new bytes of an entry. */
  lemma WrittenIsPut(ty: FatType, ss: nat, v: seq<Sector>, t': Bytes, n: nat, value: nat)
    requires ss > 0 && Sized(ss, v) && n < EntryCount(ty, |Flatten(v)|) && value < Width(ty) && |t'| == |Flatten(v)|
    requires var info := FatInfoForCluster(ty, ss, n);
      Written(Flatten(v), t', Position(ss, info.sector, info.offset), BytesWith(ty, n, Entry(ty, Flatten(v), n), value))
    ensures t' == Put(ty, Flatten(v), n, value)
  {
    hide Flatten, RangeIn, RangeOf, Entry, FatInfoForCluster, BytesWith, Position;
    EntryInSectors(ty, ss, v, n);
    WrittenIs(Flatten(v), t', EntryOffset(ty, n), BytesWith(ty, n, Entry(ty, Flatten(v), n), value));
  }

  lemma WrittenIs(t: Bytes, t': Bytes, o: nat, b: Bytes)
    requires Written(t, t', o, b) && |t'| == |t|
    ensures t' == t[..o] + b + t[o + |b|..]
  {
    forall i | o <= i < o + |b| ensures t'[i] == b[i - o] {
      assert t'[i] == t'[o..o + |b|][i - o];
    }
  }

  /** Only two 12-bit entries share bytes. */
  lemma OwnBytes(ty: FatType, n: nat, a: Bytes, b: Bytes, value: nat)
    requires !ty.Fat12? && |a| == |b| == EntrySize(ty) && value < Width(ty)
    ensures BytesWith(ty, n, a, value) == BytesWith(ty, n, b, value)
  {
  }

  /** The table of a volume, in the sectors reserved for it. */
  class FatRegion {
    const clusterCount: nat
    const sectorSize: nat
    var sectors: seq<Sector>

    constructor (clusterCount: nat, sectorSize: nat, sectors: seq<Sector>)
      requires sectorSize > 0 && Sized(sectorSize, sectors) && clusterCount < 0x1_0000_0000
      requires clusterCount <= EntryCount(TypeFor(clusterCount), |Flatten(sectors)|)
      ensures Valid()
      ensures this.clusterCount == clusterCount && this.sectorSize == sectorSize && this.sectors == sectors
    {
      this.clusterCount, this.sectorSize, this.sectors := clusterCount, sectorSize, sectors;
    }

    function Type(): FatType {
      TypeFor(clusterCount)
    }

    /** A volume has less than 2^32 sectors, and its table an entry for each number the search may try. */
    ghost predicate Valid()
      reads this
    {
      && sectorSize > 0 && Sized(sectorSize, sectors) && clusterCount < 0x1_0000_0000
      && clusterCount <= |Statuses()|
    }

    function Statuses(): Fat
      reads this
    {
      Table(Type(), Flatten(sectors))
    }

    /** `readFromPosition` on the sectors of the table. */
    method ReadFromPosition(info: Info, length: nat) returns (b: Bytes)
      requires RangeIn(sectors, info.sector, info.offset, length)
      ensures IsRead(sectors, info.sector, info.offset, length, b)
    {
      b := RangeOf(sectors, info.sector, info.offset, length);
    }

    /** `writeToPosition` on them. */
    method WriteToPosition(info: Info, data: Bytes)
      requires Valid() && Position(sectorSize, info.sector, info.offset) + |data| <= |Flatten(sectors)|
      modifies this
      ensures sectorSize > 0 && Sized(sectorSize, sectors) && |Flatten(sectors)| == |old(Flatten(sectors))|
      ensures Written(old(Flatten(sectors)), Flatten(sectors), Position(sectorSize, info.sector, info.offset), data)
    {
      hide Table, Flatten, Chunk;
      var t, o := Flatten(sectors), Position(sectorSize, info.sector, info.offset);
      FlattenLength(sectorSize, sectors);
      ChunkIs(sectorSize, Spliced(t, o, data), |sectors|);
      SplicedIs(t, o, data);
      sectors := Chunk(sectorSize, Spliced(t, o, data));
    }

    lemma EntryIsThere(n: nat)
      requires Valid() && n < |Statuses()|
      ensures n < EntryCount(Type(), |Flatten(sectors)|)
      ensures var info := FatInfoForCluster(Type(), sectorSize, n);
        && RangeIn(sectors, info.sector, info.offset, EntrySize(Type()))
        && Position(sectorSize, info.sector, info.offset) + EntrySize(Type()) <= |Flatten(sectors)|
    {
      EntryInSectors(Type(), sectorSize, sectors, n);
      EntryFits(Type(), |Flatten(sectors)|, n);
    }

    /** The entry is read at its sector and offset. */
    method FetchFromFAT(n: nat) returns (st: Status)
      requires Valid() && n < |Statuses()|
      ensures st == Statuses()[n]
    {
      hide Flatten, RangeIn, EntryCount, FatInfoForCluster, Decode;
      EntryIsThere(n);
      var ty := Type();
      var info := FatInfoForCluster(ty, sectorSize, n);
      var b := ReadFromPosition(info, EntrySize(ty));
      ReadIsEntry(ty, sectorSize, sectors, n, b);
      var value;
      match ty {
        case Fat12 =>
          var p := Unpack(b);
          value := if n % 2 == 1 then p.field1ab * 16 + p.field1c else p.field0a * 256 + p.field0bc;
        case Fat16 => value := Uint16(b);
        case Fat32 => value := Uint32(b) % 0x1000_0000;
      }
      st := Decode(ty, value);
    }

    /** One status changes, all the others stay. */
    method StoreToFAT(n: nat, st: Status)
      requires Valid() && n < |Statuses()| && Storable(Type(), st)
      modifies this
      ensures Valid() && Statuses() == old(Statuses())[n := ReadBack(Type(), Encode(Type(), st))]
    {
      hide Flatten, RangeIn, EntryCount, FatInfoForCluster, Decode, BytesWith, Encode, Entry, Position, Written;
      EntryIsThere(n);
      var ty, value := Type(), Encode(Type(), st);
      var info := FatInfoForCluster(ty, sectorSize, n);
      StoreIsUpdate(ty, Flatten(sectors), n, st);
      ghost var v := sectors;
      var entry;
      if ty == Fat12 {
        var b := ReadFromPosition(info, EntrySize(ty));
        ReadIsEntry(ty, sectorSize, sectors, n, b);
        entry := BytesWith(ty, n, b, value);
      } else {
        var b := seq(EntrySize(ty), _ => 0);
        OwnBytes(ty, n, b, Entry(ty, Flatten(v), n), value);
        entry := BytesWith(ty, n, b, value);
      }
      WriteToPosition(info, entry);
      WrittenIsPut(ty, sectorSize, v, Flatten(sectors), n, value);
    }

    /** `allocateInFAT` does to the statuses what it does to them in a volume of chains. */
    method AllocateInFAT(hint: nat) returns (r: Cell)
      requires Valid()
      modifies this
      ensures Valid()
      ensures match r
        case Cluster(n) =>
          && hint <= n < clusterCount && old(Statuses()[n]) == Free && Statuses() == old(Marked(Statuses(), n))
          && (forall k :: hint <= k < n ==> old(Statuses()[k]) != Free)
        case _ => Statuses() == old(Statuses()) && forall k :: hint <= k < clusterCount ==> Statuses()[k] != Free
    {
      hide Table, Flatten;
      var num := hint;
      while num < clusterCount
        invariant hint <= num && sectors == old(sectors)
        invariant forall k :: hint <= k < num && k < clusterCount ==> Statuses()[k] != Free
        decreases clusterCount - num
      {
        var st := FetchFromFAT(num);
        if st == Free {
          ReadsBackIff(Type(), Eof);
          StoreToFAT(num, Eof);
          return Cluster(num);
        }
        num := num + 1;
      }
      r := Failed;
    }

    /**
     The two steps that add a cluster, on the disk: the link reads back as one exactly when
     the number of the new cluster is `Linkable`.
     */
    method AppendTo(last: nat) returns (added: Cell)
      requires Valid() && last < |Statuses()|
      modifies this
      ensures Valid() && |Statuses()| == |old(Statuses())|
      ensures match added
        case Cluster(n) =>
          && last <= n < clusterCount && old(Statuses()[n]) == Free
          && (forall k :: last <= k < n ==> old(Statuses()[k]) != Free)
          && Statuses() == old(Appended(Type(), Statuses(), last, n))
          && (Statuses() == old(Linked(Statuses(), last, n)) <==> Linkable(Type(), n))
        case _ => Statuses() == old(Statuses()) && forall k :: last <= k < clusterCount ==> Statuses()[k] != Free
    {
      hide Table, Flatten, Decode;
      added := AllocateInFAT(last);
      if added.Cluster? {
        AppendedIsLinkedIff(Type(), old(Statuses()), last, added.n);
        NumberFits(clusterCount, added.n);
        StoreToFAT(last, Link(added.n));
      }
    }
  }

  lemma NumberFits(clusterCount: nat, n: nat)
    requires n < clusterCount < 0x1_0000_0000
    ensures Storable(TypeFor(clusterCount), Link(n)) && Encode(TypeFor(clusterCount), Link(n)) == n
  {
  }
}
