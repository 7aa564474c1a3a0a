/**
 The entries of a FAT directory: long names are cut into pieces of 13 units, stored in
 reverse order before the 8.3 entry they belong to, and put together again by the iterator
 (section "FAT Long Directory Entries" of the FAT32 File System Specification).
 */
module DirEntries {
  import opened Basics

  const ENTRY_SIZE: nat := 32
  const CHUNK: nat := 13
  const DONE_FLAG: Byte := 0x00
  const FREE_FLAG: Byte := 0xE5
  const LONG_ATTR: Byte := 0x0F
  const LAST_LONG: Byte := 0x40

  // ----- texts in bytes

  function LittleEndian(t: Text): (b: Bytes)
    ensures |b| == 2 * |t|
    ensures forall i :: 0 <= i < |t| ==> b[2 * i] == t[i] % 256 && b[2 * i + 1] == t[i] / 256
  {
    if t == [] then []
    else LittleEndian(t[..|t| - 1]) + [t[|t| - 1] % 256, t[|t| - 1] / 256]
  }

  function Units(b: Bytes): (t: Text)
    requires |b| % 2 == 0
    ensures |t| == |b| / 2
  {
    seq(|b| / 2, i requires 0 <= i < |b| / 2 => b[2 * i] as int + 256 * b[2 * i + 1] as int)
  }

  lemma UnitsOfLittleEndian(t: Text)
    ensures Units(LittleEndian(t)) == t
  {
  }

  /** A text ends at its first null unit. */
  function Trim(t: Text): (r: Text)
    ensures |r| <= |t| && r == t[..|r|] && 0 !in r
    ensures |r| < |t| ==> t[|r|] == 0
  {
    if t == [] || t[0] == 0 then [] else [t[0]] + Trim(t[1..])
  }

  /** A text that is not full is the last one. */
  lemma {:induction false} TrimOfConcat(a: Text, b: Text)
    ensures Trim(a + b) == if |Trim(a)| < |a| then Trim(a) else a + Trim(b)
  {
    if a == [] {
      assert a + b == b;
    } else if a[0] != 0 {
      assert (a + b)[1..] == a[1..] + b;
      TrimOfConcat(a[1..], b);
      assert a == [a[0]] + a[1..];
    }
  }

  // ----- one long entry

  function EncodeLong(ord: Byte, chunk: Text, sum: Byte): (e: Bytes)
    requires |chunk| == CHUNK
    ensures |e| == ENTRY_SIZE
  {
    [ord] + LittleEndian(chunk[..5]) + [LONG_ATTR, 0, sum] + LittleEndian(chunk[5..11]) + [0, 0]
      + LittleEndian(chunk[11..])
  }

  /** The text of a long entry: a part that is not full is the last one. */
  function Piece(e: Bytes): Text
    requires |e| == ENTRY_SIZE
  {
    var name1 := Trim(Units(e[1..11]));
    if |name1| < 5 then name1
    else
      var name2 := Trim(Units(e[14..26]));
      if |name2| < 6 then name1 + name2
      else name1 + name2 + Trim(Units(e[28..]))
  }

  lemma EncodedFields(ord: Byte, chunk: Text, sum: Byte)
    requires |chunk| == CHUNK
    ensures var e := EncodeLong(ord, chunk, sum);
      && e[0] == ord && e[11] == LONG_ATTR && e[13] == sum
      && Units(e[1..11]) == chunk[..5] && Units(e[14..26]) == chunk[5..11] && Units(e[28..]) == chunk[11..]
  {
    var e := EncodeLong(ord, chunk, sum);
    assert e[1..11] == LittleEndian(chunk[..5]);
    assert e[14..26] == LittleEndian(chunk[5..11]);
    assert e[28..] == LittleEndian(chunk[11..]);
    UnitsOfLittleEndian(chunk[..5]);
    UnitsOfLittleEndian(chunk[5..11]);
    UnitsOfLittleEndian(chunk[11..]);
  }

  lemma PieceOfEncoded(ord: Byte, chunk: Text, sum: Byte)
    requires |chunk| == CHUNK
    ensures Piece(EncodeLong(ord, chunk, sum)) == Trim(chunk)
  {
    hide Trim, Units, EncodeLong, LittleEndian;
    EncodedFields(ord, chunk, sum);
    var e := EncodeLong(ord, chunk, sum);
    TrimInThree(chunk, Trim(chunk[..5]), Trim(chunk[5..11]), Trim(chunk[11..]));
  }

  lemma TrimInThree(chunk: Text, a: Text, b: Text, c: Text)
    requires |chunk| == CHUNK && a == Trim(chunk[..5]) && b == Trim(chunk[5..11]) && c == Trim(chunk[11..])
    ensures Trim(chunk) == if |a| < 5 then a else if |b| < 6 then a + b else a + b + c
  {
    ChunkInThree(chunk);
    TrimOfThree(chunk[..5], chunk[5..11], chunk[11..]);
  }

  lemma ChunkInThree(chunk: Text)
    requires |chunk| == CHUNK
    ensures chunk == chunk[..5] + (chunk[5..11] + chunk[11..])
  {
  }

  lemma TrimOfThree(x: Text, y: Text, z: Text)
    ensures var a, b, c := Trim(x), Trim(y), Trim(z);
      Trim(x + (y + z)) == if |a| < |x| then a else if |b| < |y| then a + b else a + b + c
  {
    hide Trim;
    TrimOfConcat(x, y + z);
    TrimOfConcat(y, z);
    var a, b, c := Trim(x), Trim(y), Trim(z);
    if |a| == |x| && |b| == |y| {
      assert a == x && b == y;
      assert x + (y + c) == x + y + c;
    }
  }

  // ----- a name in pieces

  function Filler(n: nat): (t: Text)
    ensures |t| == n
  {
    seq(n, _ => 0xFFFF)
  }

  /** Padded to a whole number of pieces; a name that fills its last piece is not terminated. */
  function Padded(name: Text): (t: Text)
    ensures |t| % CHUNK == 0 && |name| <= |t| < |name| + CHUNK
  {
    if |name| % CHUNK == 0 then name else name + [0] + Filler(CHUNK - |name| % CHUNK - 1)
  }

  function Chunk(padded: Text, i: nat): (c: Text)
    requires CHUNK * (i + 1) <= |padded|
    ensures |c| == CHUNK
  {
    padded[CHUNK * i..CHUNK * (i + 1)]
  }

  /** A null unit ends the name, units 0xFFFF fill up its last piece. */
  lemma PaddedAt(name: Text, i: nat)
    requires i < |Padded(name)|
    ensures Padded(name)[i] == if i < |name| then name[i] else if i == |name| then 0 else 0xffff
  {
  }

  /** Where the units of a piece are in a long entry. */
  function UnitOffset(j: nat): nat
    requires j < CHUNK
  {
    if j < 5 then 1 + 2 * j else if j < 11 then 14 + 2 * (j - 5) else 28 + 2 * (j - 11)
  }

  /** The 32 bytes of a long entry (section "FAT Long Directory Entries" of the FAT32 File System Specification). */
  lemma LongEntryBytes(ord: Byte, chunk: Text, sum: Byte)
    requires |chunk| == CHUNK
    ensures var e := EncodeLong(ord, chunk, sum);
      && e[0] == ord && e[11] == 0x0F && e[12] == 0 && e[13] == sum && e[26] == 0 && e[27] == 0
      && forall j :: 0 <= j < 13 ==>
           var o := UnitOffset(j); e[o] as int + 256 * e[o + 1] as int == chunk[j] as int
  {
    hide LittleEndian;
    var e := EncodeLong(ord, chunk, sum);
    EncodedFields(ord, chunk, sum);
    forall j | 0 <= j < 13 ensures var o := UnitOffset(j); e[o] as int + 256 * e[o + 1] as int == chunk[j] as int {
      if j < 5 {
        UnitAt(e, 1, 11, j);
      } else if j < 11 {
        UnitAt(e, 14, 26, j - 5);
      } else {
        UnitAt(e, 28, 32, j - 11);
      }
    }
  }

  lemma UnitAt(e: Bytes, lo: nat, hi: nat, j: nat)
    requires lo <= hi <= |e| && (hi - lo) % 2 == 0 && 2 * j + 1 < hi - lo
    ensures Units(e[lo..hi])[j] as int == e[lo + 2 * j] as int + 256 * e[lo + 2 * j + 1] as int
  {
  }

  /**
   The entries of a name are written from its last piece to its first, numbered from 1 for the first, with 0x40
   added for the last; then comes the 8.3 entry, and an entry that is all zero.
   */
  lemma WrittenEntryIs(name: Text, raw: Bytes, rest: Rest, k: nat)
    requires Top(name) < 64 && ValidRaw(raw) && ValidRest(rest) && k < Top(name) + 2
    ensures var e, top := FileBytes(name, raw, rest)[32 * k..32 * k + 32], Top(name);
      e == if k < top
        then EncodeLong(top - k + if k == 0 then 0x40 else 0, Chunk(Padded(name), top - 1 - k), Checksum(raw))
           else if k == top then raw + [rest.attr] + rest.other
           else Zeros(32)
  {
    hide Padded, Checksum, EncodeLong, LongBytes, Zeros;
    var top, sum := Top(name), Checksum(raw);
    var longs := LongBytes(Padded(name), top, top, sum);
    var b := FileBytes(name, raw, rest);
    assert b == longs + (raw + [rest.attr] + rest.other) + Zeros(ENTRY_SIZE);
    if k < top {
      LongBytesAt(Padded(name), top, top, sum, k);
      assert b[32 * k..32 * k + 32] == longs[32 * k..32 * k + 32];
    }
  }

  lemma {:induction false} LongBytesAt(padded: Text, n: nat, top: nat, sum: Byte, k: nat)
    requires CHUNK * n <= |padded| && k < n <= top < 64
    ensures LongBytes(padded, n, top, sum)[32 * k..32 * k + 32]
         == EncodeLong(n - k + if n - k == top then 0x40 else 0, Chunk(padded, n - 1 - k), sum)
  {
    hide EncodeLong, Chunk;
    var b := LongBytes(padded, n, top, sum);
    if k > 0 {
      LongBytesAt(padded, n - 1, top, sum, k - 1);
      var rest := LongBytes(padded, n - 1, top, sum);
      assert b[32..] == rest;
      assert b[32 * k..32 * k + 32] == rest[32 * (k - 1)..32 * (k - 1) + 32];
    }
  }

  /** The first `n` pieces put together. */
  function Joined(padded: Text, n: nat): (t: Text)
    requires CHUNK * n <= |padded|
    ensures 0 !in t
  {
    if n == 0 then [] else Joined(padded, n - 1) + Trim(Chunk(padded, n - 1))
  }

  lemma TrimOfWhole(t: Text)
    requires 0 !in t
    ensures Trim(t) == t
  {
    assert forall i :: 0 <= i < |t| ==> t[i] in t;
  }

  lemma ChunkOfName(name: Text, i: nat)
    requires CHUNK * (i + 1) <= |name|
    ensures Chunk(Padded(name), i) == name[CHUNK * i..CHUNK * (i + 1)]
  {
  }

  lemma {:induction false} JoinedWhole(name: Text, n: nat)
    requires CHUNK * n <= |name| && 0 !in name
    ensures Joined(Padded(name), n) == name[..CHUNK * n]
  {
    hide Trim, Chunk, Padded;
    if n > 0 {
      JoinedWhole(name, n - 1);
      ChunkOfName(name, n - 1);
      TrimOfWhole(name[CHUNK * (n - 1)..CHUNK * n]);
      assert name[..CHUNK * (n - 1)] + name[CHUNK * (n - 1)..CHUNK * n] == name[..CHUNK * n];
    }
  }

  lemma JoinedLast(name: Text)
    requires |name| % CHUNK != 0 && 0 !in name
    ensures var n := |name| / CHUNK;
      CHUNK * (n + 1) == |Padded(name)| && Joined(Padded(name), n + 1) == Joined(Padded(name), n) + name[CHUNK * n..]
  {
    var n := |name| / CHUNK;
    var last := name[CHUNK * n..];
    var filler := Filler(CHUNK - |name| % CHUNK - 1);
    assert Chunk(Padded(name), n) == last + ([0] + filler);
    TrimOfConcat(last, [0] + filler);
    TrimOfWhole(last);
  }

  lemma PaddedSize(name: Text)
    ensures |Padded(name)| / CHUNK == |name| / CHUNK + if |name| % CHUNK == 0 then 0 else 1
  {
  }

  /** The pieces give the name back exactly when it has no null unit. */
  lemma JoinedIsNameIff(name: Text)
    ensures Joined(Padded(name), |Padded(name)| / CHUNK) == name <==> 0 !in name
  {
    hide Joined, Padded;
    if 0 !in name {
      var n := |name| / CHUNK;
      JoinedWhole(name, n);
      PaddedSize(name);
      if |name| % CHUNK == 0 {
        assert name[..CHUNK * n] == name;
      } else {
        JoinedLast(name);
        assert name[..CHUNK * n] + name[CHUNK * n..] == name;
      }
    }
  }

  // ----- the 8.3 entry

  /** One turn of the checksum of an 8.3 name: rotate right and add. */
  function Rotated(sum: Byte, c: Byte): Byte {
    ((if sum % 2 == 1 then 0x80 else 0) + sum as int / 2 + c as int) % 256
  }

  function Checksum(name: Bytes): Byte {
    if name == [] then 0 else Rotated(Checksum(name[..|name| - 1]), name[|name| - 1])
  }

  /** The turn is a rotation by one bit to the right. */
  lemma RotatedIsRotation(sum: Byte, c: Byte)
    ensures Rotated(sum, c) == ((sum as bv8).RotateRight(1) as int + c as int) % 256
  {
    hide *;
    BitsOfByte(sum);
    RotationOf(sum as bv8);
    RotatedIs(sum, c);
  }

  lemma RotatedIs(sum: Byte, c: Byte)
    ensures Rotated(sum, c) == ((if sum % 2 == 1 then 0x80 else 0) + sum as int / 2 + c as int) % 256
  {
  }

  lemma RotationOf(b: bv8)
    ensures b.RotateRight(1) as int == (if b as int % 2 == 1 then 0x80 else 0) + b as int / 2
  {
    Halves(b);
    var high: bv8, low: bv8 := if b % 2 == 1 then 0x80 else 0, b / 2;
    assert b.RotateRight(1) == high + low && low <= 0x7F;
  }

  lemma Halves(b: bv8)
    ensures (b / 2) as int == b as int / 2 && (b % 2) as int == b as int % 2
  {
  }

  lemma RotatedApart(s: Byte, c: Byte, t: Byte, d: Byte)
    requires (s == t) != (c == d)
    ensures Rotated(s, c) != Rotated(t, d)
  {
  }

  /** No two names that differ in one byte have the same checksum. */
  lemma {:induction false} ChecksumSeesByte(name: Bytes, i: nat, c: Byte)
    requires i < |name| && c != name[i]
    ensures Checksum(name[i := c]) != Checksum(name)
    decreases |name|
  {
    hide Rotated;
    var n := |name| - 1;
    var changed := name[i := c];
    if i < n {
      ChecksumSeesByte(name[..n], i, c);
      assert changed[..n] == name[..n][i := c];
    } else {
      assert changed[..n] == name[..n];
    }
    RotatedApart(Checksum(changed[..n]), changed[n], Checksum(name[..n]), name[n]);
  }

  /** The checksum of README.TXT. */
  lemma ChecksumOfReadme()
    ensures Checksum([0x52, 0x45, 0x41, 0x44, 0x4D, 0x45, 0x20, 0x20, 0x54, 0x58, 0x54]) == 0x73
  {
    hide Checksum;
    var b: Bytes := [0x52, 0x45, 0x41, 0x44, 0x4D, 0x45, 0x20, 0x20, 0x54, 0x58, 0x54];
    ChecksumStep(b, 0);
    assert Rotated(0x00, 0x52) == 0x52;
    ChecksumStep(b, 1);
    assert Rotated(0x52, 0x45) == 0x6E;
    ChecksumStep(b, 2);
    assert Rotated(0x6E, 0x41) == 0x78;
    ChecksumStep(b, 3);
    assert Rotated(0x78, 0x44) == 0x80;
    ChecksumStep(b, 4);
    assert Rotated(0x80, 0x4D) == 0x8D;
    ChecksumStep(b, 5);
    assert Rotated(0x8D, 0x45) == 0x0B;
    ChecksumStep(b, 6);
    assert Rotated(0x0B, 0x20) == 0xA5;
    ChecksumStep(b, 7);
    assert Rotated(0xA5, 0x20) == 0xF2;
    ChecksumStep(b, 8);
    assert Rotated(0xF2, 0x54) == 0xCD;
    ChecksumStep(b, 9);
    assert Rotated(0xCD, 0x58) == 0x3E;
    ChecksumStep(b, 10);
    assert Rotated(0x3E, 0x54) == 0x73;
    assert b[..11] == b;
  }

  lemma ChecksumStep(b: Bytes, i: nat)
    requires i < |b|
    ensures Checksum(b[..0]) == 0 && Checksum(b[..i + 1]) == Rotated(Checksum(b[..i]), b[i])
  {
    assert b[..i + 1][..i] == b[..i];
  }

  predicate IsVolume(attr: Byte) {
    (attr / 8) % 2 == 1
  }

  // ----- the iterator

  /**
   The long name being read: its checksum, the ordinal expected next and the pieces in the
   order they were read.
   */
  datatype Long = NoLong | Collecting(sum: Byte, rem: int, pieces: seq<Text>) | Complete(sum: Byte, name: Text)

  /** `Bogus`: the place holder of a long name that is not complete. */
  datatype Name = LongName(text: Text) | Bogus | ShortName(raw: Bytes)

  datatype Entry = Entry(name: Name, raw: Bytes, position: nat)

  function Concat(pieces: seq<Text>): Text {
    if pieces == [] then [] else pieces[0] + Concat(pieces[1..])
  }

  function Reversed(pieces: seq<Text>): (r: seq<Text>)
    ensures |r| == |pieces|
  {
    if pieces == [] then [] else [pieces[|pieces| - 1]] + Reversed(pieces[..|pieces| - 1])
  }

  function Finished(long: Long): Long
    requires long.Collecting?
  {
    if long.rem == 0 then Complete(long.sum, Concat(Reversed(long.pieces))) else long
  }

  function AfterLong(long: Long, e: Bytes): Long
    requires |e| == ENTRY_SIZE
  {
    if (e[0] / LAST_LONG) % 2 == 1 then
      Finished(Collecting(e[13], e[0] as int - LAST_LONG as int - 1, [Piece(e)]))
    else if long.Collecting? && e[13] == long.sum && e[0] == long.rem then
      Finished(Collecting(long.sum, long.rem - 1, long.pieces + [Piece(e)]))
    else NoLong
  }

  function BestName(long: Long, e: Bytes): Name
    requires |e| == ENTRY_SIZE
  {
    if long.Complete? && long.name != [] && Checksum(e[..11]) == long.sum then LongName(long.name)
    else if long.Collecting? && Checksum(e[..11]) == long.sum then Bogus
    else ShortName(e[..11])
  }

  datatype Scanned = Scanned(entries: seq<Entry>, end: nat, long: Long)

  predicate AtEntry(dir: Bytes, p: nat) {
    p + ENTRY_SIZE <= |dir| && dir[p] != DONE_FLAG
  }

  function LongAfter(long: Long, e: Bytes): Long
    requires |e| == ENTRY_SIZE
  {
    if e[0] == FREE_FLAG then NoLong else if e[11] == LONG_ATTR then AfterLong(long, e) else NoLong
  }

  predicate IsFile(e: Bytes)
    requires |e| == ENTRY_SIZE
  {
    e[0] != FREE_FLAG && e[11] != LONG_ATTR && !IsVolume(e[11])
  }

  /** What the iterator returns from a position on, where it stops, and the long name it is left with. */
  function Scan(dir: Bytes, p: nat, long: Long): (r: Scanned)
    ensures p <= r.end && (p <= |dir| ==> r.end <= |dir|)
    decreases |dir| - p
  {
    if !AtEntry(dir, p) then Scanned([], p, long)
    else
      var e := dir[p..p + ENTRY_SIZE];
      var rest := Scan(dir, p + ENTRY_SIZE, LongAfter(long, e));
      if IsFile(e) then rest.(entries := [Entry(BestName(long, e), e[..11], p)] + rest.entries) else rest
  }

  /** The directory ends at the first entry that starts with a null byte. */
  lemma ScanEnds(dir: Bytes, p: nat, long: Long)
    requires p + 32 <= |dir| && dir[p] == 0
    ensures Scan(dir, p, long) == Scanned([], p, long)
  {
  }

  /**
   An entry is listed exactly if it does not start with 0xE5 and its volume bit is clear, as it is not
   in a long entry.
   */
  lemma EntryIsListedIff(dir: Bytes, p: nat, long: Long)
    requires p + 32 <= |dir| && dir[p] != 0
    ensures var rest := Scan(dir, p + 32, LongAfter(long, dir[p..p + 32])).entries;
      Scan(dir, p, long).entries ==
        if dir[p] != 0xE5 && (dir[p + 11] as bv8) & 0x08 == 0
        then [Entry(BestName(long, dir[p..p + 32]), dir[p..p + 11], p)] + rest
        else rest
  {
    var e := dir[p..p + 32];
    assert e[0] == dir[p] && e[11] == dir[p + 11] && e[..11] == dir[p..p + 11];
    VolumeBit(e[11]);
  }

  lemma VolumeBit(attr: Byte)
    ensures IsVolume(attr) <==> (attr as bv8) & 0x08 != 0
  {
    BitsOfByte(attr);
    VolumeBitOf(attr as bv8);
  }

  lemma VolumeBitOf(b: bv8)
    ensures b & 0x08 != 0 <==> (b as int / 8) % 2 == 1
  {
    assert (b & 0x08 != 0) <==> (b / 8) % 2 == 1;
    assert (b / 8) as int == b as int / 8 && ((b / 8) % 2) as int == (b / 8) as int % 2;
  }

  // ----- adding a file

  /** The entries of ordinals n down to 1; the largest one is flagged. */
  function LongBytes(padded: Text, n: nat, top: nat, sum: Byte): (b: Bytes)
    requires CHUNK * n <= |padded| && n <= top < 64
    ensures |b| == ENTRY_SIZE * n
  {
    if n == 0 then []
    else
      EncodeLong(n + if n == top then LAST_LONG as int else 0, Chunk(padded, n - 1), sum)
      + LongBytes(padded, n - 1, top, sum)
  }

  /** Attributes of a new file or directory, and the fields of the entry that are not modelled. */
  datatype Rest = Rest(attr: Byte, other: Bytes)

  predicate ValidRest(r: Rest) {
    !IsVolume(r.attr) && |r.other| == ENTRY_SIZE - 12
  }

  /** The name can start an entry that is neither free nor the last one. */
  predicate ValidRaw(raw: Bytes) {
    |raw| == 11 && raw[0] != DONE_FLAG && raw[0] != FREE_FLAG
  }

  function Zeros(n: nat): (b: Bytes)
    ensures |b| == n && forall i :: 0 <= i < n ==> b[i] == 0
  {
    seq(n, _ => 0)
  }

  function Top(name: Text): nat {
    |Padded(name)| / CHUNK
  }

  /** What `addFile` writes: the long entries, the entry itself and the end of the directory. */
  function FileBytes(name: Text, raw: Bytes, rest: Rest): (b: Bytes)
    requires Top(name) < 64 && ValidRaw(raw) && ValidRest(rest)
    ensures |b| == ENTRY_SIZE * (Top(name) + 2)
  {
    LongBytes(Padded(name), Top(name), Top(name), Checksum(raw)) + (raw + [rest.attr] + rest.other) + Zeros(ENTRY_SIZE)
  }

  /** The directory after `data` is written at `p`: nothing is known of what follows. */
  predicate Written(dir: Bytes, p: nat, data: Bytes, dir': Bytes) {
    p + |data| <= |dir'| && p <= |dir| && dir'[..p] == dir[..p] && dir'[p..p + |data|] == data
  }

  // ----- reading it back

  lemma ScanUnfolds(dir: Bytes, p: nat, long: Long, e: Bytes)
    requires |e| == ENTRY_SIZE && p + ENTRY_SIZE <= |dir| && e == dir[p..p + ENTRY_SIZE]
    ensures var rest := Scan(dir, p + ENTRY_SIZE, LongAfter(long, e));
      Scan(dir, p, long) ==
        if e[0] == DONE_FLAG then Scanned([], p, long)
        else if IsFile(e) then rest.(entries := [Entry(BestName(long, e), e[..11], p)] + rest.entries)
        else rest
  {
    assert e[0] == dir[p];
  }

  lemma ScanStops(dir: Bytes, p: nat, long: Long)
    requires !AtEntry(dir, p)
    ensures Scan(dir, p, long) == Scanned([], p, long)
  {
  }

  lemma SamePrefix(dir: Bytes, dir': Bytes, end: nat, p: nat)
    requires p + ENTRY_SIZE <= end <= |dir| && end <= |dir'| && dir'[..end] == dir[..end]
    ensures dir'[p..p + ENTRY_SIZE] == dir[p..p + ENTRY_SIZE] && dir'[p] == dir[p]
  {
    assert forall i :: 0 <= i < end ==> dir'[i] == dir'[..end][i] == dir[..end][i] == dir[i];
  }

  /** Up to the end of the old entries the new directory is read like the old one. */
  lemma {:induction false} ScanPrefix(dir: Bytes, dir': Bytes, p: nat, long: Long)
    requires var end := Scan(dir, p, long).end; p <= |dir| && end <= |dir'| && dir'[..end] == dir[..end]
    ensures var r := Scan(dir, p, long);
      var s := Scan(dir', r.end, r.long);
      Scan(dir', p, long) == Scanned(r.entries + s.entries, s.end, s.long)
    decreases |dir| - p
  {
    hide Scan, BestName, LongAfter, IsFile;
    if AtEntry(dir, p) {
      var e := dir[p..p + ENTRY_SIZE];
      ScanUnfolds(dir, p, long, e);
      SamePrefix(dir, dir', Scan(dir, p, long).end, p);
      ScanUnfolds(dir', p, long, e);
      ScanPrefix(dir, dir', p + ENTRY_SIZE, LongAfter(long, e));
      var rest := Scan(dir, p + ENTRY_SIZE, LongAfter(long, e));
      var first := [Entry(BestName(long, e), e[..11], p)];
      var more := Scan(dir', rest.end, rest.long).entries;
      assert first + (rest.entries + more) == first + rest.entries + more;
    } else {
      ScanStops(dir, p, long);
      assert [] + Scan(dir', p, long).entries == Scan(dir', p, long).entries;
    }
  }

  /** The pieces of ranks top - 1 down to n, in the order they are read. */
  function Pieces(padded: Text, n: nat, top: nat): seq<Text>
    requires n <= top && CHUNK * top <= |padded|
    decreases top - n
  {
    if n == top then [] else Pieces(padded, n + 1, top) + [Trim(Chunk(padded, n))]
  }

  lemma ReversedAppend(pieces: seq<Text>, c: Text)
    ensures Concat(Reversed(pieces + [c])) == c + Concat(Reversed(pieces))
  {
    assert (pieces + [c])[..|pieces|] == pieces;
    assert ([c] + Reversed(pieces))[1..] == Reversed(pieces);
  }

  lemma {:induction false} PiecesJoin(padded: Text, n: nat, top: nat)
    requires n <= top && CHUNK * top <= |padded|
    ensures Joined(padded, n) + Concat(Reversed(Pieces(padded, n, top))) == Joined(padded, top)
    decreases top - n
  {
    hide Trim, Chunk, Concat, Reversed;
    if n < top {
      var pieces, c := Pieces(padded, n + 1, top), Trim(Chunk(padded, n));
      ReversedAppend(pieces, c);
      PiecesJoin(padded, n + 1, top);
      assert Joined(padded, n) + (c + Concat(Reversed(pieces))) == Joined(padded, n) + c + Concat(Reversed(pieces));
    } else {
      ReversedNone();
      assert Joined(padded, n) + [] == Joined(padded, n);
    }
  }

  lemma ReversedNone()
    ensures Concat(Reversed([])) == []
  {
  }

  /** The state in which the entry of ordinal n is read. */
  predicate ExpectsLong(long: Long, padded: Text, n: nat, top: nat, sum: Byte)
    requires n <= top && CHUNK * top <= |padded|
  {
    if n == top then true
    else if n == 0 then long == Complete(sum, Joined(padded, top))
    else long == Collecting(sum, n, Pieces(padded, n, top))
  }

  lemma NextLong(long: Long, e: Bytes, padded: Text, n: nat, top: nat, sum: Byte)
    requires 0 < n <= top < 64 && CHUNK * top <= |padded| && ExpectsLong(long, padded, n, top, sum)
    requires |e| == ENTRY_SIZE && e[0] == n + (if n == top then LAST_LONG as int else 0) && e[11] == LONG_ATTR
      && e[13] == sum
    requires Piece(e) == Trim(Chunk(padded, n - 1))
    ensures e[0] != DONE_FLAG && !IsFile(e) && ExpectsLong(LongAfter(long, e), padded, n - 1, top, sum)
  {
    hide Piece, Chunk, Joined, Reversed, Concat, Trim;
    var c := Trim(Chunk(padded, n - 1));
    assert Pieces(padded, n - 1, top) == Pieces(padded, n, top) + [c];
    assert [] + [c] == [c];
    AllPieces(padded, top);
  }

  lemma AllPieces(padded: Text, top: nat)
    requires CHUNK * top <= |padded|
    ensures Concat(Reversed(Pieces(padded, 0, top))) == Joined(padded, top)
  {
    hide Concat, Reversed, Pieces;
    JoinedNone(padded);
    PiecesJoin(padded, 0, top);
    assert [] + Concat(Reversed(Pieces(padded, 0, top))) == Concat(Reversed(Pieces(padded, 0, top)));
  }

  lemma OneLong(long: Long, padded: Text, n: nat, top: nat, sum: Byte)
    requires 0 < n <= top < 64 && CHUNK * top <= |padded| && ExpectsLong(long, padded, n, top, sum)
    ensures var e := EncodeLong(n + if n == top then LAST_LONG as int else 0, Chunk(padded, n - 1), sum);
      e[0] != DONE_FLAG && !IsFile(e) && ExpectsLong(LongAfter(long, e), padded, n - 1, top, sum)
  {
    hide EncodeLong, Piece, Chunk, ExpectsLong, LongAfter, IsFile, Trim;
    var ord: Byte := n + if n == top then LAST_LONG as int else 0;
    EncodedFields(ord, Chunk(padded, n - 1), sum);
    PieceOfEncoded(ord, Chunk(padded, n - 1), sum);
    NextLong(long, EncodeLong(ord, Chunk(padded, n - 1), sum), padded, n, top, sum);
  }

  lemma JoinedNone(padded: Text)
    ensures Joined(padded, 0) == []
  {
  }

  lemma ScanSkips(dir: Bytes, p: nat, long: Long, e: Bytes)
    requires |e| == ENTRY_SIZE && p + ENTRY_SIZE <= |dir| && dir[p..p + ENTRY_SIZE] == e
    requires e[0] != DONE_FLAG && !IsFile(e)
    ensures Scan(dir, p, long) == Scan(dir, p + ENTRY_SIZE, LongAfter(long, e))
  {
    assert dir[p] == e[0];
  }

  lemma FirstEntry(dir: Bytes, p: nat, e: Bytes, more: Bytes)
    requires |e| == ENTRY_SIZE && p + |e + more| <= |dir| && dir[p..p + |e + more|] == e + more
    ensures dir[p..p + ENTRY_SIZE] == e && dir[p + ENTRY_SIZE..p + ENTRY_SIZE + |more|] == more
  {
    assert dir[p..p + ENTRY_SIZE] == dir[p..p + |e + more|][..ENTRY_SIZE];
    assert dir[p + ENTRY_SIZE..p + ENTRY_SIZE + |more|] == dir[p..p + |e + more|][ENTRY_SIZE..];
    assert (e + more)[..ENTRY_SIZE] == e && (e + more)[ENTRY_SIZE..] == more;
  }

  /** The long entries of a name leave it complete. */
  lemma {:induction false} ScanLongs(dir: Bytes, p: nat, long: Long, padded: Text, n: nat, top: nat, sum: Byte)
    requires 0 < top < 64 && n <= top && CHUNK * top <= |padded| && ExpectsLong(long, padded, n, top, sum)
    requires p + ENTRY_SIZE * n <= |dir| && dir[p..p + ENTRY_SIZE * n] == LongBytes(padded, n, top, sum)
    ensures Scan(dir, p, long) == Scan(dir, p + ENTRY_SIZE * n, Complete(sum, Joined(padded, top)))
    decreases n
  {
    hide EncodeLong, Scan, LongAfter, Joined, Pieces, Chunk;
    if n > 0 {
      var e := EncodeLong(n + if n == top then LAST_LONG as int else 0, Chunk(padded, n - 1), sum);
      FirstEntry(dir, p, e, LongBytes(padded, n - 1, top, sum));
      OneLong(long, padded, n, top, sum);
      ScanSkips(dir, p, long, e);
      ScanLongs(dir, p + ENTRY_SIZE, LongAfter(long, e), padded, n - 1, top, sum);
    }
  }

  /** How the name of a new file comes back; only a null unit changes it. */
  function NameBack(name: Text, raw: Bytes): Name
    requires ValidRaw(raw)
  {
    var joined := Joined(Padded(name), Top(name));
    if joined == [] then ShortName(raw) else LongName(joined)
  }

  lemma NameBackIff(name: Text, raw: Bytes)
    requires name != [] && ValidRaw(raw)
    ensures NameBack(name, raw) == LongName(name) <==> 0 !in name
  {
    JoinedIsNameIff(name);
  }

  /** The entry of the new file, then the end. */
  lemma ScanFile(dir: Bytes, p: nat, sum: Byte, joined: Text, raw: Bytes, rest: Rest)
    requires ValidRaw(raw) && ValidRest(rest) && sum == Checksum(raw)
    requires p + 2 * ENTRY_SIZE <= |dir|
    requires dir[p..p + 2 * ENTRY_SIZE] == raw + [rest.attr] + rest.other + Zeros(ENTRY_SIZE)
    ensures Scan(dir, p, Complete(sum, joined)) ==
      Scanned([Entry(if joined == [] then ShortName(raw) else LongName(joined), raw, p)], p + ENTRY_SIZE, NoLong)
  {
    var e := raw + [rest.attr] + rest.other;
    FirstEntry(dir, p, e, Zeros(ENTRY_SIZE));
    assert e[..11] == raw && e[11] == rest.attr && e[0] == raw[0];
    assert dir[p] == e[0];
    assert dir[p + ENTRY_SIZE] == dir[p + ENTRY_SIZE..p + ENTRY_SIZE + ENTRY_SIZE][0];
  }

  lemma TwoParts(dir: Bytes, p: nat, a: Bytes, b: Bytes)
    requires p + |a + b| <= |dir| && dir[p..p + |a + b|] == a + b
    ensures dir[p..p + |a|] == a && dir[p + |a|..p + |a| + |b|] == b
  {
    var both, x, y := dir[p..p + |a + b|], dir[p..p + |a|], dir[p + |a|..p + |a| + |b|];
    forall i | 0 <= i < |a| ensures x[i] == a[i] {
      assert x[i] == both[i];
    }
    forall i | 0 <= i < |b| ensures y[i] == b[i] {
      assert y[i] == both[|a| + i];
    }
  }

  /**
   Whatever the directory held, and whatever follows in its last cluster, the iterator then
   returns the old entries and the new file, and stops where the next one will be written.
   */
  lemma AddedFileIsRead(dir: Bytes, dir': Bytes, name: Text, raw: Bytes, rest: Rest)
    requires name != [] && Top(name) < 64 && ValidRaw(raw) && ValidRest(rest)
    requires Written(dir, Scan(dir, 0, NoLong).end, FileBytes(name, raw, rest), dir')
    ensures var r := Scan(dir, 0, NoLong);
      var p := r.end + ENTRY_SIZE * Top(name);
      Scan(dir', 0, NoLong) == Scanned(r.entries + [Entry(NameBack(name, raw), raw, p)], p + ENTRY_SIZE, NoLong)
  {
    hide Scan, LongBytes, Joined, Checksum, Padded;
    var r := Scan(dir, 0, NoLong);
    var padded, top, sum := Padded(name), Top(name), Checksum(raw);
    var longs := LongBytes(padded, top, top, sum);
    var short := raw + [rest.attr] + rest.other + Zeros(ENTRY_SIZE);
    var q := r.end + ENTRY_SIZE * top;
    ScanPrefix(dir, dir', 0, NoLong);
    assert FileBytes(name, raw, rest) == longs + short;
    TwoParts(dir', r.end, longs, short);
    ScanLongs(dir', r.end, r.long, padded, top, top, sum);
    ScanFile(dir', q, sum, Joined(padded, top), raw, rest);
  }

  // ----- the iterator and the writer, as they go through sectors

  lemma SectorFits(size: nat, sector: nat, sectorSize: nat)
    requires sectorSize > 0 && size % sectorSize == 0 && sector * sectorSize < size
    ensures (sector + 1) * sectorSize <= size
  {
    var count := size / sectorSize;
    assert size == count * sectorSize;
    assert count * sectorSize > sector * sectorSize;
    assert count > sector;
  }

  lemma NoSector(size: nat, sector: nat, sectorSize: nat)
    requires sectorSize > 0 && size % sectorSize == 0
    requires sector * sectorSize >= size || (sector + 1) * sectorSize > size
    ensures sector * sectorSize >= size
  {
    if sector * sectorSize < size {
      SectorFits(size, sector, sectorSize);
    }
  }

  class DirIterator {
    const dir: Bytes
    const sectorSize: nat

    var secIdx: nat
    var off: nat
    var long: Long

    ghost predicate Valid()
      reads this
    {
      && sectorSize > 0 && sectorSize % ENTRY_SIZE == 0 && |dir| % sectorSize == 0
      && off % ENTRY_SIZE == 0 && off <= sectorSize && Position() <= |dir|
    }

    function Position(): nat
      reads this
    {
      secIdx * sectorSize + off
    }

    /** What is still to be returned. */
    ghost function Left(): Scanned
      reads this
    {
      Scan(dir, Position(), long)
    }

    constructor (dir: Bytes, sectorSize: nat)
      requires sectorSize > 0 && sectorSize % ENTRY_SIZE == 0 && |dir| % sectorSize == 0
      ensures Valid() && this.dir == dir && this.sectorSize == sectorSize && Left() == Scan(dir, 0, NoLong)
    {
      this.dir := dir;
      this.sectorSize := sectorSize;
      secIdx, off, long := 0, 0, NoLong;
    }

    /** The buffer of a sector; None past the end of the chain. */
    method GetSectorBuffer(n: nat) returns (buf: Option<Bytes>)
      requires Valid()
      ensures buf == if n * sectorSize < |dir| && (n + 1) * sectorSize <= |dir|
        then Some(dir[n * sectorSize..(n + 1) * sectorSize]) else None
    {
      if n * sectorSize >= |dir| {
        return None;
      }
      SectorFits(|dir|, n, sectorSize);
      return Some(dir[n * sectorSize..(n + 1) * sectorSize]);
    }

    /** Moves to the next sector if need be and reads the bytes of the entry there; None past the end of the chain. */
    method ReadEntry() returns (e: Option<Bytes>)
      requires Valid()
      modifies this`secIdx, this`off
      ensures Valid() && Position() == old(Position()) && off < sectorSize
      ensures e.None? ==> Position() == |dir|
      ensures e.Some? ==> Position() + ENTRY_SIZE <= |dir| && e.value == dir[Position()..Position() + ENTRY_SIZE]
      ensures e.Some? ==> off + ENTRY_SIZE <= sectorSize
    {
      if off >= sectorSize {
        secIdx, off := secIdx + 1, off - sectorSize;
      }
      var buf := GetSectorBuffer(secIdx);
      if buf.None? {
        NoSector(|dir|, secIdx, sectorSize);
        return None;
      }
      RoomForEntry(off, sectorSize);
      SliceOfSlice(dir, secIdx * sectorSize, (secIdx + 1) * sectorSize, off, ENTRY_SIZE);
      return Some(buf.value[off..off + ENTRY_SIZE]);
    }

    /** The next file, or None and the position of the end. */
    method Next() returns (entry: Option<Entry>)
      requires Valid()
      modifies this
      ensures Valid()
      ensures old(Left().entries) == [] ==>
        entry == None && Left() == old(Left()) && Position() == Left().end && off < sectorSize
      ensures old(Left().entries) != [] ==>
        entry == Some(old(Left()).entries[0]) && Left() == old(Left()).(entries := old(Left()).entries[1..])
    {
      hide Scan, BestName, AfterLong;
      while true
        invariant Valid() && Left() == old(Left())
        decreases |dir| - Position()
      {
        var read := ReadEntry();
        if read.None? {
          ScanStops(dir, Position(), long);
          return None;
        }
        var e := read.value;
        ScanUnfolds(dir, Position(), long, e);
        if e[0] == DONE_FLAG {
          return None;
        }
        var position := Position();
        off := off + ENTRY_SIZE;
        if e[0] == FREE_FLAG {
          long := NoLong;
        } else if e[11] == LONG_ATTR {
          long := AfterLong(long, e);
        } else if !IsVolume(e[11]) {
          var bestName := BestName(long, e);
          long := NoLong;
          return Some(Entry(bestName, e[..11], position));
        } else {
          long := NoLong;
        }
      }
    }
  }

  lemma RoomForEntry(off: nat, sectorSize: nat)
    requires off < sectorSize && off % ENTRY_SIZE == 0 && sectorSize % ENTRY_SIZE == 0
    ensures off + ENTRY_SIZE <= sectorSize
  {
  }

  /** The padding loop. */
  method Pad(name: Text) returns (padded: Text)
    ensures padded == Padded(name)
  {
    padded := name;
    var paddingNeeded := if |name| % CHUNK == 0 then 0 else CHUNK - |name| % CHUNK;
    if paddingNeeded > 0 {
      padded := padded + [0];
      ghost var filler := paddingNeeded - 1;
      paddingNeeded := paddingNeeded - 1;
      while paddingNeeded > 0
        invariant paddingNeeded <= filler && padded == name + [0] + Filler(filler - paddingNeeded)
      {
        padded := padded + [0xFFFF];
        paddingNeeded := paddingNeeded - 1;
      }
    }
  }

  /** The long entries, built from the first piece on, each laid out before those already built. */
  method BuildLongs(padded: Text, sum: Byte) returns (data: Bytes)
    requires |padded| % CHUNK == 0 && |padded| / CHUNK < 64
    ensures data == LongBytes(padded, |padded| / CHUNK, |padded| / CHUNK, sum)
  {
    hide EncodeLong, LongBytes, Chunk;
    var top := |padded| / CHUNK;
    data := [];
    var off, ord := 0, 1;
    NoLongBytes(padded, top, sum);
    while off < |padded|
      invariant 1 <= ord <= top + 1 && off == CHUNK * (ord - 1)
      invariant data == LongBytes(padded, ord - 1, top, sum)
    {
      LongBytesMore(padded, ord, top, sum);
      data := EncodeLong(if ord == top then ord + LAST_LONG as int else ord, padded[off..off + CHUNK], sum) + data;
      off, ord := off + CHUNK, ord + 1;
    }
  }

  lemma NoLongBytes(padded: Text, top: nat, sum: Byte)
    requires top < 64
    ensures LongBytes(padded, 0, top, sum) == []
  {
  }

  lemma LongBytesMore(padded: Text, ord: nat, top: nat, sum: Byte)
    requires 0 < ord <= top < 64 && CHUNK * ord <= |padded|
    ensures LongBytes(padded, ord, top, sum) ==
      EncodeLong(if ord == top then ord + LAST_LONG as int else ord, padded[CHUNK * (ord - 1)..CHUNK * ord], sum)
        + LongBytes(padded, ord - 1, top, sum)
  {
    hide EncodeLong;
  }

  /** What `addFile` writes. */
  method BuildEntries(name: Text, raw: Bytes, rest: Rest) returns (data: Bytes)
    requires Top(name) < 64 && ValidRaw(raw) && ValidRest(rest)
    ensures data == FileBytes(name, raw, rest)
  {
    var padded := Pad(name);
    var longs := BuildLongs(padded, Checksum(raw));
    data := longs + (raw + [rest.attr] + rest.other) + Zeros(ENTRY_SIZE);
  }
}
