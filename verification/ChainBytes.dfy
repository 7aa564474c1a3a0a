/** Sectors and bytes: what reading and writing whole sectors means for a range of bytes. */
module ChainBytes {
  import opened Basics
  import opened ChainSectors
  import opened SectorGroups

  /** All sectors have the size of a sector. */
  ghost predicate Sized(ss: nat, v: seq<Sector>) {
    forall i :: 0 <= i < |v| ==> |v[i]| == ss
  }

  function Flatten(v: seq<Sector>): Bytes {
    if v == [] then [] else v[0] + Flatten(v[1..])
  }

  lemma {:induction false} FlattenAppend(v: seq<Sector>, w: seq<Sector>)
    ensures Flatten(v + w) == Flatten(v) + Flatten(w)
  {
    if v == [] {
      assert v + w == w;
    } else {
      assert (v + w)[1..] == v[1..] + w;
      FlattenAppend(v[1..], w);
    }
  }

  lemma {:induction false} FlattenLength(ss: nat, v: seq<Sector>)
    requires Sized(ss, v)
    ensures |Flatten(v)| == |v| * ss
  {
    if v != [] {
      FlattenLength(ss, v[1..]);
      assert |v| * ss == ss + (|v| - 1) * ss;
    }
  }

  /** The sector-sized pieces of a buffer. */
  function Chunk(ss: nat, b: Bytes): seq<Sector>
    requires ss > 0
  {
    if |b| < ss then [] else [b[..ss]] + Chunk(ss, b[ss..])
  }

  lemma {:induction false} ChunkIs(ss: nat, b: Bytes, m: nat)
    requires ss > 0 && |b| == m * ss
    ensures Sized(ss, Chunk(ss, b)) && |Chunk(ss, b)| == m && Flatten(Chunk(ss, b)) == b
    decreases m
  {
    if m > 0 {
      assert |b| == ss + (m - 1) * ss && (m - 1) * ss >= 0;
      ChunkIs(ss, b[ss..], m - 1);
      assert Chunk(ss, b)[1..] == Chunk(ss, b[ss..]);
      assert b[..ss] + b[ss..] == b;
    } else {
      assert m * ss == 0;
    }
  }

  /** A sector with some of its bytes replaced. */
  function Spliced(x: Sector, offset: nat, data: Bytes): (r: Sector)
    requires offset + |data| <= |x|
    ensures |r| == |x|
  {
    x[..offset] + data + x[offset + |data|..]
  }

  // ----- reading

  /** A range of bytes that starts in the sector `s` of the chain. */
  predicate RangeIn(v: seq<Sector>, s: nat, offset: nat, n: nat) {
    s <= |v| && offset + n <= |Flatten(v[s..])|
  }

  function RangeOf(v: seq<Sector>, s: nat, offset: nat, n: nat): Bytes
    requires RangeIn(v, s, offset, n)
  {
    Flatten(v[s..])[offset..offset + n]
  }

  /** The bytes after the sector `s` are those of the sector `s + 1` and the following ones. */
  lemma RangeSkips(ss: nat, v: seq<Sector>, s: nat, m: nat, offset: nat, n: nat)
    requires Sized(ss, v) && s + m <= |v| && RangeIn(v, s + m, offset, n)
    ensures RangeIn(v, s, m * ss + offset, n) && RangeOf(v, s, m * ss + offset, n) == RangeOf(v, s + m, offset, n)
  {
    var a, b := v[s..s + m], v[s + m..];
    assert v[s..] == a + b;
    FlattenAppend(a, b);
    FlattenLength(ss, a);
    assert Flatten(v[s..])[m * ss + offset..m * ss + offset + n] == Flatten(b)[offset..offset + n];
  }

  lemma RangeJoins(v: seq<Sector>, s: nat, offset: nat, a: nat, b: nat)
    requires RangeIn(v, s, offset, a) && RangeIn(v, s, offset + a, b)
    ensures RangeIn(v, s, offset, a + b)
    ensures RangeOf(v, s, offset, a + b) == RangeOf(v, s, offset, a) + RangeOf(v, s, offset + a, b)
  {
  }

  /** Whole sectors. */
  lemma RangeOfRun(ss: nat, v: seq<Sector>, s: nat, m: nat)
    requires Sized(ss, v) && s + m <= |v|
    ensures RangeIn(v, s, 0, m * ss) && RangeOf(v, s, 0, m * ss) == Flatten(v[s..s + m])
  {
    var a, b := v[s..s + m], v[s + m..];
    assert v[s..] == a + b;
    FlattenAppend(a, b);
    FlattenLength(ss, a);
  }

  /** Part of one sector. */
  lemma RangeOfPart(ss: nat, v: seq<Sector>, s: nat, offset: nat, n: nat)
    requires Sized(ss, v) && s < |v| && offset + n <= ss
    ensures RangeIn(v, s, offset, n) && RangeOf(v, s, offset, n) == v[s][offset..offset + n]
  {
    assert v[s..][0] == v[s];
    assert Flatten(v[s..]) == v[s] + Flatten(v[s..][1..]);
  }

  // ----- writing

  /** The byte that a sector of the chain and an offset in it stand for. */
  function Position(ss: nat, s: nat, offset: nat): nat {
    s * ss + offset
  }

  /** `posFromOffset` splits a position into the only sector and offset that stand for it. */
  lemma PositionSplits(ss: nat, pos: nat, s: nat, offset: nat)
    requires ss > 0 && offset < ss
    ensures Position(ss, s, offset) == pos <==> offset == pos % ss && s == (pos - pos % ss) / ss
  {
    assert pos == (pos / ss) * ss + pos % ss;
    assert (pos - pos % ss) / ss == pos / ss by {
      assert pos - pos % ss == (pos / ss) * ss;
      DivExact(pos / ss, ss);
    }
    if Position(ss, s, offset) == pos {
      DivUnique(s, offset, pos / ss, pos % ss, ss);
    }
  }

  lemma DivExact(q: nat, d: nat)
    requires d > 0
    ensures (q * d) / d == q
  {
    DivMod(q, 0, d);
  }

  lemma DivUnique(a: nat, r: nat, b: nat, t: nat, d: nat)
    requires a * d + r == b * d + t && r < d && t < d
    ensures a == b && r == t
  {
    assert a < b ==> (a + 1) * d <= b * d;
    assert b < a ==> (b + 1) * d <= a * d;
  }

  /**
   `f'` is `f`, possibly lengthened, with `data` at `pos`: every byte of `f` outside the
   range is unchanged.
   */
  ghost predicate Written(f: Bytes, f': Bytes, pos: nat, data: Bytes) {
    && |f| <= |f'| && pos + |data| <= |f'|
    && f'[pos..pos + |data|] == data
    && forall p :: 0 <= p < |f| && !(pos <= p < pos + |data|) ==> f'[p] == f[p]
  }

  lemma WrittenTwice(f: Bytes, f1: Bytes, f2: Bytes, pos: nat, a: Bytes, b: Bytes)
    requires Written(f, f1, pos, a) && Written(f1, f2, pos + |a|, b)
    ensures Written(f, f2, pos, a + b)
  {
    forall p | pos <= p < pos + |a| ensures f2[p] == a[p - pos] {
      assert f1[p] == f1[pos..pos + |a|][p - pos];
    }
    forall p | pos + |a| <= p < pos + |a| + |b| ensures f2[p] == b[p - pos - |a|] {
      assert f2[p] == f2[pos + |a|..pos + |a| + |b|][p - pos - |a|];
    }
  }

  lemma FlattenThree(a: seq<Sector>, b: seq<Sector>, c: seq<Sector>)
    ensures Flatten(a + b + c) == Flatten(a) + Flatten(b) + Flatten(c)
  {
    FlattenAppend(a, b);
    FlattenAppend(a + b, c);
  }

  lemma InThree(v: seq<Sector>, i: nat, j: nat)
    requires i <= j <= |v|
    ensures v == v[..i] + v[i..j] + v[j..]
  {
  }

  lemma FlattenOverwrite(ss: nat, v: seq<Sector>, i: nat, w: seq<Sector>)
    requires Sized(ss, v) && Sized(ss, w) && i + |w| <= |v|
    ensures Sized(ss, Overwrite(v, i, w))
    ensures Flatten(v) == Flatten(v[..i]) + Flatten(v[i..i + |w|]) + Flatten(v[i + |w|..])
    ensures Flatten(Overwrite(v, i, w)) == Flatten(v[..i]) + Flatten(w) + Flatten(v[i + |w|..])
    ensures |Flatten(v[..i])| == i * ss && |Flatten(v[i..i + |w|])| == |Flatten(w)| == |w| * ss
  {
    hide Flatten;
    FlattenThree(v[..i], w, v[i + |w|..]);
    FlattenThree(v[..i], v[i..i + |w|], v[i + |w|..]);
    InThree(v, i, i + |w|);
    FlattenLength(ss, v[..i]);
    FlattenLength(ss, v[i..i + |w|]);
    FlattenLength(ss, w);
  }

  lemma WrittenBetween(a: Bytes, old': Bytes, new': Bytes, b: Bytes, f: Bytes, offset: nat, data: Bytes)
    requires |old'| == |new'| && offset + |data| <= |new'| && new'[offset..offset + |data|] == data
    requires f <= a + old' + b
    requires |f| <= |a| || forall k :: 0 <= k < |old'| && !(offset <= k < offset + |data|) ==> new'[k] == old'[k]
    ensures Written(f, a + new' + b, |a| + offset, data)
  {
    var f' := a + new' + b;
    assert f'[|a| + offset..|a| + offset + |data|] == new'[offset..offset + |data|];
    forall p | 0 <= p < |f| && !(|a| + offset <= p < |a| + offset + |data|) ensures f'[p] == f[p] {
      assert f[p] == (a + old' + b)[p];
    }
  }

  /**
   Overwriting sectors `w` of a chain that now reads `v` and began with `f`: the sectors
   either lie past the end of `f`, or differ from what they were only in the range of `data`.
   */
  lemma OverwriteWrites(ss: nat, f: Bytes, v: seq<Sector>, i: nat, w: seq<Sector>, offset: nat, data: Bytes)
    requires Sized(ss, v) && Sized(ss, w) && i + |w| <= |v| && f <= Flatten(v)
    requires offset + |data| <= |Flatten(w)| && Flatten(w)[offset..offset + |data|] == data
    requires |f| <= i * ss
          || (|Flatten(v[i..i + |w|])| == |Flatten(w)|
              && forall k :: 0 <= k < |Flatten(w)| && !(offset <= k < offset + |data|)
                   ==> Flatten(w)[k] == Flatten(v[i..i + |w|])[k])
    ensures Sized(ss, Overwrite(v, i, w)) && Written(f, Flatten(Overwrite(v, i, w)), i * ss + offset, data)
  {
    FlattenOverwrite(ss, v, i, w);
    WrittenBetween(Flatten(v[..i]), Flatten(v[i..i + |w|]), Flatten(w), Flatten(v[i + |w|..]), f, offset, data);
  }

  /** No byte of `f` is lost: each is still there or has been replaced by its byte of `data`. */
  ghost predicate PartlyWritten(f: Bytes, f': Bytes, pos: nat, data: Bytes) {
    && |f| <= |f'|
    && forall p :: 0 <= p < |f| ==> f'[p] == f[p] || (pos <= p < pos + |data| && f'[p] == data[p - pos])
  }

  /** What a write leaves: all of the data, or, without room for it, part of it. */
  ghost predicate IsWrite(f: Bytes, f': Bytes, pos: nat, data: Bytes, ok: bool) {
    if ok then Written(f, f', pos, data) else PartlyWritten(f, f', pos, data)
  }

  lemma WrittenThen(f: Bytes, f1: Bytes, f2: Bytes, pos: nat, a: Bytes, b: Bytes, ok: bool)
    requires Written(f, f1, pos, a) && IsWrite(f1, f2, pos + |a|, b, ok)
    ensures IsWrite(f, f2, pos, a + b, ok)
  {
    if ok {
      WrittenTwice(f, f1, f2, pos, a, b);
    } else {
      forall p | 0 <= p < |f| ensures f2[p] == f[p] || (pos <= p < pos + |a + b| && f2[p] == (a + b)[p - pos]) {
        assert pos <= p < pos + |a| ==> f1[p] == f1[pos..pos + |a|][p - pos];
      }
    }
  }

  lemma {:induction false} FlattenPrefix(v: seq<Sector>, w: seq<Sector>)
    requires v <= w
    ensures Flatten(v) <= Flatten(w)
  {
    FlattenAppend(v, w[|v|..]);
    assert v + w[|v|..] == w;
  }

  /** Whole sectors overwritten in a chain that now reads `v` and read `v0` before it grew. */
  lemma RunWrites(ss: nat, v0: seq<Sector>, v: seq<Sector>, i: nat, w: seq<Sector>)
    requires Sized(ss, v) && Sized(ss, w) && i + |w| <= |v| && v0 <= v
    ensures Written(Flatten(v0), Flatten(Overwrite(v, i, w)), Position(ss, i, 0), Flatten(w))
  {
    FlattenPrefix(v0, v);
    FlattenLength(ss, v[i..i + |w|]);
    FlattenLength(ss, w);
    assert Flatten(w)[0..|Flatten(w)|] == Flatten(w);
    OverwriteWrites(ss, Flatten(v0), v, i, w, 0, Flatten(w));
  }

  lemma FlattenOne(x: Sector)
    ensures Flatten([x]) == x
  {
    assert [x][1..] == [];
  }

  lemma SplicedIs(x: Sector, offset: nat, data: Bytes)
    requires offset + |data| <= |x|
    ensures Spliced(x, offset, data)[offset..offset + |data|] == data
    ensures forall k :: 0 <= k < |x| && !(offset <= k < offset + |data|) ==> Spliced(x, offset, data)[k] == x[k]
  {
  }

  lemma SectorWrites(ss: nat, v0: seq<Sector>, v: seq<Sector>, i: nat, y: Sector, offset: nat, data: Bytes)
    requires Sized(ss, v) && i + 1 <= |v| && v0 <= v && |y| == ss && offset + |data| <= ss
    requires y[offset..offset + |data|] == data
    requires |v0| <= i || forall k :: 0 <= k < ss && !(offset <= k < offset + |data|) ==> y[k] == v[i][k]
    ensures Written(Flatten(v0), Flatten(Overwrite(v, i, [y])), Position(ss, i, offset), data)
  {
    hide Flatten, Overwrite, Written;
    FlattenPrefix(v0, v);
    FlattenOne(y);
    FlattenOne(v[i]);
    FlattenLength(ss, v0);
    if |v0| <= i {
      MulBelow(|v0|, i, ss);
    }
    assert v[i..i + |[y]|] == [v[i]];
    OverwriteWrites(ss, Flatten(v0), v, i, [y], offset, data);
  }

  /** A sector that the file `f` did not reach is zero around the `n` bytes put into it. */
  ghost predicate ZeroAround(ss: nat, f: Bytes, f': Bytes, sector: nat, offset: nat, n: nat) {
    |f| <= Position(ss, sector, 0) ==>
      && Position(ss, sector, ss) <= |f'|
      && forall j :: 0 <= j < ss && !(offset <= j < offset + n) ==> f'[Position(ss, sector, j)] == 0
  }

  lemma ModifiedIsZeroAround(ss: nat, v0: seq<Sector>, v: seq<Sector>, i: nat, x: Sector, offset: nat, data: Bytes)
    requires ss > 0 && Sized(ss, v0) && Sized(ss, v) && i + 1 <= |v| && |x| == ss && offset + |data| <= ss
    requires i >= |v0| ==> forall j :: 0 <= j < ss ==> x[j] == 0
    ensures ZeroAround(ss, Flatten(v0), Flatten(Overwrite(v, i, [Spliced(x, offset, data)])), i, offset, |data|)
  {
    hide Flatten, Spliced;
    var y := Spliced(x, offset, data);
    var before, after := v[..i], v[i + 1..];
    assert Overwrite(v, i, [y]) == before + ([y] + after);
    FlattenAppend(before, [y] + after);
    FlattenAppend([y], after);
    FlattenOne(y);
    FlattenLength(ss, before);
    FlattenLength(ss, v0);
    if i < |v0| {
      MulBelow(i + 1, |v0|, ss);
      assert (i + 1) * ss == i * ss + ss;
    }
    SplicedAround(x, offset, data);
  }

  lemma SplicedAround(x: Sector, offset: nat, data: Bytes)
    requires offset + |data| <= |x|
    ensures forall j :: 0 <= j < |x| && !(offset <= j < offset + |data|) ==> Spliced(x, offset, data)[j] == x[j]
  {
  }

  /** A later sector written leaves it so; whole sectors leave nothing around them. */
  lemma ZeroAroundKept(ss: nat, f: Bytes, f1: Bytes, f2: Bytes, sector: nat, offset: nat, n: nat, more: nat,
                       data: Bytes, ok: bool)
    requires ZeroAround(ss, f, f1, sector, offset, n) && IsWrite(f1, f2, Position(ss, sector + 1, 0), data, ok)
    requires offset + n <= ss && n <= more
    ensures ZeroAround(ss, f, f2, sector, offset, more)
  {
    assert Position(ss, sector + 1, 0) == Position(ss, sector, ss);
  }

  lemma WholeHasNothingAround(ss: nat, f: Bytes, f': Bytes, sector: nat, data: Bytes)
    requires ss <= |data| && Written(f, f', Position(ss, sector, 0), data)
    ensures ZeroAround(ss, f, f', sector, 0, |data|)
  {
  }

  /** One sector, read or past the end of the chain, written back with some of its bytes replaced. */
  lemma ModifyWrites(ss: nat, v0: seq<Sector>, v: seq<Sector>, i: nat, x: Sector, offset: nat, data: Bytes)
    requires Sized(ss, v) && i + 1 <= |v| && v0 <= v && |x| == ss && offset + |data| <= ss
    requires i < |v0| ==> x == v0[i]
    ensures Written(Flatten(v0), Flatten(Overwrite(v, i, [Spliced(x, offset, data)])), Position(ss, i, offset), data)
  {
    hide Spliced, Flatten, Overwrite, Written;
    SplicedIs(x, offset, data);
    SectorWrites(ss, v0, v, i, Spliced(x, offset, data), offset, data);
  }
}
