/** What several of the models share. */
module Basics {

  datatype Option<+T> = None | Some(value: T)

  type Byte = x: int | 0 <= x < 256
  type Bytes = seq<Byte>

  /** A unit of UTF-16. */
  type Unit = x: int | 0 <= x < 65536
  type Text = seq<Unit>

  lemma BitsOfByte(b: Byte)
    ensures (b as bv8) as int == b
  {
    hide *;
    var x := ByteHasBits(b);
    BitsBack(x);
  }

  lemma {:induction false} ByteHasBits(b: Byte) returns (x: bv8)
    ensures x as int == b
  {
    if b == 0 {
      x := 0;
    } else {
      x := ByteHasBits(b - 1);
      NextBits(x);
      x := x + 1;
    }
  }

  lemma NextBits(x: bv8)
    ensures x as int < 255 ==> (x + 1) as int == x as int + 1
  {
  }

  lemma BitsBack(x: bv8)
    ensures x as int as bv8 == x
  {
  }

  lemma MulBelow(a: int, b: int, n: nat)
    requires a <= b
    ensures a * n <= b * n
  {
  }

  lemma SliceOfSlice<T>(s: seq<T>, lo: nat, hi: nat, off: nat, n: nat)
    requires lo + off + n <= hi <= |s|
    ensures s[lo..hi][off..off + n] == s[lo + off..lo + off + n]
  {
    var inner, direct := s[lo..hi][off..off + n], s[lo + off..lo + off + n];
    assert forall i :: 0 <= i < n ==> inner[i] == direct[i];
  }
}
