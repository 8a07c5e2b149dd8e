/** Splitting an address range into CIDR blocks: the arithmetic of aligned blocks, what the
    best split is, and why it is the only one of its kind. */
module Cidr {
  import opened Bytes

  // ---------- Bits of a number ----------

  /** Bit k of x. */
  function Bit(x: nat, k: nat): (b: nat)
    ensures b <= 1
  {
    if k == 0 then x % 2 else Bit(x / 2, k - 1)
  }

  /** The low k bits of x. */
  function Low(x: nat, k: nat): (r: nat)
    ensures r <= x
  {
    if k == 0 then 0 else x % 2 + 2 * Low(x / 2, k - 1)
  }

  /** x with its low k bits cleared. */
  function Floor(x: nat, k: nat): nat {
    x - Low(x, k)
  }

  /** x | (1 << k) */
  function SetBit(x: nat, k: nat): nat {
    if k == 0 then x - x % 2 + 1 else 2 * SetBit(x / 2, k - 1) + x % 2
  }

  /** x | (2^k - 1) */
  function OrLow(x: nat, k: nat): nat {
    if k == 0 then x else 2 * OrLow(x / 2, k - 1) + 1
  }

  /** x & y on n bits */
  function And(x: nat, y: nat, n: nat): nat {
    if n == 0 then 0 else 2 * And(x / 2, y / 2, n - 1) + (x % 2) * (y % 2)
  }

  lemma {:induction false} LowBelow(x: nat, k: nat)
    ensures Low(x, k) < Pow2(k)
  {
    if k > 0 {
      LowBelow(x / 2, k - 1);
    }
  }

  lemma {:induction false} LowStep(x: nat, k: nat)
    ensures Low(x, k + 1) == Low(x, k) + if Bit(x, k) == 1 then Pow2(k) else 0
  {
    if k > 0 {
      LowStep(x / 2, k - 1);
    }
  }

  lemma {:induction false} LowOfSum(b: nat, d: nat, k: nat)
    requires Low(b, k) == 0 && d < Pow2(k)
    ensures Low(b + d, k) == d
  {
    if k > 0 {
      assert (b + d) % 2 == d % 2 && (b + d) / 2 == b / 2 + d / 2;
      LowOfSum(b / 2, d / 2, k - 1);
    }
  }

  lemma {:induction false} LowZeroBelow(x: nat, k: nat, m: nat)
    requires k <= m && Low(x, m) == 0
    ensures Low(x, k) == 0
  {
    if k > 0 {
      LowZeroBelow(x / 2, k - 1, m - 1);
    }
  }

  /** Clearing more bits moves down, and the block of 2^m around x contains the block of 2^k. */
  lemma {:induction false} FloorNested(x: nat, k: nat, m: nat)
    requires k <= m
    ensures Floor(x, m) <= Floor(x, k)
    ensures Floor(x, k) + Pow2(k) <= Floor(x, m) + Pow2(m)
    decreases m - k
  {
    hide Low, Bit;
    if k < m {
      LowStep(x, k);
      FloorNested(x, k + 1, m);
    }
  }

  lemma {:induction false} FloorAligned(x: nat, k: nat)
    ensures Low(Floor(x, k), k) == 0
  {
    if k > 0 {
      assert Floor(x, k) == 2 * Floor(x / 2, k - 1);
      FloorAligned(x / 2, k - 1);
    }
  }

  lemma {:induction false} SetBitValue(x: nat, k: nat)
    ensures SetBit(x, k) == if Bit(x, k) == 1 then x else x + Pow2(k)
  {
    if k > 0 {
      SetBitValue(x / 2, k - 1);
    }
  }

  lemma {:induction false} OrLowValue(x: nat, k: nat)
    ensures OrLow(x, k) == Floor(x, k) + Pow2(k) - 1
  {
    if k > 0 {
      OrLowValue(x / 2, k - 1);
    }
  }

  lemma {:induction false} Pow2Monotone(k: nat, m: nat)
    requires k <= m
    ensures Pow2(k) <= Pow2(m) && (k < m ==> 2 * Pow2(k) <= Pow2(m))
    decreases m - k
  {
    if k < m {
      Pow2Monotone(k + 1, m);
    }
  }

  lemma {:induction false} Pow2Of32()
    ensures Pow2(32) == TWO32
  {
    assert Pow2(8) == 256;
    assert Pow2(16) == 65536;
    assert Pow2(24) == 16777216;
  }

  // ---------- Blocks ----------

  type Mask = m: nat | m <= 32

  /** A CIDR block: base address and mask length. */
  datatype Block = Block(base: nat, mask: Mask)

  function Size(b: Block): nat {
    Pow2(32 - b.mask)
  }

  function Last(b: Block): nat
    ensures Last(b) >= b.base
  {
    b.base + Size(b) - 1
  }

  predicate Aligned(b: Block) {
    Low(b.base, 32 - b.mask) == 0
  }

  predicate Contains(b: Block, x: nat) {
    b.base <= x <= Last(b)
  }

  predicate Inside(b: Block, lo: nat, hi: nat) {
    lo <= b.base && Last(b) <= hi
  }

  /** The block with one bit less that contains b. */
  function Parent(b: Block): Block
    requires 0 < b.mask
  {
    Block(Floor(b.base, 33 - b.mask), b.mask - 1)
  }

  /** The largest aligned block around its addresses that fits the range. */
  predicate Maximal(b: Block, lo: nat, hi: nat) {
    Aligned(b) && Inside(b, lo, hi) && (b.mask > 0 ==> !Inside(Parent(b), lo, hi))
  }

  /** Ascending blocks, back to back from address `from` up to but not including `to`,
      each maximal in the range lo..hi. */
  predicate Tiles(from: nat, to: nat, lo: nat, hi: nat, bs: seq<Block>)
    decreases bs
  {
    if bs == [] then from == to
    else bs[0].base == from && Maximal(bs[0], lo, hi) && Tiles(Last(bs[0]) + 1, to, lo, hi, bs[1..])
  }

  /** The CIDR split of a range. */
  predicate Splits(bs: seq<Block>, lo: nat, hi: nat) {
    Tiles(lo, hi + 1, lo, hi, bs)
  }

  lemma {:induction false} ContainsFloor(b: Block, x: nat)
    requires Aligned(b)
    ensures Contains(b, x) <==> Floor(x, 32 - b.mask) == b.base
  {
    hide Low, Pow2;
    var k := 32 - b.mask;
    if Contains(b, x) {
      LowOfSum(b.base, x - b.base, k);
    }
    LowBelow(x, k);
  }

  lemma {:induction false} ParentContains(b: Block)
    requires Aligned(b) && b.mask > 0
    ensures Aligned(Parent(b)) && Parent(b).base <= b.base && Last(b) <= Last(Parent(b))
  {
    hide Low, Pow2;
    FloorAligned(b.base, 33 - b.mask);
    FloorNested(b.base, 32 - b.mask, 33 - b.mask);
    ContainsFloor(b, b.base);
  }

  /** Aligned blocks that share an address are nested. */
  lemma {:induction false} Laminar(c: Block, b: Block, x: nat)
    requires Aligned(c) && Aligned(b) && Contains(c, x) && Contains(b, x) && b.mask <= c.mask
    ensures b.base <= c.base && Last(c) <= Last(b)
  {
    hide Low, Pow2, Floor, Contains, Aligned;
    ContainsFloor(c, x);
    ContainsFloor(b, x);
    FloorNested(x, 32 - c.mask, 32 - b.mask);
  }

  /** An aligned block of the range that meets a maximal block lies within it. */
  lemma {:induction false} WithinMaximal(c: Block, b: Block, x: nat, lo: nat, hi: nat)
    requires Aligned(c) && Inside(c, lo, hi) && Maximal(b, lo, hi)
    requires Contains(c, x) && Contains(b, x)
    ensures b.base <= c.base && Last(c) <= Last(b)
  {
    if b.mask <= c.mask {
      Laminar(c, b, x);
    } else {
      ParentContains(b);
      Laminar(Parent(b), c, x);
    }
  }

  lemma {:induction false} TilesAppend(from: nat, to: nat, lo: nat, hi: nat, bs: seq<Block>, b: Block)
    requires Tiles(from, to, lo, hi, bs) && b.base == to && Maximal(b, lo, hi)
    ensures Tiles(from, Last(b) + 1, lo, hi, bs + [b])
    decreases bs
  {
    if bs == [] {
      assert (bs + [b])[1..] == [];
    } else {
      assert (bs + [b])[1..] == bs[1..] + [b];
      TilesAppend(Last(bs[0]) + 1, to, lo, hi, bs[1..], b);
    }
  }

  lemma {:induction false} TilesConcat(from: nat, mid: nat, to: nat, lo: nat, hi: nat, a: seq<Block>, b: seq<Block>)
    requires Tiles(from, mid, lo, hi, a) && Tiles(mid, to, lo, hi, b)
    ensures Tiles(from, to, lo, hi, a + b)
    decreases a
  {
    hide Maximal, Last;
    if a == [] {
      assert a + b == b;
    } else {
      assert (a + b)[1..] == a[1..] + b;
      TilesConcat(Last(a[0]) + 1, mid, to, lo, hi, a[1..], b);
    }
  }

  /** There is only one split of a range. */
  lemma {:induction false} TilesUnique(from: nat, to: nat, lo: nat, hi: nat, a: seq<Block>, b: seq<Block>)
    requires Tiles(from, to, lo, hi, a) && Tiles(from, to, lo, hi, b)
    ensures a == b
    decreases a
  {
    if a != [] && b != [] {
      WithinMaximal(a[0], b[0], from, lo, hi);
      WithinMaximal(b[0], a[0], from, lo, hi);
      SizeInjective(a[0], b[0]);
      TilesUnique(Last(a[0]) + 1, to, lo, hi, a[1..], b[1..]);
    } else if a != [] {
      TilesForward(from, to, lo, hi, a);
    } else if b != [] {
      TilesForward(from, to, lo, hi, b);
    }
  }

  lemma {:induction false} TilesForward(from: nat, to: nat, lo: nat, hi: nat, a: seq<Block>)
    requires Tiles(from, to, lo, hi, a)
    ensures from + |a| <= to
    decreases a
  {
    if a != [] {
      TilesForward(Last(a[0]) + 1, to, lo, hi, a[1..]);
    }
  }

  lemma {:induction false} SizeInjective(a: Block, b: Block)
    requires Size(a) == Size(b)
    ensures a.mask == b.mask
  {
    Pow2Monotone(32 - a.mask, if a.mask <= b.mask then 32 - a.mask else 32 - b.mask);
    Pow2Monotone(32 - b.mask, if b.mask <= a.mask then 32 - b.mask else 32 - a.mask);
  }

  /** The blocks of a split cover the range and nothing else, each address once. */
  lemma {:induction false} TilesCover(from: nat, to: nat, lo: nat, hi: nat, bs: seq<Block>, x: nat)
    requires Tiles(from, to, lo, hi, bs)
    ensures forall i :: 0 <= i < |bs| ==> Maximal(bs[i], lo, hi) && from <= bs[i].base && Last(bs[i]) < to
    ensures from <= x < to <==> exists i :: 0 <= i < |bs| && Contains(bs[i], x)
    ensures forall i, j :: 0 <= i < j < |bs| ==> Last(bs[i]) < bs[j].base
    decreases bs
  {
    if bs != [] {
      var rest := bs[1..];
      var next := Last(bs[0]) + 1;
      TilesForward(next, to, lo, hi, rest);
      TilesCover(next, to, lo, hi, rest, x);
      assert forall i :: 0 < i < |bs| ==> bs[i] == rest[i - 1];
      if from <= x < to {
        if x < next {
          assert Contains(bs[0], x);
        } else {
          var i :| 0 <= i < |rest| && Contains(rest[i], x);
          assert Contains(bs[i + 1], x);
        }
      }
    }
  }

  // ---------- Minimality ----------

  /** The positions in cs of the blocks that start at `from` or later. */
  function StartingFrom(cs: seq<Block>, from: nat): set<nat> {
    set j: nat | j < |cs| && cs[j].base >= from :: j
  }

  ghost predicate Covers(cs: seq<Block>, lo: nat, hi: nat) {
    && (forall j :: 0 <= j < |cs| ==> Aligned(cs[j]) && Inside(cs[j], lo, hi))
    && (forall x :: lo <= x <= hi ==> CoveredBy(cs, x))
  }

  ghost predicate CoveredBy(cs: seq<Block>, x: nat) {
    exists j :: 0 <= j < |cs| && Contains(cs[j], x)
  }

  lemma {:induction false} FewestFrom(from: nat, to: nat, lo: nat, hi: nat, bs: seq<Block>, cs: seq<Block>)
    requires Tiles(from, to, lo, hi, bs) && lo <= from && Covers(cs, lo, hi)
    ensures |bs| <= |StartingFrom(cs, from)|
    decreases bs
  {
    if bs != [] {
      var b := bs[0];
      assert CoveredBy(cs, from);
      var j: nat :| j < |cs| && Contains(cs[j], from);
      WithinMaximal(cs[j], b, from, lo, hi);
      FewestFrom(Last(b) + 1, to, lo, hi, bs[1..], cs);
      var rest := StartingFrom(cs, Last(b) + 1);
      assert j in StartingFrom(cs, from) && j !in rest;
      assert rest + {j} <= StartingFrom(cs, from);
      SubsetSize(rest + {j}, StartingFrom(cs, from));
    }
  }

  lemma {:induction false} SubsetSize(a: set<nat>, b: set<nat>)
    requires a <= b
    ensures |a| <= |b|
  {
    assert b == a + (b - a);
  }

  function Upto(n: nat): set<nat> {
    if n == 0 then {} else Upto(n - 1) + {n - 1}
  }

  lemma {:induction false} UptoSize(n: nat)
    ensures |Upto(n)| == n && forall j: nat :: j in Upto(n) <==> j < n
  {
    if n > 0 {
      UptoSize(n - 1);
    }
  }

  /** No list of aligned blocks that covers exactly the range is shorter than the split. */
  lemma {:induction false} SplitIsFewest(lo: nat, hi: nat, bs: seq<Block>, cs: seq<Block>)
    requires Splits(bs, lo, hi) && Covers(cs, lo, hi)
    ensures |bs| <= |cs|
  {
    FewestFrom(lo, hi + 1, lo, hi, bs, cs);
    UptoSize(|cs|);
    SubsetSize(StartingFrom(cs, lo), Upto(|cs|));
  }
}
