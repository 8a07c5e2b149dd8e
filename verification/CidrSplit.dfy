/** The two splitters of the repository: the greedy loop of src/ip4_deaggregate.c and the
    recursive one of scripts/veridns/ip4.pm. Both produce the one CIDR split of the range. */
module CidrSplit {
  import opened Bytes
  import opened Cidr

  /** The list both splitters append to. */
  class BlockList {
    var blocks: seq<Block>

    constructor ()
      ensures blocks == []
    {
      blocks := [];
    }
  }

  // ---------- The greedy splitter ----------

  /** A block that would start before `from` would have been taken by the blocks already chosen. */
  lemma {:induction false} NotTakenEarlier(p: Block, from: nat, lo: nat, hi: nat, bs: seq<Block>)
    requires Tiles(lo, from, lo, hi, bs) && Aligned(p) && p.base < from <= Last(p)
    ensures !Inside(p, lo, hi)
  {
    if Inside(p, lo, hi) {
      hide Maximal, Aligned, Tiles;
      TilesCover(lo, from, lo, hi, bs, p.base);
      var i :| 0 <= i < |bs| && Contains(bs[i], p.base);
      MaximalAligned(bs[i], lo, hi);
      WithinMaximal(p, bs[i], p.base, lo, hi);
    }
  }

  lemma {:induction false} MaximalAligned(b: Block, lo: nat, hi: nat)
    requires Maximal(b, lo, hi)
    ensures Aligned(b) && Inside(b, lo, hi)
  {
  }

  /** Raising `step` while the next bit of base is clear and the larger block still fits
      stops at the block that is maximal in the range. */
  lemma {:induction false} GreedyBlock(base: nat, step: nat, lo: nat, hi: nat, bs: seq<Block>)
    requires Tiles(lo, base, lo, hi, bs) && lo <= base && step < 32
    requires Low(base, step) == 0 && base + Pow2(step) - 1 <= hi
    requires Bit(base, step) == 1 || OrLow(base, step + 1) > hi
    ensures Maximal(Block(base, 32 - step), lo, hi)
  {
    hide Low, Bit, OrLow, Tiles;
    LowStep(base, step);
    OrLowValue(base, step + 1);
    var b := Block(base, 32 - step);
    ParentContains(b);
    if Bit(base, step) == 1 {
      NotTakenEarlier(Parent(b), base, lo, hi, bs);
    }
  }

  /** There are more blocks to come. */
  predicate GoesOn(base: Word, hostmax: Word) {
    base <= hostmax
  }

  /** The loop over the blocks can come to an end exactly if the range does not end at the last address: no
      32-bit address is beyond that. */
  lemma {:induction false} EndsIff(hostmax: Word)
    ensures (exists base: Word :: !GoesOn(base, hostmax)) <==> hostmax < TWO32 - 1
  {
    if hostmax < TWO32 - 1 {
      assert !GoesOn(hostmax + 1, hostmax);
    }
  }

  /** ip4_deaggregate: appends the split of the range. */
  method Deaggregate(hostmin: Word, hostmax: Word, subnets: BlockList)
    requires hostmax < TWO32 - 1
    modifies subnets
    ensures old(subnets.blocks) <= subnets.blocks
    ensures hostmin <= hostmax ==> Splits(subnets.blocks[|old(subnets.blocks)|..], hostmin, hostmax)
    ensures hostmin > hostmax ==> subnets.blocks == old(subnets.blocks)
  {
    hide Low, Bit, OrLow, SetBit, Maximal, Tiles;
    var base: Word := hostmin;
    ghost var bs := [];
    TilesNone(hostmin, hostmin, hostmax);
    while GoesOn(base, hostmax)
      invariant subnets.blocks == old(subnets.blocks) + bs
      invariant hostmin <= hostmax ==> base <= hostmax + 1 && Tiles(hostmin, base, hostmin, hostmax, bs)
      invariant hostmin <= base && (hostmin > hostmax ==> bs == [])
      decreases hostmax + 1 - base
    {
      var step := 0;
      LowNone(base);
      while SetBit(base, step) != base
        invariant subnets.blocks == old(subnets.blocks) + bs
        invariant step < 32 && Low(base, step) == 0 && base + Pow2(step) - 1 <= hostmax
        decreases 32 - step
      {
        SetBitValue(base, step);
        LowStep(base, step);
        OrLowValue(base, step + 1);
        if OrLow(base, step + 1) > hostmax {
          break;
        }
        Pow2Of32();
        step := step + 1;
      }
      SetBitValue(base, step);
      GreedyBlock(base, step, hostmin, hostmax, bs);
      var b := Block(base, 32 - step);
      TilesAppend(hostmin, base, hostmin, hostmax, bs, b);
      subnets.blocks := subnets.blocks + [b];
      bs := bs + [b];
      base := Add32(base, Pow2(step));
    }
  }

  lemma {:induction false} TilesNone(from: nat, lo: nat, hi: nat)
    ensures Tiles(from, from, lo, hi, [])
  {
  }

  lemma {:induction false} LowNone(x: nat)
    ensures Low(x, 0) == 0
  {
  }

  // ---------- The recursive splitter ----------

  type Digit = d: nat | d <= 1
  type Bits = seq<Digit>

  /** bits2num: most significant bit first. */
  function Num(s: Bits): nat {
    if s == [] then 0 else 2 * Num(s[..|s| - 1]) + s[|s| - 1]
  }

  /** num2bits on n bits. */
  function Digits(x: nat, n: nat): (s: Bits)
    ensures |s| == n
  {
    if n == 0 then [] else Digits(x / 2, n - 1) + [x % 2]
  }

  /** The Perl repetition operator on one digit. */
  function Rep(d: Digit, n: nat): (s: Bits)
    ensures |s| == n && forall i :: 0 <= i < n ==> s[i] == d
  {
    seq(n, _ => d)
  }

  function Shift(x: nat, k: nat): nat {
    if k == 0 then x else 2 * Shift(x, k - 1)
  }

  lemma {:induction false} DigitsNum(x: nat, n: nat)
    requires x < Pow2(n)
    ensures Num(Digits(x, n)) == x
  {
    if n > 0 {
      DigitsNum(x / 2, n - 1);
    }
  }

  lemma {:induction false} NumConcat(a: Bits, b: Bits)
    ensures Num(a + b) == Shift(Num(a), |b|) + Num(b)
  {
    if b == [] {
      assert a + b == a;
    } else {
      assert (a + b)[..|a + b| - 1] == a + b[..|b| - 1];
      NumConcat(a, b[..|b| - 1]);
    }
  }

  lemma {:induction false} NumRep(n: nat)
    ensures Num(Rep(0, n)) == 0 && Num(Rep(1, n)) == Pow2(n) - 1
  {
    if n > 0 {
      assert Rep(0, n)[..n - 1] == Rep(0, n - 1) && Rep(1, n)[..n - 1] == Rep(1, n - 1);
      NumRep(n - 1);
    }
  }

  lemma {:induction false} NumBelow(s: Bits)
    ensures Num(s) < Pow2(|s|)
  {
    if s != [] {
      NumBelow(s[..|s| - 1]);
    }
  }

  lemma {:induction false} NumInjective(a: Bits, b: Bits)
    requires |a| == |b| && Num(a) == Num(b)
    ensures a == b
  {
    if a != [] {
      NumInjective(a[..|a| - 1], b[..|b| - 1]);
      assert a == a[..|a| - 1] + [a[|a| - 1]] && b == b[..|b| - 1] + [b[|b| - 1]];
    }
  }

  lemma {:induction false} ShiftLow(x: nat, k: nat)
    ensures Low(Shift(x, k), k) == 0
  {
    if k > 0 {
      ShiftLow(x, k - 1);
    }
  }

  /** How far two bit lists agree. */
  function Common(f: Bits, l: Bits): (c: nat)
    ensures c <= |f|
  {
    if f == [] || l == [] || f[0] != l[0] then 0 else 1 + Common(f[1..], l[1..])
  }

  lemma {:induction false} CommonIs(f: Bits, l: Bits, c: nat)
    requires c <= |f| && c <= |l| && f[..c] == l[..c]
    ensures Common(f, l) >= c
    ensures (c == |f| || c == |l| || f[c] != l[c]) ==> Common(f, l) == c
  {
    if c > 0 {
      assert f[0] == f[..c][0] && l[0] == l[..c][0];
      assert f[1..][..c - 1] == f[..c][1..] && l[1..][..c - 1] == l[..c][1..];
      CommonIs(f[1..], l[1..], c - 1);
    }
  }

  /** The blocks of a smaller range that ends at the middle of a block of the larger range stay
      maximal: their parents cannot cross the middle without containing the whole outer block. */
  lemma {:induction false} MaximalAcross(b: Block, q: Block, mid: nat, lo: nat, hi: nat)
    requires Aligned(q) && q.mask < 32 && mid == q.base + Pow2(31 - q.mask)
    requires q.base <= lo < mid <= hi <= Last(q) && !(lo == q.base && hi == Last(q))
    requires Maximal(b, lo, mid - 1) || Maximal(b, mid, hi)
    ensures Maximal(b, lo, hi)
  {
    if b.mask > 0 && Inside(Parent(b), lo, hi) {
      hide Low, Maximal;
      MaximalParts(b, lo, mid - 1);
      MaximalParts(b, mid, hi);
      var p := Parent(b);
      ParentContains(b);
      assert Contains(p, mid - 1) && Contains(p, mid);
      var right := Block(mid, q.mask + 1);
      RightHalf(q);
      if p.mask <= q.mask {
        Laminar(q, p, mid);
      } else {
        Laminar(p, right, mid);
      }
    }
  }

  lemma {:induction false} MaximalParts(b: Block, lo: nat, hi: nat)
    requires b.mask > 0
    ensures Maximal(b, lo, hi) ==> Aligned(b) && Inside(b, lo, hi) && !Inside(Parent(b), lo, hi)
  {
  }

  lemma {:induction false} RightHalf(q: Block)
    requires Aligned(q) && q.mask < 32
    ensures Aligned(Block(q.base + Pow2(31 - q.mask), q.mask + 1))
    ensures Size(q) == 2 * Pow2(31 - q.mask)
  {
    var k := 31 - q.mask;
    LowZeroBelow(q.base, k, k + 1);
    LowOfMore(q.base, k);
  }

  lemma {:induction false} LowOfMore(x: nat, k: nat)
    requires Low(x, k) == 0
    ensures Low(x + Pow2(k), k) == 0
  {
    if k > 0 {
      assert (x + Pow2(k)) / 2 == x / 2 + Pow2(k - 1);
      LowOfMore(x / 2, k - 1);
    }
  }

  lemma {:induction false} TilesAcross(from: nat, to: nat, bs: seq<Block>, q: Block, mid: nat, lo: nat, hi: nat,
                                       left: bool)
    requires Aligned(q) && q.mask < 32 && mid == q.base + Pow2(31 - q.mask)
    requires q.base <= lo < mid <= hi <= Last(q) && !(lo == q.base && hi == Last(q))
    requires if left then Tiles(from, to, lo, mid - 1, bs) else Tiles(from, to, mid, hi, bs)
    ensures Tiles(from, to, lo, hi, bs)
    decreases bs
  {
    hide Maximal, Aligned, Last;
    if bs != [] {
      MaximalAcross(bs[0], q, mid, lo, hi);
      TilesAcross(Last(bs[0]) + 1, to, bs[1..], q, mid, lo, hi, left);
    }
  }

  /** The bits of a range whose ends first differ at position c. */
  lemma {:induction false} SplitPoint(f: Bits, l: Bits, c: nat)
    requires |f| == |l| == 32 && Num(f) <= Num(l) && c < 32 && f[..c] == l[..c] && f[c] != l[c]
    ensures f[c] == 0 && l[c] == 1
    ensures var q := Block(Shift(Num(f[..c]), 32 - c), c); var mid := q.base + Pow2(31 - c);
            && Aligned(q) && q.base <= Num(f) < mid <= Num(l) <= Last(q)
            && Num(f[..c] + [0] + Rep(1, 31 - c)) == mid - 1
            && Num(f[..c] + [1] + Rep(0, 31 - c)) == mid
            && Num(f[..c] + Rep(0, 32 - c)) == q.base
            && Num(f[..c] + Rep(1, 32 - c)) == Last(q)
  {
    hide Low, Num, Pow2;
    var p, s := f[..c], 31 - c;
    Halves(p, f[c], f[c + 1..]);
    Halves(p, l[c], l[c + 1..]);
    assert f == p + [f[c]] + f[c + 1..] && l == p + [l[c]] + l[c + 1..];
    NumRep(s);
    Halves(p, 0, Rep(1, s));
    Halves(p, 1, Rep(0, s));
    NumRep(s + 1);
    NumConcat(p, Rep(0, s + 1));
    NumConcat(p, Rep(1, s + 1));
    ShiftLow(Num(p), s + 1);
  }

  lemma {:induction false} Halves(p: Bits, d: Digit, s: Bits)
    ensures Num(p + [d] + s) == Shift(Num(p), |s| + 1) + (if d == 1 then Pow2(|s|) else 0) + Num(s)
    ensures Num(s) < Pow2(|s|) && Pow2(|s| + 1) == 2 * Pow2(|s|)
  {
    NumBelow(s);
    assert p + [d] + s == p + ([d] + s);
    NumConcat(p, [d] + s);
    NumConcat([d], s);
    assert [d][..0] == [];
    assert Num([d]) == d;
    ShiftOne(|s|);
  }

  lemma {:induction false} ShiftOne(k: nat)
    ensures Shift(1, k) == Pow2(k) && Shift(0, k) == 0
  {
    if k > 0 {
      ShiftOne(k - 1);
    }
  }

  /** The whole block between two ends is the split of its range. */
  lemma {:induction false} WholeBlock(q: Block)
    requires Aligned(q)
    ensures Splits([q], q.base, Last(q))
  {
    assert [q][1..] == [];
    if q.mask > 0 {
      ParentContains(q);
      Pow2Monotone(32 - q.mask, 33 - q.mask);
    }
  }

  /** do_chunk: appends the split of the range between two addresses given as 32 bits each. */
  method DoChunk(chunks: BlockList, fbits: Bits, lbits: Bits)
    requires |fbits| == |lbits| == 32 && Num(fbits) <= Num(lbits)
    modifies chunks
    ensures old(chunks.blocks) <= chunks.blocks
    ensures Splits(chunks.blocks[|old(chunks.blocks)|..], Num(fbits), Num(lbits))
    decreases 32 - Common(fbits, lbits)
  {
    hide Low, Num, Tiles, Maximal, Common, Aligned, Shift, Pow2;
    ghost var before := chunks.blocks;
    var idx1 := 0;
    while idx1 < 32 && fbits[idx1] == lbits[idx1]
      invariant idx1 <= 32 && fbits[..idx1] == lbits[..idx1]
    {
      idx1 := idx1 + 1;
    }
    CommonIs(fbits, lbits, idx1);
    var prefix := fbits[..idx1];
    var idx2 := 31;
    while idx2 >= idx1 && fbits[idx2] == 0 && lbits[idx2] == 1
      invariant idx1 - 1 <= idx2 <= 31
      invariant forall k :: idx2 < k < 32 ==> fbits[k] == 0 && lbits[k] == 1
      decreases idx2
    {
      idx2 := idx2 - 1;
    }
    if idx2 >= idx1 {
      var size := 31 - idx1;
      SplitPoint(fbits, lbits, idx1);
      var lower := prefix + [0] + Rep(1, size);
      var upper := prefix + [1] + Rep(0, size);
      NotWhole(fbits, lbits, idx1, idx2);
      assert lower[..idx1 + 1] == fbits[..idx1 + 1] && upper[..idx1 + 1] == lbits[..idx1 + 1];
      CommonIs(fbits, lower, idx1 + 1);
      CommonIs(upper, lbits, idx1 + 1);
      DoChunk(chunks, fbits, lower);
      ghost var middle := chunks.blocks;
      DoChunk(chunks, upper, lbits);
      JoinSplits(fbits, lbits, idx1, middle[|before|..], chunks.blocks[|middle|..]);
      assert chunks.blocks[|before|..] == middle[|before|..] + chunks.blocks[|middle|..];
    } else {
      var size := 31 - idx2;
      ghost var q := OneBlock(fbits, lbits, idx1);
      chunks.blocks := chunks.blocks + [Block(Num(prefix + Rep(0, size)), 32 - size)];
      WholeBlock(q);
      assert chunks.blocks[|before|..] == [q];
    }
  }

  lemma {:induction false} NotWhole(f: Bits, l: Bits, c: nat, d: nat)
    requires |f| == |l| == 32 && c <= d < 32 && f[..c] == l[..c] && !(f[d] == 0 && l[d] == 1)
    ensures !(Num(f) == Num(f[..c] + Rep(0, 32 - c)) && Num(l) == Num(f[..c] + Rep(1, 32 - c)))
  {
    hide Num;
    if Num(f) == Num(f[..c] + Rep(0, 32 - c)) && Num(l) == Num(f[..c] + Rep(1, 32 - c)) {
      NumInjective(f, f[..c] + Rep(0, 32 - c));
      NumInjective(l, f[..c] + Rep(1, 32 - c));
    }
  }

  lemma {:induction false} JoinSplits(f: Bits, l: Bits, c: nat, a: seq<Block>, b: seq<Block>)
    requires |f| == |l| == 32 && Num(f) <= Num(l) && c < 32 && f[..c] == l[..c] && f[c] != l[c]
    requires !(Num(f) == Num(f[..c] + Rep(0, 32 - c)) && Num(l) == Num(f[..c] + Rep(1, 32 - c)))
    requires Splits(a, Num(f), Num(f[..c] + [0] + Rep(1, 31 - c)))
    requires Splits(b, Num(f[..c] + [1] + Rep(0, 31 - c)), Num(l))
    ensures Splits(a + b, Num(f), Num(l))
  {
    hide Low, Num, Tiles, Shift, Pow2, Aligned;
    SplitPoint(f, l, c);
    var q := Block(Shift(Num(f[..c]), 32 - c), c);
    var mid := q.base + Pow2(31 - c);
    var lo, hi := Num(f), Num(l);
    TilesAcross(lo, mid, a, q, mid, lo, hi, true);
    TilesAcross(mid, hi + 1, b, q, mid, lo, hi, false);
    TilesConcat(lo, mid, hi + 1, lo, hi, a, b);
  }

  lemma {:induction false} OneBlock(f: Bits, l: Bits, c: nat) returns (q: Block)
    requires |f| == |l| == 32 && c <= 32 && f[..c] == l[..c]
    requires forall k :: c <= k < 32 ==> f[k] == 0 && l[k] == 1
    ensures q == Block(Num(f[..c] + Rep(0, 32 - c)), c) && Aligned(q)
    ensures Num(f) == q.base && Num(l) == Last(q)
  {
    hide Num, Low, Pow2;
    var p, s := f[..c], 32 - c;
    assert f == p + Rep(0, s) && l == p + Rep(1, s);
    NumRep(s);
    NumConcat(p, Rep(0, s));
    NumConcat(p, Rep(1, s));
    ShiftLow(Num(p), s);
    q := Block(Num(f), c);
  }

  /** ip4_tocidr on addresses already read as numbers. */
  method ToCidr(first: Word, last: Word) returns (chunks: BlockList)
    requires first <= last
    ensures fresh(chunks) && Splits(chunks.blocks, first, last)
  {
    chunks := new BlockList();
    Pow2Of32();
    DigitsNum(first, 32);
    DigitsNum(last, 32);
    DoChunk(chunks, Digits(first, 32), Digits(last, 32));
    assert chunks.blocks[0..] == chunks.blocks;
  }

  /** Both splitters give the same list, whatever the range. */
  method SplittersAgree(first: Word, last: Word) returns (greedy: BlockList, recursive: BlockList)
    requires first <= last < TWO32 - 1
    ensures greedy.blocks == recursive.blocks
    ensures Splits(greedy.blocks, first, last)
  {
    greedy := new BlockList();
    Deaggregate(first, last, greedy);
    assert greedy.blocks[0..] == greedy.blocks;
    recursive := ToCidr(first, last);
    TilesUnique(first, last + 1, first, last, greedy.blocks, recursive.blocks);
  }
}
