/** The in-place bottom-up heapsort of src/query.c, on record positions. Nodes are numbered from 1;
    node c is at index c - 1 and its parent is node c / 2. */
module Heapsort {
  import opened Basics
  import opened Bytes
  import opened DnsPacket
  import opened RecordOrder

  ghost predicate AllParsable(buf: seq<Byte>, s: seq<nat>) {
    forall k :: 0 <= k < |s| ==> Parsable(buf, s[k])
  }

  /** No child c has a key above its parent's. */
  ghost predicate Below(buf: seq<Byte>, s: seq<nat>, c: nat, p: nat) {
    0 < c <= |s| && 0 < p <= |s| && Parsable(buf, s[c - 1]) && Parsable(buf, s[p - 1]) && Leq(buf, s[c - 1], s[p - 1])
  }

  /** Nodes i..j form heaps. */
  ghost predicate Heap(buf: seq<Byte>, s: seq<nat>, i: nat, j: nat) {
    forall c :: 2 <= c <= j && c / 2 >= i ==> Below(buf, s, c, c / 2)
  }

  /** Nodes i..j form heaps but for node q, whose content does not count: its children are below
      its parent. */
  ghost predicate HoleHeap(buf: seq<Byte>, s: seq<nat>, i: nat, j: nat, q: nat) {
    && (forall c :: 2 <= c <= j && c / 2 >= i && c != q && c / 2 != q ==> Below(buf, s, c, c / 2))
    && (forall c :: 2 <= c <= j && c / 2 == q && q / 2 >= i ==> Below(buf, s, c, q / 2))
  }

  /** Node q is node i or under it. */
  predicate Under(q: nat, i: nat)
    decreases q
  {
    q == i || (q > i && Under(q / 2, i))
  }

  lemma {:induction false} UnderSelf(i: nat)
    ensures Under(i, i)
  {
  }

  lemma {:induction false} UnderParent(q: nat, i: nat)
    requires Under(q, i) && q > i && i >= 1
    ensures q / 2 >= i && Under(q / 2, i)
  {
    UnderAtLeast(q / 2, i);
  }

  lemma {:induction false} UnderAtLeast(q: nat, i: nat)
    requires Under(q, i)
    ensures q >= i
  {
  }

  lemma {:induction false} BelowTransitive(buf: seq<Byte>, s: seq<nat>, c: nat, p: nat, r: nat)
    requires Below(buf, s, c, p) && Below(buf, s, p, r)
    ensures Below(buf, s, c, r)
  {
    LeqTransitive(buf, s[c - 1], s[p - 1], s[r - 1]);
  }

  /** Every child of q is below p. */
  ghost predicate ChildrenBelow(buf: seq<Byte>, s: seq<nat>, j: nat, q: nat, p: nat) {
    forall c :: 2 <= c <= j && c / 2 == q ==> Below(buf, s, c, p)
  }

  /** Moving the larger child p up into the hole q makes p the hole. */
  lemma {:induction false} SinkStep(buf: seq<Byte>, s: seq<nat>, i: nat, j: nat, q: nat, p: nat)
    requires 1 <= i <= q && j <= |s| && AllParsable(buf, s) && HoleHeap(buf, s, i, j, q)
    requires p / 2 == q && p <= j
    requires ChildrenBelow(buf, s, j, q, p)
    ensures HoleHeap(buf, s[q - 1 := s[p - 1]], i, j, p)
  {
    hide Leq, Parsable;
    var t := s[q - 1 := s[p - 1]];
    forall c | 2 <= c <= j && c / 2 >= i && c != p && c / 2 != p ensures Below(buf, t, c, c / 2) {
      if c == q {
        assert Below(buf, s, p, q / 2);
      } else if c / 2 == q {
        assert Below(buf, s, c, p);
      } else {
        assert Below(buf, s, c, c / 2);
      }
    }
    forall c | 2 <= c <= j && c / 2 == p && p / 2 >= i ensures Below(buf, t, c, p / 2) {
      assert Below(buf, s, c, c / 2);
    }
  }

  /** Moving the parent p of the hole q down makes p the hole. */
  lemma {:induction false} RiseStep(buf: seq<Byte>, s: seq<nat>, i: nat, j: nat, q: nat, pos: nat)
    requires 1 <= i <= q / 2 && q <= j <= |s| && AllParsable(buf, s) && Parsable(buf, pos)
    requires HoleHeap(buf, s, i, j, q) && Leq(buf, s[q / 2 - 1], pos)
    requires forall c :: 2 <= c <= j && c / 2 == q ==> Leq(buf, s[c - 1], pos)
    ensures var t := s[q - 1 := s[q / 2 - 1]];
            HoleHeap(buf, t, i, j, q / 2) && forall c :: 2 <= c <= j && c / 2 == q / 2 ==> Leq(buf, t[c - 1], pos)
  {
    hide Leq, Parsable;
    var p := q / 2;
    var t := s[q - 1 := s[p - 1]];
    forall c | 2 <= c <= j && c / 2 >= i && c != p && c / 2 != p ensures Below(buf, t, c, c / 2) {
      if c / 2 == q {
        assert Below(buf, s, c, q / 2);
      } else {
        assert Below(buf, s, c, c / 2);
      }
    }
    forall c | 2 <= c <= j && c / 2 == p && p / 2 >= i ensures Below(buf, t, c, p / 2) {
      assert Below(buf, s, p, p / 2);
      if c != q {
        assert Below(buf, s, c, p);
        BelowTransitive(buf, s, c, p, p / 2);
      }
    }
    forall c | 2 <= c <= j && c / 2 == p ensures Leq(buf, t[c - 1], pos) {
      if c != q {
        assert Below(buf, s, c, p);
        LeqTransitive(buf, s[c - 1], s[p - 1], pos);
      }
    }
  }

  /** Filling the hole. */
  lemma {:induction false} FillHole(buf: seq<Byte>, s: seq<nat>, i: nat, j: nat, q: nat, pos: nat)
    requires 1 <= i <= q <= j <= |s| && AllParsable(buf, s) && Parsable(buf, pos)
    requires HoleHeap(buf, s, i, j, q)
    requires forall c :: 2 <= c <= j && c / 2 == q ==> Leq(buf, s[c - 1], pos)
    requires q / 2 >= i ==> Leq(buf, pos, s[q / 2 - 1])
    ensures Heap(buf, s[q - 1 := pos], i, j)
  {
    hide Leq, Parsable;
    var t := s[q - 1 := pos];
    forall c | 2 <= c <= j && c / 2 >= i ensures Below(buf, t, c, c / 2) {
      if c != q && c / 2 != q {
        assert Below(buf, s, c, c / 2);
      }
    }
  }

  /** The root of a heap is the largest. */
  lemma {:induction false} RootLargest(buf: seq<Byte>, s: seq<nat>, j: nat, c: nat)
    requires Heap(buf, s, 1, j) && 1 <= c <= j <= |s| && AllParsable(buf, s)
    ensures Below(buf, s, c, 1)
    decreases c
  {
    if c > 1 {
      RootLargest(buf, s, j, c / 2);
      BelowTransitive(buf, s, c, c / 2, 1);
    }
  }

  // ---------- Permutations ----------

  lemma {:induction false} SwapPermutes(s: seq<nat>, x: nat, y: nat)
    requires x < |s| && y < |s|
    ensures multiset(s[x := s[y]][y := s[x]]) == multiset(s)
  {
    if x != y {
      var t := s[x := s[y]];
      assert multiset(t) == multiset(s) - multiset{s[x]} + multiset{s[y]};
      assert multiset(t[y := s[x]]) == multiset(t) - multiset{t[y]} + multiset{s[x]};
    } else {
      assert s[x := s[y]][y := s[x]] == s;
    }
  }

  /** Moving an entry into the hole moves the hole: with pos in the hole, a swap. */
  lemma {:induction false} MovePermutes(s: seq<nat>, q: nat, p: nat, pos: nat)
    requires q < |s| && p < |s| && q != p
    ensures multiset(s[q := s[p]][p := pos]) == multiset(s[q := pos])
  {
    var v := s[q := pos];
    SwapPermutes(v, q, p);
    assert v[q := v[p]][p := v[q]] == s[q := s[p]][p := pos];
  }

  // ---------- The sort ----------

  ghost predicate Sorted(buf: seq<Byte>, s: seq<nat>) {
    AllParsable(buf, s) && forall x, y :: 0 <= x < y < |s| ==> Leq(buf, s[x], s[y])
  }

  /** Entries from index j on are in their final places. */
  ghost predicate Settled(buf: seq<Byte>, s: seq<nat>, j: nat) {
    && AllParsable(buf, s)
    && forall x, y :: 0 <= x < y < |s| && y >= j ==> Leq(buf, s[x], s[y])
  }

  lemma {:induction false} SettledMove(buf: seq<Byte>, s: seq<nat>, j: nat, q: nat, v: nat)
    requires Settled(buf, s, j) && q < j <= |s| && Parsable(buf, v)
    requires forall y :: j <= y < |s| ==> Leq(buf, v, s[y])
    ensures Settled(buf, s[q := v], j)
  {
    hide Leq, Parsable;
  }

  lemma {:induction false} SettledParsable(buf: seq<Byte>, s: seq<nat>, j: nat)
    requires Settled(buf, s, j)
    ensures AllParsable(buf, s)
  {
  }

  lemma {:induction false} SettledLeq(buf: seq<Byte>, s: seq<nat>, j: nat, x: nat)
    requires Settled(buf, s, j) && x < j <= |s|
    ensures Parsable(buf, s[x]) && AllParsable(buf, s) && forall y :: j <= y < |s| ==> Leq(buf, s[x], s[y])
  {
  }

  lemma {:induction false} LessIsLeq(buf: seq<Byte>, x: nat, y: nat)
    requires Parsable(buf, x) && Parsable(buf, y)
    ensures Less(KeyOf(buf, x), KeyOf(buf, y)) ==> Leq(buf, x, y)
    ensures !Less(KeyOf(buf, x), KeyOf(buf, y)) ==> Leq(buf, y, x)
  {
    hide KeyOf;
  }

  lemma {:induction false} LeqReflexive(buf: seq<Byte>, x: nat)
    requires Parsable(buf, x)
    ensures Leq(buf, x, x)
  {
    hide KeyOf;
  }

  /** The chosen child of q is above both children. */
  lemma {:induction false} LargerChild(buf: seq<Byte>, s: seq<nat>, j: nat, q: nat, p: nat, less: bool)
    requires AllParsable(buf, s) && 1 <= q && 2 * q < j <= |s|
    requires less <==> Less(KeyOf(buf, s[2 * q]), KeyOf(buf, s[2 * q - 1]))
    requires p == if less then 2 * q else 2 * q + 1
    ensures p / 2 == q && q < p <= j
    ensures ChildrenBelow(buf, s, j, q, p)
  {
    hide KeyOf, Leq, Less, Parsable;
    LessIsLeq(buf, s[2 * q], s[2 * q - 1]);
    LeqReflexive(buf, s[p - 1]);
    forall c | 2 <= c <= j && c / 2 == q ensures Below(buf, s, c, p) {
      assert c == 2 * q || c == 2 * q + 1;
    }
  }

  lemma {:induction false} OnlyChild(buf: seq<Byte>, s: seq<nat>, j: nat, q: nat, p: nat)
    requires AllParsable(buf, s) && 1 <= q && p == 2 * q == j <= |s|
    ensures p / 2 == q
    ensures ChildrenBelow(buf, s, j, q, p)
  {
    hide KeyOf, Leq, Less, Parsable;
    LeqReflexive(buf, s[p - 1]);
    forall c | 2 <= c <= j && c / 2 == q ensures Below(buf, s, c, p) {
      assert c == 2 * q;
    }
  }

  lemma {:induction false} LeafHasNoChildren(j: nat, q: nat)
    requires 2 * q > j
    ensures forall c :: 2 <= c <= j ==> c / 2 != q
  {
  }

  /** The larger of two children moves up into the hole. */
  method SinkOne(buf: seq<Byte>, records: array<nat>, i: nat, j: nat, q: nat, ghost pos: nat) returns (p: nat)
    requires 1 <= i <= q && 2 * q < j <= records.Length && Under(q, i)
    requires HoleHeap(buf, records[..], i, j, q) && Settled(buf, records[..], j)
    modifies records
    ensures 2 * q <= p <= 2 * q + 1 && p <= j && Under(p, i)
    ensures HoleHeap(buf, records[..], i, j, p) && Settled(buf, records[..], j)
    ensures multiset(records[..][p - 1 := pos]) == multiset(old(records[..])[q - 1 := pos])
    ensures forall y :: j <= y < records.Length ==> records[y] == old(records[y])
  {
    hide *;
    p := 2 * q;
    SettledParsable(buf, records[..], j);
    var less := Smaller(buf, records[p], records[p - 1]);
    if !less { p := p + 1; }
    LargerChild(buf, records[..], j, q, p, less);
    Descend(buf, records, i, j, q, p, pos);
  }

  /** First half of a sift: the hole at node i sinks along the larger children to a leaf. */
  method Sink(buf: seq<Byte>, records: array<nat>, i: nat, j: nat, ghost pos: nat) returns (q: nat)
    requires 1 <= i <= j <= records.Length
    requires HoleHeap(buf, records[..], i, j, i) && Settled(buf, records[..], j)
    modifies records
    ensures i <= q <= j < 2 * q && Under(q, i)
    ensures HoleHeap(buf, records[..], i, j, q) && Settled(buf, records[..], j)
    ensures multiset(records[..][q - 1 := pos]) == multiset(old(records[..])[i - 1 := pos])
    ensures forall y :: j <= y < records.Length ==> records[y] == old(records[y])
  {
    hide *;
    ghost var bag := multiset(records[..][i - 1 := pos]);
    UnderSelf(i);
    q := i;
    var p := 2 * q;
    while p < j
      invariant i <= q <= j && p == 2 * q && Under(q, i)
      invariant HoleHeap(buf, records[..], i, j, q) && Settled(buf, records[..], j)
      invariant multiset(records[..][q - 1 := pos]) == bag
      invariant forall y :: j <= y < records.Length ==> records[y] == old(records[y])
      decreases j - q
    {
      q := SinkOne(buf, records, i, j, q, pos);
      p := 2 * q;
    }
    if p == j {
      SettledParsable(buf, records[..], j);
      OnlyChild(buf, records[..], j, q, p);
      Descend(buf, records, i, j, q, p, pos);
      q := p;
    }
  }

  /** Second half of a sift: the hole rises past smaller parents, up to node i at most, and is filled. */
  method Rise(buf: seq<Byte>, records: array<nat>, i: nat, j: nat, leaf: nat, pos: nat)
    requires 1 <= i <= leaf <= j < 2 * leaf && j <= records.Length && Under(leaf, i) && Parsable(buf, pos)
    requires HoleHeap(buf, records[..], i, j, leaf) && Settled(buf, records[..], j)
    requires forall y :: j <= y < records.Length ==> Leq(buf, pos, records[y])
    modifies records
    ensures Heap(buf, records[..], i, j) && Settled(buf, records[..], j)
    ensures multiset(records[..]) == multiset(old(records[..])[leaf - 1 := pos])
  {
    hide Leq, Parsable, HoleHeap, Heap, Settled, Less, KeyOf;
    ghost var bag := multiset(records[..][leaf - 1 := pos]);
    LeafHasNoChildren(j, leaf);
    SettledParsable(buf, records[..], j);
    var q := leaf;
    while q > i
      invariant i <= q <= j && Under(q, i)
      invariant HoleHeap(buf, records[..], i, j, q) && Settled(buf, records[..], j)
      invariant ChildrenLeq(buf, records[..], j, q, pos)
      invariant multiset(records[..][q - 1 := pos]) == bag
      invariant forall y :: j <= y < records.Length ==> records[y] == old(records[y])
      decreases q
    {
      UnderParent(q, i);
      SettledParsable(buf, records[..], j);
      var p := q / 2;
      var less := Smaller(buf, records[p - 1], pos);
      LessIsLeq(buf, records[p - 1], pos);
      if !less { break; }
      Ascend(buf, records, i, j, q, pos);
      q := p;
    }
    SettledParsable(buf, records[..], j);
    FillHole(buf, records[..], i, j, q, pos);
    SettledMove(buf, records[..], j, q - 1, pos);
    records[q - 1] := pos;
  }

  /** The bottom-up sift of pos into the hole at node i. */
  method Sift(buf: seq<Byte>, records: array<nat>, i: nat, j: nat, pos: nat)
    requires 1 <= i <= j <= records.Length && Parsable(buf, pos)
    requires HoleHeap(buf, records[..], i, j, i) && Settled(buf, records[..], j)
    requires forall y :: j <= y < records.Length ==> Leq(buf, pos, records[y])
    modifies records
    ensures Heap(buf, records[..], i, j) && Settled(buf, records[..], j)
    ensures multiset(records[..]) == multiset(old(records[..])[i - 1 := pos])
  {
    hide Leq, Parsable, HoleHeap, Heap, Settled;
    var q := Sink(buf, records, i, j, pos);
    Rise(buf, records, i, j, q, pos);
  }

  /** One step of the rising hole. */
  method Ascend(buf: seq<Byte>, records: array<nat>, i: nat, j: nat, q: nat, pos: nat)
    requires 1 <= i <= q / 2 && q <= j <= records.Length
    requires HoleHeap(buf, records[..], i, j, q) && Settled(buf, records[..], j)
    requires ChildrenLeq(buf, records[..], j, q, pos) && Leq(buf, records[q / 2 - 1], pos)
    modifies records
    ensures HoleHeap(buf, records[..], i, j, q / 2) && Settled(buf, records[..], j)
    ensures ChildrenLeq(buf, records[..], j, q / 2, pos)
    ensures multiset(records[..][q / 2 - 1 := pos]) == multiset(old(records[..])[q - 1 := pos])
    ensures forall y :: j <= y < records.Length ==> records[y] == old(records[y])
  {
    hide Leq, Parsable, HoleHeap, Heap, Settled;
    var p := q / 2;
    RiseStep(buf, records[..], i, j, q, pos);
    SettledLeq(buf, records[..], j, p - 1);
    SettledMove(buf, records[..], j, q - 1, records[p - 1]);
    MovePermutes(records[..], q - 1, p - 1, pos);
    ghost var s := records[..];
    records[q - 1] := records[p - 1];
    assert records[..] == s[q - 1 := s[p - 1]];
    SettledParsable(buf, records[..], j);
  }

  /** One step of the sinking hole. */
  method Descend(buf: seq<Byte>, records: array<nat>, i: nat, j: nat, q: nat, p: nat, ghost pos: nat)
    requires 1 <= i <= q < p <= j <= records.Length && p / 2 == q && Under(q, i)
    requires HoleHeap(buf, records[..], i, j, q) && Settled(buf, records[..], j)
    requires ChildrenBelow(buf, records[..], j, q, p)
    modifies records
    ensures HoleHeap(buf, records[..], i, j, p) && Settled(buf, records[..], j) && Under(p, i)
    ensures multiset(records[..][p - 1 := pos]) == multiset(old(records[..])[q - 1 := pos])
    ensures forall y :: j <= y < records.Length ==> records[y] == old(records[y])
  {
    hide Leq, Parsable, HoleHeap, Below, ChildrenBelow, Settled;
    SettledParsable(buf, records[..], j);
    SinkStep(buf, records[..], i, j, q, p);
    SettledLeq(buf, records[..], j, p - 1);
    SettledMove(buf, records[..], j, q - 1, records[p - 1]);
    MovePermutes(records[..], q - 1, p - 1, pos);
    records[q - 1] := records[p - 1];
  }

  ghost predicate ChildrenLeq(buf: seq<Byte>, s: seq<nat>, j: nat, q: nat, pos: nat) {
    && j <= |s| && AllParsable(buf, s) && Parsable(buf, pos)
    && forall c :: 2 <= c <= j && c / 2 == q ==> Leq(buf, s[c - 1], pos)
  }

  /** A step of the first phase: the last node not yet covered becomes the root of a heap. */
  method Cover(buf: seq<Byte>, records: array<nat>, i: nat, j: nat)
    requires 1 <= i < j == records.Length
    requires Heap(buf, records[..], i + 1, j) && Settled(buf, records[..], j)
    modifies records
    ensures Heap(buf, records[..], i, j) && Settled(buf, records[..], j)
    ensures multiset(records[..]) == multiset(old(records[..]))
  {
    hide Leq, Parsable, Heap, HoleHeap, Settled;
    var pos := records[i - 1];
    HeapHole(buf, records[..], i, j);
    assert records[..][i - 1 := pos] == records[..];
    Sift(buf, records, i, j, pos);
  }

  /** A step of the second phase: the root goes to its final place at index j. */
  method TakeOut(buf: seq<Byte>, records: array<nat>, j: nat)
    requires 1 <= j < records.Length
    requires Heap(buf, records[..], 1, j + 1) && Settled(buf, records[..], j + 1)
    modifies records
    ensures Heap(buf, records[..], 1, j) && Settled(buf, records[..], j)
    ensures multiset(records[..]) == multiset(old(records[..]))
  {
    hide Leq, Parsable, Heap, HoleHeap, Settled;
    ghost var s := records[..];
    var pos := records[j];
    TakeRoot(buf, s, j);
    records[j] := records[0];
    assert records[..] == s[j := s[0]];
    SwapPermutes(s, j, 0);
    Sift(buf, records, 1, j, pos);
  }

  /** The sort of doit: builds the heap from the last node up, then takes the root out until one
      node is left. The result is sorted and holds the same positions. */
  method Sort(buf: seq<Byte>, records: array<nat>)
    requires AllParsable(buf, records[..])
    modifies records
    ensures Sorted(buf, records[..])
    ensures multiset(records[..]) == multiset(old(records[..]))
  {
    hide Leq, Parsable, Heap, HoleHeap, Settled, Sorted, AllParsable;
    var i: nat, j: nat := records.Length, records.Length;
    NothingSettled(buf, records[..]);
    while j > 1
      invariant 0 <= j <= records.Length && (records.Length > 0 ==> 1 <= i && 1 <= j)
      invariant i <= records.Length && (j < records.Length ==> i == 1)
      invariant Heap(buf, records[..], i, j) && Settled(buf, records[..], j)
      invariant multiset(records[..]) == multiset(old(records[..]))
      decreases i + j
    {
      if i > 1 {
        i := i - 1;
        Cover(buf, records, i, j);
      } else {
        j := j - 1;
        TakeOut(buf, records, j);
      }
    }
    AllSettled(buf, records[..], j);
  }

  lemma {:induction false} NothingSettled(buf: seq<Byte>, s: seq<nat>)
    requires AllParsable(buf, s)
    ensures Heap(buf, s, |s|, |s|) && Settled(buf, s, |s|)
  {
  }

  lemma {:induction false} AllSettled(buf: seq<Byte>, s: seq<nat>, j: nat)
    requires Settled(buf, s, j) && j <= 1
    ensures Sorted(buf, s)
  {
    hide Leq;
  }

  lemma {:induction false} HeapHole(buf: seq<Byte>, s: seq<nat>, i: nat, j: nat)
    requires Heap(buf, s, i + 1, j) && Settled(buf, s, j) && 1 <= i < j == |s|
    ensures HoleHeap(buf, s, i, j, i) && Parsable(buf, s[i - 1])
  {
    hide Below, Parsable, Leq;
  }

  /** The root goes to the end of the heap, where it is in its final place. */
  lemma {:induction false} TakeRoot(buf: seq<Byte>, s: seq<nat>, j: nat)
    requires Heap(buf, s, 1, j + 1) && Settled(buf, s, j + 1) && 1 <= j < |s|
    ensures var t := s[j := s[0]];
      && HoleHeap(buf, t, 1, j, 1) && Settled(buf, t, j) && Parsable(buf, s[j])
      && forall y :: j <= y < |s| ==> Leq(buf, s[j], t[y])
  {
    hide Parsable, Leq;
    var t := s[j := s[0]];
    forall c | 1 <= c <= j + 1 ensures Below(buf, s, c, 1) {
      RootLargest(buf, s, j + 1, c);
    }
    forall x, y | 0 <= x < y < |t| && y >= j ensures Leq(buf, t[x], t[y]) {
      if y == j {
        assert Below(buf, s, x + 1, 1);
      } else if x == j {
        assert Leq(buf, s[0], s[y]);
      }
    }
    assert Below(buf, s, j + 1, 1);
    forall c | 2 <= c <= j && c / 2 >= 1 && c != 1 && c / 2 != 1 ensures Below(buf, t, c, c / 2) {
      assert Below(buf, s, c, c / 2);
    }
  }
}
