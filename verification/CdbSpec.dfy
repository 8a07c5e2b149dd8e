/** What a constant database file is: the exact bytes src/cdb_make.c writes for a
    list of records, and why probing them finds every record in insertion order. */
module CdbSpec {
  import opened Bytes

  datatype Record = Record(key: seq<Byte>, data: seq<Byte>)

  /** struct cdb_hp: a key's hash and the file position of its record. */
  datatype Pair = Pair(h: Word, p: nat)

  /** The key hash is a parameter: nothing below depends on which function it is. */
  type Hash = seq<Byte> -> Word

  const HEADER: nat := 2048
  const FREE: Pair := Pair(0, 0)

  // ---------- Records ----------

  function RecordBytes(r: Record): seq<Byte> {
    Pack(|r.key|) + Pack(|r.data|) + r.key + r.data
  }

  function RecordsBytes(rs: seq<Record>): seq<Byte> {
    if rs == [] then [] else RecordsBytes(rs[..|rs| - 1]) + RecordBytes(rs[|rs| - 1])
  }

  /** The file position just after the records. */
  function End(rs: seq<Record>): nat {
    HEADER + |RecordsBytes(rs)|
  }

  function Pairs(hash: Hash, rs: seq<Record>): (s: seq<Pair>)
    ensures |s| == |rs|
  {
    if rs == [] then []
    else
      var init := rs[..|rs| - 1];
      Pairs(hash, init) + [Pair(hash(rs[|rs| - 1].key), End(init))]
  }

  /** The pairs of one of the 256 tables, in insertion order. */
  function Bucket(s: seq<Pair>, b: nat): (r: seq<Pair>)
    ensures |r| <= |s|
  {
    if s == [] then []
    else
      var x := s[|s| - 1];
      Bucket(s[..|s| - 1], b) + if x.h % 256 == b then [x] else []
  }

  /** The pairs with a given hash, in order. */
  function Select(s: seq<Pair>, h: Word): seq<Pair> {
    if s == [] then []
    else Select(s[..|s| - 1], h) + if s[|s| - 1].h == h then [s[|s| - 1]] else []
  }

  // ---------- Tables ----------

  function Home(h: Word, n: nat): (w: nat)
    requires n > 0
    ensures w < n
  {
    (h / 256) % n
  }

  /** The home slot goes by the hash without its low byte, which picks the table. */
  lemma {:induction false} HomeMeaning(high: nat, b: Byte, n: nat)
    requires n > 0 && 256 * high + b < TWO32
    ensures Home(256 * high + b, n) == high % n && (256 * high + b) % 256 == b
  {
    assert (256 * high + b) / 256 == high;
  }

  /** The slot d places after s, going round. */
  function Slot(s: nat, d: nat, n: nat): (w: nat)
    requires s < n && d < n
    ensures w < n
  {
    if s + d < n then s + d else s + d - n
  }

  /** How far slot w is from s, going round. */
  function Dist(s: nat, w: nat, n: nat): (d: nat)
    requires s < n && w < n
    ensures d < n && Slot(s, d, n) == w
  {
    if s <= w then w - s else w + n - s
  }

  /** Distance from s to the first free slot at distance d or more; |t| when there is none. */
  function FirstFree(t: seq<Pair>, s: nat, d: nat): (e: nat)
    requires s < |t| && d <= |t|
    ensures d <= e <= |t|
    ensures forall c :: d <= c < e ==> t[Slot(s, c, |t|)].p != 0
    ensures e < |t| ==> t[Slot(s, e, |t|)].p == 0
    decreases |t| - d
  {
    if d == |t| || t[Slot(s, d, |t|)].p == 0 then d else FirstFree(t, s, d + 1)
  }

  function Insert(t: seq<Pair>, x: Pair): (r: seq<Pair>)
    requires |t| > 0
    ensures |r| == |t|
  {
    var s := Home(x.h, |t|);
    var e := FirstFree(t, s, 0);
    if e == |t| then t else t[Slot(s, e, |t|) := x]
  }

  function Blank(n: nat): (t: seq<Pair>)
    ensures |t| == n && forall i :: 0 <= i < n ==> t[i] == FREE
  {
    seq(n, i => FREE)
  }

  function Fill(n: nat, s: seq<Pair>): (t: seq<Pair>)
    requires |s| < n || s == []
    ensures |t| == n
  {
    if s == [] then Blank(n) else Insert(Fill(n, s[..|s| - 1]), s[|s| - 1])
  }

  function FreeSlots(t: seq<Pair>): nat {
    if t == [] then 0 else FreeSlots(t[..|t| - 1]) + if t[|t| - 1].p == 0 then 1 else 0
  }

  /** What a probe starting at s visits from distance d on, up to the first free slot. */
  function Run(t: seq<Pair>, s: nat, d: nat): seq<Pair>
    requires s < |t| && d <= |t|
    decreases |t| - d
  {
    if d == |t| || t[Slot(s, d, |t|)].p == 0 then []
    else [t[Slot(s, d, |t|)]] + Run(t, s, d + 1)
  }

  /** No free slot lies between the home slot of an entry and the entry. */
  ghost predicate Reachable(t: seq<Pair>) {
    forall w, d :: 0 <= w < |t| && t[w].p != 0 && 0 <= d <= Dist(Home(t[w].h, |t|), w, |t|) ==>
      t[Slot(Home(t[w].h, |t|), d, |t|)].p != 0
  }

  lemma {:induction false} BucketMembers(s: seq<Pair>, b: nat)
    ensures forall x :: x in Bucket(s, b) ==> x in s && x.h % 256 == b
  {
    if s != [] {
      BucketMembers(s[..|s| - 1], b);
    }
  }

  lemma {:induction false} SelectConcat(a: seq<Pair>, b: seq<Pair>, h: Word)
    ensures Select(a + b, h) == Select(a, h) + Select(b, h)
  {
    if b == [] {
      assert a + b == a;
    } else {
      assert (a + b)[..|a + b| - 1] == a + b[..|b| - 1];
      SelectConcat(a, b[..|b| - 1], h);
    }
  }

  lemma {:induction false} BlankFreeSlots(n: nat)
    ensures FreeSlots(Blank(n)) == n
  {
    if n > 0 {
      assert Blank(n)[..n - 1] == Blank(n - 1);
      BlankFreeSlots(n - 1);
    }
  }

  lemma {:induction false} FreeSlotsUpdate(t: seq<Pair>, w: nat, x: Pair)
    requires w < |t| && t[w].p == 0 && x.p != 0
    ensures FreeSlots(t[w := x]) == FreeSlots(t) - 1
  {
    var n := |t| - 1;
    if w == n {
      assert t[w := x][..n] == t[..n];
    } else {
      assert t[w := x][..n] == t[..n][w := x];
      FreeSlotsUpdate(t[..n], w, x);
    }
  }

  lemma {:induction false} FreeSlotExists(t: seq<Pair>) returns (w: nat)
    requires FreeSlots(t) > 0
    ensures w < |t| && t[w].p == 0
  {
    if t[|t| - 1].p == 0 {
      w := |t| - 1;
    } else {
      w := FreeSlotExists(t[..|t| - 1]);
    }
  }

  /** A table with a free slot stops every probe before it has gone all the way round. */
  lemma {:induction false} ProbeStops(t: seq<Pair>, s: nat)
    requires s < |t| && FreeSlots(t) > 0
    ensures FirstFree(t, s, 0) < |t|
  {
    var w := FreeSlotExists(t);
    assert t[Slot(s, Dist(s, w, |t|), |t|)].p == 0;
  }

  lemma {:induction false} InsertKeepsReachable(t: seq<Pair>, x: Pair)
    requires Reachable(t) && FreeSlots(t) > 0 && x.p != 0
    ensures Reachable(Insert(t, x))
  {
    var n := |t|;
    assert n > 0;
    var s := Home(x.h, n);
    ProbeStops(t, s);
    var e := FirstFree(t, s, 0);
    var u := Slot(s, e, n);
    var t' := Insert(t, x);
    forall w, d | 0 <= w < n && t'[w].p != 0 && 0 <= d <= Dist(Home(t'[w].h, n), w, n)
      ensures t'[Slot(Home(t'[w].h, n), d, n)].p != 0
    {
      if w == u {
        assert Dist(s, u, n) == e;
      } else {
        assert t[w].p != 0 && t[w] == t'[w];
        assert t[Slot(Home(t[w].h, n), d, n)].p != 0;
      }
    }
  }

  /** Fill leaves exactly n - |s| slots free and every entry reachable from its home slot. */
  lemma {:induction false} FillReachable(n: nat, s: seq<Pair>)
    requires |s| < n || s == []
    requires forall x :: x in s ==> x.p != 0
    ensures FreeSlots(Fill(n, s)) == n - |s|
    ensures Reachable(Fill(n, s))
  {
    if s == [] {
      BlankFreeSlots(n);
    } else {
      var init := s[..|s| - 1];
      var x := s[|s| - 1];
      FillReachable(n, init);
      var t := Fill(n, init);
      ProbeStops(t, Home(x.h, n));
      FreeSlotsUpdate(t, Slot(Home(x.h, n), FirstFree(t, Home(x.h, n), 0), n), x);
      InsertKeepsReachable(t, x);
    }
  }

  /** Beyond a free slot after h's home a table has no entry with hash h, nor does
      a table that agrees with it there. */
  lemma {:induction false} NothingBeyondGap(t: seq<Pair>, t': seq<Pair>, h: Word, e: nat, d: nat)
    requires |t| == |t'| > 0 && Reachable(t) && e < d <= |t|
    requires t[Slot(Home(h, |t|), e, |t|)].p == 0
    requires forall c :: d <= c < |t| ==> t'[Slot(Home(h, |t|), c, |t|)] == t[Slot(Home(h, |t|), c, |t|)]
    ensures Select(Run(t', Home(h, |t|), d), h) == []
    decreases |t| - d
  {
    var n, s := |t|, Home(h, |t|);
    if d < n {
      NothingBeyondGap(t, t', h, e, d + 1);
      var w := Slot(s, d, n);
      assert t'[w] == t[w];
      if t[w].p != 0 {
        assert Dist(s, w, n) == d;
        assert t[w].h != h;
        SelectConcat([t[w]], Run(t', s, d + 1), h);
        assert [t[w]][..0] == [];
      }
    }
  }

  /** At the gap itself, inserting x shows x exactly to the probes for x's hash. */
  lemma {:induction false} InsertViewAtGap(t: seq<Pair>, x: Pair, h: Word)
    requires |t| > 0 && Reachable(t) && FreeSlots(t) > 0 && x.p != 0
    ensures var e := FirstFree(t, Home(h, |t|), 0);
            Select(Run(Insert(t, x), Home(h, |t|), e), h) == if x.h == h then [x] else []
  {
    var n, s := |t|, Home(h, |t|);
    ProbeStops(t, s);
    ProbeStops(t, Home(x.h, n));
    var e := FirstFree(t, s, 0);
    var u := Slot(Home(x.h, n), FirstFree(t, Home(x.h, n), 0), n);
    var t' := t[u := x];
    if u == Slot(s, e, n) {
      assert Run(t', s, e) == [x] + Run(t', s, e + 1);
      NothingBeyondGap(t, t', h, e, e + 1);
      SelectConcat([x], Run(t', s, e + 1), h);
      assert [x][..0] == [];
    } else {
      assert Run(t', s, e) == [];
    }
  }

  /** Inserting x appends x to what a probe for x's hash sees, and changes no other hash's view. */
  lemma {:induction false} InsertView(t: seq<Pair>, x: Pair, h: Word, d: nat)
    requires |t| > 0 && Reachable(t) && FreeSlots(t) > 0 && x.p != 0
    requires d <= FirstFree(t, Home(h, |t|), 0)
    ensures Select(Run(Insert(t, x), Home(h, |t|), d), h)
         == Select(Run(t, Home(h, |t|), d), h) + if x.h == h then [x] else []
    decreases |t| - d
  {
    var n, s := |t|, Home(h, |t|);
    var t' := Insert(t, x);
    ProbeStops(t, s);
    if d == FirstFree(t, s, 0) {
      InsertViewAtGap(t, x, h);
    } else {
      var y := t[Slot(s, d, n)];
      InsertView(t, x, h, d + 1);
      InsertKeepsEntry(t, x, Slot(s, d, n));
      assert Run(t, s, d) == [y] + Run(t, s, d + 1);
      assert Run(t', s, d) == [y] + Run(t', s, d + 1);
      SelectConcat([y], Run(t, s, d + 1), h);
      SelectConcat([y], Run(t', s, d + 1), h);
    }
  }

  lemma {:induction false} InsertKeepsEntry(t: seq<Pair>, x: Pair, w: nat)
    requires w < |t| && t[w].p != 0
    ensures Insert(t, x)[w] == t[w]
  {
  }

  /** The heart of the format: a probe for hash h meets exactly the entries inserted
      with hash h, in the order in which they were inserted. */
  lemma {:induction false} ProbeFindsInOrder(n: nat, s: seq<Pair>, h: Word)
    requires |s| < n
    requires forall x :: x in s ==> x.p != 0
    ensures Select(Run(Fill(n, s), Home(h, n), 0), h) == Select(s, h)
  {
    if s != [] {
      var init := s[..|s| - 1];
      ProbeFindsInOrder(n, init, h);
      FillReachable(n, init);
      InsertView(Fill(n, init), s[|s| - 1], h, 0);
    }
  }
}
