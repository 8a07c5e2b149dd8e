/** The writer of src/cdb_make.c: records as they come, then a stable counting sort of
    their pointers and 256 open-addressed tables. */
module CdbWriter {
  import opened Bytes
  import opened CdbSpec
  import opened CdbFile

  /** CDB_HPLIST: pointers per list chunk. */
  const CHUNK: nat := 1000

  /** The pointers of a chunk list whose newest chunk comes first, oldest pointer first. */
  function Flat(head: seq<seq<Pair>>): seq<Pair> {
    if head == [] then [] else Flat(head[1..]) + head[0]
  }

  lemma {:induction false} FlatNone()
    ensures Flat([]) == []
  {
  }

  lemma {:induction false} FlatFrom(head: seq<seq<Pair>>, c: nat)
    requires c <= |head|
    ensures Flat(head[c..]) <= Flat(head)
    ensures c < |head| ==> Flat(head[c..]) == Flat(head[c + 1..]) + head[c]
  {
    if c == 0 {
      assert head[0..] == head;
    } else {
      assert head[1..][c - 1..] == head[c..];
      FlatFrom(head[1..], c - 1);
    }
  }

  /** Walking a chunk list visits the pointers from the newest to the oldest. */
  lemma {:induction false} FlatAt(head: seq<seq<Pair>>, c: nat, i: nat)
    requires c < |head| && i < |head[c]|
    ensures |Flat(head[c + 1..])| + i < |Flat(head)|
    ensures Flat(head)[|Flat(head[c + 1..])| + i] == head[c][i]
    ensures |Flat(head[c..])| == |Flat(head[c + 1..])| + |head[c]|
  {
    FlatFrom(head, c);
    assert (Flat(head[c + 1..]) + head[c])[|Flat(head[c + 1..])| + i] == head[c][i];
  }

  lemma {:induction false} BucketConcat(a: seq<Pair>, b: seq<Pair>, k: nat)
    ensures Bucket(a + b, k) == Bucket(a, k) + Bucket(b, k)
  {
    if b == [] {
      assert a + b == a;
    } else {
      assert (a + b)[..|a + b| - 1] == a + b[..|b| - 1];
      BucketConcat(a, b[..|b| - 1], k);
    }
  }

  /** Taking in one more pointer from the right end of a prefix. */
  lemma {:induction false} BucketSplit(s: seq<Pair>, m: nat, k: nat)
    requires m < |s|
    ensures Bucket(s[m..], k) == (if s[m].h % 256 == k then [s[m]] else []) + Bucket(s[m + 1..], k)
    ensures Bucket(s[..m + 1], k) == Bucket(s[..m], k) + if s[m].h % 256 == k then [s[m]] else []
  {
    assert s[m..] == [s[m]] + s[m + 1..];
    BucketConcat([s[m]], s[m + 1..], k);
    assert [s[m]][..0] == [];
    assert s[..m + 1][..m] == s[..m];
  }

  lemma {:induction false} EndLowerBound(rs: seq<Record>)
    ensures End(rs) >= HEADER + 8 * |rs|
  {
    if rs != [] {
      EndLowerBound(rs[..|rs| - 1]);
    }
  }

  ghost predicate Counted(count: seq<Word>, s: seq<Pair>) {
    |count| == TABLES && forall b :: 0 <= b < TABLES ==> count[b] == |Bucket(s, b)|
  }

  lemma {:induction false} CountedNone(count: seq<Word>)
    requires |count| == TABLES && forall b :: 0 <= b < TABLES ==> count[b] == 0
    ensures Counted(count, [])
  {
  }

  lemma {:induction false} CountedStep(count: seq<Word>, s: seq<Pair>, m: nat)
    requires m < |s| < TWO32 && Counted(count, s[m + 1..])
    ensures |Bucket(s[m..], s[m].h % 256)| <= |s| && count[s[m].h % 256] + 1 < TWO32
    ensures Counted(count[s[m].h % 256 := count[s[m].h % 256] + 1], s[m..])
  {
    BucketSplit(s, m, s[m].h % 256);
    var count' := count[s[m].h % 256 := count[s[m].h % 256] + 1];
    forall b | 0 <= b < TABLES ensures count'[b] == |Bucket(s[m..], b)| {
      BucketSplit(s, m, b);
    }
  }

  /** Pointers m.. of the list are in place: table b's occupy a final stretch of its region, in order. */
  ghost predicate Placed(mem: seq<Pair>, start: seq<Word>, s: seq<Pair>, m: nat)
    requires m <= |s|
  {
    && |start| == TABLES && |s| <= |mem|
    && forall b :: 0 <= b < TABLES ==> PlacedTable(mem, start[b], s, m, b)
  }

  ghost predicate PlacedTable(mem: seq<Pair>, u: Word, s: seq<Pair>, m: nat, b: nat)
    requires m <= |s|
  {
    var end := BucketTotal(s, b + 1);
    && u == BucketTotal(s, b) + |Bucket(s[..m], b)|
    && u <= end <= |mem| && mem[u..end] == Bucket(s[m..], b)
  }

  lemma {:induction false} PlacedNone(mem: seq<Pair>, start: seq<Word>, s: seq<Pair>)
    requires |start| == TABLES && |s| <= |mem|
    requires forall b :: 0 <= b < TABLES ==> start[b] == BucketTotal(s, b + 1)
    ensures Placed(mem, start, s, |s|)
  {
    hide Bucket, BucketTotal;
    BucketTotalAll(s, TABLES);
    assert s[..|s|] == s && s[|s|..] == [];
    forall b | 0 <= b < TABLES ensures PlacedTable(mem, start[b], s, |s|, b) {
      BucketTotalStep(s, b);
      BucketTotalMonotone(s, b + 1, TABLES);
    }
  }

  lemma {:induction false} BucketTotalStep(s: seq<Pair>, b: nat)
    ensures BucketTotal(s, b + 1) == BucketTotal(s, b) + |Bucket(s, b)|
    ensures Bucket([], b) == []
  {
  }

  /** One step of the counting sort. Each pointer lands inside its own table's region, just before
      the pointers that came after it. */
  lemma {:induction false} PlacedStep(mem: seq<Pair>, start: seq<Word>, s: seq<Pair>, m: nat)
    requires m < |s| && Placed(mem, start, s, m + 1)
    ensures var k := s[m].h % 256;
            && 0 < start[k] <= |s|
            && Placed(mem[start[k] - 1 := s[m]], start[k := start[k] - 1], s, m)
  {
    hide Bucket, BucketTotal, PlacedTable;
    var x, k := s[m], s[m].h % 256;
    PlacedRoom(mem, start[k], s, m);
    var start' := start[k := start[k] - 1];
    forall b | 0 <= b < TABLES
      ensures PlacedTable(mem[start[k] - 1 := x], start'[b], s, m, b)
    {
      PlacedStepTable(mem, start[k], start[b], s, m, b);
    }
  }

  lemma {:induction false} PlacedRoom(mem: seq<Pair>, u: Word, s: seq<Pair>, m: nat)
    requires m < |s| && PlacedTable(mem, u, s, m + 1, s[m].h % 256)
    ensures 0 < u <= |s|
  {
    hide Bucket, BucketTotal;
    BucketSplit(s, m, s[m].h % 256);
    BucketTotalAll(s, TABLES);
    BucketTotalMonotone(s, s[m].h % 256 + 1, TABLES);
  }

  lemma {:induction false} PlacedStepTable(mem: seq<Pair>, u: Word, v: Word, s: seq<Pair>, m: nat, b: nat)
    requires m < |s| && |s| <= |mem| && b < TABLES
    requires PlacedTable(mem, u, s, m + 1, s[m].h % 256) && 0 < u <= |s|
    requires PlacedTable(mem, v, s, m + 1, b) && (b == s[m].h % 256 ==> v == u)
    ensures PlacedTable(mem[u - 1 := s[m]], if b == s[m].h % 256 then v - 1 else v, s, m, b)
  {
    hide Bucket, BucketTotal;
    var x, k := s[m], s[m].h % 256;
    var mem' := mem[u - 1 := x];
    BucketSplit(s, m, k);
    BucketSplit(s, m, b);
    var end := BucketTotal(s, b + 1);
    if b == k {
      assert mem'[u - 1..end] == [x] + mem[u..end];
    } else {
      if k < b {
        BucketTotalMonotone(s, k + 1, b);
      } else {
        BucketTotalMonotone(s, b + 1, k);
      }
      assert mem'[v..end] == mem[v..end];
      assert [] + Bucket(s[m + 1..], b) == Bucket(s[m + 1..], b);
    }
  }

  lemma {:induction false} InsertAt(t: seq<Pair>, x: Pair, d: nat)
    requires d < |t|
    requires forall c :: 0 <= c < d ==> t[Slot(Home(x.h, |t|), c, |t|)].p != 0
    requires t[Slot(Home(x.h, |t|), d, |t|)].p == 0
    ensures Insert(t, x) == t[Slot(Home(x.h, |t|), d, |t|) := x]
  {
    var e := FirstFree(t, Home(x.h, |t|), 0);
    assert e == d;
  }

  lemma {:induction false} FreeAhead(t: seq<Pair>, s: nat) returns (e: nat)
    requires s < |t| && FreeSlots(t) > 0
    ensures e < |t| && t[Slot(s, e, |t|)].p == 0
  {
    ProbeStops(t, s);
    e := FirstFree(t, s, 0);
  }

  lemma {:induction false} FillStep(n: nat, s: seq<Pair>, u: nat)
    requires u < |s| < n
    ensures Fill(n, s[..u + 1]) == Insert(Fill(n, s[..u]), s[u])
  {
    assert s[..u + 1][..u] == s[..u];
  }

  lemma {:induction false} FillBlank(t: seq<Pair>)
    requires forall k :: 0 <= k < |t| ==> t[k] == FREE
    ensures t == Fill(|t|, [])
  {
  }

  /** uint32_pack into the middle of an array. */
  method PackAt(a: array<Byte>, o: nat, u: nat)
    requires o + 4 <= a.Length
    modifies a
    ensures a[o..o + 4] == Pack(u)
    ensures a[..o] == old(a[..o]) && a[o + 4..] == old(a[o + 4..])
  {
    var s := Pack(u);
    a[o], a[o + 1], a[o + 2], a[o + 3] := s[0], s[1], s[2], s[3];
  }

  /** The hash area, the counters' sum and every table fit what is allocated, when the file fits. */
  lemma {:induction false} MemoryFits(rs: seq<Record>)
    requires Fits(rs)
    ensures 3 * |rs| + 1 <= 0xffff_ffff / 8
  {
    EndLowerBound(rs);
  }

  lemma {:induction false} TablePosNext(ts: seq<seq<Pair>>, p: nat, b: nat)
    requires b < |ts|
    ensures TablesBytes(ts[..b + 1]) == TablesBytes(ts[..b]) + TableBytes(ts[b])
    ensures TablePos(ts, p, b + 1) == TablePos(ts, p, b) + 8 * |ts[b]|
    ensures HeaderBytes(ts[..b + 1], p) == HeaderBytes(ts[..b], p) + (Pack(TablePos(ts, p, b)) + Pack(|ts[b]|))
  {
    assert ts[..b + 1][..b] == ts[..b];
  }

  lemma {:induction false} TablesStart(ts: seq<seq<Pair>>, p: nat)
    ensures TablePos(ts, p, 0) == p && TablesBytes(ts[..0]) == [] && HeaderBytes(ts[..0], p) == []
  {
  }

  lemma {:induction false} CountsSmall(count: seq<Word>, s: seq<Pair>)
    requires Counted(count, s)
    ensures forall b :: 0 <= b < TABLES ==> count[b] <= |s|
  {
  }

  /** A table that does not fit means the file does not fit. */
  lemma {:induction false} TablePosBound(hash: Hash, rs: seq<Record>, b: nat)
    requires b <= TABLES
    ensures TablePos(Tables(hash, rs), End(rs), b) <= End(rs) + 16 * |rs|
    ensures b == TABLES ==> TablePos(Tables(hash, rs), End(rs), b) == End(rs) + 16 * |rs|
  {
    hide Table, Bucket, BucketTotal, TableBytes;
    TablesLength(Tables(hash, rs), Pairs(hash, rs), b);
    BucketTotalAll(Pairs(hash, rs), TABLES);
    BucketTotalMonotone(Pairs(hash, rs), b, TABLES);
  }

  /** The sorted pointers: table b's are contiguous and in insertion order. */
  ghost predicate Sorted(sorted: seq<Pair>, start: seq<Word>, count: seq<Word>, s: seq<Pair>) {
    && |start| == |count| == TABLES
    && forall b :: 0 <= b < TABLES ==> SortedTable(sorted, start[b], count[b], Bucket(s, b))
  }

  ghost predicate SortedTable(sorted: seq<Pair>, from: nat, cnt: nat, t: seq<Pair>) {
    from + cnt <= |sorted| && sorted[from..from + cnt] == t && forall x :: x in t ==> x.p != 0
  }

  lemma {:induction false} PrefixSlice(mem: seq<Pair>, n: nat, from: nat, cnt: nat)
    requires from + cnt <= n <= |mem|
    ensures mem[..n][from..from + cnt] == mem[from..from + cnt]
  {
  }

  lemma {:induction false} PlacedIsSorted(mem: seq<Pair>, start: seq<Word>, count: seq<Word>, hash: Hash,
                                          rs: seq<Record>)
    requires Placed(mem, start, Pairs(hash, rs), 0) && Counted(count, Pairs(hash, rs))
    ensures Sorted(mem[..|rs|], start, count, Pairs(hash, rs))
  {
    hide Bucket, BucketTotal;
    var s := Pairs(hash, rs);
    BucketTotalAll(s, TABLES);
    assert s[0..] == s && s[..0] == [];
    PairsNonzero(hash, rs);
    forall b | 0 <= b < TABLES ensures SortedTable(mem[..|rs|], start[b], count[b], Bucket(s, b)) {
      assert PlacedTable(mem, start[b], s, 0, b);
      BucketTotalStep(s, b);
      BucketTotalMonotone(s, b + 1, TABLES);
      BucketMembers(s, b);
      PrefixSlice(mem, |rs|, start[b], count[b]);
    }
  }

  class CdbMake {
    const hash: Hash
    var out: seq<Byte>          // everything given to the output buffer, which starts at offset 2048
    var file: seq<Byte>         // the finished file
    const count: array<Word>
    const start: array<Word>
    const final: array<Byte>
    var head: seq<seq<Pair>>
    var numentries: Word
    var pos: Word

    ghost predicate Shape()
      reads this
    {
      && count.Length == TABLES && start.Length == TABLES && final.Length == HEADER && count != start
    }

    ghost predicate Valid(rs: seq<Record>)
      reads this
    {
      && Shape()
      && out == RecordsBytes(rs) && pos == End(rs)
      && Flat(head) == Pairs(hash, rs) && numentries == |rs|
    }

    /** cdb_make_start */
    constructor (hash: Hash)
      ensures Valid([]) && this.hash == hash
      ensures fresh(count) && fresh(start) && fresh(final)
    {
      this.hash := hash;
      out, file, head, numentries, pos := [], [], [], 0, HEADER;
      count := new Word[TABLES](_ => 0);
      start := new Word[TABLES](_ => 0);
      final := new Byte[HEADER](_ => 0);
    }

    /** posplus: the wrapped sum is smaller than len exactly when the true sum does not fit. */
    method PosPlus(len: Word) returns (r: int)
      modifies this`pos
      ensures r == if old(pos) + len < TWO32 then 0 else -1
      ensures pos == if r == 0 then old(pos) + len else old(pos)
    {
      var newpos := Add32(pos, len);
      if newpos < len {
        return -1;
      }
      pos := newpos;
      return 0;
    }

    method AddEnd(keylen: Word, datalen: Word, h: Word) returns (r: int)
      requires numentries < TWO32 - 1
      modifies this`head, this`numentries, this`pos
      ensures Flat(head) == old(Flat(head)) + [Pair(h, old(pos))]
      ensures numentries == old(numentries) + 1
      ensures r == if old(pos) + 8 + keylen + datalen < TWO32 then 0 else -1
      ensures r == 0 ==> pos == old(pos) + 8 + keylen + datalen
    {
      if head == [] || |head[0]| >= CHUNK {
        head := [[]] + head;
        assert head[1..] == old(head);
      }
      label placed:
      head := [head[0] + [Pair(h, pos)]] + head[1..];
      assert head[1..] == old@placed(head)[1..];
      numentries := numentries + 1;
      r := PosPlus(8);
      if r == -1 { return; }
      r := PosPlus(keylen);
      if r == -1 { return; }
      r := PosPlus(datalen);
    }

    /** cdb_make_add: fails exactly when the record would end beyond 32-bit positions. */
    method Add(key: seq<Byte>, data: seq<Byte>, ghost rs: seq<Record>) returns (r: int)
      requires Valid(rs) && |key| < TWO32 && |data| < TWO32
      modifies this`out, this`head, this`numentries, this`pos
      ensures r == if End(rs + [Record(key, data)]) < TWO32 then 0 else -1
      ensures r == 0 ==> Valid(rs + [Record(key, data)])
    {
      assert (rs + [Record(key, data)])[..|rs|] == rs;
      EndLowerBound(rs);
      out := out + (Pack(|key|) + Pack(|data|));
      out := out + key;
      out := out + data;
      assert out == RecordsBytes(rs) + RecordBytes(Record(key, data));
      r := AddEnd(|key|, |data|, hash(key));
    }

    /** First loops of cdb_make_finish: how many pointers each table gets. */
    method CountPairs()
      requires Shape() && |Flat(head)| < TWO32
      modifies count
      ensures Counted(count[..], Flat(head))
    {
      hide Bucket, Counted;
      ghost var flat := Flat(head);
      for b := 0 to TABLES
        invariant forall k :: 0 <= k < b ==> count[k] == 0
      {
        count[b] := 0;
      }
      var c := 0;
      assert head[0..] == head && flat[|flat|..] == [];
      CountedNone(count[..]);
      while c < |head|
        invariant c <= |head| && |Flat(head[c..])| <= |flat|
        invariant Counted(count[..], flat[|Flat(head[c..])|..])
      {
        var i := |head[c]|;
        FlatFrom(head, c);
        ghost var base := |Flat(head[c + 1..])|;
        while i > 0
          invariant 0 <= i <= |head[c]| && base + i <= |flat|
          invariant Counted(count[..], flat[base + i..])
        {
          i := i - 1;
          FlatAt(head, c, i);
          CountedStep(count[..], flat, base + i);
          count[head[c][i].h % 256] := count[head[c][i].h % 256] + 1;
        }
        c := c + 1;
      }
      assert head[c..] == [] && flat[0..] == flat;
    }

    /** The table pointers' prefix sums: start[b] is where table b's pointers end. */
    method SumCounts()
      requires Shape() && |Flat(head)| < TWO32
      requires Counted(count[..], Flat(head))
      modifies start
      ensures forall b :: 0 <= b < TABLES ==> start[b] == BucketTotal(Flat(head), b + 1)
    {
      ghost var flat := Flat(head);
      BucketTotalAll(flat, TABLES);
      var u: Word := 0;
      for b := 0 to TABLES
        invariant u == BucketTotal(flat, b)
        invariant forall k :: 0 <= k < b ==> start[k] == BucketTotal(flat, k + 1)
      {
        BucketTotalMonotone(flat, b + 1, TABLES);
        u := u + count[b];
        start[b] := u;
      }
    }

    /** The counting sort: from the newest pointer to the oldest, each goes just below the last one
        placed for its table. */
    method Scatter(mem: array<Pair>)
      requires Shape() && |Flat(head)| <= mem.Length
      requires forall b :: 0 <= b < TABLES ==> start[b] == BucketTotal(Flat(head), b + 1)
      modifies start, mem
      ensures Placed(mem[..], start[..], Flat(head), 0)
    {
      hide Placed, Flat, Bucket, BucketTotal;
      ghost var flat := Flat(head);
      PlacedNone(mem[..], start[..], flat);
      var c := 0;
      assert head[0..] == head;
      while c < |head|
        invariant c <= |head| && |Flat(head[c..])| <= |flat|
        invariant Placed(mem[..], start[..], flat, |Flat(head[c..])|)
      {
        var i := |head[c]|;
        FlatFrom(head, c);
        ghost var base := |Flat(head[c + 1..])|;
        while i > 0
          invariant 0 <= i <= |head[c]| && base + i <= |flat|
          invariant Placed(mem[..], start[..], flat, base + i)
        {
          i := i - 1;
          FlatAt(head, c, i);
          PlacedStep(mem[..], start[..], flat, base + i);
          var k := head[c][i].h % 256;
          start[k] := start[k] - 1;
          mem[start[k]] := head[c][i];
        }
        c := c + 1;
      }
      assert head[c..] == [];
      FlatNone();
    }

    /** Empties the hash area. */
    method Blank(mem: array<Pair>, n: nat, len: nat)
      requires n + len <= mem.Length
      modifies mem
      ensures mem[..n] == old(mem[..n]) && forall k :: n <= k < n + len ==> mem[k] == FREE
    {
      for u := 0 to len
        invariant mem[..n] == old(mem[..n])
        invariant forall k :: n <= k < n + u ==> mem[k] == FREE
      {
        mem[n + u] := FREE;
      }
    }

    /** Linear probing of one table's pointers into the hash area behind the n pointers. */
    method FillTable(mem: array<Pair>, n: nat, from: nat, cnt: nat)
      requires from + cnt <= n && n + 2 * cnt <= mem.Length
      requires forall k :: from <= k < from + cnt ==> mem[k].p != 0
      modifies mem
      ensures mem[..n] == old(mem[..n])
      ensures mem[n..n + 2 * cnt] == Fill(2 * cnt, old(mem[from..from + cnt]))
    {
      hide Fill, Insert, FirstFree, Home, FreeSlots, Reachable;
      var len := 2 * cnt;
      ghost var s := mem[from..from + cnt];
      Blank(mem, n, len);
      FillBlank(mem[n..n + len]);
      assert s[..0] == [];
      for u := 0 to cnt
        invariant mem[..n] == old(mem[..n])
        invariant mem[n..n + len] == Fill(len, s[..u])
      {
        ghost var t := Fill(len, s[..u]);
        var x := mem[from + u];
        assert x == old(mem[..n])[from + u] == s[u];
        FillReachable(len, s[..u]);
        var where := Home(x.h, len);
        ghost var home, d := where, 0;
        ghost var e := FreeAhead(t, home);
        while mem[n + where].p != 0
          invariant d <= e && where == Slot(home, d, len)
          invariant forall c :: 0 <= c < d ==> t[Slot(home, c, len)].p != 0
          decreases e - d
        {
          assert mem[n + where] == mem[n..n + len][where];
          where := where + 1;
          if where == len {
            where := 0;
          }
          d := d + 1;
        }
        assert mem[n + where] == mem[n..n + len][where];
        InsertAt(t, x, d);
        FillStep(len, s, u);
        mem[n + where] := x;
        assert mem[n..n + len] == t[where := x];
      }
      assert s[..cnt] == s;
    }

    /** Writing one table out. */
    method WriteTable(mem: array<Pair>, n: nat, len: nat) returns (r: int)
      requires n + len <= mem.Length
      modifies this`out, this`pos
      ensures r == if old(pos) + 8 * len < TWO32 then 0 else -1
      ensures r == 0 ==> out == old(out) + TableBytes(mem[n..n + len]) && pos == old(pos) + 8 * len
    {
      ghost var t := mem[n..n + len];
      for u := 0 to len
        invariant out == old(out) + TableBytes(t[..u]) && pos == old(pos) + 8 * u < TWO32
      {
        out := out + SlotBytes(mem[n + u]);
        assert t[..u + 1][..u] == t[..u];
        r := PosPlus(8);
        if r == -1 { return; }
      }
      assert t[..len] == t;
      return 0;
    }

    /** The pointer to table b in the header. */
    method PutPointer(b: nat, u: nat, n: nat)
      requires Shape() && b < TABLES
      modifies final
      ensures final[..8 * b + 8] == old(final[..8 * b]) + (Pack(u) + Pack(n))
    {
      PackAt(final, 8 * b, u);
      PackAt(final, 8 * b + 4, n);
      assert final[8 * b..8 * b + 4] == final[..8 * b + 4][8 * b..];
      assert final[..8 * b + 8] == final[..8 * b] + (final[8 * b..8 * b + 4] + final[8 * b + 4..8 * b + 8]);
      assert final[..8 * b] == final[..8 * b + 4][..8 * b];
    }

    /** One round of the last loop of cdb_make_finish: build table b and write it and its pointer. */
    method FinishTable(mem: array<Pair>, b: nat, ghost rs: seq<Record>, ghost sorted: seq<Pair>) returns (r: int)
      requires Shape() && b < TABLES && numentries == |rs| == |sorted| <= mem.Length
      requires Sorted(sorted, start[..], count[..], Pairs(hash, rs)) && mem[..|rs|] == sorted
      requires numentries + 2 * (count[b] as int) <= mem.Length
      requires pos == TablePos(Tables(hash, rs), End(rs), b)
      modifies this`out, this`pos, mem, final
      ensures mem[..|rs|] == sorted
      ensures r == if TablePos(Tables(hash, rs), End(rs), b + 1) < TWO32 then 0 else -1
      ensures r == 0 ==> pos == TablePos(Tables(hash, rs), End(rs), b + 1)
      ensures r == 0 ==> out == old(out) + TableBytes(Tables(hash, rs)[b])
      ensures final[..8 * b + 8] == old(final[..8 * b]) + (Pack(old(pos)) + Pack(|Tables(hash, rs)[b]|))
    {
      hide TablePos, TableBytes, TablesBytes, Bucket, Pack, End, Fill, Pairs;
      ghost var ts := Tables(hash, rs);
      var from: nat, cnt: nat := start[b], count[b];
      assert SortedTable(sorted, from, cnt, Bucket(Pairs(hash, rs), b));
      PrefixSlice(mem[..], |rs|, from, cnt);
      assert mem[from..from + cnt] == mem[..][from..from + cnt] && mem[..|rs|] == mem[..][..|rs|];
      PutPointer(b, pos, 2 * cnt);
      forall k | from <= k < from + cnt ensures mem[k].p != 0 {
        assert mem[k] == sorted[from..from + cnt][k - from];
      }
      FillTable(mem, numentries, from, cnt);
      TablePosNext(ts, End(rs), b);
      r := WriteTable(mem, numentries, 2 * cnt);
    }

    /** The size of the memory for all pairs and the largest table. */
    method MemSize(ghost flat: seq<Pair>) returns (memsize: nat)
      requires count.Length == TABLES && Counted(count[..], flat) && 2 * |flat| < TWO32
      ensures numentries < memsize <= 2 * |flat| + 1 + numentries
      ensures forall k :: 0 <= k < TABLES ==> numentries + 2 * (count[k] as int) <= memsize
    {
      memsize := 1;
      CountsSmall(count[..], flat);
      for i := 0 to TABLES
        invariant 0 < memsize <= 2 * |flat| + 1
        invariant forall k :: 0 <= k < i ==> 2 * (count[k] as int) <= memsize
      {
        var u := count[i] * 2;
        if u > memsize {
          memsize := u;
        }
      }
      memsize := memsize + numentries;
    }

    /** cdb_make_finish: succeeds exactly when the finished file stays within 32-bit positions,
        and then writes exactly the file of the records added. */
    method Finish(ghost rs: seq<Record>) returns (r: int)
      requires Valid(rs)
      modifies this`out, this`pos, this`file, count, start, final
      ensures r == if Fits(rs) then 0 else -1
      ensures r == 0 ==> file == File(hash, rs)
    {
      hide TableBytes, Bucket, BucketTotal, Pack, Fill, Pairs, Table, Placed, TablePos, RecordsBytes, Counted,
        Sorted, End;
      EndLowerBound(rs);
      ghost var flat := Pairs(hash, rs);
      ghost var ts := Tables(hash, rs);
      CountPairs();
      var memsize := MemSize(flat);
      if memsize > 0xffff_ffff / 8 {
        if Fits(rs) { MemoryFits(rs); }
        return -1;
      }
      var mem := new Pair[memsize];
      SumCounts();
      Scatter(mem);
      PlacedIsSorted(mem[..], start[..], count[..], hash, rs);
      ghost var sorted := mem[..|rs|];
      TablesStart(ts, End(rs));
      for b := 0 to TABLES
        invariant Sorted(sorted, start[..], count[..], flat) && mem[..|rs|] == sorted
        invariant forall k :: 0 <= k < TABLES ==> numentries + 2 * (count[k] as int) <= mem.Length
        invariant pos == TablePos(ts, End(rs), b)
        invariant out == RecordsBytes(rs) + TablesBytes(ts[..b])
        invariant final[..8 * b] == HeaderBytes(ts[..b], End(rs))
      {
        TablePosNext(ts, End(rs), b);
        TablePosBound(hash, rs, b + 1);
        r := FinishTable(mem, b, rs, sorted);
        if r == -1 { return; }
      }
      TablePosBound(hash, rs, TABLES);
      assert ts[..TABLES] == ts;
      file := final[..] + out;
      return 0;
    }
  }
}
