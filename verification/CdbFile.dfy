/** The byte layout of a constant database file, and what a reader finds in it. */
module CdbFile {
  import opened Bytes
  import opened CdbSpec

  // ---------- Layout ----------

  const TABLES: nat := 256

  function Table(hash: Hash, rs: seq<Record>, b: nat): (t: seq<Pair>)
    ensures |t| == 2 * |Bucket(Pairs(hash, rs), b)|
  {
    var s := Bucket(Pairs(hash, rs), b);
    Fill(2 * |s|, s)
  }

  function Tables(hash: Hash, rs: seq<Record>): (ts: seq<seq<Pair>>)
    ensures |ts| == TABLES && forall b :: 0 <= b < TABLES ==> ts[b] == Table(hash, rs, b)
  {
    seq(TABLES, b requires 0 <= b < TABLES => Table(hash, rs, b))
  }

  function SlotBytes(x: Pair): (s: seq<Byte>)
    ensures |s| == 8 && s[..4] == Pack(x.h) && s[4..] == Pack(x.p)
  {
    Pack(x.h) + Pack(x.p)
  }

  function TableBytes(t: seq<Pair>): (s: seq<Byte>)
    ensures |s| == 8 * |t|
  {
    if t == [] then [] else TableBytes(t[..|t| - 1]) + SlotBytes(t[|t| - 1])
  }

  function TablesBytes(ts: seq<seq<Pair>>): seq<Byte> {
    if ts == [] then [] else TablesBytes(ts[..|ts| - 1]) + TableBytes(ts[|ts| - 1])
  }

  /** The position of table b when the tables start at position p. */
  function TablePos(ts: seq<seq<Pair>>, p: nat, b: nat): nat
    requires b <= |ts|
  {
    p + |TablesBytes(ts[..b])|
  }

  function HeaderBytes(ts: seq<seq<Pair>>, p: nat): (s: seq<Byte>)
    ensures |s| == 8 * |ts|
  {
    if ts == [] then []
    else
      var b := |ts| - 1;
      HeaderBytes(ts[..b], p) + (Pack(TablePos(ts, p, b)) + Pack(|ts[b]|))
  }

  /** The whole file: 256 table pointers, the records, the 256 tables. */
  function File(hash: Hash, rs: seq<Record>): seq<Byte> {
    var ts := Tables(hash, rs);
    HeaderBytes(ts, End(rs)) + (RecordsBytes(rs) + TablesBytes(ts))
  }

  /** The file stays within 32-bit positions: every record, then two 8-byte slots a record. */
  predicate Fits(rs: seq<Record>) {
    End(rs) + 16 * |rs| < TWO32
  }

  // ---------- Where things are ----------

  lemma {:induction false} RecordsBytesPrefix(rs: seq<Record>, k: nat)
    requires k <= |rs|
    ensures RecordsBytes(rs[..k]) <= RecordsBytes(rs)
    ensures k < |rs| ==> RecordsBytes(rs[..k]) + RecordBytes(rs[k]) <= RecordsBytes(rs)
  {
    hide RecordBytes;
    var n := |rs|;
    if k < n {
      assert rs[..n - 1][..k] == rs[..k];
      RecordsBytesPrefix(rs[..n - 1], k);
    } else {
      assert rs[..k] == rs;
    }
  }

  lemma {:induction false} PairsAt(hash: Hash, rs: seq<Record>, k: nat)
    requires k < |rs|
    ensures Pairs(hash, rs)[k] == Pair(hash(rs[k].key), End(rs[..k]))
  {
    var init := rs[..|rs| - 1];
    if k < |rs| - 1 {
      assert init[..k] == rs[..k];
      PairsAt(hash, init, k);
    }
  }

  lemma {:induction false} TableBytesAt(t: seq<Pair>, i: nat)
    requires i < |t|
    ensures TableBytes(t)[8 * i..8 * i + 8] == SlotBytes(t[i])
  {
    var n := |t| - 1;
    if i < n {
      TableBytesAt(t[..n], i);
      assert TableBytes(t)[8 * i..8 * i + 8] == TableBytes(t[..n])[8 * i..8 * i + 8];
    }
  }

  lemma {:induction false} TablesBytesPrefix(ts: seq<seq<Pair>>, b: nat)
    requires b <= |ts|
    ensures TablesBytes(ts[..b]) <= TablesBytes(ts)
    ensures b < |ts| ==> TablesBytes(ts[..b]) + TableBytes(ts[b]) <= TablesBytes(ts)
  {
    var n := |ts|;
    if b < n {
      assert ts[..n - 1][..b] == ts[..b];
      TablesBytesPrefix(ts[..n - 1], b);
    } else {
      assert ts[..b] == ts;
    }
  }

  lemma {:induction false} HeaderAt(ts: seq<seq<Pair>>, p: nat, b: nat)
    requires b < |ts|
    ensures HeaderBytes(ts, p)[8 * b..8 * b + 8] == Pack(TablePos(ts, p, b)) + Pack(|ts[b]|)
  {
    hide Pack;
    var n := |ts| - 1;
    var s := HeaderBytes(ts[..n], p);
    var u := Pack(TablePos(ts, p, n)) + Pack(|ts[n]|);
    if b < n {
      HeaderAt(ts[..n], p, b);
      assert ts[..n][..b] == ts[..b];
      InFront(s, u, 8 * b, 8 * b + 8);
    } else {
      assert (s + u)[|s|..|s| + 8] == u;
    }
  }

  // ---------- How long it is ----------

  function BucketTotal(s: seq<Pair>, b: nat): nat {
    if b == 0 then 0 else BucketTotal(s, b - 1) + |Bucket(s, b - 1)|
  }

  lemma {:induction false} TablesLength(ts: seq<seq<Pair>>, s: seq<Pair>, b: nat)
    requires b <= |ts|
    requires forall c :: 0 <= c < b ==> |ts[c]| == 2 * |Bucket(s, c)|
    ensures |TablesBytes(ts[..b])| == 16 * BucketTotal(s, b)
  {
    if b > 0 {
      assert ts[..b][..b - 1] == ts[..b - 1];
      TablesLength(ts, s, b - 1);
      assert |TableBytes(ts[b - 1])| == 16 * |Bucket(s, b - 1)|;
    }
  }

  lemma {:induction false} BucketInit(s: seq<Pair>, b: nat)
    requires s != []
    ensures |Bucket(s, b)| == |Bucket(s[..|s| - 1], b)| + if s[|s| - 1].h % 256 == b then 1 else 0
  {
  }

  lemma {:induction false} BucketTotalInit(s: seq<Pair>, b: nat)
    requires s != []
    ensures BucketTotal(s, b) == BucketTotal(s[..|s| - 1], b) + if s[|s| - 1].h % 256 < b then 1 else 0
  {
    hide Bucket;
    if b > 0 {
      BucketTotalInit(s, b - 1);
      BucketInit(s, b - 1);
    }
  }

  lemma {:induction false} BucketTotalEmpty(b: nat)
    ensures BucketTotal([], b) == 0
  {
    if b > 0 {
      BucketTotalEmpty(b - 1);
    }
  }

  /** Every pair is in exactly one bucket. */
  lemma {:induction false} BucketTotalAll(s: seq<Pair>, b: nat)
    requires b >= TABLES
    ensures BucketTotal(s, b) == |s|
  {
    if s == [] {
      BucketTotalEmpty(b);
    } else {
      BucketTotalInit(s, b);
      BucketTotalAll(s[..|s| - 1], b);
    }
  }

  lemma {:induction false} BucketTotalMonotone(s: seq<Pair>, b: nat, c: nat)
    requires b <= c
    ensures BucketTotal(s, b) <= BucketTotal(s, c)
    ensures b < c ==> BucketTotal(s, b) + |Bucket(s, b)| <= BucketTotal(s, c)
  {
    if b < c {
      BucketTotalMonotone(s, b, c - 1);
    }
  }

  lemma {:induction false} FileLength(hash: Hash, rs: seq<Record>)
    ensures |File(hash, rs)| == End(rs) + 16 * |rs|
  {
    var ts := Tables(hash, rs);
    assert ts[..TABLES] == ts;
    TablesLength(ts, Pairs(hash, rs), TABLES);
    BucketTotalAll(Pairs(hash, rs), TABLES);
  }

  // ---------- The file, field by field ----------

  lemma {:induction false} FileHeader(hash: Hash, rs: seq<Record>, b: nat)
    requires b < TABLES
    ensures |File(hash, rs)| >= HEADER
    ensures File(hash, rs)[8 * b..8 * b + 4] == Pack(TablePos(Tables(hash, rs), End(rs), b))
    ensures File(hash, rs)[8 * b + 4..8 * b + 8] == Pack(|Table(hash, rs, b)|)
  {
    var ts := Tables(hash, rs);
    HeaderAt(ts, End(rs), b);
    var s, rest := HeaderBytes(ts, End(rs)), RecordsBytes(rs) + TablesBytes(ts);
    InFront(s, rest, 8 * b, 8 * b + 8);
    Subslice(s + rest, 8 * b, 8, 0, 4);
    Subslice(s + rest, 8 * b, 8, 4, 8);
  }

  /** These bytes stand at position p. */
  ghost predicate Holds(f: seq<Byte>, p: nat, data: seq<Byte>) {
    p + |data| <= |f| && f[p..p + |data|] == data
  }

  lemma {:induction false} FileSlot(hash: Hash, rs: seq<Record>, b: nat, i: nat)
    requires b < TABLES && i < |Table(hash, rs, b)|
    ensures Holds(File(hash, rs), TablePos(Tables(hash, rs), End(rs), b) + 8 * i, SlotBytes(Table(hash, rs, b)[i]))
  {
    hide TableBytes, TablesBytes, SlotBytes, Table, Tables, HeaderBytes, RecordsBytes;
    var ts := Tables(hash, rs);
    TablesBytesPrefix(ts, b);
    TableBytesAt(ts[b], i);
    PartWithin(HeaderBytes(ts, End(rs)), RecordsBytes(rs), TablesBytes(ts[..b]), TableBytes(ts[b]), TablesBytes(ts),
      8 * i, 8 * i + 8);
  }

  lemma {:induction false} PartWithin(header: seq<Byte>, records: seq<Byte>, before: seq<Byte>, part: seq<Byte>,
                                      all: seq<Byte>, i: nat, j: nat)
    requires before + part <= all && i <= j <= |part|
    ensures Holds(header + (records + all), |header| + |records| + |before| + i, part[i..j])
  {
    PrefixAfter(records, before, part, all);
    Within(header, records + before, part, records + all, i, j);
  }

  lemma {:induction false} FileRecord(hash: Hash, rs: seq<Record>, k: nat)
    requires k < |rs|
    ensures Holds(File(hash, rs), End(rs[..k]), RecordBytes(rs[k]))
  {
    hide TablesBytes, Tables, HeaderBytes, RecordsBytes, RecordBytes;
    var ts := Tables(hash, rs);
    RecordsBytesPrefix(rs, k);
    RecordWithin(HeaderBytes(ts, End(rs)), RecordsBytes(rs[..k]), RecordBytes(rs[k]), RecordsBytes(rs),
      TablesBytes(ts));
  }

  lemma {:induction false} RecordWithin(header: seq<Byte>, before: seq<Byte>, r: seq<Byte>, records: seq<Byte>,
                                        rest: seq<Byte>)
    requires before + r <= records
    ensures Holds(header + (records + rest), |header| + |before|, r)
  {
    PrefixTrans(before + r, records, rest);
    Within(header, before, r, records + rest, 0, |r|);
  }

  lemma {:induction false} RecordFields(f: seq<Byte>, p: nat, r: Record)
    requires Holds(f, p, RecordBytes(r))
    ensures var m := |r.key|;
            && p + 8 + m + |r.data| <= |f|
            && f[p..p + 4] == Pack(m)
            && f[p + 4..p + 8] == Pack(|r.data|)
            && f[p + 8..p + 8 + m] == r.key
            && Holds(f, p + 8 + m, r.data)
  {
    RecordParts(r);
    SliceParts(f, p, RecordBytes(r), 8 + |r.key|);
  }

  lemma {:induction false} SliceParts(f: seq<Byte>, p: nat, r: seq<Byte>, c: nat)
    requires Holds(f, p, r) && 8 <= c <= |r|
    ensures f[p..p + 4] == r[0..4] && f[p + 4..p + 8] == r[4..8]
    ensures f[p + 8..p + c] == r[8..c] && f[p + c..p + |r|] == r[c..|r|]
  {
    Subslice(f, p, |r|, 0, 4);
    Subslice(f, p, |r|, 4, 8);
    Subslice(f, p, |r|, 8, c);
    Subslice(f, p, |r|, c, |r|);
  }

  lemma {:induction false} Subslice(f: seq<Byte>, p: nat, n: nat, i: nat, j: nat)
    requires p + n <= |f| && i <= j <= n
    ensures f[p..p + n][i..j] == f[p + i..p + j]
  {
    var s, u := f[p..p + n][i..j], f[p + i..p + j];
    assert |s| == |u| && forall k :: 0 <= k < |s| ==> s[k] == u[k];
  }

  lemma {:induction false} InFront(s: seq<Byte>, rest: seq<Byte>, i: nat, j: nat)
    requires i <= j <= |s|
    ensures (s + rest)[i..j] == s[i..j]
  {
  }

  lemma {:induction false} PrefixTrans(a: seq<Byte>, b: seq<Byte>, rest: seq<Byte>)
    requires a <= b
    ensures a <= b + rest
  {
  }

  lemma {:induction false} PrefixAfter(front: seq<Byte>, a: seq<Byte>, b: seq<Byte>, all: seq<Byte>)
    requires a + b <= all
    ensures front + a + b <= front + all
  {
    assert front + a + b == front + (a + b);
    assert (front + all)[..|front + (a + b)|] == front + all[..|a + b|];
  }

  /** A part of a part. */
  lemma {:induction false} Within(front: seq<Byte>, before: seq<Byte>, part: seq<Byte>, all: seq<Byte>, i: nat, j: nat)
    requires before + part <= all && i <= j <= |part|
    ensures |front| + |before| + j <= |front + all|
    ensures (front + all)[|front| + |before| + i..|front| + |before| + j] == part[i..j]
  {
    assert part == all[|before|..|before| + |part|];
  }

  lemma {:induction false} RecordParts(r: Record)
    ensures var s := RecordBytes(r); var m := |r.key|;
            && |s| == 8 + m + |r.data| && s[0..4] == Pack(m) && s[4..8] == Pack(|r.data|)
            && s[8..8 + m] == r.key && s[8 + m..|s|] == r.data
  {
  }

  // ---------- What a reader finds ----------

  /** The place of one record's data in the file. */
  datatype Slice = Slice(pos: nat, len: nat)

  /** Specification: the data added under a key, oldest first. */
  function Values(rs: seq<Record>, key: seq<Byte>): seq<seq<Byte>> {
    if rs == [] then []
    else
      Values(rs[..|rs| - 1], key) + if rs[|rs| - 1].key == key then [rs[|rs| - 1].data] else []
  }

  /** Where the data added under a key lies, oldest first. */
  function Slices(rs: seq<Record>, key: seq<Byte>): seq<Slice> {
    if rs == [] then []
    else
      var init, r := rs[..|rs| - 1], rs[|rs| - 1];
      Slices(init, key) + if r.key == key then [Slice(End(init) + 8 + |key|, |r.data|)] else []
  }

  /** Position p of a file holds a record with this key. */
  predicate RecordAt(f: seq<Byte>, p: nat, key: seq<Byte>) {
    p + 8 + |key| <= |f| && Unpack(f[p..p + 4]) == |key| && f[p + 8..p + 8 + |key|] == key
  }

  function SliceAt(f: seq<Byte>, p: nat, key: seq<Byte>): Slice
    requires RecordAt(f, p, key)
  {
    Slice(p + 8 + |key|, Unpack(f[p + 4..p + 8]))
  }

  /** What a reader accepts among probed entries: equal hash, then equal key in the file. */
  function Hits(f: seq<Byte>, s: seq<Pair>, key: seq<Byte>, h: Word): seq<Slice> {
    if s == [] then []
    else
      (if s[0].h == h && RecordAt(f, s[0].p, key) then [SliceAt(f, s[0].p, key)] else [])
      + Hits(f, s[1..], key, h)
  }

  lemma {:induction false} HitsConcat(f: seq<Byte>, a: seq<Pair>, b: seq<Pair>, key: seq<Byte>, h: Word)
    ensures Hits(f, a + b, key, h) == Hits(f, a, key, h) + Hits(f, b, key, h)
  {
    if a == [] {
      assert a + b == b;
    } else {
      assert (a + b)[1..] == a[1..] + b;
      HitsConcat(f, a[1..], b, key, h);
    }
  }

  lemma {:induction false} HitsSelect(f: seq<Byte>, s: seq<Pair>, key: seq<Byte>, h: Word)
    ensures Hits(f, Select(s, h), key, h) == Hits(f, s, key, h)
  {
    if s != [] {
      var init, x := s[..|s| - 1], s[|s| - 1];
      assert s == init + [x];
      HitsSelect(f, init, key, h);
      HitsConcat(f, init, [x], key, h);
      HitsConcat(f, Select(init, h), if x.h == h then [x] else [], key, h);
    }
  }

  lemma {:induction false} SelectBucket(s: seq<Pair>, h: Word)
    ensures Select(Bucket(s, h % 256), h) == Select(s, h)
  {
    if s != [] {
      var init, x := s[..|s| - 1], s[|s| - 1];
      SelectBucket(init, h);
      SelectConcat(Bucket(init, h % 256), if x.h % 256 == h % 256 then [x] else [], h);
      assert [x][..0] == [];
    }
  }

  /** The key test against f answers for the k-th record alone. */
  ghost predicate KeyTestExact(f: seq<Byte>, rs: seq<Record>, k: nat, key: seq<Byte>)
    requires k < |rs|
  {
    var p := End(rs[..k]);
    && (RecordAt(f, p, key) <==> rs[k].key == key)
    && (rs[k].key == key ==> SliceAt(f, p, key) == Slice(p + 8 + |key|, |rs[k].data|))
  }

  lemma {:induction false} FileKeyTest(hash: Hash, rs: seq<Record>, k: nat, key: seq<Byte>)
    requires Fits(rs) && k < |rs| && |key| < TWO32
    ensures KeyTestExact(File(hash, rs), rs, k, key)
  {
    FileRecord(hash, rs, k);
    FileLength(hash, rs);
    RecordKeyTest(File(hash, rs), End(rs[..k]), rs[k], key);
  }

  lemma {:induction false} RecordKeyTest(f: seq<Byte>, p: nat, r: Record, key: seq<Byte>)
    requires Holds(f, p, RecordBytes(r)) && |f| < TWO32 && |key| < TWO32
    ensures RecordAt(f, p, key) <==> r.key == key
    ensures r.key == key ==> SliceAt(f, p, key) == Slice(p + 8 + |key|, |r.data|)
  {
    RecordFields(f, p, r);
    UnpackPack(|r.key|);
    UnpackPack(|r.data|);
  }

  /** The entries a reader accepts are the records with the key. */
  lemma {:induction false} HitsAreSlices(f: seq<Byte>, hash: Hash, rs: seq<Record>, k: nat, key: seq<Byte>)
    requires k <= |rs|
    requires forall j :: 0 <= j < k ==> KeyTestExact(f, rs, j, key)
    ensures Hits(f, Pairs(hash, rs[..k]), key, hash(key)) == Slices(rs[..k], key)
  {
    hide Hits, RecordAt, SliceAt, End;
    if k == 0 {
      HitsNone(f, key, hash(key));
    } else {
      var init, h := rs[..k - 1], hash(key);
      assert rs[..k][..k - 1] == init;
      HitsAreSlices(f, hash, rs, k - 1, key);
      assert KeyTestExact(f, rs, k - 1, key);
      var x := Pair(hash(rs[k - 1].key), End(init));
      HitsConcat(f, Pairs(hash, init), [x], key, h);
      HitsOne(f, x, key, h);
    }
  }

  lemma {:induction false} HitsNone(f: seq<Byte>, key: seq<Byte>, h: Word)
    ensures Hits(f, [], key, h) == []
  {
  }

  lemma {:induction false} HitsOne(f: seq<Byte>, x: Pair, key: seq<Byte>, h: Word)
    ensures Hits(f, [x], key, h) == if x.h == h && RecordAt(f, x.p, key) then [SliceAt(f, x.p, key)] else []
  {
    assert Hits(f, [x][1..], key, h) == [];
  }

  lemma {:induction false} PairsNonzero(hash: Hash, rs: seq<Record>)
    ensures forall x :: x in Pairs(hash, rs) ==> x.p >= HEADER
  {
    if rs != [] {
      PairsNonzero(hash, rs[..|rs| - 1]);
    }
  }

  /** Lookup is correct for any hash: probing the key's table from the home slot of
      its hash yields exactly the data added under the key, oldest first. */
  lemma {:induction false} LookupCorrect(hash: Hash, rs: seq<Record>, key: seq<Byte>)
    requires Fits(rs) && |key| < TWO32
    ensures var t := Table(hash, rs, hash(key) % 256);
            if t == [] then Slices(rs, key) == []
            else Hits(File(hash, rs), Run(t, Home(hash(key), |t|), 0), key, hash(key)) == Slices(rs, key)
  {
    var h, f, s := hash(key), File(hash, rs), Pairs(hash, rs);
    var bucket := Bucket(s, h % 256);
    assert rs[..|rs|] == rs;
    forall k | 0 <= k < |rs| ensures KeyTestExact(f, rs, k, key) {
      FileKeyTest(hash, rs, k, key);
    }
    HitsAreSlices(f, hash, rs, |rs|, key);
    HitsSelect(f, s, key, h);
    SelectBucket(s, h);
    if bucket != [] {
      PairsNonzero(hash, rs);
      BucketMembers(s, h % 256);
      ProbeFindsInOrder(2 * |bucket|, bucket, h);
      HitsSelect(f, Run(Table(hash, rs, h % 256), Home(h, 2 * |bucket|), 0), key, h);
    }
  }

  ghost predicate DataExact(f: seq<Byte>, rs: seq<Record>, k: nat)
    requires k < |rs|
  {
    Holds(f, End(rs[..k]) + 8 + |rs[k].key|, rs[k].data)
  }

  /** Reading a slice of the file gives these bytes. */
  ghost predicate Reads(f: seq<Byte>, s: Slice, data: seq<Byte>) {
    s.len == |data| && Holds(f, s.pos, data)
  }

  lemma {:induction false} SlicesInOrder(f: seq<Byte>, rs: seq<Record>, k: nat, key: seq<Byte>, i: nat)
    requires k <= |rs|
    requires forall j :: 0 <= j < k ==> DataExact(f, rs, j)
    ensures |Slices(rs[..k], key)| == |Values(rs[..k], key)|
    ensures i < |Slices(rs[..k], key)| ==>
      Reads(f, Slices(rs[..k], key)[i], Values(rs[..k], key)[i])
  {
    if k > 0 {
      assert rs[..k][..k - 1] == rs[..k - 1];
      SlicesInOrder(f, rs, k - 1, key, i);
      assert DataExact(f, rs, k - 1);
    }
  }

  lemma {:induction false} FileData(hash: Hash, rs: seq<Record>, k: nat)
    requires k < |rs|
    ensures DataExact(File(hash, rs), rs, k)
  {
    FileRecord(hash, rs, k);
    RecordFields(File(hash, rs), End(rs[..k]), rs[k]);
  }

  /** The slices are the values: reading the i-th one gives the i-th data added under the key. */
  lemma {:induction false} SlicesHoldValues(hash: Hash, rs: seq<Record>, key: seq<Byte>, i: nat)
    ensures |Slices(rs, key)| == |Values(rs, key)|
    ensures i < |Slices(rs, key)| ==>
      Reads(File(hash, rs), Slices(rs, key)[i], Values(rs, key)[i])
  {
    assert rs[..|rs|] == rs;
    forall k | 0 <= k < |rs| ensures DataExact(File(hash, rs), rs, k) {
      FileData(hash, rs, k);
    }
    SlicesInOrder(File(hash, rs), rs, |rs|, key, i);
  }
}
