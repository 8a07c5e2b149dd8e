/** The incremental reader of src/cdb.c over a mapped file. */
module CdbReader {
  import opened Bytes
  import opened CdbSpec
  import opened CdbFile

  /** These bytes of the file are this table. */
  ghost predicate TableIn(f: seq<Byte>, q: nat, t: seq<Pair>) {
    forall w :: 0 <= w < |t| ==> SlotIn(f, q + 8 * w, t[w])
  }

  ghost predicate SlotIn(f: seq<Byte>, p: nat, x: Pair) {
    && p + 8 <= |f|
    && Unpack(f[p..p + 8][0..4]) == x.h && Unpack(f[p..p + 8][4..8]) == x.p
    && (x.p != 0 ==> KeyInside(f, x.p))
  }

  /** The record at p lies inside the file up to the end of its key. */
  ghost predicate KeyInside(f: seq<Byte>, p: nat) {
    p + 8 <= |f| && p + 8 + Unpack(f[p..p + 8][0..4]) <= |f|
  }

  lemma {:induction false} SlotNext(s: nat, d: nat, n: nat)
    requires s < n && d < n
    ensures Slot(s, d, n) < n
    ensures d + 1 < n ==> Slot(s, d + 1, n) == if Slot(s, d, n) + 1 == n then 0 else Slot(s, d, n) + 1
  {
  }

  lemma {:induction false} TableSlot(f: seq<Byte>, q: nat, t: seq<Pair>, w: nat)
    requires TableIn(f, q, t) && w < |t|
    ensures SlotIn(f, q + 8 * w, t[w])
  {
  }

  lemma {:induction false} HeaderIndex(h: Word)
    ensures h * 8 % 2048 == 8 * (h % 256)
  {
  }

  lemma {:induction false} ModAtMost(a: nat, n: nat)
    requires n > 0
    ensures a % n <= a
  {
  }

  /** The home slot's offset needs no truncation to 32 bits. */
  lemma {:induction false} HomeOffset(h: Word, n: nat)
    requires n > 0
    ensures Home(h, n) * 8 % TWO32 == Home(h, n) * 8
  {
    ModAtMost(h / 256, n);
    assert Home(h, n) < 0x100_0000;
  }

  /** The file's header points table b to n slots at position q. */
  ghost predicate HeaderIn(f: seq<Byte>, b: nat, q: nat, n: nat) {
    && 8 * b + 8 <= |f|
    && Unpack(f[8 * b..8 * b + 8][0..4]) == q && Unpack(f[8 * b..8 * b + 8][4..8]) == n
    && q + 8 * n < TWO32
  }

  lemma {:induction false} HeaderUnpacks(f: seq<Byte>, b: nat, q: nat, n: nat)
    requires 8 * b + 8 <= |f| && f[8 * b..8 * b + 4] == Pack(q) && f[8 * b + 4..8 * b + 8] == Pack(n)
    requires q + 8 * n < TWO32
    ensures HeaderIn(f, b, q, n)
  {
    Subslice(f, 8 * b, 8, 0, 4);
    Subslice(f, 8 * b, 8, 4, 8);
    UnpackPack(q);
    UnpackPack(n);
  }

  /** The first read of a search: the pointer to the key's table. */
  lemma {:induction false} StartReads(hash: Hash, rs: seq<Record>, b: nat)
    requires Fits(rs) && b < TABLES
    ensures HeaderIn(File(hash, rs), b, TablePos(Tables(hash, rs), End(rs), b), |Table(hash, rs, b)|)
  {
    FileHeader(hash, rs, b);
    FileLength(hash, rs);
    TableInFile(hash, rs, b);
    HeaderUnpacks(File(hash, rs), b, TablePos(Tables(hash, rs), End(rs), b), |Table(hash, rs, b)|);
  }

  lemma {:induction false} TableInFile(hash: Hash, rs: seq<Record>, b: nat)
    requires b < TABLES
    ensures TablePos(Tables(hash, rs), End(rs), b) + 8 * |Table(hash, rs, b)| <= |File(hash, rs)|
  {
    var ts := Tables(hash, rs);
    TablesBytesPrefix(ts, b);
    assert |TablesBytes(ts[..b]) + TableBytes(ts[b])| <= |TablesBytes(ts)|;
  }

  lemma {:induction false} FillMembers(n: nat, s: seq<Pair>)
    requires |s| < n || s == []
    ensures forall i :: 0 <= i < n ==> Fill(n, s)[i] == FREE || Fill(n, s)[i] in s
  {
    if s != [] {
      FillMembers(n, s[..|s| - 1]);
    }
  }

  lemma {:induction false} PairInside(hash: Hash, rs: seq<Record>, x: Pair)
    requires Fits(rs) && x in Pairs(hash, rs)
    ensures x.p < TWO32 && KeyInside(File(hash, rs), x.p)
  {
    var k :| 0 <= k < |rs| && Pairs(hash, rs)[k] == x;
    PairsAt(hash, rs, k);
    FileRecord(hash, rs, k);
    FileLength(hash, rs);
    RecordKeyInside(File(hash, rs), x.p, rs[k]);
  }

  lemma {:induction false} RecordKeyInside(f: seq<Byte>, p: nat, r: Record)
    requires Holds(f, p, RecordBytes(r)) && |f| < TWO32
    ensures KeyInside(f, p)
  {
    RecordFields(f, p, r);
    Subslice(f, p, 8, 0, 4);
    UnpackPack(|r.key|);
  }

  /** Every later read of a search: the slots of the key's table. */
  lemma {:induction false} TableReads(hash: Hash, rs: seq<Record>, b: nat)
    requires Fits(rs) && b < TABLES
    ensures TableIn(File(hash, rs), TablePos(Tables(hash, rs), End(rs), b), Table(hash, rs, b))
  {
    hide File, Tables, Table, End, TablePos, SlotIn, Holds, KeyInside, SlotBytes;
    var f, q, t := File(hash, rs), TablePos(Tables(hash, rs), End(rs), b), Table(hash, rs, b);
    forall w | 0 <= w < |t| ensures SlotIn(f, q + 8 * w, t[w]) {
      FileSlot(hash, rs, b, w);
      SlotMember(hash, rs, b, w);
      SlotUnpacks(f, q + 8 * w, t[w]);
    }
  }

  lemma {:induction false} SlotMember(hash: Hash, rs: seq<Record>, b: nat, w: nat)
    requires Fits(rs) && b < TABLES && w < |Table(hash, rs, b)|
    ensures var x := Table(hash, rs, b)[w]; x == FREE || (x.p < TWO32 && KeyInside(File(hash, rs), x.p))
  {
    var s := Bucket(Pairs(hash, rs), b);
    FillMembers(2 * |s|, s);
    BucketMembers(Pairs(hash, rs), b);
    if Table(hash, rs, b)[w] != FREE {
      PairInside(hash, rs, Table(hash, rs, b)[w]);
    }
  }

  lemma {:induction false} SlotUnpacks(f: seq<Byte>, p: nat, x: Pair)
    requires Holds(f, p, SlotBytes(x)) && x.p < TWO32 && (x == FREE || KeyInside(f, x.p))
    ensures SlotIn(f, p, x)
  {
    UnpackPack(x.h);
    UnpackPack(x.p);
  }

  /** One probe: a free slot ends the matches, any other slot is a match or is passed over. */
  lemma {:induction false} AheadStep(f: seq<Byte>, t: seq<Pair>, s: nat, d: nat, key: seq<Byte>, h: Word)
    requires s < |t| && d < |t|
    ensures var x := t[Slot(s, d, |t|)];
            Hits(f, Run(t, s, d), key, h) ==
              if x.p == 0 then []
              else (if x.h == h && RecordAt(f, x.p, key) then [SliceAt(f, x.p, key)] else [])
                   + Hits(f, Run(t, s, d + 1), key, h)
  {
    var x := t[Slot(s, d, |t|)];
    if x.p != 0 {
      HitsConcat(f, [x], Run(t, s, d + 1), key, h);
      HitsOne(f, x, key, h);
    }
  }

  lemma {:induction false} AheadEnd(f: seq<Byte>, t: seq<Pair>, s: nat, key: seq<Byte>, h: Word)
    requires s < |t|
    ensures Hits(f, Run(t, s, |t|), key, h) == []
  {
  }

  class Cdb {
    const file: seq<Byte>
    const hash: Hash
    var loop: Word
    var khash: Word
    var kpos: Word
    var hpos: Word
    var hslots: Word
    var dpos: Word
    var dlen: Word

    /** cdb_init: a file of at most 2^32 - 1 bytes is mapped whole. */
    constructor (hash: Hash, file: seq<Byte>)
      requires |file| < TWO32
      ensures this.file == file && this.hash == hash && loop == 0
    {
      this.file := file;
      this.hash := hash;
      loop, khash, kpos, hpos, hslots, dpos, dlen := 0, 0, 0, 0, 0, 0, 0;
    }

    /** A search for key in table t at position q has examined `loop` slots. */
    ghost predicate Probing(t: seq<Pair>, q: nat, key: seq<Byte>)
      reads this
    {
      && khash == hash(key) && hslots == |t| > 0 && loop <= hslots
      && hpos == q && q + 8 * |t| < TWO32
      && (loop < hslots ==> kpos == q + 8 * Slot(Home(khash, hslots), loop, hslots))
    }

    /** The matches among the slots not yet examined. */
    ghost function Ahead(t: seq<Pair>, q: nat, key: seq<Byte>): seq<Slice>
      requires Probing(t, q, key)
      reads this
    {
      Hits(file, Run(t, Home(khash, |t|), loop), key, khash)
    }

    /** The cursor is somewhere in a search for key in the finished file of rs. */
    ghost predicate Searching(rs: seq<Record>, key: seq<Byte>)
      reads this
    {
      var b := hash(key) % 256;
      && file == File(hash, rs) && Fits(rs) && |key| < TWO32
      && (loop > 0 ==> Probing(Table(hash, rs, b), TablePos(Tables(hash, rs), End(rs), b), key))
    }

    /** The matches still to come. */
    ghost function Left(rs: seq<Record>, key: seq<Byte>): seq<Slice>
      requires Searching(rs, key)
      reads this
    {
      var b := hash(key) % 256;
      if loop == 0 then Slices(rs, key)
      else Ahead(Table(hash, rs, b), TablePos(Tables(hash, rs), End(rs), b), key)
    }

    /** cdb_read: fails exactly when the bytes are not all inside the file. */
    method Read(len: Word, pos: Word) returns (ok: bool, buf: seq<Byte>)
      requires |file| < TWO32
      ensures ok <==> pos + len <= |file|
      ensures ok ==> buf == file[pos..pos + len]
    {
      if pos > |file| || |file| - pos < len {
        return false, [];
      }
      return true, file[pos..pos + len];
    }

    /** match: compares in steps of 32 bytes; -1 when the file ends first. */
    method Match(key: seq<Byte>, pos: Word) returns (r: int)
      requires |file| < TWO32 && |key| < TWO32
      ensures r == 1 && key != [] ==> pos + |key| <= |file| && file[pos..pos + |key|] == key
      ensures r == 0 ==> !(pos + |key| <= |file| && file[pos..pos + |key|] == key)
      ensures r == -1 ==> pos + |key| > |file|
      ensures r == 1 || r == 0 || r == -1
    {
      var i := 0;
      var p := pos;
      while i < |key|
        invariant 0 <= i <= |key|
        invariant i > 0 ==> p == pos + i <= |file| && file[pos..p] == key[..i]
        invariant i == 0 ==> p == pos
      {
        var n := if 32 > |key| - i then |key| - i else 32;
        var ok, buf := Read(n, p);
        if !ok {
          return -1;
        }
        if buf != key[i..i + n] {
          if pos + |key| <= |file| && file[pos..pos + |key|] == key {
            Subslice(file, pos, |key|, i, i + n);
          }
          return 0;
        }
        assert file[pos..p + n] == file[pos..p] + file[p..p + n];
        assert key[..i + n] == key[..i] + key[i..i + n];
        p := Add32(p, n);
        i := i + n;
      }
      assert key[..|key|] == key;
      return 1;
    }

    method FindStart()
      modifies this`loop
      ensures loop == 0
    {
      loop := 0;
    }

    /** cdb_find: the place of the data first stored under a key. */
    method Find(key: seq<Byte>, ghost rs: seq<Record>) returns (r: int)
      requires |file| < TWO32 && |key| < TWO32
      modifies this
      ensures r == -1 || r == 0 || r == 1
      ensures file == File(hash, rs) && Fits(rs) ==>
        var found := Values(rs, key);
        if found == [] then r == 0
        else r == 1 && dlen == |found[0]| && dpos + dlen <= |file| && file[dpos..dpos + dlen] == found[0]
    {
      hide File, Slices, Values, AtRecord, Fits, Probing;
      ghost var good := file == File(hash, rs) && Fits(rs);
      FindStart();
      assert good ==> Searching(rs, key) && Left(rs, key) == Slices(rs, key);
      r := FindNext(key, rs);
      if good { SlicesHoldValues(hash, rs, key, 0); }
    }

    /** A success of the search points just behind a record with this key. */
    ghost predicate AtRecord(key: seq<Byte>)
      reads this
    {
      && dpos >= 8 + |key|
      && RecordAt(file, dpos - 8 - |key|, key)
      && SliceAt(file, dpos - 8 - |key|, key) == Slice(dpos, dlen)
    }

    /** The start of cdb_findnext: find the key's table; done when it has no slots. */
    method FindTable(key: seq<Byte>, ghost t: seq<Pair>, ghost q: nat) returns (r: int)
      requires |file| < TWO32 && |key| < TWO32 && loop == 0
      modifies this
      ensures loop == 0 && (r == 1 || r == 0 || r == -1)
      ensures HeaderIn(file, hash(key) % 256, q, |t|) ==>
        if t == [] then r == 0 else r == 1 && Probing(t, q, key)
    {
      var u := hash(key);
      HeaderIndex(u);  // (u << 3) & 2047
      var ok, buf := Read(8, 8 * (u % 256));
      if !ok { return -1; }
      hslots := Unpack(buf[4..8]);
      if hslots == 0 { return 0; }
      hpos := Unpack(buf[0..4]);
      khash := u;
      HomeOffset(u, hslots);
      kpos := Add32(hpos, Home(u, hslots) * 8 % TWO32);
      return 1;
    }

    /** Inside cdb_findnext: does the record at pos have this key? */
    method CheckRecord(key: seq<Byte>, pos: Word) returns (r: int)
      requires |file| < TWO32 && |key| < TWO32
      modifies this`dpos, this`dlen
      ensures r == 1 || r == 0 || r == -1
      ensures r == 1 <==> RecordAt(file, pos, key)
      ensures r == 1 ==> AtRecord(key) && SliceAt(file, pos, key) == Slice(dpos, dlen)
      ensures KeyInside(file, pos) ==> r != -1
    {
      var ok, buf := Read(8, pos);
      if !ok { return -1; }
      Subslice(file, pos, 8, 0, 4);
      Subslice(file, pos, 8, 4, 8);
      if Unpack(buf[0..4]) == |key| {
        r := Match(key, pos + 8);
        if r == 1 {
          dlen := Unpack(buf[4..8]);
          dpos := Add32(Add32(pos, 8), |key|);
        }
        return;
      }
      return 0;
    }

    /** The rest of cdb_findnext: probe until a match or a free slot. */
    method Probe(key: seq<Byte>, ghost t: seq<Pair>, ghost q: nat) returns (r: int)
      requires |file| < TWO32 && |key| < TWO32
      modifies this
      ensures r == 1 || r == 0 || r == -1
      ensures r == 1 ==> AtRecord(key)
      ensures loop >= old(loop)
      ensures TableIn(file, q, t) && old(Probing(t, q, key)) ==>
        Probing(t, q, key) &&
        if old(Ahead(t, q, key)) == [] then r == 0 && Ahead(t, q, key) == []
        else r == 1 && [Slice(dpos, dlen)] + Ahead(t, q, key) == old(Ahead(t, q, key))
    {
      hide Hits, Run, RecordAt, SliceAt, Home, TableIn, KeyInside, Slot, AtRecord;
      ghost var good := TableIn(file, q, t) && Probing(t, q, key);
      while loop < hslots
        invariant loop >= old(loop)
        invariant good ==> Probing(t, q, key) && Ahead(t, q, key) == old(Ahead(t, q, key))
        decreases hslots - loop
      {
        ghost var x := if good then t[Slot(Home(khash, |t|), loop, |t|)] else FREE;
        if good {
          SlotNext(Home(khash, |t|), loop, |t|);
          TableSlot(file, q, t, Slot(Home(khash, |t|), loop, |t|));
          AheadStep(file, t, Home(khash, |t|), loop, key, khash);
        }
        var ok, buf := Read(8, kpos);
        if !ok { return -1; }
        var pos := Unpack(buf[4..8]);
        if pos == 0 { return 0; }
        loop := loop + 1;
        kpos := Add32(kpos, 8);
        if kpos == Add32(hpos, hslots * 8 % TWO32) { kpos := hpos; }
        if Unpack(buf[0..4]) == khash {
          r := CheckRecord(key, pos);
          if r != 0 { return; }
        }
      }
      if good { AheadEnd(file, t, Home(khash, |t|), key, khash); }
      return 0;
    }

    /** cdb_findnext. In any file a success points behind a record with this key. In the
        finished file of rs each call yields the next match, and 0 when none is left. */
    method FindNext(key: seq<Byte>, ghost rs: seq<Record>) returns (r: int)
      requires |file| < TWO32 && |key| < TWO32
      modifies this
      ensures r == 1 || r == 0 || r == -1
      ensures r == 1 ==> AtRecord(key)
      ensures old(Searching(rs, key)) ==>
        Searching(rs, key) &&
        if old(Left(rs, key)) == [] then r == 0 && Left(rs, key) == []
        else r == 1 && [Slice(dpos, dlen)] + Left(rs, key) == old(Left(rs, key))
    {
      hide File, Tables, Table, Slices, Hits, Run, End;
      ghost var good := Searching(rs, key);
      ghost var b := hash(key) % 256;
      ghost var t, q := Table(hash, rs, b), TablePos(Tables(hash, rs), End(rs), b);
      if good {
        StartReads(hash, rs, b);
        TableReads(hash, rs, b);
      }
      if loop == 0 {
        if good { LookupCorrect(hash, rs, key); }
        r := FindTable(key, t, q);
        if r != 1 { return; }
      }
      r := Probe(key, t, q);
    }
  }
}
