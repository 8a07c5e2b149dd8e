/** The way from configured ranges to a database file and back to locations: the export loop of
    scripts/veridns/db.pm, the '%' lines of src/vdnsdb.c, and a lookup in the finished file. */
module GeoBuild {
  import opened Bytes
  import opened Cidr
  import opened CidrSplit
  import opened CdbSpec
  import opened CdbFile
  import opened CdbWriter
  import opened CdbReader
  import opened Geo

  /** No record has a block key of this map and user. */
  ghost predicate NoLines(rs: seq<Record>, mid: Word, uid: Word) {
    forall k, ip, m: Byte {:trigger GeoKey(ip, m, mid, uid), rs[k]} :: 0 <= k < |rs| ==>
      rs[k].key != GeoKey(ip, m, mid, uid)
  }

  /** As Indexes, for the blocks written so far. */
  ghost predicate Written(rs: seq<Record>, gs: seq<GeoRange>, bss: seq<seq<Block>>, mid: Word, uid: Word) {
    && |bss| == |gs|
    && (forall k, ip, m: Byte {:trigger GeoKey(ip, m, mid, uid), rs[k]} ::
          0 <= k < |rs| && rs[k].key == GeoKey(ip, m, mid, uid) ==> FromRange(rs[k], gs, bss, mid, uid))
    && (forall i, j :: 0 <= i < |bss| && 0 <= j < |bss[i]| ==> HasLine(rs, bss[i][j], gs[i].loc, mid, uid))
  }

  lemma {:induction false} WrittenNone(rs: seq<Record>, gs: seq<GeoRange>, mid: Word, uid: Word)
    requires NoLines(rs, mid, uid)
    ensures Written(rs, gs, seq(|gs|, _ => []), mid, uid)
  {
    hide GeoKey;
  }

  lemma {:induction false} FromRangeGrows(r: Record, gs: seq<GeoRange>, bss: seq<seq<Block>>, i: nat, b: Block,
                                          mid: Word, uid: Word)
    requires |bss| == |gs| && i < |gs| && FromRange(r, gs, bss, mid, uid)
    ensures FromRange(r, gs, bss[i := bss[i] + [b]], mid, uid)
  {
    hide IsLine;
    var i', j :| 0 <= i' < |gs| && 0 <= j < |bss[i']| && IsLine(r, bss[i'][j], gs[i'].loc, mid, uid);
    var bss' := bss[i := bss[i] + [b]];
    assert bss'[i'][j] == bss[i'][j];
  }

  lemma {:induction false} HasLineGrows(rs: seq<Record>, r: Record, b: Block, loc: Word, mid: Word, uid: Word)
    requires HasLine(rs, b, loc, mid, uid)
    ensures HasLine(rs + [r], b, loc, mid, uid)
  {
    hide IsLine;
    var k :| 0 <= k < |rs| && IsLine(rs[k], b, loc, mid, uid);
    assert (rs + [r])[k] == rs[k];
  }

  /** Writing one more line. */
  lemma {:induction false} WrittenLine(rs: seq<Record>, gs: seq<GeoRange>, bss: seq<seq<Block>>, i: nat, b: Block,
                                       r: Record, mid: Word, uid: Word)
    requires Written(rs, gs, bss, mid, uid) && i < |gs| && IsLine(r, b, gs[i].loc, mid, uid)
    ensures Written(rs + [r], gs, bss[i := bss[i] + [b]], mid, uid)
  {
    hide IsLine, FromRange, HasLine, GeoKey;
    var rs', bss' := rs + [r], bss[i := bss[i] + [b]];
    LineIsThere(rs, gs, bss, i, b, r, mid, uid);
    forall k, ip, m: Byte {:trigger GeoKey(ip, m, mid, uid), rs'[k]} | 0 <= k < |rs'|
      && rs'[k].key == GeoKey(ip, m, mid, uid)
      ensures FromRange(rs'[k], gs, bss', mid, uid)
    {
      if k < |rs| {
        assert rs[k].key == GeoKey(ip, m, mid, uid);
        FromRangeGrows(rs[k], gs, bss, i, b, mid, uid);
      }
    }
    forall i', j | 0 <= i' < |bss'| && 0 <= j < |bss'[i']| ensures HasLine(rs', bss'[i'][j], gs[i'].loc, mid, uid) {
      if i' != i || j < |bss[i]| {
        HasLineGrows(rs, r, bss[i'][j], gs[i'].loc, mid, uid);
      }
    }
  }

  lemma {:induction false} LineIsThere(rs: seq<Record>, gs: seq<GeoRange>, bss: seq<seq<Block>>, i: nat, b: Block,
                                       r: Record, mid: Word, uid: Word)
    requires |bss| == |gs| && i < |gs| && IsLine(r, b, gs[i].loc, mid, uid)
    ensures FromRange(r, gs, bss[i := bss[i] + [b]], mid, uid) && HasLine(rs + [r], b, gs[i].loc, mid, uid)
  {
    hide IsLine;
    var bss' := bss[i := bss[i] + [b]];
    assert bss'[i][|bss[i]|] == b;
    assert (rs + [r])[|rs|] == r;
  }

  /** The bytes of one line's record. */
  const LINE: nat := 27

  lemma {:induction false} EndOfLine(rs: seq<Record>, line: Record)
    requires |line.key| == 15 && |line.data| == 4
    ensures End(rs + [line]) == End(rs) + LINE
  {
    assert (rs + [line])[..|rs|] == rs;
  }

  /** The export loop: ranges are taken from the end of the list, each is split, and each block
      becomes a line. Stops when the database file would no longer fit. */
  method Export(make: CdbMake, gs: seq<GeoRange>, mid: Word, uid: Word, ghost rs0: seq<Record>)
    returns (ok: bool, ghost rs: seq<Record>, ghost bss: seq<seq<Block>>)
    requires make.Valid(rs0) && NoLines(rs0, mid, uid) && forall i :: 0 <= i < |gs| ==> gs[i].lo <= gs[i].hi
    modifies make`out, make`head, make`numentries, make`pos
    ensures ok ==> make.Valid(rs) && rs0 <= rs && Indexes(rs, gs, bss, mid, uid)
    ensures |rs| >= |rs0| && End(rs) == End(rs0) + LINE * (|rs| - |rs0|)
    ensures !ok ==> End(rs) + LINE >= TWO32
  {
    hide CdbMake.Valid, Written, Tiles, GeoKey, Pack, NoLines, Maximal, End;
    rs, bss := rs0, seq(|gs|, _ => []);
    WrittenNone(rs0, gs, mid, uid);
    var key := new Byte[15](_ => 0);
    var i := |gs|;
    while i > 0
      invariant 0 <= i <= |gs| == |bss|
      invariant make.Valid(rs) && rs0 <= rs && Written(rs, gs, bss, mid, uid)
      invariant End(rs) == End(rs0) + LINE * (|rs| - |rs0|)
      invariant forall k :: 0 <= k < i ==> bss[k] == []
      invariant forall k :: i <= k < |gs| ==> Splits(bss[k], gs[k].lo, gs[k].hi)
    {
      i := i - 1;
      var g := gs[i];
      var chunks := ToCidr(g.lo, g.hi);
      var blocks := chunks.blocks;
      TilesCover(g.lo, g.hi + 1, g.lo, g.hi, blocks, 0);
      var j := 0;
      while j < |blocks|
        invariant j <= |blocks| && |bss| == |gs| && bss[i] == blocks[..j]
        invariant make.Valid(rs) && rs0 <= rs && Written(rs, gs, bss, mid, uid)
        invariant End(rs) == End(rs0) + LINE * (|rs| - |rs0|)
        invariant forall k :: 0 <= k < i ==> bss[k] == []
        invariant forall k :: i < k < |gs| ==> Splits(bss[k], gs[k].lo, gs[k].hi)
      {
        var b := blocks[j];
        InsideWord(b, g.lo, g.hi);
        Key4Build(key, b.base, b.mask, mid, uid);
        ghost var line := Record(key[..], Pack(g.loc));
        EndOfLine(rs, line);
        var r := make.Add(key[..], Pack(g.loc), rs);
        if r == -1 { return false, rs, bss; }
        WrittenLine(rs, gs, bss, i, b, line, mid, uid);
        rs, bss := rs + [line], bss[i := bss[i] + [b]];
        j := j + 1;
      }
      assert blocks[..j] == blocks;
    }
    WrittenIsIndexed(rs, gs, bss, mid, uid);
    return true, rs, bss;
  }

  lemma {:induction false} InsideWord(b: Block, lo: nat, hi: Word)
    requires Maximal(b, lo, hi)
    ensures b.base < TWO32
  {
  }

  lemma {:induction false} WrittenIsIndexed(rs: seq<Record>, gs: seq<GeoRange>, bss: seq<seq<Block>>, mid: Word,
                                          uid: Word)
    requires Written(rs, gs, bss, mid, uid)
    requires forall i :: 0 <= i < |gs| ==> gs[i].lo <= gs[i].hi && Splits(bss[i], gs[i].lo, gs[i].hi)
    ensures Indexes(rs, gs, bss, mid, uid)
  {
  }

  /** End to end: export the ranges, finish the file, look an address up in it. The answer is the
      location of the range that holds the address, or the default when none does. It fails only
      when the lines written, rs, are too many for a file with 32-bit positions. */
  method ExportAndLookup(hash: Hash, gs: seq<GeoRange>, mid: Word, uid: Word, ip: Word, default: Word)
    returns (ok: bool, loc: Word, ghost rs: seq<Record>)
    requires Disjoint(gs) && forall i :: 0 <= i < |gs| ==> gs[i].lo <= gs[i].hi && !Whole(gs[i])
    ensures ok ==> forall i :: 0 <= i < |gs| && InRange(gs[i], ip) ==> loc == gs[i].loc
    ensures ok && (forall i :: 0 <= i < |gs| ==> !InRange(gs[i], ip)) ==> loc == default
    ensures !ok ==> HEADER + (LINE + 16) * (|rs| + 1) >= TWO32
  {
    hide CdbMake.Valid, Indexes, File, Location, GeoData, RecordsBytes;
    var make := new CdbMake(hash);
    loc := default;
    ghost var bss;
    ok, rs, bss := Export(make, gs, mid, uid, []);
    EndOfNothing();
    if !ok { return; }
    var r := make.Finish(rs);
    if r == -1 { ok := false; return; }
    FileSmall(hash, rs);
    var c := new Cdb(hash, make.file);
    IndexesGiveGeoData(rs, gs, bss, mid, uid);
    r, loc := IpdbGet(c, ip, default, mid, uid, rs);
    forall i | 0 <= i < |gs| && InRange(gs[i], ip) ensures loc == gs[i].loc {
      LocationInside(rs, gs, bss, mid, uid, ip, default, i);
    }
    if forall i :: 0 <= i < |gs| ==> !InRange(gs[i], ip) {
      LocationOutside(rs, gs, bss, mid, uid, ip, default);
    }
  }

  lemma {:induction false} EndOfNothing()
    ensures End([]) == HEADER
  {
  }

  lemma {:induction false} FileSmall(hash: Hash, rs: seq<Record>)
    requires Fits(rs)
    ensures |File(hash, rs)| < TWO32
  {
    FileLength(hash, rs);
  }
}
