/** find of src/tdlookup.c on the bytes of a constant database file. */
module TdFind {
  import opened Basics
  import opened Bytes
  import opened DnsPacket
  import opened CdbSpec
  import opened CdbFile
  import opened CdbReader
  import opened TdRecords

  ghost predicate Holding(f: seq<Byte>, ss: seq<Slice>, vals: seq<seq<Byte>>) {
    |ss| == |vals| && forall i :: 0 <= i < |ss| ==> Reads(f, ss[i], vals[i])
  }

  /** A search for key in the finished file of rs still has vals to come. */
  ghost predicate Cursor(c: Cdb, rs: seq<Record>, key: seq<Byte>, vals: seq<seq<Byte>>)
    reads c
  {
    |c.file| < TWO32 && c.Searching(rs, key) && Holding(c.file, c.Left(rs, key), vals)
  }

  /** The database is the finished file of rs. */
  ghost predicate Loaded(c: Cdb, rs: seq<Record>) {
    c.file == File(c.hash, rs) && Fits(rs) && |c.file| < TWO32
  }

  /** cdb_findstart */
  method Start(c: Cdb, key: seq<Byte>, ghost rs: seq<Record>)
    requires Loaded(c, rs) && |key| < TWO32
    modifies c
    ensures Cursor(c, rs, key, Values(rs, key))
  {
    hide File, Fits, Slices, Values, Reads, Cdb.Probing;
    c.FindStart();
    assert c.Left(rs, key) == Slices(rs, key);
    SlicesHoldValues(c.hash, rs, key, 0);
    forall i | 0 <= i < |Slices(rs, key)| ensures Reads(c.file, Slices(rs, key)[i], Values(rs, key)[i]) {
      SlicesHoldValues(c.hash, rs, key, i);
    }
  }

  /** cdb_findnext, and cdb_read of what it found unless that is too long. */
  method NextValue(c: Cdb, key: seq<Byte>, ghost rs: seq<Record>, ghost vals: seq<seq<Byte>>)
    returns (r: int, raw: seq<Byte>)
    requires Cursor(c, rs, key, vals) && |key| < TWO32
    modifies c
    ensures vals == [] ==> r == 0
    ensures vals != [] ==> Cursor(c, rs, key, vals[1..]) && if |vals[0]| > DATASIZE then r == -1
      else r == 1 && raw == vals[0]
  {
    hide Cdb.Searching, Cdb.Left, Cdb.AtRecord, Reads;
    ghost var left := c.Left(rs, key);
    r := c.FindNext(key, rs);
    raw := [];
    if r <= 0 { return; }
    assert left == [Slice(c.dpos, c.dlen)] + c.Left(rs, key);
    HoldingStep(c.file, left, vals);
    assert left[1..] == c.Left(rs, key);
    ReadsMeans(c.file, left[0], vals[0]);
    if c.dlen > DATASIZE { return -1, []; }
    var ok;
    ok, raw := c.Read(c.dlen, c.dpos);
  }

  /** cdb_find, and cdb_read of the data found. */
  method FirstValue(c: Cdb, key: seq<Byte>, ghost rs: seq<Record>) returns (r: int, raw: seq<Byte>)
    requires Loaded(c, rs) && |key| < TWO32
    modifies c
    ensures Values(rs, key) == [] ==> r == 0
    ensures Values(rs, key) != [] ==> r == 1 && raw == Values(rs, key)[0]
  {
    hide File, Fits, Values;
    r := c.Find(key, rs);
    raw := [];
    if r <= 0 { return; }
    var ok;
    ok, raw := c.Read(c.dlen, c.dpos);
  }

  lemma {:induction false} HoldingStep(f: seq<Byte>, ss: seq<Slice>, vals: seq<seq<Byte>>)
    requires Holding(f, ss, vals) && ss != []
    ensures vals != [] && Reads(f, ss[0], vals[0]) && Holding(f, ss[1..], vals[1..])
  {
    hide Reads;
  }

  lemma {:induction false} ReadsMeans(f: seq<Byte>, s: Slice, data: seq<Byte>)
    requires Reads(f, s, data)
    ensures s.len == |data| && s.pos + s.len <= |f| && f[s.pos..s.pos + s.len] == data
  {
  }

  /** The tests find makes on one stored record: -1 malformed, 0 hidden, 1 visible. */
  method Test(data: seq<Byte>, wild: bool, clientloc: Word, now: nat) returns (r: int, rec: Rec)
    requires |data| <= DATASIZE
    ensures r == match See(data, wild, clientloc, now) case Bad => -1 case Hidden => 0 case Visible(_) => 1
    ensures r == 1 ==> See(data, wild, clientloc, now) == Visible(rec)
  {
    hide UnpackBig32, Unpack;
    rec := Rec([], 0, [], 0);
    var dpos, rtype := PacketCopy(data, 0, 2);
    if dpos == 0 { return -1, rec; }
    var kind;
    dpos, kind := PacketCopy(data, dpos, 1);
    if dpos == 0 { return -1, rec; }
    var ch := kind[0];
    if Located(ch) {
      ch := ch - 1;
      var recordloc;
      dpos, recordloc := PacketCopy(data, dpos, 4);
      if dpos == 0 { return -1, rec; }
      if Unpack(recordloc) != clientloc { return 0, rec; }
    }
    if wild != (ch as int == '*' as int) { return 0, rec; }
    ghost var p := dpos;
    var ttlstr, ttd;
    dpos, ttlstr := PacketCopy(data, dpos, 4);
    if dpos == 0 { return -1, rec; }
    var ttl := UnpackBig32(ttlstr);
    dpos, ttd := PacketCopy(data, dpos, 8);
    if dpos == 0 { return -1, rec; }
    TaiZero(ttd);
    if ttd != [0, 0, 0, 0, 0, 0, 0, 0] {
      var cutoff := Tai(ttd);
      if ttl == 0 {
        if cutoff < now { return 0, rec; }
        cutoff := cutoff - now;
        ttl := if cutoff <= 2 then 2 else if cutoff >= 3600 then 3600 else cutoff;
      } else if !(cutoff < now) {
        return 0, rec;
      }
    }
    return 1, Rec(rtype, ttl, data, dpos);
  }

  lemma {:induction false} TaiZero(s: seq<Byte>)
    requires |s| == 8
    ensures Tai(s) == 0 <==> s == [0, 0, 0, 0, 0, 0, 0, 0]
  {
    if Tai(s) == 0 {
      assert UnpackBig32(s[..4]) == 0 && UnpackBig32(s[4..]) == 0;
      assert s[..4] == [0, 0, 0, 0] && s[4..] == [0, 0, 0, 0];
      assert s == s[..4] + s[4..];
    }
  }

  /** find: the next visible record of the search. */
  method Find(c: Cdb, d: seq<Byte>, wild: bool, clientloc: Word, now: nat, ghost rs: seq<Record>,
              ghost vals: seq<seq<Byte>>)
    returns (r: int, rec: Rec, ghost rest: seq<seq<Byte>>)
    requires Cursor(c, rs, d, vals) && |d| < TWO32
    modifies c
    ensures match First(vals, wild, clientloc, now)
            case End => r == 0
            case Broken => r == -1
            case Next(x, later) => r == 1 && rec == x && rest == later && Cursor(c, rs, d, later)
  {
    hide Cursor, See;
    rest, rec := vals, Rec([], 0, [], 0);
    while true
      invariant Cursor(c, rs, d, rest)
      invariant First(rest, wild, clientloc, now) == First(vals, wild, clientloc, now)
      decreases |rest|
    {
      var data;
      ghost var before := rest;
      r, data := NextValue(c, d, rs, rest);
      if before != [] { TooLong(before[0], wild, clientloc, now); }
      if r <= 0 { return; }
      rest := rest[1..];
      r, rec := Test(data, wild, clientloc, now);
      if r != 0 { return; }
    }
  }

  lemma {:induction false} TooLong(raw: seq<Byte>, wild: bool, loc: Word, now: nat)
    ensures |raw| > DATASIZE ==> See(raw, wild, loc, now) == Bad
  {
  }
}
