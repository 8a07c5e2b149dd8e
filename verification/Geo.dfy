/** Addresses to locations: the keys of src/ipdb.c, the database lines of src/vdnsdb.c that fill
    them, and the lookup over 32 masks in an order that is not longest-first. */
module Geo {
  import opened Bytes
  import opened Cidr
  import opened CdbSpec
  import opened CdbFile
  import opened CdbReader
  import opened DnsName

  // ---------- Keys ----------

  /** The 15-byte key of a block: a tag, the map and the user, the address, the mask length. */
  function GeoKey(ip: Word, mask: Byte, mid: Word, uid: Word): (k: seq<Byte>)
    ensures |k| == 15 && k[0] == 0 && k[1] == '%' as int
  {
    [0, '%' as int] + Pack(mid) + Pack(uid) + PackBig32(ip) + [mask]
  }

  lemma {:induction false} GeoKeyInjective(a: Word, m: Byte, mid: Word, uid: Word, b: Word, n: Byte, mid': Word,
                                          uid': Word)
    requires GeoKey(a, m, mid, uid) == GeoKey(b, n, mid', uid')
    ensures a == b && m == n && mid == mid' && uid == uid'
  {
    hide Pack, PackBig32;
    var k, l := GeoKey(a, m, mid, uid), GeoKey(b, n, mid', uid');
    assert k[2..6] == Pack(mid) && l[2..6] == Pack(mid');
    assert k[6..10] == Pack(uid) && l[6..10] == Pack(uid');
    assert k[10..14] == PackBig32(a) && l[10..14] == PackBig32(b);
    assert k[14] == m && l[14] == n;
    PackInjective(mid, mid');
    PackInjective(uid, uid');
    UnpackPackBig(a);
    UnpackPackBig(b);
  }

  /** The key of a location query: a tag, the query type, the name (rr_addloq in src/vdnsdb.c). */
  function LoqKey(qtype: seq<Byte>, name: seq<Byte>): seq<Byte>
    requires |qtype| == 2
  {
    [0, '?' as int] + qtype + name
  }

  /** The three kinds of keys never meet: a name key starts with a label length or is one zero byte. */
  lemma {:induction false} KeysApart(ip: Word, mask: Byte, mid: Word, uid: Word, qtype: seq<Byte>, name: seq<Byte>,
                                     owner: seq<Byte>)
    requires |qtype| == 2 && IsName(owner)
    ensures GeoKey(ip, mask, mid, uid) != LoqKey(qtype, name)
    ensures GeoKey(ip, mask, mid, uid) != owner && LoqKey(qtype, name) != owner
  {
    assert LoqKey(qtype, name)[1] == '?' as int;
    assert LoqKey(qtype, name)[0] == 0 && |LoqKey(qtype, name)| >= 4;
  }

  /** ipdb_key4build */
  method Key4Build(key: array<Byte>, ipuint: Word, mask: Byte, mid: Word, uid: Word)
    requires key.Length == 15
    modifies key
    ensures key[..] == GeoKey(ipuint, mask, mid, uid)
  {
    key[0], key[1] := 0, '%' as int;
    PutAt(key, 2, Pack(mid));
    PutAt(key, 6, Pack(uid));
    PutAt(key, 10, PackBig32(ipuint));
    key[14] := mask;
    assert key[..] == [key[0], key[1]] + key[2..6] + key[6..10] + key[10..14] + [key[14]];
  }

  method PutAt(key: array<Byte>, o: nat, s: seq<Byte>)
    requires |s| == 4 && o + 4 <= key.Length
    modifies key
    ensures key[o..o + 4] == s
    ensures forall i :: 0 <= i < key.Length && !(o <= i < o + 4) ==> key[i] == old(key[i])
  {
    key[o], key[o + 1], key[o + 2], key[o + 3] := s[0], s[1], s[2], s[3];
  }

  /** A prefix mask and-ed on clears the low bits. */
  lemma {:induction false} AndMask(x: nat, k: nat, n: nat)
    requires k <= n && x < Pow2(n)
    ensures Pow2(k) <= Pow2(n) && And(x, Pow2(n) - Pow2(k), n) == Floor(x, k)
  {
    hide And, Low, Pow2;
    Pow2Monotone(k, n);
    if k == 0 {
      AndOnes(x, n);
      PowFirst();
    } else {
      PowNext(n - 1);
      PowNext(k - 1);
      AndMask(x / 2, k - 1, n - 1);
      AndEven(x, Pow2(n - 1) - Pow2(k - 1), n);
      FloorHalf(x, k);
    }
  }

  lemma {:induction false} PowNext(k: nat)
    ensures Pow2(k + 1) == 2 * Pow2(k)
  {
  }

  lemma {:induction false} PowFirst()
    ensures Pow2(0) == 1 && forall x: nat :: Floor(x, 0) == x
  {
  }

  lemma {:induction false} AndEven(x: nat, y: nat, n: nat)
    requires n > 0
    ensures And(x, 2 * y, n) == 2 * And(x / 2, y, n - 1)
  {
  }

  lemma {:induction false} FloorHalf(x: nat, k: nat)
    requires k > 0
    ensures Floor(x, k) == 2 * Floor(x / 2, k - 1)
  {
  }

  lemma {:induction false} AndOnes(x: nat, n: nat)
    requires x < Pow2(n)
    ensures And(x, Pow2(n) - 1, n) == x
  {
    if n > 0 {
      AndOnes(x / 2, n - 1);
    }
  }

  /** The next bit of a growing prefix mask is clear. */
  lemma {:induction false} MaskBitClear(n: nat, k: nat)
    requires k < n
    ensures Pow2(k + 1) <= Pow2(n) && Bit(Pow2(n) - Pow2(k + 1), k) == 0
  {
    Pow2Monotone(k + 1, n);
    if k > 0 {
      MaskBitClear(n - 1, k - 1);
      assert (Pow2(n) - Pow2(k + 1)) / 2 == Pow2(n - 1) - Pow2(k);
    }
  }

  /** ipdb_key4lookup: builds the network mask bit by bit and looks up the network address. */
  method Key4Lookup(key: array<Byte>, ipuint: Word, mask: Byte, mid: Word, uid: Word)
    requires key.Length == 15 && mask <= 32
    modifies key
    ensures Floor(ipuint, 32 - mask) < TWO32
    ensures key[..] == GeoKey(Floor(ipuint, 32 - mask), mask, mid, uid)
  {
    var netmask: nat := 0;
    Pow2Of32();
    for i := 0 to mask
      invariant netmask == Pow2(32) - Pow2(32 - i)
    {
      MaskBitClear(32, 31 - i);
      SetBitValue(netmask, 31 - i);
      netmask := SetBit(netmask, 31 - i);
    }
    AndMask(ipuint, 32 - mask, 32);
    Key4Build(key, And(ipuint, netmask, 32), mask, mid, uid);
  }

  // ---------- The lookup ----------

  /** The order in which the masks are tried. */
  const MASKS: seq<Mask> := [24, 28, 29, 27, 32, 23, 26, 30, 25, 22, 19, 21, 20, 16, 18, 31, 17,
                             15, 14, 13, 12, 11, 10, 9, 8, 7, 6, 5, 4, 3, 2, 1]

  /** Every mask but the empty one is tried. */
  lemma {:induction false} MasksComplete(m: Mask)
    requires m > 0
    ensures exists i :: 0 <= i < |MASKS| && MASKS[i] == m
  {
    assert MASKS[0] == 24 && MASKS[1] == 28 && MASKS[2] == 29 && MASKS[3] == 27 && MASKS[4] == 32
      && MASKS[5] == 23 && MASKS[6] == 26 && MASKS[7] == 30 && MASKS[8] == 25 && MASKS[9] == 22
      && MASKS[10] == 19 && MASKS[11] == 21 && MASKS[12] == 20 && MASKS[13] == 16 && MASKS[14] == 18
      && MASKS[15] == 31 && MASKS[16] == 17;
    if m < 16 {
      assert MASKS[32 - m] == m;
    }
  }

  function LookupKey(ip: Word, m: Mask, mid: Word, uid: Word): seq<Byte> {
    GeoKey(Floor(ip, 32 - m), m, mid, uid)
  }

  /** The location of the first mask, from the i-th on, whose block is in the database. */
  function LocationFrom(rs: seq<Record>, ip: Word, mid: Word, uid: Word, i: nat, default: Word): Word
    requires i <= |MASKS|
    decreases |MASKS| - i
  {
    if i == |MASKS| then default
    else
      var found := Values(rs, LookupKey(ip, MASKS[i], mid, uid));
      if found != [] then LocationOf(found[0]) else LocationFrom(rs, ip, mid, uid, i + 1, default)
  }

  /** Database lines for blocks carry a packed location. */
  function LocationOf(data: seq<Byte>): Word {
    if |data| == 4 then Unpack(data) else 0
  }

  function Location(rs: seq<Record>, ip: Word, mid: Word, uid: Word, default: Word): Word {
    LocationFrom(rs, ip, mid, uid, 0, default)
  }

  /** Block lines are as src/vdnsdb.c writes them: four bytes of data. */
  ghost predicate GeoData(rs: seq<Record>, mid: Word, uid: Word) {
    forall k, ip, m: Byte {:trigger GeoKey(ip, m, mid, uid), rs[k]} ::
      0 <= k < |rs| && rs[k].key == GeoKey(ip, m, mid, uid) ==> |rs[k].data| == 4
  }

  lemma {:induction false} ValuesAre(rs: seq<Record>, key: seq<Byte>)
    ensures Values(rs, key) != [] ==>
      exists k :: 0 <= k < |rs| && rs[k].key == key && rs[k].data == Values(rs, key)[0]
    ensures forall k :: 0 <= k < |rs| && rs[k].key == key ==> Values(rs, key) != []
  {
    if rs != [] {
      var init := rs[..|rs| - 1];
      ValuesAre(init, key);
      if Values(init, key) != [] {
        var k :| 0 <= k < |init| && init[k].key == key && init[k].data == Values(init, key)[0];
        assert rs[k] == init[k];
      }
      forall k | 0 <= k < |rs| && rs[k].key == key ensures Values(rs, key) != [] {
        if k < |init| {
          assert init[k].key == key;
        }
      }
    }
  }

  /** One IPDB_TRYLOOKUP: -1 on a broken file, 0 when the block is not there. */
  method TryLookup(c: Cdb, key: array<Byte>, ip: Word, m: Mask, mid: Word, uid: Word, ghost rs: seq<Record>)
    returns (r: int, clientloc: Word)
    requires |c.file| < TWO32 && key.Length == 15
    modifies c, key
    ensures r == -1 || r == 0 || r == 1
    ensures c.file == File(c.hash, rs) && Fits(rs) && GeoData(rs, mid, uid) ==>
      var found := Values(rs, LookupKey(ip, m, mid, uid));
      if found == [] then r == 0 else r == 1 && clientloc == LocationOf(found[0])
  {
    hide File, Values, GeoKey, Fits, Floor, Pack, Unpack, GeoData;
    clientloc := 0;
    Key4Lookup(key, ip, m, mid, uid);
    assert key[..] == LookupKey(ip, m, mid, uid);
    r := c.Find(key[..], rs);
    if GeoData(rs, mid, uid) { GeoValue(rs, Floor(ip, 32 - m), m, mid, uid); }
    if r == 1 {
      var ok, cc := c.Read(4, c.dpos);
      if !ok { return -1, 0; }
      clientloc := Unpack(cc);
    }
  }

  lemma {:induction false} GeoValue(rs: seq<Record>, ip: Word, m: Byte, mid: Word, uid: Word)
    requires GeoData(rs, mid, uid)
    ensures Values(rs, GeoKey(ip, m, mid, uid)) != [] ==> |Values(rs, GeoKey(ip, m, mid, uid))[0]| == 4
  {
    hide Values, GeoKey;
    ValuesAre(rs, GeoKey(ip, m, mid, uid));
  }

  /** ipdb_get: 0 on a broken file, else 1 with the location, which stays the default when
      no mask matches. */
  method IpdbGet(c: Cdb, ip: Word, default: Word, mid: Word, uid: Word, ghost rs: seq<Record>)
    returns (r: int, clientloc: Word)
    requires |c.file| < TWO32
    modifies c
    ensures r == 0 || r == 1
    ensures c.file == File(c.hash, rs) && Fits(rs) && GeoData(rs, mid, uid) ==>
      r == 1 && clientloc == Location(rs, ip, mid, uid, default)
  {
    hide File, Values, Fits, LookupKey, LocationOf, GeoData;
    ghost var good := c.file == File(c.hash, rs) && Fits(rs) && GeoData(rs, mid, uid);
    var key := new Byte[15](_ => 0);
    var i := 0;
    while i < |MASKS|
      invariant i <= |MASKS|
      invariant good ==> Location(rs, ip, mid, uid, default) == LocationFrom(rs, ip, mid, uid, i, default)
    {
      var found;
      found, clientloc := TryLookup(c, key, ip, MASKS[i], mid, uid, rs);
      if found == -1 { return 0, default; }
      if found == 1 { return 1, clientloc; }
      i := i + 1;
    }
    return 1, default;
  }

  // ---------- From ranges to locations ----------

  /** One configured range of a map: its ends and the hash of the location's name. */
  datatype GeoRange = GeoRange(lo: Word, hi: Word, loc: Word)

  predicate InRange(g: GeoRange, ip: Word) {
    g.lo <= ip <= g.hi
  }

  ghost predicate Disjoint(gs: seq<GeoRange>) {
    forall i, j :: 0 <= i < j < |gs| ==> gs[i].hi < gs[j].lo || gs[j].hi < gs[i].lo
  }

  predicate Whole(g: GeoRange) {
    g.lo == 0 && g.hi == TWO32 - 1
  }

  /** The line of one block. */
  predicate IsLine(r: Record, b: Block, loc: Word, mid: Word, uid: Word) {
    b.base < TWO32 && r == Record(GeoKey(b.base, b.mask, mid, uid), Pack(loc))
  }

  /** The lines of one (map, user) in the database are those of the splits of its ranges. Other
      records, such as name records or lines of other maps, may stand anywhere between them. */
  ghost predicate Indexes(rs: seq<Record>, gs: seq<GeoRange>, bss: seq<seq<Block>>, mid: Word, uid: Word) {
    && |bss| == |gs|
    && (forall i :: 0 <= i < |gs| ==> gs[i].lo <= gs[i].hi && Splits(bss[i], gs[i].lo, gs[i].hi))
    && (forall k, ip, m: Byte {:trigger GeoKey(ip, m, mid, uid), rs[k]} ::
          0 <= k < |rs| && rs[k].key == GeoKey(ip, m, mid, uid) ==> FromRange(rs[k], gs, bss, mid, uid))
    && (forall i, j :: 0 <= i < |bss| && 0 <= j < |bss[i]| ==> HasLine(rs, bss[i][j], gs[i].loc, mid, uid))
  }

  ghost predicate FromRange(r: Record, gs: seq<GeoRange>, bss: seq<seq<Block>>, mid: Word, uid: Word)
    requires |bss| == |gs|
  {
    exists i, j :: 0 <= i < |gs| && 0 <= j < |bss[i]| && IsLine(r, bss[i][j], gs[i].loc, mid, uid)
  }

  ghost predicate HasLine(rs: seq<Record>, b: Block, loc: Word, mid: Word, uid: Word) {
    exists k :: 0 <= k < |rs| && IsLine(rs[k], b, loc, mid, uid)
  }

  lemma {:induction false} IndexesGiveGeoData(rs: seq<Record>, gs: seq<GeoRange>, bss: seq<seq<Block>>, mid: Word,
                                          uid: Word)
    requires Indexes(rs, gs, bss, mid, uid)
    ensures GeoData(rs, mid, uid)
  {
    hide GeoKey, Splits;
  }

  /** Whatever a lookup key matches is a line of the range that holds the address. */
  lemma {:induction false} MatchIsOwnRange(rs: seq<Record>, gs: seq<GeoRange>, bss: seq<seq<Block>>, mid: Word,
                                          uid: Word, ip: Word, m: Mask)
    requires Indexes(rs, gs, bss, mid, uid) && Values(rs, LookupKey(ip, m, mid, uid)) != []
    ensures exists i ::
      0 <= i < |gs| && InRange(gs[i], ip) && LocationOf(Values(rs, LookupKey(ip, m, mid, uid))[0]) == gs[i].loc
  {
    hide Values, GeoKey, Low, Tiles;
    var key := LookupKey(ip, m, mid, uid);
    ValuesAre(rs, key);
    var k :| 0 <= k < |rs| && rs[k].key == key && rs[k].data == Values(rs, key)[0];
    assert FromRange(rs[k], gs, bss, mid, uid) by {
      assert rs[k].key == GeoKey(Floor(ip, 32 - m), m, mid, uid);
    }
    var i, j :| 0 <= i < |gs| && 0 <= j < |bss[i]| && IsLine(rs[k], bss[i][j], gs[i].loc, mid, uid);
    var b := bss[i][j];
    GeoKeyInjective(Floor(ip, 32 - m), m, mid, uid, b.base, b.mask, mid, uid);
    TilesCover(gs[i].lo, gs[i].hi + 1, gs[i].lo, gs[i].hi, bss[i], ip);
    ContainsFloor(b, ip);
    UnpackPack(gs[i].loc);
  }

  /** In a range that is not the whole address space, the block of an address is a line with a mask
      that is tried. */
  lemma {:induction false} OwnBlockMatches(rs: seq<Record>, gs: seq<GeoRange>, bss: seq<seq<Block>>, mid: Word,
                                          uid: Word, ip: Word, i: nat)
    returns (t: nat)
    requires Indexes(rs, gs, bss, mid, uid) && i < |gs| && InRange(gs[i], ip) && !Whole(gs[i])
    ensures t < |MASKS| && Values(rs, LookupKey(ip, MASKS[t], mid, uid)) != []
  {
    hide Values, GeoKey, Low, Floor, Tiles, Pow2;
    var g := gs[i];
    TilesCover(g.lo, g.hi + 1, g.lo, g.hi, bss[i], ip);
    var j :| 0 <= j < |bss[i]| && Contains(bss[i][j], ip);
    var b := bss[i][j];
    Pow2Of32();
    MasksComplete(b.mask);
    t :| 0 <= t < |MASKS| && MASKS[t] == b.mask;
    assert HasLine(rs, b, g.loc, mid, uid);
    LineMatches(rs, b, g.loc, mid, uid, ip);
  }

  lemma {:induction false} LineMatches(rs: seq<Record>, b: Block, loc: Word, mid: Word, uid: Word, ip: Word)
    requires Aligned(b) && Contains(b, ip) && HasLine(rs, b, loc, mid, uid)
    ensures Values(rs, LookupKey(ip, b.mask, mid, uid)) != []
  {
    hide Values, GeoKey, Pack;
    ContainsFloor(b, ip);
    ValuesAre(rs, LookupKey(ip, b.mask, mid, uid));
  }

  lemma {:induction false} LocationFromOwn(rs: seq<Record>, gs: seq<GeoRange>, bss: seq<seq<Block>>, mid: Word,
                                          uid: Word,
                                           ip: Word, default: Word, k: nat, t: nat, loc: Word)
    requires Indexes(rs, gs, bss, mid, uid) && k <= t < |MASKS|
    requires Values(rs, LookupKey(ip, MASKS[t], mid, uid)) != []
    requires forall i :: 0 <= i < |gs| && InRange(gs[i], ip) ==> gs[i].loc == loc
    ensures LocationFrom(rs, ip, mid, uid, k, default) == loc
    decreases t - k
  {
    hide Values, LookupKey, Indexes, LocationOf;
    if Values(rs, LookupKey(ip, MASKS[k], mid, uid)) != [] {
      MatchIsOwnRange(rs, gs, bss, mid, uid, ip, MASKS[k]);
    } else {
      LocationFromOwn(rs, gs, bss, mid, uid, ip, default, k + 1, t, loc);
    }
  }

  /** An address inside a range gets the location of that range, although the masks are not tried
      from the longest to the shortest. */
  lemma {:induction false} LocationInside(rs: seq<Record>, gs: seq<GeoRange>, bss: seq<seq<Block>>, mid: Word,
                                          uid: Word,
                                          ip: Word, default: Word, i: nat)
    requires Indexes(rs, gs, bss, mid, uid) && Disjoint(gs) && i < |gs| && InRange(gs[i], ip) && !Whole(gs[i])
    ensures Location(rs, ip, mid, uid, default) == gs[i].loc
  {
    hide Values, LookupKey, Indexes;
    var t := OwnBlockMatches(rs, gs, bss, mid, uid, ip, i);
    LocationFromOwn(rs, gs, bss, mid, uid, ip, default, 0, t, gs[i].loc);
  }

  lemma {:induction false} LocationFromNone(rs: seq<Record>, gs: seq<GeoRange>, bss: seq<seq<Block>>, mid: Word,
                                          uid: Word,
                                          ip: Word, default: Word, k: nat)
    requires Indexes(rs, gs, bss, mid, uid) && k <= |MASKS|
    requires forall t :: 0 <= t < |MASKS| ==> Values(rs, LookupKey(ip, MASKS[t], mid, uid)) == []
    ensures LocationFrom(rs, ip, mid, uid, k, default) == default
    decreases |MASKS| - k
  {
    hide Values, LookupKey, Indexes, LocationOf;
    if k < |MASKS| {
      LocationFromNone(rs, gs, bss, mid, uid, ip, default, k + 1);
    }
  }

  /** An address in no range keeps the default. */
  lemma {:induction false} LocationOutside(rs: seq<Record>, gs: seq<GeoRange>, bss: seq<seq<Block>>, mid: Word,
                                          uid: Word,
                                           ip: Word, default: Word)
    requires Indexes(rs, gs, bss, mid, uid) && forall i :: 0 <= i < |gs| ==> !InRange(gs[i], ip)
    ensures Location(rs, ip, mid, uid, default) == default
  {
    hide Values, LookupKey, Indexes;
    forall t | 0 <= t < |MASKS| ensures Values(rs, LookupKey(ip, MASKS[t], mid, uid)) == [] {
      if Values(rs, LookupKey(ip, MASKS[t], mid, uid)) != [] {
        MatchIsOwnRange(rs, gs, bss, mid, uid, ip, MASKS[t]);
      }
    }
    LocationFromNone(rs, gs, bss, mid, uid, ip, default, 0);
  }

  /** The one split of the whole address space is the block with the empty mask. */
  lemma {:induction false} WholeSplit(g: GeoRange, bs: seq<Block>)
    requires Whole(g) && Splits(bs, g.lo, g.hi)
    ensures bs == [Block(0, 0)]
  {
    var b := Block(0, 0);
    Pow2Of32();
    LowOfZero(32);
    assert [b][1..] == [];
    TilesUnique(0, TWO32, 0, TWO32 - 1, bs, [b]);
  }

  lemma {:induction false} LowOfZero(k: nat)
    ensures Low(0, k) == 0
  {
    if k > 0 {
      LowOfZero(k - 1);
    }
  }

  /** Beside a range that is everything there is no line for a mask that is asked for. */
  lemma {:induction false} WholeAlone(rs: seq<Record>, gs: seq<GeoRange>, bss: seq<seq<Block>>, mid: Word, uid: Word,
                                      ip: Word, m: Mask, i: nat, k: nat)
    requires Indexes(rs, gs, bss, mid, uid) && Disjoint(gs) && i < |gs| && Whole(gs[i]) && m > 0 && k < |rs|
    ensures rs[k].key != LookupKey(ip, m, mid, uid)
  {
    hide Values, Low, Tiles, GeoKey, Location;
    if rs[k].key == LookupKey(ip, m, mid, uid) {
      assert rs[k].key == GeoKey(Floor(ip, 32 - m), m, mid, uid);
      assert FromRange(rs[k], gs, bss, mid, uid);
      var i', j :| 0 <= i' < |gs| && 0 <= j < |bss[i']| && IsLine(rs[k], bss[i'][j], gs[i'].loc, mid, uid);
      var b := bss[i'][j];
      GeoKeyInjective(Floor(ip, 32 - m), m, mid, uid, b.base, b.mask, mid, uid);
      WholeSplit(gs[i], bss[i]);
      assert false;
    }
  }

  /** A range that is the whole address space is never found: its only mask is not tried. */
  lemma {:induction false} LocationWhole(rs: seq<Record>, gs: seq<GeoRange>, bss: seq<seq<Block>>, mid: Word, uid: Word,
                                         ip: Word, default: Word, i: nat)
    requires Indexes(rs, gs, bss, mid, uid) && Disjoint(gs) && i < |gs| && Whole(gs[i])
    ensures Location(rs, ip, mid, uid, default) == default
  {
    hide Values, Low, Tiles, GeoKey, Location;
    forall t | 0 <= t < |MASKS| ensures Values(rs, LookupKey(ip, MASKS[t], mid, uid)) == [] {
      var m := MASKS[t];
      MaskPositive(t);
      var key := LookupKey(ip, m, mid, uid);
      if Values(rs, key) != [] {
        ValuesAre(rs, key);
        var k :| 0 <= k < |rs| && rs[k].key == key;
        WholeAlone(rs, gs, bss, mid, uid, ip, m, i, k);
      }
    }
    LocationFromNone(rs, gs, bss, mid, uid, ip, default, 0);
    assert Location(rs, ip, mid, uid, default) == default by {
      LocationIsFrom(rs, ip, mid, uid, default);
    }
  }

  lemma {:induction false} LocationIsFrom(rs: seq<Record>, ip: Word, mid: Word, uid: Word, default: Word)
    ensures Location(rs, ip, mid, uid, default) == LocationFrom(rs, ip, mid, uid, 0, default)
  {
  }

  lemma {:induction false} MaskPositive(t: nat)
    requires t < |MASKS|
    ensures MASKS[t] > 0
  {
  }

  /** Exactly when the lookup answers with the range's own location. */
  lemma {:induction false} LocationInsideIff(rs: seq<Record>, gs: seq<GeoRange>, bss: seq<seq<Block>>, mid: Word,
                                          uid: Word,
                                             ip: Word, default: Word, i: nat)
    requires Indexes(rs, gs, bss, mid, uid) && Disjoint(gs) && i < |gs| && InRange(gs[i], ip) && default != gs[i].loc
    ensures Location(rs, ip, mid, uid, default) == gs[i].loc <==> !Whole(gs[i])
  {
    hide Indexes, Location, Disjoint;
    if Whole(gs[i]) {
      LocationWhole(rs, gs, bss, mid, uid, ip, default, i);
    } else {
      LocationInside(rs, gs, bss, mid, uid, ip, default, i);
    }
  }
}
