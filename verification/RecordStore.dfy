/** The record encoder of src/vdnsdb.c: what rr_start, rr_add and rr_finish store, and that find and doit
    of src/tdlookup.c, which share no code with them, read the same record back. */
module RecordStore {
  import opened Basics
  import opened Bytes
  import opened DnsName
  import opened DnsPacket
  import opened DnsCompress
  import opened RecordData
  import opened CdbSpec
  import opened CdbFile
  import opened CdbWriter
  import opened Geo
  import opened TdRecords

  /** NOMATCH_HASH: the location of clients that no range holds. */
  const NOMATCH: Word := 1219579562
  const PLAIN: Byte := '=' as int
  /** From a plain mark to a wildcard mark, with or without a location. */
  const WILDSTEP: nat := 19

  // ---------- What is stored ----------

  /** The fields in front of the record data. Location 0 stands for every client. */
  function Head(rtype: seq<Byte>, ttl: Word, ttd: seq<Byte>, loc: Word, wild: bool): (s: seq<Byte>)
    requires |rtype| == 2 && |ttd| == 8
    ensures |s| == if loc == 0 then 15 else 19
  {
    var mark := if wild then PLAIN - WILDSTEP else PLAIN;
    rtype + (if loc == 0 then [mark] else [mark + 1] + Pack(loc)) + PackBig32(ttl) + ttd
  }

  /** An owner whose first label is a single asterisk stands for a wildcard under the rest. */
  predicate IsWild(owner: seq<Byte>) {
    |owner| >= 2 && owner[0] == 1 && owner[1] == '*' as int
  }

  function Owner(owner: seq<Byte>): (w: seq<Byte>)
    requires IsName(owner)
    ensures IsName(w)
  {
    if IsWild(owner) then owner[2..] else owner
  }

  /** The buffers key and result, in front of the database being written. */
  class Builder {
    const make: CdbMake
    var key: seq<Byte>
    var result: seq<Byte>

    constructor (make: CdbMake)
      ensures this.make == make && key == [] && result == []
    {
      this.make := make;
      key, result := [], [];
    }

    /** rr_start; the time to live is cut to 32 bits. */
    method RrStart(rtype: seq<Byte>, ttl: nat, ttd: seq<Byte>, loc: Word)
      requires |rtype| == 2 && |ttd| == 8
      modifies this`result
      ensures result == Head(rtype, ttl % TWO32, ttd, loc, false)
    {
      result := rtype;
      if loc == 0 {
        result := result + [PLAIN];
      } else {
        result := result + [PLAIN + 1];
        result := result + Pack(loc);
      }
      result := result + PackBig32(ttl % TWO32);
      result := result + ttd;
    }

    /** rr_add, and rr_addname for a whole name */
    method RrAdd(buf: seq<Byte>)
      modifies this`result
      ensures result == old(result) + buf
    {
      result := result + buf;
    }

    /** rr_finish: fails exactly when the database would outgrow 32-bit positions. */
    method RrFinish(owner: seq<Byte>, ghost rtype: seq<Byte>, ghost ttl: Word, ghost ttd: seq<Byte>, ghost loc: Word,
                    ghost data: seq<Byte>, ghost rs: seq<Record>)
      returns (ok: bool)
      requires make.Valid(rs) && IsName(owner) && |owner| <= MAXNAME && |rtype| == 2 && |ttd| == 8
      requires result == Head(rtype, ttl, ttd, loc, false) + data && |result| < TWO32
      modifies this`key, this`result, make`out, make`head, make`numentries, make`pos
      ensures var r := Record(Lower(Owner(owner)), Head(rtype, ttl, ttd, loc, IsWild(owner)) + data);
        && (ok <==> CdbSpec.End(rs + [r]) < TWO32)
        && (ok ==> make.Valid(rs + [r]) && key == r.key && result == r.data)
    {
      hide IsName;
      var d := owner;
      HeadMark(rtype, ttl, ttd, loc, data);
      if IsWild(owner) {
        d := owner[2..];
        result := result[2 := result[2] - WILDSTEP];
      }
      key := Lower(d);
      var r := make.Add(key, result, rs);
      ok := r != -1;
    }

    /** What a line stores: rr_start, its data piece by piece, and rr_finish. */
    method Store(owner: seq<Byte>, rtype: seq<Byte>, ttl: nat, ttd: seq<Byte>, loc: Word, g: Given,
                 ghost rs: seq<Record>) returns (ok: bool)
      requires make.Valid(rs) && IsName(owner) && |owner| <= MAXNAME && |rtype| == 2 && |ttd| == 8
      requires Fitting(rtype, g) && 19 + |DataOf(g)| < TWO32
      modifies this`key, this`result, make`out, make`head, make`numentries, make`pos
      ensures var r := Record(Lower(Owner(owner)), Head(rtype, ttl % TWO32, ttd, loc, IsWild(owner)) + DataOf(g));
        (ok <==> CdbSpec.End(rs + [r]) < TWO32) && (ok ==> make.Valid(rs + [r]))
    {
      hide IsName, Lower, IsWild, Owner, Pack, PackBig32, CdbSpec.End, Head, CdbMake.Valid;
      RrStart(rtype, ttl, ttd, loc);
      match g {
        case OneName(d) =>
          RrAdd(d);
        case Preferred(pref, d) =>
          RrAdd(pref);
          RrAdd(d);
        case Start(d, e, soa) =>
          RrAdd(d);
          RrAdd(e);
          RrAdd(soa);
        case Plainly(s) =>
          RrAdd(s);
      }
      assert result == Head(rtype, ttl % TWO32, ttd, loc, false) + DataOf(g);
      ok := RrFinish(owner, rtype, ttl % TWO32, ttd, loc, DataOf(g), rs);
    }

    /** rr_addloq: only a record for clients without a location adds the question to ask. Whether it still
        fits is not looked at. */
    method RrAddLoq(rtype: seq<Byte>, d: seq<Byte>, loc: Word, mid: Word, uid: Word, ghost rs: seq<Record>)
      requires make.Valid(rs) && |rtype| == 2 && IsName(d) && |d| <= MAXNAME
      modifies this`key, make`out, make`head, make`numentries, make`pos
      ensures loc != NOMATCH ==> make.Valid(rs)
      ensures loc == NOMATCH ==>
        var r := Record(LoqKey(rtype, d), Pack(mid) + Pack(uid)); CdbSpec.End(rs + [r]) < TWO32 ==> make.Valid(rs + [r])
    {
      if loc != NOMATCH { return; }
      key := [0, '?' as int];
      key := key + rtype;
      key := key + d;
      assert key == LoqKey(rtype, d);
      var r := make.Add(key, Pack(mid) + Pack(uid), rs);
    }
  }

  /** The mark that rr_finish changes in place. */
  lemma {:induction false} HeadMark(rtype: seq<Byte>, ttl: Word, ttd: seq<Byte>, loc: Word, data: seq<Byte>)
    requires |rtype| == 2 && |ttd| == 8
    ensures var s := Head(rtype, ttl, ttd, loc, false) + data;
      s[2] >= WILDSTEP && s[2 := s[2] - WILDSTEP] == Head(rtype, ttl, ttd, loc, true) + data
  {
    hide Pack, PackBig32;
  }

  // ---------- What find makes of it ----------

  /** The fields by place. */
  lemma {:induction false} HeadFields(rtype: seq<Byte>, ttl: Word, ttd: seq<Byte>, loc: Word, wild: bool,
                                      data: seq<Byte>)
    requires |rtype| == 2 && |ttd| == 8
    ensures var raw := Head(rtype, ttl, ttd, loc, wild) + data; var p := if loc == 0 then 3 else 7;
      && |raw| == p + 12 + |data| && raw[..2] == rtype
      && raw[2] == (if wild then PLAIN - WILDSTEP else PLAIN) + (if loc == 0 then 0 else 1)
      && (loc != 0 ==> raw[3..7] == Pack(loc))
      && raw[p..p + 4] == PackBig32(ttl) && raw[p + 4..p + 12] == ttd && raw[p + 12..] == data
  {
    hide Pack, PackBig32;
  }

  /** find sees a stored record exactly if it is for this client, of the kind looked for and timely, and
      then reads the type, the time to live and the data that were stored. A record that is too long for
      its buffer ends the search. */
  lemma {:induction false} StoredSeen(rtype: seq<Byte>, ttl: Word, ttd: seq<Byte>, loc: Word, wild: bool,
                                      data: seq<Byte>,
                                      flagwild: bool, clientloc: Word, now: nat)
    requires |rtype| == 2 && |ttd| == 8
    ensures var raw := Head(rtype, ttl, ttd, loc, wild) + data; var p := if loc == 0 then 15 else 19;
      && p + |data| == |raw| && raw[p..] == data
      && See(raw, flagwild, clientloc, now) ==
        if |raw| > DATASIZE then Bad
        else if (loc != 0 && loc != clientloc) || wild != flagwild || !Timely(ttl, Tai(ttd), now) then Hidden
        else Visible(Rec(rtype, Remaining(ttl, Tai(ttd), now), raw, p))
  {
    HeadFields(rtype, ttl, ttd, loc, wild, data);
    UnpackPack(loc);
    UnpackPackBig(ttl);
    hide Head, Pack, PackBig32, Unpack, UnpackBig32, Tai, Timely, Remaining;
  }

  // ---------- What doit writes of it ----------

  /** Reading a length byte that is no pointer. */
  lemma {:induction false} GetLength(buf: seq<Byte>, pos: nat, loop: nat, name: seq<Byte>)
    requires pos < |buf| && buf[pos] < 64 && loop + 1 < LIMIT && |name| < MAXNAME
    ensures Get(buf, pos, loop, 0, 0, name) ==
      if buf[pos] == 0 then Some(Read(name + [0], pos + 1))
        else Get(buf, pos + 1, loop + 1, buf[pos], 0, name + [buf[pos]])
  {
  }

  lemma {:induction false} NameHead(w: seq<Byte>)
    requires IsName(w)
    ensures w != [] && w[0] < 64 && if w[0] == 0 then w == [0] else 1 + w[0] < |w| && IsName(w[1 + w[0]..])
  {
  }

  /** A label and the rest of a name, as they stand in a buffer. */
  lemma {:induction false} LabelStands(buf: seq<Byte>, pos: nat, w: seq<Byte>, lab: seq<Byte>, rest: seq<Byte>)
    requires w == [|lab|] + lab + rest && pos + |w| <= |buf| && buf[pos..pos + |w|] == w
    ensures buf[pos] == |lab| && buf[pos + 1..pos + 1 + |lab|] == lab
    ensures |w| == 1 + |lab| + |rest| && buf[pos + 1 + |lab|..pos + 1 + |lab| + |rest|] == rest
  {
    Subslice(buf, pos, |w|, 1, 1 + |lab|);
    Subslice(buf, pos, |w|, 1 + |lab|, |w|);
    assert w[1..1 + |lab|] == lab && w[1 + |lab|..] == rest && buf[pos] == w[0];
  }

  lemma {:induction false} Joined(name: seq<Byte>, n: Byte, lab: seq<Byte>, rest: seq<Byte>)
    ensures name + [n] + lab + rest == name + ([n] + lab + rest)
  {
  }

  /** Reading a name that is spelled out whole. */
  lemma {:induction false} GetPlain(buf: seq<Byte>, pos: nat, w: seq<Byte>, loop: nat, name: seq<Byte>)
    requires IsName(w) && pos + |w| <= |buf| && buf[pos..pos + |w|] == w
    requires |name| + |w| <= MAXNAME && loop + |w| < LIMIT
    ensures Get(buf, pos, loop, 0, 0, name) == Some(Read(name + w, pos + |w|))
    decreases |w|
  {
    hide Get, IsName;
    NameHead(w);
    if w[0] == 0 {
      LabelStands(buf, pos, w, [], []);
      GetLength(buf, pos, loop, name);
    } else {
      var n, lab, rest := w[0], w[1..1 + w[0]], w[1 + w[0]..];
      assert w == [n] + lab + rest;
      LabelStands(buf, pos, w, lab, rest);
      GetLength(buf, pos, loop, name);
      GetLabel(buf, pos + 1, loop + 1, n, 0, name + [n]);
      GetPlain(buf, pos + 1 + n, rest, loop + 1 + n, name + [n] + lab);
      Joined(name, n, lab, rest);
    }
  }

  lemma {:induction false} NameStored(raw: seq<Byte>, p: nat, d: seq<Byte>)
    requires IsName(d) && |d| <= MAXNAME && p + |d| <= |raw| && raw[p..p + |d|] == d
    ensures NameAt(raw, p) == Some((Name(Lower(d)), p + |d|))
  {
    hide Get, IsName, Lower;
    GetPlain(raw, p, d, 0, []);
    assert [] + d == d;
  }

  /** The data the lines of the configuration give a record: a name, two bytes and a name, two names and
      twenty bytes, or plain bytes. */
  datatype Given = OneName(d: seq<Byte>) | Preferred(pref: seq<Byte>, d: seq<Byte>)
      | Start(d: seq<Byte>, e: seq<Byte>, soa: seq<Byte>)
                 | Plainly(s: seq<Byte>)

  predicate Proper(d: seq<Byte>) {
    IsName(d) && |d| <= MAXNAME
  }

  /** The data is of the shape its type calls for. */
  predicate Fitting(rtype: seq<Byte>, g: Given) {
    match g
    case OneName(d) => Proper(d) && (rtype == NS || rtype == CNAME || rtype == PTR)
    case Preferred(pref, d) => Proper(d) && |pref| == 2 && rtype == MX
    case Start(d, e, soa) => Proper(d) && Proper(e) && |soa| == 20 && rtype == SOA
    case Plainly(s) => rtype != NS && rtype != CNAME && rtype != PTR && rtype != MX && rtype != SOA
  }

  function DataOf(g: Given): seq<Byte> {
    match g
    case OneName(d) => d
    case Preferred(pref, d) => pref + d
    case Start(d, e, soa) => d + e + soa
    case Plainly(s) => s
  }

  /** What a response is to say of it; names are told apart up to case only. */
  function PiecesOf(g: Given): seq<Piece> {
    match g
    case OneName(d) => [Name(Lower(d))]
    case Preferred(pref, d) => [Raw(pref), Name(Lower(d))]
    case Start(d, e, soa) => [Name(Lower(d)), Name(Lower(e)), Raw(soa)]
    case Plainly(s) => [Raw(s)]
  }

  /** The round trip of record data: what doit writes of a stored record is what was given. */
  lemma {:induction false} StoredRendered(rec: Rec, g: Given)
    requires Fitting(rec.rtype, g) && rec.dpos <= |rec.raw| && rec.raw[rec.dpos..] == DataOf(g)
    ensures Render(rec) == Some(PiecesOf(g))
  {
    var raw, p, data := rec.raw, rec.dpos, DataOf(g);
    hide IsName, GetName, Lower;
    match g {
      case OneName(d) => PartOf(raw, p, [], d, []);
      case Preferred(pref, d) =>
        PartOf(raw, p, [], pref, d);
        PartOf(raw, p, pref, d, []);
      case Start(d, e, soa) =>
        assert d + e + soa == d + (e + soa);
        PartOf(raw, p, [], d, e + soa);
        PartOf(raw, p, d, e, soa);
        PartOf(raw, p, d + e, soa, []);
      case Plainly(s) =>
    }
    match g {
      case OneName(d) => NameStored(raw, p, d);
      case Preferred(pref, d) => NameStored(raw, p + 2, d);
      case Start(d, e, soa) =>
        NameStored(raw, p, d);
        NameStored(raw, p + |d|, e);
      case Plainly(s) =>
    }
  }

  lemma {:induction false} PartOf(raw: seq<Byte>, p: nat, a: seq<Byte>, b: seq<Byte>, c: seq<Byte>)
    requires p <= |raw| && raw[p..] == a + b + c
    ensures p + |a| + |b| <= |raw| && raw[p + |a|..p + |a| + |b|] == b
  {
    assert (a + b + c)[|a|..|a| + |b|] == b;
    assert raw[p + |a|..p + |a| + |b|] == raw[p..][|a|..|a| + |b|];
  }

  // ---------- One more record in the database ----------

  lemma {:induction false} ValuesMore(rs: seq<Record>, r: Record, key: seq<Byte>)
    ensures Values(rs + [r], key) == Values(rs, key) + if r.key == key then [r.data] else []
  {
    assert (rs + [r])[..|rs|] == rs;
  }

  lemma {:induction false} AllFirst(vals: seq<seq<Byte>>, wild: bool, loc: Word, now: nat)
    requires vals != []
    ensures All(vals, wild, loc, now) ==
      match (See(vals[0], wild, loc, now), All(vals[1..], wild, loc, now))
      case (Bad, _) => None
      case (_, None) => None
      case (Hidden, Some(recs)) => Some(recs)
      case (Visible(rec), Some(recs)) => Some([rec] + recs)
  {
    hide See;
  }

  lemma {:induction false} AllMore(vals: seq<seq<Byte>>, raw: seq<Byte>, wild: bool, loc: Word, now: nat)
    ensures All(vals + [raw], wild, loc, now) ==
      match (All(vals, wild, loc, now), See(raw, wild, loc, now))
      case (None, _) => None
      case (_, Bad) => None
      case (Some(recs), Hidden) => Some(recs)
      case (Some(recs), Visible(rec)) => Some(recs + [rec])
    decreases |vals|
  {
    hide See;
    if vals == [] {
      assert [raw][1..] == [] && vals + [raw] == [raw];
      AllFirst([raw], wild, loc, now);
      match See(raw, wild, loc, now) {
        case Visible(rec) => assert [rec] + [] == [] + [rec];
        case _ =>
      }
    } else {
      var more := vals + [raw];
      assert more[1..] == vals[1..] + [raw] && more[0] == vals[0];
      AllMore(vals[1..], raw, wild, loc, now);
      AllFirst(vals, wild, loc, now);
      AllFirst(more, wild, loc, now);
      hide All;
      match (All(vals[1..], wild, loc, now), See(vals[0], wild, loc, now), See(raw, wild, loc, now)) {
        case (Some(recs), Visible(first), Visible(rec)) => assert [first] + (recs + [rec]) == [first] + recs + [rec];
        case _ =>
      }
    }
  }

  /** Storing a record shows it, behind the records its owner had, to the clients it is for, and changes
      nothing for any other name or for other clients. */
  lemma {:induction false} StoredShown(v: View, owner: seq<Byte>, rtype: seq<Byte>, ttl: Word, ttd: seq<Byte>,
                                       loc: Word, g: Given,
                                       d: seq<Byte>, wild: bool)
    requires IsName(owner) && |rtype| == 2 && |ttd| == 8 && Fitting(rtype, g)
    requires |Head(rtype, ttl, ttd, loc, IsWild(owner)) + DataOf(g)| <= DATASIZE && Shown(v, d, wild).Some?
    ensures var raw := Head(rtype, ttl, ttd, loc, IsWild(owner)) + DataOf(g);
      var after := Shown(v.(rs := v.rs + [Record(Lower(Owner(owner)), raw)]), d, wild);
      var before := Shown(v, d, wild).value;
      if d == Lower(Owner(owner)) && wild == IsWild(owner) && (loc == 0 || loc == v.loc)
        && Timely(ttl, Tai(ttd), v.now) then
        && after.Some? && |after.value| == |before| + 1 && after.value[..|before|] == before
        && var rec := after.value[|before|];
           && rec.rtype == rtype && rec.ttl == Remaining(ttl, Tai(ttd), v.now) && Render(rec) == Some(PiecesOf(g))
           && rec.raw == raw && rec.dpos + |DataOf(g)| == |raw|
      else
        after == Some(before)
  {
    var raw := Head(rtype, ttl, ttd, loc, IsWild(owner)) + DataOf(g);
    var r := Record(Lower(Owner(owner)), raw);
    StoredSeen(rtype, ttl, ttd, loc, IsWild(owner), DataOf(g), wild, v.loc, v.now);
    ValuesMore(v.rs, r, d);
    AllMore(Values(v.rs, d), raw, wild, v.loc, v.now);
    hide Head, See, All, Values, Render, IsName, IsWild, Owner, Timely, Remaining, Tai, DataOf, PiecesOf;
    if r.key == d && See(raw, wild, v.loc, v.now).Visible? {
      StoredRendered(See(raw, wild, v.loc, v.now).rec, g);
    } else {
      assert Values(v.rs, d) + [] == Values(v.rs, d);
    }
  }

  // ---------- Location questions ----------

  predicate NoCapitals(d: seq<Byte>) {
    forall i :: 0 <= i < |d| ==> !('A' as int <= d[i] <= 'Z' as int)
  }

  /** respond asks with the name of the query in lower case, but rr_addloq stores the name as the line spells
      it: looking it up finds what was stored if and only if that spelling has no capital letters. */
  lemma {:induction false} LoqFoundIff(rs: seq<Record>, rtype: seq<Byte>, d: seq<Byte>, data: seq<Byte>)
    requires |rtype| == 2
    ensures var before := Values(rs, LoqKey(rtype, Lower(d)));
      var after := Values(rs + [Record(LoqKey(rtype, d), data)], LoqKey(rtype, Lower(d)));
      if NoCapitals(d) then after == before + [data] else after == before
  {
    hide *;
    LoqKeySame(rtype, d);
    ValuesMore(rs, Record(LoqKey(rtype, d), data), LoqKey(rtype, Lower(d)));
    NothingMore(Values(rs, LoqKey(rtype, Lower(d))));
  }

  lemma {:induction false} NothingMore(l: seq<seq<Byte>>)
    ensures l + [] == l
  {
  }

  lemma {:induction false} LoqKeySame(rtype: seq<Byte>, d: seq<Byte>)
    requires |rtype| == 2
    ensures LoqKey(rtype, d) == LoqKey(rtype, Lower(d)) <==> NoCapitals(d)
  {
    assert LoqKey(rtype, d)[4..] == d && LoqKey(rtype, Lower(d))[4..] == Lower(d);
    if NoCapitals(d) {
      assert Lower(d) == d;
    } else {
      var i :| 0 <= i < |d| && 'A' as int <= d[i] <= 'Z' as int;
      assert Lower(d)[i] != d[i];
    }
  }
}
