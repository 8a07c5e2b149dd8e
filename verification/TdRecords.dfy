/** The stored records of src/tdlookup.c: which of them a client sees at a given time, and the record
    data they stand for. */
module TdRecords {
  import opened Basics
  import opened Bytes
  import opened DnsName
  import opened DnsPacket
  import opened CdbSpec
  import opened CdbFile
  import opened RecordData

  const A: seq<Byte> := [0, 1]
  const NS: seq<Byte> := [0, 2]
  const CNAME: seq<Byte> := [0, 5]
  const SOA: seq<Byte> := [0, 6]
  const PTR: seq<Byte> := [0, 12]
  const MX: seq<Byte> := [0, 15]
  const ANY: seq<Byte> := [0, 255]

  /** The size of the buffer a stored record is read into. */
  const DATASIZE: nat := 32767

  /** A visible record: its type, its time to live, and where its data starts in the stored bytes. */
  datatype Rec = Rec(rtype: seq<Byte>, ttl: Word, raw: seq<Byte>, dpos: nat)

  /** What find makes of one stored record. */
  datatype Seen = Bad | Hidden | Visible(rec: Rec)

  /** Client location and TAI64 seconds. */
  datatype View = View(rs: seq<Record>, loc: Word, now: nat)

  /** tai_unpack */
  function Tai(s: seq<Byte>): nat
    requires |s| == 8
  {
    (UnpackBig32(s[..4]) as int) * TWO32 + UnpackBig32(s[4..])
  }

  /** The location mark of a stored record: present in two of the four kinds. */
  predicate Located(ch: Byte) {
    ch as int == '=' as int + 1 || ch as int == '*' as int + 1
  }

  /** The kind with the location mark taken off. */
  function Kind(ch: Byte): Byte {
    if Located(ch) then ch - 1 else ch
  }

  function See(raw: seq<Byte>, wild: bool, loc: Word, now: nat): Seen {
    if |raw| > DATASIZE || |raw| < 3 || (Located(raw[2]) && |raw| < 7) then Bad
    else if Located(raw[2]) && Unpack(raw[3..7]) != loc then Hidden
    else if wild != (Kind(raw[2]) as int == '*' as int) then Hidden
    else
      var p := if Located(raw[2]) then 7 else 3;
      if |raw| < p + 12 then Bad
      else
        var ttl, cutoff := UnpackBig32(raw[p..p + 4]), Tai(raw[p + 4..p + 12]);
        if !Timely(ttl, cutoff, now) then Hidden
        else Visible(Rec(raw[..2], Remaining(ttl, cutoff, now), raw, p + 12))
  }

  /** With a time to live, a cut-off is where the record starts to be valid; without, where it ends. */
  predicate Timely(ttl: Word, cutoff: nat, now: nat) {
    cutoff == 0 || (if ttl == 0 then now <= cutoff else cutoff < now)
  }

  /** The time to live a client is told: the time left, between 2 seconds and an hour, for a record
      that will end. */
  function Remaining(ttl: Word, cutoff: nat, now: nat): Word {
    if cutoff == 0 || ttl != 0 || cutoff < now then ttl
    else if cutoff - now <= 2 then 2
    else if cutoff - now >= 3600 then 3600
    else cutoff - now
  }

  /** A record that ends at a cut-off and one that starts there: always exactly one is visible. The one that
      ends is told the time left, but at least 2 seconds and at most an hour; the one that starts, its own. */
  lemma {:induction false} Handover(ttl: Word, cutoff: nat, now: nat)
    requires ttl != 0 && cutoff != 0
    ensures Timely(0, cutoff, now) <==> now <= cutoff
    ensures Timely(ttl, cutoff, now) <==> now > cutoff
    ensures now <= cutoff ==>
      Remaining(0, cutoff, now) == if now + 2 > cutoff then 2 else if now + 3600 < cutoff then 3600 else cutoff - now
    ensures Remaining(ttl, cutoff, now) == ttl
  {
  }

  /** Without a cut-off a record is always visible, with its own time to live. */
  lemma {:induction false} Everlasting(ttl: Word, now: nat)
    ensures Timely(ttl, 0, now) && Remaining(ttl, 0, now) == ttl
  {
  }

  /** The first record that is not hidden, and what is stored behind it. */
  datatype Found = End | Broken | Next(rec: Rec, rest: seq<seq<Byte>>)

  function First(vals: seq<seq<Byte>>, wild: bool, loc: Word, now: nat): Found
    decreases |vals|
  {
    if vals == [] then End
    else
      match See(vals[0], wild, loc, now)
      case Bad => Broken
      case Hidden => First(vals[1..], wild, loc, now)
      case Visible(rec) => Next(rec, vals[1..])
  }

  /** All visible records, in stored order; None when one of the stored records is malformed. */
  function All(vals: seq<seq<Byte>>, wild: bool, loc: Word, now: nat): Option<seq<Rec>>
    decreases |vals|
  {
    if vals == [] then Some([])
    else
      match (See(vals[0], wild, loc, now), All(vals[1..], wild, loc, now))
      case (Bad, _) => None
      case (_, None) => None
      case (Hidden, Some(recs)) => Some(recs)
      case (Visible(rec), Some(recs)) => Some([rec] + recs)
  }

  /** The records of name d that the view shows. */
  function Shown(v: View, d: seq<Byte>, wild: bool): Option<seq<Rec>> {
    All(Values(v.rs, d), wild, v.loc, v.now)
  }

  /** One call of find moves one record ahead. */
  lemma {:induction false} FirstOfAll(vals: seq<seq<Byte>>, wild: bool, loc: Word, now: nat)
    ensures match First(vals, wild, loc, now)
            case End => All(vals, wild, loc, now) == Some([])
            case Broken => All(vals, wild, loc, now) == None
            case Next(rec, rest) =>
              && |rest| < |vals| && |rec.rtype| == 2 && rec.dpos <= |rec.raw|
              && All(vals, wild, loc, now) ==
                 match All(rest, wild, loc, now) case None => None case Some(recs) => Some([rec] + recs)
    decreases |vals|
  {
    if vals != [] && See(vals[0], wild, loc, now).Hidden? {
      FirstOfAll(vals[1..], wild, loc, now);
    }
  }

  predicate HasType(recs: seq<Rec>, t: seq<Byte>) {
    exists i :: 0 <= i < |recs| && recs[i].rtype == t
  }

  // ---------- Record data ----------

  /** doname: the name at p of the stored bytes, and the position behind it. */
  function NameAt(raw: seq<Byte>, p: nat): Option<(Piece, nat)> {
    match GetName(raw, p)
    case None => None
    case Some(r) => Some((Name(Lower(r.name)), r.end))
  }

  function BytesAt(raw: seq<Byte>, p: nat, n: nat): Option<(Piece, nat)> {
    if p + n <= |raw| then Some((Raw(raw[p..p + n]), p + n)) else None
  }

  /** What is written as the data of a record. */
  function Render(rec: Rec): Option<seq<Piece>> {
    if rec.rtype == NS || rec.rtype == CNAME || rec.rtype == PTR then
      match NameAt(rec.raw, rec.dpos) case None => None case Some(x) => Some([x.0])
    else if rec.rtype == MX then
      match BytesAt(rec.raw, rec.dpos, 2)
      case None => None
      case Some(pref) => match NameAt(rec.raw, pref.1) case None => None case Some(x) => Some([pref.0, x.0])
    else if rec.rtype == SOA then
      match NameAt(rec.raw, rec.dpos)
      case None => None
      case Some(x) =>
        match NameAt(rec.raw, x.1)
        case None => None
        case Some(y) => match BytesAt(rec.raw, y.1, 20) case None => None case Some(z) => Some([x.0, y.0, z.0])
    else if rec.dpos <= |rec.raw| then Some([Raw(rec.raw[rec.dpos..])])
    else None
  }

  /** The four bytes of an address. */
  function RenderGlue(rec: Rec): Option<seq<Piece>> {
    match BytesAt(rec.raw, rec.dpos, 4) case None => None case Some(x) => Some([x.0])
  }
}
