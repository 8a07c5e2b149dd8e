/** respond of src/tdlookup.c: the client's location, found by its address, and the reply for it. */
module TdRespond {
  import opened Basics
  import opened Bytes
  import opened DnsName
  import opened CdbSpec
  import opened CdbFile
  import opened CdbReader
  import opened ResponseWriter
  import opened MessageWriter
  import opened Geo
  import opened TdRecords
  import opened TdFind
  import opened TdMessage
  import opened TdSpec
  import opened TdDoit

  /** The location query lines for this name and type hold a map and a user, four bytes each. */
  predicate LoqData(rs: seq<Record>, key: seq<Byte>) {
    Values(rs, key) != [] ==> |Values(rs, key)[0]| == 8
  }

  /** The map and the user of the location query for a name and type. */
  function MapOf(rs: seq<Record>, key: seq<Byte>): (Word, Word)
    requires Values(rs, key) != [] && LoqData(rs, key)
  {
    (Unpack(Values(rs, key)[0][..4]), Unpack(Values(rs, key)[0][4..]))
  }

  /** Names with a location query are answered by location; the others for the default one. */
  function ClientLocation(rs: seq<Record>, key: seq<Byte>, ip: Word, default: Word): Word
    requires LoqData(rs, key)
  {
    if Values(rs, key) == [] then default
    else Location(rs, ip, MapOf(rs, key).0, MapOf(rs, key).1, default)
  }

  /** The encoder's location query names the map first, then the user. */
  lemma {:induction false} LocationAsked(rs: seq<Record>, key: seq<Byte>, mid: Word, uid: Word, ip: Word, default: Word)
    requires Values(rs, key) != [] && Values(rs, key)[0] == Pack(mid) + Pack(uid)
    ensures LoqData(rs, key) && MapOf(rs, key) == (mid, uid)
    ensures ClientLocation(rs, key, ip, default) == Location(rs, ip, mid, uid, default)
  {
    UnpackPack(mid);
    UnpackPack(uid);
    hide Values, Pack, Unpack, Location;
    var u := Values(rs, key)[0];
    assert u[..4] == Pack(mid) && u[4..] == Pack(uid);
  }

  method FindLocation(c: Cdb, q: seq<Byte>, qtype: seq<Byte>, ip: Word, default: Word, rs: seq<Record>)
    returns (ok: bool, clientloc: Word)
    requires Loaded(c, rs) && IsName(q) && |q| <= MAXNAME && |qtype| == 2 && LoqData(rs, LoqKey(qtype, q))
    requires forall mid, uid :: GeoData(rs, mid, uid)
    modifies c
    ensures ok && clientloc == ClientLocation(rs, LoqKey(qtype, q), ip, default)
  {
    hide Loaded, Values, GeoData, Location, Unpack;
    var r, u;
    var z := LoqKey(qtype, q);
    r, u := FirstValue(c, z, rs);
    if r == -1 { return false, default; }
    if r == 0 { return true, default; }
    var mid, uid := Unpack(u[..4]), Unpack(u[4..]);
    assert GeoData(rs, mid, uid);
    LoadedParts(c, rs);
    r, clientloc := IpdbGet(c, ip, default, mid, uid, rs);
    ok := r != 0;
  }

  lemma {:induction false} LoadedParts(c: Cdb, rs: seq<Record>)
    requires Loaded(c, rs)
    ensures c.file == File(c.hash, rs) && Fits(rs) && |c.file| < TWO32
  {
  }

  /** respond: a finished response is the reply for the location of the client's address at this time. */
  method Respond(c: Cdb, m: Message, q: seq<Byte>, qtype: seq<Byte>, ip: Word, now: nat, default: Word, rs: seq<Record>)
    returns (st: Status, ghost sample: seq<seq<Byte>>, ghost whole: seq<Byte>, ghost all: seq<Mark>)
    requires Loaded(c, rs) && m.Complete() && Roomy(m) && m.ms == [] && IsName(q) && |q| <= MAXNAME && |qtype| == 2
    requires LoqData(rs, LoqKey(qtype, q)) && forall mid, uid :: GeoData(rs, mid, uid)
    modifies c, m`dpos, m`cur, m`ms, m`an, m`ns, m`ar, m.r`len, m.r`nb, m.r`nameNum, m.r.msg, m.r.names, m.r.namePtr
    ensures var v := View(rs, ClientLocation(rs, LoqKey(qtype, q), ip, default), now);
      && (st.Failed? ==> Unanswered(v, q, qtype, m.flaghidettl))
      && (st.Done? ==> Replied(m, old(m.Flags()), v, q, qtype, sample, whole, all))
    ensures st.Beyond? ==> m.r.len > REACH
  {
    hide Message.Complete, Message.Flags, Message.Sent, Roomy, Loaded, LoqData, GeoData, ClientLocation, Unanswered,
      Replied, IsName;
    var ok, clientloc := FindLocation(c, q, qtype, ip, default, rs);
    st, sample, whole, all := Doit(c, m, q, qtype, View(rs, clientloc, now));
  }
}
