/** doit of src/tdlookup.c, from the bytes of the database to the bytes of the response. */
module Tdlookup {
  import opened Basics
  import opened Bytes
  import opened DnsName
  import opened DnsPacket
  import opened RecordData
  import opened CdbSpec
  import opened CdbFile
  import opened CdbReader
  import opened ResponseWriter
  import opened MessageWriter
  import opened TdRecords
  import opened TdFind
  import opened TdMessage
  import opened TdSpec

  // ---------- One search ----------

  /** Of the records vals0, `done` have been met, and vals are still to come. */
  ghost predicate Progress(vals0: seq<seq<Byte>>, wild: bool, v: View, done: seq<Rec>, vals: seq<seq<Byte>>) {
    All(vals0, wild, v.loc, v.now) ==
      match All(vals, wild, v.loc, v.now) case None => None case Some(recs) => Some(done + recs)
  }

  lemma {:induction false} ProgressStart(vals: seq<seq<Byte>>, wild: bool, v: View)
    ensures Progress(vals, wild, v, [], vals)
  {
    hide All;
    match All(vals, wild, v.loc, v.now)
    case None =>
    case Some(recs) => assert [] + recs == recs;
  }

  /** What a call of find tells about the whole search. */
  lemma {:induction false} ProgressStep(vals0: seq<seq<Byte>>, wild: bool, v: View, done: seq<Rec>,
                                        vals: seq<seq<Byte>>)
    requires Progress(vals0, wild, v, done, vals)
    ensures match First(vals, wild, v.loc, v.now)
            case End => All(vals0, wild, v.loc, v.now) == Some(done)
            case Broken => All(vals0, wild, v.loc, v.now) == None
            case Next(rec, rest) =>
              && Progress(vals0, wild, v, done + [rec], rest) && |rest| < |vals|
              && |rec.rtype| == 2 && rec.dpos <= |rec.raw| <= DATASIZE
  {
    FirstOfAll(vals, wild, v.loc, v.now);
    FirstFits(vals, wild, v.loc, v.now);
    hide All, First;
    match First(vals, wild, v.loc, v.now)
    case End => assert done + [] == done;
    case Broken =>
    case Next(rec, rest) =>
      match All(rest, wild, v.loc, v.now) {
        case None =>
        case Some(recs) => assert done + ([rec] + recs) == (done + [rec]) + recs;
      }
  }

  lemma {:induction false} FirstFits(vals: seq<seq<Byte>>, wild: bool, loc: Word, now: nat)
    ensures match First(vals, wild, loc, now) case Next(rec, _) => |rec.raw| <= DATASIZE case _ => true
    decreases |vals|
  {
    if vals != [] && See(vals[0], wild, loc, now).Hidden? {
      FirstFits(vals[1..], wild, loc, now);
    }
  }

  lemma {:induction false} HasTypeAppend(recs: seq<Rec>, x: Rec, t: seq<Byte>)
    ensures HasType(recs + [x], t) <==> HasType(recs, t) || x.rtype == t
  {
    var l := recs + [x];
    if HasType(recs, t) {
      var i :| 0 <= i < |recs| && recs[i].rtype == t;
      assert l[i].rtype == t;
    }
    assert l[|recs|] == x;
  }

  // ---------- The zone ----------

  /** One pass over the records of a name: which of the two types are there. */
  method ScanTypes(c: Cdb, d: seq<Byte>, v: View) returns (ok: bool, flagns: bool, flagsoa: bool)
    requires Loaded(c, v.rs) && |d| < TWO32
    modifies c
    ensures match Shown(v, d, false)
            case None => !ok
            case Some(recs) => ok && flagns == HasType(recs, NS) && flagsoa == HasType(recs, SOA)
  {
    hide Cursor, Progress, First, All, Values, HasType;
    flagns, flagsoa := false, false;
    Start(c, d, v.rs);
    ghost var vals, done: seq<Rec> := Values(v.rs, d), [];
    ProgressStart(vals, false, v);
    NoTypes();
    while true
      invariant Cursor(c, v.rs, d, vals) && Progress(Values(v.rs, d), false, v, done, vals)
      invariant flagns == HasType(done, NS) && flagsoa == HasType(done, SOA)
      decreases |vals|
    {
      var r, rec;
      ghost var rest;
      r, rec, rest := Find(c, d, false, v.loc, v.now, v.rs, vals);
      ProgressStep(Values(v.rs, d), false, v, done, vals);
      if r == 0 { return true, flagns, flagsoa; }
      if r == -1 { return false, flagns, flagsoa; }
      HasTypeAppend(done, rec, SOA);
      HasTypeAppend(done, rec, NS);
      if rec.rtype == SOA { flagsoa := true; }
      if rec.rtype == NS { flagns := true; }
      done, vals := done + [rec], rest;
    }
  }

  lemma {:induction false} NoTypes()
    ensures !HasType([], NS) && !HasType([], SOA)
  {
  }

  /** The first loop of doit: up from q to a name with name servers. */
  method FindZone(c: Cdb, q: seq<Byte>, v: View) returns (ok: bool, control: seq<Byte>, flagauthoritative: bool)
    requires Loaded(c, v.rs) && IsName(q) && |q| <= MAXNAME
    modifies c
    ensures ok <==> ZoneOf(v, q).ZoneAt?
    ensures ok ==> ZoneOf(v, q) == ZoneAt(control, flagauthoritative) && IsName(control) && |control| <= MAXNAME
  {
    hide Shown, HasType, Loaded;
    control := q;
    while true
      invariant IsName(control) && |control| <= MAXNAME && ZoneOf(v, control) == ZoneOf(v, q)
      decreases |control|
    {
      var flagns;
      ok, flagns, flagauthoritative := ScanTypes(c, control, v);
      if !ok { return; }
      if flagns { return; }
      if control[0] == 0 { return false, control, false; }
      control := Parent(control);
    }
  }

  // ---------- The answer ----------

  function Min8(n: nat): nat {
    if n < 8 then n else 8
  }

  /** One more address for the sample, which keeps at most eight of those met so far. */
  method Keep(addr: array<seq<Byte>>, addrnum: nat, a: seq<Byte>, ghost from: seq<seq<Byte>>) returns (n: nat)
    requires addr.Length == 8 && addrnum == (if |from| < 1000000 then |from| else 1000000)
    requires multiset(addr[..Min8(addrnum)]) <= multiset(from)
    modifies addr
    ensures n == if |from| + 1 < 1000000 then |from| + 1 else 1000000
    ensures multiset(addr[..Min8(n)]) <= multiset(from + [a])
  {
    ghost var before := addr[..Min8(addrnum)];
    var i := Random(addrnum + 1);
    if i < 8 {
      if i < addrnum && addrnum < 8 { addr[addrnum] := addr[i]; }
      addr[i] := a;
    }
    n := if addrnum < 1000000 then addrnum + 1 else addrnum;
    KeepSample(before, addr[..Min8(n)], i, a, from);
  }

  lemma {:induction false} KeepSample(s: seq<seq<Byte>>, s': seq<seq<Byte>>, i: nat, a: seq<Byte>, from: seq<seq<Byte>>)
    requires |s| <= 8 && multiset(s) <= multiset(from) && |s'| == Min8(|s| + 1)
    requires i >= 8 ==> |s| == 8 && s' == s
    requires i < 8 && |s| == 8 ==> s' == s[i := a]
    requires i < 8 && |s| < 8 ==> i <= |s| && s' == if i == |s| then s + [a] else s[i := a] + [s[i]]
    ensures multiset(s') <= multiset(from + [a])
  {
    assert multiset(from + [a]) == multiset(from) + multiset{a};
    if i < |s| {
      assert multiset(s[i := a]) == multiset(s) - multiset{s[i]} + multiset{a};
    }
  }

  /** The sampler has met the addresses `from`, the last of which has this time to live. */
  ghost predicate Sampled(addr: seq<seq<Byte>>, addrnum: nat, addrttl: Word, done: seq<Rec>, qtype: seq<Byte>) {
    var from := Addresses(done, qtype);
    && |addr| == 8 && addrnum == (if |from| < 1000000 then |from| else 1000000)
    && multiset(addr[..Min8(addrnum)]) <= multiset(from) && addrttl == LastTtl(done, qtype)
  }

  /** The first wanted SOA record is past. */
  ghost predicate GaveSoa(done: seq<Rec>, qtype: seq<Byte>) {
    HasType(done, SOA) && Wanted(SOA, qtype)
  }

  lemma {:induction false} SampledSkip(addr: seq<seq<Byte>>, addrnum: nat, addrttl: Word, done: seq<Rec>, x: Rec,
                                       qtype: seq<Byte>)
    requires Sampled(addr, addrnum, addrttl, done, qtype) && !IsAddress(x, qtype)
    ensures Sampled(addr, addrnum, addrttl, done + [x], qtype)
  {
    hide IsAddress;
    assert (done + [x])[..|done|] == done;
    assert Addresses(done, qtype) + [] == Addresses(done, qtype);
  }

  lemma {:induction false} SampledMore(addr: seq<seq<Byte>>, addrnum: nat, done: seq<Rec>, x: Rec, qtype: seq<Byte>)
    requires IsAddress(x, qtype) && |addr| == 8
    requires var from := Addresses(done, qtype);
      && addrnum == (if |from| + 1 < 1000000 then |from| + 1 else 1000000)
      && multiset(addr[..Min8(addrnum)]) <= multiset(from + [x.raw[x.dpos..]])
    ensures Sampled(addr, addrnum, x.ttl, done + [x], qtype)
  {
    assert (done + [x])[..|done|] == done;
  }

  lemma {:induction false} OrdinaryStep(done: seq<Rec>, x: Rec, owner: seq<Byte>, qtype: seq<Byte>, masked: bool,
                                        l: seq<RR>)
    requires Ordinary(done, owner, qtype, masked) == Some(l)
    ensures var next := Ordinary(done + [x], owner, qtype, masked);
      if !Wanted(x.rtype, qtype) || IsAddress(x, qtype) || (x.rtype == SOA && HasType(done, SOA)) then next == Some(l)
      else
        match Render(x)
        case None => next == None
        case Some(data) => next == Some(l + [RR(owner, x.rtype, Told(masked, x.ttl), data)])
  {
    hide Render, IsAddress, HasType, Wanted;
    assert (done + [x])[..|done|] == done;
  }

  /** The records l have been added to the response's answer section since it had ms0, an0 of them there. */
  ghost predicate Answered(ms0: seq<Mark>, an0: nat, ms: seq<Mark>, an: nat, l: seq<RR>) {
    Added(ms0, ms, l) && an == an0 + |l|
  }

  lemma {:induction false} AnsweredMore(ms0: seq<Mark>, an0: nat, ms1: seq<Mark>, an1: nat, l: seq<RR>,
                                        ms2: seq<Mark>, an2: nat, rr: RR)
    requires Answered(ms0, an0, ms1, an1, l) && Added(ms1, ms2, [rr]) && an2 == an1 + 1
    ensures Answered(ms0, an0, ms2, an2, l + [rr])
  {
    AddedMore(ms0, ms1, ms2, l, [rr]);
  }

  /** One visible record in the second loop of doit. */
  method AnswerRecord(m: Message, q: seq<Byte>, qtype: seq<Byte>, rec: Rec, flaggavesoa: bool, addr: array<seq<Byte>>,
                      addrnum: nat, addrttl: Word, ghost done: seq<Rec>, ghost l: seq<RR>, ghost ms0: seq<Mark>,
                      ghost an0: nat)
    returns (st: Status, gave: bool, num: nat, ttl: Word, ghost l': seq<RR>)
    requires m.Complete() && Roomy(m) && IsName(q) && |q| <= MAXNAME && addr != m.r.names
    requires |rec.rtype| == 2 && rec.dpos <= |rec.raw| <= DATASIZE
    requires Answered(ms0, an0, m.ms, m.an, l) && Ordinary(done, Lower(q), qtype, m.flaghidettl) == Some(l)
    requires flaggavesoa == GaveSoa(done, qtype) && addr.Length == 8 && Sampled(addr[..], addrnum, addrttl, done, qtype)
    modifies addr, m`dpos, m`cur, m`ms, m`an, m`ns, m`ar, m.r`len, m.r`nb, m.r`nameNum, m.r.msg, m.r.names, m.r.namePtr
    ensures st.Failed? ==> Ordinary(done + [rec], Lower(q), qtype, m.flaghidettl).None?
    ensures st.Done? ==>
      m.Complete() && Roomy(m) && m.Flags() == old(m.Flags()) && m.ns == old(m.ns) && m.ar == old(m.ar)
    ensures st.Done? ==>
      Answered(ms0, an0, m.ms, m.an, l') && Ordinary(done + [rec], Lower(q), qtype, m.flaghidettl) == Some(l')
    ensures st.Done? ==> gave == GaveSoa(done + [rec], qtype) && Sampled(addr[..], num, ttl, done + [rec], qtype)
    ensures st.Beyond? ==> m.r.len > REACH
  {
    HasTypeAppend(done, rec, SOA);
    OrdinaryStep(done, rec, Lower(q), qtype, m.flaghidettl, l);
    hide Message.Complete, Message.Flags, Roomy, IsName, Lower, Ordinary, Sampled, Render, HasType, Answered;
    st, gave, num, ttl, l' := Done, flaggavesoa, addrnum, addrttl, l;
    if (flaggavesoa && rec.rtype == SOA) || (rec.rtype != qtype && qtype != ANY && rec.rtype != CNAME) {
      SampledSkip(addr[..], addrnum, addrttl, done, rec, qtype);
      return;
    }
    if rec.rtype == A && |rec.raw| - rec.dpos == 4 {
      ttl := rec.ttl;
      num := KeepRecord(addr, addrnum, addrttl, rec, done, qtype);
      return;
    }
    st, l' := AppendRecord(m, q, rec, l, ms0, an0);
    if !st.Done? { return; }
    if rec.rtype == SOA { gave := true; }
    SampledSkip(addr[..], addrnum, addrttl, done, rec, qtype);
  }

  /** A record that is written at once. */
  method AppendRecord(m: Message, q: seq<Byte>, rec: Rec, ghost l: seq<RR>, ghost ms0: seq<Mark>, ghost an0: nat)
    returns (st: Status, ghost l': seq<RR>)
    requires m.Complete() && Roomy(m) && IsName(q) && |q| <= MAXNAME
    requires |rec.rtype| == 2 && rec.dpos <= |rec.raw| <= DATASIZE && Answered(ms0, an0, m.ms, m.an, l)
    modifies m`dpos, m`cur, m`ms, m`an, m`ns, m`ar, m.r`len, m.r`nb, m.r`nameNum, m.r.msg, m.r.names, m.r.namePtr
    ensures st.Failed? ==> Render(rec).None?
    ensures st.Done? ==>
      m.Complete() && Roomy(m) && m.Flags() == old(m.Flags()) && m.ns == old(m.ns) && m.ar == old(m.ar)
    ensures st.Done? ==> Answered(ms0, an0, m.ms, m.an, l') && Render(rec).Some?
    ensures st.Done? ==> l' == l + [RR(Lower(q), rec.rtype, Told(m.flaghidettl, rec.ttl), Render(rec).value)]
    ensures st.Beyond? ==> m.r.len > REACH
  {
    hide Message.Complete, Message.Flags, Roomy, IsName, Lower, Render, Added, Answered;
    l' := l;
    st := AddRecord(m, Answer, q, rec);
    if !st.Done? { return; }
    ghost var rr := RR(Lower(q), rec.rtype, Told(m.flaghidettl, rec.ttl), Render(rec).value);
    l' := l + [rr];
    AnsweredMore(ms0, an0, old(m.ms), old(m.an), l, m.ms, m.an, rr);
  }

  method KeepRecord(addr: array<seq<Byte>>, addrnum: nat, addrttl: Word, rec: Rec, ghost done: seq<Rec>,
                    ghost qtype: seq<Byte>)
    returns (num: nat)
    requires addr.Length == 8 && Sampled(addr[..], addrnum, addrttl, done, qtype) && IsAddress(rec, qtype)
    modifies addr
    ensures Sampled(addr[..], num, rec.ttl, done + [rec], qtype)
  {
    num := Keep(addr, addrnum, rec.raw[rec.dpos..], Addresses(done, qtype));
    SampledMore(addr[..], num, done, rec, qtype);
  }

  lemma {:induction false} OrdinaryPrefix(a: seq<Rec>, b: seq<Rec>, owner: seq<Byte>, qtype: seq<Byte>, masked: bool)
    requires Ordinary(a, owner, qtype, masked).None?
    ensures Ordinary(a + b, owner, qtype, masked).None?
    decreases |b|
  {
    hide Render, IsAddress, HasType, Wanted;
    if b == [] {
      assert a + b == a;
    } else {
      assert (a + b)[..|a + b| - 1] == a + b[..|b| - 1];
      OrdinaryPrefix(a, b[..|b| - 1], owner, qtype, masked);
    }
  }

  /** A search that has met the records `done` ends with a longer list or not at all. */
  lemma {:induction false} ProgressPrefix(vals0: seq<seq<Byte>>, wild: bool, v: View, done: seq<Rec>,
                                          vals: seq<seq<Byte>>,
                                          owner: seq<Byte>, qtype: seq<Byte>, masked: bool)
    requires Progress(vals0, wild, v, done, vals) && Ordinary(done, owner, qtype, masked).None?
    ensures match All(vals0, wild, v.loc, v.now) case None => true case Some(recs) =>
      Ordinary(recs, owner, qtype, masked).None?
  {
    hide All, Ordinary;
    match All(vals, wild, v.loc, v.now)
    case None =>
    case Some(recs) => OrdinaryPrefix(done, recs, owner, qtype, masked);
  }

  /** The inner part of the second loop of doit: the records of one name, but for the addresses. */
  method CollectNode(c: Cdb, m: Message, q: seq<Byte>, wild: seq<Byte>, flagwild: bool, qtype: seq<Byte>, v: View,
                     addr: array<seq<Byte>>)
    returns (st: Status, flagfound: bool, addrnum: nat, addrttl: Word, ghost recs: seq<Rec>, ghost l: seq<RR>)
    requires Loaded(c, v.rs) && |wild| <= MAXNAME && m.Complete() && Roomy(m) && IsName(q) && |q| <= MAXNAME
    requires addr.Length == 8 && addr != m.r.names
    modifies c, addr, m`dpos, m`cur, m`ms, m`an, m`ns, m`ar, m.r`len, m.r`nb, m.r`nameNum, m.r.msg, m.r.names,
      m.r.namePtr
    ensures st.Failed? ==>
      match Shown(v, wild, flagwild) case None => true case Some(all) =>
        Ordinary(all, Lower(q), qtype, m.flaghidettl).None?
    ensures st.Done? ==>
      m.Complete() && Roomy(m) && m.Flags() == old(m.Flags()) && m.ns == old(m.ns) && m.ar == old(m.ar)
    ensures st.Done? ==> Shown(v, wild, flagwild) == Some(recs) && flagfound == (recs != [])
    ensures st.Done? ==> Ordinary(recs, Lower(q), qtype, m.flaghidettl) == Some(l) && Answered(old(m.ms), old(m.an),
      m.ms, m.an, l)
    ensures st.Done? ==> Sampled(addr[..], addrnum, addrttl, recs, qtype)
    ensures st.Beyond? ==> m.r.len > REACH
  {
    hide Message.Complete, Message.Flags, Roomy, IsName, Lower, Ordinary, Sampled, Cursor, Progress, First, All,
      Values, GaveSoa, Answered;
    Start(c, wild, v.rs);
    ghost var vals := Values(v.rs, wild);
    recs, l, flagfound, addrnum, addrttl := [], [], false, 0, 0;
    var flaggavesoa := false;
    CollectStart(m, addr[..], Lower(q), qtype);
    ProgressStart(vals, flagwild, v);
    while true
      invariant Cursor(c, v.rs, wild, vals) && Progress(Values(v.rs, wild), flagwild, v, recs, vals)
      invariant m.Complete() && Roomy(m) && m.Flags() == old(m.Flags()) && m.ns == old(m.ns) && m.ar == old(m.ar)
      invariant Ordinary(recs, Lower(q), qtype, m.flaghidettl) == Some(l)
        && Answered(old(m.ms), old(m.an), m.ms, m.an, l)
      invariant flaggavesoa == GaveSoa(recs, qtype) && Sampled(addr[..], addrnum, addrttl, recs, qtype)
      invariant flagfound == (recs != [])
      decreases |vals|
    {
      var r, rec;
      ghost var rest;
      r, rec, rest := Find(c, wild, flagwild, v.loc, v.now, v.rs, vals);
      ProgressStep(Values(v.rs, wild), flagwild, v, recs, vals);
      if r == 0 { return Done, flagfound, addrnum, addrttl, recs, l; }
      if r == -1 { return Failed, flagfound, addrnum, addrttl, recs, l; }
      flagfound := true;
      st, flaggavesoa, addrnum, addrttl, l := AnswerRecord(m, q, qtype, rec, flaggavesoa, addr, addrnum, addrttl,
        recs, l, old(m.ms), old(m.an));
      recs, vals := recs + [rec], rest;
      if st.Failed? { ProgressPrefix(Values(v.rs, wild), flagwild, v, recs, vals, Lower(q), qtype, m.flaghidettl); }
      if !st.Done? { return; }
    }
  }

  lemma {:induction false} CollectStart(m: Message, addr: seq<seq<Byte>>, owner: seq<Byte>, qtype: seq<Byte>)
    requires |addr| == 8
    ensures Ordinary([], owner, qtype, m.flaghidettl) == Some([]) && Answered(m.ms, m.an, m.ms, m.an, [])
    ensures !GaveSoa([], qtype) && Sampled(addr, 0, 0, [], qtype)
  {
    assert Log(m.ms) + [] == Log(m.ms);
    assert addr[..0] == [];
  }

  /** The addresses that were kept. */
  ghost function Kept(addr: seq<seq<Byte>>, addrnum: nat): seq<seq<Byte>>
    requires |addr| == 8
  {
    addr[..Min8(addrnum)]
  }

  lemma {:induction false} KeptGood(addr: seq<seq<Byte>>, addrnum: nat, addrttl: Word, recs: seq<Rec>, qtype: seq<Byte>)
    requires Sampled(addr, addrnum, addrttl, recs, qtype)
    ensures |addr| == 8 && GoodSample(Kept(addr, addrnum), Addresses(recs, qtype)) && addrttl == LastTtl(recs, qtype)
    ensures forall i :: 0 <= i < Min8(addrnum) ==> |addr[i]| == 4
  {
    hide Addresses;
    var from := Addresses(recs, qtype);
    forall i | 0 <= i < Min8(addrnum) ensures |addr[i]| == 4 {
      assert addr[i] == Kept(addr, addrnum)[i] && addr[i] in multiset(Kept(addr, addrnum));
      assert addr[i] in multiset(from) && addr[i] in from;
      AddressesShort(recs, qtype);
    }
  }

  lemma {:induction false} AddressesShort(recs: seq<Rec>, qtype: seq<Byte>)
    ensures forall a :: a in Addresses(recs, qtype) ==> |a| == 4
    decreases |recs|
  {
    if recs != [] {
      AddressesShort(recs[..|recs| - 1], qtype);
    }
  }

  /** The address records of the answer. */
  method AnswerAddresses(m: Message, q: seq<Byte>, addrttl: Word, addr: seq<seq<Byte>>, addrnum: nat)
    returns (st: Status)
    requires m.Complete() && Roomy(m) && IsName(q) && |q| <= MAXNAME && |addr| == 8
    requires forall i :: 0 <= i < Min8(addrnum) ==> |addr[i]| == 4
    modifies m`dpos, m`cur, m`ms, m`an, m`ns, m`ar, m.r`len, m.r`nb, m.r`nameNum, m.r.msg, m.r.names, m.r.namePtr
    ensures !st.Failed?
    ensures st.Done? ==>
      m.Complete() && Roomy(m) && m.Flags() == old(m.Flags()) && m.ns == old(m.ns) && m.ar == old(m.ar)
    ensures st.Done? ==>
      Answered(old(m.ms), old(m.an), m.ms, m.an,
        AddressRRs(Kept(addr, addrnum), Lower(q), Told(m.flaghidettl, addrttl)))
    ensures st.Beyond? ==> m.r.len > REACH
  {
    hide Message.Complete, Message.Flags, Roomy, IsName, Lower, Added;
    ghost var all := AddressRRs(Kept(addr, addrnum), Lower(q), Told(m.flaghidettl, addrttl));
    st := Done;
    AnsweredNone(m.ms, m.an);
    assert all[..0] == [];
    for i := 0 to addrnum
      invariant m.Complete() && Roomy(m) && m.Flags() == old(m.Flags()) && m.ns == old(m.ns) && m.ar == old(m.ar)
      invariant st.Done? && Answered(old(m.ms), old(m.an), m.ms, m.an, all[..Min8(i)])
    {
      if i < 8 {
        ghost var ms1, an1 := m.ms, m.an;
        st := AddAddress(m, Answer, q, addrttl, addr[i], 0);
        assert BytesAt(addr[i], 0, 4) == Some((Raw(addr[i]), 4)) by { assert addr[i][0..4] == addr[i]; }
        if !st.Done? { return; }
        AnsweredMore(old(m.ms), old(m.an), ms1, an1, all[..i], m.ms, m.an, all[i]);
        assert all[..i] + [all[i]] == all[..i + 1];
      }
    }
    assert all[..Min8(addrnum)] == all;
  }

  lemma {:induction false} AnsweredNone(ms: seq<Mark>, an: nat)
    ensures Answered(ms, an, ms, an, [])
  {
    assert Log(ms) + [] == Log(ms);
  }

  lemma {:induction false} AnsweredBoth(ms0: seq<Mark>, an0: nat, ms1: seq<Mark>, an1: nat, l: seq<RR>,
                                        ms2: seq<Mark>, an2: nat, k: seq<RR>)
    requires Answered(ms0, an0, ms1, an1, l) && Answered(ms1, an1, ms2, an2, k)
    ensures Answered(ms0, an0, ms2, an2, l + k)
  {
    AddedMore(ms0, ms1, ms2, l, k);
  }

  /** All answers from one name. */
  method AnswerNode(c: Cdb, m: Message, q: seq<Byte>, wild: seq<Byte>, qtype: seq<Byte>, v: View)
    returns (st: Status, flagfound: bool, ghost recs: seq<Rec>, ghost l: seq<RR>, ghost sample: seq<seq<Byte>>)
    requires Loaded(c, v.rs) && |wild| <= MAXNAME && m.Complete() && Roomy(m) && IsName(q) && |q| <= MAXNAME
    modifies c, m`dpos, m`cur, m`ms, m`an, m`ns, m`ar, m.r`len, m.r`nb, m.r`nameNum, m.r.msg, m.r.names, m.r.namePtr
    ensures st.Failed? ==>
      match Shown(v, wild, |wild| != |q|) case None => true case Some(all) =>
        Ordinary(all, Lower(q), qtype, m.flaghidettl).None?
    ensures st.Done? ==>
      m.Complete() && Roomy(m) && m.Flags() == old(m.Flags()) && m.ns == old(m.ns) && m.ar == old(m.ar)
    ensures st.Done? ==> Shown(v, wild, |wild| != |q|) == Some(recs) && flagfound == (recs != [])
    ensures st.Done? ==> Ordinary(recs, Lower(q), qtype, m.flaghidettl) == Some(l) && GoodSample(sample,
      Addresses(recs, qtype))
    ensures st.Done? ==>
      Answered(old(m.ms), old(m.an), m.ms, m.an,
        l + AddressRRs(sample, Lower(q), Told(m.flaghidettl, LastTtl(recs, qtype))))
    ensures st.Beyond? ==> m.r.len > REACH
  {
    hide Message.Complete, Message.Flags, Roomy, IsName, Lower, Ordinary, Sampled, Shown, Answered, AddressRRs,
      GoodSample, Addresses, LastTtl;
    var addr := new seq<Byte>[8](_ => []);
    var addrnum, addrttl;
    sample := [];
    st, flagfound, addrnum, addrttl, recs, l := CollectNode(c, m, q, wild, |wild| != |q|, qtype, v, addr);
    if !st.Done? { return; }
    ghost var ms1, an1 := m.ms, m.an;
    KeptGood(addr[..], addrnum, addrttl, recs, qtype);
    sample := Kept(addr[..], addrnum);
    st := AnswerAddresses(m, q, addrttl, addr[..], addrnum);
    if !st.Done? { return; }
    AnsweredBoth(old(m.ms), old(m.an), ms1, an1, l, m.ms, m.an,
      AddressRRs(sample, Lower(q), Told(m.flaghidettl, addrttl)));
  }

  /** The second loop of doit: from q up to the zone, until a name has visible records. */
  method FindAnswer(c: Cdb, m: Message, q: seq<Byte>, qtype: seq<Byte>, control: seq<Byte>, v: View)
    returns (st: Status, flagfound: bool, ghost rrs: seq<RR>, ghost sample: seq<seq<Byte>>)
    requires Loaded(c, v.rs) && m.Complete() && Roomy(m) && IsName(q) && |q| <= MAXNAME
    modifies c, m`dpos, m`cur, m`ms, m`an, m`ns, m`ar, m.r`len, m.r`nb, m.r`nameNum, m.r.msg, m.r.names, m.r.namePtr
    ensures st.Failed? ==> AnswerOf(v, q, qtype, control, m.flaghidettl, sample).NoAnswer?
    ensures st.Done? ==>
      m.Complete() && Roomy(m) && m.Flags() == old(m.Flags()) && m.ns == old(m.ns) && m.ar == old(m.ar)
    ensures st.Done? ==> AnswerOf(v, q, qtype, control, m.flaghidettl, sample) == Answering(!flagfound, rrs)
    ensures st.Done? ==> SampleOf(v, q, qtype, control, sample) && Answered(old(m.ms), old(m.an), m.ms, m.an, rrs)
    ensures st.Beyond? ==> m.r.len > REACH
  {
    hide Message.Complete, Message.Flags, Roomy, Lower, Ordinary, Shown, Answered, AddressRRs, GoodSample, Addresses,
      LastTtl, NodeOf, AnswerOf, SampleOf;
    var wild := q;
    sample, rrs, flagfound := [], [], false;
    AnsweredNone(m.ms, m.an);
    while true
      invariant IsName(wild) && |wild| <= MAXNAME && NodeOf(v, q, wild, control) == NodeOf(v, q, q, control)
      invariant m.Complete() && Roomy(m) && m.Flags() == old(m.Flags()) && m.ns == old(m.ns) && m.ar == old(m.ar)
      invariant !flagfound && sample == [] && rrs == [] && Answered(old(m.ms), old(m.an), m.ms, m.an, [])
      decreases |wild|
    {
      ghost var recs, l;
      ghost var ms1, an1 := m.ms, m.an;
      st, flagfound, recs, l, sample := AnswerNode(c, m, q, wild, qtype, v);
      if st.Failed? { AnswerFails(v, q, qtype, wild, control, m.flaghidettl, sample); }
      if !st.Done? { return; }
      rrs := l + AddressRRs(sample, Lower(q), Told(m.flaghidettl, LastTtl(recs, qtype)));
      AnsweredBoth(old(m.ms), old(m.an), ms1, an1, [], m.ms, m.an, rrs);
      assert [] + rrs == rrs;
      if flagfound {
        AnswerFound(v, q, qtype, wild, control, m.flaghidettl, recs, l, sample);
        return;
      }
      NothingThere(v, q, qtype, wild, control, m.flaghidettl, recs, l, sample);
      if |wild| == |control| { return; }
      if wild[0] == 0 { return; }
      wild := Parent(wild);
    }
  }

  lemma {:induction false} AnswerFails(v: View, q: seq<Byte>, qtype: seq<Byte>, wild: seq<Byte>, control: seq<Byte>,
                                       masked: bool, sample: seq<seq<Byte>>)
    requires IsName(q) && IsName(wild) && NodeOf(v, q, wild, control) == NodeOf(v, q, q, control)
    requires Shown(v, wild, |wild| != |q|).Some? ==>
      Ordinary(Shown(v, wild, |wild| != |q|).value, Lower(q), qtype, masked).None?
    ensures AnswerOf(v, q, qtype, control, masked, sample).NoAnswer?
  {
    hide Shown, Lower;
    assert Ordinary([], Lower(q), qtype, masked) == Some([]);
  }

  lemma {:induction false} AnswerFound(v: View, q: seq<Byte>, qtype: seq<Byte>, wild: seq<Byte>, control: seq<Byte>,
                                       masked: bool,
                                       recs: seq<Rec>, l: seq<RR>, sample: seq<seq<Byte>>)
    requires IsName(q) && IsName(wild) && NodeOf(v, q, wild, control) == NodeOf(v, q, q, control)
    requires Shown(v, wild, |wild| != |q|) == Some(recs) && recs != []
    requires Ordinary(recs, Lower(q), qtype, masked) == Some(l) && GoodSample(sample, Addresses(recs, qtype))
    ensures AnswerOf(v, q, qtype, control, masked, sample) ==
            Answering(false, l + AddressRRs(sample, Lower(q), Told(masked, LastTtl(recs, qtype))))
    ensures SampleOf(v, q, qtype, control, sample)
  {
    hide Shown, Lower, Ordinary, GoodSample, Addresses;
  }

  /** A name without visible records adds nothing, and the search goes on above it or is over. */
  lemma {:induction false} NothingThere(v: View, q: seq<Byte>, qtype: seq<Byte>, wild: seq<Byte>, control: seq<Byte>,
                                        masked: bool,
                                        recs: seq<Rec>, l: seq<RR>, sample: seq<seq<Byte>>)
    requires IsName(q) && IsName(wild) && NodeOf(v, q, wild, control) == NodeOf(v, q, q, control)
    requires Shown(v, wild, |wild| != |q|) == Some(recs) && recs == []
    requires Ordinary(recs, Lower(q), qtype, masked) == Some(l) && GoodSample(sample, Addresses(recs, qtype))
    ensures sample == [] && l + AddressRRs(sample, Lower(q), Told(masked, LastTtl(recs, qtype))) == []
    ensures if |wild| == |control| || wild[0] == 0 then
              AnswerOf(v, q, qtype, control, masked, sample) == Answering(true, [])
                && SampleOf(v, q, qtype, control, sample)
            else NodeOf(v, q, Parent(wild), control) == NodeOf(v, q, q, control)
  {
    hide Shown, Lower;
  }
}
