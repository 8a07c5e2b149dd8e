/** The rest of doit of src/tdlookup.c: authority records, addresses of the hosts named so far, the size
    cut, and the whole reply. */
module TdReply {
  import opened Basics
  import opened Bytes
  import opened DnsName
  import opened DnsPacket
  import opened DnsCompress
  import opened RecordData
  import opened CdbSpec
  import opened CdbFile
  import opened CdbReader
  import opened ResponseWriter
  import opened MessageWriter
  import opened TdRecords
  import opened TdFind
  import opened TdMessage
  import opened TdSpec
  import opened Tdlookup

  lemma {:induction false} TypedStep(done: seq<Rec>, x: Rec, t: seq<Byte>, owner: seq<Byte>, masked: bool,
                                     glue: bool, l: seq<RR>)
    requires Typed(done, t, owner, masked, glue) == Some(l)
    ensures var next := Typed(done + [x], t, owner, masked, glue);
      if x.rtype != t then next == Some(l)
      else
        match RenderAs(x, glue)
        case None => next == None
        case Some(data) => next == Some(l + [RR(owner, t, Told(masked, x.ttl), data)])
  {
    hide RenderAs;
    assert (done + [x])[..|done|] == done;
  }

  lemma {:induction false} TypedPrefix(a: seq<Rec>, b: seq<Rec>, t: seq<Byte>, owner: seq<Byte>, masked: bool,
                                       glue: bool)
    requires Typed(a, t, owner, masked, glue).None?
    ensures Typed(a + b, t, owner, masked, glue).None?
    decreases |b|
  {
    hide RenderAs;
    if b == [] {
      assert a + b == a;
    } else {
      assert (a + b)[..|a + b| - 1] == a + b[..|b| - 1];
      TypedPrefix(a, b[..|b| - 1], t, owner, masked, glue);
    }
  }

  lemma {:induction false} TypedFails(vals0: seq<seq<Byte>>, v: View, done: seq<Rec>, vals: seq<seq<Byte>>,
                                      t: seq<Byte>, owner: seq<Byte>, masked: bool, glue: bool)
    requires Progress(vals0, false, v, done, vals) && Typed(done, t, owner, masked, glue).None?
    ensures match All(vals0, false, v.loc, v.now) case None => true case Some(recs) =>
      Typed(recs, t, owner, masked, glue).None?
  {
    hide All, Typed;
    match All(vals, false, v.loc, v.now)
    case None =>
    case Some(recs) => TypedPrefix(done, recs, t, owner, masked, glue);
  }

  /** The records l have been added, all in one section. */
  ghost predicate AddedIn(x: Section, ms0: seq<Mark>, ns0: nat, ar0: nat, ms: seq<Mark>, ns: nat, ar: nat, l: seq<RR>) {
    && Added(ms0, ms, l)
    && ns == ns0 + (if x == Authority then |l| else 0) && ar == ar0 + (if x == Additional then |l| else 0)
  }

  lemma {:induction false} AddedInStart(x: Section, ms: seq<Mark>, ns: nat, ar: nat)
    ensures AddedIn(x, ms, ns, ar, ms, ns, ar, [])
  {
    assert Log(ms) + [] == Log(ms);
  }

  lemma {:induction false} AddedInMore(x: Section, ms0: seq<Mark>, ns0: nat, ar0: nat, ms1: seq<Mark>, ns1: nat,
                                       ar1: nat, l: seq<RR>,
                                       ms2: seq<Mark>, ns2: nat, ar2: nat, rr: RR)
    requires AddedIn(x, ms0, ns0, ar0, ms1, ns1, ar1, l) && Added(ms1, ms2, [rr])
    requires ns2 == ns1 + (if x == Authority then 1 else 0) && ar2 == ar1 + (if x == Additional then 1 else 0)
    ensures AddedIn(x, ms0, ns0, ar0, ms2, ns2, ar2, l + [rr])
  {
    AddedMore(ms0, ms1, ms2, l, [rr]);
  }

  /** One record of the wanted type: name servers and addresses are written alike but for their data. */
  method AddOne(m: Message, d: seq<Byte>, rec: Rec, glue: bool) returns (st: Status)
    requires m.Complete() && Roomy(m) && IsName(d) && |d| <= MAXNAME
    requires |rec.rtype| == 2 && rec.dpos <= |rec.raw| <= DATASIZE && (glue ==> rec.rtype == A)
    modifies m`dpos, m`cur, m`ms, m`an, m`ns, m`ar, m.r`len, m.r`nb, m.r`nameNum, m.r.msg, m.r.names, m.r.namePtr
    ensures st.Failed? ==> RenderAs(rec, glue).None?
    ensures st.Done? ==> m.Complete() && Roomy(m) && m.Flags() == old(m.Flags()) && RenderAs(rec, glue).Some?
    ensures st.Done? ==> Added(old(m.ms), m.ms,
      [RR(Lower(d), rec.rtype, Told(m.flaghidettl, rec.ttl), RenderAs(rec, glue).value)])
    ensures st.Done? ==> Counted(if glue then Additional else Authority, old(m.an), old(m.ns), old(m.ar), m.an, m.ns,
      m.ar)
    ensures st.Beyond? ==> m.r.len > REACH
  {
    hide Message.Complete, Message.Flags, Roomy, IsName, Lower, Render, Added;
    if glue {
      st := AddAddress(m, Additional, d, rec.ttl, rec.raw, rec.dpos);
    } else {
      st := AddRecord(m, Authority, d, rec);
    }
  }

  /** All records of type t that name d shows: name servers into the authority section, addresses into
      the additional one. */
  method AddAll(c: Cdb, m: Message, d: seq<Byte>, t: seq<Byte>, v: View, glue: bool)
    returns (st: Status, ghost l: seq<RR>)
    requires Loaded(c, v.rs) && m.Complete() && Roomy(m) && IsName(d) && |d| <= MAXNAME && (glue ==> t == A)
    modifies c, m`dpos, m`cur, m`ms, m`an, m`ns, m`ar, m.r`len, m.r`nb, m.r`nameNum, m.r.msg, m.r.names, m.r.namePtr
    ensures st.Failed? ==>
      match Shown(v, d, false) case None => true case Some(recs) => Typed(recs, t, Lower(d), m.flaghidettl, glue).None?
    ensures st.Done? ==> m.Complete() && Roomy(m) && m.Flags() == old(m.Flags()) && m.an == old(m.an)
    ensures st.Done? ==>
      match Shown(v, d, false) case None => false case Some(recs) =>
        Typed(recs, t, Lower(d), m.flaghidettl, glue) == Some(l)
    ensures st.Done? ==>
      AddedIn(if glue then Additional else Authority, old(m.ms), old(m.ns), old(m.ar), m.ms, m.ns, m.ar, l)
    ensures st.Beyond? ==> m.r.len > REACH
  {
    hide Message.Complete, Message.Flags, Roomy, IsName, Lower, Cursor, Progress, First, All, Values, AddedIn,
      RenderAs, Added;
    ghost var x := if glue then Additional else Authority;
    Start(c, d, v.rs);
    ghost var vals, done: seq<Rec> := Values(v.rs, d), [];
    l := [];
    ProgressStart(vals, false, v);
    AddedInStart(x, m.ms, m.ns, m.ar);
    assert Typed(done, t, Lower(d), m.flaghidettl, glue) == Some(l);
    hide Typed;
    while true
      invariant Cursor(c, v.rs, d, vals) && Progress(Values(v.rs, d), false, v, done, vals)
      invariant m.Complete() && Roomy(m) && m.Flags() == old(m.Flags()) && m.an == old(m.an)
      invariant Typed(done, t, Lower(d), m.flaghidettl, glue) == Some(l)
      invariant AddedIn(x, old(m.ms), old(m.ns), old(m.ar), m.ms, m.ns, m.ar, l)
      decreases |vals|
    {
      var r, rec;
      ghost var rest;
      r, rec, rest := Find(c, d, false, v.loc, v.now, v.rs, vals);
      ProgressStep(Values(v.rs, d), false, v, done, vals);
      if r == 0 { return Done, l; }
      if r == -1 { return Failed, l; }
      TypedStep(done, rec, t, Lower(d), m.flaghidettl, glue, l);
      done, vals := done + [rec], rest;
      if rec.rtype == t {
        ghost var ms1, ns1, ar1 := m.ms, m.ns, m.ar;
        st := AddOne(m, d, rec, glue);
        if st.Failed? { TypedFails(Values(v.rs, d), v, done, vals, t, Lower(d), m.flaghidettl, glue); }
        if !st.Done? { return; }
        ghost var rr := RR(Lower(d), rec.rtype, Told(m.flaghidettl, rec.ttl), RenderAs(rec, glue).value);
        AddedInMore(x, old(m.ms), old(m.ns), old(m.ar), ms1, ns1, ar1, l, m.ms, m.ns, m.ar, rr);
        l := l + [rr];
      }
    }
  }

  /** The records met so far have no SOA among them. */
  lemma {:induction false} SoaAhead(done: seq<Rec>, rest: seq<Rec>, owner: seq<Byte>, masked: bool)
    requires !HasType(done, SOA)
    ensures FirstSoa(done + rest, owner, masked) == FirstSoa(rest, owner, masked)
    decreases |done|
  {
    hide Render;
    if done == [] {
      assert done + rest == rest;
    } else {
      assert (done + rest)[1..] == done[1..] + rest;
      assert forall i :: 0 <= i < |done[1..]| ==> done[1..][i] == done[i + 1];
      SoaAhead(done[1..], rest, owner, masked);
    }
  }

  /** When the search reaches its first SOA record, or its end, the answer is known. */
  lemma {:induction false} SoaFound(vals0: seq<seq<Byte>>, v: View, done: seq<Rec>, vals: seq<seq<Byte>>,
                                    owner: seq<Byte>, masked: bool)
    requires Progress(vals0, false, v, done, vals) && !HasType(done, SOA)
    ensures match First(vals, false, v.loc, v.now)
            case Broken => All(vals0, false, v.loc, v.now) == None
            case End => All(vals0, false, v.loc, v.now) == Some(done) && FirstSoa(done, owner, masked) == Some([])
            case Next(rec, rest) =>
              rec.rtype == SOA ==>
                match All(vals0, false, v.loc, v.now)
                case None => true
                case Some(recs) =>
                  FirstSoa(recs, owner, masked) ==
                    match Render(rec) case None => None case Some(data) =>
                      Some([RR(owner, SOA, Told(masked, rec.ttl), data)])
  {
    ProgressStep(vals0, false, v, done, vals);
    FirstOfAll(vals, false, v.loc, v.now);
    hide First, All, Render, HasType;
    match First(vals, false, v.loc, v.now)
    case Broken =>
    case End =>
      SoaAhead(done, [], owner, masked);
      assert done + [] == done;
    case Next(rec, rest) =>
      match All(vals, false, v.loc, v.now) {
        case None =>
        case Some(recs) => SoaAhead(done, recs, owner, masked);
      }
  }

  /** The SOA record of the zone into the authority section. */
  method AddSoa(c: Cdb, m: Message, control: seq<Byte>, v: View) returns (st: Status, ghost l: seq<RR>)
    requires Loaded(c, v.rs) && m.Complete() && Roomy(m) && IsName(control) && |control| <= MAXNAME
      && Shown(v, control, false).Some?
    modifies c, m`dpos, m`cur, m`ms, m`an, m`ns, m`ar, m.r`len, m.r`nb, m.r`nameNum, m.r.msg, m.r.names, m.r.namePtr
    ensures st.Failed? ==> FirstSoa(Shown(v, control, false).value, Lower(control), m.flaghidettl).None?
    ensures st.Done? ==> m.Complete() && Roomy(m) && m.Flags() == old(m.Flags()) && m.an == old(m.an)
    ensures st.Done? ==> FirstSoa(Shown(v, control, false).value, Lower(control), m.flaghidettl) == Some(l)
    ensures st.Done? ==> AddedIn(Authority, old(m.ms), old(m.ns), old(m.ar), m.ms, m.ns, m.ar, l)
    ensures st.Beyond? ==> m.r.len > REACH
  {
    NoTypes();
    hide Message.Complete, Message.Flags, Roomy, IsName, Lower, Cursor, Progress, First, All, Values, AddedIn,
      Render, FirstSoa, HasType;
    Start(c, control, v.rs);
    ghost var vals, done: seq<Rec> := Values(v.rs, control), [];
    l := [];
    ProgressStart(vals, false, v);
    AddedInStart(Authority, m.ms, m.ns, m.ar);
    while true
      invariant Cursor(c, v.rs, control, vals) && Progress(Values(v.rs, control), false, v, done, vals)
      invariant m.Complete() && Roomy(m) && m.Flags() == old(m.Flags()) && m.an == old(m.an)
      invariant m.ms == old(m.ms) && m.ns == old(m.ns) && m.ar == old(m.ar)
      invariant !HasType(done, SOA)
      decreases |vals|
    {
      var r, rec;
      ghost var rest;
      r, rec, rest := Find(c, control, false, v.loc, v.now, v.rs, vals);
      ProgressStep(Values(v.rs, control), false, v, done, vals);
      SoaFound(Values(v.rs, control), v, done, vals, Lower(control), m.flaghidettl);
      if r == 0 { return Done, []; }
      if r == -1 { st := Failed; return; }
      if rec.rtype == SOA {
        st := AddRecord(m, Authority, control, rec);
        if !st.Done? { return; }
        l := [RR(Lower(control), SOA, Told(m.flaghidettl, rec.ttl), Render(rec).value)];
        AddedInMore(Authority, old(m.ms), old(m.ns), old(m.ar), old(m.ms), old(m.ns), old(m.ar), [], m.ms, m.ns,
          m.ar, l[0]);
        assert [] + [l[0]] == l;
        return;
      }
      HasTypeAppend(done, rec, SOA);
      done, vals := done + [rec], rest;
    }
  }

  /** The authority section. */
  method AddAuthority(c: Cdb, m: Message, control: seq<Byte>, flagauthoritative: bool, anpos: nat, v: View)
    returns (st: Status, ghost l: seq<RR>)
    requires Loaded(c, v.rs) && m.Complete() && Roomy(m) && IsName(control) && |control| <= MAXNAME
      && Shown(v, control, false).Some?
    requires anpos == m.r.len <==> m.ms == []
    modifies c, m`dpos, m`cur, m`ms, m`an, m`ns, m`ar, m.r`len, m.r`nb, m.r`nameNum, m.r.msg, m.r.names, m.r.namePtr
    ensures st.Failed? ==> AuthorityOf(v, control, flagauthoritative, old(Log(m.ms)), m.flaghidettl).None?
    ensures st.Done? ==> m.Complete() && Roomy(m) && m.Flags() == old(m.Flags()) && m.an == old(m.an)
    ensures st.Done? ==> AuthorityOf(v, control, flagauthoritative, old(Log(m.ms)), m.flaghidettl) == Some(l)
    ensures st.Done? ==> AddedIn(Authority, old(m.ms), old(m.ns), old(m.ar), m.ms, m.ns, m.ar, l)
    ensures st.Beyond? ==> m.r.len > REACH
  {
    hide Message.Complete, Message.Flags, Roomy, IsName, Lower, AddedIn, FirstSoa, Typed, Shown, Has;
    l := [];
    if flagauthoritative && m.r.len == anpos {
      assert Log(m.ms) == [];
      st, l := AddSoa(c, m, control, v);
    } else {
      assert flagauthoritative ==> Log(m.ms) != [] by { assert |Log(m.ms)| == |m.ms|; }
      var wanted := Want(m, control, NS);
      if wanted {
        st, l := AddAll(c, m, control, NS, v, false);
      } else {
        AddedInStart(Authority, m.ms, m.ns, m.ar);
        st := Done;
      }
    }
  }

  // ---------- Hosts named by the records so far ----------

  /** Name server records hold one name, mail exchanger records two bytes and a name. */
  ghost predicate Shaped(l: seq<RR>) {
    forall i :: 0 <= i < |l| ==> ShapedOne(l[i])
  }

  ghost predicate ShapedOne(rr: RR) {
    && (rr.rtype == NS ==> |rr.data| == 1 && rr.data[0].Name?)
    && (rr.rtype == MX ==> |rr.data| == 2 && rr.data[0].Raw? && |rr.data[0].s| == 2 && rr.data[1].Name?)
  }

  lemma {:induction false} RenderShaped(owner: seq<Byte>, rec: Rec, ttl: Word)
    ensures Render(rec).Some? ==> ShapedOne(RR(owner, rec.rtype, ttl, Render(rec).value))
  {
  }

  lemma {:induction false} OrdinaryShaped(recs: seq<Rec>, owner: seq<Byte>, qtype: seq<Byte>, masked: bool)
    ensures Ordinary(recs, owner, qtype, masked).Some? ==> Shaped(Ordinary(recs, owner, qtype, masked).value)
    decreases |recs|
  {
    hide Render, ShapedOne, Wanted, IsAddress, HasType;
    if recs != [] {
      var x := recs[|recs| - 1];
      OrdinaryShaped(recs[..|recs| - 1], owner, qtype, masked);
      RenderShaped(owner, x, Told(masked, x.ttl));
    }
  }

  lemma {:induction false} TypedShaped(recs: seq<Rec>, t: seq<Byte>, owner: seq<Byte>, masked: bool)
    ensures Typed(recs, t, owner, masked, false).Some? ==> Shaped(Typed(recs, t, owner, masked, false).value)
    decreases |recs|
  {
    hide Render, ShapedOne;
    if recs != [] {
      var x := recs[|recs| - 1];
      TypedShaped(recs[..|recs| - 1], t, owner, masked);
      RenderShaped(owner, x, Told(masked, x.ttl));
    }
  }

  lemma {:induction false} SoaShaped(recs: seq<Rec>, owner: seq<Byte>, masked: bool)
    ensures FirstSoa(recs, owner, masked).Some? ==> Shaped(FirstSoa(recs, owner, masked).value)
    decreases |recs|
  {
    if recs != [] {
      SoaShaped(recs[1..], owner, masked);
    }
  }

  lemma {:induction false} AnswerShaped(v: View, q: seq<Byte>, qtype: seq<Byte>, control: seq<Byte>, masked: bool,
                                        sample: seq<seq<Byte>>)
    requires IsName(q) && AnswerOf(v, q, qtype, control, masked, sample).Answering?
    ensures Shaped(AnswerOf(v, q, qtype, control, masked, sample).rrs)
  {
    hide NodeOf, Ordinary, ShapedOne, LastTtl;
    match NodeOf(v, q, q, control)
    case BadNode =>
    case Nothing =>
    case NodeAt(_, recs) =>
      OrdinaryShaped(recs, Lower(q), qtype, masked);
      AddressesShaped(sample, Lower(q), Told(masked, LastTtl(recs, qtype)));
  }

  lemma {:induction false} AddressesShaped(sample: seq<seq<Byte>>, owner: seq<Byte>, ttl: Word)
    ensures Shaped(AddressRRs(sample, owner, ttl))
  {
  }

  lemma {:induction false} AuthorityShaped(v: View, control: seq<Byte>, auth: bool, answer: seq<RR>, masked: bool)
    requires AuthorityOf(v, control, auth, answer, masked).Some?
    ensures Shaped(AuthorityOf(v, control, auth, answer, masked).value)
  {
    hide Shown, Typed, FirstSoa, Has, ShapedOne;
    match Shown(v, control, false)
    case None =>
    case Some(recs) =>
      SoaShaped(recs, Lower(control), masked);
      TypedShaped(recs, NS, Lower(control), masked);
  }

  /** A record in the message is still there when the message is cut behind it. */
  lemma {:induction false} RecordPrefix(buf: seq<Byte>, to: nat, m: Mark)
    requires RecordIn(buf, m) && m.end <= to <= |buf|
    ensures RecordIn(buf[..to], m)
  {
    hide At, EndAt, IsName, PiecesAt, Big16;
    assert forall p :: 0 <= p < to ==> buf[..to][p] == buf[p];
    OwnerStays(buf, buf[..to], m);
    DataStays(buf, buf[..to], m);
  }

  /** The host of a name server or mail exchanger record, read from its data. */
  lemma {:induction false} TargetRead(buf: seq<Byte>, m: Mark)
    requires RecordIn(buf, m) && ShapedOne(Said(m))
    ensures m.rtype == NS || m.rtype == MX ==>
      var from := if m.rtype == NS then m.body else m.body + 2;
      && GetName(buf, from).Some?
      && var d := Lower(GetName(buf, from).value.name);
         HostOf(Said(m)) == Some(d) && IsName(d) && |d| <= MAXNAME && Lower(d) == d
    ensures m.rtype != NS && m.rtype != MX ==> HostOf(Said(m)).None?
  {
    hide At, EndAt, IsName, PiecesAt, FixedIn, GetName, OwnerIn;
    if m.rtype == NS || m.rtype == MX {
      var from := if m.rtype == NS then m.body else m.body + 2;
      ReadName(buf, m.u, m.body, m.data, m.end, if m.rtype == NS then 0 else 1);
      GetNameIsName(buf, from);
      LowerIsName(GetName(buf, from).value.name);
      LowerIdempotent(GetName(buf, from).value.name);
    }
  }

  /** One round of the loop over the records so far, up to the search: the host, and the next record. */
  method ReadTarget(response: seq<Byte>, bpos: nat, ghost mk: Mark) returns (host: Option<seq<Byte>>, next: nat)
    requires RecordIn(response, mk) && ShapedOne(Said(mk)) && bpos == mk.start
    ensures host == HostOf(Said(mk)) && next == mk.end
    ensures host.Some? ==> IsName(host.value) && |host.value| <= MAXNAME && Lower(host.value) == host.value
  {
    hide RecordIn, IsName, Lower, GetName, SkipName, Big16, HostOf, ShapedOne;
    HeadRead(response, mk);
    TargetRead(response, mk);
    host := None;
    var x, pos, d1, u;
    pos := PacketSkipName(response, bpos);
    pos, x := PacketCopy(response, pos, 10);
    if x[..2] == NS || x[..2] == MX {
      if x[..2] == NS {
        u, d1 := PacketGetName(response, pos);
      } else {
        u, d1 := PacketGetName(response, pos + 2);
      }
      host := Some(Lower(d1));
    }
    next := pos + Big16(x[8], x[9]);
  }

  /** The records follow each other up to arpos. */
  ghost predicate Tiled(ms: seq<Mark>, arpos: nat) {
    forall k :: 0 <= k < |ms| ==> TiledAt(ms, arpos, k)
  }

  ghost predicate TiledAt(ms: seq<Mark>, arpos: nat, k: nat)
    requires k < |ms|
  {
    ms[k].start < ms[k].end <= arpos && ms[k].end == if k + 1 < |ms| then ms[k + 1].start else arpos
  }

  lemma {:induction false} TiledNow(m: Message)
    requires m.Complete()
    ensures Tiled(m.ms, m.r.len) && m.r.len <= m.r.msg.Length
    ensures m.ms == [] ==> m.r.len == m.tctarget
    ensures m.ms != [] ==> m.ms[0].start == m.tctarget
  {
    CompleteRecords(m);
    hide Message.Complete, RecordsIn, RecordIn;
    forall k | 0 <= k < |m.ms| ensures TiledAt(m.ms, m.r.len, k) {
      MarkAt(m.r.msg[..m.r.len], m.tctarget, m.r.len, m.ms, k);
    }
  }

  /** The k-th of the first records, as it stands in front of arpos. */
  lemma {:induction false} RecordBefore(m: Message, ms0: seq<Mark>, arpos: nat, k: nat)
    requires m.Complete() && ms0 <= m.ms && Tiled(ms0, arpos) && k < |ms0|
    ensures arpos <= m.r.msg.Length && RecordIn(m.r.msg[..arpos], ms0[k]) && TiledAt(ms0, arpos, k)
  {
    hide Message.Complete, RecordsIn, RecordIn;
    TiledNow(m);
    TiledPrefix(ms0, arpos, m.ms, m.r.len);
    CompleteRecords(m);
    MarkAt(m.r.msg[..m.r.len], m.tctarget, m.r.len, m.ms, k);
    assert m.ms[..|ms0|][k] == m.ms[k] && TiledAt(ms0, arpos, k);
    RecordPrefix(m.r.msg[..m.r.len], arpos, ms0[k]);
    assert m.r.msg[..m.r.len][..arpos] == m.r.msg[..arpos];
  }

  lemma {:induction false} GlueStep(v: View, log0: seq<RR>, k: nat, log: seq<RR>, masked: bool)
    requires k < |log0|
    ensures var todo := log0[k..];
      GlueFrom(v, todo, log, masked) ==
        match HostOf(log0[k])
        case None => GlueFrom(v, log0[k + 1..], log, masked)
        case Some(host) =>
          match Gluing(v, log, host, masked)
          case None => None
          case Some(l) => GlueFrom(v, log0[k + 1..], log + l, masked)
  {
    hide Shown, Typed, Has, HostOf;
    assert log0[k..][1..] == log0[k + 1..];
    assert log + [] == log;
  }

  /** The addresses of one host, unless the response already has one. */
  method AddHost(c: Cdb, m: Message, d1: seq<Byte>, v: View) returns (st: Status, ghost l: seq<RR>)
    requires Loaded(c, v.rs) && m.Complete() && Roomy(m) && IsName(d1) && |d1| <= MAXNAME && Lower(d1) == d1
    modifies c, m`dpos, m`cur, m`ms, m`an, m`ns, m`ar, m.r`len, m.r`nb, m.r`nameNum, m.r.msg, m.r.names, m.r.namePtr
    ensures st.Failed? ==> Gluing(v, old(Log(m.ms)), d1, m.flaghidettl).None?
    ensures st.Done? ==>
      m.Complete() && Roomy(m) && m.Flags() == old(m.Flags()) && m.an == old(m.an) && m.ns == old(m.ns)
    ensures st.Done? ==> Gluing(v, old(Log(m.ms)), d1, m.flaghidettl) == Some(l)
    ensures st.Done? ==>
      old(m.ms) <= m.ms && Log(m.ms) == old(Log(m.ms)) + l && m.ar == old(m.ar) + |m.ms| - |old(m.ms)|
    ensures st.Beyond? ==> m.r.len > REACH
  {
    hide Message.Complete, Message.Flags, Roomy, IsName, Lower, Shown, Typed, Has, Added;
    var wanted := Want(m, d1, A);
    if wanted {
      st, l := AddAll(c, m, d1, A, v, true);
      if st.Done? { AddedMeans(old(m.ms), m.ms, l); }
    } else {
      st, l := Done, [];
      assert Log(m.ms) + [] == Log(m.ms);
    }
  }

  /** What is added for a host. */
  ghost function Gluing(v: View, log: seq<RR>, host: seq<Byte>, masked: bool): Option<seq<RR>> {
    if Has(log, host, A) then Some([])
    else match Shown(v, host, false) case None => None case Some(recs) => Typed(recs, A, host, masked, true)
  }

  lemma {:induction false} ShapedAt(ms: seq<Mark>, k: nat)
    requires Shaped(Log(ms)) && k < |ms|
    ensures |Log(ms)| == |ms| && Log(ms)[k] == Said(ms[k]) && ShapedOne(Said(ms[k]))
  {
    hide ShapedOne;
    assert ShapedOne(Log(ms)[k]);
  }

  /** The host of a finished record, read back from the response. */
  method TargetAt(m: Message, bpos: nat, arpos: nat, ghost ms0: seq<Mark>, ghost k: nat)
    returns (host: Option<seq<Byte>>, next: nat)
    requires m.Complete() && k < |ms0| && bpos == ms0[k].start
    requires ms0 <= m.ms && Tiled(ms0, arpos) && ShapedOne(Said(ms0[k]))
    ensures host == HostOf(Said(ms0[k])) && next == if k + 1 < |ms0| then ms0[k + 1].start else arpos
    ensures host.Some? ==> IsName(host.value) && |host.value| <= MAXNAME && Lower(host.value) == host.value
  {
    hide Message.Complete, RecordIn, IsName, Lower, HostOf, ShapedOne, Tiled, Said;
    RecordBefore(m, ms0, arpos, k);
    host, next := ReadTarget(m.r.msg[..arpos], bpos, ms0[k]);
  }

  /** One record of the loop that adds glue. */
  method GlueOne(c: Cdb, m: Message, bpos: nat, arpos: nat, v: View, ghost ms0: seq<Mark>, ghost k: nat)
    returns (st: Status, next: nat)
    requires Loaded(c, v.rs) && m.Complete() && Roomy(m) && k < |ms0| && bpos == ms0[k].start
    requires ms0 <= m.ms && Tiled(ms0, arpos) && Shaped(Log(ms0))
    modifies c, m`dpos, m`cur, m`ms, m`an, m`ns, m`ar, m.r`len, m.r`nb, m.r`nameNum, m.r.msg, m.r.names, m.r.namePtr
    ensures next == if k + 1 < |ms0| then ms0[k + 1].start else arpos
    ensures st.Failed? ==> GlueFrom(v, Log(ms0)[k..], old(Log(m.ms)), m.flaghidettl).None?
    ensures st.Done? ==>
      m.Complete() && Roomy(m) && m.Flags() == old(m.Flags()) && m.an == old(m.an) && m.ns == old(m.ns)
    ensures st.Done? ==>
      GlueFrom(v, Log(ms0)[k..], old(Log(m.ms)), m.flaghidettl) ==
        GlueFrom(v, Log(ms0)[k + 1..], Log(m.ms), m.flaghidettl)
    ensures st.Done? ==> ms0 <= m.ms && m.ar == old(m.ar) + |m.ms| - |old(m.ms)|
    ensures st.Beyond? ==> m.r.len > REACH
  {
    ShapedAt(ms0, k);
    hide *;
    GlueStep(v, Log(ms0), k, Log(m.ms), m.flaghidettl);
    var host;
    host, next := TargetAt(m, bpos, arpos, ms0, k);
    st := Done;
    if host.Some? {
      ghost var l;
      st, l := AddHost(c, m, host.value, v);
    }
  }

  /** The additional section: the loop over the records so far, from anpos to arpos. */
  method AddGlue(c: Cdb, m: Message, anpos: nat, arpos: nat, v: View) returns (st: Status)
    requires Loaded(c, v.rs) && m.Complete() && Roomy(m) && anpos == m.tctarget && arpos == m.r.len && Shaped(Log(m.ms))
    modifies c, m`dpos, m`cur, m`ms, m`an, m`ns, m`ar, m.r`len, m.r`nb, m.r`nameNum, m.r.msg, m.r.names, m.r.namePtr
    ensures st.Failed? ==> GlueFrom(v, old(Log(m.ms)), old(Log(m.ms)), m.flaghidettl).None?
    ensures st.Done? ==>
      m.Complete() && Roomy(m) && m.Flags() == old(m.Flags()) && m.an == old(m.an) && m.ns == old(m.ns)
    ensures st.Done? ==> GlueFrom(v, old(Log(m.ms)), old(Log(m.ms)), m.flaghidettl) == Some(Log(m.ms))
    ensures st.Done? ==> old(m.ms) <= m.ms && m.ar == old(m.ar) + |m.ms| - |old(m.ms)|
    ensures st.Beyond? ==> m.r.len > REACH
  {
    TiledNow(m);
    TiledStart(m);
    hide *;
    ghost var ms0, k := m.ms, 0;
    var bpos := anpos;
    assert Log(ms0)[0..] == Log(ms0);
    while bpos < arpos
      invariant k <= |ms0| && bpos == if k < |ms0| then ms0[k].start else arpos
      invariant ms0 <= m.ms && m.Complete() && Roomy(m) && m.Flags() == old(m.Flags())
      invariant m.an == old(m.an) && m.ns == old(m.ns) && m.ar == old(m.ar) + |m.ms| - |ms0|
      invariant GlueFrom(v, Log(ms0)[k..], Log(m.ms), m.flaghidettl) == GlueFrom(v, Log(ms0), Log(ms0), m.flaghidettl)
      decreases |ms0| - k
    {
      st, bpos := GlueOne(c, m, bpos, arpos, v, ms0, k);
      if !st.Done? { return; }
      k := k + 1;
    }
    assert k == |ms0| by { TiledEnds(ms0, arpos, k); }
    st := Done;
    GlueOver(v, Log(ms0), k, Log(m.ms), m.flaghidettl);
  }

  lemma {:induction false} TiledStart(m: Message)
    requires m.Complete()
    ensures m.tctarget == (if m.ms != [] then m.ms[0].start else m.r.len) && |Log(m.ms)| == |m.ms|
  {
    hide RecordIn;
  }

  lemma {:induction false} TiledEnds(ms: seq<Mark>, arpos: nat, k: nat)
    requires Tiled(ms, arpos) && k <= |ms| && (k < |ms| ==> ms[k].start >= arpos)
    ensures k == |ms|
  {
    assert k < |ms| ==> TiledAt(ms, arpos, k);
  }

  lemma {:induction false} TiledPrefix(ms0: seq<Mark>, arpos: nat, ms: seq<Mark>, len: nat)
    requires Tiled(ms0, arpos) && Tiled(ms, len) && ms0 <= ms
    ensures ms0 != [] ==> arpos <= len
  {
    if ms0 != [] {
      var k := |ms0| - 1;
      assert TiledAt(ms0, arpos, k) && TiledAt(ms, len, k);
    }
  }

  lemma {:induction false} AddedMeans(ms1: seq<Mark>, ms2: seq<Mark>, l: seq<RR>)
    requires Added(ms1, ms2, l)
    ensures ms1 <= ms2 && Log(ms2) == Log(ms1) + l && |ms2| == |ms1| + |l|
  {
    assert |Log(ms2)| == |ms2| && |Log(ms1)| == |ms1|;
  }

  lemma {:induction false} GlueOver(v: View, log0: seq<RR>, k: nat, log: seq<RR>, masked: bool)
    requires k == |log0|
    ensures GlueFrom(v, log0[k..], log, masked) == Some(log)
  {
  }
}
