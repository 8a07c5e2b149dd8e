/** doit of src/tdlookup.c as a whole: the response that is sent says what the specification says. */
module TdDoit {
  import opened Basics
  import opened Bytes
  import opened DnsName
  import opened DnsCompress
  import opened RecordData
  import opened CdbSpec
  import opened CdbFile
  import opened CdbReader
  import opened ResponseWriter
  import opened MessageWriter
  import opened HeaderBits
  import opened TdRecords
  import opened TdFind
  import opened TdMessage
  import opened TdSpec
  import opened Tdlookup
  import opened TdReply

  // ---------- Header bits ----------

  /** The two flag bytes after a reply: AA is cleared below a zone cut, and set with response code 3
      when the name does not exist. */
  ghost function FlagsFor(flags: seq<Byte>, auth: bool, nx: bool): seq<Byte>
    requires |flags| == 2
  {
    if !auth then [ClearAA(flags[0]), flags[1]]
    else if nx then [SetAA(flags[0]), NameError(flags[1])]
    else flags
  }

  // ---------- What is sent ----------

  /** Where the k-th record starts, or would. */
  ghost function StartIn(ms: seq<Mark>, k: nat, end: nat): nat {
    if k < |ms| then ms[k].start else end
  }

  /** The records of the reply that are sent. The whole reply is `whole`, with the records `all`. If it is
      authoritative and longer than 512 bytes it loses its additional records, and its authority records too
      when that does not bring it to 512 bytes. */
  ghost predicate Sends(m: Message, rep: Reply, whole: seq<Byte>, all: seq<Mark>)
    reads m, m.r
  {
    var an, ns := |rep.answer|, |rep.authority|;
    && Log(all) == rep.answer + rep.authority + rep.additional
    && Framed(whole, m.qname, m.qtrace, m.qfixed, m.tctarget, all, an, ns, |rep.additional|)
    && m.an == an
    && if !rep.auth || |whole| <= 512 then
         m.ms == all && m.ns == ns && m.ar == |rep.additional| && m.r.len == |whole|
       else if StartIn(all, an + ns, |whole|) <= 512 then
         an + ns <= |all| && m.ms == all[..an + ns] && m.ns == ns && m.ar == 0
           && m.r.len == StartIn(all, an + ns, |whole|)
       else
         an <= |all| && m.ms == all[..an] && m.ns == 0 && m.ar == 0 && m.r.len == StartIn(all, an, |whole|)
  }

  /** So the records sent are those of a first part of the sections. */
  lemma {:induction false} SendsLog(m: Message, rep: Reply, whole: seq<Byte>, all: seq<Mark>)
    requires Sends(m, rep, whole, all)
    ensures Log(m.ms) ==
      rep.answer + (if m.ns > 0 then rep.authority else []) + (if m.ar > 0 then rep.additional else [])
  {
    hide Framed;
    var l := rep.answer + rep.authority + rep.additional;
    assert |l| == |all|;
    assert l[..|rep.answer|] == rep.answer && l[..|rep.answer| + |rep.authority|] == rep.answer + rep.authority;
    LogUpto(all, |m.ms|);
  }

  lemma {:induction false} LogUpto(ms: seq<Mark>, k: nat)
    requires k <= |ms|
    ensures |Log(ms)| == |ms| && Log(ms[..k]) == Log(ms)[..k]
  {
  }

  /** The flags of a reply: AA is cleared below a zone cut, AA and the code of a name error are set when the
      name does not exist, and all other bits are those of the request. */
  lemma {:induction false} FlagsMeaning(flags: seq<Byte>, auth: bool, nx: bool)
    requires |flags| == 2
    ensures var f := FlagsFor(flags, auth, nx);
      && |f| == 2 && f[0] / 8 == flags[0] / 8 && f[0] % 4 == flags[0] % 4 && f[1] / 4 == flags[1] / 4
      && f[0] / 4 % 2 == (if !auth then 0 else if nx then 1 else flags[0] / 4 % 2)
      && f[1] % 4 == if auth && nx then 3 else flags[1] % 4
  {
    hide ClearAA, SetAA, NameError;
  }

  /** The records of three sections, where the first two ended at aupos and arpos. */
  lemma {:induction false} SectionStarts(m: Message, ms1: seq<Mark>, aupos: nat, ms2: seq<Mark>, arpos: nat)
    requires m.Complete() && ms1 <= ms2 <= m.ms && Tiled(ms1, aupos) && Tiled(ms2, arpos)
    requires (ms1 == [] ==> aupos == m.tctarget) && (ms2 == [] ==> arpos == m.tctarget)
    ensures m.StartOf(|ms1|) == aupos && m.StartOf(|ms2|) == arpos
  {
    TiledNow(m);
    hide Message.Complete;
    if ms1 != [] { StartBehind(m.ms, m.r.len, ms1, aupos); }
    if ms2 != [] { StartBehind(m.ms, m.r.len, ms2, arpos); }
  }

  lemma {:induction false} StartBehind(ms: seq<Mark>, len: nat, ms1: seq<Mark>, pos: nat)
    requires Tiled(ms, len) && ms1 <= ms && Tiled(ms1, pos) && ms1 != []
    ensures pos == if |ms1| < |ms| then ms[|ms1|].start else len
  {
    var k := |ms1| - 1;
    assert TiledAt(ms1, pos, k) && TiledAt(ms, len, k) && ms[..|ms1|][k] == ms[k];
  }

  /** The answer section, and the header bits. */
  method DoAnswer(c: Cdb, m: Message, q: seq<Byte>, qtype: seq<Byte>, control: seq<Byte>, flagauthoritative: bool,
                  v: View)
    returns (st: Status, ghost nx: bool, ghost rrs: seq<RR>, ghost sample: seq<seq<Byte>>)
    requires Loaded(c, v.rs) && m.Complete() && Roomy(m) && IsName(q) && |q| <= MAXNAME
    modifies c, m`dpos, m`cur, m`ms, m`an, m`ns, m`ar, m.r`len, m.r`nb, m.r`nameNum, m.r.msg, m.r.names, m.r.namePtr
    ensures st.Failed? ==> AnswerFor(v, q, qtype, control, flagauthoritative, m.flaghidettl, sample).NoAnswer?
    ensures st.Done? ==> m.Complete() && Roomy(m) && m.ns == old(m.ns) && m.ar == old(m.ar)
    ensures st.Done? ==> |old(m.Flags())| == 2 && m.Flags() == FlagsFor(old(m.Flags()), flagauthoritative, nx)
    ensures st.Done? ==> AnswerFor(v, q, qtype, control, flagauthoritative, m.flaghidettl, sample) == Answering(nx, rrs)
    ensures st.Done? ==> SampleFor(v, q, qtype, control, flagauthoritative, sample) && Answered(old(m.ms), old(m.an),
      m.ms, m.an, rrs)
    ensures st.Beyond? ==> m.r.len > REACH
  {
    FlagBytes(m);
    assert |m.Flags()| == 2;
    hide Message.Complete, Message.Flags, Response.Small, AnswerOf, SampleOf, Answered, ClearAA, SetAA, NameError;
    AnsweredNone(m.ms, m.an);
    if !flagauthoritative {
      ClearAuthority(m);
      return Done, false, [], [];
    }
    var flagfound;
    st, flagfound, rrs, sample := FindAnswer(c, m, q, qtype, control, v);
    nx := !flagfound;
    if !st.Done? { return; }
    if !flagfound { NxDomain(m); }
  }

  /** From AUTHORITY on. */
  method DoRest(c: Cdb, m: Message, control: seq<Byte>, flagauthoritative: bool, anpos: nat, v: View, ghost nx: bool,
                ghost answer: seq<RR>)
    returns (st: Status, ghost whole: seq<Byte>, ghost all: seq<Mark>)
    requires Loaded(c, v.rs) && m.Complete() && Roomy(m) && IsName(control) && |control| <= MAXNAME
      && Shown(v, control, false).Some?
    requires anpos == m.tctarget && Log(m.ms) == answer && m.an == |answer| && m.ns == m.ar == 0 && Shaped(answer)
    modifies c, m`dpos, m`cur, m`ms, m`an, m`ns, m`ar, m.r`len, m.r`nb, m.r`nameNum, m.r.msg, m.r.names, m.r.namePtr
    ensures st.Failed? ==> Rest(v, control, flagauthoritative, nx, answer, m.flaghidettl).None?
    ensures st.Done? ==> Rest(v, control, flagauthoritative, nx, answer, m.flaghidettl).Some?
    ensures st.Done? ==>
      m.Sent() && m.Flags() == old(m.Flags())
        && Sends(m, Rest(v, control, flagauthoritative, nx, answer, m.flaghidettl).value, whole, all)
    ensures st.Beyond? ==> m.r.len > REACH
  {
    hide Message.Complete, Message.Flags, Roomy, AuthorityOf, GlueFrom, Rest, Shaped, Shown, Added, Message.Sent,
      Message.StartOf, Sends, Tiled, Loaded, IsName, Said, Message.Bytes;
    whole, all := [], [];
    TiledNow(m);
    ghost var ms1 := m.ms;
    var aupos := m.r.len;
    EmptyAt(m.ms, anpos, aupos);
    ghost var l;
    st, l := AddAuthority(c, m, control, flagauthoritative, anpos, v);
    if st.Failed? { RestFails(v, control, flagauthoritative, nx, answer, m.flaghidettl, []); }
    if !st.Done? { return; }
    TiledNow(m);
    ghost var ms2 := m.ms;
    var arpos := m.r.len;
    AddedMeans(ms1, ms2, l);
    AuthorityShaped(v, control, flagauthoritative, answer, m.flaghidettl);
    ShapedBoth(answer, l);
    st := AddGlue(c, m, anpos, arpos, v);
    if st.Failed? { RestFails(v, control, flagauthoritative, nx, answer, m.flaghidettl, l); }
    if !st.Done? { return; }
    SectionStarts(m, ms1, aupos, ms2, arpos);
    ghost var rep := Reply(flagauthoritative, nx, answer, l, Log(m.ms)[|ms2|..]);
    RestIs(v, control, flagauthoritative, nx, answer, m.flaghidettl, l, Log(m.ms));
    ThreeLogs(ms2, m.ms, answer, l);
    whole, all := m.Bytes(), m.ms;
    Finish(m, flagauthoritative, aupos, arpos, rep);
  }

  /** The size cut. */
  method Finish(m: Message, flagauthoritative: bool, aupos: nat, arpos: nat, ghost rep: Reply)
    requires m.Complete() && rep.auth == flagauthoritative && Log(m.ms) == rep.answer + rep.authority + rep.additional
    requires m.an == |rep.answer| && m.ns == |rep.authority| && m.ar == |rep.additional|
    requires m.StartOf(m.an) == aupos && m.StartOf(m.an + m.ns) == arpos
    modifies m`ms, m`ns, m`ar, m.r`len, m.r.msg
    ensures m.Sent() && m.Flags() == old(m.Flags()) && Sends(m, rep, old(m.Bytes()), old(m.ms))
  {
    hide *;
    FinishStarts(m, rep, aupos, arpos);
    ghost var whole, all := m.Bytes(), m.ms;
    if flagauthoritative {
      m.Cut(aupos, arpos);
      SendsCut(m, rep, whole, all, aupos, arpos);
    } else {
      m.CompleteSends();
      SendsAll(m, rep, whole, all);
    }
  }

  lemma {:induction false} FinishStarts(m: Message, rep: Reply, aupos: nat, arpos: nat)
    requires m.Complete() && Log(m.ms) == rep.answer + rep.authority + rep.additional
    requires m.an == |rep.answer| && m.ns == |rep.authority| && m.ar == |rep.additional|
    requires m.StartOf(m.an) == aupos && m.StartOf(m.an + m.ns) == arpos
    ensures |m.Bytes()| == m.r.len && WholeIs(rep, m.Bytes(), m.ms, m.qname, m.qtrace, m.qfixed, m.tctarget)
    ensures aupos == StartIn(m.ms, m.an, m.r.len) && arpos == StartIn(m.ms, m.an + m.ns, m.r.len)
  {
    hide Message.Complete, Framed, Message.Bytes;
    m.CompleteBytes();
    assert |Log(m.ms)| == |m.ms|;
  }

  /** The reply with all its sections. */
  ghost predicate WholeIs(rep: Reply, whole: seq<Byte>, all: seq<Mark>, w: seq<Byte>, t: Trace, f: seq<Byte>, q: nat) {
    && Log(all) == rep.answer + rep.authority + rep.additional
    && |all| == |rep.answer| + |rep.authority| + |rep.additional|
    && Framed(whole, w, t, f, q, all, |rep.answer|, |rep.authority|, |rep.additional|)
  }

  lemma {:induction false} SendsAll(m: Message, rep: Reply, whole: seq<Byte>, all: seq<Mark>)
    requires WholeIs(rep, whole, all, m.qname, m.qtrace, m.qfixed, m.tctarget) && (!rep.auth || |whole| <= 512)
    requires m.an == |rep.answer| && m.ns == |rep.authority| && m.ar == |rep.additional|
    requires m.ms == all && m.r.len == |whole|
    ensures Sends(m, rep, whole, all)
  {
    hide Framed, Log;
  }

  /** What the cut leaves. */
  lemma {:induction false} SendsPart(m: Message, rep: Reply, whole: seq<Byte>, all: seq<Mark>, aupos: nat, arpos: nat)
    requires WholeIs(rep, whole, all, m.qname, m.qtrace, m.qfixed, m.tctarget) && rep.auth && |whole| > 512
    requires var an, ns := |rep.answer|, |rep.authority|;
      && aupos == StartIn(all, an, |whole|) && arpos == StartIn(all, an + ns, |whole|)
      && m.ms == Upto(all, if arpos <= 512 then an + ns else an) && m.ns == (if arpos <= 512 then ns else 0)
      && m.an == an && m.ar == 0 && m.r.len == if arpos <= 512 then arpos else aupos
    ensures Sends(m, rep, whole, all)
  {
    hide Framed, Log;
  }

  lemma {:induction false} SendsCut(m: Message, rep: Reply, whole: seq<Byte>, all: seq<Mark>, aupos: nat, arpos: nat)
    requires WholeIs(rep, whole, all, m.qname, m.qtrace, m.qfixed, m.tctarget) && rep.auth && m.an == |rep.answer|
    requires aupos == StartIn(all, |rep.answer|, |whole|)
    requires arpos == StartIn(all, |rep.answer| + |rep.authority|, |whole|)
    requires m.r.len == if |whole| <= 512 then |whole| else if arpos <= 512 then arpos else aupos
    requires |whole| <= 512 ==> m.ms == all && m.ns == |rep.authority| && m.ar == |rep.additional|
    requires |whole| > 512 && arpos <= 512 ==>
      m.ms == Upto(all, |rep.answer| + |rep.authority|) && m.ns == |rep.authority| && m.ar == 0
    requires |whole| > 512 && arpos > 512 ==> m.ms == Upto(all, |rep.answer|) && m.ns == m.ar == 0
    ensures Sends(m, rep, whole, all)
  {
    hide *;
    if |whole| <= 512 {
      SendsAll(m, rep, whole, all);
    } else {
      SendsPart(m, rep, whole, all, aupos, arpos);
    }
  }

  lemma {:induction false} RestIs(v: View, control: seq<Byte>, auth: bool, nx: bool, answer: seq<RR>, masked: bool,
                                  l: seq<RR>, log: seq<RR>)
    requires AuthorityOf(v, control, auth, answer, masked) == Some(l)
    requires GlueFrom(v, answer + l, answer + l, masked) == Some(log) && |log| >= |answer + l|
    ensures Rest(v, control, auth, nx, answer, masked) == Some(Reply(auth, nx, answer, l, log[|answer + l|..]))
  {
    hide AuthorityOf, GlueFrom;
  }

  lemma {:induction false} RestFails(v: View, control: seq<Byte>, auth: bool, nx: bool, answer: seq<RR>,
                                     masked: bool, l: seq<RR>)
    requires AuthorityOf(v, control, auth, answer, masked).None? ||
             (AuthorityOf(v, control, auth, answer, masked) == Some(l)
               && GlueFrom(v, answer + l, answer + l, masked).None?)
    ensures Rest(v, control, auth, nx, answer, masked).None?
  {
    hide AuthorityOf, GlueFrom;
  }

  lemma {:induction false} ThreeLogs(ms2: seq<Mark>, ms3: seq<Mark>, answer: seq<RR>, l: seq<RR>)
    requires ms2 <= ms3 && Log(ms2) == answer + l
    ensures Log(ms3) == answer + l + Log(ms3)[|ms2|..] && |Log(ms3)| == |ms3| && |ms2| == |answer| + |l|
  {
    LogPrefix(ms2, ms3);
  }

  lemma {:induction false} EmptyAt(ms: seq<Mark>, anpos: nat, len: nat)
    requires Tiled(ms, len) && (ms == [] ==> len == anpos) && (ms != [] ==> ms[0].start == anpos)
    ensures anpos == len <==> ms == []
  {
    if ms != [] {
      assert TiledAt(ms, len, 0);
    }
  }

  lemma {:induction false} ShapedBoth(a: seq<RR>, b: seq<RR>)
    requires Shaped(a) && Shaped(b)
    ensures Shaped(a + b)
  {
  }

  lemma {:induction false} LogPrefix(a: seq<Mark>, b: seq<Mark>)
    requires a <= b
    ensures Log(b) == Log(a) + Log(b)[|a|..] && |Log(b)| == |b| && |Log(a)| == |a|
  {
  }

  /** The response in m is the reply to q. */
  ghost predicate Replied(m: Message, flags: seq<Byte>, v: View, q: seq<Byte>, qtype: seq<Byte>,
                          sample: seq<seq<Byte>>, whole: seq<Byte>, all: seq<Mark>)
    requires IsName(q)
    reads m, m.r, m.r.msg
  {
    var reply := ReplyOf(v, q, qtype, m.flaghidettl, sample);
    && reply.Some? && Sampling(v, q, qtype, sample)
    && m.Sent() && Sends(m, reply.value, whole, all)
    && |flags| == 2 && m.Flags() == FlagsFor(flags, reply.value.auth, reply.value.nx)
  }

  /** doit behind the search for the zone. */
  method ReplyIn(c: Cdb, m: Message, q: seq<Byte>, qtype: seq<Byte>, control: seq<Byte>, flagauthoritative: bool,
                 v: View)
    returns (st: Status, ghost sample: seq<seq<Byte>>, ghost whole: seq<Byte>, ghost all: seq<Mark>)
    requires Loaded(c, v.rs) && m.Complete() && Roomy(m) && m.ms == [] && IsName(q) && |q| <= MAXNAME
    requires ZoneOf(v, q) == ZoneAt(control, flagauthoritative) && IsName(control) && |control| <= MAXNAME
    modifies c, m`dpos, m`cur, m`ms, m`an, m`ns, m`ar, m.r`len, m.r`nb, m.r`nameNum, m.r.msg, m.r.names, m.r.namePtr
    ensures st.Failed? ==> Unanswered(v, q, qtype, m.flaghidettl)
    ensures st.Done? ==> Replied(m, old(m.Flags()), v, q, qtype, sample, whole, all)
    ensures st.Beyond? ==> m.r.len > REACH
  {
    hide Message.Complete, Message.Flags, Roomy, IsName, Log, ReplyOf, Sampling, ZoneOf, AnswerFor, SampleFor, Rest,
      Sends, Message.Sent, FlagsFor, Shown, Answered, Shaped, Response.Small, Unanswered;
    NothingYet(m);
    ZoneReadable(v, q);
    whole, all := [], [];
    var anpos := m.r.len;
    ghost var nx, rrs;
    st, nx, rrs, sample := DoAnswer(c, m, q, qtype, control, flagauthoritative, v);
    if st.Failed? { UnansweredEarly(v, q, qtype, m.flaghidettl, sample); }
    if !st.Done? { return; }
    ReplyIs(v, q, qtype, control, flagauthoritative, m.flaghidettl, sample);
    AnsweredLog(m.ms, m.an, rrs);
    st, whole, all := DoRest(c, m, control, flagauthoritative, anpos, v, nx, rrs);
    if st.Failed? { UnansweredOnce(v, q, qtype, m.flaghidettl, sample); }
  }

  /** doit: answers the question that the response so far consists of. */
  method Doit(c: Cdb, m: Message, q: seq<Byte>, qtype: seq<Byte>, v: View)
    returns (st: Status, ghost sample: seq<seq<Byte>>, ghost whole: seq<Byte>, ghost all: seq<Mark>)
    requires Loaded(c, v.rs) && m.Complete() && Roomy(m) && m.ms == [] && IsName(q) && |q| <= MAXNAME
    modifies c, m`dpos, m`cur, m`ms, m`an, m`ns, m`ar, m.r`len, m.r`nb, m.r`nameNum, m.r.msg, m.r.names, m.r.namePtr
    ensures st.Failed? ==> Unanswered(v, q, qtype, m.flaghidettl)
    ensures st.Done? ==> Replied(m, old(m.Flags()), v, q, qtype, sample, whole, all)
    ensures st.Beyond? ==> m.r.len > REACH
  {
    hide Message.Complete, Message.Flags, Roomy, Loaded, IsName, ReplyOf, ZoneOf, Replied, Unanswered;
    sample, whole, all := [], [], [];
    st := Failed;
    var ok, control, flagauthoritative := FindZone(c, q, v);
    if !ok {
      UnansweredEarly(v, q, qtype, m.flaghidettl, []);
      return;
    }
    st, sample, whole, all := ReplyIn(c, m, q, qtype, control, flagauthoritative, v);
  }

  lemma {:induction false} ReplyIs(v: View, q: seq<Byte>, qtype: seq<Byte>, control: seq<Byte>, auth: bool,
                                   masked: bool, sample: seq<seq<Byte>>)
    requires IsName(q) && ZoneOf(v, q) == ZoneAt(control, auth) && SampleFor(v, q, qtype, control, auth, sample)
    requires AnswerFor(v, q, qtype, control, auth, masked, sample).Answering?
    ensures Sampling(v, q, qtype, sample)
    ensures var x := AnswerFor(v, q, qtype, control, auth, masked, sample);
      && Shaped(x.rrs) && ReplyOf(v, q, qtype, masked, sample) == Rest(v, control, auth, x.nx, x.rrs, masked)
      && (ReplyOf(v, q, qtype, masked, sample).Some? ==>
        ReplyOf(v, q, qtype, masked, sample).value.auth == auth && ReplyOf(v, q, qtype, masked, sample).value.nx ==
          x.nx)
  {
    hide ZoneOf, AnswerFor, SampleFor, Rest, Shaped;
    AnswerForShaped(v, q, qtype, control, auth, masked, sample);
    var x := AnswerFor(v, q, qtype, control, auth, masked, sample);
    RestFlags(v, control, auth, x.nx, x.rrs, masked);
  }

  lemma {:induction false} NothingYet(m: Message)
    requires m.Complete() && m.ms == []
    ensures m.an == m.ns == m.ar == 0 && m.r.len == m.tctarget
  {
  }

  lemma {:induction false} ZoneReadable(v: View, q: seq<Byte>)
    requires IsName(q) && ZoneOf(v, q).ZoneAt?
    ensures Shown(v, ZoneOf(v, q).control, false).Some?
    decreases |q|
  {
    hide Shown, HasType;
    var s := Shown(v, q, false);
    if s.Some? && !HasType(s.value, NS) {
      ZoneReadable(v, Parent(q));
    }
  }

  lemma {:induction false} AnswerForShaped(v: View, q: seq<Byte>, qtype: seq<Byte>, control: seq<Byte>, auth: bool,
                                          masked: bool, sample: seq<seq<Byte>>)
    requires IsName(q) && AnswerFor(v, q, qtype, control, auth, masked, sample).Answering?
    ensures Shaped(AnswerFor(v, q, qtype, control, auth, masked, sample).rrs)
  {
    hide AnswerOf;
    if auth {
      AnswerShaped(v, q, qtype, control, masked, sample);
    }
  }

  lemma {:induction false} AnsweredLog(ms: seq<Mark>, an: nat, rrs: seq<RR>)
    requires Answered([], 0, ms, an, rrs)
    ensures Log(ms) == rrs && an == |rrs|
  {
    assert Log([]) + rrs == rrs;
  }

  lemma {:induction false} RestFlags(v: View, control: seq<Byte>, auth: bool, nx: bool, rrs: seq<RR>, masked: bool)
    ensures Rest(v, control, auth, nx, rrs, masked).Some? ==>
      var rep := Rest(v, control, auth, nx, rrs, masked).value; rep.auth == auth && rep.nx == nx
  {
    hide AuthorityOf, GlueFrom;
  }
}
