/** What the replies of src/tdlookup.c mean, in terms of the visible records. */
module TdTheorems {
  import opened Basics
  import opened Bytes
  import opened DnsName
  import opened RecordData
  import opened TdRecords
  import opened TdMessage
  import opened TdSpec
  import opened DnsPacket
  import opened CdbSpec
  import opened CdbFile
  import opened Geo
  import opened RecordStore

  /** The zone of q: the suffix at offset z has name servers, and no longer suffix has. */
  ghost predicate ZoneCut(v: View, q: seq<Byte>, z: nat)
    requires IsName(q)
  {
    && IsSuffixAt(q, z) && z < |q| && Owns(v, q[z..])
    && forall p :: 0 <= p < z && IsSuffixAt(q, p) ==> !Owns(v, q[p..])
  }

  /** Some name from q up to the zone cut has visible records: at q itself exact ones, above wildcards. */
  ghost predicate NameExists(v: View, q: seq<Byte>, z: nat)
    requires IsName(q)
  {
    exists p :: 0 <= p <= z && p <= |q| && IsSuffixAt(q, p) && Populated(v, q[p..], p != 0)
  }

  ghost predicate HasSoa(v: View, d: seq<Byte>) {
    var s := Shown(v, d, false);
    s.Some? && HasType(s.value, SOA)
  }

  /** A reply speaks for the nearest enclosing zone: it is authoritative exactly when that zone has an
      SOA record, it denies the name exactly when nothing is visible between the name and the zone cut,
      and below a cut it has no answers. */
  lemma {:induction false} ReplyMeaning(v: View, q: seq<Byte>, qtype: seq<Byte>, masked: bool,
                                        sample: seq<seq<Byte>>) returns (z: nat)
    requires IsName(q) && ReplyOf(v, q, qtype, masked, sample).Some?
    ensures ZoneCut(v, q, z)
    ensures var rep := ReplyOf(v, q, qtype, masked, sample).value;
      && (rep.auth <==> HasSoa(v, q[z..]))
      && (rep.nx <==> rep.auth && !NameExists(v, q, z))
      && (!rep.auth || rep.nx ==> rep.answer == [])
  {
    z := ZoneNearest(v, q);
    var control := q[z..];
    var auth := ZoneOf(v, q).auth;
    ReplyParts(v, q, qtype, masked, sample, control, auth);
    if auth {
      var o := NodeNearest(v, q, q, control, z);
      hide Shown, IsSuffixAt, IsName, NodeOf, ReplyOf, AnswerFor, Rest, ZoneOf;
      if NodeOf(v, q, q, control).NodeAt? {
        assert Populated(v, q[o..], o != 0);
      } else {
        NothingExists(v, q, z);
      }
    }
  }

  lemma {:induction false} NothingExists(v: View, q: seq<Byte>, z: nat)
    requires IsName(q) && z < |q| && NoneBefore(v, q, q, z + 1)
    ensures !NameExists(v, q, z)
  {
    hide Populated, IsSuffixAt;
    forall p | 0 <= p <= z && IsSuffixAt(q, p) ensures !Populated(v, q[p..], p != 0) {
      assert |q[p..]| == |q| - p;
    }
  }

  lemma {:induction false} ReplyParts(v: View, q: seq<Byte>, qtype: seq<Byte>, masked: bool, sample: seq<seq<Byte>>,
                                      control: seq<Byte>, auth: bool)
    requires IsName(q) && ZoneOf(v, q) == ZoneAt(control, auth) && ReplyOf(v, q, qtype, masked, sample).Some?
    ensures var rep := ReplyOf(v, q, qtype, masked, sample).value;
      && rep.auth == auth && AnswerFor(v, q, qtype, control, auth, masked, sample) == Answering(rep.nx, rep.answer)
      && AuthorityOf(v, control, auth, rep.answer, masked) == Some(rep.authority)
      && GlueFrom(v, rep.answer + rep.authority, rep.answer + rep.authority, masked) ==
        Some(rep.answer + rep.authority + rep.additional)
      && (auth ==> match NodeOf(v, q, q, control) case BadNode => false case Nothing =>
        rep.nx && rep.answer == [] case NodeAt(_, _) => !rep.nx)
  {
    hide ZoneOf, NodeOf, Ordinary, AuthorityOf, GlueFrom;
    match AnswerFor(v, q, qtype, control, auth, masked, sample)
    case NoAnswer =>
    case Answering(nx, rrs) =>
      match AuthorityOf(v, control, auth, rrs, masked) {
        case None =>
        case Some(authority) =>
          GlueGrows(v, rrs + authority, rrs + authority, masked);
          var log := GlueFrom(v, rrs + authority, rrs + authority, masked);
          assert log.Some? ==> log.value == rrs + authority + log.value[|rrs + authority|..];
      }
  }

  /** Every answer is a record of q of a type that was asked for, or an alias. */
  lemma {:induction false} AnswersWanted(v: View, q: seq<Byte>, qtype: seq<Byte>, masked: bool,
                                         sample: seq<seq<Byte>>, i: nat)
    requires IsName(q) && ReplyOf(v, q, qtype, masked, sample).Some?
      && i < |ReplyOf(v, q, qtype, masked, sample).value.answer|
    requires Sampling(v, q, qtype, sample)
    ensures var rr := ReplyOf(v, q, qtype, masked, sample).value.answer[i];
      rr.owner == Lower(q) && Wanted(rr.rtype, qtype)
  {
    var control, auth := ZoneOf(v, q).control, ZoneOf(v, q).auth;
    ReplyParts(v, q, qtype, masked, sample, control, auth);
    hide ZoneOf, NodeOf, Ordinary, ReplyOf, Addresses, Wanted;
    if auth {
      match NodeOf(v, q, q, control)
      case BadNode =>
      case Nothing =>
      case NodeAt(_, recs) =>
        OrdinaryWanted(recs, Lower(q), qtype, masked);
        AddressesWanted(recs, qtype);
    }
  }

  lemma {:induction false} AddressesWanted(recs: seq<Rec>, qtype: seq<Byte>)
    ensures Addresses(recs, qtype) != [] ==> Wanted(A, qtype)
    decreases |recs|
  {
    if recs != [] { AddressesWanted(recs[..|recs| - 1], qtype); }
  }

  /** The answers leave out nothing that was asked for at the answering name: every wanted record is there,
      but for SOA records behind the first, and every address when there are at most eight. */
  lemma {:induction false} AnswersComplete(v: View, q: seq<Byte>, qtype: seq<Byte>, masked: bool,
                                          sample: seq<seq<Byte>>,
                                           recs: seq<Rec>, i: nat)
    requires IsName(q) && ReplyOf(v, q, qtype, masked, sample).Some? && Sampling(v, q, qtype, sample)
    requires ZoneOf(v, q).auth && NodeOf(v, q, q, ZoneOf(v, q).control).NodeAt?
    requires recs == NodeOf(v, q, q, ZoneOf(v, q).control).recs && i < |recs| && Wanted(recs[i].rtype, qtype)
    ensures var l := ReplyOf(v, q, qtype, masked, sample).value.answer; var x := recs[i];
      if IsAddress(x, qtype) then
        |Addresses(recs, qtype)| <= 8 ==>
          RR(Lower(q), A, Told(masked, LastTtl(recs, qtype)), [Raw(x.raw[x.dpos..])]) in l
      else
        (x.rtype == SOA ==> !HasType(recs[..i], SOA)) ==>
          Render(x).Some? && RR(Lower(q), x.rtype, Told(masked, x.ttl), Render(x).value) in l
  {
    var control := ZoneOf(v, q).control;
    ReplyParts(v, q, qtype, masked, sample, control, true);
    hide ZoneOf, NodeOf, Ordinary, ReplyOf, Addresses, Wanted, IsAddress, LastTtl, Render, Lower, AuthorityOf, GlueFrom;
    var x := recs[i];
    if IsAddress(x, qtype) {
      AddressIn(recs, qtype, i);
      if |Addresses(recs, qtype)| <= 8 {
        SameMultiset(sample, Addresses(recs, qtype));
        var k :| 0 <= k < |sample| && sample[k] == x.raw[x.dpos..];
        assert AddressRRs(sample, Lower(q), Told(masked, LastTtl(recs, qtype)))[k].data == [Raw(x.raw[x.dpos..])];
      }
    } else if x.rtype == SOA ==> !HasType(recs[..i], SOA) {
      OrdinaryIn(recs, Lower(q), qtype, masked, i);
    }
  }

  /** However many addresses there are, the answers end with eight of them, or all if there are fewer, each no
      more often than it is stored, and all are told the same time to live. */
  lemma {:induction false} AddressesChosen(v: View, q: seq<Byte>, qtype: seq<Byte>, masked: bool,
                                          sample: seq<seq<Byte>>, recs: seq<Rec>)
    requires IsName(q) && ReplyOf(v, q, qtype, masked, sample).Some? && Sampling(v, q, qtype, sample)
    requires ZoneOf(v, q).auth && NodeOf(v, q, q, ZoneOf(v, q).control).NodeAt?
    requires recs == NodeOf(v, q, q, ZoneOf(v, q).control).recs
    ensures var l := ReplyOf(v, q, qtype, masked, sample).value.answer; var n := |Addresses(recs, qtype)|;
      && |sample| == (if n < 8 then n else 8) <= |l| && multiset(sample) <= multiset(Addresses(recs, qtype))
      && l[|l| - |sample|..] == AddressRRs(sample, Lower(q), Told(masked, LastTtl(recs, qtype)))
  {
    ReplyParts(v, q, qtype, masked, sample, ZoneOf(v, q).control, true);
    hide ZoneOf, NodeOf, Ordinary, ReplyOf, Addresses, LastTtl, Lower, AuthorityOf, GlueFrom, AddressRRs;
  }

  lemma {:induction false} AddressIn(recs: seq<Rec>, qtype: seq<Byte>, i: nat)
    requires i < |recs| && IsAddress(recs[i], qtype)
    ensures recs[i].raw[recs[i].dpos..] in Addresses(recs, qtype)
    decreases |recs|
  {
    if i < |recs| - 1 { AddressIn(recs[..|recs| - 1], qtype, i); }
  }

  lemma {:induction false} SameMultiset(a: seq<seq<Byte>>, b: seq<seq<Byte>>)
    requires |a| == |b| && multiset(a) <= multiset(b)
    ensures forall x :: x in b ==> x in a
  {
    assert multiset(b) == multiset(a) + (multiset(b) - multiset(a));
    assert |multiset(b) - multiset(a)| == 0;
    forall x | x in b ensures x in a {
      assert x in multiset(b);
    }
  }

  lemma {:induction false} OrdinaryIn(recs: seq<Rec>, owner: seq<Byte>, qtype: seq<Byte>, masked: bool, i: nat)
    requires Ordinary(recs, owner, qtype, masked).Some? && i < |recs|
    requires Wanted(recs[i].rtype, qtype) && !IsAddress(recs[i], qtype)
      && (recs[i].rtype == SOA ==> !HasType(recs[..i], SOA))
    ensures Render(recs[i]).Some?
    ensures RR(owner, recs[i].rtype, Told(masked, recs[i].ttl), Render(recs[i]).value) in Ordinary(recs, owner,
      qtype, masked).value
    decreases |recs|
  {
    hide Render, Wanted, IsAddress, HasType;
    if i < |recs| - 1 {
      assert recs[..|recs| - 1][..i] == recs[..i];
      OrdinaryIn(recs[..|recs| - 1], owner, qtype, masked, i);
    }
  }

  lemma {:induction false} OrdinaryWanted(recs: seq<Rec>, owner: seq<Byte>, qtype: seq<Byte>, masked: bool)
    requires Ordinary(recs, owner, qtype, masked).Some?
    ensures var l := Ordinary(recs, owner, qtype, masked).value;
      forall i :: 0 <= i < |l| ==> l[i].owner == owner && Wanted(l[i].rtype, qtype)
    decreases |recs|
  {
    hide Render, Wanted, IsAddress, HasType;
    if recs != [] {
      OrdinaryWanted(recs[..|recs| - 1], owner, qtype, masked);
    }
  }

  // ---------- Glue ----------

  lemma {:induction false} HasGrows(a: seq<RR>, b: seq<RR>, owner: seq<Byte>, t: seq<Byte>)
    requires a <= b && Has(a, owner, t)
    ensures Has(b, owner, t)
  {
    var i :| 0 <= i < |a| && Is(a[i], owner, t);
    assert Is(b[i], owner, t);
  }

  lemma {:induction false} TypedHas(recs: seq<Rec>, t: seq<Byte>, owner: seq<Byte>, masked: bool, glue: bool)
    requires Typed(recs, t, owner, masked, glue).Some?
    ensures Has(Typed(recs, t, owner, masked, glue).value, owner, t) <==> HasType(recs, t)
    ensures var l := Typed(recs, t, owner, masked, glue).value; forall i :: 0 <= i < |l| ==> Is(l[i], owner, t)
    decreases |recs|
  {
    hide RenderAs;
    if recs != [] {
      var init, x := recs[..|recs| - 1], recs[|recs| - 1];
      TypedHas(init, t, owner, masked, glue);
      var l := Typed(recs, t, owner, masked, glue).value;
      if x.rtype == t {
        assert Is(l[|l| - 1], owner, t);
      } else if HasType(recs, t) {
        var i :| 0 <= i < |recs| && recs[i].rtype == t;
        assert init[i].rtype == t;
      }
      if HasType(init, t) {
        var i :| 0 <= i < |init| && init[i].rtype == t;
        assert recs[i].rtype == t;
      }
    }
  }

  /** An address record is shown for the host. */
  ghost predicate HasAddress(v: View, host: seq<Byte>) {
    var s := Shown(v, host, false);
    s.Some? && HasType(s.value, A)
  }

  /** Every host that a name server or mail exchanger record of the answer or authority section names has
      an address in the complete reply, if the database shows one. */
  lemma {:induction false} GlueCovers(v: View, todo: seq<RR>, log: seq<RR>, masked: bool, i: nat)
    requires GlueFrom(v, todo, log, masked).Some? && i < |todo| && HostOf(todo[i]).Some?
      && HasAddress(v, HostOf(todo[i]).value)
    ensures Has(GlueFrom(v, todo, log, masked).value, HostOf(todo[i]).value, A)
    decreases |todo|
  {
    hide Shown, Typed, HostOf, Has, HasType;
    var host := HostOf(todo[i]).value;
    if i == 0 {
      var next := log;
      if !Has(log, host, A) {
        TypedHas(Shown(v, host, false).value, A, host, masked, true);
        next := log + Typed(Shown(v, host, false).value, A, host, masked, true).value;
        HasBehind(log, Typed(Shown(v, host, false).value, A, host, masked, true).value, host, A);
      }
      GlueGrows(v, todo[1..], next, masked);
      HasGrows(next, GlueFrom(v, todo, log, masked).value, host, A);
    } else {
      var h := HostOf(todo[0]);
      assert todo[1..][i - 1] == todo[i];
      if h.None? || Has(log, h.value, A) {
        GlueCovers(v, todo[1..], log, masked, i - 1);
      } else {
        GlueCovers(v, todo[1..], log + Typed(Shown(v, h.value, false).value, A, h.value, masked, true).value, masked,
          i - 1);
      }
    }
  }

  lemma {:induction false} HasBehind(a: seq<RR>, b: seq<RR>, owner: seq<Byte>, t: seq<Byte>)
    requires Has(b, owner, t)
    ensures Has(a + b, owner, t)
  {
    var i :| 0 <= i < |b| && Is(b[i], owner, t);
    assert Is((a + b)[|a| + i], owner, t);
  }

  /** The same for a whole reply. */
  lemma {:induction false} ReplyHasGlue(v: View, q: seq<Byte>, qtype: seq<Byte>, masked: bool,
                                        sample: seq<seq<Byte>>, i: nat)
    requires IsName(q) && ReplyOf(v, q, qtype, masked, sample).Some?
    requires var rep := ReplyOf(v, q, qtype, masked, sample).value;
      && i < |rep.answer + rep.authority| && HostOf((rep.answer + rep.authority)[i]).Some?
      && HasAddress(v, HostOf((rep.answer + rep.authority)[i]).value)
    ensures var rep := ReplyOf(v, q, qtype, masked, sample).value;
      Has(rep.answer + rep.authority + rep.additional, HostOf((rep.answer + rep.authority)[i]).value, A)
  {
    var rep := ReplyOf(v, q, qtype, masked, sample).value;
    ReplyParts(v, q, qtype, masked, sample, ZoneOf(v, q).control, ZoneOf(v, q).auth);
    hide ReplyOf, GlueFrom, HostOf, HasAddress;
    GlueCovers(v, rep.answer + rep.authority, rep.answer + rep.authority, masked, i);
  }

  // ---------- When there is a reply ----------

  /** Nothing stored under a name is malformed: every record can be read, every visible one can be written,
      and every visible address has its four bytes. */
  ghost predicate WellFormed(v: View) {
    forall d: seq<Byte>, wild: bool :: IsName(d) ==> Sound(v, d, wild)
  }

  ghost predicate Sound(v: View, d: seq<Byte>, wild: bool) {
    var s := Shown(v, d, wild);
    s.Some? && AllWritable(s.value)
  }

  ghost predicate AllWritable(recs: seq<Rec>) {
    forall i :: 0 <= i < |recs| ==> Render(recs[i]).Some? && (recs[i].rtype == A ==> RenderGlue(recs[i]).Some?)
  }

  lemma {:induction false} OrdinaryWritable(recs: seq<Rec>, owner: seq<Byte>, qtype: seq<Byte>, masked: bool)
    requires AllWritable(recs)
    ensures Ordinary(recs, owner, qtype, masked).Some?
    decreases |recs|
  {
    hide Render, RenderGlue, Wanted, IsAddress, HasType;
    if recs != [] {
      OrdinaryWritable(recs[..|recs| - 1], owner, qtype, masked);
    }
  }

  lemma {:induction false} TypedWritable(recs: seq<Rec>, t: seq<Byte>, owner: seq<Byte>, masked: bool, glue: bool)
    requires AllWritable(recs) && (glue ==> t == A)
    ensures Typed(recs, t, owner, masked, glue).Some?
    decreases |recs|
  {
    hide Render, RenderGlue;
    if recs != [] {
      TypedWritable(recs[..|recs| - 1], t, owner, masked, glue);
    }
  }

  lemma {:induction false} SoaWritable(recs: seq<Rec>, owner: seq<Byte>, masked: bool)
    requires AllWritable(recs)
    ensures FirstSoa(recs, owner, masked).Some?
    decreases |recs|
  {
    hide Render, RenderGlue;
    if recs != [] {
      assert recs[0] in recs;
      SoaWritable(recs[1..], owner, masked);
    }
  }

  /** The hosts that records point to are names. */
  ghost predicate Named(l: seq<RR>) {
    forall i :: 0 <= i < |l| ==> NamedOne(l[i])
  }

  ghost predicate NamedOne(rr: RR) {
    HostOf(rr).Some? ==> IsName(HostOf(rr).value)
  }

  lemma {:induction false} NameRead(raw: seq<Byte>, p: nat)
    ensures NameAt(raw, p).Some? ==> NameAt(raw, p).value.0.Name? && IsName(NameAt(raw, p).value.0.w)
  {
    hide GetName, IsName, Lower;
    GetNameIsName(raw, p);
    if GetName(raw, p).Some? { LowerIsName(GetName(raw, p).value.name); }
  }

  lemma {:induction false} RenderNamed(owner: seq<Byte>, rec: Rec, ttl: Word)
    ensures Render(rec).Some? ==> NamedOne(RR(owner, rec.rtype, ttl, Render(rec).value))
  {
    hide NameAt, IsName;
    NameRead(rec.raw, rec.dpos);
    NameRead(rec.raw, rec.dpos + 2);
  }

  lemma {:induction false} OrdinaryNamed(recs: seq<Rec>, owner: seq<Byte>, qtype: seq<Byte>, masked: bool)
    requires Ordinary(recs, owner, qtype, masked).Some?
    ensures Named(Ordinary(recs, owner, qtype, masked).value)
    decreases |recs|
  {
    hide Render, Wanted, IsAddress, HasType, NamedOne;
    if recs != [] {
      var x := recs[|recs| - 1];
      OrdinaryNamed(recs[..|recs| - 1], owner, qtype, masked);
      RenderNamed(owner, x, Told(masked, x.ttl));
    }
  }

  lemma {:induction false} TypedNamed(recs: seq<Rec>, t: seq<Byte>, owner: seq<Byte>, masked: bool)
    requires Typed(recs, t, owner, masked, false).Some?
    ensures Named(Typed(recs, t, owner, masked, false).value)
    decreases |recs|
  {
    hide Render, NamedOne;
    if recs != [] {
      var x := recs[|recs| - 1];
      TypedNamed(recs[..|recs| - 1], t, owner, masked);
      RenderNamed(owner, x, Told(masked, x.ttl));
    }
  }

  lemma {:induction false} SoaNamed(recs: seq<Rec>, owner: seq<Byte>, masked: bool)
    requires FirstSoa(recs, owner, masked).Some?
    ensures Named(FirstSoa(recs, owner, masked).value)
    decreases |recs|
  {
    hide Render;
    if recs != [] && recs[0].rtype != SOA { SoaNamed(recs[1..], owner, masked); }
  }

  /** The records whose hosts the glue loop looks up all point to names. */
  lemma {:induction false} AnswerNamed(v: View, q: seq<Byte>, qtype: seq<Byte>, control: seq<Byte>, auth: bool,
                                       masked: bool, sample: seq<seq<Byte>>)
    requires IsName(q) && AnswerFor(v, q, qtype, control, auth, masked, sample).Answering?
    ensures Named(AnswerFor(v, q, qtype, control, auth, masked, sample).rrs)
  {
    hide NodeOf, Ordinary, IsName, LastTtl, Lower;
    if auth {
      match NodeOf(v, q, q, control)
      case NodeAt(_, recs) =>
        if Ordinary(recs, Lower(q), qtype, masked).Some? { OrdinaryNamed(recs, Lower(q), qtype, masked); }
      case _ =>
    }
  }

  lemma {:induction false} AuthorityNamed(v: View, control: seq<Byte>, auth: bool, answer: seq<RR>, masked: bool)
    requires AuthorityOf(v, control, auth, answer, masked).Some?
    ensures Named(AuthorityOf(v, control, auth, answer, masked).value)
  {
    hide Shown, Typed, FirstSoa, Has, Lower, NamedOne;
    match Shown(v, control, false)
    case None =>
    case Some(recs) =>
      if auth && answer == [] {
        SoaNamed(recs, Lower(control), masked);
      } else if !Has(answer, Lower(control), NS) {
        TypedNamed(recs, NS, Lower(control), masked);
      }
  }

  lemma {:induction false} GlueWritable(v: View, todo: seq<RR>, log: seq<RR>, masked: bool)
    requires WellFormed(v) && Named(todo)
    ensures GlueFrom(v, todo, log, masked).Some?
    decreases |todo|
  {
    hide Shown, Typed, HostOf, Has, AllWritable, IsName;
    if todo != [] {
      assert NamedOne(todo[0]) && Named(todo[1..]);
      var h := HostOf(todo[0]);
      if h.None? || Has(log, h.value, A) {
        GlueWritable(v, todo[1..], log, masked);
      } else {
        assert Sound(v, h.value, false);
        var recs := Shown(v, h.value, false).value;
        TypedWritable(recs, A, h.value, masked, true);
        GlueWritable(v, todo[1..], log + Typed(recs, A, h.value, masked, true).value, masked);
      }
    }
  }

  lemma {:induction false} NodeReadable(v: View, q: seq<Byte>, d: seq<Byte>, control: seq<Byte>)
    requires WellFormed(v) && IsName(d)
    ensures !NodeOf(v, q, d, control).BadNode?
    ensures NodeOf(v, q, d, control).NodeAt? ==> AllWritable(NodeOf(v, q, d, control).recs)
    decreases |d|
  {
    hide Shown, AllWritable;
    assert Sound(v, d, |d| != |q|);
    var s := Shown(v, d, |d| != |q|);
    if s == Some([]) && |d| != |control| && d[0] != 0 {
      NodeReadable(v, q, Parent(d), control);
    }
  }

  lemma {:induction false} NoBadZone(v: View, q: seq<Byte>)
    requires WellFormed(v) && IsName(q)
    ensures !ZoneOf(v, q).BadZone?
    decreases |q|
  {
    hide Shown, AllWritable, HasType;
    assert Sound(v, q, false);
    var s := Shown(v, q, false);
    if s.Some? && !HasType(s.value, NS) && q[0] != 0 {
      NoBadZone(v, Parent(q));
    }
  }

  /** On a well-formed database exactly the names inside some zone are answered, whatever is sampled. */
  lemma {:induction false} AnsweredIff(v: View, q: seq<Byte>, qtype: seq<Byte>, masked: bool, sample: seq<seq<Byte>>)
    requires IsName(q) && WellFormed(v)
    ensures ReplyOf(v, q, qtype, masked, sample).Some? <==> exists p ::
      0 <= p < |q| && IsSuffixAt(q, p) && Owns(v, q[p..])
  {
    var z := ZoneNearest(v, q);
    NoBadZone(v, q);
    hide Shown, AllWritable, IsSuffixAt, IsName, ZoneOf, NodeOf, Typed, Ordinary, FirstSoa, GlueFrom, HasType;
    match ZoneOf(v, q)
    case NoZone =>
    case BadZone =>
    case ZoneAt(control, auth) =>
      assert Owns(v, q[z..]);
      NodeReadable(v, q, q, control);
      assert Sound(v, control, false);
      var recs := Shown(v, control, false).value;
      SoaWritable(recs, Lower(control), masked);
      TypedWritable(recs, NS, Lower(control), masked, false);
      if NodeOf(v, q, q, control).NodeAt? { OrdinaryWritable(NodeOf(v, q, q, control).recs, Lower(q), qtype, masked); }
      RestGiven(v, q, qtype, control, auth, masked, sample);
  }

  lemma {:induction false} RestGiven(v: View, q: seq<Byte>, qtype: seq<Byte>, control: seq<Byte>, auth: bool,
                                     masked: bool, sample: seq<seq<Byte>>)
    requires IsName(q) && WellFormed(v) && ZoneOf(v, q) == ZoneAt(control, auth)
    requires NodeOf(v, q, q, control) != BadNode && Shown(v, control, false).Some?
    requires NodeOf(v, q, q, control).NodeAt? ==>
      Ordinary(NodeOf(v, q, q, control).recs, Lower(q), qtype, masked).Some?
    requires FirstSoa(Shown(v, control, false).value, Lower(control), masked).Some?
    requires Typed(Shown(v, control, false).value, NS, Lower(control), masked, false).Some?
    ensures ReplyOf(v, q, qtype, masked, sample).Some?
  {
    hide Shown, ZoneOf, NodeOf, Typed, Ordinary, FirstSoa, GlueFrom, WellFormed, NamedOne;
    var x := AnswerFor(v, q, qtype, control, auth, masked, sample);
    var y := AuthorityOf(v, control, auth, x.rrs, masked);
    AnswerNamed(v, q, qtype, control, auth, masked, sample);
    AuthorityNamed(v, control, auth, x.rrs, masked);
    GlueWritable(v, x.rrs + y.value, x.rrs + y.value, masked);
    GlueGrows(v, x.rrs + y.value, x.rrs + y.value, masked);
  }

  // ---------- Databases that are well-formed ----------

  lemma {:induction false} EmptyWellFormed(loc: Word, now: nat)
    ensures WellFormed(View([], loc, now))
  {
    var v := View([], loc, now);
    forall d: seq<Byte>, wild: bool | IsName(d) ensures Sound(v, d, wild) {
      assert Values([], d) == [];
    }
  }

  /** A record whose key is no name, such as an IP-map line or a location query, does not matter. */
  lemma {:induction false} OtherKeys(v: View, r: Record)
    requires !IsName(r.key)
    ensures WellFormed(v.(rs := v.rs + [r])) <==> WellFormed(v)
  {
    var v' := v.(rs := v.rs + [r]);
    forall d: seq<Byte>, wild: bool | IsName(d) ensures Shown(v', d, wild) == Shown(v, d, wild) {
      ValuesMore(v.rs, r, d);
      assert Values(v.rs, d) + [] == Values(v.rs, d);
    }
    hide Shown, IsName, AllWritable;
    if WellFormed(v) {
      forall d: seq<Byte>, wild: bool | IsName(d) ensures Sound(v', d, wild) { assert Sound(v, d, wild); }
    }
    if WellFormed(v') {
      forall d: seq<Byte>, wild: bool | IsName(d) ensures Sound(v, d, wild) { assert Sound(v', d, wild); }
    }
  }

  lemma {:induction false} LineKeeps(v: View, ip: Word, mask: Byte, mid: Word, uid: Word, data: seq<Byte>)
    ensures WellFormed(v.(rs := v.rs + [Record(GeoKey(ip, mask, mid, uid), data)])) <==> WellFormed(v)
  {
    OtherKeys(v, Record(GeoKey(ip, mask, mid, uid), data));
  }

  lemma {:induction false} QueryKeeps(v: View, rtype: seq<Byte>, d: seq<Byte>, data: seq<Byte>)
    requires |rtype| == 2
    ensures WellFormed(v.(rs := v.rs + [Record(LoqKey(rtype, d), data)])) <==> WellFormed(v)
  {
    OtherKeys(v, Record(LoqKey(rtype, d), data));
  }

  /** What the configuration tool stores for a record of a fitting shape keeps the database well-formed for
      every client at every time; an address must have its four bytes, and the record must fit the buffer
      that find reads it into. */
  lemma {:induction false} StoredKeeps(v: View, owner: seq<Byte>, rtype: seq<Byte>, ttl: Word, ttd: seq<Byte>,
                                       loc: Word, g: Given)
    requires IsName(owner) && |rtype| == 2 && |ttd| == 8 && Fitting(rtype, g) && (rtype == A ==> |DataOf(g)| >= 4)
    requires |Head(rtype, ttl, ttd, loc, IsWild(owner)) + DataOf(g)| <= DATASIZE && WellFormed(v)
    ensures WellFormed(v.(rs := v.rs
      + [Record(Lower(Owner(owner)), Head(rtype, ttl, ttd, loc, IsWild(owner)) + DataOf(g))]))
  {
    var raw := Head(rtype, ttl, ttd, loc, IsWild(owner)) + DataOf(g);
    var v' := v.(rs := v.rs + [Record(Lower(Owner(owner)), raw)]);
    hide Head, Shown, Render, RenderGlue, IsName, IsWild, Owner, Lower, DataOf, PiecesOf, Fitting, Timely, Remaining,
      Tai, See, AllWritable;
    forall d: seq<Byte>, wild: bool | IsName(d) ensures Sound(v', d, wild) {
      assert Sound(v, d, wild);
      StoredShown(v, owner, rtype, ttl, ttd, loc, g, d, wild);
      var before, after := Shown(v, d, wild).value, Shown(v', d, wild);
      if after != Some(before) {
        AllWritableMore(before, after.value, |DataOf(g)|);
      }
    }
  }

  lemma {:induction false} AllWritableMore(recs: seq<Rec>, more: seq<Rec>, n: nat)
    requires AllWritable(recs) && |more| == |recs| + 1 && more[..|recs|] == recs
    requires var x := more[|recs|]; Render(x).Some? && x.dpos + n == |x.raw| && (x.rtype == A ==> n >= 4)
    ensures AllWritable(more)
  {
    hide Render;
    forall i | 0 <= i < |more| ensures Render(more[i]).Some? && (more[i].rtype == A ==> RenderGlue(more[i]).Some?) {
      if i < |recs| { assert more[i] == recs[i]; }
    }
  }
}
