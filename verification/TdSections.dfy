/** What the three sections of a reply of src/tdlookup.c hold, record for record, in terms of the records that
    the names involved show. */
module TdSections {
  import opened Basics
  import opened Bytes
  import opened DnsName
  import opened RecordData
  import opened TdRecords
  import opened TdMessage
  import opened TdSpec
  import opened TdTheorems

  /** The record rr says what a stored one does: its type, its data, and its time to live unless that is
      hidden. */
  ghost predicate Tells(rr: RR, owner: seq<Byte>, rec: Rec, masked: bool) {
    && rr.owner == owner && rr.rtype == rec.rtype && rr.ttl == (if masked then 0 else rec.ttl)
    && Render(rec) == Some(rr.data)
  }

  /** The records l tell those of recs at the places ks. */
  ghost predicate TellsAll(l: seq<RR>, owner: seq<Byte>, recs: seq<Rec>, ks: seq<nat>, masked: bool) {
    |l| == |ks| && forall i :: 0 <= i < |ks| ==> ks[i] < |recs| && Tells(l[i], owner, recs[ks[i]], masked)
  }

  ghost function OfType(recs: seq<Rec>, t: seq<Byte>): nat -> bool {
    (k: nat) => k < |recs| && recs[k].rtype == t
  }

  // ---------- Authority ----------

  lemma {:induction false} TypedExact(recs: seq<Rec>, t: seq<Byte>, owner: seq<Byte>, masked: bool, n: nat)
    returns (ks: seq<nat>)
    requires n <= |recs| && Typed(recs[..n], t, owner, masked, false).Some?
    ensures Selects(ks, n, OfType(recs, t))
    ensures TellsAll(Typed(recs[..n], t, owner, masked, false).value, owner, recs, ks, masked)
    decreases n
  {
    hide Render, Selects;
    ks := [];
    if n > 0 {
      var x := recs[n - 1];
      assert recs[..n][..n - 1] == recs[..n - 1];
      ks := TypedExact(recs, t, owner, masked, n - 1);
      SelectsMore(ks, n - 1, OfType(recs, t));
      if x.rtype == t { ks := ks + [n - 1]; }
    } else {
      SelectsNone(OfType(recs, t));
    }
  }

  lemma {:induction false} FirstSoaExact(recs: seq<Rec>, owner: seq<Byte>, masked: bool) returns (i: nat)
    requires FirstSoa(recs, owner, masked).Some? && HasType(recs, SOA)
    ensures i < |recs| && recs[i].rtype == SOA && forall j :: 0 <= j < i ==> recs[j].rtype != SOA
    ensures var l := FirstSoa(recs, owner, masked).value; |l| == 1 && Tells(l[0], owner, recs[i], masked)
    decreases |recs|
  {
    hide Render;
    if recs[0].rtype == SOA {
      i := 0;
    } else {
      i := FirstSoaExact(recs[1..], owner, masked);
      i := i + 1;
    }
  }

  /** The authority section. With no answer to give, the zone's first SOA record and nothing else. Otherwise the
      zone's name servers, all of them in stored order and nothing else, unless the answers already have name
      servers of the zone: then, and only then, it is empty. */
  lemma {:induction false} AuthorityMeaning(v: View, q: seq<Byte>, qtype: seq<Byte>, masked: bool,
                                            sample: seq<seq<Byte>>)
    returns (z: nat, i: nat, ks: seq<nat>)
    requires IsName(q) && ReplyOf(v, q, qtype, masked, sample).Some?
    ensures ZoneCut(v, q, z) && Shown(v, q[z..], false).Some?
    ensures var rep, recs := ReplyOf(v, q, qtype, masked, sample).value, Shown(v, q[z..], false).value;
      if rep.auth && rep.answer == [] then
        && i < |recs| && recs[i].rtype == [0, 6] && (forall j :: 0 <= j < i ==> recs[j].rtype != [0, 6])
        && |rep.authority| == 1 && Tells(rep.authority[0], Lower(q[z..]), recs[i], masked)
      else
        && (rep.authority == [] <==>
          exists j :: 0 <= j < |rep.answer| && rep.answer[j].owner == Lower(q[z..]) && rep.answer[j].rtype == [0, 2])
        && (rep.authority != [] ==>
          Selects(ks, |recs|, OfType(recs, [0, 2])) && TellsAll(rep.authority, Lower(q[z..]), recs, ks, masked))
  {
    z := ZoneNearest(v, q);
    i, ks := 0, [];
    var control, auth := q[z..], ZoneOf(v, q).auth;
    ReplyParts(v, q, qtype, masked, sample, control, auth);
    var rep := ReplyOf(v, q, qtype, masked, sample).value;
    var recs := Shown(v, control, false).value;
    hide Shown, ZoneOf, ReplyOf, AnswerFor, GlueFrom, Typed, FirstSoa, Tells, TellsAll, Selects, IsSuffixAt, IsName,
      NodeOf;
    if auth && rep.answer == [] {
      i := FirstSoaExact(recs, Lower(control), masked);
    } else {
      HasMeans(rep.answer, Lower(control), NS);
      if !Has(rep.answer, Lower(control), NS) {
        assert recs[..|recs|] == recs;
        ks := TypedExact(recs, NS, Lower(control), masked, |recs|);
        var j :| 0 <= j < |recs| && recs[j].rtype == NS;
        SelectsSome(ks, |recs|, OfType(recs, NS), j);
        TellsSome(rep.authority, Lower(control), recs, ks, masked);
      }
    }
  }

  lemma {:induction false} SelectsSome(ks: seq<nat>, n: nat, want: nat -> bool, k: nat)
    requires Selects(ks, n, want) && k < n && want(k)
    ensures ks != []
  {
    assert k in ks;
  }

  lemma {:induction false} TellsSome(l: seq<RR>, owner: seq<Byte>, recs: seq<Rec>, ks: seq<nat>, masked: bool)
    requires TellsAll(l, owner, recs, ks, masked) && ks != []
    ensures l != []
  {
  }

  lemma {:induction false} HasMeans(l: seq<RR>, owner: seq<Byte>, t: seq<Byte>)
    ensures Has(l, owner, t) <==> exists j :: 0 <= j < |l| && l[j].owner == owner && l[j].rtype == t
  {
    if j :| 0 <= j < |l| && l[j].owner == owner && l[j].rtype == t {
      assert Is(l[j], owner, t);
    }
  }

  // ---------- Answers ----------

  /** Asked for, or an alias. */
  ghost predicate AskedFor(rec: Rec, qtype: seq<Byte>) {
    rec.rtype == qtype || qtype == [0, 255] || rec.rtype == [0, 5]
  }

  /** An address of four bytes. */
  ghost predicate FourBytes(rec: Rec) {
    rec.rtype == [0, 1] && |rec.raw| == rec.dpos + 4
  }

  ghost predicate FirstOfZone(recs: seq<Rec>, k: nat) {
    forall j :: 0 <= j < k && j < |recs| ==> recs[j].rtype != [0, 6]
  }

  /** The records that are given as they are: those asked for but the addresses, and of the SOA records only the
      first. */
  ghost function Given(recs: seq<Rec>, qtype: seq<Byte>): nat -> bool {
    (k: nat) => k < |recs| && AskedFor(recs[k], qtype) && !FourBytes(recs[k])
      && (recs[k].rtype == [0, 6] ==> FirstOfZone(recs, k))
  }

  /** The addresses asked for. */
  ghost function Pooled(recs: seq<Rec>, qtype: seq<Byte>): nat -> bool {
    (k: nat) => k < |recs| && AskedFor(recs[k], qtype) && FourBytes(recs[k])
  }

  lemma {:induction false} OrdinaryExact(recs: seq<Rec>, owner: seq<Byte>, qtype: seq<Byte>, masked: bool, n: nat)
    returns (ks: seq<nat>)
    requires n <= |recs| && Ordinary(recs[..n], owner, qtype, masked).Some?
    ensures Selects(ks, n, Given(recs, qtype))
    ensures TellsAll(Ordinary(recs[..n], owner, qtype, masked).value, owner, recs, ks, masked)
    decreases n
  {
    hide Render, Selects, HasType, FirstOfZone;
    ks := [];
    if n > 0 {
      var x := recs[n - 1];
      assert recs[..n][..n - 1] == recs[..n - 1];
      ks := OrdinaryExact(recs, owner, qtype, masked, n - 1);
      SelectsMore(ks, n - 1, Given(recs, qtype));
      FirstIs(recs, n - 1);
      if Given(recs, qtype)(n - 1) { ks := ks + [n - 1]; }
    } else {
      SelectsNone(Given(recs, qtype));
    }
  }

  lemma {:induction false} FirstIs(recs: seq<Rec>, k: nat)
    requires k <= |recs|
    ensures FirstOfZone(recs, k) <==> !HasType(recs[..k], SOA)
  {
    if j :| 0 <= j < k && recs[j].rtype == SOA {
      assert recs[..k][j].rtype == SOA;
    }
  }

  lemma {:induction false} PoolExact(recs: seq<Rec>, qtype: seq<Byte>, n: nat) returns (ks: seq<nat>)
    requires n <= |recs|
    ensures Selects(ks, n, Pooled(recs, qtype))
    ensures Pool(recs, ks, Addresses(recs[..n], qtype))
    ensures ks != [] ==> LastTtl(recs[..n], qtype) == recs[ks[|ks| - 1]].ttl
    decreases n
  {
    hide Selects;
    ks := [];
    if n > 0 {
      assert recs[..n][..n - 1] == recs[..n - 1];
      ks := PoolExact(recs, qtype, n - 1);
      SelectsMore(ks, n - 1, Pooled(recs, qtype));
      if Pooled(recs, qtype)(n - 1) { ks := ks + [n - 1]; }
    } else {
      SelectsNone(Pooled(recs, qtype));
    }
  }

  /** The data of the records at the places ks. */
  ghost predicate Pool(recs: seq<Rec>, ks: seq<nat>, pool: seq<seq<Byte>>) {
    |pool| == |ks| && forall i :: 0 <= i < |ks| ==>
      ks[i] < |recs| && recs[ks[i]].dpos <= |recs[ks[i]].raw| && pool[i] == recs[ks[i]].raw[recs[ks[i]].dpos..]
  }

  /** The records l are addresses of one owner. */
  ghost predicate TellAddresses(l: seq<RR>, owner: seq<Byte>, ttl: Word, sample: seq<seq<Byte>>) {
    |l| == |sample| && forall i :: 0 <= i < |l| ==> l[i] == RR(owner, [0, 1], ttl, [Raw(sample[i])])
  }

  /** The answer section of an authoritative reply for a name that exists. The name q[o..] is the first with
      visible records, exact ones at q and wildcards above. Its records that are asked for come first, in stored
      order; then up to eight of its addresses, none more often than it is stored, all with the time to live of
      the last. */
  lemma {:induction false} AnswerMeaning(v: View, q: seq<Byte>, qtype: seq<Byte>, masked: bool, sample: seq<seq<Byte>>)
    returns (o: nat, ks: seq<nat>, ps: seq<nat>, pool: seq<seq<Byte>>)
    requires IsName(q) && ReplyOf(v, q, qtype, masked, sample).Some? && Sampling(v, q, qtype, sample)
    requires var rep := ReplyOf(v, q, qtype, masked, sample).value; rep.auth && !rep.nx
    ensures IsSuffixAt(q, o) && o < |q| && Populated(v, q[o..], o != 0)
    ensures forall p :: 0 <= p < o && IsSuffixAt(q, p) ==> !Populated(v, q[p..], p != 0)
    ensures var l, recs := ReplyOf(v, q, qtype, masked, sample).value.answer, Shown(v, q[o..], o != 0).value;
      && Selects(ks, |recs|, Given(recs, qtype)) && |ks| <= |l| && TellsAll(l[..|ks|], Lower(q), recs, ks, masked)
      && Selects(ps, |recs|, Pooled(recs, qtype)) && Pool(recs, ps, pool)
      && |sample| == (if |ps| < 8 then |ps| else 8) && multiset(sample) <= multiset(pool)
      && TellAddresses(l[|ks|..], Lower(q), if masked || ps == [] then 0 else recs[ps[|ps| - 1]].ttl, sample)
  {
    var z := ZoneNearest(v, q);
    var control := q[z..];
    ReplyParts(v, q, qtype, masked, sample, control, true);
    o := NodeNearest(v, q, q, control, z);
    var recs, l := NodeOf(v, q, q, control).recs, ReplyOf(v, q, qtype, masked, sample).value.answer;
    NoneAbove(v, q, o);
    hide Shown, ZoneOf, NodeOf, ReplyOf, GlueFrom, AuthorityOf, Ordinary, Addresses, LastTtl, Selects, TellsAll, Pool,
      NoneBefore, IsSuffixAt, IsName, Lower, HasType, AddressRRs;
    assert |q[o..]| != |q| <==> o != 0;
    assert recs[..|recs|] == recs;
    var plain, ttl := Ordinary(recs, Lower(q), qtype, masked).value, Told(masked, LastTtl(recs, qtype));
    assert l == plain + AddressRRs(sample, Lower(q), ttl);
    ks := OrdinaryExact(recs, Lower(q), qtype, masked, |recs|);
    ps := PoolExact(recs, qtype, |recs|);
    pool := Addresses(recs, qtype);
    TellsLength(plain, Lower(q), recs, ks, masked);
    PoolLength(recs, ps, pool);
    assert l[..|ks|] == plain && l[|ks|..] == AddressRRs(sample, Lower(q), ttl);
    AddressesTell(sample, Lower(q), ttl);
  }

  lemma {:induction false} NoneAbove(v: View, q: seq<Byte>, o: nat)
    requires IsName(q) && o <= |q| && NoneBefore(v, q, q, o)
    ensures forall p :: 0 <= p < o && IsSuffixAt(q, p) ==> !Populated(v, q[p..], p != 0)
  {
    hide Populated, IsSuffixAt, IsName;
    forall p | 0 <= p < o && IsSuffixAt(q, p) ensures !Populated(v, q[p..], p != 0) {
      assert |q[p..]| == |q| - p;
    }
  }

  lemma {:induction false} TellsLength(l: seq<RR>, owner: seq<Byte>, recs: seq<Rec>, ks: seq<nat>, masked: bool)
    requires TellsAll(l, owner, recs, ks, masked)
    ensures |l| == |ks|
  {
  }

  lemma {:induction false} PoolLength(recs: seq<Rec>, ks: seq<nat>, pool: seq<seq<Byte>>)
    requires Pool(recs, ks, pool)
    ensures |pool| == |ks|
  {
  }

  lemma {:induction false} AddressesTell(sample: seq<seq<Byte>>, owner: seq<Byte>, ttl: Word)
    ensures TellAddresses(AddressRRs(sample, owner, ttl), owner, ttl, sample)
  {
  }

  // ---------- Glue ----------

  /** The record names this host: a name server's, or a mail exchanger's. */
  ghost predicate Points(rr: RR, h: seq<Byte>) {
    || (rr.rtype == [0, 2] && |rr.data| == 1 && rr.data[0] == Name(h))
    || (rr.rtype == [0, 15] && |rr.data| == 2 && rr.data[1] == Name(h))
  }

  ghost predicate Pointed(l: seq<RR>, h: seq<Byte>) {
    exists j :: 0 <= j < |l| && Points(l[j], h)
  }

  ghost predicate NoneOf(l: seq<RR>, h: seq<Byte>) {
    forall i :: 0 <= i < |l| ==> l[i].owner != h
  }

  /** The four bytes of stored addresses, at the places ks. */
  ghost predicate TellsGlue(l: seq<RR>, h: seq<Byte>, recs: seq<Rec>, ks: seq<nat>, masked: bool) {
    |l| == |ks| && forall i :: 0 <= i < |ks| ==> ks[i] < |recs| && TellsFour(l[i], h, recs[ks[i]], masked)
  }

  ghost predicate TellsFour(rr: RR, h: seq<Byte>, rec: Rec, masked: bool) {
    rec.dpos + 4 <= |rec.raw|
    && rr == RR(h, [0, 1], if masked then 0 else rec.ttl, [Raw(rec.raw[rec.dpos..rec.dpos + 4])])
  }

  lemma {:induction false} GlueExact(recs: seq<Rec>, h: seq<Byte>, masked: bool, n: nat) returns (ks: seq<nat>)
    requires n <= |recs| && Typed(recs[..n], A, h, masked, true).Some?
    ensures Selects(ks, n, OfType(recs, A))
    ensures TellsGlue(Typed(recs[..n], A, h, masked, true).value, h, recs, ks, masked)
    decreases n
  {
    hide Selects;
    ks := [];
    if n > 0 {
      var x := recs[n - 1];
      assert recs[..n][..n - 1] == recs[..n - 1];
      ks := GlueExact(recs, h, masked, n - 1);
      SelectsMore(ks, n - 1, OfType(recs, A));
      if x.rtype == A { ks := ks + [n - 1]; }
    } else {
      SelectsNone(OfType(recs, A));
    }
  }

  lemma {:induction false} PointsIs(rr: RR, h: seq<Byte>)
    ensures Points(rr, h) <==> HostOf(rr) == Some(h)
  {
  }

  /** What the glue loop adds behind a log. */
  ghost function Extra(v: View, todo: seq<RR>, log: seq<RR>, masked: bool): seq<RR>
    requires GlueFrom(v, todo, log, masked).Some?
  {
    var l := GlueFrom(v, todo, log, masked).value;
    if |log| <= |l| then l[|log|..] else []
  }

  /** One step: nothing for a host that has an address already, and else its addresses. */
  lemma {:induction false} ExtraStep(v: View, todo: seq<RR>, log: seq<RR>, masked: bool) returns (b: seq<RR>)
    requires GlueFrom(v, todo, log, masked).Some? && todo != []
    ensures GlueFrom(v, todo[1..], log + b, masked).Some?
    ensures Extra(v, todo, log, masked) == b + Extra(v, todo[1..], log + b, masked)
    ensures match HostOf(todo[0])
            case None => b == []
            case Some(g) =>
              if Has(log, g, A) then b == []
              else Shown(v, g, false).Some? && Typed(Shown(v, g, false).value, A, g, masked, true) == Some(b)
  {
    hide Shown, Typed, Has, HostOf;
    b := [];
    var h := HostOf(todo[0]);
    if h.Some? && !Has(log, h.value, A) { b := Typed(Shown(v, h.value, false).value, A, h.value, masked, true).value; }
    assert log + [] == log;
    assert GlueFrom(v, todo, log, masked) == GlueFrom(v, todo[1..], log + b, masked);
    GlueGrows(v, todo[1..], log + b, masked);
    ExtraSplit(log, b, GlueFrom(v, todo, log, masked).value);
  }

  lemma {:induction false} ExtraSplit(log: seq<RR>, b: seq<RR>, l: seq<RR>)
    requires log + b <= l
    ensures |log| <= |l| && l[|log|..] == b + l[|log + b|..]
  {
    assert l == (log + b) + l[|log + b|..];
  }

  /** Only addresses of hosts that are named are added. */
  lemma {:induction false} ExtraOwners(v: View, todo: seq<RR>, log: seq<RR>, masked: bool)
    requires GlueFrom(v, todo, log, masked).Some?
    ensures var l := Extra(v, todo, log, masked);
      forall i :: 0 <= i < |l| ==> l[i].rtype == [0, 1] && Pointed(todo, l[i].owner)
    decreases |todo|
  {
    hide Shown, Typed, Has, HostOf, Points;
    if todo != [] {
      var b := ExtraStep(v, todo, log, masked);
      ExtraOwners(v, todo[1..], log + b, masked);
      if b != [] {
        var g := HostOf(todo[0]).value;
        TypedHas(Shown(v, g, false).value, A, g, masked, true);
        PointsIs(todo[0], g);
      }
      hide GlueFrom, Extra;
      var l, rest := Extra(v, todo, log, masked), Extra(v, todo[1..], log + b, masked);
      forall i | 0 <= i < |l| ensures l[i].rtype == [0, 1] && Pointed(todo, l[i].owner) {
        if i < |b| {
          assert Is(b[i], HostOf(todo[0]).value, A) && Points(todo[0], l[i].owner);
        } else {
          assert l[i] == rest[i - |b|];
          PointedMore(todo, l[i].owner);
        }
      }
    } else {
      assert Extra(v, todo, log, masked) == [];
    }
  }

  lemma {:induction false} PointedMore(todo: seq<RR>, h: seq<Byte>)
    requires todo != [] && Pointed(todo[1..], h)
    ensures Pointed(todo, h)
  {
    var j :| 0 <= j < |todo[1..]| && Points(todo[1..][j], h);
    assert Points(todo[j + 1], h);
  }

  /** Nothing is added for a host that has an address already, or that is not named. */
  lemma {:induction false} ExtraOthers(v: View, todo: seq<RR>, log: seq<RR>, masked: bool, h: seq<Byte>)
    requires GlueFrom(v, todo, log, masked).Some? && (Has(log, h, A) || !Pointed(todo, h))
    ensures NoneOf(Extra(v, todo, log, masked), h)
    decreases |todo|
  {
    hide Shown, Typed, Has, HostOf, Points;
    if todo != [] {
      var b := ExtraStep(v, todo, log, masked);
      if Has(log, h, A) {
        HasGrows(log, log + b, h, A);
      } else if Pointed(todo[1..], h) {
        PointedMore(todo, h);
      }
      ExtraOthers(v, todo[1..], log + b, masked, h);
      if b != [] {
        var g := HostOf(todo[0]).value;
        TypedHas(Shown(v, g, false).value, A, g, masked, true);
        PointsIs(todo[0], g);
        assert Points(todo[0], g) && g != h;
        assert forall i :: 0 <= i < |b| ==> Is(b[i], g, A);
      }
    }
  }

  /** For a host that is named and has no address yet, its visible addresses are added in one place and nowhere
      else. */
  lemma {:induction false} ExtraBlock(v: View, todo: seq<RR>, log: seq<RR>, masked: bool, h: seq<Byte>)
    returns (k: nat, block: seq<RR>)
    requires GlueFrom(v, todo, log, masked).Some? && !Has(log, h, A) && Pointed(todo, h)
    ensures Shown(v, h, false).Some? && Typed(Shown(v, h, false).value, A, h, masked, true) == Some(block)
    ensures var l := Extra(v, todo, log, masked);
      && k + |block| <= |l| && l[k..k + |block|] == block && NoneOf(l[..k], h) && NoneOf(l[k + |block|..], h)
    decreases |todo|
  {
    hide Shown, Typed, Has, HostOf, Points, GlueFrom, Extra, NoneOf;
    var b := ExtraStep(v, todo, log, masked);
    PointsIs(todo[0], h);
    var j :| 0 <= j < |todo| && Points(todo[j], h);
    var l, rest := Extra(v, todo, log, masked), Extra(v, todo[1..], log + b, masked);
    if Points(todo[0], h) && b != [] {
      k, block := 0, b;
      NoneOfNothing(h);
      assert l[..0] == [];
      TypedHas(Shown(v, h, false).value, A, h, masked, true);
      assert Is(b[0], h, A);
      assert Has(b, h, A) by { HasFirst(b, h); }
      HasBehind(log, b, h, A);
      ExtraOthers(v, todo[1..], log + b, masked, h);
      assert l[|b|..] == rest;
    } else if Points(todo[0], h) && !Pointed(todo[1..], h) {
      k, block := 0, b;
      NoneOfNothing(h);
      assert l[..0] == [];
      ExtraOthers(v, todo[1..], log + b, masked, h);
      assert l == rest;
    } else {
      if Points(todo[0], h) {
        assert b == [] && log + b == log;
        NoneOfNothing(h);
      } else {
        assert Points(todo[1..][j - 1], h);
        NotYet(v, todo[0], log, b, masked, h);
      }
      k, block := ExtraBlock(v, todo[1..], log + b, masked, h);
      assert forall i :: 0 <= i < |rest| ==> l[|b| + i] == rest[i];
      NotIn(b, rest, k, |block|, h);
      k := |b| + k;
    }
  }

  lemma {:induction false} NoneOfNothing(h: seq<Byte>)
    ensures NoneOf([], h)
  {
  }

  lemma {:induction false} HasFirst(b: seq<RR>, h: seq<Byte>)
    requires b != [] && Is(b[0], h, A)
    ensures Has(b, h, A)
  {
  }

  /** A block for another host leaves the host without an address. */
  lemma {:induction false} NotYet(v: View, rr: RR, log: seq<RR>, b: seq<RR>, masked: bool, h: seq<Byte>)
    requires !Has(log, h, A) && !Points(rr, h)
    requires b != [] ==>
      && HostOf(rr).Some? && Shown(v, HostOf(rr).value, false).Some?
      && Typed(Shown(v, HostOf(rr).value, false).value, A, HostOf(rr).value, masked, true) == Some(b)
    ensures !Has(log + b, h, A) && NoneOf(b, h)
  {
    hide Shown, Typed;
    PointsIs(rr, h);
    if b != [] {
      var g := HostOf(rr).value;
      TypedHas(Shown(v, g, false).value, A, g, masked, true);
      assert forall i :: 0 <= i < |b| ==> Is(b[i], g, A);
    }
    forall i | 0 <= i < |log + b| ensures !Is((log + b)[i], h, A) {
      if i < |log| { assert (log + b)[i] == log[i]; }
    }
  }

  lemma {:induction false} NotIn(b: seq<RR>, rest: seq<RR>, k: nat, n: nat, h: seq<Byte>)
    requires NoneOf(b, h) && k + n <= |rest| && NoneOf(rest[..k], h) && NoneOf(rest[k + n..], h)
    ensures var l := b + rest;
      && l[|b| + k..|b| + k + n] == rest[k..k + n] && NoneOf(l[..|b| + k], h) && NoneOf(l[|b| + k + n..], h)
  {
    var l := b + rest;
    assert l[..|b| + k] == b + rest[..k] && l[|b| + k + n..] == rest[k + n..];
  }

  /** The additional section. It has addresses only, of hosts that the other two sections name. For a host that
      is named there and has no address there, it has all visible addresses of the host, in stored order, in one
      place and nowhere else; for any other name it has nothing. */
  lemma {:induction false} GlueMeaning(v: View, q: seq<Byte>, qtype: seq<Byte>, masked: bool, sample: seq<seq<Byte>>,
                                       h: seq<Byte>)
    returns (k: nat, ks: seq<nat>)
    requires IsName(q) && ReplyOf(v, q, qtype, masked, sample).Some?
    ensures var rep := ReplyOf(v, q, qtype, masked, sample).value;
      var said, l := rep.answer + rep.authority, rep.additional;
      && (forall i :: 0 <= i < |l| ==> l[i].rtype == [0, 1] && Pointed(said, l[i].owner))
      && if Pointed(said, h) && !(exists j :: 0 <= j < |said| && said[j].owner == h && said[j].rtype == [0, 1]) then
           && Shown(v, h, false).Some? && k + |ks| <= |l| && NoneOf(l[..k], h) && NoneOf(l[k + |ks|..], h)
           && Selects(ks, |Shown(v, h, false).value|, OfType(Shown(v, h, false).value, [0, 1]))
           && TellsGlue(l[k..k + |ks|], h, Shown(v, h, false).value, ks, masked)
         else NoneOf(l, h)
  {
    ReplyParts(v, q, qtype, masked, sample, ZoneOf(v, q).control, ZoneOf(v, q).auth);
    var rep := ReplyOf(v, q, qtype, masked, sample).value;
    var said, l := rep.answer + rep.authority, rep.additional;
    hide Shown, ZoneOf, ReplyOf, GlueFrom, AuthorityOf, AnswerFor, Typed, Has, Points, Selects, TellsGlue, IsName;
    k, ks := 0, [];
    HasMeans(said, h, A);
    assert said + l == rep.answer + rep.authority + rep.additional;
    assert Extra(v, said, said, masked) == l;
    ExtraOwners(v, said, said, masked);
    if Pointed(said, h) && !Has(said, h, A) {
      var block;
      k, block := ExtraBlock(v, said, said, masked, h);
      var recs := Shown(v, h, false).value;
      assert recs[..|recs|] == recs;
      ks := GlueExact(recs, h, masked, |recs|);
      GlueLength(block, h, recs, ks, masked);
    } else {
      ExtraOthers(v, said, said, masked, h);
    }
  }

  lemma {:induction false} GlueLength(l: seq<RR>, h: seq<Byte>, recs: seq<Rec>, ks: seq<nat>, masked: bool)
    requires TellsGlue(l, h, recs, ks, masked)
    ensures |l| == |ks|
  {
  }
}
