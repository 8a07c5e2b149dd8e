/** What an authoritative reply says, as a function of the visible records: the specification that doit
    of src/tdlookup.c refines. The only freedom left is which addresses are sampled. */
module TdSpec {
  import opened Basics
  import opened Bytes
  import opened DnsName
  import opened RecordData
  import opened TdRecords
  import opened TdMessage

  /** The name without its first label. */
  function Parent(q: seq<Byte>): (p: seq<Byte>)
    requires IsName(q) && q[0] != 0
    ensures IsName(p) && |p| < |q|
  {
    q[1 + q[0]..]
  }

  /** A proper suffix of d is a suffix of its parent, and the other way round. */
  lemma {:induction false} SuffixBelow(d: seq<Byte>, z: nat) returns (n: nat)
    requires IsName(d) && IsSuffixAt(d, z) && 0 < z < |d|
    ensures d[0] != 0 && n == 1 + d[0] && n <= z && IsSuffixAt(Parent(d), z - n)
    ensures |Parent(d)| == |d| - n && Parent(d)[z - n..] == d[z..]
  {
    n := 1 + d[0];
  }

  lemma {:induction false} SuffixAbove(d: seq<Byte>, o: nat)
    requires IsName(d) && d[0] != 0 && IsSuffixAt(Parent(d), o) && o <= |Parent(d)|
    ensures IsSuffixAt(d, 1 + d[0] + o) && d[1 + d[0] + o..] == Parent(d)[o..]
  {
  }

  // ---------- The zone ----------

  datatype Zone = NoZone | BadZone | ZoneAt(control: seq<Byte>, auth: bool)

  /** The nearest ancestor of q with name server records; whether it has an SOA record too. */
  function ZoneOf(v: View, q: seq<Byte>): Zone
    requires IsName(q)
    decreases |q|
  {
    match Shown(v, q, false)
    case None => BadZone
    case Some(recs) =>
      if HasType(recs, NS) then ZoneAt(q, HasType(recs, SOA))
      else if q[0] == 0 then NoZone
      else ZoneOf(v, Parent(q))
  }

  /** Name d is shown with name server records. */
  predicate Owns(v: View, d: seq<Byte>) {
    var s := Shown(v, d, false);
    s.Some? && HasType(s.value, NS)
  }

  predicate Readable(v: View, d: seq<Byte>, wild: bool) {
    Shown(v, d, wild).Some?
  }

  /** No suffix of d at an offset below o owns name server records. */
  ghost predicate NoZoneBefore(v: View, d: seq<Byte>, o: nat)
    requires IsName(d) && o <= |d|
  {
    forall p :: 0 <= p < o && IsSuffixAt(d, p) ==> !Owns(v, d[p..])
  }

  lemma {:induction false} NoZoneStep(v: View, d: seq<Byte>, o: nat)
    requires IsName(d) && d[0] != 0 && o <= |Parent(d)| && !Owns(v, d) && NoZoneBefore(v, Parent(d), o)
    ensures NoZoneBefore(v, d, 1 + d[0] + o)
  {
    hide Owns;
    var n := 1 + d[0];
    forall p | 0 <= p < n + o && IsSuffixAt(d, p) ensures !Owns(v, d[p..]) {
      if p == 0 {
        assert d[p..] == d;
      } else {
        assert IsSuffixAt(d[n..], p - n) && d[n..][p - n..] == d[p..];
      }
    }
  }

  lemma {:induction false} NoZoneStart(v: View, d: seq<Byte>)
    requires IsName(d)
    ensures NoZoneBefore(v, d, 0) && (!Owns(v, d) && d[0] == 0 ==> NoZoneBefore(v, d, |d|))
  {
    hide Owns;
    assert d[0..] == d;
  }

  /** The zone is the longest suffix of q that owns name server records. */
  lemma {:induction false} ZoneNearest(v: View, q: seq<Byte>) returns (o: nat)
    requires IsName(q)
    ensures o < |q| && IsSuffixAt(q, o)
    ensures match ZoneOf(v, q)
            case ZoneAt(control, auth) =>
              && q[o..] == control && IsName(control) && Owns(v, control) && NoZoneBefore(v, q, o)
              && (auth <==> HasType(Shown(v, control, false).value, SOA))
            case NoZone => NoZoneBefore(v, q, |q|)
            case BadZone => !Readable(v, q[o..], false) && NoZoneBefore(v, q, o)
    decreases |q|
  {
    SuffixStart(q);
    NoZoneStart(v, q);
    if q[0] == 0 || Owns(v, q) || !Readable(v, q, false) {
      o := 0;
    } else {
      assert Shown(v, q, false).Some? && !HasType(Shown(v, q, false).value, NS);
      hide Shown, HasType, NoZoneBefore, IsSuffixAt, IsName, Owns, Readable;
      var o' := ZoneNearest(v, Parent(q));
      o := 1 + q[0] + o';
      SuffixAbove(q, o');
      NoZoneStep(v, q, if ZoneOf(v, q).NoZone? then |Parent(q)| else o');
    }
  }

  // ---------- The answering node ----------

  datatype Node = BadNode | Nothing | NodeAt(name: seq<Byte>, recs: seq<Rec>)

  /** The first name from d up to the zone that has visible records: exact ones at q, wildcards above. */
  function NodeOf(v: View, q: seq<Byte>, d: seq<Byte>, control: seq<Byte>): Node
    requires IsName(d)
    decreases |d|
  {
    match Shown(v, d, |d| != |q|)
    case None => BadNode
    case Some(recs) =>
      if recs != [] then NodeAt(d, recs)
      else if |d| == |control| || d[0] == 0 then Nothing
      else NodeOf(v, q, Parent(d), control)
  }

  predicate Populated(v: View, d: seq<Byte>, wild: bool) {
    var s := Shown(v, d, wild);
    s.Some? && s.value != []
  }

  /** No suffix of d at an offset below o is populated. */
  ghost predicate NoneBefore(v: View, q: seq<Byte>, d: seq<Byte>, o: nat)
    requires IsName(d) && o <= |d|
  {
    forall p :: 0 <= p < o && IsSuffixAt(d, p) ==> !Populated(v, d[p..], |d[p..]| != |q|)
  }

  lemma {:induction false} NoneStep(v: View, q: seq<Byte>, d: seq<Byte>, o: nat)
    requires IsName(d) && d[0] != 0 && o <= |Parent(d)|
    requires !Populated(v, d, |d| != |q|) && NoneBefore(v, q, Parent(d), o)
    ensures NoneBefore(v, q, d, 1 + d[0] + o)
  {
    hide Populated;
    var n := 1 + d[0];
    forall p | 0 <= p < n + o && IsSuffixAt(d, p) ensures !Populated(v, d[p..], |d[p..]| != |q|) {
      if p == 0 {
        assert d[p..] == d;
      } else {
        assert IsSuffixAt(d[n..], p - n) && d[n..][p - n..] == d[p..];
      }
    }
  }

  lemma {:induction false} NoneAtStart(v: View, q: seq<Byte>, d: seq<Byte>)
    requires IsName(d)
    ensures NoneBefore(v, q, d, 0) && (!Populated(v, d, |d| != |q|) ==> NoneBefore(v, q, d, 1))
  {
    hide Populated;
    assert d[0..] == d;
  }

  /** The search stops at the first populated name; there is none exactly when no name from q up to the
      zone cut is populated. Here the zone cut is the suffix of d at offset z. */
  lemma {:induction false} NodeNearest(v: View, q: seq<Byte>, d: seq<Byte>, control: seq<Byte>, z: nat) returns (o: nat)
    requires IsName(d) && IsSuffixAt(d, z) && z < |d| && control == d[z..]
    ensures o <= z && IsSuffixAt(d, o)
    ensures match NodeOf(v, q, d, control)
            case NodeAt(name, recs) =>
              d[o..] == name && recs != [] && Shown(v, name, |name| != |q|) == Some(recs) && NoneBefore(v, q, d, o)
            case Nothing => NoneBefore(v, q, d, z + 1)
            case BadNode => !Readable(v, d[o..], |d[o..]| != |q|) && NoneBefore(v, q, d, o)
    decreases |d|
  {
    hide Shown, NoneBefore, IsSuffixAt, IsName, NodeOf, Readable;
    var s := Shown(v, d, |d| != |q|);
    if s != Some([]) || z == 0 {
      o := 0;
      SuffixStart(d);
      NoneAtStart(v, q, d);
      NodeAtOnce(v, q, d, control, z);
    } else {
      var n := SuffixBelow(d, z);
      var o' := NodeNearest(v, q, Parent(d), control, z - n);
      o := n + o';
      SuffixAbove(d, o');
      NodeStep(v, q, d, control);
      if NodeOf(v, q, d, control) == Nothing { NoneStep(v, q, d, z - n + 1); } else { NoneStep(v, q, d, o'); }
    }
  }

  lemma {:induction false} NodeAtOnce(v: View, q: seq<Byte>, d: seq<Byte>, control: seq<Byte>, z: nat)
    requires IsName(d) && z < |d| && control == d[z..] && (Shown(v, d, |d| != |q|) != Some([]) || z == 0)
    ensures d[0..] == d
    ensures match NodeOf(v, q, d, control)
            case NodeAt(name, recs) => d == name && recs != [] && Shown(v, name, |name| != |q|) == Some(recs)
            case Nothing => z == 0 && NoneBefore(v, q, d, 1)
            case BadNode => !Readable(v, d, |d| != |q|)
  {
    hide IsName;
    assert d[0..] == d;
  }

  lemma {:induction false} NodeStep(v: View, q: seq<Byte>, d: seq<Byte>, control: seq<Byte>)
    requires IsName(d) && Shown(v, d, |d| != |q|) == Some([]) && |d| != |control| && d[0] != 0
    ensures NodeOf(v, q, d, control) == NodeOf(v, q, Parent(d), control)
  {
    hide Shown;
  }

  // ---------- The answer ----------

  function Told(masked: bool, ttl: Word): Word {
    if masked then 0 else ttl
  }

  predicate Wanted(t: seq<Byte>, qtype: seq<Byte>) {
    t == qtype || qtype == ANY || t == CNAME
  }

  /** An address record that goes through the sampler. */
  predicate IsAddress(rec: Rec, qtype: seq<Byte>) {
    Wanted(rec.rtype, qtype) && rec.rtype == A && |rec.raw| == rec.dpos + 4
  }

  /** The wanted records other than addresses, in stored order; only the first SOA record counts. */
  ghost function Ordinary(recs: seq<Rec>, owner: seq<Byte>, qtype: seq<Byte>, masked: bool): Option<seq<RR>>
    decreases |recs|
  {
    if recs == [] then Some([])
    else
      var init, x := recs[..|recs| - 1], recs[|recs| - 1];
      match Ordinary(init, owner, qtype, masked)
      case None => None
      case Some(l) =>
        if !Wanted(x.rtype, qtype) || IsAddress(x, qtype) || (x.rtype == SOA && HasType(init, SOA)) then Some(l)
        else
          match Render(x)
          case None => None
          case Some(data) => Some(l + [RR(owner, x.rtype, Told(masked, x.ttl), data)])
  }

  /** The addresses to choose from. */
  ghost function Addresses(recs: seq<Rec>, qtype: seq<Byte>): seq<seq<Byte>>
    decreases |recs|
  {
    if recs == [] then []
    else
      var x := recs[|recs| - 1];
      Addresses(recs[..|recs| - 1], qtype) + if IsAddress(x, qtype) then [x.raw[x.dpos..]] else []
  }

  /** The sampled addresses are all told the time to live of the last one stored. */
  ghost function LastTtl(recs: seq<Rec>, qtype: seq<Byte>): Word
    decreases |recs|
  {
    if recs == [] then 0
    else if IsAddress(recs[|recs| - 1], qtype) then recs[|recs| - 1].ttl
    else LastTtl(recs[..|recs| - 1], qtype)
  }

  /** At most eight of the addresses, each no more often than it is stored. */
  ghost predicate GoodSample(sample: seq<seq<Byte>>, from: seq<seq<Byte>>) {
    |sample| == (if |from| < 8 then |from| else 8) && multiset(sample) <= multiset(from)
  }

  ghost function AddressRRs(sample: seq<seq<Byte>>, owner: seq<Byte>, ttl: Word): (l: seq<RR>)
    ensures |l| == |sample| && forall i :: 0 <= i < |l| ==> l[i] == RR(owner, A, ttl, [Raw(sample[i])])
  {
    seq(|sample|, i requires 0 <= i < |sample| => RR(owner, A, ttl, [Raw(sample[i])]))
  }

  /** The answer section, and whether the name exists. */
  datatype Answering = NoAnswer | Answering(nx: bool, rrs: seq<RR>)

  ghost function AnswerOf(v: View, q: seq<Byte>, qtype: seq<Byte>, control: seq<Byte>, masked: bool,
                          sample: seq<seq<Byte>>): Answering
    requires IsName(q)
  {
    match NodeOf(v, q, q, control)
    case BadNode => NoAnswer
    case Nothing => Answering(true, [])
    case NodeAt(_, recs) =>
      match Ordinary(recs, Lower(q), qtype, masked)
      case None => NoAnswer
      case Some(l) => Answering(false, l + AddressRRs(sample, Lower(q), Told(masked, LastTtl(recs, qtype))))
  }

  ghost predicate SampleOf(v: View, q: seq<Byte>, qtype: seq<Byte>, control: seq<Byte>, sample: seq<seq<Byte>>)
    requires IsName(q)
  {
    match NodeOf(v, q, q, control)
    case NodeAt(_, recs) => GoodSample(sample, Addresses(recs, qtype))
    case _ => sample == []
  }

  // ---------- Authority and additional records ----------

  ghost function RenderAs(rec: Rec, glue: bool): Option<seq<Piece>> {
    if glue then RenderGlue(rec) else Render(rec)
  }

  /** The records of one type, in stored order. */
  ghost function Typed(recs: seq<Rec>, t: seq<Byte>, owner: seq<Byte>, masked: bool, glue: bool): Option<seq<RR>>
    decreases |recs|
  {
    if recs == [] then Some([])
    else
      var x := recs[|recs| - 1];
      match Typed(recs[..|recs| - 1], t, owner, masked, glue)
      case None => None
      case Some(l) =>
        if x.rtype != t then Some(l)
        else
          match RenderAs(x, glue)
          case None => None
          case Some(data) => Some(l + [RR(owner, t, Told(masked, x.ttl), data)])
  }

  /** The SOA record when there is nothing else to say, or the zone's name servers unless the answer
      already lists them. */
  ghost function AuthorityOf(v: View, control: seq<Byte>, auth: bool, answer: seq<RR>, masked: bool): Option<seq<RR>>
  {
    match Shown(v, control, false)
    case None => None
    case Some(recs) =>
      if auth && answer == [] then FirstSoa(recs, Lower(control), masked)
      else if Has(answer, Lower(control), NS) then Some([])
      else Typed(recs, NS, Lower(control), masked, false)
  }

  ghost function FirstSoa(recs: seq<Rec>, owner: seq<Byte>, masked: bool): Option<seq<RR>>
    decreases |recs|
  {
    if recs == [] then Some([])
    else if recs[0].rtype == SOA then
      match Render(recs[0])
      case None => None
      case Some(data) => Some([RR(owner, SOA, Told(masked, recs[0].ttl), data)])
    else FirstSoa(recs[1..], owner, masked)
  }

  /** The host a name server or mail exchanger record points to. */
  ghost function HostOf(rr: RR): Option<seq<Byte>> {
    if rr.rtype == NS && |rr.data| == 1 && rr.data[0].Name? then Some(rr.data[0].w)
    else if rr.rtype == MX && |rr.data| == 2 && rr.data[1].Name? then Some(rr.data[1].w)
    else None
  }

  /** The whole response after the addresses of the targets of `todo` have been added to it. */
  ghost function GlueFrom(v: View, todo: seq<RR>, log: seq<RR>, masked: bool): Option<seq<RR>>
    decreases |todo|
  {
    if todo == [] then Some(log)
    else
      match HostOf(todo[0])
      case None => GlueFrom(v, todo[1..], log, masked)
      case Some(host) =>
        if Has(log, host, A) then GlueFrom(v, todo[1..], log, masked)
        else
          match Shown(v, host, false)
          case None => None
          case Some(recs) =>
            match Typed(recs, A, host, masked, true)
            case None => None
            case Some(l) => GlueFrom(v, todo[1..], log + l, masked)
  }

  // ---------- The reply ----------

  datatype Reply = Reply(auth: bool, nx: bool, answer: seq<RR>, authority: seq<RR>, additional: seq<RR>)

  ghost function Rest(v: View, control: seq<Byte>, auth: bool, nx: bool, answer: seq<RR>, masked: bool): Option<Reply> {
    match AuthorityOf(v, control, auth, answer, masked)
    case None => None
    case Some(authority) =>
      match GlueFrom(v, answer + authority, answer + authority, masked)
      case None => None
      case Some(log) =>
        if |log| < |answer + authority| then None
        else Some(Reply(auth, nx, answer, authority, log[|answer + authority|..]))
  }

  /** The answer section: empty below a zone cut. */
  ghost function AnswerFor(v: View, q: seq<Byte>, qtype: seq<Byte>, control: seq<Byte>, auth: bool, masked: bool,
                           sample: seq<seq<Byte>>): Answering
    requires IsName(q)
  {
    if auth then AnswerOf(v, q, qtype, control, masked, sample) else Answering(false, [])
  }

  /** The sample is one that the zone's records allow. */
  ghost predicate SampleFor(v: View, q: seq<Byte>, qtype: seq<Byte>, control: seq<Byte>, auth: bool,
                            sample: seq<seq<Byte>>)
    requires IsName(q)
  {
    if auth then SampleOf(v, q, qtype, control, sample) else sample == []
  }

  /** The sample is one the zone's records allow. */
  ghost predicate Sampling(v: View, q: seq<Byte>, qtype: seq<Byte>, sample: seq<seq<Byte>>)
    requires IsName(q)
  {
    match ZoneOf(v, q)
    case ZoneAt(control, auth) => SampleFor(v, q, qtype, control, auth, sample)
    case _ => false
  }

  /** The reply to a question, for a given sample of addresses; None when there is no reply. */
  ghost function ReplyOf(v: View, q: seq<Byte>, qtype: seq<Byte>, masked: bool, sample: seq<seq<Byte>>): Option<Reply>
    requires IsName(q)
  {
    match ZoneOf(v, q)
    case NoZone => None
    case BadZone => None
    case ZoneAt(control, auth) =>
      match AnswerFor(v, q, qtype, control, auth, masked, sample)
      case NoAnswer => None
      case Answering(nx, rrs) => Rest(v, control, auth, nx, rrs, masked)
  }

  lemma {:induction false} GlueGrows(v: View, todo: seq<RR>, log: seq<RR>, masked: bool)
    ensures var r := GlueFrom(v, todo, log, masked); r.Some? ==> log <= r.value
    decreases |todo|
  {
    hide Shown, Typed;
    if todo != [] {
      var h := HostOf(todo[0]);
      if h.None? || Has(log, h.value, A) {
        GlueGrows(v, todo[1..], log, masked);
      } else {
        var s := Shown(v, h.value, false);
        if s.Some? {
          var t := Typed(s.value, A, h.value, masked, true);
          if t.Some? {
            GlueGrows(v, todo[1..], log + t.value, masked);
          }
        }
      }
    }
  }

  // ---------- Whichever addresses are sampled ----------

  /** Equal but for the data of address records. */
  ghost predicate Alike(a: seq<RR>, b: seq<RR>) {
    |a| == |b| && forall i :: 0 <= i < |a| ==> AlikeAt(a[i], b[i])
  }

  ghost predicate AlikeAt(x: RR, y: RR) {
    x == y || (x.rtype == A && y.rtype == A && x.owner == y.owner)
  }

  lemma {:induction false} AlikeMore(a: seq<RR>, b: seq<RR>, l: seq<RR>)
    requires Alike(a, b)
    ensures Alike(a + l, b + l)
  {
  }

  lemma {:induction false} AlikeHas(a: seq<RR>, b: seq<RR>, owner: seq<Byte>, t: seq<Byte>)
    requires Alike(a, b)
    ensures Has(a, owner, t) <==> Has(b, owner, t)
  {
    if i :| 0 <= i < |a| && Is(a[i], owner, t) {
      assert AlikeAt(a[i], b[i]) && Is(b[i], owner, t);
    }
    if i :| 0 <= i < |b| && Is(b[i], owner, t) {
      assert AlikeAt(a[i], b[i]) && Is(a[i], owner, t);
    }
  }

  /** Which hosts get glue, and whether it can be written, does not depend on the sample. */
  lemma {:induction false} AlikeGlue(v: View, todo: seq<RR>, todo': seq<RR>, log: seq<RR>, log': seq<RR>, masked: bool)
    requires Alike(todo, todo') && Alike(log, log')
    ensures GlueFrom(v, todo, log, masked).None? <==> GlueFrom(v, todo', log', masked).None?
    decreases |todo|
  {
    hide Shown, Typed, Has, Alike;
    if todo != [] {
      assert todo' != [] && AlikeAt(todo[0], todo'[0]) && Alike(todo[1..], todo'[1..]) by { AlikeTail(todo, todo'); }
      var h := HostOf(todo[0]);
      assert HostOf(todo'[0]) == h;
      hide HostOf;
      if h.Some? { AlikeHas(log, log', h.value, A); }
      if h.None? || Has(log, h.value, A) {
        AlikeGlue(v, todo[1..], todo'[1..], log, log', masked);
      } else if Shown(v, h.value, false).Some? {
        var l := Typed(Shown(v, h.value, false).value, A, h.value, masked, true);
        if l.Some? {
          AlikeMore(log, log', l.value);
          AlikeGlue(v, todo[1..], todo'[1..], log + l.value, log' + l.value, masked);
        }
      }
    } else {
      assert todo' == [] by { AlikeEmpty(todo, todo'); }
    }
  }

  lemma {:induction false} AlikeTail(a: seq<RR>, b: seq<RR>)
    requires Alike(a, b) && a != []
    ensures b != [] && AlikeAt(a[0], b[0]) && Alike(a[1..], b[1..])
  {
  }

  lemma {:induction false} AlikeEmpty(a: seq<RR>, b: seq<RR>)
    requires Alike(a, b) && a == []
    ensures b == []
  {
  }

  lemma {:induction false} AlikeRest(v: View, control: seq<Byte>, auth: bool, nx: bool, a: seq<RR>, b: seq<RR>,
                                     masked: bool)
    requires Alike(a, b)
    ensures Rest(v, control, auth, nx, a, masked).None? <==> Rest(v, control, auth, nx, b, masked).None?
  {
    AlikeHas(a, b, Lower(control), NS);
    assert a == [] <==> b == [];
    assert AuthorityOf(v, control, auth, a, masked) == AuthorityOf(v, control, auth, b, masked);
    hide AuthorityOf, GlueFrom, Alike;
    var l := AuthorityOf(v, control, auth, a, masked);
    if l.Some? {
      AlikeMore(a, b, l.value);
      AlikeGlue(v, a + l.value, b + l.value, a + l.value, b + l.value, masked);
      GlueGrows(v, a + l.value, a + l.value, masked);
      GlueGrows(v, b + l.value, b + l.value, masked);
    }
  }

  /** All samples that the zone allows give answers that are alike. */
  lemma {:induction false} AlikeAnswers(v: View, q: seq<Byte>, qtype: seq<Byte>, control: seq<Byte>, auth: bool,
                                        masked: bool,
                                        s: seq<seq<Byte>>, t: seq<seq<Byte>>)
    requires IsName(q) && SampleFor(v, q, qtype, control, auth, s) && SampleFor(v, q, qtype, control, auth, t)
    ensures match (AnswerFor(v, q, qtype, control, auth, masked, s), AnswerFor(v, q, qtype, control, auth, masked, t))
            case (NoAnswer, NoAnswer) => true
            case (Answering(nx, a), Answering(nx', b)) => nx == nx' && Alike(a, b)
            case _ => false
  {
    hide NodeOf, Ordinary, Addresses, LastTtl, IsName, Lower;
  }

  /** Whether there is a reply does not depend on the sample. */
  lemma {:induction false} SampleFree(v: View, q: seq<Byte>, qtype: seq<Byte>, masked: bool, s: seq<seq<Byte>>,
                                      t: seq<seq<Byte>>)
    requires IsName(q) && Sampling(v, q, qtype, s) && Sampling(v, q, qtype, t)
    ensures ReplyOf(v, q, qtype, masked, s).None? <==> ReplyOf(v, q, qtype, masked, t).None?
  {
    hide ZoneOf, AnswerFor, SampleFor, Rest, Alike, IsName;
    match ZoneOf(v, q)
    case ZoneAt(control, auth) =>
      AlikeAnswers(v, q, qtype, control, auth, masked, s, t);
      match (AnswerFor(v, q, qtype, control, auth, masked, s), AnswerFor(v, q, qtype, control, auth, masked, t)) {
        case (Answering(nx, a), Answering(_, b)) => AlikeRest(v, control, auth, nx, a, b, masked);
        case _ =>
      }
    case _ =>
  }

  /** In a zone there always is a sample to draw. */
  lemma {:induction false} SampleExists(v: View, q: seq<Byte>, qtype: seq<Byte>) returns (s: seq<seq<Byte>>)
    requires IsName(q) && ZoneOf(v, q).ZoneAt?
    ensures Sampling(v, q, qtype, s)
  {
    hide ZoneOf, NodeOf, Addresses, IsName;
    var control, auth := ZoneOf(v, q).control, ZoneOf(v, q).auth;
    s := [];
    if auth {
      match NodeOf(v, q, q, control) {
        case NodeAt(_, recs) =>
          var from := Addresses(recs, qtype);
          var n := if |from| < 8 then |from| else 8;
          s := from[..n];
          assert from == s + from[n..];
        case _ =>
      }
    }
  }

  /** No sample that the zone allows gives a reply. */
  ghost predicate Unanswered(v: View, q: seq<Byte>, qtype: seq<Byte>, masked: bool)
    requires IsName(q)
  {
    forall s: seq<seq<Byte>> :: Sampling(v, q, qtype, s) ==> ReplyOf(v, q, qtype, masked, s).None?
  }

  /** One allowed sample without a reply is enough, and so is a zone or an answer that cannot be had. */
  lemma {:induction false} UnansweredOnce(v: View, q: seq<Byte>, qtype: seq<Byte>, masked: bool, s: seq<seq<Byte>>)
    requires IsName(q) && Sampling(v, q, qtype, s) && ReplyOf(v, q, qtype, masked, s).None?
    ensures Unanswered(v, q, qtype, masked)
  {
    hide Sampling, ReplyOf, IsName;
    forall t: seq<seq<Byte>> | Sampling(v, q, qtype, t) ensures ReplyOf(v, q, qtype, masked, t).None? {
      SampleFree(v, q, qtype, masked, s, t);
    }
  }

  lemma {:induction false} UnansweredEarly(v: View, q: seq<Byte>, qtype: seq<Byte>, masked: bool, s: seq<seq<Byte>>)
    requires IsName(q)
    requires ZoneOf(v, q).ZoneAt? ==>
      AnswerFor(v, q, qtype, ZoneOf(v, q).control, ZoneOf(v, q).auth, masked, s).NoAnswer?
    ensures Unanswered(v, q, qtype, masked)
  {
    hide ZoneOf, NodeOf, Ordinary, Sampling, IsName, LastTtl, Lower;
    forall t: seq<seq<Byte>> | Sampling(v, q, qtype, t) ensures ReplyOf(v, q, qtype, masked, t).None? {
    }
  }
}
