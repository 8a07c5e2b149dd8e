/** The goto state machine of doit in src/query.c: why it always comes to an end, how often one query can
    ask upstream, and what the response says: the chain of aliases, and the records of the name it ends at.
    The cache and the packets that arrive are arbitrary. */
module QueryLoop {
  import opened Basics
  import opened Bytes
  import opened DnsName
  import opened RecordData
  import opened ResponseWriter
  import opened MessageWriter
  import opened HeaderBits
  import opened TdRecords
  import opened TdMessage
  import opened QueryAnswers

  const MAXLEVEL: nat := 5
  const MAXALIAS: nat := 16
  const MAXNS: nat := 16
  const LOOPS: nat := 100

  /** What is known about a name before asking: its records, that it does not exist, that it is an alias,
      name servers for a name above it, or nothing usable. */
  datatype Known = Told(records: seq<Entry>) | Denied | Alias(target: Name, ttl: Word) | Servers(hosts: seq<Name>)
      | Unknown

  /** What an accepted packet says: nothing usable, a referral to the same zone or none below it, an alias,
      that the name does not exist, its answer section, or a referral. */
  datatype Heard = Garbage | Lame | AliasOf(cname: Name, cnamettl: Word) | NoSuchName | Data(answers: seq<Entry>)
      | Referral(ns: seq<Name>)

  /** Whether a transmission can be started: no address is known, dns_transmit_start fails, or it is started. */
  datatype Sending = NoServer | Blocked | Started

  /** The cache, the packets and the known addresses, at each value of the loop counter and level. */
  datatype World = World(known: (nat, nat) -> Known, heard: (nat, nat) -> Heard, sending: (nat, nat) -> Sending)

  /** How a response comes about. */
  datatype Outcome = Found | NoName | Trouble

  datatype Label = NewName | HaveNs | LowerLevel | HavePacket | Cname(target: Name, ttl: Word) | NoSuch | GiveUp
      | Die | Sent
                 | Answered(outcome: Outcome, entries: seq<Entry>)

  /** Where the machine stands: the label, the loop counter, the level, and how many aliases were followed. */
  datatype Stop = Stop(place: Label, loop: nat, level: nat, aliases: nat)

  /** What a jump to NEWNAME leads to, by what is known: the goal and the aliases are as before. */
  ghost predicate Looked(known: Known, qtype: seq<Byte>, level: nat, next: Label) {
    match known
    case Told(records) => next == if level > 0 then LowerLevel else Answered(Found, records)
    case Denied => next == NoSuch
    case Alias(target, ttl) =>
      if level == 0 && (qtype == [0, 5] || qtype == [0, 255]) then
        exists d: Name :: next == Answered(Found, [Entry(d, [0, 5], [0, 1], ttl, Some([Host(target)]))])
      else next == Cname(target, ttl)
    case Servers(_) => next == HaveNs
    case Unknown => next == Die
  }

  /** What a packet leads to. */
  ghost predicate Listened(heard: Heard, level: nat, next: Label) {
    match heard
    case Garbage => next == Die
    case Lame => next == HaveNs
    case AliasOf(target, ttl) => next == Cname(target, ttl)
    case NoSuchName => next == NoSuch
    case Data(answers) => next == if level > 0 then LowerLevel else Answered(Found, answers)
    case Referral(_) => next == HaveNs
  }

  /** The jumps of the machine. Only at HAVENS is there a choice, which depends on the name servers left. */
  ghost predicate Follows(world: World, qtype: seq<Byte>, a: Stop, b: Stop) {
    match a.place
    case NewName =>
      && b.loop == a.loop + 1 && b.level == a.level && b.aliases == a.aliases
      && if b.loop == 100 then b.place == Die else Looked(world.known(b.loop, b.level), qtype, b.level, b.place)
    case HavePacket =>
      && b.loop == a.loop + 1 && b.level == a.level && b.aliases == a.aliases
      && if b.loop == 100 then b.place == Die else Listened(world.heard(b.loop, b.level), b.level, b.place)
    case HaveNs =>
      || b == Stop(NewName, a.loop, a.level + 1, a.aliases)
      || b == a.(place :=
           match world.sending(a.loop, a.level) case NoServer => GiveUp case Blocked => Die case Started => Sent)
    case LowerLevel => a.level > 0 && b == Stop(HaveNs, a.loop, a.level - 1, a.aliases)
    case Cname(_, _) =>
      if a.level > 0 then b == a.(place := NewName)
      else if a.aliases == 16 then b == a.(place := Die)
      else b == a.(place := NewName, aliases := a.aliases + 1)
    case NoSuch => b == a.(place := if a.level > 0 then LowerLevel else Answered(NoName, []))
    case GiveUp => b == a.(place := if a.level > 0 then LowerLevel else Answered(Trouble, []))
    case _ => false
  }

  /** A run of the machine. */
  ghost predicate Trail(world: World, qtype: seq<Byte>, t: seq<Stop>) {
    t != [] && forall i :: 0 < i < |t| ==> FollowsAt(world, qtype, t, i)
  }

  ghost predicate FollowsAt(world: World, qtype: seq<Byte>, t: seq<Stop>, i: nat) {
    0 < i < |t| && Follows(world, qtype, t[i - 1], t[i])
  }

  /** A run from one stop to another. */
  ghost predicate Leads(world: World, qtype: seq<Byte>, a: Stop, t: seq<Stop>, b: Stop) {
    Trail(world, qtype, t) && t[0] == a && t[|t| - 1] == b
  }

  lemma {:induction false} LeadsNowhere(world: World, qtype: seq<Byte>, a: Stop)
    ensures Leads(world, qtype, a, [a], a)
  {
  }

  lemma {:induction false} LeadsOn(world: World, qtype: seq<Byte>, a: Stop, t: seq<Stop>, b: Stop, c: Stop)
    requires Leads(world, qtype, a, t, b) && Follows(world, qtype, b, c)
    ensures Leads(world, qtype, a, t + [c], c)
  {
    hide Follows;
    forall i | 0 < i < |t| + 1 ensures FollowsAt(world, qtype, t + [c], i) {
      if i < |t| { assert FollowsAt(world, qtype, t, i); }
    }
  }

  const AXFR: seq<Byte> := [0, 252]

  /** The flag bytes of a response. */
  function FlagsOf(outcome: Outcome): seq<Byte> {
    match outcome
    case Found => [0x81, 0x80]
    case NoName => [0x85, 0x83]
    case Trouble => [0x81, 0x82]
  }

  /** The response begins with the alias records of the path, one for each step. */
  ghost function ChainLog(path: seq<Name>, ttls: seq<Word>, masked: bool): (l: seq<RR>)
    requires |path| == |ttls| + 1
    ensures |l| == |ttls| && forall i :: 0 <= i < |l| ==> l[i] == LinkRR(path[i], path[i + 1], ttls[i], masked)
  {
    seq(|ttls|, i requires 0 <= i < |ttls| => LinkRR(path[i], path[i + 1], ttls[i], masked))
  }

  ghost function LinkRR(c: Name, d: Name, ttl: Word, masked: bool): RR {
    RR(Lower(c), CNAME, if masked then 0 else ttl, [RecordData.Name(Lower(d))])
  }

  /** The alias record itself, when that is what is asked for. */
  function AliasEntry(d: Name, target: Name, ttl: Word): Entry {
    Entry(d, CNAME, CLASSIN, ttl, Some([Host(target)]))
  }

  /** The outcome for the name d is what the cache or a packet says at this count of the loop; a failure is
      for want of a known address, or of an answer when `failed`. */
  ghost predicate Says(world: World, failed: bool, loop: nat, d: Name, outcome: Outcome, entries: seq<Entry>) {
    match outcome
    case Found =>
      || world.known(loop, 0) == Told(entries) || world.heard(loop, 0) == Data(entries)
      || (match world.known(loop, 0)
          case Alias(target, ttl) => entries == [Entry(d, [0, 5], [0, 1], ttl, Some([Host(target)]))]
          case _ => false)
    case NoName => entries == [] && (world.known(loop, 0).Denied? || world.heard(loop, 0).NoSuchName?)
    case Trouble => entries == [] && (failed || world.sending(loop, 0).NoServer?)
  }

  /** The cache or a packet says that the name is an alias. */
  ghost predicate Aliased(world: World, loop: nat, level: nat, target: Name, ttl: Word) {
    world.known(loop, level) == Alias(target, ttl) || world.heard(loop, level) == AliasOf(target, ttl)
  }

  /** Every link from the n-th on is one that the cache or a packet gave. */
  ghost predicate Linked(world: World, n: nat, path: seq<Name>, ttls: seq<Word>) {
    |path| == |ttls| + 1 && forall i :: n <= i < |ttls| ==> LinkedAt(world, path[i + 1], ttls[i])
  }

  ghost predicate LinkedAt(world: World, target: Name, ttl: Word) {
    exists loop: nat :: Aliased(world, loop, 0, target, ttl)
  }

  /** The answer is there, but a record cannot be used. */
  ghost predicate Unusable(world: World, loop: nat, d: Name, qtype: Code, entries: seq<Entry>) {
    Says(world, false, loop, d, Found, entries) && !Usable(entries, d, qtype)
  }

  ghost predicate Spoiled(world: World, loop: nat, d: Name, qtype: Code) {
    exists entries :: Unusable(world, loop, d, qtype, entries)
  }

  lemma {:induction false} UnusableIs(world: World, failed: bool, loop: nat, d: Name, qtype: Code, outcome: Outcome,
                                      entries: seq<Entry>)
    requires Says(world, failed, loop, d, outcome, entries) && !Usable(entries, d, qtype)
    ensures Spoiled(world, loop, d, qtype)
  {
    assert Unusable(world, loop, d, qtype, entries);
  }

  /** The next step finds the records of the name asked for, in the cache or in the packet. */
  ghost predicate AtHand(world: World, first: Label, level: nat, loop: nat) {
    && level == 0 && loop + 1 < LOOPS
    && ((first == NewName && world.known(loop + 1, 0).Told?) || (first == HavePacket && world.heard(loop + 1, 0).Data?))
  }

  ghost function InHand(world: World, first: Label, loop: nat): seq<Entry>
    requires AtHand(world, first, 0, loop)
  {
    if first == NewName then world.known(loop + 1, 0).records else world.heard(loop + 1, 0).answers
  }

  lemma {:induction false} LinkedNone(world: World, path: seq<Name>, ttls: seq<Word>)
    requires |path| == |ttls| + 1
    ensures Linked(world, |ttls|, path, ttls)
  {
  }

  lemma {:induction false} LinkedMore(world: World, n: nat, path: seq<Name>, ttls: seq<Word>, loop: nat, target: Name,
                                      ttl: Word)
    requires Linked(world, n, path, ttls) && Aliased(world, loop, 0, target, ttl)
    ensures Linked(world, n, path + [target], ttls + [ttl])
  {
    assert LinkedAt(world, target, ttl);
    hide LinkedAt, Aliased;
    forall i | n <= i < |ttls + [ttl]| ensures LinkedAt(world, (path + [target])[i + 1], (ttls + [ttl])[i]) {
      if i < |ttls| { assert LinkedAt(world, path[i + 1], ttls[i]); }
    }
  }

  lemma {:induction false} LinkedOn(world: World, n: nat, path: seq<Name>, ttls: seq<Word>,
                                    path': seq<Name>, ttls': seq<Word>)
    requires Linked(world, n, path, ttls) && Linked(world, |ttls|, path', ttls') && path <= path' && ttls <= ttls'
    ensures Linked(world, n, path', ttls')
  {
    hide LinkedAt;
    forall i | n <= i < |ttls'| ensures LinkedAt(world, path'[i + 1], ttls'[i]) {
      if i < |ttls| { assert LinkedAt(world, path[i + 1], ttls[i]); }
    }
  }

  /** The records for the name and type can all be read and fit into any message. */
  ghost predicate Usable(entries: seq<Entry>, d: Name, qtype: Code) {
    forall e :: e in entries && Wanted(e, d, qtype) ==> e.data.Some? && Size(e.data.value) <= ROOM
  }

  /** Room for one alias record. */
  const LINKSIZE: nat := 520

  /** response_cname */
  method AddCname(m: Message, c: Name, d: Name, ttl: Word) returns (ok: bool)
    requires m.Complete() && Roomy(m) && m.r.len + LINKSIZE <= REACH
    modifies m`dpos, m`cur, m`ms, m`an, m`ns, m`ar, m.r`len, m.r`nb, m.r`nameNum, m.r.msg, m.r.names, m.r.namePtr
    ensures ok && m.Complete() && Roomy(m) && m.r.len <= old(m.r.len) + LINKSIZE && m.Flags() == old(m.Flags())
    ensures Added(old(m.ms), m.ms, [LinkRR(c, d, ttl, m.flaghidettl)]) && m.an == old(m.an) + 1 && m.ns == old(m.ns)
      && m.ar == old(m.ar)
  {
    hide Message.Open, Message.Complete, Message.Flags, Response.Small, IsName, Lower;
    ok := m.RStart(c, CNAME, ttl);
    ok := m.DataName(d);
    m.RFinish(Answer);
    assert m.ms[|old(m.ms)|].data == [RecordData.Name(Lower(d))];
    AddedOne(old(m.ms), m.ms[|old(m.ms)|]);
  }

  class Query {
    var loop: nat
    var level: nat
    const name: array<Option<Name>>
    const alias: array<Option<Name>>
    const aliasttl: array<Word>
    const ns: array2<Option<Name>>
    var qtype: seq<Byte>
    var qclass: seq<Byte>
    /** How many upstream transmissions this query has started. */
    ghost var asked: nat
    /** The names followed so far: the question, the target of each alias met, and the current name; and
        the time to live of each alias. */
    ghost var path: seq<Name>
    ghost var ttls: seq<Word>

    constructor ()
      ensures Shape() && fresh(name) && fresh(alias) && fresh(aliasttl) && fresh(ns)
    {
      name := new Option<Name>[MAXLEVEL](_ => None);
      alias := new Option<Name>[MAXALIAS](_ => None);
      aliasttl := new Word[MAXALIAS](_ => 0);
      ns := new Option<Name>[MAXLEVEL, MAXNS]((_, _) => None);
      loop, level, qtype, qclass := 0, 0, [0, 1], [0, 1];
      asked, path, ttls := 0, [], [];
    }

    ghost predicate Shape()
      reads this
    {
      && name.Length == MAXLEVEL && alias.Length == MAXALIAS && aliasttl.Length == MAXALIAS
      && ns.Length0 == MAXLEVEL && ns.Length1 == MAXNS && |qtype| == 2 && |qclass| == 2
    }

    /** The names being resolved at each level are there, and the aliases are the path backwards. */
    ghost predicate Valid()
      reads this, name, alias, aliasttl
    {
      && Shape() && level < MAXLEVEL && loop <= LOOPS
      && (forall j :: 0 <= j <= level ==> name[j].Some?)
      && AliasesOk(alias[..], aliasttl[..], path, ttls)
      && path != [] && path[|path| - 1] == name[0].value
    }

    /** Drops at every NEWNAME, LOWERLEVEL and HAVEPACKET. */
    ghost function Potential(): int
      reads this
    {
      2 * (LOOPS - loop) + level
    }

    /** The place of the alias met first, or -1. */
    method Oldest() returns (i: int)
      requires Valid()
      ensures |path| == |ttls| + 1 && i == |ttls| - 1 && i < MAXALIAS && (i < 0 ==> name[0].value == path[0])
      ensures i >= 0 ==> alias[i] == Some(path[0])
    {
      AliasesMean(alias[..], aliasttl[..], path, ttls);
      hide AliasesOk, IsName;
      i := MAXALIAS - 1;
      while i >= 0 && alias[i].None?
        invariant |ttls| - 1 <= i < MAXALIAS
      {
        i := i - 1;
      }
    }

    /** rqa: the question, and one record for each alias followed. */
    method Rqa(m: Message) returns (ok: bool)
      requires Valid() && m.r.Shape()
      modifies m, m.r`len, m.r`nb, m.r`nameNum, m.r.msg, m.r.names, m.r.namePtr
      ensures ok && Chained(m, Found)
    {
      hide AliasesOk, Message.Complete, Message.Flags, Roomy, IsName, Lower, Added, LinkRR, ChainLog, Log,
        Response.Shape;
      var i := Oldest();
      if i < 0 {
        ok := Start(m, name[0].value);
        NoLinks(path, ttls, m.flaghidettl);
        return;
      }
      ok := Start(m, alias[i].value);
      ok := AddLinks(m, alias[..], aliasttl[..], name[0].value, i, path, ttls);
    }

    /** response_query for this query's type and class. */
    method Start(m: Message, q: Name) returns (ok: bool)
      requires Shape() && m.r.Shape()
      modifies m, m.r`len, m.r`nb, m.r`nameNum, m.r.msg, m.r.names, m.r.namePtr
      ensures ok && m.Complete() && Roomy(m) && m.qname == Lower(q) && m.qfixed == qtype + qclass && Log(m.ms) == []
      ensures m.Flags() == FlagsOf(Found) && m.flaghidettl == old(m.flaghidettl)
      ensures m.r.len + MAXALIAS * LINKSIZE <= REACH
    {
      hide Message.Complete, Message.Flags, Response.Small, IsName, Lower;
      ok := m.Query(q, qtype, qclass);
    }

    // ---------- The steps ----------

    /** query_start: level 0, loop 0. */
    method Begin(dn: Name, dtype: seq<Byte>, dclass: seq<Byte>)
      requires Shape() && |dtype| == 2 && |dclass| == 2
      modifies this, name, alias
      ensures Valid() && level == 0 && loop == 0 && path == [dn] && ttls == [] && asked == 0
        && qtype == dtype && qclass == dclass
    {
      for j := 0 to MAXALIAS
        invariant forall k :: 0 <= k < j ==> alias[k] == None
      {
        alias[j] := None;
      }
      level, loop, qtype, qclass := 0, 0, dtype, dclass;
      name[0] := Some(dn);
      asked, path, ttls := 0, [dn], [];
      forall i | 0 <= i < MAXALIAS ensures AliasAt(alias[..], aliasttl[..], path, ttls, i) {
        assert alias[..][i] == None;
      }
    }

    ghost function Here(place: Label): Stop
      reads this`loop, this`level, this`ttls
    {
      Stop(place, loop, level, |ttls|)
    }

    /** Why a query may die: the loop has gone round too often, nothing usable is known or came, a
        transmission could not be started, or one alias too many. */
    ghost predicate Hopeless(world: World)
      reads this`loop, this`level, this`ttls
    {
      || loop == LOOPS || world.known(loop, level).Unknown? || world.heard(loop, level).Garbage?
      || world.sending(loop, level).Blocked?
      || (level == 0 && |ttls| == MAXALIAS && exists target, ttl :: Aliased(world, loop, 0, target, ttl))
    }

    /** What the cache, a packet or the start of a transmission says makes the machine go where it goes. */
    ghost predicate Justified(world: World, failed: bool, next: Label)
      reads this`loop, this`level, this`path, this`ttls
    {
      match next
      case Answered(outcome, entries) =>
        level == 0 && path != [] && Says(world, failed, loop, path[|path| - 1], outcome, entries)
      case NoSuch => world.known(loop, level).Denied? || world.heard(loop, level).NoSuchName?
      case GiveUp => failed || world.sending(loop, level).NoServer?
      case Sent => world.sending(loop, level).Started?
      case Cname(target, ttl) => Aliased(world, loop, level, target, ttl)
      case Die => Hopeless(world)
      case _ => true
    }

    lemma {:induction false} JustifiedMore(world: World, failed: bool, more: bool, next: Label)
      requires Justified(world, failed, next) && (failed ==> more)
      ensures Justified(world, more, next)
    {
    }

    /** The name servers of this level are these; those of the others are as before. */
    twostate predicate Served(l: nat, hosts: seq<Name>)
      reads ns
    {
      && ns.Length0 == MAXLEVEL && ns.Length1 == MAXNS
      && forall i, j :: 0 <= i < MAXLEVEL && 0 <= j < MAXNS ==>
        ns[i, j] == if i != l then old(ns[i, j]) else if j < |hosts| then Some(hosts[j]) else None
    }

    /** NEWNAME, up to where it jumps. */
    method StepNewName(world: World) returns (next: Label)
      requires Valid() && loop < LOOPS
      modifies this`loop, ns
      ensures Valid() && loop == old(loop) + 1
      ensures loop == LOOPS ==> next == Die
      ensures loop < LOOPS ==>
        match world.known(loop, level)
        case Told(records) => next == if level > 0 then LowerLevel else Answered(Found, records)
        case Denied => next == NoSuch
        case Alias(target, ttl) =>
          if level == 0 && (qtype == CNAME || qtype == ANY) then
            next == Answered(Found, [AliasEntry(name[0].value, target, ttl)])
          else next == Cname(target, ttl)
        case Servers(hosts) => next == HaveNs && Served(level, hosts)
        case Unknown => next == Die
      ensures next != HaveNs ==> unchanged(ns)
      ensures Justified(world, false, next)
      ensures AtHand(world, NewName, level, old(loop)) ==> next == Answered(Found, InHand(world, NewName, old(loop)))
    {
      hide AliasesOk;
      loop := loop + 1;
      if loop == LOOPS { return Die; }
      match world.known(loop, level) {
        case Told(records) => next := if level > 0 then LowerLevel else Answered(Found, records);
        case Denied => next := NoSuch;
        case Alias(target, ttl) =>
          if level == 0 && TypeMatch(CNAME, qtype) {
            next := Answered(Found, [AliasEntry(name[0].value, target, ttl)]);
          } else {
            next := Cname(target, ttl);
          }
        case Servers(hosts) =>
          SetServers(hosts);
          next := HaveNs;
        case Unknown => next := Die;
      }
    }

    /** The name servers of this level. */
    method SetServers(hosts: seq<Name>)
      requires Shape() && level < MAXLEVEL
      modifies ns
      ensures Served(level, hosts)
    {
      for j := 0 to MAXNS
        invariant forall k :: 0 <= k < j ==> ns[level, k] == if k < |hosts| then Some(hosts[k]) else None
        invariant forall i, k :: 0 <= i < MAXLEVEL && 0 <= k < MAXNS && i != level ==> ns[i, k] == old(ns[i, k])
      {
        ns[level, j] := if j < |hosts| then Some(hosts[j]) else None;
      }
    }

    /** The first k name servers of a level are gone. */
    twostate predicate Gone(l: nat, k: nat)
      reads ns
    {
      && ns.Length0 == MAXLEVEL && ns.Length1 == MAXNS
      && forall i, j :: 0 <= i < MAXLEVEL && 0 <= j < MAXNS ==>
        ns[i, j] == if i == l && j < k then None else old(ns[i, j])
    }

    /** HAVENS: resolve the next name server's name one level up, or ask one of the known addresses. */
    method StepHaveNs(world: World) returns (next: Label, ghost taken: nat)
      requires Valid()
      modifies this`level, this`asked, name, ns
      ensures Valid() && (next == NewName || next == GiveUp || next == Die || next == Sent)
      ensures next == NewName ==> level == old(level) + 1 && 0 <= taken < MAXNS && Gone(old(level), taken + 1)
      ensures next == NewName ==> old(ns[level, taken]).Some? && name[level] == old(ns[level, taken])
      ensures next == NewName ==> forall j :: 0 <= j < taken ==> old(ns[level, j]).None?
      ensures next != NewName ==> level == old(level) && Gone(level, MAXNS) && unchanged(name)
      ensures next != NewName ==> level + 1 == MAXLEVEL || forall j :: 0 <= j < MAXNS ==> old(ns[level, j]).None?
      ensures next != NewName ==>
        match world.sending(loop, level)
        case NoServer => next == GiveUp
        case Blocked => next == Die
        case Started => next == Sent
      ensures forall i :: 0 <= i <= old(level) ==> name[i] == old(name[i])
      ensures asked == old(asked) + (if next == Sent then 1 else 0) && Justified(world, false, next)
    {
      hide AliasesOk;
      for j := 0 to MAXNS
        invariant Valid() && level == old(level) && asked == old(asked) && Gone(level, j) && unchanged(name)
        invariant level + 1 == MAXLEVEL || forall k :: 0 <= k < j ==> old(ns[level, k]).None?
      {
        if ns[level, j].Some? {
          if level + 1 < MAXLEVEL {
            name[level + 1] := ns[level, j];
            ns[level, j] := None;
            level := level + 1;
            return NewName, j;
          }
          ns[level, j] := None;
        }
      }
      taken := 0;
      match world.sending(loop, level) {
        case NoServer => next := GiveUp;
        case Blocked => next := Die;
        case Started =>
          asked := asked + 1;
          next := Sent;
      }
    }

    /** LOWERLEVEL. */
    method StepLower(ghost world: World) returns (next: Label)
      requires Valid() && level > 0
      modifies this`level, name, ns
      ensures Valid() && level == old(level) - 1 && next == HaveNs && Justified(world, false, next)
      ensures Served(old(level), []) && name[old(level)] == None
      ensures forall i :: 0 <= i < MAXLEVEL && i != old(level) ==> name[i] == old(name[i])
    {
      hide AliasesOk;
      SetServers([]);
      name[level] := None;
      level := level - 1;
      next := HaveNs;
    }

    /** HAVEPACKET, up to where it jumps. */
    method StepPacket(world: World) returns (next: Label)
      requires Valid() && loop < LOOPS
      modifies this`loop, ns
      ensures Valid() && loop == old(loop) + 1
      ensures loop == LOOPS ==> next == Die
      ensures loop < LOOPS ==>
        match world.heard(loop, level)
        case Garbage => next == Die
        case Lame => next == HaveNs && unchanged(ns)
        case AliasOf(target, ttl) => next == Cname(target, ttl)
        case NoSuchName => next == NoSuch
        case Data(answers) => next == if level > 0 then LowerLevel else Answered(Found, answers)
        case Referral(hosts) => next == HaveNs && Served(level, hosts)
      ensures next != HaveNs ==> unchanged(ns)
      ensures Justified(world, false, next)
      ensures AtHand(world, HavePacket, level, old(loop)) ==>
        next == Answered(Found, InHand(world, HavePacket, old(loop)))
    {
      hide AliasesOk;
      loop := loop + 1;
      if loop == LOOPS { return Die; }
      match world.heard(loop, level) {
        case Garbage => next := Die;
        case Lame => next := HaveNs;
        case AliasOf(target, ttl) => next := Cname(target, ttl);
        case NoSuchName => next := NoSuch;
        case Data(answers) => next := if level > 0 then LowerLevel else Answered(Found, answers);
        case Referral(hosts) =>
          SetServers(hosts);
          next := HaveNs;
      }
    }

    /** CNAME: at level 0 the name moves into the alias list, which must not be full. */
    method StepCname(target: Name, ttl: Word, ghost world: World) returns (next: Label)
      requires Valid() && Justified(world, false, Cname(target, ttl))
      modifies this`path, this`ttls, name, alias, aliasttl
      ensures Valid() && (next == NewName || next == Die) && Justified(world, false, next)
      ensures next == Die <==> level == 0 && |old(ttls)| == MAXALIAS
      ensures next == NewName && level == 0 ==> path == old(path) + [target] && ttls == old(ttls) + [ttl]
      ensures next == Die || level > 0 ==> path == old(path) && ttls == old(ttls)
      ensures next == NewName ==> name[level] == Some(target)
      ensures forall i :: 0 <= i < MAXLEVEL && (i != level || next == Die) ==> name[i] == old(name[i])
      ensures Linked(world, |old(ttls)|, path, ttls)
    {
      AliasesMean(alias[..], aliasttl[..], path, ttls);
      if level == 0 {
        if alias[MAXALIAS - 1].Some? { return Die; }
        Shift(name[0], ttl);
        AliasesMore(old(alias[..]), old(aliasttl[..]), alias[..], aliasttl[..], path, ttls, target, ttl);
        LinkedMore(world, |ttls|, path, ttls, loop, target, ttl);
        path, ttls := path + [target], ttls + [ttl];
      }
      name[level] := Some(target);
      next := NewName;
    }

    /** The two shifting loops, and the new entries. */
    method Shift(n: Option<Name>, ttl: Word)
      requires Shape()
      modifies alias, aliasttl
      ensures alias[0] == n && forall k :: 0 < k < MAXALIAS ==> alias[k] == old(alias[k - 1])
      ensures aliasttl[0] == ttl && forall k :: 0 < k < MAXALIAS ==> aliasttl[k] == old(aliasttl[k - 1])
    {
      var j := MAXALIAS - 1;
      while j > 0
        invariant 0 <= j < MAXALIAS
        invariant forall k :: j < k < MAXALIAS ==> alias[k] == old(alias[k - 1])
        invariant forall k :: 0 <= k <= j ==> alias[k] == old(alias[k])
        invariant forall k :: 0 <= k < MAXALIAS ==> aliasttl[k] == old(aliasttl[k])
      {
        alias[j] := alias[j - 1];
        j := j - 1;
      }
      j := MAXALIAS - 1;
      while j > 0
        invariant 0 <= j < MAXALIAS
        invariant forall k :: j < k < MAXALIAS ==> aliasttl[k] == old(aliasttl[k - 1])
        invariant forall k :: 0 <= k <= j ==> aliasttl[k] == old(aliasttl[k])
        invariant forall k :: 0 < k < MAXALIAS ==> alias[k] == old(alias[k - 1])
      {
        aliasttl[j] := aliasttl[j - 1];
        j := j - 1;
      }
      alias[0], aliasttl[0] := n, ttl;
    }

    /** NXDOMAIN and SERVFAIL: below level 0 the failure is passed down. */
    method StepFailure(outcome: Outcome, ghost world: World, ghost failed: bool) returns (next: Label)
      requires Valid()
      requires outcome == NoName || outcome == Trouble
      requires Justified(world, failed, if outcome == NoName then NoSuch else GiveUp)
      ensures next == if level > 0 then LowerLevel else Answered(outcome, [])
      ensures Justified(world, failed, next)
    {
      hide AliasesOk;
      next := if level > 0 then LowerLevel else Answered(outcome, []);
    }

    /** One jump. Only HAVENS raises the potential, by one level; it is reached only after a drop. */
    method Jump(now: Label, world: World, ghost failed: bool) returns (next: Label)
      requires Valid() && loop < LOOPS && now != Die && now != Sent && !now.Answered?
      requires Justified(world, failed, now) && (now == LowerLevel ==> level > 0) && (failed ==> now == GiveUp)
      modifies this`loop, this`level, this`asked, this`path, this`ttls, name, alias, aliasttl, ns
      ensures Valid() && (next != Die ==> loop < LOOPS)
      ensures Justified(world, failed && next.Answered?, next) && (next == LowerLevel ==> level > 0)
      ensures failed && next.Answered? ==> level == old(level)
      ensures asked == old(asked) + if next == Sent then 1 else 0
      ensures old(path) <= path && old(ttls) <= ttls && Linked(world, |old(ttls)|, path, ttls)
      ensures AtHand(world, now, old(level), old(loop)) ==>
        next == Answered(Found, InHand(world, now, old(loop))) && path == old(path) && loop == old(loop) + 1
      ensures Follows(world, qtype, old(Here(now)), Here(next))
      ensures Potential() <= old(Potential()) + if now == HaveNs && next == NewName then 1 else 0
      ensures next == HaveNs ==> Potential() < old(Potential())
      ensures next == Sent ==> now == HaveNs
      ensures now == NewName ==> Potential() <= old(Potential()) - 2
      ensures next == NewName && now != HaveNs ==> Rank(now) == 5
      ensures now != NewName && next != NewName ==> Potential() < old(Potential()) || Rank(next) < Rank(now)
    {
      PathLength();
      LinkedNone(world, path, ttls);
      assert failed || Justified(world, false, now);
      AtHandFirst(world, now);
      hide AliasesOk, Says, Valid, Linked, Aliased, Hopeless, AtHand, InHand, Served, Gone;
      match now {
        case NewName => next := StepNewName(world);
        case HaveNs =>
          ghost var taken;
          next, taken := StepHaveNs(world);
        case LowerLevel => next := StepLower(world);
        case HavePacket => next := StepPacket(world);
        case Cname(target, ttl) => next := StepCname(target, ttl, world);
        case NoSuch => next := StepFailure(NoName, world, false);
        case GiveUp => next := StepFailure(Trouble, world, failed);
      }
    }

    lemma {:induction false} AtHandFirst(world: World, now: Label)
      ensures now != NewName && now != HavePacket ==> !AtHand(world, now, level, loop)
    {
    }

    lemma {:induction false} PathLength()
      requires Valid()
      ensures |path| == |ttls| + 1
    {
    }

    /** The jumps of doit, until it asks another server, has a response or gives up. */
    method Run(first: Label, world: World) returns (next: Label, ghost trail: seq<Stop>)
      requires Valid() && loop < LOOPS && (first == NewName || first == HavePacket || first == GiveUp)
      modifies this`loop, this`level, this`asked, this`path, this`ttls, name, alias, aliasttl, ns
      ensures next == Die || next == Sent || next.Answered?
      ensures Leads(world, qtype, old(Here(first)), trail, Here(next))
      ensures Valid() && (next != Die ==> loop < LOOPS)
      ensures Justified(world, first == GiveUp && old(level) == 0, next)
      ensures next == Sent ==> Potential() < old(Potential())
      ensures asked == old(asked) + if next == Sent then 1 else 0
      ensures old(path) <= path && old(ttls) <= ttls && Linked(world, |old(ttls)|, path, ttls)
      ensures AtHand(world, first, old(level), old(loop)) ==>
        next == Answered(Found, InHand(world, first, old(loop))) && path == old(path) && loop == old(loop) + 1
    {
      hide AliasesOk, Says, Valid, Linked, Aliased, Hopeless, InHand, Follows, Leads;
      PathLength();
      LinkedNone(world, path, ttls);
      ghost var failed := first == GiveUp;
      ghost var sure, answer := AtHand(world, first, level, loop), [];
      if sure { answer := InHand(world, first, loop); }
      trail := [Here(first)];
      next := Jump(first, world, failed);
      LeadsNowhere(world, qtype, trail[0]);
      LeadsOn(world, qtype, trail[0], trail, trail[0], Here(next));
      trail := trail + [Here(next)];
      failed := failed && next.Answered?;
      while next != Die && next != Sent && !next.Answered?
        invariant Valid() && (next != Die ==> loop < LOOPS)
        invariant Justified(world, failed, next) && (next == LowerLevel ==> level > 0)
        invariant failed ==> first == GiveUp && next.Answered? && old(level) == 0
        invariant Leads(world, qtype, old(Here(first)), trail, Here(next))
        invariant asked == old(asked) + if next == Sent then 1 else 0
        invariant Potential() <= old(Potential()) && (next == HaveNs || next == Sent ==> Potential() < old(Potential()))
        invariant old(path) <= path && old(ttls) <= ttls && Linked(world, |old(ttls)|, path, ttls)
        invariant sure ==> next == Answered(Found, answer) && path == old(path) && loop == old(loop) + 1
        decreases if next == NewName then Potential() - 2 else Potential(), Rank(next)
      {
        ghost var path1, ttls1, here := path, ttls, Here(next);
        next := Jump(next, world, false);
        LeadsOn(world, qtype, old(Here(first)), trail, here, Here(next));
        trail := trail + [Here(next)];
        LinkedOn(world, |old(ttls)|, path1, ttls1, path, ttls);
      }
      JustifiedMore(world, failed, first == GiveUp && old(level) == 0, next);
    }

    /** doit: 1 with a response, 0 when another server has been asked, -1 when the query is given up, and 2
        when the response has outgrown the reach of compression pointers, where this model ends. Every call
        comes to an end, and the potential pays for the transmissions. It gives up only for a reason, and
        never when the records asked for are there and can be used. */
    method Doit(m: Message, state: int, world: World) returns (r: int, ghost trail: seq<Stop>)
      requires Valid() && m.r.Shape() && loop < LOOPS
      modifies this`loop, this`level, this`asked, this`path, this`ttls, name, alias, aliasttl, ns
      modifies m, m.r`len, m.r`nb, m.r`nameNum, m.r.msg, m.r.names, m.r.namePtr
      ensures r == 1 || r == 0 || r == -1 || r == 2
      ensures trail != [] && Leads(world, qtype, old(Here(Entrance(state))), trail, Here(trail[|trail| - 1].place))
      ensures Ended(m, trail[|trail| - 1].place, r)
      ensures r == 0 ==>
        Valid() && m.r.Shape() && loop < LOOPS && asked == old(asked) + 1 && Potential() < old(Potential())
      ensures r == 0 ==> world.sending(loop, level).Started?
      ensures r != 0 ==> asked == old(asked)
      ensures r == 1 ==> Valid() && Concluded(m, world, state == -1 && old(level) == 0)
      ensures r == -1 ==> Abandoned(world)
      ensures r == 2 ==> m.r.len > REACH
      ensures AtHand(world, Entrance(state), old(level), old(loop)) ==>
        Delivered(m, old(path[|path| - 1]), InHand(world, Entrance(state), old(loop)), r)
      ensures old(path) <= path && path[0] == old(path)[0]
      ensures |path| == |ttls| + 1 && old(ttls) <= ttls && Linked(world, |old(ttls)|, path, ttls)
    {
      hide AliasesOk, Valid, Concluded, Delivered, Response.Shape, Says, Linked, Hopeless, Spoiled, AtHand, InHand,
        Potential;
      PathLength();
      var next;
      next, trail := Run(Entrance(state), world);
      PathLength();
      if next == Die { return -1, trail; }
      if next == Sent { return 0, trail; }
      r := Answer(m, next.outcome, next.entries, world, state == -1 && old(level) == 0);
    }

    /** The response with these records. */
    method Answer(m: Message, outcome: Outcome, entries: seq<Entry>, ghost world: World, ghost failed: bool)
      returns (r: int)
      requires Valid() && m.r.Shape() && level == 0 && path != []
      requires Says(world, failed, loop, path[|path| - 1], outcome, entries)
      modifies m, m.r`len, m.r`nb, m.r`nameNum, m.r.msg, m.r.names, m.r.namePtr
      ensures r == 1 || r == -1 || r == 2
      ensures r == 1 ==> Valid() && Concluded(m, world, failed)
      ensures outcome == Found ==> Delivered(m, path[|path| - 1], entries, r)
      ensures Ended(m, Answered(outcome, entries), r)
      ensures r == -1 ==> Abandoned(world)
      ensures r == 2 ==> m.r.len > REACH
    {
      hide AliasesOk, Responded, Chained, Response.Shape, Says, Usable, Spoiled, Hopeless;
      var ok := Rqa(m);
      var st := Append(m, entries);
      if st.Failed? {
        UnusableIs(world, failed, loop, path[|path| - 1], qtype, outcome, entries);
        return -1;
      }
      if st.Beyond? { return 2; }
      Conclude(m, outcome, entries);
      r := 1;
    }

    /** A query that has been given up: it was hopeless, or a record to be given could not be used. */
    ghost predicate Abandoned(world: World)
      reads this
    {
      Hopeless(world) || (path != [] && |qtype| == 2 && level == 0 && Spoiled(world, loop, path[|path| - 1], qtype))
    }

    /** Usable records are given. */
    ghost predicate Delivered(m: Message, d: Name, entries: seq<Entry>, r: int)
      reads this, m, m.r, m.r.msg, m.r.names, m.r.namePtr
    {
      |qtype| == 2 && Usable(entries, d, qtype) ==>
        r == 2 || (r == 1 && path != [] && path[|path| - 1] == d && Responded(m, Found, entries))
    }

    /** What doit returns where the machine has stopped: a response with the records of an answer, unless one of
        them cannot be used. */
    ghost predicate Ended(m: Message, place: Label, r: int)
      reads this, m, m.r, m.r.msg, m.r.names, m.r.namePtr
    {
      match place
      case Die => r == -1
      case Sent => r == 0
      case Answered(outcome, entries) =>
        path != [] && |qtype| == 2 &&
        (r == 2 || (r == 1 && Responded(m, outcome, entries)) || (r == -1 && !Usable(entries, path[|path| - 1], qtype)))
      case _ => false
    }

    /** The records behind the aliases. */
    method Append(m: Message, entries: seq<Entry>) returns (st: Status)
      requires Valid() && Chained(m, Found)
      modifies m`dpos, m`cur, m`ms, m`an, m`ns, m`ar, m.r`len, m.r`nb, m.r`nameNum, m.r.msg, m.r.names, m.r.namePtr
      ensures st.Done? ==> Responded(m, Found, entries)
      ensures st.Failed? ==> !Usable(entries, path[|path| - 1], qtype)
      ensures st.Beyond? ==> m.r.len > REACH
    {
      hide AliasesOk, Message.Complete, Message.Flags, Roomy, Log, ChainLog, AnswerLog, Wanted, IsName, Lower, Size;
      st := AddEntries(m, entries, name[0].value, qtype);
    }

    /** response_nxdomain, response_servfail, or neither. */
    method Conclude(m: Message, outcome: Outcome, entries: seq<Entry>)
      requires Responded(m, Found, entries)
      modifies m.r.msg
      ensures Responded(m, outcome, entries)
    {
      hide Message.Complete, Message.Flags, Response.Small, Log, ChainLog, AnswerLog, Lower;
      match outcome {
        case Found =>
        case NoName => NxDomain(m);
        case Trouble => ServFail(m);
      }
    }

    /** The response has the question first asked. */
    ghost predicate Headed(m: Message, outcome: Outcome)
      reads this, m, m.r, m.r.msg, m.r.names, m.r.namePtr
    {
      && m.Complete() && Roomy(m) && |path| == |ttls| + 1 && m.qname == Lower(path[0])
      && |qtype| == 2 && m.qfixed == qtype + qclass && m.Flags() == FlagsOf(outcome)
    }

    /** It leads from there to the current name alias by alias. */
    ghost predicate Chained(m: Message, outcome: Outcome)
      reads this, m, m.r, m.r.msg, m.r.names, m.r.namePtr
    {
      Headed(m, outcome) && Log(m.ms) == ChainLog(path, ttls, m.flaghidettl)
    }

    /** And behind the aliases it has those of the entries that are records of the current name and of the
        type asked for, in their order, and no other record. */
    ghost predicate Responded(m: Message, outcome: Outcome, entries: seq<Entry>)
      reads this, m, m.r, m.r.msg, m.r.names, m.r.namePtr
    {
      && Headed(m, outcome)
      && Log(m.ms) == ChainLog(path, ttls, m.flaghidettl) + AnswerLog(entries, path[|path| - 1], qtype, m.flaghidettl)
    }

    /** The response says what the cache or a packet says about the name at the end of the chain. */
    ghost predicate Concluded(m: Message, world: World, failed: bool)
      reads this, m, m.r, m.r.msg, m.r.names, m.r.namePtr
    {
      path != [] && level == 0 && exists outcome, entries ::
        Says(world, failed, loop, path[|path| - 1], outcome, entries) && Responded(m, outcome, entries)
    }

    // ---------- A whole query ----------

    /** Between calls, while an answer from upstream is awaited. */
    ghost predicate Waiting(dn: Name)
      reads this, name, alias, aliasttl
    {
      Valid() && loop < LOOPS && asked + Potential() <= 2 * LOOPS && path[0] == dn
    }

    /** query_start */
    method QueryStart(m: Message, dn: Name, dtype: seq<Byte>, dclass: seq<Byte>, world: World)
      returns (r: int, ghost trail: seq<Stop>)
      requires Shape() && m.r.Shape() && |dtype| == 2 && |dclass| == 2
      modifies this, name, alias, aliasttl, ns, m, m.r`len, m.r`nb, m.r`nameNum, m.r.msg, m.r.names, m.r.namePtr
      ensures r == 1 || r == 0 || r == -1 || r == 2
      ensures dtype != AXFR ==>
        trail != [] && Ended(m, trail[|trail| - 1].place, r)
          && Leads(world, qtype, Stop(NewName, 0, 0, 0), trail, Here(trail[|trail| - 1].place))
      ensures r == 0 ==> Waiting(dn) && m.r.Shape() && world.sending(loop, level).Started?
      ensures r == 1 ==> Concluded(m, world, false) && path[0] == dn
      ensures dtype == AXFR ==> r == -1
      ensures r == -1 ==> dtype == AXFR || Abandoned(world)
      ensures r == 2 ==> m.r.len > REACH
      ensures dtype != AXFR && world.known(1, 0).Told? ==> Delivered(m, dn, world.known(1, 0).records, r)
      ensures dtype != AXFR ==> qtype == dtype && qclass == dclass && asked <= 2 * LOOPS
      ensures dtype != AXFR ==> |path| == |ttls| + 1 && path[0] == dn && Linked(world, 0, path, ttls)
    {
      hide AliasesOk, Concluded, Delivered, Abandoned, Linked, Response.Shape;
      if dtype == AXFR { return -1, []; }
      Begin(dn, dtype, dclass);
      r, trail := Doit(m, 0, world);
    }

    /** query_get, when the transmission has ended with a packet (1) or without (-1). */
    method QueryGet(m: Message, state: int, ghost dn: Name, world: World) returns (r: int, ghost trail: seq<Stop>)
      requires Waiting(dn) && m.r.Shape()
      modifies this`loop, this`level, this`asked, this`path, this`ttls, name, alias, aliasttl, ns
      modifies m, m.r`len, m.r`nb, m.r`nameNum, m.r.msg, m.r.names, m.r.namePtr
      ensures r == 1 || r == 0 || r == -1 || r == 2
      ensures trail != [] && Ended(m, trail[|trail| - 1].place, r)
      ensures var first := if state == 1 then HavePacket else if state == -1 then GiveUp else NewName;
        Leads(world, qtype, old(Here(first)), trail, Here(trail[|trail| - 1].place))
      ensures r == 0 ==> Waiting(dn) && m.r.Shape() && world.sending(loop, level).Started?
      ensures r == 1 ==> Concluded(m, world, state == -1 && old(level) == 0) && path[0] == dn
      ensures r == -1 ==> Abandoned(world)
      ensures r == 2 ==> m.r.len > REACH
      ensures state == 1 && old(level) == 0 && old(loop) + 1 < LOOPS && world.heard(old(loop) + 1, 0).Data? ==>
        Delivered(m, old(path[|path| - 1]), world.heard(old(loop) + 1, 0).answers, r)
      ensures asked <= 2 * LOOPS
      ensures old(path) <= path && old(ttls) <= ttls && Linked(world, |old(ttls)|, path, ttls)
    {
      hide AliasesOk, Concluded, Delivered, Abandoned, Linked, Response.Shape;
      r, trail := Doit(m, state, world);
    }
  }

  /** Where doit starts: with a packet, with a failed transmission, or with a new name. */
  function Entrance(state: int): Label {
    if state == 1 then HavePacket else if state == -1 then GiveUp else NewName
  }

  /** Among steps that leave the potential alone. */
  function Rank(l: Label): nat {
    match l
    case NewName => 6
    case HaveNs => 4
    case NoSuch => 3
    case GiveUp => 3
    case LowerLevel => 2
    case Cname(_, _) => 5
    case _ => 1
  }

  /** The response is one chain of CNAME records from the question on, followed by the records of the last name. */
  lemma {:induction false} ResponseChain(path: seq<Name>, ttls: seq<Word>, masked: bool, rest: seq<RR>)
    requires |path| == |ttls| + 1
    ensures var l := ChainLog(path, ttls, masked) + rest;
      && |l| == |ttls| + |rest| && l[|ttls|..] == rest
      && forall i :: 0 <= i < |ttls| ==>
        l[i] == RR(Lower(path[i]), [0, 5], if masked then 0 else ttls[i], [RecordData.Name(Lower(path[i + 1]))])
  {
    var l := ChainLog(path, ttls, masked) + rest;
    forall i | 0 <= i < |ttls|
      ensures l[i] == RR(Lower(path[i]), [0, 5], if masked then 0 else ttls[i], [RecordData.Name(Lower(path[i + 1]))])
    {
      assert l[i] == ChainLog(path, ttls, masked)[i];
    }
  }

  /** A response, not truncated, with recursion available; authoritative exactly for a name error; and its code
      is 0, 3 or 2. */
  lemma {:induction false} FlagsMeaning(outcome: Outcome)
    ensures var f := FlagsOf(outcome);
      && |f| == 2 && f[0] / 128 == 1 && f[0] / 2 % 2 == 0 && f[1] / 128 == 1
      && (f[0] / 4 % 2 == 1 <==> outcome == NoName)
      && f[1] % 16 == match outcome case Found => 0 case NoName => 3 case Trouble => 2
  {
  }

  lemma {:induction false} AliasesMore(alias: seq<Option<Name>>, aliasttl: seq<Word>, alias': seq<Option<Name>>,
                                       aliasttl': seq<Word>,
                                       path: seq<Name>, ttls: seq<Word>, target: Name, ttl: Word)
    requires AliasesOk(alias, aliasttl, path, ttls) && |ttls| < MAXALIAS && |alias'| == |aliasttl'| == MAXALIAS
    requires alias'[0] == Some(path[|path| - 1]) && aliasttl'[0] == ttl
    requires forall k :: 0 < k < MAXALIAS ==> alias'[k] == alias[k - 1] && aliasttl'[k] == aliasttl[k - 1]
    ensures AliasesOk(alias', aliasttl', path + [target], ttls + [ttl])
  {
    forall i | 0 <= i < MAXALIAS ensures AliasAt(alias', aliasttl', path + [target], ttls + [ttl], i) {
      if i > 0 {
        assert AliasAt(alias, aliasttl, path, ttls, i - 1);
      }
    }
  }

  /** The aliases by place. */
  lemma {:induction false} AliasesMean(alias: seq<Option<Name>>, aliasttl: seq<Word>, path: seq<Name>, ttls: seq<Word>)
    requires AliasesOk(alias, aliasttl, path, ttls)
    ensures |alias| == |aliasttl| == MAXALIAS && |path| == |ttls| + 1 && |ttls| <= MAXALIAS
    ensures forall i :: |ttls| <= i < MAXALIAS ==> alias[i] == None
    ensures forall i :: 0 <= i < |ttls| ==>
      alias[i] == Some(path[|ttls| - 1 - i]) && aliasttl[i] == ttls[|ttls| - 1 - i]
  {
    forall i | |ttls| <= i < MAXALIAS ensures alias[i] == None {
      assert AliasAt(alias, aliasttl, path, ttls, i);
    }
    forall i | 0 <= i < |ttls| ensures alias[i] == Some(path[|ttls| - 1 - i]) && aliasttl[i] == ttls[|ttls| - 1 - i] {
      assert AliasAt(alias, aliasttl, path, ttls, i);
    }
  }

  /** The records for the top alias down to alias 0, the last one for the current name. */
  method AddLinks(m: Message, alias: seq<Option<Name>>, aliasttl: seq<Word>, current: Name, top: nat,
                  ghost path: seq<Name>, ghost ttls: seq<Word>)
    returns (ok: bool)
    requires AliasesOk(alias, aliasttl, path, ttls) && current == path[|path| - 1] && top == |ttls| - 1
    requires m.Complete() && Roomy(m) && Log(m.ms) == [] && m.r.len + MAXALIAS * LINKSIZE <= REACH
    modifies m`dpos, m`cur, m`ms, m`an, m`ns, m`ar, m.r`len, m.r`nb, m.r`nameNum, m.r.msg, m.r.names, m.r.namePtr
    ensures ok && m.Complete() && Roomy(m) && Log(m.ms) == ChainLog(path, ttls, m.flaghidettl)
      && m.Flags() == old(m.Flags())
  {
    hide Links, AliasesOk, Message.Complete, Message.Flags, Roomy, IsName, Lower, Added, LinkRR, Log, ChainLog, Written;
    AliasesMean(alias, aliasttl, path, ttls);
    ghost var all := ChainLog(path, ttls, m.flaghidettl);
    LinkLast(alias, aliasttl, path, ttls, m.flaghidettl);
    WrittenNone(m.ms, all);
    AllLinks(alias, aliasttl, path, ttls, m.flaghidettl, top);
    ok := AddInner(m, alias, aliasttl, top, all);
    ghost var ms1 := m.ms;
    ok := AddCname(m, alias[0].value, current, aliasttl[0]);
    WrittenMore(ms1, m.ms, all, top);
    WrittenAll(m.ms, all);
  }

  /** The record for alias i and the one behind it. */
  ghost predicate InnerLink(alias: seq<Option<Name>>, aliasttl: seq<Word>, all: seq<RR>, top: nat, masked: bool,
                            i: nat) {
    && 0 < i <= top < |all| && i < |alias| && i < |aliasttl| && alias[i].Some? && alias[i - 1].Some?
    && all[top - i] == LinkRR(alias[i].value, alias[i - 1].value, aliasttl[i], masked)
  }

  ghost predicate Links(alias: seq<Option<Name>>, aliasttl: seq<Word>, all: seq<RR>, top: nat, masked: bool) {
    forall i :: 0 < i <= top ==> InnerLink(alias, aliasttl, all, top, masked, i)
  }

  lemma {:induction false} AllLinks(alias: seq<Option<Name>>, aliasttl: seq<Word>, path: seq<Name>, ttls: seq<Word>,
                                    masked: bool, top: nat)
    requires AliasesOk(alias, aliasttl, path, ttls) && top == |ttls| - 1
    ensures Links(alias, aliasttl, ChainLog(path, ttls, masked), top, masked)
  {
    var all := ChainLog(path, ttls, masked);
    hide AliasesOk, InnerLink, ChainLog;
    forall i | 0 < i <= top ensures InnerLink(alias, aliasttl, all, top, masked, i) {
      LinkAt(alias, aliasttl, path, ttls, masked, i);
    }
  }

  /** The records for pairs of neighbouring aliases. */
  method AddInner(m: Message, alias: seq<Option<Name>>, aliasttl: seq<Word>, top: nat, ghost all: seq<RR>)
    returns (ok: bool)
    requires Links(alias, aliasttl, all, top, m.flaghidettl)
    requires m.Complete() && Roomy(m) && Written(m.ms, all, 0) && m.r.len + (top + 1) * LINKSIZE <= REACH
    modifies m`dpos, m`cur, m`ms, m`an, m`ns, m`ar, m.r`len, m.r`nb, m.r`nameNum, m.r.msg, m.r.names, m.r.namePtr
    ensures ok && m.Complete() && Roomy(m) && Written(m.ms, all, top) && m.r.len + LINKSIZE <= REACH
      && m.Flags() == old(m.Flags())
  {
    hide Message.Complete, Message.Flags, Roomy, IsName, Lower, Added, LinkRR, Written;
    var i: nat := top;
    ok := true;
    while i > 0
      invariant i <= top && ok && m.Complete() && Roomy(m) && m.Flags() == old(m.Flags())
      invariant Written(m.ms, all, top - i) && m.r.len + (i + 1) * LINKSIZE <= REACH
    {
      ghost var ms1 := m.ms;
      assert InnerLink(alias, aliasttl, all, top, m.flaghidettl, i);
      ok := AddCname(m, alias[i].value, alias[i - 1].value, aliasttl[i]);
      WrittenMore(ms1, m.ms, all, top - i);
      i := i - 1;
    }
  }

  /** The first k records are in the response, and no other. */
  ghost predicate Written(ms: seq<Mark>, all: seq<RR>, k: nat) {
    k <= |all| && Log(ms) == all[..k]
  }

  /** The record for a neighbouring pair of aliases, and for the newest alias. */
  lemma {:induction false} LinkAt(alias: seq<Option<Name>>, aliasttl: seq<Word>, path: seq<Name>, ttls: seq<Word>,
                                  masked: bool, i: nat)
    requires AliasesOk(alias, aliasttl, path, ttls) && 0 < i < |ttls|
    ensures InnerLink(alias, aliasttl, ChainLog(path, ttls, masked), |ttls| - 1, masked, i)
  {
    hide LinkRR;
    assert AliasAt(alias, aliasttl, path, ttls, i) && AliasAt(alias, aliasttl, path, ttls, i - 1);
  }

  lemma {:induction false} LinkLast(alias: seq<Option<Name>>, aliasttl: seq<Word>, path: seq<Name>, ttls: seq<Word>,
                                    masked: bool)
    requires AliasesOk(alias, aliasttl, path, ttls) && ttls != []
    ensures |alias| == |aliasttl| == MAXALIAS && alias[0].Some? && |ChainLog(path, ttls, masked)| == |ttls|
    ensures ChainLog(path, ttls, masked)[|ttls| - 1] == LinkRR(alias[0].value, path[|path| - 1], aliasttl[0], masked)
  {
    hide LinkRR, IsName;
    assert AliasAt(alias, aliasttl, path, ttls, 0);
  }

  lemma {:induction false} NoLinks(path: seq<Name>, ttls: seq<Word>, masked: bool)
    requires |path| == 1 && ttls == []
    ensures ChainLog(path, ttls, masked) == []
  {
  }

  lemma {:induction false} WrittenNone(ms: seq<Mark>, all: seq<RR>)
    requires Log(ms) == []
    ensures Written(ms, all, 0)
  {
  }

  lemma {:induction false} WrittenMore(ms: seq<Mark>, ms': seq<Mark>, all: seq<RR>, k: nat)
    requires k < |all| && Written(ms, all, k) && Added(ms, ms', [all[k]])
    ensures Written(ms', all, k + 1)
  {
    assert all[..k] + [all[k]] == all[..k + 1];
  }

  lemma {:induction false} WrittenAll(ms: seq<Mark>, all: seq<RR>)
    requires Written(ms, all, |all|)
    ensures Log(ms) == all
  {
    assert all[..|all|] == all;
  }

  ghost predicate AliasesOk(alias: seq<Option<Name>>, aliasttl: seq<Word>, path: seq<Name>, ttls: seq<Word>) {
    && |alias| == |aliasttl| == MAXALIAS && |path| == |ttls| + 1 && |ttls| <= MAXALIAS
    && forall i :: 0 <= i < MAXALIAS ==> AliasAt(alias, aliasttl, path, ttls, i)
  }

  ghost predicate AliasAt(alias: seq<Option<Name>>, aliasttl: seq<Word>, path: seq<Name>, ttls: seq<Word>, i: nat)
    requires i < |alias| && |alias| == |aliasttl| && |path| == |ttls| + 1
  {
    if i < |ttls| then alias[i] == Some(path[|ttls| - 1 - i]) && aliasttl[i] == ttls[|ttls| - 1 - i]
      else alias[i] == None
  }
}
