/** The records that doit of src/query.c appends to a response behind the question and the aliases: from the
    cache, from a packet, or built in. */
module QueryAnswers {
  import opened Basics
  import opened Bytes
  import opened DnsName
  import opened RecordData
  import opened ResponseWriter
  import opened MessageWriter
  import opened TdRecords
  import opened TdMessage

  /** A proper domain name. */
  type Name = w: seq<Byte> | IsName(w) && |w| <= MAXNAME witness [0]

  /** A record type or class. */
  type Code = c: seq<Byte> | |c| == 2 witness [0, 1]

  const CLASSIN: Code := [0, 1]

  /** Record data as it is appended: a name, or plain bytes. */
  datatype Part = Host(name: Name) | Plain(bytes: seq<Byte>)

  /** A record of a packet or of the cache. Its data are missing when they cannot be read. */
  datatype Entry = Entry(owner: Name, rtype: Code, rclass: Code, ttl: Word, data: Option<seq<Part>>)

  /** typematch */
  predicate TypeMatch(rtype: Code, qtype: Code) {
    rtype == qtype || qtype == ANY
  }

  /** The record answers a question for this name and type. */
  predicate Wanted(e: Entry, d: Name, qtype: Code) {
    SameName(e.owner, d) && e.rclass == CLASSIN && TypeMatch(e.rtype, qtype)
  }

  function PieceOf(p: Part): Piece {
    match p
    case Host(name) => RecordData.Name(Lower(name))
    case Plain(bytes) => Raw(bytes)
  }

  function PiecesOf(parts: seq<Part>): seq<Piece> {
    seq(|parts|, i requires 0 <= i < |parts| => PieceOf(parts[i]))
  }

  ghost function RecordOf(e: Entry, masked: bool): RR
    requires e.data.Some?
  {
    RR(Lower(e.owner), e.rtype, if masked then 0 else e.ttl, PiecesOf(e.data.value))
  }

  /** The records for a question, in their order. */
  ghost function AnswerLog(entries: seq<Entry>, d: Name, qtype: Code, masked: bool): seq<RR> {
    if entries == [] then []
    else
      var e := entries[|entries| - 1];
      AnswerLog(entries[..|entries| - 1], d, qtype, masked)
      + if Wanted(e, d, qtype) && e.data.Some? then [RecordOf(e, masked)] else []
  }

  /** All of them belong to the name asked for, in any case of its letters, and are of the type asked for. */
  lemma {:induction false} AnswersMatch(entries: seq<Entry>, d: Name, qtype: Code, masked: bool, rr: RR)
    requires rr in AnswerLog(entries, d, qtype, masked)
    ensures rr.owner == Lower(d) && (qtype == ANY || rr.rtype == qtype) && (masked ==> rr.ttl == 0)
    ensures exists e :: e in entries && Wanted(e, d, qtype) && e.data.Some? && rr == RecordOf(e, masked)
    decreases |entries|
  {
    var e := entries[|entries| - 1];
    if !(Wanted(e, d, qtype) && e.data.Some? && rr == RecordOf(e, masked)) {
      AnswersMatch(entries[..|entries| - 1], d, qtype, masked, rr);
    }
  }

  /** The data of a record that is appended: names in lower case, bytes as they are. */
  ghost predicate Copied(parts: seq<Part>, data: seq<Piece>) {
    |data| == |parts| && forall k :: 0 <= k < |parts| ==>
      match parts[k]
      case Host(name) => data[k] == RecordData.Name(Lower(name))
      case Plain(bytes) => data[k] == Raw(bytes)
  }

  /** Entry k answers the question and can be read: its owner up to case, class IN, and the type asked for or
      any. */
  ghost predicate ForQuestion(entries: seq<Entry>, d: Name, qtype: Code, k: nat) {
    && k < |entries| && Lower(entries[k].owner) == Lower(d) && entries[k].rclass == [0, 1]
    && (qtype == [0, 255] || entries[k].rtype == qtype) && entries[k].data.Some?
  }

  ghost function Asked(entries: seq<Entry>, d: Name, qtype: Code): nat -> bool {
    (k: nat) => ForQuestion(entries, d, qtype, k)
  }

  /** The record rr is a copy of this entry. */
  ghost predicate CopyOf(e: Entry, masked: bool, rr: RR) {
    && e.data.Some? && rr.owner == Lower(e.owner) && rr.rtype == e.rtype && rr.ttl == (if masked then 0 else e.ttl)
    && Copied(e.data.value, rr.data)
  }

  /** What is appended are copies of the entries that are for the question, of all of them, in their order. */
  lemma {:induction false} AnswersExact(entries: seq<Entry>, d: Name, qtype: Code, masked: bool) returns (ks: seq<nat>)
    ensures Selects(ks, |entries|, Asked(entries, d, qtype))
    ensures var l := AnswerLog(entries, d, qtype, masked);
      |l| == |ks| && forall i :: 0 <= i < |ks| ==> ks[i] < |entries| && CopyOf(entries[ks[i]], masked, l[i])
  {
    ks := AnswersUpto(entries, d, qtype, masked, |entries|);
    assert entries[..|entries|] == entries;
  }

  lemma {:induction false} AnswersUpto(entries: seq<Entry>, d: Name, qtype: Code, masked: bool, n: nat)
    returns (ks: seq<nat>)
    requires n <= |entries|
    ensures Selects(ks, n, Asked(entries, d, qtype))
    ensures var l := AnswerLog(entries[..n], d, qtype, masked);
      |l| == |ks| && forall i :: 0 <= i < |ks| ==> ks[i] < |entries| && CopyOf(entries[ks[i]], masked, l[i])
    decreases n
  {
    hide AnswerLog, Selects, Copied, Lower;
    ks := [];
    if n > 0 {
      ks := AnswersUpto(entries, d, qtype, masked, n - 1);
      var e := entries[n - 1];
      assert entries[..n] == entries[..n - 1] + [e];
      AnswersMore(entries[..n - 1], e, d, qtype, masked);
      SelectsMore(ks, n - 1, Asked(entries, d, qtype));
      hide CopyOf;
      if Asked(entries, d, qtype)(n - 1) {
        CopyIs(e, masked);
        ks := ks + [n - 1];
      }
    } else {
      AnswersNone(d, qtype, masked);
      SelectsNone(Asked(entries, d, qtype));
      assert entries[..0] == [];
    }
  }

  lemma {:induction false} CopyIs(e: Entry, masked: bool)
    requires e.data.Some?
    ensures CopyOf(e, masked, RecordOf(e, masked))
  {
  }

  /** And none is left out. */
  lemma {:induction false} AnswersAll(entries: seq<Entry>, d: Name, qtype: Code, masked: bool, e: Entry)
    requires e in entries && Wanted(e, d, qtype) && e.data.Some?
    ensures RecordOf(e, masked) in AnswerLog(entries, d, qtype, masked)
    decreases |entries|
  {
    if e != entries[|entries| - 1] {
      assert e in entries[..|entries| - 1];
      AnswersAll(entries[..|entries| - 1], d, qtype, masked, e);
    }
  }

  /** An upper bound on what the data take in the message. */
  function Size(parts: seq<Part>): nat
    decreases |parts|
  {
    if parts == [] then 0
    else (match parts[0] case Host(name) => |name| case Plain(bytes) => |bytes|) + Size(parts[1..])
  }

  /** The data of one record. It fails when they do not fit into a message. */
  method AddParts(m: Message, parts: seq<Part>) returns (st: Status)
    requires m.Open() && Roomy(m)
    modifies m`cur, m.r`len, m.r`nb, m.r`nameNum, m.r.msg, m.r.names, m.r.namePtr
    ensures st.Failed? ==> old(m.r.len) + Size(parts) > MAXLEN
    ensures st.Beyond? ==> m.r.len > REACH
    ensures st.Done? ==> m.Open() && Roomy(m) && m.Flags() == old(m.Flags())
    ensures st.Done? ==> m.cur == old(m.cur).(data := old(m.cur).data + PiecesOf(parts))
  {
    hide Message.Open, Message.Flags, Response.Small, Lower, IsName;
    for i := 0 to |parts|
      invariant m.Open() && Roomy(m) && m.Flags() == old(m.Flags())
      invariant m.cur == old(m.cur).(data := old(m.cur).data + PiecesOf(parts[..i]))
      invariant m.r.len + Size(parts[i..]) <= old(m.r.len) + Size(parts)
    {
      assert PiecesOf(parts[..i + 1]) == PiecesOf(parts[..i]) + [PieceOf(parts[i])];
      assert parts[i..][0] == parts[i] && parts[i..][1..] == parts[i + 1..];
      var ok;
      match parts[i] {
        case Host(name) => ok := m.DataName(name);
        case Plain(bytes) => ok := m.Data(bytes);
      }
      if !ok { return Failed; }
      if m.r.len > REACH { return Beyond; }
    }
    assert parts[..|parts|] == parts;
    st := Done;
  }

  /** What there is room for at any point within the reach of a compression pointer. */
  const ROOM: nat := MAXLEN - REACH - MAXNAME - 10

  /** One record in the answer section. */
  method AddEntry(m: Message, e: Entry) returns (st: Status)
    requires m.Complete() && Roomy(m)
    modifies m`dpos, m`cur, m`ms, m`an, m`ns, m`ar, m.r`len, m.r`nb, m.r`nameNum, m.r.msg, m.r.names, m.r.namePtr
    ensures st.Failed? ==> e.data.None? || Size(e.data.value) > ROOM
    ensures st.Beyond? ==> m.r.len > REACH
    ensures st.Done? ==> m.Complete() && Roomy(m) && m.Flags() == old(m.Flags()) && e.data.Some?
    ensures st.Done? ==> Added(old(m.ms), m.ms, [RecordOf(e, m.flaghidettl)])
  {
    hide Message.Open, Message.Complete, Message.Flags, Response.Small, Lower, IsName, PiecesOf, Size;
    var ok := m.RStart(e.owner, e.rtype, e.ttl);
    if m.r.len > REACH { return Beyond; }
    if e.data.None? { return Failed; }
    st := AddParts(m, e.data.value);
    if !st.Done? { return; }
    assert [] + PiecesOf(e.data.value) == PiecesOf(e.data.value);
    m.RFinish(Answer);
    AddedOne(old(m.ms), m.ms[|old(m.ms)|]);
  }

  /** All records that answer the question. It fails when the data of one cannot be read or do not fit. */
  method AddEntries(m: Message, entries: seq<Entry>, d: Name, qtype: Code) returns (st: Status)
    requires m.Complete() && Roomy(m)
    modifies m`dpos, m`cur, m`ms, m`an, m`ns, m`ar, m.r`len, m.r`nb, m.r`nameNum, m.r.msg, m.r.names, m.r.namePtr
    ensures st.Failed? ==> exists e ::
      e in entries && Wanted(e, d, qtype) && (e.data.None? || Size(e.data.value) > ROOM)
    ensures st.Beyond? ==> m.r.len > REACH
    ensures st.Done? ==> m.Complete() && Roomy(m) && m.Flags() == old(m.Flags())
    ensures st.Done? ==> Added(old(m.ms), m.ms, AnswerLog(entries, d, qtype, m.flaghidettl))
    ensures st.Done? ==> forall e :: e in entries && Wanted(e, d, qtype) ==> e.data.Some?
  {
    hide Message.Complete, Message.Flags, Roomy, Wanted, RecordOf, Size, Added, AnswerLog;
    AnswersNone(d, qtype, m.flaghidettl);
    AddedNone(m.ms);
    for i := 0 to |entries|
      invariant m.Complete() && Roomy(m) && m.Flags() == old(m.Flags())
      invariant Added(old(m.ms), m.ms, AnswerLog(entries[..i], d, qtype, m.flaghidettl))
      invariant forall e :: e in entries[..i] && Wanted(e, d, qtype) ==> e.data.Some?
    {
      var e := entries[i];
      assert entries[..i + 1] == entries[..i] + [e] && entries[..i + 1][..i] == entries[..i];
      AnswersMore(entries[..i], e, d, qtype, m.flaghidettl);
      if Wanted(e, d, qtype) {
        ghost var ms1 := m.ms;
        st := AddEntry(m, e);
        if !st.Done? { return; }
        AddedMore(old(m.ms), ms1, m.ms, AnswerLog(entries[..i], d, qtype, m.flaghidettl), [RecordOf(e, m.flaghidettl)]);
      }
    }
    assert entries[..|entries|] == entries;
    st := Done;
  }

  lemma {:induction false} AnswersMore(entries: seq<Entry>, e: Entry, d: Name, qtype: Code, masked: bool)
    ensures Wanted(e, d, qtype) && e.data.Some? ==>
      AnswerLog(entries + [e], d, qtype, masked) == AnswerLog(entries, d, qtype, masked) + [RecordOf(e, masked)]
    ensures !(Wanted(e, d, qtype) && e.data.Some?) ==>
      AnswerLog(entries + [e], d, qtype, masked) == AnswerLog(entries, d, qtype, masked)
  {
    hide Wanted, RecordOf;
    assert (entries + [e])[..|entries|] == entries;
  }

  lemma {:induction false} AnswersNone(d: Name, qtype: Code, masked: bool)
    ensures AnswerLog([], d, qtype, masked) == []
  {
  }

  lemma {:induction false} AddedNone(ms: seq<Mark>)
    ensures Added(ms, ms, [])
  {
  }
}
