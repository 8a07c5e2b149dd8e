/** Whole messages: header counters, the question, and framed resource records
    (section 4.1 of RFC 1035), as src/response.c builds them. */
module MessageWriter {
  import opened Basics
  import opened Bytes
  import opened DnsName
  import opened DnsPacket
  import opened DnsCompress
  import opened RecordData
  import opened ResponseWriter

  /** Offsets of the three record counters in the header. */
  datatype Section = Answer | Authority | Additional

  function CounterAt(x: Section): nat {
    match x
    case Answer => 6
    case Authority => 8
    case Additional => 10
  }

  const HEADERLEN: nat := 12

  // ---------- Reading a message back ----------

  /** One resource record read from pos: its name, ten bytes ending in the data length, the data. */
  function ParseRecord(buf: seq<Byte>, pos: nat): Option<nat> {
    match GetName(buf, pos)
    case None => None
    case Some(r) =>
      if r.end + 10 > |buf| then None
      else
        var next := r.end + 10 + Big16(buf[r.end + 8], buf[r.end + 9]);
        if next > |buf| then None else Some(next)
  }

  function ParseRecords(buf: seq<Byte>, pos: nat, n: nat): Option<nat>
    decreases n
  {
    if n == 0 then Some(pos)
    else
      match ParseRecord(buf, pos)
      case None => None
      case Some(next) => ParseRecords(buf, next, n - 1)
  }

  /** The message is one question and exactly as many records as its header counts, to the last byte. */
  predicate ParsesCompletely(buf: seq<Byte>) {
    && |buf| >= HEADERLEN
    && Big16(buf[4], buf[5]) == 1
    && GetName(buf, HEADERLEN).Some?
    && var q := GetName(buf, HEADERLEN).value.end + 4;
       q <= |buf| &&
       ParseRecords(buf, q, Big16(buf[6], buf[7]) + Big16(buf[8], buf[9]) + Big16(buf[10], buf[11])) == Some(|buf|)
  }

  // ---------- What has been written ----------

  /** A record in the message: its lower-cased owner, type, time to live and data, where it starts,
      where its data starts and ends, and the name bytes that stood in the message when its owner (t)
      and its data (u) were written. */
  datatype Mark = Mark(start: nat, owner: seq<Byte>, rtype: seq<Byte>, ttl: Word, body: nat,
                       data: seq<Piece>, end: nat, t: Trace, u: Trace)

  ghost predicate OwnerIn(buf: seq<Byte>, m: Mark) {
    && IsName(m.owner) && |m.owner| <= MAXNAME
    && At(m.t, m.start, m.owner) && EndAt(m.t, m.start, m.owner) + 10 == m.body <= |buf|
    && (forall p :: p in m.t ==> HEADERLEN <= p < m.body - 10 && buf[p] == m.t[p])
    && FixedIn(buf, m)
  }

  /** Type, class IN and time to live in front of the two length bytes. */
  ghost predicate FixedIn(buf: seq<Byte>, m: Mark) {
    && HEADERLEN + 10 <= m.body <= |buf| && |m.rtype| == 2
    && buf[m.body - 10..m.body - 2] == m.rtype + [0, 1] + PackBig32(m.ttl)
  }

  ghost predicate DataIn(buf: seq<Byte>, m: Mark) {
    && (forall p :: p in m.u ==> HEADERLEN <= p < m.end <= |buf| && buf[p] == m.u[p])
    && PiecesAt(buf, m.u, m.body, m.data, m.end)
  }

  ghost predicate RecordIn(buf: seq<Byte>, m: Mark) {
    && OwnerIn(buf, m)
    && m.body <= m.end <= |buf| && Big16(buf[m.body - 2], buf[m.body - 1]) == m.end - m.body
    && DataIn(buf, m)
  }

  /** Finished records back to back. */
  ghost predicate RecordsIn(buf: seq<Byte>, from: nat, to: nat, ms: seq<Mark>)
    decreases |ms|
  {
    if ms == [] then from == to
    else
      ms[0].start == from && RecordIn(buf, ms[0]) && RecordsIn(buf, ms[0].end, to, ms[1..])
  }

  lemma {:induction false} OwnerStays(buf: seq<Byte>, buf': seq<Byte>, m: Mark)
    requires OwnerIn(buf, m) && m.body <= |buf'| && forall p :: HEADERLEN <= p < m.body - 2 ==> buf'[p] == buf[p]
    ensures OwnerIn(buf', m)
  {
    hide At, EndAt, IsName, PackBig32;
    assert buf'[m.body - 10..m.body - 2] == buf[m.body - 10..m.body - 2];
  }

  /** The owner and the fixed fields do not depend on the data behind them. */
  lemma {:induction false} OwnerAlone(buf: seq<Byte>, m: Mark, data: seq<Piece>, end: nat, u: Trace)
    requires OwnerIn(buf, m)
    ensures OwnerIn(buf, m.(data := data, end := end, u := u))
  {
  }

  lemma {:induction false} DataStays(buf: seq<Byte>, buf': seq<Byte>, m: Mark)
    requires DataIn(buf, m) && HEADERLEN <= m.body <= m.end <= |buf| && m.end <= |buf'|
    requires forall p :: HEADERLEN <= p < m.end ==> buf'[p] == buf[p]
    ensures DataIn(buf', m)
  {
    PiecesStay(buf, m.u, buf', m.u, m.body, m.data, m.end);
  }

  lemma {:induction false} RecordsForward(buf: seq<Byte>, from: nat, to: nat, ms: seq<Mark>)
    requires RecordsIn(buf, from, to, ms)
    ensures from <= to && (ms != [] ==> to <= |buf|) && (ms != [] ==> from + 11 <= ms[0].body <= ms[0].end <= to)
    decreases |ms|
  {
    if ms != [] {
      RecordsForward(buf, ms[0].end, to, ms[1..]);
      EndBehind(ms[0].t, ms[0].start, ms[0].owner);
    }
  }

  /** Changing bytes before the records, or behind them, or cutting there, leaves them in place. */
  lemma {:induction false} RecordsStay(buf: seq<Byte>, buf': seq<Byte>, from: nat, to: nat, ms: seq<Mark>)
    requires RecordsIn(buf, from, to, ms) && to <= |buf'| && to <= |buf| && HEADERLEN <= from
    requires forall p :: HEADERLEN <= p < to ==> buf'[p] == buf[p]
    ensures RecordsIn(buf', from, to, ms)
    decreases |ms|
  {
    if ms != [] {
      RecordsForward(buf, from, to, ms);
      OwnerStays(buf, buf', ms[0]);
      DataStays(buf, buf', ms[0]);
      RecordsStay(buf, buf', ms[0].end, to, ms[1..]);
    }
  }

  lemma {:induction false} RecordsAppend(buf: seq<Byte>, from: nat, to: nat, ms: seq<Mark>, m: Mark)
    requires RecordsIn(buf, from, to, ms) && m.start == to && RecordIn(buf, m)
    ensures RecordsIn(buf, from, m.end, ms + [m])
    decreases |ms|
  {
    if ms == [] {
      assert (ms + [m])[1..] == [];
    } else {
      assert (ms + [m])[1..] == ms[1..] + [m];
      RecordsAppend(buf, ms[0].end, to, ms[1..], m);
    }
  }

  lemma {:induction false} RecordsSplit(buf: seq<Byte>, from: nat, to: nat, ms: seq<Mark>, k: nat) returns (mid: nat)
    requires RecordsIn(buf, from, to, ms) && k <= |ms|
    ensures RecordsIn(buf, from, mid, ms[..k]) && RecordsIn(buf, mid, to, ms[k..])
    ensures mid == if k < |ms| then ms[k].start else to
    decreases |ms|
  {
    if k == 0 {
      mid := from;
      assert ms[0..] == ms;
    } else {
      mid := RecordsSplit(buf, ms[0].end, to, ms[1..], k - 1);
      assert ms[..k][1..] == ms[1..][..k - 1] && ms[1..][k - 1..] == ms[k..];
    }
  }

  lemma {:induction false} RecordParses(buf: seq<Byte>, m: Mark)
    requires RecordIn(buf, m)
    ensures ParseRecord(buf, m.start) == Some(m.end)
  {
    hide At, EndAt, IsName, PiecesAt, DataIn, FixedIn, Get;
    RoundTrip(buf, m.t, m.start, m.owner);
  }

  lemma {:induction false} RecordsParse(buf: seq<Byte>, from: nat, to: nat, ms: seq<Mark>)
    requires RecordsIn(buf, from, to, ms)
    ensures ParseRecords(buf, from, |ms|) == Some(to)
    decreases |ms|
  {
    hide ParseRecord, RecordIn, At;
    if ms != [] {
      RecordParses(buf, ms[0]);
      RecordsParse(buf, ms[0].end, to, ms[1..]);
    }
  }

  ghost predicate QuestionIn(buf: seq<Byte>, w: seq<Byte>, t: Trace, f: seq<Byte>, q: nat) {
    && IsName(w) && |w| <= MAXNAME
    && At(t, HEADERLEN, w) && EndAt(t, HEADERLEN, w) + 4 == q <= |buf|
    && |f| == 4 && q >= 4 && buf[q - 4..q] == f
    && forall p :: p in t ==> HEADERLEN <= p < q - 4 && buf[p] == t[p]
  }

  /** The header's counters. */
  ghost predicate CountersIn(buf: seq<Byte>, an: nat, ns: nat, ar: nat) {
    && |buf| >= HEADERLEN && Big16(buf[4], buf[5]) == 1
    && Big16(buf[6], buf[7]) == an && Big16(buf[8], buf[9]) == ns && Big16(buf[10], buf[11]) == ar
  }

  /** A message as it may be sent. */
  ghost predicate Framed(buf: seq<Byte>, w: seq<Byte>, t: Trace, f: seq<Byte>, q: nat, ms: seq<Mark>, an: nat,
                         ns: nat, ar: nat) {
    && QuestionIn(buf, w, t, f, q) && CountersIn(buf, an, ns, ar)
    && |ms| == an + ns + ar && RecordsIn(buf, q, |buf|, ms)
  }

  lemma {:induction false} QuestionParses(buf: seq<Byte>, w: seq<Byte>, t: Trace, f: seq<Byte>, q: nat)
    requires QuestionIn(buf, w, t, f, q)
    ensures GetName(buf, HEADERLEN).Some? && GetName(buf, HEADERLEN).value.end + 4 == q <= |buf|
    ensures SkipName(buf, HEADERLEN) == Some(q - 4)
  {
    hide GetName, SkipName, At, EndAt;
    RoundTrip(buf, t, HEADERLEN, w);
  }

  lemma {:induction false} FramedParses(buf: seq<Byte>, w: seq<Byte>, t: Trace, f: seq<Byte>, q: nat, ms: seq<Mark>,
                                        an: nat, ns: nat, ar: nat)
    requires Framed(buf, w, t, f, q, ms, an, ns, ar)
    ensures ParsesCompletely(buf)
  {
    hide ParseRecords, RecordsIn, GetName, SkipName, QuestionIn, Big16;
    QuestionParses(buf, w, t, f, q);
    RecordsParse(buf, q, |buf|, ms);
  }

  lemma {:induction false} QuestionStays(buf: seq<Byte>, buf': seq<Byte>, w: seq<Byte>, t: Trace, f: seq<Byte>, q: nat)
    requires QuestionIn(buf, w, t, f, q) && q <= |buf'| && forall p :: HEADERLEN <= p < q ==> buf'[p] == buf[p]
    ensures QuestionIn(buf', w, t, f, q)
  {
  }

  /** An owner name and ten more bytes behind it. */
  lemma {:induction false} OwnerWritten(nb: Trace, named: seq<Byte>, buf: seq<Byte>, m: Mark)
    requires named <= buf && |buf| == |named| + 10 == m.body
    requires IsName(m.owner) && |m.owner| <= MAXNAME && At(m.t, m.start, m.owner) && EndAt(m.t, m.start, m.owner) ==
      |named|
    requires Shows(named, m.t) && Grown(nb, m.t, m.start) && HEADERLEN <= m.start
    requires (forall p :: p in nb ==> p >= HEADERLEN) && |m.rtype| == 2
    requires buf[|named|..] == m.rtype + [0, 1] + PackBig32(m.ttl) + [0, 0]
    ensures OwnerIn(buf, m) && m.body >= HEADERLEN + 10
    ensures m.body - 2 !in m.t && m.body - 1 !in m.t && forall p :: p in m.t ==> p >= HEADERLEN
  {
    hide At, EndAt, IsName, PackBig32;
    EndBehind(m.t, m.start, m.owner);
    var fixed := m.rtype + [0, 1] + PackBig32(m.ttl);
    assert buf[|named|..] == fixed + [0, 0];
    assert buf[m.body - 10..m.body - 2] == buf[|named|..][..8] == fixed;
  }

  lemma {:induction false} NamesFresh(buf: seq<Byte>, nb: Trace)
    requires Shows(buf, nb) && Grown(map[], nb, HEADERLEN)
    ensures forall p :: p in nb ==> HEADERLEN <= p < |buf| && buf[p] == nb[p]
  {
  }

  lemma {:induction false} QuestionWritten(named: seq<Byte>, rest: seq<Byte>, w: seq<Byte>, t: Trace, header: seq<Byte>)
    requires IsName(w) && |w| <= MAXNAME && At(t, HEADERLEN, w) && EndAt(t, HEADERLEN, w) == |named| && |rest| == 4
    requires |header| == HEADERLEN && header[4..] == [0, 1, 0, 0, 0, 0, 0, 0] && header <= named
    requires forall p :: p in t ==> HEADERLEN <= p < |named| && named[p] == t[p]
    ensures Framed(named + rest, w, t, rest, |named| + 4, [], 0, 0, 0)
  {
    var buf := named + rest;
    assert forall i :: 0 <= i < HEADERLEN ==> buf[i] == header[i];
    assert forall i :: 4 <= i < HEADERLEN ==> header[i] == header[4..][i - 4];
  }

  lemma {:induction false} RecordsCount(buf: seq<Byte>, from: nat, to: nat, ms: seq<Mark>)
    requires RecordsIn(buf, from, to, ms)
    ensures from + 11 * |ms| <= to
    decreases |ms|
  {
    if ms != [] {
      RecordsForward(buf, from, to, ms);
      RecordsCount(buf, ms[0].end, to, ms[1..]);
    }
  }

  class Message {
    const r: Response
    var dpos: nat
    var tctarget: nat
    var flaghidettl: bool
    ghost var qname: seq<Byte>
    ghost var qtrace: Trace
    ghost var qfixed: seq<Byte>   // type and class of the question
    ghost var ms: seq<Mark>
    ghost var cur: Mark
    ghost var an: nat
    ghost var ns: nat
    ghost var ar: nat

    constructor ()
      ensures fresh(r) && fresh(r.msg) && fresh(r.names) && fresh(r.namePtr) && r.Valid()
    {
      r := new Response();
      dpos, tctarget, flaghidettl := 0, 0, false;
      qname, qtrace, ms, cur, an, ns, ar := [], map[], [], Mark(0, [], [], 0, 0, [], 0, map[], map[]), 0, 0, 0;
    }

    ghost predicate NamesBehindHeader()
      reads this, r
    {
      forall p :: p in r.nb ==> p >= HEADERLEN
    }

    /** The two header bytes with the AA bit and the response code. */
    ghost function Flags(): seq<Byte>
      reads r.msg
    {
      if r.msg.Length < HEADERLEN then [] else [r.msg[2], r.msg[3]]
    }

    /** Between two records. */
    ghost predicate Complete()
      reads this, r, r.msg, r.names, r.namePtr
    {
      && r.Valid() && NamesBehindHeader() && HEADERLEN <= tctarget <= r.len
      && Framed(r.msg[..r.len], qname, qtrace, qfixed, tctarget, ms, an, ns, ar)
    }

    /** Inside a record, whose owner and fixed fields are written. */
    ghost predicate Open()
      reads this, r, r.msg, r.names, r.namePtr
    {
      && r.Valid() && NamesBehindHeader() && HEADERLEN <= tctarget <= cur.start
      && QuestionIn(r.msg[..r.len], qname, qtrace, qfixed, tctarget) && CountersIn(r.msg[..r.len], an, ns, ar)
      && |ms| == an + ns + ar && RecordsIn(r.msg[..r.len], tctarget, cur.start, ms)
      && OwnerIn(r.msg[..r.len], cur) && cur.body == dpos <= r.len
      && PiecesAt(r.msg[..r.len], r.nb, dpos, cur.data, r.len)
      && dpos >= HEADERLEN + 10 && dpos - 2 !in r.nb && dpos - 1 !in r.nb
    }

    /** The type and class of the question. */
    method CloseQuestion(qtype: seq<Byte>, qclass: seq<Byte>, ghost header: seq<Byte>)
      requires r.Valid() && r.Small() && r.len + 4 <= MAXLEN && |qtype| == 2 && |qclass| == 2
      requires IsName(qname) && |qname| <= MAXNAME && At(qtrace, HEADERLEN, qname)
        && EndAt(qtrace, HEADERLEN, qname) == r.len
      requires qtrace == r.nb && |header| == HEADERLEN && header[4..] == [0, 1, 0, 0, 0, 0, 0, 0]
        && header <= r.msg[..r.len]
      requires forall p :: p in qtrace ==> HEADERLEN <= p < r.len && r.msg[..r.len][p] == qtrace[p]
      requires ms == [] && an == ns == ar == 0
      requires qfixed == qtype + qclass
      modifies this`tctarget, r`len, r.msg
      ensures Complete() && r.Small() && r.len == old(r.len) + 4 && Flags() == [header[2], header[3]]
    {
      hide At, EndAt, Literal, IsName, Response.Entry, Shows, Framed;
      ghost var named := r.msg[..r.len];
      var ok := r.AddBytes(qtype);
      assert r.msg[..r.len] == named + qtype;
      ok := r.AddBytes(qclass);
      tctarget := r.len;
      assert r.msg[..r.len] == named + (qtype + qclass);
      QuestionWritten(named, qtype + qclass, qname, qtrace, header);
      FlagsPrefix(header);
    }

    /** An answer without errors, to one question. */
    method StartHeader() returns (ok: bool)
      requires r.Shape()
      modifies r`len, r`nb, r`nameNum, r.msg
      ensures ok && r.Valid() && r.Small() && r.nb == map[] && r.len == HEADERLEN
      ensures r.msg[..r.len] == [0, 0, 0x81, 0x80, 0, 1, 0, 0, 0, 0, 0, 0]
    {
      r.Reset();
      ok := r.AddBytes([0, 0, 0x81, 0x80, 0, 1, 0, 0, 0, 0, 0, 0]);
    }

    /** response_query */
    method Query(q: seq<Byte>, qtype: seq<Byte>, qclass: seq<Byte>) returns (ok: bool)
      requires r.Shape() && IsName(q) && |q| <= MAXNAME && |qtype| == 2 && |qclass| == 2
      modifies this, r`len, r`nb, r`nameNum, r.msg, r.names, r.namePtr
      ensures ok && Complete() && r.Small() && ms == [] && qname == Lower(q) && r.len <= HEADERLEN + |q| + 4
      ensures qfixed == qtype + qclass && Flags() == [0x81, 0x80] && flaghidettl == old(flaghidettl)
    {
      hide At, EndAt, Literal, IsName, Lower, Response.Entry, Grown, Framed, Shows;
      hide Spelled, Pointed, Noted, Response.Size, Response.Table;
      LowerKeepsName(q);
      ok := StartHeader();
      ghost var header := r.msg[..r.len];
      ok := r.AddName(q);
      qname, qtrace, qfixed, ms, an, ns, ar := Lower(q), r.nb, qtype + qclass, [], 0, 0, 0;
      NamesFresh(r.msg[..r.len], r.nb);
      CloseQuestion(qtype, qclass, header);
    }

    /** The fixed fields of a record: type, class IN, time to live, and room for the data length. */
    method AddFixed(rtype: seq<Byte>, ttl: Word) returns (ok: bool)
      requires r.Valid() && |rtype| == 2
      modifies r`len, r.msg
      ensures ok <== old(r.len) + 10 <= MAXLEN
      ensures ok ==> r.Valid() && r.len == old(r.len) + 10
      ensures ok ==> r.msg[..r.len] == old(r.msg[..r.len]) + (rtype + [0, 1] + PackBig32(ShownTtl(ttl)) + [0, 0])
      ensures ok && old(r.Small()) ==> r.Small()
    {
      hide Response.Entry, Shows, PackBig32;
      ghost var m := r.msg[..r.len];
      var shown := PackBig32(if flaghidettl then 0 else ttl);
      ok := r.AddBytes(rtype);
      if !ok { return; }
      ok := r.AddBytes([0, 1]);
      if !ok { return; }
      ok := r.AddBytes(shown);
      if !ok { return; }
      ok := r.AddBytes([0, 0]);
      FourParts(m, rtype, [0, 1], shown, [0, 0]);
    }

    lemma {:induction false} FlagsPrefix(m: seq<Byte>)
      requires r.msg.Length >= r.len && HEADERLEN <= |m| && m <= r.msg[..r.len]
      ensures Flags() == [m[2], m[3]]
    {
      assert r.msg[2] == r.msg[..r.len][2] && r.msg[3] == r.msg[..r.len][3];
    }

    /** flaghidettl */
    function ShownTtl(ttl: Word): Word
      reads this`flaghidettl
    {
      if flaghidettl then 0 else ttl
    }

    /** response_rstart */
    method RStart(d: seq<Byte>, rtype: seq<Byte>, ttl: Word) returns (ok: bool)
      requires Complete() && r.Small() && IsName(d) && |d| <= MAXNAME && |rtype| == 2
      modifies this`dpos, this`cur, r`len, r`nb, r`nameNum, r.msg, r.names, r.namePtr
      ensures ok ==> Open() && cur.start == old(r.len) && cur.owner == Lower(d)
      ensures ok ==> cur.rtype == rtype && cur.ttl == ShownTtl(ttl) && cur.data == []
      ensures ok ==> old(r.len) < r.len <= old(r.len) + |d| + 10 && Flags() == old(Flags())
      ensures old(r.len) + |d| + 10 <= MAXLEN ==> ok
      ensures ok && r.len <= REACH ==> r.Small()
    {
      hide Response.Entry, Shows, At, EndAt, IsName, Lower, Literal, Grown, QuestionIn, RecordsIn, CountersIn,
        OwnerIn, PackBig32;
      hide Spelled, Pointed, Noted, Response.Size, Response.Table;
      ghost var m, nb, start := r.msg[..r.len], r.nb, r.len;
      assert QuestionIn(m, qname, qtrace, qfixed, tctarget) && CountersIn(m, an, ns, ar)
        && |ms| == an + ns + ar && RecordsIn(m, tctarget, start, ms);
      ok := r.AddName(d);
      if !ok { return; }
      ghost var named, t := r.msg[..r.len], r.nb;
      ok := AddFixed(rtype, ttl);
      if !ok { return; }
      dpos := r.len;
      cur := Mark(start, Lower(d), rtype, ShownTtl(ttl), dpos, [], dpos, t, t);
      assert r.msg[..r.len][|named|..] == rtype + [0, 1] + PackBig32(ShownTtl(ttl)) + [0, 0];
      OwnerWritten(nb, named, r.msg[..r.len], cur);
      PrefixStep(m, named, r.msg[..r.len]);
      FramedPrefix(m, r.msg[..r.len]);
      FlagsPrefix(m);
    }

    /** What is framed so far stays when the message grows. */
    lemma {:induction false} FramedPrefix(m: seq<Byte>, m': seq<Byte>)
      requires m <= m' && HEADERLEN <= tctarget <= |m|
      requires QuestionIn(m, qname, qtrace, qfixed, tctarget) && CountersIn(m, an, ns, ar)
      requires RecordsIn(m, tctarget, |m|, ms)
      ensures QuestionIn(m', qname, qtrace, qfixed, tctarget) && CountersIn(m', an, ns, ar)
      ensures RecordsIn(m', tctarget, |m|, ms)
    {
      assert forall p :: 0 <= p < |m| ==> m'[p] == m[p];
      QuestionStays(m, m', qname, qtrace, qfixed, tctarget);
      RecordsStay(m, m', tctarget, |m|, ms);
    }

    /** Plain bytes of record data. */
    method Data(s: seq<Byte>) returns (ok: bool)
      requires Open()
      modifies this`cur, r`len, r.msg
      ensures ok <==> old(r.len) + |s| <= MAXLEN
      ensures ok ==> Open() && r.len == old(r.len) + |s| && (old(r.Small()) ==> r.Small()) && Flags() == old(Flags())
      ensures ok ==> cur == old(cur).(data := old(cur).data + [Raw(s)])
    {
      hide Response.Entry, Shows, IsName, QuestionIn, RecordsIn, CountersIn, OwnerIn, PiecesAt;
      ghost var m := r.msg[..r.len];
      ok := r.AddBytes(s);
      if ok {
        OpenPrefix(m, r.msg[..r.len]);
        DataPrefix(m, r.nb, r.msg[..r.len], r.nb, Raw(s));
        FlagsPrefix(m);
        OwnerAlone(r.msg[..r.len], cur, cur.data + [Raw(s)], cur.end, cur.u);
        cur := cur.(data := cur.data + [Raw(s)]);
      }
    }

    /** One more piece at the end of the record data. */
    lemma {:induction false} DataPrefix(m: seq<Byte>, nb: Trace, m': seq<Byte>, nb': Trace, p: Piece)
      requires m <= m' && Extends(nb, nb') && dpos <= |m| && PiecesAt(m, nb, dpos, cur.data, |m|)
      requires PieceAt(m', nb', |m|, p) && PieceEnd(nb', |m|, p) == |m'|
      ensures PiecesAt(m', nb', dpos, cur.data + [p], |m'|)
    {
      hide PieceAt, PieceEnd, Extends;
      assert forall i :: 0 <= i < |m| ==> m'[i] == m[i];
      PiecesStay(m, nb, m', nb', dpos, cur.data, |m|);
      PiecesAppend(m', nb', dpos, cur.data, |m|, p);
    }

    /** A name in record data. */
    method DataName(d: seq<Byte>) returns (ok: bool)
      requires Open() && r.Small() && IsName(d) && |d| <= MAXNAME
      modifies this`cur, r`len, r`nb, r`nameNum, r.msg, r.names, r.namePtr
      ensures ok ==> Open() && old(r.len) < r.len <= old(r.len) + |d| && Flags() == old(Flags())
      ensures old(r.len) + |d| <= MAXLEN ==> ok
      ensures ok ==> cur == old(cur).(data := old(cur).data + [Name(Lower(d))])
      ensures ok && r.len <= REACH ==> r.Small()
    {
      hide Response.Entry, Shows, At, EndAt, IsName, Lower, Literal, QuestionIn, RecordsIn, CountersIn, OwnerIn,
        PiecesAt, Extends;
      hide Spelled, Pointed, Noted, Response.Size, Response.Table;
      ghost var m, nb := r.msg[..r.len], r.nb;
      ok := r.AddName(d);
      if ok {
        OpenPrefix(m, r.msg[..r.len]);
        DataPrefix(m, nb, r.msg[..r.len], r.nb, Name(Lower(d)));
        FlagsPrefix(m);
        OwnerAlone(r.msg[..r.len], cur, cur.data + [Name(Lower(d))], cur.end, cur.u);
        cur := cur.(data := cur.data + [Name(Lower(d))]);
      }
    }

    lemma {:induction false} OpenPrefix(m: seq<Byte>, m': seq<Byte>)
      requires m <= m' && HEADERLEN <= tctarget <= cur.start
      requires QuestionIn(m, qname, qtrace, qfixed, tctarget) && CountersIn(m, an, ns, ar)
      requires RecordsIn(m, tctarget, cur.start, ms) && OwnerIn(m, cur)
      ensures QuestionIn(m', qname, qtrace, qfixed, tctarget) && CountersIn(m', an, ns, ar)
      ensures RecordsIn(m', tctarget, cur.start, ms) && OwnerIn(m', cur)
    {
      EndBehind(cur.t, cur.start, cur.owner);
      assert forall p :: 0 <= p < |m| ==> m'[p] == m[p];
      QuestionStays(m, m', qname, qtrace, qfixed, tctarget);
      RecordsStay(m, m', tctarget, cur.start, ms);
      OwnerStays(m, m', cur);
    }

    /** The two in-place updates of response_rfinish. */
    method Patch(o: nat, u: seq<Byte>, c: nat)
      requires |u| == 2 && HEADERLEN <= o && o + 2 <= r.msg.Length && c + 1 < HEADERLEN
      modifies r.msg
      ensures r.msg[o] == u[0] && r.msg[o + 1] == u[1]
      ensures r.msg[c + 1] == Inc(old(r.msg[c + 1]))
      ensures r.msg[c] == if r.msg[c + 1] == 0 then Inc(old(r.msg[c])) else old(r.msg[c])
      ensures forall p :: 0 <= p < r.msg.Length && p != o && p != o + 1 && p != c && p != c + 1 ==>
        r.msg[p] == old(r.msg[p])
    {
      r.msg[o], r.msg[o + 1] := u[0], u[1];
      r.msg[c + 1] := Inc(r.msg[c + 1]);
      if r.msg[c + 1] == 0 {
        r.msg[c] := Inc(r.msg[c]);
      }
    }

    /** response_rfinish: fills in the data length and counts the record in its section. */
    method RFinish(x: Section)
      requires Open()
      modifies this`ms, this`cur, this`an, this`ns, this`ar, r.msg
      ensures Complete() && (old(r.Small()) ==> r.Small()) && Flags() == old(Flags())
      ensures ms == old(ms) + [old(cur).(end := r.len, u := r.nb)]
      ensures an == old(an) + (if x == Answer then 1 else 0)
      ensures ns == old(ns) + (if x == Authority then 1 else 0)
      ensures ar == old(ar) + (if x == Additional then 1 else 0)
    {
      hide Response.Entry, At, EndAt, IsName, QuestionIn, RecordsIn, CountersIn, OwnerIn, RecordIn, Shows, Big16,
        PackBig16, Inc, PiecesAt;
      ghost var m := r.msg[..r.len];
      Patch(dpos - 2, PackBig16(r.len - dpos), CounterAt(x));
      ghost var m' := r.msg[..r.len];
      PatchShows(m, m', r.nb, dpos - 2, CounterAt(x));
      OwnerRoom(m, cur);
      FinishFrames(m, m', r.nb, x);
      ms := ms + [cur.(end := r.len, u := r.nb)];
      match x {
        case Answer => an := an + 1;
        case Authority => ns := ns + 1;
        case Additional => ar := ar + 1;
      }
    }

    lemma {:induction false} FinishFrames(m: seq<Byte>, m': seq<Byte>, nb: Trace, x: Section)
      requires HEADERLEN <= tctarget <= cur.start && HEADERLEN + 10 <= cur.body == dpos <= |m| == |m'| <= MAXLEN
      requires QuestionIn(m, qname, qtrace, qfixed, tctarget) && CountersIn(m, an, ns, ar) && |ms| == an + ns + ar
      requires RecordsIn(m, tctarget, cur.start, ms) && OwnerIn(m, cur) && PiecesAt(m, nb, dpos, cur.data, |m|)
      requires Shows(m', nb) && forall p :: p in nb ==> p >= HEADERLEN
      requires m'[dpos - 2] == PackBig16(|m| - dpos)[0] && m'[dpos - 1] == PackBig16(|m| - dpos)[1]
      requires var c := CounterAt(x);
        && m'[c + 1] == Inc(m[c + 1]) && m'[c] == (if m'[c + 1] == 0 then Inc(m[c]) else m[c])
        && forall p :: 0 <= p < |m| && p != dpos - 2 && p != dpos - 1 && p != c && p != c + 1 ==> m'[p] == m[p]
      ensures QuestionIn(m', qname, qtrace, qfixed, tctarget)
      ensures CountersIn(m', an + (if x == Answer then 1 else 0), ns + (if x == Authority then 1 else 0),
                         ar + (if x == Additional then 1 else 0))
      ensures RecordsIn(m', tctarget, |m|, ms + [cur.(end := |m|, u := nb)])
    {
      hide At, EndAt, PackBig16, RecordsIn, QuestionIn, CountersIn, IsName, PiecesAt, FixedIn;
      RecordsCount(m, tctarget, cur.start, ms);
      OwnerRoom(m, cur);
      QuestionStays(m, m', qname, qtrace, qfixed, tctarget);
      RecordsStay(m, m', tctarget, cur.start, ms);
      OwnerStays(m, m', cur);
      PiecesStay(m, nb, m', nb, dpos, cur.data, |m|);
      OwnerAlone(m', cur, cur.data, |m|, nb);
      LengthField(|m| - dpos);
      RecordsAppend(m', tctarget, cur.start, ms, cur.(end := |m|, u := nb));
      CounterSteps(m, m', x, an, ns, ar);
    }

    /** Header bits: response_nxdomain, response_servfail, response_id and the clearing of AA only
        touch bytes in front of the counters. */
    method SetHeader(i: nat, b: Byte)
      requires Complete() && i < 4
      modifies r.msg
      ensures Complete() && r.msg[..r.len] == old(r.msg[..r.len])[i := b] && (old(r.Small()) ==> r.Small())
    {
      hide Response.Entry, At, EndAt, IsName, QuestionIn, RecordsIn;
      ghost var m := r.msg[..r.len];
      r.msg[i] := b;
      assert r.msg[..r.len] == m[i := b];
      QuestionStays(m, r.msg[..r.len], qname, qtrace, qfixed, tctarget);
      RecordsStay(m, r.msg[..r.len], tctarget, r.len, ms);
    }

    /** The bytes of the message. */
    ghost function Bytes(): seq<Byte>
      reads r, r.msg
    {
      if r.len <= r.msg.Length then r.msg[..r.len] else []
    }

    lemma {:induction false} CompleteBytes()
      requires Complete()
      ensures |Bytes()| == r.len && Framed(Bytes(), qname, qtrace, qfixed, tctarget, ms, an, ns, ar)
    {
      CompleteParses();
    }

    /** A message as it is at this point can be parsed, whatever is written later. */
    lemma {:induction false} CompleteParses()
      requires Complete()
      ensures r.len <= r.msg.Length && Framed(r.msg[..r.len], qname, qtrace, qfixed, tctarget, ms, an, ns, ar)
      ensures ParsesCompletely(r.msg[..r.len])
    {
      FramedParses(r.msg[..r.len], qname, qtrace, qfixed, tctarget, ms, an, ns, ar);
    }

    /** Zeroes one counter and drops the records from the k-th on, which start at pos. */
    method Drop(pos: nat, c: nat, ghost ks: seq<Mark>, ghost a: nat, ghost b: nat, ghost d: nat)
      requires SentAs(ks, a, b, d) && (c == 10 || (c == 8 && d == 0))
      requires var k := if c == 8 then a else a + b; pos == if k < |ks| then ks[k].start else r.len
      modifies r`len, r.msg
      ensures r.len == pos && Flags() == old(Flags())
      ensures SentAs(Upto(ks, if c == 8 then a else a + b), a, if c == 8 then 0 else b, 0)
    {
      hide Framed, ParsesCompletely, QuestionIn, CountersIn, RecordsIn;
      ghost var m, k := r.msg[..r.len], if c == 8 then a else a + b;
      DropWithin(m, qname, qtrace, qfixed, tctarget, ks, a, b, d, k);
      r.msg[c], r.msg[c + 1] := 0, 0;
      r.len := pos;
      FramedParts(m, qname, qtrace, qfixed, tctarget, ks, a, b, d);
      DropFrames(m, r.msg[..pos], qname, qtrace, qfixed, tctarget, ks, a, b, d, c);
    }

    /** A message that is only to be sent, with the records ks. */
    ghost predicate SentAs(ks: seq<Mark>, a: nat, b: nat, d: nat)
      reads this`qname, this`qtrace, this`qfixed, this`tctarget, r, r.msg
    {
      && r.msg.Length == MAXLEN && HEADERLEN <= tctarget <= r.len <= MAXLEN && |ks| == a + b + d
      && Framed(r.msg[..r.len], qname, qtrace, qfixed, tctarget, ks, a, b, d)
      && ParsesCompletely(r.msg[..r.len])
    }

    ghost predicate Sent()
      reads this, r, r.msg
    {
      SentAs(ms, an, ns, ar)
    }

    /** Where the k-th record starts, or will start. */
    ghost function StartOf(k: nat): nat
      reads this, r
    {
      if k < |ms| then ms[k].start else r.len
    }

    /** The size cut at the end of tdlookup's doit: the additional records go first, and the authority
        records too if the message is still over 512 bytes. arpos and aupos are where these sections
        start. What is left still parses completely. */
    method Cut(aupos: nat, arpos: nat)
      requires Complete() && arpos == StartOf(an + ns) && aupos == StartOf(an)
      modifies this`ms, this`ns, this`ar, r`len, r.msg
      ensures Sent() && Flags() == old(Flags())
      ensures r.len == if old(r.len) <= 512 then old(r.len) else if arpos <= 512 then arpos else aupos
      ensures old(r.len) <= 512 ==> ms == old(ms) && ns == old(ns) && ar == old(ar)
      ensures old(r.len) > 512 && arpos <= 512 ==> ms == Upto(old(ms), an + ns) && ns == old(ns) && ar == 0
      ensures old(r.len) > 512 && arpos > 512 ==> ms == Upto(old(ms), an) && ns == ar == 0
    {
      hide Complete, SentAs, Flags, Upto;
      CompleteSends();
      if r.len > 512 {
        UptoStart(ms, an + ns, an, arpos);
        Drop(arpos, 10, ms, an, ns, ar);
        ms, ar := Upto(ms, an + ns), 0;
        if r.len > 512 {
          UptoUpto(old(ms), an + ns, an);
          Drop(aupos, 8, ms, an, ns, 0);
          ms, ns := Upto(ms, an), 0;
        }
      }
    }

    lemma {:induction false} CompleteSends()
      requires Complete()
      ensures Sent() && |ms| == an + ns + ar
    {
      CompleteParses();
    }
  }

  lemma {:induction false} UptoStart(ms: seq<Mark>, k: nat, j: nat, end: nat)
    requires j <= k <= |ms| && (k < |ms| ==> ms[k].start == end)
    ensures |Upto(ms, k)| == k && (j < k ==> Upto(ms, k)[j] == ms[j]) && (j == k < |ms| ==> ms[j].start == end)
  {
  }

  lemma {:induction false} UptoUpto(ms: seq<Mark>, k: nat, j: nat)
    requires j <= k <= |ms|
    ensures Upto(Upto(ms, k), j) == Upto(ms, j)
  {
  }

  ghost function Upto(ms: seq<Mark>, k: nat): seq<Mark> {
    if k <= |ms| then ms[..k] else ms
  }

  lemma {:induction false} FramedParts(buf: seq<Byte>, w: seq<Byte>, t: Trace, f: seq<Byte>, q: nat, ms: seq<Mark>,
                                       an: nat, ns: nat, ar: nat)
    requires Framed(buf, w, t, f, q, ms, an, ns, ar)
    ensures QuestionIn(buf, w, t, f, q) && CountersIn(buf, an, ns, ar) && |ms| == an + ns + ar
      && RecordsIn(buf, q, |buf|, ms)
  {
  }

  lemma {:induction false} DropWithin(m: seq<Byte>, w: seq<Byte>, t: Trace, f: seq<Byte>, q: nat, ks: seq<Mark>,
                                      a: nat, b: nat, d: nat, k: nat)
    requires Framed(m, w, t, f, q, ks, a, b, d) && HEADERLEN <= q <= |m| && k <= |ks|
    ensures q <= (if k < |ks| then ks[k].start else |m|) <= |m|
  {
    hide QuestionIn, RecordsIn, CountersIn;
    var mid := RecordsSplit(m, q, |m|, ks, k);
    RecordsForward(m, q, mid, ks[..k]);
    RecordsForward(m, mid, |m|, ks[k..]);
  }

  /** Zeroing one counter and dropping its records leaves a framed message. */
  lemma {:induction false} DropFrames(m: seq<Byte>, m': seq<Byte>, w: seq<Byte>, t: Trace, f: seq<Byte>, q: nat,
                                      ks: seq<Mark>, a: nat, b: nat, d: nat, c: nat)
    requires QuestionIn(m, w, t, f, q) && CountersIn(m, a, b, d) && RecordsIn(m, q, |m|, ks)
    requires HEADERLEN <= q <= |m'| <= |m| && (c == 10 || (c == 8 && d == 0)) && |ks| == a + b + d
    requires var k := if c == 8 then a else a + b; |m'| == if k < |ks| then ks[k].start else |m|
    requires m'[c] == 0 && m'[c + 1] == 0 && forall p :: 0 <= p < |m'| && p != c && p != c + 1 ==> m'[p] == m[p]
    ensures var k := if c == 8 then a else a + b;
            Framed(m', w, t, f, q, Upto(ks, k), a, if c == 8 then 0 else b, 0) && ParsesCompletely(m')
  {
    hide QuestionIn, RecordsIn, ParsesCompletely, Framed, CountersIn;
    var k := if c == 8 then a else a + b;
    var mid := RecordsSplit(m, q, |m|, ks, k);
    CountersZero(m, m', c, a, b, d);
    CutFrames(m, m', w, t, f, q, ks[..k], a, if c == 8 then 0 else b, 0);
  }

  lemma {:induction false} CountersZero(m: seq<Byte>, m': seq<Byte>, c: nat, an: nat, ns: nat, ar: nat)
    requires CountersIn(m, an, ns, ar) && (c == 10 || (c == 8 && ar == 0)) && |m'| >= HEADERLEN
    requires m'[c] == 0 && m'[c + 1] == 0 && forall p :: 0 <= p < HEADERLEN && p != c && p != c + 1 ==> m'[p] == m[p]
    ensures CountersIn(m', an, if c == 8 then 0 else ns, 0)
  {
  }

  lemma {:induction false} CutFrames(m: seq<Byte>, m': seq<Byte>, w: seq<Byte>, t: Trace, f: seq<Byte>, q: nat,
                                     ms: seq<Mark>, an: nat, ns: nat, ar: nat)
    requires QuestionIn(m, w, t, f, q) && HEADERLEN <= q <= |m'| <= |m| && RecordsIn(m, q, |m'|, ms)
    requires forall p :: HEADERLEN <= p < |m'| ==> m'[p] == m[p]
    requires CountersIn(m', an, ns, ar) && |ms| == an + ns + ar
    ensures Framed(m', w, t, f, q, ms, an, ns, ar) && ParsesCompletely(m')
  {
    hide At, EndAt, IsName, RecordsIn, ParsesCompletely;
    QuestionStays(m, m', w, t, f, q);
    RecordsStay(m, m', q, |m'|, ms);
    FramedParses(m', w, t, f, q, ms, an, ns, ar);
  }

  lemma {:induction false} FourParts(m: seq<Byte>, a: seq<Byte>, b: seq<Byte>, c: seq<Byte>, d: seq<Byte>)
    ensures (((m + a) + b) + c) + d == m + (a + b + c + d)
  {
  }

  function Inc(b: Byte): Byte {
    if b == 255 then 0 else b + 1
  }

  lemma {:induction false} PatchShows(m: seq<Byte>, m': seq<Byte>, nb: Trace, a: nat, c: nat)
    requires Shows(m, nb) && |m'| == |m| && c + 1 < HEADERLEN && a !in nb && a + 1 !in nb
    requires forall p :: p in nb ==> p >= HEADERLEN
    requires forall p :: 0 <= p < |m| && p != a && p != a + 1 && p != c && p != c + 1 ==> m'[p] == m[p]
    ensures Shows(m', nb)
  {
  }

  lemma {:induction false} OwnerRoom(buf: seq<Byte>, m: Mark)
    requires OwnerIn(buf, m)
    ensures m.start + 11 <= m.body
  {
    EndBehind(m.t, m.start, m.owner);
  }

  lemma {:induction false} LengthField(n: nat)
    requires n <= MAXLEN
    ensures Big16(PackBig16(n)[0], PackBig16(n)[1]) == n
  {
  }

  lemma {:induction false} CounterSteps(m: seq<Byte>, m': seq<Byte>, x: Section, an: nat, ns: nat, ar: nat)
    requires CountersIn(m, an, ns, ar) && an < MAXLEN && ns < MAXLEN && ar < MAXLEN && |m'| >= HEADERLEN
    requires var c := CounterAt(x);
      && m'[c + 1] == Inc(m[c + 1]) && m'[c] == (if m'[c + 1] == 0 then Inc(m[c]) else m[c])
      && forall p :: 0 <= p < HEADERLEN && p != c && p != c + 1 ==> m'[p] == m[p]
    ensures CountersIn(m', an + (if x == Answer then 1 else 0), ns + (if x == Authority then 1 else 0),
                       ar + (if x == Additional then 1 else 0))
  {
  }
}
