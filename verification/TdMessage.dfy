/** Writing stored records into the response and reading the response back: doname, dobytes and want of
    src/tdlookup.c. */
module TdMessage {
  import opened Basics
  import opened Bytes
  import opened DnsName
  import opened DnsPacket
  import opened DnsCompress
  import opened RecordData
  import opened ResponseWriter
  import opened MessageWriter
  import opened TdRecords

  /** What a record says, whatever its place in the message. */
  datatype RR = RR(owner: seq<Byte>, rtype: seq<Byte>, ttl: Word, data: seq<Piece>)

  ghost function Said(m: Mark): RR {
    RR(m.owner, m.rtype, m.ttl, m.data)
  }

  ghost function Log(ms: seq<Mark>): (l: seq<RR>)
    ensures |l| == |ms| && forall i :: 0 <= i < |ms| ==> l[i] == Said(ms[i])
  {
    seq(|ms|, i requires 0 <= i < |ms| => Said(ms[i]))
  }

  /** The response has a record of this owner and type. */
  ghost predicate Has(log: seq<RR>, owner: seq<Byte>, rtype: seq<Byte>) {
    exists i :: 0 <= i < |log| && Is(log[i], owner, rtype)
  }

  predicate Is(rr: RR, owner: seq<Byte>, rtype: seq<Byte>) {
    rr.owner == owner && rr.rtype == rtype
  }

  /** Failed: doit returns 0. Beyond: the message has grown past 16384 bytes, where this model ends. */
  datatype Status = Failed | Beyond | Done

  /** Nothing has been written beyond the reach of a compression pointer. */
  ghost predicate Roomy(m: Message)
    reads m, m.r, m.r.namePtr
  {
    m.r.Small() && m.r.len <= REACH
  }

  // ---------- Writing ----------

  /** doname */
  method DoName(m: Message, raw: seq<Byte>, p: nat) returns (st: Status, dpos: nat)
    requires m.Open() && Roomy(m)
    modifies m`cur, m.r`len, m.r`nb, m.r`nameNum, m.r.msg, m.r.names, m.r.namePtr
    ensures st.Failed? <==> NameAt(raw, p).None?
    ensures st.Done? ==> m.Open() && Roomy(m) && m.Flags() == old(m.Flags())
    ensures st.Done? ==> NameAt(raw, p).value.1 == dpos && m.cur == old(m.cur).(data := old(m.cur).data
      + [NameAt(raw, p).value.0])
    ensures st.Beyond? ==> m.r.len > REACH
  {
    hide Message.Open, Message.Flags, IsName, Lower, GetName, Response.Small;
    var d1;
    dpos, d1 := PacketGetName(raw, p);
    GetNameIsName(raw, p);
    if dpos == 0 { return Failed, 0; }
    var ok := m.DataName(d1);
    if !ok { st := Failed; return; }
    st := if m.r.len > REACH then Beyond else Done;
  }

  /** dobytes, of 1 to 20 bytes. */
  method DoBytes(m: Message, raw: seq<Byte>, p: nat, n: nat) returns (st: Status, dpos: nat)
    requires m.Open() && Roomy(m) && n > 0
    modifies m`cur, m.r`len, m.r.msg
    ensures st.Failed? <==> n > 20 || BytesAt(raw, p, n).None?
    ensures st.Done? ==> m.Open() && Roomy(m) && m.Flags() == old(m.Flags())
    ensures st.Done? ==> BytesAt(raw, p, n).value.1 == dpos && m.cur == old(m.cur).(data := old(m.cur).data
      + [BytesAt(raw, p, n).value.0])
    ensures st.Beyond? ==> m.r.len > REACH
  {
    hide Message.Open, Message.Flags, Response.Small;
    if n > 20 { return Failed, 0; }
    var buf;
    dpos, buf := PacketCopy(raw, p, n);
    if dpos == 0 { return Failed, 0; }
    var ok := m.Data(buf);
    if !ok { st := Failed; return; }
    st := if m.r.len > REACH then Beyond else Done;
  }

  /** The data of a record, by its type. */
  method DoData(m: Message, rec: Rec) returns (st: Status)
    requires m.Open() && Roomy(m) && m.cur.data == [] && rec.dpos <= |rec.raw| <= DATASIZE
    modifies m`cur, m.r`len, m.r`nb, m.r`nameNum, m.r.msg, m.r.names, m.r.namePtr
    ensures st.Failed? ==> Render(rec).None?
    ensures st.Done? ==> m.Open() && Roomy(m) && m.Flags() == old(m.Flags())
    ensures st.Done? ==> Render(rec).Some? && m.cur == old(m.cur).(data := Render(rec).value)
    ensures st.Beyond? ==> m.r.len > REACH
  {
    hide Message.Open, Message.Flags, Roomy, NameAt, BytesAt;
    var dpos := rec.dpos;
    if rec.rtype == NS || rec.rtype == CNAME || rec.rtype == PTR {
      st, dpos := DoName(m, rec.raw, dpos);
    } else if rec.rtype == MX {
      st, dpos := DoBytes(m, rec.raw, dpos, 2);
      if !st.Done? { return; }
      st, dpos := DoName(m, rec.raw, dpos);
    } else if rec.rtype == SOA {
      st, dpos := DoName(m, rec.raw, dpos);
      if !st.Done? { return; }
      st, dpos := DoName(m, rec.raw, dpos);
      if !st.Done? { return; }
      st, dpos := DoBytes(m, rec.raw, dpos, 20);
    } else {
      st := DoRest(m, rec.raw[dpos..]);
    }
  }

  method DoRest(m: Message, s: seq<Byte>) returns (st: Status)
    requires m.Open() && Roomy(m) && |s| <= DATASIZE
    modifies m`cur, m.r`len, m.r.msg
    ensures !st.Failed?
    ensures st.Done? ==> m.Open() && Roomy(m) && m.Flags() == old(m.Flags())
    ensures st.Done? ==> m.cur == old(m.cur).(data := old(m.cur).data + [Raw(s)])
    ensures st.Beyond? ==> m.r.len > REACH
  {
    hide Message.Open, Message.Flags, Response.Small;
    var ok := m.Data(s);
    if !ok { st := Failed; return; }
    st := if m.r.len > REACH then Beyond else Done;
  }

  /** The records rrs have been added to the response. */
  ghost predicate Added(ms: seq<Mark>, ms': seq<Mark>, rrs: seq<RR>) {
    ms <= ms' && Log(ms') == Log(ms) + rrs
  }

  lemma {:induction false} AddedOne(ms: seq<Mark>, m: Mark)
    ensures Added(ms, ms + [m], [Said(m)])
  {
  }

  lemma {:induction false} AddedMore(a: seq<Mark>, b: seq<Mark>, c: seq<Mark>, r: seq<RR>, s: seq<RR>)
    requires Added(a, b, r) && Added(b, c, s)
    ensures Added(a, c, r + s)
  {
    hide Log;
    assert Log(a) + (r + s) == (Log(a) + r) + s;
  }

  /** The three record counters after one more record in section x. */
  ghost predicate Counted(x: Section, an: nat, ns: nat, ar: nat, an': nat, ns': nat, ar': nat) {
    && an' == an + (if x == Answer then 1 else 0)
    && ns' == ns + (if x == Authority then 1 else 0)
    && ar' == ar + (if x == Additional then 1 else 0)
  }

  /** response_rstart, the data of a stored record, response_rfinish. */
  method AddRecord(m: Message, x: Section, owner: seq<Byte>, rec: Rec) returns (st: Status)
    requires m.Complete() && Roomy(m) && IsName(owner) && |owner| <= MAXNAME
    requires |rec.rtype| == 2 && rec.dpos <= |rec.raw| <= DATASIZE
    modifies m`dpos, m`cur, m`ms, m`an, m`ns, m`ar, m.r`len, m.r`nb, m.r`nameNum, m.r.msg, m.r.names, m.r.namePtr
    ensures st.Failed? ==> Render(rec).None?
    ensures st.Done? ==> m.Complete() && Roomy(m) && m.Flags() == old(m.Flags())
    ensures st.Done? ==> Render(rec).Some?
    ensures st.Done? ==>
      Added(old(m.ms), m.ms, [RR(Lower(owner), rec.rtype, m.ShownTtl(rec.ttl), Render(rec).value)])
    ensures st.Done? ==> Counted(x, old(m.an), old(m.ns), old(m.ar), m.an, m.ns, m.ar)
    ensures st.Beyond? ==> m.r.len > REACH
  {
    hide Message.Open, Message.Complete, Message.Flags, Response.Small, IsName, Lower, Render;
    var ok := m.RStart(owner, rec.rtype, rec.ttl);
    if !ok { st := Failed; return; }
    if m.r.len > REACH { return Beyond; }
    st := DoData(m, rec);
    if !st.Done? { return; }
    m.RFinish(x);
    AddedOne(old(m.ms), m.ms[|old(m.ms)|]);
  }

  /** An address record for owner. */
  method AddAddress(m: Message, x: Section, owner: seq<Byte>, ttl: Word, raw: seq<Byte>, p: nat) returns (st: Status)
    requires m.Complete() && Roomy(m) && IsName(owner) && |owner| <= MAXNAME
    modifies m`dpos, m`cur, m`ms, m`an, m`ns, m`ar, m.r`len, m.r`nb, m.r`nameNum, m.r.msg, m.r.names, m.r.namePtr
    ensures st.Failed? ==> BytesAt(raw, p, 4).None?
    ensures st.Done? ==> m.Complete() && Roomy(m) && m.Flags() == old(m.Flags())
    ensures st.Done? ==> BytesAt(raw, p, 4).Some?
    ensures st.Done? ==>
      Added(old(m.ms), m.ms, [RR(Lower(owner), A, m.ShownTtl(ttl), [BytesAt(raw, p, 4).value.0])])
    ensures st.Done? ==> Counted(x, old(m.an), old(m.ns), old(m.ar), m.an, m.ns, m.ar)
    ensures st.Beyond? ==> m.r.len > REACH
  {
    hide Message.Open, Message.Complete, Message.Flags, Response.Small, IsName, Lower, BytesAt;
    var ok := m.RStart(owner, A, ttl);
    if !ok { st := Failed; return; }
    if m.r.len > REACH { return Beyond; }
    var dpos;
    st, dpos := DoBytes(m, raw, p, 4);
    if !st.Done? { return; }
    assert m.cur.data == [BytesAt(raw, p, 4).value.0];
    m.RFinish(x);
    AddedOne(old(m.ms), m.ms[|old(m.ms)|]);
  }

  // ---------- Reading back ----------

  /** Where the k-th record stands. */
  lemma {:induction false} MarkAt(buf: seq<Byte>, from: nat, to: nat, ms: seq<Mark>, k: nat)
    requires RecordsIn(buf, from, to, ms) && k < |ms|
    ensures RecordIn(buf, ms[k]) && from <= ms[k].start < ms[k].body <= ms[k].end <= to <= |buf|
    ensures ms[k].end == if k + 1 < |ms| then ms[k + 1].start else to
    decreases |ms|
  {
    hide RecordIn;
    RecordsForward(buf, from, to, ms);
    if k > 0 {
      assert ms[k] == ms[1..][k - 1] && (k + 1 < |ms| ==> ms[k + 1] == ms[1..][k]);
      MarkAt(buf, ms[0].end, to, ms[1..], k - 1);
    } else if |ms| > 1 {
      assert ms[1] == ms[1..][0];
    }
  }

  /** The owner, type and data length of the record at pos. */
  lemma {:induction false} HeadRead(buf: seq<Byte>, m: Mark)
    requires RecordIn(buf, m)
    ensures GetName(buf, m.start).Some? && SkipName(buf, m.start) == Some(m.body - 10)
    ensures var r := GetName(buf, m.start).value;
      && Lower(r.name) == m.owner && r.end + 10 == m.body <= |buf| && IsName(r.name)
      && buf[r.end..r.end + 10][..2] == m.rtype
      && m.body + Big16(buf[r.end..r.end + 10][8], buf[r.end..r.end + 10][9]) == m.end
  {
    hide GetName, SkipName, At, EndAt, PiecesAt, IsName, Big16, PackBig32;
    RoundTrip(buf, m.t, m.start, m.owner);
    GetNameIsName(buf, m.start);
    var x := buf[m.body - 10..m.body];
    assert x[..2] == buf[m.body - 10..m.body - 2][..2];
    assert x[8] == buf[m.body - 2] && x[9] == buf[m.body - 1];
  }

  lemma {:induction false} QuestionRead(m: Message)
    requires m.Complete()
    ensures SkipName(m.r.msg[..m.r.len], HEADERLEN) == Some(m.tctarget - 4)
  {
    QuestionParses(m.r.msg[..m.r.len], m.qname, m.qtrace, m.qfixed, m.tctarget);
  }

  lemma {:induction false} CompleteRecords(m: Message)
    requires m.Complete()
    ensures m.r.len <= m.r.msg.Length && RecordsIn(m.r.msg[..m.r.len], m.tctarget, m.r.len, m.ms)
      && HEADERLEN <= m.tctarget
    ensures m.ms == [] ==> m.tctarget == m.r.len
    ensures m.ms != [] ==> m.ms[0].start == m.tctarget
    ensures |m.ms| == m.an + m.ns + m.ar
  {
  }

  /** want: no record of this owner and type is in the response yet. */
  method Want(m: Message, owner: seq<Byte>, rtype: seq<Byte>) returns (b: bool)
    requires m.Complete() && IsName(owner) && |rtype| == 2
    ensures b <==> !Has(Log(m.ms), Lower(owner), rtype)
  {
    hide Message.Complete, RecordsIn, RecordIn, IsName, Lower, GetName, SkipName, Big16;
    CompleteRecords(m);
    QuestionRead(m);
    var buf := m.r.msg[..m.r.len];
    var pos := PacketSkipName(buf, HEADERLEN);
    pos := pos + 4;
    ghost var k := 0;
    while pos < |buf|
      invariant k <= |m.ms| && pos == (if k < |m.ms| then m.ms[k].start else |buf|)
      invariant forall i :: 0 <= i < k ==> !Is(Log(m.ms)[i], Lower(owner), rtype)
      decreases |m.ms| - k
    {
      MarkAt(buf, m.tctarget, |buf|, m.ms, k);
      HeadRead(buf, m.ms[k]);
      var d, x;
      pos, d := PacketGetName(buf, pos);
      pos, x := PacketCopy(buf, pos, 10);
      assert Log(m.ms)[k] == Said(m.ms[k]);
      var same := DomainEqual(d, owner);
      if same && x[..2] == rtype {
        assert Is(Log(m.ms)[k], Lower(owner), rtype);
        return false;
      }
      pos := pos + Big16(x[8], x[9]);
      k := k + 1;
    }
    if k < |m.ms| {
      MarkAt(buf, m.tctarget, |buf|, m.ms, k);
    }
    b := true;
  }
}
