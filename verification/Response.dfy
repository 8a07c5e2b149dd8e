/** The compressing message writer of src/response.c. */
module ResponseWriter {
  import opened Basics
  import opened Bytes
  import opened DnsName
  import opened DnsPacket
  import opened DnsCompress

  const MAXLEN: nat := 65535
  /** Slots of the name table, and the longest name it keeps. */
  const NAMES: nat := 100
  const NAMESIZE: nat := 128
  /** Pointers hold 14 bits. */
  const REACH: nat := 16384

  /** uint16_pack_big: the low 16 bits, most significant byte first. */
  function PackBig16(u: nat): (s: seq<Byte>)
    ensures |s| == 2
  {
    [u / 256 % 256, u % 256]
  }

  /** Bytes s written as part of a name at pos. */
  function Put(nb: Trace, pos: nat, s: seq<Byte>): Trace {
    if s == [] then nb else Put(nb, pos, s[..|s| - 1])[pos + |s| - 1 := s[|s| - 1]]
  }

  /** Name bytes were added only at `from` or later, and none was changed. */
  ghost predicate Grown(nb: Trace, nb': Trace, from: nat) {
    Extends(nb, nb') && forall p :: p in nb' ==> p in nb || from <= p
  }

  lemma {:induction false} GrownSelf(nb: Trace, from: nat)
    ensures Grown(nb, nb, from)
  {
  }

  lemma {:induction false} GrownStep(a: Trace, b: Trace, c: Trace, m: nat, n: nat)
    requires Grown(a, b, m) && Grown(b, c, n) && m <= n
    ensures Grown(a, c, m)
  {
  }

  lemma {:induction false} PrefixStep(a: seq<Byte>, b: seq<Byte>, c: seq<Byte>)
    requires a <= b <= c
    ensures a <= c
  {
  }

  /** From pos on the labels of w are spelled out up to position q, where `rest` is still to come. */
  ghost predicate Chain(nb: Trace, pos: nat, w: seq<Byte>, q: nat, rest: seq<Byte>)
    requires IsName(w)
    decreases |w|
  {
    if |w| <= |rest| then w == rest && pos == q
    else w[0] != 0 && LabelAt(nb, pos, w) && Chain(nb, pos + 1 + w[0], w[1 + w[0]..], q, rest)
  }

  lemma {:induction false} ChainStays(nb: Trace, nb': Trace, pos: nat, w: seq<Byte>, q: nat, rest: seq<Byte>)
    requires IsName(w) && Extends(nb, nb') && Chain(nb, pos, w, q, rest)
    ensures Chain(nb', pos, w, q, rest)
    decreases |w|
  {
    if |w| > |rest| {
      LabelStays(nb, nb', pos, w);
      ChainStays(nb, nb', pos + 1 + w[0], w[1 + w[0]..], q, rest);
    }
  }

  lemma {:induction false} ChainAppend(nb: Trace, pos: nat, w: seq<Byte>, q: nat, rest: seq<Byte>)
    requires IsName(w) && IsName(rest) && Chain(nb, pos, w, q, rest) && rest[0] != 0 && LabelAt(nb, q, rest)
    ensures Chain(nb, pos, w, q + 1 + rest[0], rest[1 + rest[0]..])
    decreases |w|
  {
    if |w| > |rest| {
      ChainAppend(nb, pos + 1 + w[0], w[1 + w[0]..], q, rest);
    }
  }

  lemma {:induction false} ChainClose(nb: Trace, pos: nat, w: seq<Byte>, q: nat, rest: seq<Byte>)
    requires IsName(w) && IsName(rest) && Chain(nb, pos, w, q, rest) && At(nb, q, rest)
    ensures At(nb, pos, w) && EndAt(nb, pos, w) == EndAt(nb, q, rest)
    ensures |w| > |rest| ==> Literal(nb, pos, w)
    decreases |w|
  {
    if |w| > |rest| {
      ChainClose(nb, pos + 1 + w[0], w[1 + w[0]..], q, rest);
      assert Literal(nb, pos, w);
    }
  }

  lemma {:induction false} PutExtends(nb: Trace, pos: nat, s: seq<Byte>)
    requires forall p :: p in nb ==> p < pos
    ensures Extends(nb, Put(nb, pos, s))
    ensures forall p :: pos <= p < pos + |s| ==> p in Put(nb, pos, s) && Put(nb, pos, s)[p] == s[p - pos]
    ensures forall p :: p in Put(nb, pos, s) ==> p in nb || pos <= p < pos + |s|
  {
    if s != [] {
      PutExtends(nb, pos, s[..|s| - 1]);
    }
  }

  lemma {:induction false} PutLabel(nb: Trace, pos: nat, d: seq<Byte>)
    requires IsName(d) && d[0] != 0 && forall p :: p in nb ==> p < pos
    ensures IsName(Lower(d)) && LabelAt(Put(nb, pos, d[..1 + d[0]]), pos, Lower(d))
  {
    LowerIsName(d);
    var s := d[..1 + d[0]];
    PutExtends(nb, pos, s);
    forall i | 1 <= i <= d[0] ensures CharAt(Put(nb, pos, s), pos + i, Lower(d)[i]) {
      assert Put(nb, pos, s)[pos + i] == s[i];
    }
  }

  // ---------- What compression writes ----------

  /** Some name of the table is d up to case. */
  ghost predicate Known(tab: seq<seq<Byte>>, d: seq<Byte>) {
    exists i :: 0 <= i < |tab| && SameName(d, tab[i])
  }

  /** How many bytes of d are written out: the labels in front of its first known suffix, or all. */
  ghost function Spelled(tab: seq<seq<Byte>>, d: seq<Byte>): nat
    requires IsName(d)
    decreases |d|
  {
    if d[0] == 0 then 1 else if Known(tab, d) then 0 else 1 + d[0] + Spelled(tab, d[1 + d[0]..])
  }

  /** A pointer follows: some suffix of d, other than the root, is known. */
  ghost predicate Pointed(tab: seq<seq<Byte>>, d: seq<Byte>)
    requires IsName(d)
    decreases |d|
  {
    d[0] != 0 && (Known(tab, d) || Pointed(tab, d[1 + d[0]..]))
  }

  /** The table afterwards: the suffixes written out join it, if they are short and there is room. */
  ghost function Noted(tab: seq<seq<Byte>>, now: seq<seq<Byte>>, d: seq<Byte>): seq<seq<Byte>>
    requires IsName(d)
    decreases |d|
  {
    if d[0] == 0 || Known(tab, d) then now
    else Noted(tab, if |d| <= NAMESIZE && |now| < NAMES then now + [d] else now, d[1 + d[0]..])
  }

  /** n bytes of d0 are written out, d remains, and the table has become `now`. */
  ghost predicate Along(tab: seq<seq<Byte>>, d0: seq<Byte>, n: nat, now: seq<seq<Byte>>, d: seq<Byte>)
    requires IsName(d0)
  {
    && n <= |d0| && d == d0[n..] && IsName(d)
    && Spelled(tab, d0) == n + Spelled(tab, d)
    && Pointed(tab, d0) == Pointed(tab, d)
    && Noted(tab, tab, d0) == Noted(tab, now, d)
  }

  lemma {:induction false} AlongStart(tab: seq<seq<Byte>>, d0: seq<Byte>)
    requires IsName(d0)
    ensures Along(tab, d0, 0, tab, d0)
  {
    assert d0[0..] == d0;
  }

  lemma {:induction false} AlongStep(tab: seq<seq<Byte>>, d0: seq<Byte>, n: nat, now: seq<seq<Byte>>, d: seq<Byte>,
                                     now': seq<seq<Byte>>)
    requires IsName(d0) && Along(tab, d0, n, now, d) && d[0] != 0 && !Known(tab, d)
    requires now' == if |d| <= NAMESIZE && |now| < NAMES then now + [d] else now
    ensures Along(tab, d0, n + 1 + d[0], now', d[1 + d[0]..])
    ensures d0[..n] + d[..1 + d[0]] == d0[..n + 1 + d[0]]
  {
    hide Known;
    assert d[1 + d[0]..] == d0[n + 1 + d[0]..];
  }

  /** At the end byte, or at a known suffix, everything is decided. */
  lemma {:induction false} AlongEnd(tab: seq<seq<Byte>>, d0: seq<Byte>, n: nat, now: seq<seq<Byte>>, d: seq<Byte>)
    requires IsName(d0) && Along(tab, d0, n, now, d) && (d[0] == 0 || Known(tab, d))
    ensures Spelled(tab, d0) == (if d[0] == 0 then n + 1 else n) && Pointed(tab, d0) == (d[0] != 0)
    ensures Noted(tab, tab, d0) == now
    ensures d[0] == 0 ==> d0[..n] + d[..1] == d0 && n + 1 == |d0|
  {
    hide Known;
  }

  lemma {:induction false} SpelledMore(tab: seq<seq<Byte>>, d0: seq<Byte>, n: nat, now: seq<seq<Byte>>, d: seq<Byte>)
    requires IsName(d0) && Along(tab, d0, n, now, d)
    ensures n <= Spelled(tab, d0)
  {
  }

  lemma {:induction false} Joined(a: seq<Byte>, b: seq<Byte>, c: seq<Byte>)
    ensures (a + b) + c == a + (b + c)
  {
  }

  /** Compression never makes a name longer. */
  lemma {:induction false} SizeBound(tab: seq<seq<Byte>>, d: seq<Byte>)
    requires IsName(d)
    ensures Spelled(tab, d) <= |d|
    ensures 0 < Spelled(tab, d) + (if Pointed(tab, d) then 2 else 0) <= |d|
    decreases |d|
  {
    hide Known;
    if d[0] != 0 && !Known(tab, d) { SizeBound(tab, d[1 + d[0]..]); }
  }

  class Response {
    const msg: array<Byte>
    var len: nat
    const names: array<seq<Byte>>
    const namePtr: array<nat>
    var nameNum: nat
    ghost var nb: Trace           // the bytes of the message written as names

    constructor ()
      ensures fresh(msg) && fresh(names) && fresh(namePtr)
      ensures len == 0 && nameNum == 0 && nb == map[] && Valid() && Small()
    {
      msg := new Byte[MAXLEN](_ => 0);
      names := new seq<Byte>[NAMES](_ => []);
      namePtr := new nat[NAMES](_ => 0);
      len, nameNum, nb := 0, 0, map[];
    }

    ghost predicate Shape()
      reads this, msg
    {
      && msg.Length == MAXLEN && names.Length == NAMES && namePtr.Length == NAMES
      && len <= MAXLEN && nameNum <= NAMES
      && Shows(msg[..len], nb) && forall p :: p in nb ==> p < len
    }

    /** Every entry of the name table is a name that stands spelled out in the message. */
    ghost predicate Valid()
      reads this, msg, names, namePtr
    {
      && Shape()
      && forall i :: 0 <= i < nameNum ==> Entry(nb, names[i], namePtr[i])
    }

    static ghost predicate Entry(nb: Trace, w: seq<Byte>, ptr: nat) {
      IsName(w) && w[0] != 0 && |w| <= NAMESIZE && IsName(Lower(w)) && Literal(nb, ptr, Lower(w))
    }

    /** Every recorded position can be written as a pointer. */
    ghost predicate Small()
      reads this, namePtr
    {
      namePtr.Length == NAMES && nameNum <= NAMES && forall i :: 0 <= i < nameNum ==> namePtr[i] < REACH
    }

    /** The start of response_query: an empty message and name table. */
    method Reset()
      requires Shape()
      modifies this`len, this`nameNum, this`nb
      ensures Valid() && Small() && len == 0 && nb == map[]
    {
      len, nameNum, nb := 0, 0, map[];
    }

    /** response_addbytes */
    method AddBytes(s: seq<Byte>) returns (ok: bool)
      requires Shape()
      modifies this`len, msg
      ensures ok <==> old(len) + |s| <= MAXLEN
      ensures len == if ok then old(len) + |s| else old(len)
      ensures msg[..len] == old(msg[..len]) + if ok then s else []
      ensures Shape() && (old(Valid()) ==> Valid()) && (old(Small()) ==> Small())
    {
      if |s| > MAXLEN - len {
        return false;
      }
      ghost var before := msg[..len];
      forall i | 0 <= i < |s| {
        msg[len + i] := s[i];
      }
      len := len + |s|;
      assert msg[..len] == before + s;
      return true;
    }

    /** What response_addname knows about the table while the suffix d of the name remains to be
        written: old entries stand in the message, new ones are spelled out up to here. */
    ghost predicate Pending(n0: nat, from: nat, d: seq<Byte>)
      requires Shape()
      reads this, msg, names, namePtr
    {
      && n0 <= nameNum
      && (forall i :: 0 <= i < n0 ==> Entry(nb, names[i], namePtr[i]))
      && (forall i :: n0 <= i < nameNum ==> PendingEntry(nb, names[i], namePtr[i], from, len, d))
    }

    static ghost predicate PendingEntry(nb: Trace, w: seq<Byte>, ptr: nat, from: nat, len: nat, d: seq<Byte>) {
      && IsName(w) && w[0] != 0 && |d| < |w| <= NAMESIZE && from <= ptr < len
      && IsName(Lower(w)) && Chain(nb, ptr, Lower(w), len, Lower(d))
    }

    /** The search of the name table. Entries of the name being written are too long to match. */
    method Lookup(d: seq<Byte>, ghost n0: nat, ghost from: nat) returns (found: bool, i: nat)
      requires Shape() && IsName(d) && Pending(n0, from, d)
      ensures found ==> i < n0 && SameName(d, names[i])
      ensures n0 <= nameNum && (found <==> Known(names[..n0], d))
    {
      i := 0;
      while i < nameNum
        invariant i <= nameNum
        invariant forall k :: 0 <= k < i && k < n0 ==> !SameName(d, names[k])
      {
        assert i < n0 ==> Entry(nb, names[i], namePtr[i]);
        assert i >= n0 ==> PendingEntry(nb, names[i], namePtr[i], from, len, d);
        var same := DomainEqual(d, names[i]);
        if same {
          assert |Lower(d)| == |Lower(names[i])|;
          assert names[..n0][i] == names[i];
          return true, i;
        }
        i := i + 1;
      }
      return false, 0;
    }

    /** As Pending, once the suffix d itself may have been recorded. */
    ghost predicate Recorded(n0: nat, from: nat, d: seq<Byte>)
      requires Shape()
      reads this, msg, names, namePtr
    {
      && n0 <= nameNum
      && (forall i :: 0 <= i < n0 ==> Entry(nb, names[i], namePtr[i]))
      && (forall i :: n0 <= i < nameNum ==> RecordedEntry(nb, names[i], namePtr[i], from, len, d))
    }

    static ghost predicate RecordedEntry(nb: Trace, w: seq<Byte>, ptr: nat, from: nat, len: nat, d: seq<Byte>) {
      && IsName(w) && w[0] != 0 && |d| <= |w| <= NAMESIZE && from <= ptr <= len
      && IsName(Lower(w)) && Chain(nb, ptr, Lower(w), len, Lower(d))
    }

    /** Recording the suffix about to be written, if it is short enough and there is room. */
    method RecordSuffix(d: seq<Byte>, ghost n0: nat, ghost from: nat)
      requires Shape() && IsName(d) && d[0] != 0 && from <= len && Pending(n0, from, d)
      modifies this`nameNum, names, namePtr
      ensures Shape() && Recorded(n0, from, d)
      ensures n0 <= nameNum && forall i :: 0 <= i < n0 ==> namePtr[i] == old(namePtr[i])
      ensures names[..nameNum] ==
        old(names[..nameNum]) + if |d| <= NAMESIZE && old(nameNum) < NAMES then [d] else []
    {
      hide Chain, Literal, IsName, Lower;
      if |d| <= NAMESIZE && nameNum < NAMES {
        LowerKeepsName(d);
        ChainStart(nb, len, Lower(d));
        names[nameNum] := d;
        namePtr[nameNum] := len;
        nameNum := nameNum + 1;
      }
    }

    /** Writing one label keeps what is known, one label further. */
    method AddLabel(d: seq<Byte>, ghost n0: nat, ghost from: nat, ghost w: seq<Byte>) returns (ok: bool)
      requires Shape() && IsName(d) && d[0] != 0 && from <= len
      requires IsName(w) && Chain(nb, from, w, len, Lower(d)) && Recorded(n0, from, d)
      modifies this`len, this`nb, msg
      ensures ok <==> old(len) + 1 + d[0] <= MAXLEN
      ensures ok ==> Shape() && len == old(len) + 1 + d[0]
      ensures ok ==> msg[..len] == old(msg[..len]) + d[..1 + d[0]] && Grown(old(nb), nb, old(len))
      ensures ok ==> Chain(nb, from, w, len, Lower(d[1 + d[0]..]))
      ensures ok ==> Pending(n0, from, d[1 + d[0]..])
    {
      hide Chain, Literal, IsName, Lower, LabelAt, Put;
      LowerTail(d);
      ghost var nb0, len0 := nb, len;
      ok := AddBytes(d[..1 + d[0]]);
      if !ok { return; }
      nb := Put(nb0, len0, d[..1 + d[0]]);
      PutExtends(nb0, len0, d[..1 + d[0]]);
      PutLabel(nb0, len0, d);
      assert msg[..len0] == old(msg[..len]);
      ChainStays(nb0, nb, from, w, len0, Lower(d));
      ChainAppend(nb, from, w, len0, Lower(d));
      forall i | 0 <= i < n0 ensures Entry(nb, names[i], namePtr[i]) {
        LiteralStays(nb0, nb, namePtr[i], Lower(names[i]));
      }
      forall i | n0 <= i < nameNum ensures PendingEntry(nb, names[i], namePtr[i], from, len, d[1 + d[0]..]) {
        ChainStays(nb0, nb, namePtr[i], Lower(names[i]), len0, Lower(d));
        ChainAppend(nb, namePtr[i], Lower(names[i]), len0, Lower(d));
      }
    }

    /** Writing the last bytes of a name, a pointer or the end byte, completes it and every
        table entry made on the way. */
    method AddTail(s: seq<Byte>, ghost n0: nat, ghost from: nat, ghost d: seq<Byte>, ghost d0: seq<Byte>)
      returns (ok: bool)
      requires Shape() && IsName(d) && IsName(Lower(d)) && IsName(Lower(d0)) && from <= len && s != []
      requires Pending(n0, from, d) && Chain(nb, from, Lower(d0), len, Lower(d))
      requires At(Put(nb, len, s), len, Lower(d)) && EndAt(Put(nb, len, s), len, Lower(d)) == len + |s|
      modifies this`len, this`nb, msg
      ensures ok <==> old(len) + |s| <= MAXLEN
      ensures ok ==> Valid() && len == old(len) + |s|
      ensures ok ==> msg[..len] == old(msg[..len]) + s && Grown(old(nb), nb, old(len))
      ensures ok ==> At(nb, from, Lower(d0)) && EndAt(nb, from, Lower(d0)) == len
      ensures ok ==> forall i :: n0 <= i < nameNum ==> namePtr[i] < len
    {
      hide Chain, Literal, At, EndAt, IsName, Lower, LabelAt, Put;
      ghost var nb0, len0 := nb, len;
      ok := AddBytes(s);
      if !ok { return; }
      nb := Put(nb0, len0, s);
      PutExtends(nb0, len0, s);
      assert msg[..len0] == old(msg[..len]);
      ChainStays(nb0, nb, from, Lower(d0), len0, Lower(d));
      ChainClose(nb, from, Lower(d0), len0, Lower(d));
      forall i | 0 <= i < nameNum ensures Entry(nb, names[i], namePtr[i]) {
        if i < n0 {
          assert Entry(nb0, names[i], namePtr[i]);
          LiteralStays(nb0, nb, namePtr[i], Lower(names[i]));
        } else {
          assert PendingEntry(nb0, names[i], namePtr[i], from, len0, d);
          ChainStays(nb0, nb, namePtr[i], Lower(names[i]), len0, Lower(d));
          ChainClose(nb, namePtr[i], Lower(names[i]), len0, Lower(d));
        }
      }
    }

    /** The name d0 is being written from `from` on behind m0, and d of it remains. */
    ghost predicate Writing(n0: nat, from: nat, m0: seq<Byte>, nb0: Trace, tab: seq<seq<Byte>>, d0: seq<Byte>,
                            d: seq<Byte>)
      reads this, msg, names, namePtr
    {
      && Shape() && IsName(d0) && IsName(d) && |d| > 0 && |m0| == from <= len && len + |d| == from + |d0|
      && msg[..len] == m0 + d0[..len - from] && Grown(nb0, nb, from)
      && IsName(Lower(d0)) && Chain(nb, from, Lower(d0), len, Lower(d))
      && Pending(n0, from, d) && Along(tab, d0, len - from, names[..nameNum], d)
      && n0 <= nameNum && names[..n0] == tab && forall i :: 0 <= i < n0 ==> namePtr[i] < REACH
    }

    /** One round of the loop that finds nothing in the table. */
    method WriteLabel(d: seq<Byte>, ghost n0: nat, ghost from: nat, ghost m0: seq<Byte>, ghost nb0: Trace,
                      ghost tab: seq<seq<Byte>>, ghost d0: seq<Byte>)
      returns (ok: bool)
      requires Writing(n0, from, m0, nb0, tab, d0, d) && IsName(d0) && IsName(d) && d[0] != 0 && !Known(tab, d)
      modifies this`len, this`nb, this`nameNum, msg, names, namePtr
      ensures ok ==> Writing(n0, from, m0, nb0, tab, d0, d[1 + d[0]..])
      ensures !ok ==> from + Spelled(tab, d0) > MAXLEN
    {
      hide Chain, Literal, At, EndAt, IsName, Lower, LabelAt, Put, Entry, Extends, SameName, Grown, Known, Along;
      hide Spelled, Pointed, Noted, Pending, Recorded, Shows;
      LowerTail(d);
      ghost var len1, nb1, now := len, nb, names[..nameNum];
      RecordSuffix(d, n0, from);
      assert names[..n0] == tab;
      AlongStep(tab, d0, len - from, now, d, names[..nameNum]);
      SpelledMore(tab, d0, len1 - from + 1 + d[0], names[..nameNum], d[1 + d[0]..]);
      ok := AddLabel(d, n0, from, Lower(d0));
      if ok {
        GrownStep(nb0, nb1, nb, from, len1);
        Joined(m0, d0[..len1 - from], d[..1 + d[0]]);
      }
    }

    /** The pointer to entry i is right for d. */
    lemma {:induction false} PointTo(d: seq<Byte>, i: nat, n0: nat, from: nat, m0: seq<Byte>, nb0: Trace,
                                     tab: seq<seq<Byte>>, d0: seq<Byte>)
      requires Writing(n0, from, m0, nb0, tab, d0, d) && i < n0 && IsName(Lower(d)) && SameName(d, names[i])
      ensures namePtr[i] < REACH
      ensures var nb' := Put(nb, len, PackBig16(49152 + namePtr[i]));
              At(nb', len, Lower(d)) && EndAt(nb', len, Lower(d)) == len + 2
    {
      hide Chain, Literal, At, EndAt, IsName, Lower, LabelAt, Put, Extends, SameName, Grown, Known, Along;
      EntryPointsTo(nb, names[i], namePtr[i], d);
      PointerAt(nb, len, namePtr[i], Lower(d));
    }

    /** The end of the name, whether a pointer or the end byte. */
    method WriteEnd(s: seq<Byte>, ghost n0: nat, ghost from: nat, ghost m0: seq<Byte>, ghost nb0: Trace,
                    ghost tab: seq<seq<Byte>>, ghost d0: seq<Byte>, ghost d: seq<Byte>)
      returns (ok: bool)
      requires Writing(n0, from, m0, nb0, tab, d0, d) && IsName(d0) && IsName(d) && IsName(Lower(d))
        && IsName(Lower(d0))
      requires if d[0] == 0 then s == d[..1] else Known(tab, d) && |s| == 2
      requires At(Put(nb, len, s), len, Lower(d)) && EndAt(Put(nb, len, s), len, Lower(d)) == len + |s|
      modifies this`len, this`nb, msg
      ensures ok <==> from + Spelled(tab, d0) + (if Pointed(tab, d0) then 2 else 0) <= MAXLEN
      ensures ok ==> Valid() && m0 <= msg[..len] && Grown(nb0, nb, from)
      ensures ok ==> len == from + Spelled(tab, d0) + if Pointed(tab, d0) then 2 else 0
      ensures Spelled(tab, d0) <= |d0| && (ok ==> m0 + d0[..Spelled(tab, d0)] <= msg[..len])
      ensures ok ==> names[..nameNum] == Noted(tab, tab, d0)
      ensures ok ==> At(nb, from, Lower(d0)) && EndAt(nb, from, Lower(d0)) == len
      ensures ok && len <= REACH ==> Small()
    {
      hide Chain, Literal, At, EndAt, IsName, Lower, LabelAt, Put, Entry, Extends, SameName, Grown, Known, Along;
      hide Spelled, Pointed, Noted, Pending, Recorded, Shows;
      ghost var len1, nb1 := len, nb;
      AlongEnd(tab, d0, len - from, names[..nameNum], d);
      ok := AddTail(s, n0, from, d, d0);
      if ok {
        GrownStep(nb0, nb1, nb, from, len1);
        Joined(m0, d0[..len1 - from], s);
      }
    }

    ghost function Table(): seq<seq<Byte>>
      reads this, names
    {
      if nameNum <= names.Length then names[..nameNum] else []
    }

    /** How many bytes response_addname writes for d. */
    ghost function Size(d: seq<Byte>): nat
      requires IsName(d)
      reads this, names
    {
      Spelled(Table(), d) + if Pointed(Table(), d) then 2 else 0
    }

    /** response_addname: writes the labels in front of the first suffix that the table knows, and then
        a pointer to it. Success leaves the name readable at its place. */
    method AddName(d0: seq<Byte>) returns (ok: bool)
      requires Valid() && Small() && IsName(d0)
      modifies this`len, this`nb, this`nameNum, msg, names, namePtr
      ensures ok <==> old(len) + old(Size(d0)) <= MAXLEN
      ensures old(len) + |d0| <= MAXLEN ==> ok
      ensures ok ==> Valid() && old(msg[..len]) <= msg[..len] && Grown(old(nb), nb, old(len))
      ensures ok ==> len == old(len) + old(Size(d0)) && old(len) < len <= old(len) + |d0|
      ensures ok ==> old(msg[..len]) + d0[..old(Spelled(Table(), d0))] <= msg[..len]
      ensures ok ==> Table() == old(Noted(Table(), Table(), d0))
      ensures ok ==> IsName(Lower(d0)) && At(nb, old(len), Lower(d0)) && EndAt(nb, old(len), Lower(d0)) == len
      ensures ok && len <= REACH ==> Small()
    {
      hide Chain, Literal, At, EndAt, IsName, Lower, LabelAt, Put, Entry, Extends, SameName, Grown, Known, Along;
      hide Spelled, Pointed, Noted;
      ghost var from, n0, m0, nb0, tab := len, nameNum, msg[..len], nb, Table();
      assert Pending(n0, from, d0);
      hide Pending, Shows;
      var d := d0;
      LowerKeepsName(d0);
      GrownSelf(nb, from);
      ChainStart(nb, from, Lower(d0));
      AlongStart(tab, d0);
      SizeBound(tab, d0);
      assert Writing(n0, from, m0, nb0, tab, d0, d);
      hide Writing;
      while d[0] != 0
        invariant IsName(d) && |d| > 0 && Writing(n0, from, m0, nb0, tab, d0, d)
        decreases |d|
      {
        LowerTail(d);
        var found, i := Lookup(d, n0, from);
        if found {
          PointTo(d, i, n0, from, m0, nb0, tab, d0);
          ok := WriteEnd(PackBig16(49152 + namePtr[i]), n0, from, m0, nb0, tab, d0, d);
          return;
        }
        ok := WriteLabel(d, n0, from, m0, nb0, tab, d0);
        if !ok { return; }
        d := d[1 + d[0]..];
      }
      RootAt(nb, len, d);
      ok := WriteEnd(d[..1], n0, from, m0, nb0, tab, d0, d);
    }
  }

  /** A pointer to a place where the name stands spelled out. */
  lemma {:induction false} PointerAt(nb: Trace, pos: nat, ptr: nat, w: seq<Byte>)
    requires IsName(w) && Literal(nb, ptr, w) && ptr < REACH && forall p :: p in nb ==> p < pos
    ensures var nb' := Put(nb, pos, PackBig16(49152 + ptr)); At(nb', pos, w) && EndAt(nb', pos, w) == pos + 2
  {
    var s := PackBig16(49152 + ptr);
    var nb' := Put(nb, pos, s);
    PutExtends(nb, pos, s);
    LiteralStays(nb, nb', ptr, w);
    assert ptr in nb;
    PointerBytes(ptr);
    assert nb'[pos] == s[0] && nb'[pos + 1] == s[1];
  }

  /** The two bytes of a pointer lead back to the place exactly when it is below 16384. */
  lemma {:induction false} PointerBytes(ptr: nat)
    ensures var s := PackBig16(49152 + ptr); s[0] >= 192 && Target(s[0], s[1]) == ptr <==> ptr < REACH
  {
    assert ptr >= REACH ==> Target(PackBig16(49152 + ptr)[0], PackBig16(49152 + ptr)[1]) < REACH;
  }

  lemma {:induction false} RootAt(nb: Trace, pos: nat, d: seq<Byte>)
    requires IsName(d) && d[0] == 0
    ensures var nb' := Put(nb, pos, d[..1]);
            IsName(Lower(d)) && At(nb', pos, Lower(d)) && EndAt(nb', pos, Lower(d)) == pos + 1
  {
    LowerIsName(d);
    assert d[..1][..0] == [];
  }

  lemma {:induction false} EntryPointsTo(nb: Trace, w: seq<Byte>, ptr: nat, d: seq<Byte>)
    requires Response.Entry(nb, w, ptr) && SameName(d, w) && IsName(Lower(d))
    ensures Literal(nb, ptr, Lower(d))
  {
  }

  lemma {:induction false} ChainStart(nb: Trace, pos: nat, w: seq<Byte>)
    requires IsName(w)
    ensures Chain(nb, pos, w, pos, w)
  {
  }

  lemma {:induction false} LowerKeepsName(d: seq<Byte>)
    requires IsName(d)
    ensures |d| > 0 && IsName(Lower(d)) && Lower(d)[0] == d[0]
  {
    LowerIsName(d);
  }

  lemma {:induction false} LowerTail(d: seq<Byte>)
    requires IsName(d) && d[0] != 0
    ensures 1 + d[0] < |d| && IsName(d[1 + d[0]..]) && IsName(Lower(d)) && IsName(Lower(d[1 + d[0]..]))
    ensures Lower(d)[0] == d[0] && Lower(d)[1 + d[0]..] == Lower(d[1 + d[0]..])
  {
    LowerIsName(d);
    LowerIsName(d[1 + d[0]..]);
  }
}
