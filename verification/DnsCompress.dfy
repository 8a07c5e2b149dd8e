/** What a compressed name in a message is, and why reading it back always works.
    The bytes written as parts of names are tracked in a map from positions to bytes, which
    only grows while a message is built. */
module DnsCompress {
  import opened Basics
  import opened Bytes
  import opened DnsName
  import opened DnsPacket

  type Trace = map<nat, Byte>

  function Target(a: Byte, b: Byte): int {
    (a - 192) * 256 + b
  }

  /** A label of the lower-cased name w stands at pos, spelled out, and the rest of w follows. */
  ghost predicate Literal(nb: Trace, pos: nat, w: seq<Byte>)
    requires IsName(w)
    decreases |w|, 0
  {
    && w[0] != 0 && LabelAt(nb, pos, w)
    && At(nb, pos + 1 + w[0], w[1 + w[0]..])
  }

  ghost predicate LabelAt(nb: Trace, pos: nat, w: seq<Byte>)
    requires IsName(w)
  {
    && pos in nb && nb[pos] == w[0]
    && forall i :: 1 <= i <= w[0] ==> CharAt(nb, pos + i, w[i])
  }

  ghost predicate CharAt(nb: Trace, p: nat, c: Byte) {
    p in nb && LowerByte(nb[p]) == c
  }

  /** The lower-cased name w stands at pos: as the end byte, as a spelled-out label and the rest,
      or as a pointer back to a spelled-out label. */
  ghost predicate At(nb: Trace, pos: nat, w: seq<Byte>)
    requires IsName(w)
    decreases |w|, 1
  {
    && pos in nb
    && if w[0] == 0 then nb[pos] == 0
       else if nb[pos] < 192 then Literal(nb, pos, w)
       else pos + 1 in nb && Target(nb[pos], nb[pos + 1]) < pos && Literal(nb, Target(nb[pos], nb[pos + 1]), w)
  }

  /** The position behind the name at pos. */
  ghost function EndAt(nb: Trace, pos: nat, w: seq<Byte>): nat
    requires IsName(w) && At(nb, pos, w)
    decreases |w|
  {
    if w[0] == 0 then pos + 1
    else if nb[pos] >= 192 then pos + 2
    else
      assert Literal(nb, pos, w);
      EndAt(nb, pos + 1 + w[0], w[1 + w[0]..])
  }

  ghost predicate Extends(nb: Trace, nb': Trace) {
    forall p :: p in nb ==> p in nb' && nb'[p] == nb[p]
  }

  /** The message holds the traced bytes. */
  ghost predicate Shows(buf: seq<Byte>, nb: Trace) {
    forall p :: p in nb ==> p < |buf| && buf[p] == nb[p]
  }

  lemma {:induction false} LabelStays(nb: Trace, nb': Trace, pos: nat, w: seq<Byte>)
    requires IsName(w) && Extends(nb, nb') && LabelAt(nb, pos, w)
    ensures LabelAt(nb', pos, w)
  {
    forall i | 1 <= i <= w[0] ensures CharAt(nb', pos + i, w[i]) {
      assert CharAt(nb, pos + i, w[i]);
    }
  }

  /** Names stay where they are while more is written. */
  lemma {:induction false} LiteralStays(nb: Trace, nb': Trace, pos: nat, w: seq<Byte>)
    requires IsName(w) && Extends(nb, nb') && Literal(nb, pos, w)
    ensures Literal(nb', pos, w)
    decreases |w|, 0
  {
    AtStays(nb, nb', pos + 1 + w[0], w[1 + w[0]..]);
  }

  lemma {:induction false} AtStays(nb: Trace, nb': Trace, pos: nat, w: seq<Byte>)
    requires IsName(w) && Extends(nb, nb') && At(nb, pos, w)
    ensures At(nb', pos, w) && EndAt(nb', pos, w) == EndAt(nb, pos, w)
    decreases |w|, 1
  {
    if w[0] != 0 {
      if nb[pos] < 192 {
        LiteralStays(nb, nb', pos, w);
        AtStays(nb, nb', pos + 1 + w[0], w[1 + w[0]..]);
      } else {
        LiteralStays(nb, nb', Target(nb[pos], nb[pos + 1]), w);
      }
    }
  }

  /** Copying the bytes of one label. */
  lemma {:induction false} GetLabel(buf: seq<Byte>, pos: nat, loop: nat, n: nat, first: nat, name: seq<Byte>)
    requires pos + n <= |buf| && |name| + n <= MAXNAME && loop + n < LIMIT
    ensures Get(buf, pos, loop, n, first, name) == Get(buf, pos + n, loop + n, 0, first, name + buf[pos..pos + n])
    decreases n
  {
    if n == 0 {
      assert name + buf[pos..pos] == name;
    } else {
      GetLabel(buf, pos + 1, loop + 1, n - 1, first, name + [buf[pos]]);
      assert name + [buf[pos]] + buf[pos + 1..pos + n] == name + buf[pos..pos + n];
    }
  }

  /** One spelled-out label, starting from its length byte, which the reader has just met. */
  lemma {:induction false} GetLiteral(buf: seq<Byte>, nb: Trace, pos: nat, w: seq<Byte>, loop: nat, first: nat,
                                      name: seq<Byte>)
    requires IsName(w) && Shows(buf, nb) && Literal(nb, pos, w)
    requires |name| + |w| <= MAXNAME && loop + 2 * |w| < LIMIT + 2
    ensures var r := Get(buf, pos + 1, loop, w[0], first, name + [w[0]]);
            && r.Some? && Lower(r.value.name) == Lower(name) + w
            && r.value.end == if first != 0 then first else EndAt(nb, pos + 1 + w[0], w[1 + w[0]..])
    decreases |w|, 0
  {
    var n, rest := w[0], w[1 + w[0]..];
    GetLabel(buf, pos + 1, loop, n, first, name + [w[0]]);
    var text := buf[pos + 1..pos + 1 + n];
    GetAt(buf, nb, pos + 1 + n, rest, loop + n, first, name + [w[0]] + text);
    assert Lower(name + [w[0]] + text) == Lower(name) + w[..1 + n];
    assert w == w[..1 + n] + rest;
  }

  /** Reading a name at its place. The step budget never runs out: a name of n bytes costs at most
      one step a byte and one a pointer, and each pointer leads to a label. */
  lemma {:induction false} GetAt(buf: seq<Byte>, nb: Trace, pos: nat, w: seq<Byte>, loop: nat, first: nat,
                                 name: seq<Byte>)
    requires IsName(w) && Shows(buf, nb) && At(nb, pos, w)
    requires |name| + |w| <= MAXNAME && loop + 2 * |w| < LIMIT
    ensures var r := Get(buf, pos, loop, 0, first, name);
            && r.Some? && Lower(r.value.name) == Lower(name) + w
            && r.value.end == if first != 0 then first else EndAt(nb, pos, w)
    decreases |w|, 1
  {
    if w[0] == 0 {
      assert Lower(name + [0]) == Lower(name) + w;
    } else if nb[pos] < 192 {
      GetLiteral(buf, nb, pos, w, loop + 1, first, name);
    } else {
      var to := Target(nb[pos], nb[pos + 1]);
      var first' := if first == 0 then pos + 2 else first;
      assert Follow(buf, Jump(buf[pos], pos + 1, loop + 1, first)) == Some(Jump(w[0], to + 1, loop + 2, first'));
      GetLiteral(buf, nb, to, w, loop + 2, first', name);
    }
  }

  /** The round trip: wherever the lower-cased name w stands in a message, dns_packet_getname reads
      a name equal to it up to ASCII case and ends right behind it. */
  lemma {:induction false} RoundTrip(buf: seq<Byte>, nb: Trace, pos: nat, w: seq<Byte>)
    requires IsName(w) && |w| <= MAXNAME && Shows(buf, nb) && At(nb, pos, w)
    ensures GetName(buf, pos).Some?
    ensures Lower(GetName(buf, pos).value.name) == w
    ensures GetName(buf, pos).value.end == EndAt(nb, pos, w)
    ensures SkipName(buf, pos) == Some(EndAt(nb, pos, w))
  {
    GetAt(buf, nb, pos, w, 0, 0, []);
    SkipAgrees(buf, pos);
  }
}
