/** The order in which src/query.c sorts the records of a packet. */
module RecordOrder {
  import opened Basics
  import opened Bytes
  import opened DnsName
  import opened DnsPacket

  /** A record whose name and ten fixed bytes can be read. */
  predicate Parsable(buf: seq<Byte>, p: nat) {
    GetName(buf, p).Some? && GetName(buf, p).value.end + 10 <= |buf|
  }

  function NameOf(buf: seq<Byte>, p: nat): seq<Byte>
    requires Parsable(buf, p)
  {
    GetName(buf, p).value.name
  }

  /** The position behind the name. */
  function FixedAt(buf: seq<Byte>, p: nat): (e: nat)
    requires Parsable(buf, p)
    ensures e + 10 <= |buf|
  {
    GetName(buf, p).value.end
  }

  /** Type and class, four bytes. */
  function TypeClass(buf: seq<Byte>, p: nat): (s: seq<Byte>)
    requires Parsable(buf, p)
    ensures |s| == 4
  {
    buf[FixedAt(buf, p)..FixedAt(buf, p) + 4]
  }

  // ---------- Comparing bytes ----------

  /** Byte strings of equal length compare as numbers. */
  function Value(s: seq<Byte>): nat {
    if s == [] then 0 else 256 * Value(s[..|s| - 1]) + s[|s| - 1]
  }

  lemma {:induction false} ValueDiff(s: seq<Byte>, t: seq<Byte>, i: nat)
    requires |s| == |t| && i < |s| && s[..i] == t[..i] && s[i] < t[i]
    ensures Value(s) < Value(t)
  {
    var n := |s| - 1;
    if i < n {
      assert s[..n][..i] == s[..i] && t[..n][..i] == t[..i];
      ValueDiff(s[..n], t[..n], i);
    }
  }

  lemma {:induction false} ValueInjective(s: seq<Byte>, t: seq<Byte>)
    requires |s| == |t| && Value(s) == Value(t)
    ensures s == t
  {
    if s != [] {
      ValueInjective(s[..|s| - 1], t[..|t| - 1]);
      assert s == s[..|s| - 1] + [s[|s| - 1]] && t == t[..|t| - 1] + [t[|t| - 1]];
    }
  }

  /** byte_diff: the difference of the first bytes that differ, else 0. */
  method ByteDiff(s: seq<Byte>, t: seq<Byte>) returns (r: int)
    requires |s| == |t|
    ensures r < 0 <==> Value(s) < Value(t)
    ensures r > 0 <==> Value(s) > Value(t)
    ensures r == 0 <==> s == t
  {
    var i := 0;
    while i < |s|
      invariant i <= |s| && s[..i] == t[..i]
    {
      if s[i] != t[i] {
        if s[i] < t[i] { ValueDiff(s, t, i); } else { ValueDiff(t, s, i); }
        return s[i] as int - t[i] as int;
      }
      i := i + 1;
    }
    assert s == s[..i] && t == t[..i];
    return 0;
  }

  /** case_diffb with its sign. */
  method CaseDiff(s: seq<Byte>, t: seq<Byte>) returns (r: int)
    requires |s| == |t|
    ensures r < 0 <==> Value(Lower(s)) < Value(Lower(t))
    ensures r > 0 <==> Value(Lower(s)) > Value(Lower(t))
    ensures r == 0 <==> SameName(s, t)
  {
    var i := 0;
    while i < |s|
      invariant i <= |s| && Lower(s)[..i] == Lower(t)[..i]
    {
      CaseKeyIsLower(s[i]);
      CaseKeyIsLower(t[i]);
      var x, y := CaseKey(s[i]), CaseKey(t[i]);
      if x != y {
        assert Lower(s)[i] == x && Lower(t)[i] == y;
        if x < y { ValueDiff(Lower(s), Lower(t), i); } else { ValueDiff(Lower(t), Lower(s), i); }
        return x as int - y as int;
      }
      i := i + 1;
    }
    assert Lower(s) == Lower(s)[..i] && Lower(t) == Lower(t)[..i];
    return 0;
  }

  // ---------- The order ----------

  /** Records compare by type and class, then name length, then name up to case, then place. */
  datatype Key = Key(kind: nat, len: nat, name: nat, place: nat)

  function KeyOf(buf: seq<Byte>, p: nat): Key
    requires Parsable(buf, p)
  {
    Key(Value(TypeClass(buf, p)), |NameOf(buf, p)|, Value(Lower(NameOf(buf, p))), FixedAt(buf, p))
  }

  predicate Less(a: Key, b: Key) {
    || a.kind < b.kind
    || (a.kind == b.kind && (
          || a.len < b.len
          || (a.len == b.len && (
                || a.name < b.name
                || (a.name == b.name && a.place < b.place)))))
  }

  /** Before or equal. */
  predicate Leq(buf: seq<Byte>, p: nat, q: nat)
    requires Parsable(buf, p) && Parsable(buf, q)
  {
    !Less(KeyOf(buf, q), KeyOf(buf, p))
  }

  lemma {:induction false} LeqTransitive(buf: seq<Byte>, p: nat, q: nat, r: nat)
    requires Parsable(buf, p) && Parsable(buf, q) && Parsable(buf, r)
    requires Leq(buf, p, q) && Leq(buf, q, r)
    ensures Leq(buf, p, r)
  {
    hide KeyOf;
  }

  lemma {:induction false} DropLast(w: seq<Byte>, name: seq<Byte>, c: Byte)
    requires |w| > |name| && w[..|name| + 1] == name + [c]
    ensures w[..|name|] == name && w[|name|] == c
  {
    assert w[..|name|] == w[..|name| + 1][..|name|] && w[|name|] == w[..|name| + 1][|name|];
  }

  lemma {:induction false} ConsName(w: seq<Byte>, n: nat, c: Byte)
    requires 0 < c <= 63 && n + 1 + c < |w| && w[n] == c && IsName(w[n + 1 + c..])
    ensures IsName(w[n..])
  {
    assert w[n..][1 + c..] == w[n + 1 + c..];
  }

  /** What smaller compares is a name as read from the packet, so its length is dns_domain_length. */
  lemma {:induction false} ReadNameIsName(buf: seq<Byte>, pos: nat, loop: nat, state: nat, first: nat, name: seq<Byte>)
    requires Get(buf, pos, loop, state, first, name).Some?
    ensures var w := Get(buf, pos, loop, state, first, name).value.name;
            |name| + state < |w| <= MAXNAME && w[..|name|] == name && IsName(w[|name| + state..])
    decreases LIMIT - loop
  {
    hide IsName, Follow;
    var w := Get(buf, pos, loop, state, first, name).value.name;
    if state > 0 {
      ReadNameIsName(buf, pos + 1, loop + 1, state - 1, first, name + [buf[pos]]);
      DropLast(w, name, buf[pos]);
    } else {
      var j := Follow(buf, Jump(buf[pos], pos + 1, loop + 1, first)).value;
      if j.ch != 0 {
        ReadNameIsName(buf, j.pos, j.loop, j.ch, j.first, name + [j.ch]);
        DropLast(w, name, j.ch);
        ConsName(w, |name|, j.ch);
      } else {
        assert w[|name|..] == [0];
        RootIsName();
      }
    }
  }

  lemma {:induction false} RootIsName()
    ensures IsName([0])
  {
  }

  lemma {:induction false} NameOfIsName(buf: seq<Byte>, p: nat)
    requires Parsable(buf, p)
    ensures IsName(NameOf(buf, p)) && |NameOf(buf, p)| <= MAXNAME
  {
    ReadNameIsName(buf, p, 0, 0, 0, []);
    assert NameOf(buf, p)[0..] == NameOf(buf, p);
  }

  /** smaller */
  method Smaller(buf: seq<Byte>, p1: nat, p2: nat) returns (r: bool)
    requires Parsable(buf, p1) && Parsable(buf, p2)
    ensures r <==> Less(KeyOf(buf, p1), KeyOf(buf, p2))
  {
    var pos1, t1 := PacketGetName(buf, p1);
    var end1, header1 := PacketCopy(buf, pos1, 10);
    var pos2, t2 := PacketGetName(buf, p2);
    var end2, header2 := PacketCopy(buf, pos2, 10);
    assert header1[..4] == TypeClass(buf, p1) && header2[..4] == TypeClass(buf, p2);
    hide Value, GetName, Lower;
    var d := ByteDiff(header1[..4], header2[..4]);
    if d < 0 { return true; }
    if d > 0 { return false; }
    NameOfIsName(buf, p1);
    NameOfIsName(buf, p2);
    var len1 := DomainLength(t1, t1);
    var len2 := DomainLength(t2, t2);
    if len1 < len2 { return true; }
    if len1 > len2 { return false; }
    d := CaseDiff(t1, t2);
    if d < 0 { return true; }
    if d > 0 { return false; }
    return pos1 < pos2;
  }

  // ---------- Positions found by walking the packet ----------

  /** Record positions as the parsing loop collects them: each starts where the data of the one
      before ends, which lies behind its fixed bytes. */
  ghost predicate Collected(buf: seq<Byte>, s: seq<nat>) {
    && (forall i :: 0 <= i < |s| ==> Parsable(buf, s[i]))
    && (forall i :: 0 <= i < |s| - 1 ==> FixedAt(buf, s[i]) + 10 <= s[i + 1])
  }

  lemma {:induction false} NameEndsBehindStart(buf: seq<Byte>, pos: nat, loop: nat, state: nat, first: nat,
                                          name: seq<Byte>)
    requires Get(buf, pos, loop, state, first, name).Some? && (first == 0 || first > pos)
    ensures first == 0 ==> Get(buf, pos, loop, state, first, name).value.end > pos
    decreases LIMIT - loop
  {
    if first == 0 {
      if state > 0 {
        NameEndsBehindStart(buf, pos + 1, loop + 1, state - 1, first, name + [buf[pos]]);
      } else {
        var j := Follow(buf, Jump(buf[pos], pos + 1, loop + 1, first)).value;
        FollowFirst(buf, Jump(buf[pos], pos + 1, loop + 1, first));
        if j.ch != 0 {
          if j.first == 0 {
            NameEndsBehindStart(buf, j.pos, j.loop, j.ch, j.first, name + [j.ch]);
          } else {
            SkipAgreesFrom(buf, j.pos, j.loop, j.ch, j.first, name + [j.ch]);
          }
        }
      }
    }
  }

  lemma {:induction false} PlacesAscend(buf: seq<Byte>, s: seq<nat>, i: nat, j: nat)
    requires Collected(buf, s) && i < j < |s|
    ensures FixedAt(buf, s[i]) < FixedAt(buf, s[j])
  {
    hide GetName;
    if i + 1 < j {
      PlacesAscend(buf, s, i, j - 1);
    }
    FixedBehind(buf, s[j]);
  }

  lemma {:induction false} FixedBehind(buf: seq<Byte>, p: nat)
    requires Parsable(buf, p)
    ensures FixedAt(buf, p) > p
  {
    NameEndsBehindStart(buf, p, 0, 0, 0, []);
  }

  /** On the records of one packet, smaller is a strict total order. */
  lemma {:induction false} StrictTotalOrder(buf: seq<Byte>, s: seq<nat>, i: nat, j: nat, k: nat)
    requires Collected(buf, s) && i < |s| && j < |s| && k < |s|
    ensures !Less(KeyOf(buf, s[i]), KeyOf(buf, s[i]))
    ensures i != j ==> (Less(KeyOf(buf, s[i]), KeyOf(buf, s[j])) <==> !Less(KeyOf(buf, s[j]), KeyOf(buf, s[i])))
    ensures Less(KeyOf(buf, s[i]), KeyOf(buf, s[j])) && Less(KeyOf(buf, s[j]), KeyOf(buf, s[k])) ==>
      Less(KeyOf(buf, s[i]), KeyOf(buf, s[k]))
  {
    hide GetName, Value;
    if i < j { PlacesAscend(buf, s, i, j); }
    if j < i { PlacesAscend(buf, s, j, i); }
  }
}
