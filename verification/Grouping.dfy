/** The grouping loop of src/query.c: neighbouring records of one name, type and class IN form one
    set. Because the positions are sorted, each set is found whole. */
module Grouping {
  import opened Basics
  import opened Bytes
  import opened DnsName
  import opened DnsPacket
  import opened RecordOrder
  import opened Heapsort

  /** Two records of one set: same name up to case, same type, same class. */
  predicate SameSet(buf: seq<Byte>, p: nat, q: nat)
    requires Parsable(buf, p) && Parsable(buf, q)
  {
    SameName(NameOf(buf, p), NameOf(buf, q)) && TypeClass(buf, p) == TypeClass(buf, q)
  }

  predicate ClassIn(buf: seq<Byte>, p: nat)
    requires Parsable(buf, p)
  {
    TypeClass(buf, p)[2..] == [0, 1]
  }

  /** Positions from..to-1 of the sorted list. */
  datatype Group = Group(from: nat, to: nat)

  /** The group is one whole set of class IN. */
  ghost predicate WholeSet(buf: seq<Byte>, s: seq<nat>, g: Group)
    requires AllParsable(buf, s)
  {
    && g.from < g.to <= |s| && ClassIn(buf, s[g.from])
    && forall x :: 0 <= x < |s| ==> (SameSet(buf, s[g.from], s[x]) <==> g.from <= x < g.to)
  }

  /** Sorting brings the records of a set together. */
  lemma {:induction false} SetsContiguous(buf: seq<Byte>, s: seq<nat>, x: nat, y: nat, z: nat)
    requires Sorted(buf, s) && x <= y <= z < |s| && SameSet(buf, s[x], s[z])
    ensures SameSet(buf, s[x], s[y])
  {
    hide GetName, Value;
    assert Leq(buf, s[x], s[y]) by { LeqReflexive(buf, s[x]); }
    assert Leq(buf, s[y], s[z]) by { LeqReflexive(buf, s[y]); }
    ValueInjective(TypeClass(buf, s[x]), TypeClass(buf, s[z]));
    if Value(TypeClass(buf, s[x])) == Value(TypeClass(buf, s[y])) {
      ValueInjective(TypeClass(buf, s[x]), TypeClass(buf, s[y]));
    }
    var a, b, c := Lower(NameOf(buf, s[x])), Lower(NameOf(buf, s[y])), Lower(NameOf(buf, s[z]));
    assert |a| == |NameOf(buf, s[x])| && |b| == |NameOf(buf, s[y])| && |c| == |NameOf(buf, s[z])|;
    if |a| == |b| && Value(a) == Value(b) {
      ValueInjective(a, b);
    }
  }

  lemma {:induction false} SameSetEquivalence(buf: seq<Byte>, p: nat, q: nat, r: nat)
    requires Parsable(buf, p) && Parsable(buf, q) && Parsable(buf, r)
    ensures SameSet(buf, p, p)
    ensures SameSet(buf, p, q) ==> SameSet(buf, q, p) && (ClassIn(buf, p) <==> ClassIn(buf, q))
    ensures SameSet(buf, p, q) && SameSet(buf, q, r) ==> SameSet(buf, p, r)
  {
  }

  /** Groups found so far, up to position i. */
  ghost predicate Grouped(buf: seq<Byte>, s: seq<nat>, gs: seq<Group>, i: nat)
    requires AllParsable(buf, s)
  {
    && i <= |s|
    && (forall a :: 0 <= a < |gs| ==> WholeSet(buf, s, gs[a]) && gs[a].to <= i)
    && (forall a, b :: 0 <= a < b < |gs| ==> gs[a].to <= gs[b].from)
    && (forall x :: 0 <= x < i && ClassIn(buf, s[x]) ==> InSomeGroup(gs, x))
  }

  ghost predicate InSomeGroup(gs: seq<Group>, x: nat) {
    exists a :: 0 <= a < |gs| && gs[a].from <= x < gs[a].to
  }

  /** A run of one set that starts where all earlier groups are complete, and does not go on, is whole. */
  lemma {:induction false} RunIsWhole(buf: seq<Byte>, s: seq<nat>, gs: seq<Group>, i: nat, j: nat)
    requires Sorted(buf, s) && Grouped(buf, s, gs, i) && i < j <= |s| && ClassIn(buf, s[i])
    requires forall x :: i <= x < j ==> SameSet(buf, s[i], s[x])
    requires j < |s| ==> !SameSet(buf, s[i], s[j])
    ensures WholeSet(buf, s, Group(i, j))
  {
    hide Leq, SameSet, ClassIn, Parsable;
    forall x | 0 <= x < |s| && SameSet(buf, s[i], s[x]) ensures i <= x < j {
      if x >= j {
        SetsContiguous(buf, s, i, j, x);
      } else if x < i {
        SameSetEquivalence(buf, s[i], s[x], s[i]);
        var a :| 0 <= a < |gs| && gs[a].from <= x < gs[a].to;
        var f := gs[a].from;
        assert SameSet(buf, s[f], s[x]);
        SameSetEquivalence(buf, s[f], s[x], s[i]);
      }
    }
  }

  lemma {:induction false} AddGroup(buf: seq<Byte>, s: seq<nat>, gs: seq<Group>, i: nat, j: nat)
    requires AllParsable(buf, s) && Grouped(buf, s, gs, i) && i < j && WholeSet(buf, s, Group(i, j)) && j <= |s|
    ensures Grouped(buf, s, gs + [Group(i, j)], j)
  {
    hide WholeSet, ClassIn, Parsable;
    var gs' := gs + [Group(i, j)];
    forall x | 0 <= x < j && ClassIn(buf, s[x]) ensures InSomeGroup(gs', x) {
      if x < i {
        assert InSomeGroup(gs, x);
        var a :| 0 <= a < |gs| && gs[a].from <= x < gs[a].to;
        assert gs'[a] == gs[a];
      } else {
        assert gs'[|gs|] == Group(i, j);
      }
    }
  }

  method IsClassIn(buf: seq<Byte>, p: nat) returns (b: bool)
    requires Parsable(buf, p)
    ensures b <==> ClassIn(buf, p)
  {
    var pos, t1 := PacketGetName(buf, p);
    var end, header := PacketCopy(buf, pos, 10);
    KindSplit(buf, p, header);
    b := header[2..4] == [0, 1];
  }

  /** The loop's test whether a record of class IN continues the set of the first one. */
  method Continues(buf: seq<Byte>, first: nat, p: nat) returns (b: bool)
    requires Parsable(buf, first) && Parsable(buf, p) && ClassIn(buf, first)
    ensures b <==> SameSet(buf, first, p)
  {
    var pos1, t1 := PacketGetName(buf, first);
    var end1, header1 := PacketCopy(buf, pos1, 10);
    var pos2, t2 := PacketGetName(buf, p);
    var end2, header2 := PacketCopy(buf, pos2, 10);
    NameOfIsName(buf, first);
    NameOfIsName(buf, p);
    KindSplit(buf, first, header1);
    KindSplit(buf, p, header2);
    hide GetName, Lower, IsName;
    b := DomainEqual(t1, t2);
    if !b { return; }
    if header2[..2] != header1[..2] { return false; }
    if header2[2..4] != [0, 1] { return false; }
  }

  lemma {:induction false} KindSplit(buf: seq<Byte>, p: nat, header: seq<Byte>)
    requires Parsable(buf, p) && header == buf[FixedAt(buf, p)..FixedAt(buf, p) + 10]
    ensures TypeClass(buf, p) == header[..2] + header[2..4]
    ensures ClassIn(buf, p) <==> header[2..4] == [0, 1]
  {
    var e := FixedAt(buf, p);
    var u, v := TypeClass(buf, p), header[..2] + header[2..4];
    assert |u| == |v| == 4 && forall i :: 0 <= i < 4 ==> u[i] == buf[e + i] && v[i] == buf[e + i];
    assert u[2..] == v[2..] == header[2..4];
  }

  /** The grouping loop. Every set of class IN is one group with all its records. */
  method GroupRecords(buf: seq<Byte>, records: array<nat>) returns (gs: seq<Group>)
    requires Sorted(buf, records[..])
    ensures Grouped(buf, records[..], gs, records.Length)
  {
    hide Leq, SameSet, ClassIn, Parsable, WholeSet;
    ghost var s := records[..];
    var i, k := 0, records.Length;
    gs := [];
    while i < k
      invariant i <= k && Grouped(buf, s, gs, i)
    {
      var isIn := IsClassIn(buf, records[i]);
      if !isIn {
        i := i + 1;
        continue;
      }
      var j := i + 1;
      SameSetEquivalence(buf, s[i], s[i], s[i]);
      while j < k
        invariant i < j <= k && forall x :: i <= x < j ==> SameSet(buf, s[i], s[x])
      {
        var more := Continues(buf, records[i], records[j]);
        if !more { break; }
        j := j + 1;
      }
      RunIsWhole(buf, s, gs, i, j);
      AddGroup(buf, s, gs, i, j);
      gs := gs + [Group(i, j)];
      i := j;
    }
  }

  /** Sort, then group: whatever the order of the records in the packet, every record of class IN is
      in exactly one group, and its group is its whole set. */
  method SortAndGroup(buf: seq<Byte>, records: array<nat>) returns (gs: seq<Group>)
    requires Collected(buf, records[..])
    modifies records
    ensures multiset(records[..]) == multiset(old(records[..])) && Sorted(buf, records[..])
    ensures Grouped(buf, records[..], gs, records.Length)
  {
    Sort(buf, records);
    gs := GroupRecords(buf, records);
  }

  // ---------- A whole packet ----------

  /** The position of the record behind the one at p. */
  function NextAt(buf: seq<Byte>, p: nat): nat
    requires Parsable(buf, p)
  {
    var e := FixedAt(buf, p);
    e + 10 + Big16(buf[e + 8], buf[e + 9])
  }

  /** The positions of k records from pos on, if all of them can be read. */
  function Positions(buf: seq<Byte>, pos: nat, k: nat): Option<seq<nat>>
    decreases k
  {
    if k == 0 then Some([])
    else if !Parsable(buf, pos) then None
    else
      match Positions(buf, NextAt(buf, pos), k - 1)
      case None => None
      case Some(rest) => Some([pos] + rest)
  }

  lemma {:induction false} PositionsCollected(buf: seq<Byte>, pos: nat, k: nat)
    requires Positions(buf, pos, k).Some?
    ensures var s := Positions(buf, pos, k).value; |s| == k && Collected(buf, s) && (k > 0 ==> s[0] == pos)
    decreases k
  {
    hide Parsable;
    if k > 0 { PositionsCollected(buf, NextAt(buf, pos), k - 1); }
  }

  /** The record at pos: whether it can be read, and where the next one would start. */
  method SkipRecord(buf: seq<Byte>, pos: nat) returns (ok: bool, next: nat)
    ensures ok <==> Parsable(buf, pos)
    ensures ok ==> next == NextAt(buf, pos)
  {
    hide GetName;
    var end, t1 := PacketGetName(buf, pos);
    if end == 0 { return false, 0; }
    var behind, header := PacketCopy(buf, end, 10);
    if behind == 0 { return false, 0; }
    return true, behind + Big16(header[8], header[9]);
  }

  lemma {:induction false} MoreBehind(a: seq<nat>, x: nat, b: seq<nat>)
    ensures a + ([x] + b) == a + [x] + b
  {
  }

  /** The loop that collects the positions; it gives up at a record that cannot be read. */
  method Collect(buf: seq<Byte>, start: nat, k: nat) returns (ok: bool, records: array<nat>)
    ensures fresh(records)
    ensures ok <==> Positions(buf, start, k).Some?
    ensures ok ==> Positions(buf, start, k) == Some(records[..])
  {
    hide Parsable, NextAt;
    records := new nat[k];
    var pos: nat, j := start, 0;
    assert forall t: seq<nat> :: records[..0] + t == t;
    while j < k
      invariant j <= k
      invariant match Positions(buf, pos, k - j)
                case None => Positions(buf, start, k).None?
                case Some(rest) => Positions(buf, start, k) == Some(records[..j] + rest)
    {
      records[j] := pos;
      ghost var at := pos;
      ok, pos := SkipRecord(buf, pos);
      if !ok { return; }
      if Positions(buf, pos, k - j - 1).Some? {
        MoreBehind(records[..j], at, Positions(buf, pos, k - j - 1).value);
        assert records[..j + 1] == records[..j] + [at];
      }
      j := j + 1;
    }
    assert records[..] == records[..k] + [];
    ok := true;
  }

  /** The records of a packet from `start` on: collected, sorted and grouped, or none if one cannot be read. */
  method GroupPacket(buf: seq<Byte>, start: nat, k: nat) returns (ok: bool, records: array<nat>, gs: seq<Group>)
    ensures ok <==> Positions(buf, start, k).Some?
    ensures ok ==> multiset(records[..]) == multiset(Positions(buf, start, k).value) && Sorted(buf, records[..])
    ensures ok ==> Grouped(buf, records[..], gs, records.Length)
  {
    hide Grouped, Sorted, Collected;
    gs := [];
    ok, records := Collect(buf, start, k);
    if !ok { return; }
    PositionsCollected(buf, start, k);
    gs := SortAndGroup(buf, records);
  }
}
