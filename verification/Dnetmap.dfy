/** The address allocator of xt_DNETMAP.c: every prefix keeps its addresses in a list, the least recently
    stamped first, and two hash tables find the bound ones by either address. */
module Dnetmap {
  import opened Basics
  import opened Bytes

  /** struct dnetmap_entry: an entry is bound while its pre-NAT address is not 0. */
  datatype Entry = Entry(prenat: Word, postnat: Word, stamp: int, prefix: nat)

  /** dnetmap_entry_hash, for `size` a power of two. */
  function Slot(size: nat, a: Word): (h: nat)
    requires size > 0
    ensures h < size
  {
    a % size
  }

  // ---------- The hash tables ----------

  /** The address an entry is found by: pre-NAT in glist, post-NAT in grlist. */
  function Key(e: Entry, rev: bool): Word {
    if rev then e.postnat else e.prenat
  }

  predicate Linked(es: seq<Entry>, size: nat, rev: bool, h: nat, i: nat)
    requires size > 0
  {
    i < |es| && es[i].prenat != 0 && Slot(size, Key(es[i], rev)) == h
  }

  /** Bucket h holds each bound entry that hashes there, once, and nothing else. */
  ghost predicate BucketOk(es: seq<Entry>, size: nat, rev: bool, h: nat, bucket: seq<nat>)
    requires size > 0
  {
    Distinct(bucket) && forall i: nat :: i in bucket <==> Linked(es, size, rev, h, i)
  }

  ghost predicate Indexed(es: seq<Entry>, size: nat, rev: bool, buckets: seq<seq<nat>>) {
    && size > 0 && |buckets| == size
    && forall h: nat :: h < size ==> BucketOk(es, size, rev, h, buckets[h])
  }

  lemma {:induction false} IndexAdd(es: seq<Entry>, es': seq<Entry>, size: nat, rev: bool, buckets: seq<seq<nat>>,
                                    i: nat, h: nat)
    requires Indexed(es, size, rev, buckets) && i < |es| && es[i].prenat == 0
    requires |es'| == |es| && es' == es[i := es'[i]] && es'[i].prenat != 0 && h == Slot(size, Key(es'[i], rev))
    ensures Indexed(es', size, rev, buckets[h := buckets[h] + [i]])
  {
    hide Slot;
    var after := buckets[h := buckets[h] + [i]];
    forall g: nat | g < size ensures BucketOk(es', size, rev, g, after[g]) {
      assert BucketOk(es, size, rev, g, buckets[g]);
      assert !Linked(es, size, rev, g, i);
      forall j: nat | j != i ensures Linked(es', size, rev, g, j) == Linked(es, size, rev, g, j) {
      }
      if g == h {
        AppendDistinct(buckets[h], i);
      }
    }
  }

  lemma {:induction false} IndexRemove(es: seq<Entry>, es': seq<Entry>, size: nat, rev: bool, buckets: seq<seq<nat>>,
                                       i: nat, h: nat)
    requires Indexed(es, size, rev, buckets) && i < |es| && es[i].prenat != 0
    requires |es'| == |es| && es' == es[i := es'[i]] && es'[i].prenat == 0 && h == Slot(size, Key(es[i], rev))
    ensures Indexed(es', size, rev, buckets[h := Minus(buckets[h], i)])
  {
    hide Slot;
    var after := buckets[h := Minus(buckets[h], i)];
    forall g: nat | g < size ensures BucketOk(es', size, rev, g, after[g]) {
      assert BucketOk(es, size, rev, g, buckets[g]);
      assert !Linked(es', size, rev, g, i) && Linked(es, size, rev, g, i) == (g == h);
      forall j: nat | j != i ensures Linked(es', size, rev, g, j) == Linked(es, size, rev, g, j) {
      }
      if g == h {
        MinusDistinct(buckets[h], i);
      }
    }
  }

  lemma {:induction false} IndexFrame(es: seq<Entry>, es': seq<Entry>, size: nat, rev: bool, buckets: seq<seq<nat>>)
    requires Indexed(es, size, rev, buckets) && |es'| >= |es|
    requires forall i :: 0 <= i < |es| ==> es'[i].prenat == es[i].prenat && es'[i].postnat == es[i].postnat
    requires forall i :: |es| <= i < |es'| ==> es'[i].prenat == 0
    ensures Indexed(es', size, rev, buckets)
  {
    hide Slot;
    forall g: nat | g < size ensures BucketOk(es', size, rev, g, buckets[g]) {
      assert BucketOk(es, size, rev, g, buckets[g]);
      forall j: nat ensures Linked(es', size, rev, g, j) == Linked(es, size, rev, g, j) {
      }
    }
  }

  // ---------- The LRU lists ----------

  /** The list of prefix p holds exactly its entries, each once, in the order of their stamps. */
  ghost predicate LruOk(es: seq<Entry>, p: nat, l: seq<nat>) {
    && Distinct(l)
    && (forall i: nat :: i in l <==> i < |es| && es[i].prefix == p)
    && forall a, b :: 0 <= a < b < |l| ==> InOrder(es, l[a], l[b])
  }

  ghost predicate InOrder(es: seq<Entry>, i: nat, j: nat) {
    i < |es| && j < |es| && es[i].stamp <= es[j].stamp
  }

  ghost predicate Listed(es: seq<Entry>, lru: seq<seq<nat>>) {
    && (forall p: nat :: p < |lru| ==> LruOk(es, p, lru[p]))
    && forall i :: 0 <= i < |es| ==> es[i].prefix < |lru|
  }

  /** list_move_tail: entry i goes to the end of the list of prefix p. */
  function Moved(lru: seq<seq<nat>>, p: nat, i: nat): (r: seq<seq<nat>>)
    requires p < |lru|
    ensures |r| == |lru|
  {
    lru[p := Minus(lru[p], i) + [i]]
  }

  /** Restamping an entry with a time no other stamp exceeds, and moving it to the end of its list. */
  lemma {:induction false} Touched(es: seq<Entry>, es': seq<Entry>, lru: seq<seq<nat>>, i: nat)
    requires Listed(es, lru) && i < |es|
    requires |es'| == |es| && es' == es[i := es'[i]] && es'[i].prefix == es[i].prefix
    requires es[i].prefix < |lru| && forall j :: 0 <= j < |es| ==> es[j].stamp <= es'[i].stamp
    ensures Listed(es', Moved(lru, es[i].prefix, i))
  {
    hide Minus;
    var q := es[i].prefix;
    var l, d := lru[q], Minus(lru[q], i);
    assert LruOk(es, q, l);
    MinusDistinct(l, i);
    AppendDistinct(d, i);
    MinusOrdered(es, l, i);
    forall p: nat | p < |lru| ensures LruOk(es', p, Moved(lru, q, i)[p]) {
      assert LruOk(es, p, lru[p]);
      var m := Moved(lru, q, i)[p];
      forall a, b | 0 <= a < b < |m| ensures InOrder(es', m[a], m[b]) {
        if p == q {
          assert m[a] in m && d[a] in d;
          if b < |d| {
            assert InOrder(es, d[a], d[b]) && d[b] in d;
          }
        } else {
          assert InOrder(es, m[a], m[b]) && m[a] in m && m[b] in m;
        }
      }
    }
  }

  lemma {:induction false} MinusOrdered(es: seq<Entry>, l: seq<nat>, i: nat)
    requires Distinct(l) && forall a, b :: 0 <= a < b < |l| ==> InOrder(es, l[a], l[b])
    ensures forall a, b :: 0 <= a < b < |Minus(l, i)| ==> InOrder(es, Minus(l, i)[a], Minus(l, i)[b])
  {
    hide InOrder;
    if i in l {
      var k :| 0 <= k < |l| && l[k] == i;
      MinusAt(l, i, k);
      var d := Without(l, k);
      forall a, b | 0 <= a < b < |d| ensures InOrder(es, d[a], d[b]) {
        assert InOrder(es, l[if a < k then a else a + 1], l[if b < k then b else b + 1]);
      }
    }
  }

  lemma {:induction false} ListedFrame(es: seq<Entry>, es': seq<Entry>, lru: seq<seq<nat>>)
    requires Listed(es, lru) && |es'| == |es|
    requires forall i :: 0 <= i < |es| ==> es'[i].prefix == es[i].prefix && es'[i].stamp == es[i].stamp
    ensures Listed(es', lru)
  {
    forall p: nat | p < |lru| ensures LruOk(es', p, lru[p]) {
      assert LruOk(es, p, lru[p]);
      forall a, b | 0 <= a < b < |lru[p]| ensures InOrder(es', lru[p][a], lru[p][b]) {
        assert InOrder(es, lru[p][a], lru[p][b]);
      }
    }
  }

  /** The head of a list has the least stamp of its prefix. */
  lemma {:induction false} HeadOldest(es: seq<Entry>, lru: seq<seq<nat>>, p: nat)
    requires Listed(es, lru) && p < |lru| && lru[p] != []
    ensures lru[p][0] < |es| && es[lru[p][0]].prefix == p && Oldest(es, lru[p][0])
  {
    var l := lru[p];
    assert LruOk(es, p, l) && l[0] in l;
    forall j | 0 <= j < |es| && es[j].prefix == p ensures es[l[0]].stamp <= es[j].stamp {
      assert j in l;
      var k :| 0 <= k < |l| && l[k] == j;
      if k > 0 {
        assert InOrder(es, l[0], l[k]);
      }
    }
  }

  // ---------- What a packet does, on the entries alone ----------

  /** No entry of the same prefix has an older stamp. */
  ghost predicate Oldest(es: seq<Entry>, i: nat)
    requires i < |es|
  {
    forall j :: 0 <= j < |es| && es[j].prefix == es[i].prefix ==> es[i].stamp <= es[j].stamp
  }

  /** Every address of the prefix is bound and its stamp is still ahead. */
  ghost predicate AllBusy(es: seq<Entry>, p: nat, t: int) {
    forall i :: 0 <= i < |es| && es[i].prefix == p ==> es[i].prenat != 0 && t < es[i].stamp
  }

  /** The entry bound to a; |es| when there is none. */
  ghost function Tenant(es: seq<Entry>, a: Word): (i: nat)
    ensures i <= |es| && (i < |es| ==> es[i].prenat == a)
    ensures forall j :: 0 <= j < i ==> es[j].prenat != a
  {
    if es == [] || es[0].prenat == a then 0 else 1 + Tenant(es[1..], a)
  }

  ghost predicate NoneShared(es: seq<Entry>) {
    forall i, j :: 0 <= i < j < |es| && es[i].prenat != 0 ==> es[i].prenat != es[j].prenat
  }

  /** No stamp is further ahead than the lifetime, and a free entry has no stamp ahead. */
  ghost predicate StampsOk(es: seq<Entry>, ttl: nat, now: int) {
    forall i :: 0 <= i < |es| ==> es[i].stamp <= now + ttl && (es[i].prenat == 0 ==> es[i].stamp <= now)
  }

  /** The oldest entry of a prefix is free or outdated unless all of them are busy. */
  lemma {:induction false} BusyHead(es: seq<Entry>, ttl: nat, now: int, i: nat, t: int)
    requires i < |es| && Oldest(es, i) && StampsOk(es, ttl, now) && now <= t
    ensures (es[i].prenat != 0 && t < es[i].stamp) <==> AllBusy(es, es[i].prefix, t)
  {
  }

  function Freed(es: seq<Entry>, i: nat): (r: seq<Entry>)
    requires i <= |es|
    ensures |r| == |es| && forall k :: 0 <= k < |es| ==> r[k].postnat == es[k].postnat
  {
    if i < |es| then es[i := es[i].(prenat := 0)] else es
  }

  /** Entry i is bound, answers for address a, and has been restamped. */
  ghost predicate Answers(es: seq<Entry>, es': seq<Entry>, i: nat, a: Word, source: Word, stamp: int) {
    && i < |es| && es[i].prenat != 0 && es[i].postnat == a && es[i].prenat == source
    && es' == es[i := es[i].(stamp := stamp)]
  }

  class Net {
    const size: nat
    /** jttl: one lifetime for all rules. */
    const ttl: nat
    var entries: seq<Entry>
    /** lru_list of every prefix. */
    var lru: seq<seq<nat>>
    /** dnetmap_iphash: by pre-NAT address, and by post-NAT address. */
    var glist: seq<seq<nat>>
    var grlist: seq<seq<nat>>
    /** The time of the last call. */
    ghost var now: int

    ghost predicate Valid()
      reads this
    {
      && Indexed(entries, size, false, glist) && Indexed(entries, size, true, grlist)
      && Listed(entries, lru) && NoneShared(entries) && StampsOk(entries, ttl, now)
    }

    constructor (size: nat, ttl: nat, ghost start: int)
      requires size > 0
      ensures Valid() && this.size == size && this.ttl == ttl && entries == [] && lru == [] && now == start
    {
      this.size, this.ttl := size, ttl;
      entries, lru := [], [];
      glist, grlist := seq(size, _ => []), seq(size, _ => []);
      now := start;
    }

    /** The address range of a new prefix: from dnetmap_tg_check. */
    method AddPrefix(ipMin: Word, ipMax: Word, t: int)
      requires Valid() && ipMax as int + 1 < TWO32 && t >= now
      modifies this
      ensures Valid() && now == t && |lru| == |old(lru)| + 1 && lru[..|old(lru)|] == old(lru)
      ensures |entries| == |old(entries)| + (if ipMin <= ipMax then ipMax - ipMin + 1 else 0)
      ensures entries[..|old(entries)|] == old(entries)
      ensures SetUp(entries, |old(entries)|, lru[|old(lru)|], ipMin, |old(lru)|, t)
    {
      hide Slot, Indexed, Listed, SetUpAt;
      var p := |lru|;
      ghost var n, before := |entries|, lru;
      now := t;
      ListedNewPrefix(entries, lru);
      lru := lru + [[]];
      var ip: nat := ipMin;
      while ip <= ipMax
        invariant ip as int == ipMin as int + |entries| - n && (ip as int <= ipMax as int + 1 || ip == ipMin)
        invariant Valid() && now == t && n == |old(entries)| && p == |before| && before == old(lru)
        invariant n <= |entries| && entries[..n] == old(entries) && |lru| == p + 1 && lru[..p] == before
        invariant SetUp(entries, n, lru[p], ipMin, p, t)
        decreases ipMax as int + 1 - ip
      {
        AddEntry(ip, p, t, ipMin, n);
        ip := ip + 1;
      }
    }

    method AddEntry(ip: nat, p: nat, t: int, ghost lo: Word, ghost n: nat)
      requires Valid() && ip < TWO32 && p < |lru| && now == t && SetUp(entries, n, lru[p], lo, p, t)
        && ip == lo as int + |entries| - n
      modifies this`entries, this`lru
      ensures Valid() && lru == old(lru)[p := old(lru[p]) + [|old(entries)|]] && |entries| == |old(entries)| + 1
      ensures entries[..|old(entries)|] == old(entries) && SetUp(entries, n, lru[p], lo, p, t)
    {
      hide Slot, Indexed, Listed;
      ghost var es, before := entries, lru;
      var e := Entry(0, ip, t, p);
      forall k | 0 <= k < |lru[p]| ensures lru[p][k] < |es| && es[lru[p][k]].stamp <= t {
        assert SetUpAt(es, n, lru[p], lo, p, t, k);
      }
      ListedAppend(es, lru, e);
      lru := lru[p := lru[p] + [|entries|]];
      entries := entries + [e];
      IndexFrame(es, entries, size, false, glist);
      IndexFrame(es, entries, size, true, grlist);
      SetUpAppend(es, n, before[p], lo, p, t, e);
    }

    /** dnetmap_entry_rlookup. */
    method ReverseLookup(a: Word) returns (i: nat)
      requires Valid()
      ensures i <= |entries|
      ensures i < |entries| ==> entries[i].prenat != 0 && entries[i].postnat == a
      ensures i == |entries| ==> forall j :: 0 <= j < |entries| && entries[j].prenat != 0 ==> entries[j].postnat != a
    {
      hide Slot;
      ghost var h0 := Slot(size, a);
      var bucket := grlist[Slot(size, a)];
      assert BucketOk(entries, size, true, h0, bucket);
      for k := 0 to |bucket|
        invariant forall j :: 0 <= j < k ==> bucket[j] < |entries| && entries[bucket[j]].postnat != a
      {
        assert bucket[k] in bucket && Linked(entries, size, true, h0, bucket[k]);
        if entries[bucket[k]].postnat == a { return bucket[k]; }
      }
      i := |entries|;
      forall j | 0 <= j < |entries| && entries[j].prenat != 0 ensures entries[j].postnat != a {
        assert j in bucket <==> Linked(entries, size, true, h0, j);
      }
    }

    /** The pre-routing direction of dnetmap_tg: the source behind address a. `differs` is what comparing the
        rule's prefix gives, if it names one; the code compares it with a pointer, so that this says nothing of
        the entry. */
    method Reverse(a: Word, differs: bool, t: int) returns (r: Option<Word>, ghost i: nat)
      requires Valid() && t >= now
      modifies this
      ensures Valid() && now == t
      ensures r.None? ==> entries == old(entries) && lru == old(lru)
      ensures r.None? ==>
        differs || forall j :: 0 <= j < |entries| && entries[j].prenat != 0 ==> entries[j].postnat != a
      ensures differs ==> r == None
      ensures r.Some? ==> Answers(old(entries), entries, i, a, r.value, t + ttl)
      ensures r.Some? ==>
        var p := old(entries)[i].prefix;
        p < |old(lru)| && lru == Moved(old(lru), p, i)
      ensures PostnatsDistinct(old(entries)) && !differs ==>
        forall i :: 0 <= i < |old(entries)| && old(entries)[i].prenat != 0 && old(entries)[i].postnat == a ==>
          r == Some(old(entries)[i].prenat)
    {
      hide Slot, Indexed, Listed, NoneShared, Moved;
      ghost var es := entries;
      assert StampsOk(entries, ttl, t);
      now := t;
      var e := ReverseLookup(a);
      i := e;
      if e == |entries| { return None, e; }
      if differs { return None, e; }
      Touch(e, t);
      r := Some(entries[e].prenat);
    }

    /** dnetmap_entry_lookup. */
    method Lookup(a: Word) returns (i: nat)
      requires Valid() && a != 0
      ensures i == Tenant(entries, a)
    {
      hide Slot;
      ghost var h0 := Slot(size, a);
      var bucket := glist[Slot(size, a)];
      assert BucketOk(entries, size, false, h0, bucket);
      for k := 0 to |bucket|
        invariant forall j :: 0 <= j < k ==> bucket[j] < |entries| && entries[bucket[j]].prenat != a
      {
        assert bucket[k] in bucket && Linked(entries, size, false, h0, bucket[k]);
        if entries[bucket[k]].prenat == a {
          TenantIs(entries, bucket[k], a);
          return bucket[k];
        }
      }
      i := |entries|;
      NotIndexed(entries, size, h0, bucket, a);
    }

    /** Taking entry i out of both tables and marking it free. */
    method Unbind(i: nat)
      requires Valid() && i < |entries| && entries[i].prenat != 0 && entries[i].stamp <= now
      modifies this`entries, this`glist, this`grlist
      ensures Valid() && entries == Freed(old(entries), i)
    {
      hide Slot, BucketOk, Minus;
      ghost var es := entries;
      var g, r := Slot(size, entries[i].prenat), Slot(size, entries[i].postnat);
      glist := glist[g := Minus(glist[g], i)];
      grlist := grlist[r := Minus(grlist[r], i)];
      entries := entries[i := entries[i].(prenat := 0)];
      IndexRemove(es, entries, size, false, old(glist), i, g);
      IndexRemove(es, entries, size, true, old(grlist), i, r);
      ListedFrame(es, entries, lru);
    }

    /** The stamp of entry i is renewed, and it moves to the end of its list. */
    method Touch(i: nat, t: int)
      requires Valid() && i < |entries| && entries[i].prenat != 0 && t == now
      modifies this`entries, this`lru
      ensures Valid() && entries == old(entries)[i := old(entries)[i].(stamp := t + ttl)]
      ensures entries[i].prefix < |old(lru)| && lru == Moved(old(lru), entries[i].prefix, i)
    {
      hide Slot, BucketOk, Indexed, Listed, Minus;
      ghost var es := entries;
      entries := entries[i := entries[i].(stamp := t + ttl)];
      PrefixIn(es, lru, i);
      Touched(es, entries, lru, i);
      var p := entries[i].prefix;
      lru := Moved(lru, p, i);
      IndexFrame(es, entries, size, false, glist);
      IndexFrame(es, entries, size, true, grlist);
    }

    /** Linking the free entry i into both tables under a new source. */
    method Bind(i: nat, a: Word)
      requires Valid() && i < |entries| && entries[i].prenat == 0 && a != 0 && Tenant(entries, a) == |entries|
      modifies this`entries, this`glist, this`grlist
      ensures Valid() && entries == old(entries)[i := old(entries)[i].(prenat := a)]
    {
      hide Slot, BucketOk, Minus;
      ghost var es := entries;
      entries := entries[i := entries[i].(prenat := a)];
      var g, r := Slot(size, a), Slot(size, entries[i].postnat);
      glist := glist[g := glist[g] + [i]];
      grlist := grlist[r := grlist[r] + [i]];
      IndexAdd(es, entries, size, false, old(glist), i, g);
      IndexAdd(es, entries, size, true, old(grlist), i, r);
      ListedFrame(es, entries, lru);
    }

    /** From bind_new_prefix on: the oldest entry of the prefix changes hands, unless it is busy. */
    method BindNew(a: Word, p: nat, t: int) returns (r: Option<Word>)
      requires Valid() && a != 0 && Tenant(entries, a) == |entries|
      requires p < |lru| && lru[p] != [] && t == now
      modifies this`entries, this`lru, this`glist, this`grlist
      ensures Valid()
      ensures r.None? <==> AllBusy(old(entries), p, t)
      ensures r.None? ==> entries == old(entries) && lru == old(lru)
      ensures var j := old(lru)[p][0];
        r.Some? ==>
          && Rebound(old(entries), entries, j, a, p, t + ttl)
          && lru == Moved(old(lru), p, j) && j < |old(entries)| && r == Some(old(entries)[j].postnat)
    {
      hide Slot, Indexed, Listed, AllBusy, NoneShared, Moved;
      ghost var es := entries;
      HeadOldest(es, lru, p);
      var i := lru[p][0];
      BusyHead(es, ttl, now, i, t);
      if entries[i].prenat != 0 && t < entries[i].stamp { return None; }
      if entries[i].prenat != 0 {
        Unbind(i);
        TenantFreed(es, i, a);
      }
      Bind(i, a);
      Touch(i, t);
      r := Some(entries[i].postnat);
    }

    /** The source direction of dnetmap_tg: the address for source a, under a rule for prefix p. A bound source
        keeps its entry if the rule reuses, if its binding is not outdated, or if it is in this prefix already;
        otherwise a rule that does not reuse takes it into its own prefix. */
    method Source(a: Word, p: nat, reuse: bool, staticOnly: bool, t: int) returns (r: Option<Word>)
      requires Valid() && a != 0 && p < |lru| && lru[p] != [] && t >= now
      modifies this
      ensures Valid() && now == t && |lru| == old(|lru|)
      ensures var es := old(entries);
        var i := Tenant(es, a);
        if i < |es| && (reuse || t <= es[i].stamp || es[i].prefix == p) then
          && r == Some(es[i].postnat) && entries == es[i := es[i].(stamp := t + ttl)]
          && es[i].prefix < |old(lru)| && lru == Moved(old(lru), es[i].prefix, i)
        else if i == |es| && staticOnly then
          r == None && entries == es && lru == old(lru)
        else if AllBusy(es, p, t) then
          r == None && entries == Freed(es, i) && lru == old(lru)
        else
          var j := old(lru)[p][0];
          && Rebound(Freed(es, i), entries, j, a, p, t + ttl)
          && lru == Moved(old(lru), p, j) && j < |es| && r == Some(es[j].postnat)
    {
      hide Slot, Indexed, Listed, AllBusy, NoneShared, Moved, Rebound;
      ghost var es := entries;
      assert StampsOk(entries, ttl, t);
      now := t;
      var i := Lookup(a);
      if i == |entries| {
        if staticOnly { return None; }
        r := BindNew(a, p, t);
      } else if !reuse && entries[i].stamp < t && p != entries[i].prefix {
        OtherBusy(es, i, p, t);
        Unbind(i);
        TenantGone(es, i, a);
        r := BindNew(a, p, t);
      } else {
        Touch(i, t);
        r := Some(entries[i].postnat);
      }
    }
  }

  /** One more free entry at the end of a list none of whose stamps is later. */
  lemma {:induction false} ListedAppend(es: seq<Entry>, lru: seq<seq<nat>>, e: Entry)
    requires Listed(es, lru) && e.prefix < |lru|
    requires forall k :: 0 <= k < |lru[e.prefix]| ==> lru[e.prefix][k] < |es| && es[lru[e.prefix][k]].stamp <= e.stamp
    ensures Listed(es + [e], lru[e.prefix := lru[e.prefix] + [|es|]])
  {
    var q, n := e.prefix, |es|;
    var es', after := es + [e], lru[q := lru[q] + [n]];
    assert LruOk(es, q, lru[q]);
    AppendDistinct(lru[q], n);
    forall p: nat | p < |lru| ensures LruOk(es', p, after[p]) {
      assert LruOk(es, p, lru[p]);
      var m := after[p];
      forall a, b | 0 <= a < b < |m| ensures InOrder(es', m[a], m[b]) {
        if b < |lru[p]| {
          assert InOrder(es, lru[p][a], lru[p][b]);
        }
      }
    }
  }

  lemma {:induction false} ListedNewPrefix(es: seq<Entry>, lru: seq<seq<nat>>)
    requires Listed(es, lru)
    ensures Listed(es, lru + [[]])
  {
    var after := lru + [[]];
    forall p: nat | p < |after| ensures LruOk(es, p, after[p]) {
      if p < |lru| {
        assert LruOk(es, p, lru[p]);
      }
    }
  }

  /** A prefix just set up: free entries for lo, lo + 1, ..., listed in that order. */
  ghost predicate SetUp(es: seq<Entry>, n: nat, list: seq<nat>, lo: Word, p: nat, t: int) {
    && n <= |es| && |list| == |es| - n
    && forall k :: 0 <= k < |list| ==> SetUpAt(es, n, list, lo, p, t, k)
  }

  predicate SetUpAt(es: seq<Entry>, n: nat, list: seq<nat>, lo: Word, p: nat, t: int, k: nat) {
    && k < |list| && list[k] == n + k < |es|
    && es[n + k].prenat == 0 && es[n + k].postnat as int == lo as int + k
    && es[n + k].stamp == t && es[n + k].prefix == p
  }

  lemma {:induction false} SetUpAppend(es: seq<Entry>, n: nat, list: seq<nat>, lo: Word, p: nat, t: int, e: Entry)
    requires SetUp(es, n, list, lo, p, t)
    requires e.prenat == 0 && e.postnat as int == lo as int + |list| && e.stamp == t && e.prefix == p
    ensures SetUp(es + [e], n, list + [|es|], lo, p, t)
  {
    forall k | 0 <= k < |list| + 1 ensures SetUpAt(es + [e], n, list + [|es|], lo, p, t, k) {
      if k < |list| {
        assert SetUpAt(es, n, list, lo, p, t, k);
      }
    }
  }

  /** No address belongs to two entries, as when the prefixes do not overlap. */
  ghost predicate PostnatsDistinct(es: seq<Entry>) {
    forall i, j :: 0 <= i < j < |es| ==> es[i].postnat != es[j].postnat
  }

  /** Entry j, the oldest of prefix p, now belongs to source a; the others are as before. */
  ghost predicate Rebound(es: seq<Entry>, es': seq<Entry>, j: nat, a: Word, p: nat, stamp: int) {
    && j < |es| && es[j].prefix == p && Oldest(es, j)
    && es' == es[j := es[j].(prenat := a, stamp := stamp)]
  }

  /** Freeing an entry of another prefix makes no room in this one. */
  lemma {:induction false} OtherBusy(es: seq<Entry>, i: nat, p: nat, t: int)
    requires i < |es| && es[i].prefix != p
    ensures AllBusy(Freed(es, i), p, t) == AllBusy(es, p, t)
  {
    var es' := Freed(es, i);
    forall k | 0 <= k < |es| && es[k].prefix == p ensures es'[k] == es[k] {
    }
  }

  lemma {:induction false} PrefixIn(es: seq<Entry>, lru: seq<seq<nat>>, i: nat)
    requires Listed(es, lru) && i < |es|
    ensures es[i].prefix < |lru|
  {
  }

  lemma {:induction false} TenantGone(es: seq<Entry>, i: nat, a: Word)
    requires NoneShared(es) && i < |es| && es[i].prenat == a && a != 0
    ensures Tenant(Freed(es, i), a) == |es|
  {
    var k := Tenant(Freed(es, i), a);
    if k < |es| {
      assert false;
    }
  }

  lemma {:induction false} TenantFreed(es: seq<Entry>, i: nat, a: Word)
    requires i < |es| && Tenant(es, a) == |es| && a != 0
    ensures Tenant(Freed(es, i), a) == |es|
  {
    var k := Tenant(Freed(es, i), a);
    if k < |es| {
      assert false;
    }
  }

  lemma {:induction false} NotIndexed(es: seq<Entry>, size: nat, h: nat, bucket: seq<nat>, a: Word)
    requires size > 0 && BucketOk(es, size, false, h, bucket) && h == Slot(size, a) && a != 0
    requires forall j :: 0 <= j < |bucket| ==> bucket[j] < |es| && es[bucket[j]].prenat != a
    ensures Tenant(es, a) == |es|
  {
    hide Slot;
    var k := Tenant(es, a);
    assert k in bucket <==> Linked(es, size, false, h, k);
  }

  lemma {:induction false} TenantIs(es: seq<Entry>, i: nat, a: Word)
    requires NoneShared(es) && i < |es| && es[i].prenat == a && a != 0
    ensures Tenant(es, a) == i
  {
    var k := Tenant(es, a);
  }
}
