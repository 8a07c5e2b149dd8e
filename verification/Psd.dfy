/** The port-scan detector of xt_psd.c: 512 hash chains over a ring of 256 slots. */
module Psd {
  import opened Basics
  import opened Bytes
  import opened PsdChains

  const MAXPORTS: nat := 20
  const TCP: Byte := 6

  /** What handle_packet4 looks at. */
  datatype Packet = Packet(saddr: Word, proto: Byte, ack: bool, rst: bool, dest: nat)

  /** struct xt_psd_info; `delay` is the age limit in ticks, (delay_threshold * HZ) / 100. */
  datatype Info = Info(threshold: nat, delay: nat, low: nat, high: nat)

  ghost predicate AllOk(ls: seq<Host>, heads: seq<int>, chains: seq<seq<nat>>, hashOf: AddrHash) {
    && |ls| == SLOTS && |heads| == |chains| == BUCKETS
    && forall h: Bucket :: ChainOk(ls, heads[h], chains[h], hashOf, h)
  }

  /** Two different places in the chains hold different slots and different sources: the chains are
      pairwise disjoint and a source has one entry at most. Each chain ends, within 16 slots. */
  lemma {:induction false} EachSourceOnce(ls: seq<Host>, heads: seq<int>, chains: seq<seq<nat>>, hashOf: AddrHash,
                                          g: Bucket, i: nat, h: Bucket, j: nat)
    requires AllOk(ls, heads, chains, hashOf) && i < |chains[g]| && j < |chains[h]| && (g, i) != (h, j)
    ensures chains[g][i] < SLOTS && chains[h][j] < SLOTS && chains[g][i] != chains[h][j]
    ensures ls[chains[g][i]].saddr != 0 && ls[chains[g][i]].saddr != ls[chains[h][j]].saddr
    ensures |chains[g]| <= LONGEST && ls[chains[g][|chains[g]| - 1]].next == NULL
  {
    var c, d := chains[g], chains[h];
    assert ChainOk(ls, heads[g], c, hashOf, g) && ChainOk(ls, heads[h], d, hashOf, h);
    assert LinkIs(ls, c, i) && LinkIs(ls, d, j) && LinkIs(ls, c, |c| - 1);
    assert MemberOk(ls, c[i], hashOf, g) && MemberOk(ls, d[j], hashOf, h);
    if g == h {
      var x, y := if i < j then i else j, if i < j then j else i;
      assert c[x] != c[y] && SourceAt(ls, c[x]) != SourceAt(ls, c[y]);
    }
  }

  /** A slot is in one chain at most. */
  lemma {:induction false} OneChain(ls: seq<Host>, heads: seq<int>, chains: seq<seq<nat>>, hashOf: AddrHash,
                                    h: Bucket, s: nat)
    requires AllOk(ls, heads, chains, hashOf) && s in chains[h]
    ensures s < SLOTS && ls[s].saddr != 0 && hashOf(ls[s].saddr) == h
    ensures forall g: Bucket :: g != h ==> s !in chains[g]
  {
    InChainMember(ls, heads[h], chains[h], hashOf, h, s);
    forall g: Bucket | g != h ensures s !in chains[g] {
      if s in chains[g] {
        InChainMember(ls, heads[g], chains[g], hashOf, g, s);
      }
    }
  }

  lemma {:induction false} InChainMember(ls: seq<Host>, head: int, c: seq<nat>, hashOf: AddrHash, h: Bucket, s: nat)
    requires ChainOk(ls, head, c, hashOf, h) && s in c
    ensures MemberOk(ls, s, hashOf, h)
  {
    var k :| 0 <= k < |c| && c[k] == s;
    assert MemberOk(ls, c[k], hashOf, h);
  }

  /** Only the slots of chain c, and slot s, have changed. */
  ghost predicate ChangedOnly(ls: seq<Host>, ls': seq<Host>, c: seq<nat>, s: nat) {
    |ls'| == |ls| && forall t :: 0 <= t < |ls| && t !in c && t != s ==> ls'[t] == ls[t]
  }

  /** Changing one bucket, and only slots that no other bucket uses. */
  lemma {:induction false} ReplaceChain(ls: seq<Host>, heads: seq<int>, chains: seq<seq<nat>>, hashOf: AddrHash,
                                        ls': seq<Host>, heads': seq<int>, h: Bucket, c: seq<nat>, s: nat)
    requires AllOk(ls, heads, chains, hashOf) && |heads'| == BUCKETS
    requires forall g: Bucket :: g != h ==> heads'[g] == heads[g] && s !in chains[g]
    requires ChangedOnly(ls, ls', chains[h], s)
    requires ChainOk(ls', heads'[h], c, hashOf, h)
    ensures AllOk(ls', heads', chains[h := c], hashOf)
  {
    hide ChainOk;
    forall g: Bucket ensures ChainOk(ls', heads'[g], chains[h := c][g], hashOf, g) {
      if g != h {
        var d := chains[g];
        InsideSlots(ls, heads[g], d, hashOf, g);
        forall k | 0 <= k < |d| ensures ls'[d[k]] == ls[d[k]] {
          assert d[k] in d;
          OneChain(ls, heads, chains, hashOf, g, d[k]);
        }
        ChainFrame(ls, ls', heads[g], d, hashOf, g);
      }
    }
  }

  lemma {:induction false} InsideSlots(ls: seq<Host>, head: int, c: seq<nat>, hashOf: AddrHash, h: Bucket)
    requires ChainOk(ls, head, c, hashOf, h)
    ensures forall k :: 0 <= k < |c| ==> c[k] < |ls|
  {
    forall k | 0 <= k < |c| ensures c[k] < |ls| {
      assert LinkIs(ls, c, k);
    }
  }

  // ---------- What a packet does to the chains ----------

  /** The position of a source in a chain; its length when it is not there. */
  ghost function Find(ls: seq<Host>, c: seq<nat>, a: Word): (k: nat)
    ensures k <= |c| && (k < |c| ==> SourceAt(ls, c[k]) == a)
    ensures forall j :: 0 <= j < k ==> SourceAt(ls, c[j]) != a
  {
    if c == [] || SourceAt(ls, c[0]) == a then 0 else 1 + Find(ls, c[1..], a)
  }

  /** A full chain loses its last entry. */
  ghost function Trim(c: seq<nat>): seq<nat> {
    if |c| >= LONGEST then Without(c, |c| - 1) else c
  }

  /** The chain of a new source before it is linked in: an outdated entry of the source is dropped,
      or else a full chain is trimmed. */
  ghost function MakeRoom(c: seq<nat>, k: nat): seq<nat>
    requires k <= |c|
  {
    if k < |c| then Without(c, k) else Trim(c)
  }

  /** No slot of chain c is for source a. */
  ghost predicate NoSource(ls: seq<Host>, c: seq<nat>, a: Word) {
    forall t :: t in c ==> SourceAt(ls, t) != a
  }

  /** Slot s is in no chain. */
  ghost predicate Unlinked(chains: seq<seq<nat>>, s: nat) {
    |chains| == BUCKETS && forall g: Bucket :: s !in chains[g]
  }

  /** A slot filled in for the source of packet p. */
  ghost predicate NewEntry(e: Host, p: Packet, info: Info, now: int) {
    && e.saddr == p.saddr && e.timestamp == now && e.ports == [Port(p.proto, p.dest)]
    && e.weight as int == (if p.dest < 1024 then info.low else info.high) % 256
  }

  /** The slots once the outdated entry at place k of chain c, if there is one, is marked unused. */
  ghost function Emptied(ls: seq<Host>, c: seq<nat>, k: nat): seq<Host> {
    if k < |c| && c[k] < |ls| then ls[c[k] := ls[c[k]].(saddr := 0)] else ls
  }

  /** No slot but s has changed otherwise than in its chain pointer. */
  ghost predicate Kept(ls: seq<Host>, ls': seq<Host>, s: int) {
    |ls'| == |ls| && forall t :: 0 <= t < |ls| && t != s ==> SameButNext(ls'[t], ls[t])
  }

  lemma {:induction false} KeptSources(ls: seq<Host>, ls': seq<Host>, c: seq<nat>, k: nat)
    requires Kept(Emptied(ls, c, k), ls', NULL)
    ensures forall t :: 0 <= t < |ls'| == |ls| ==> ls'[t].saddr == ls[t].saddr || ls'[t].saddr == 0
  {
  }

  lemma {:induction false} RoomMade(before: seq<seq<nat>>, after: seq<seq<nat>>, h: Bucket, c: seq<nat>, k: nat)
    requires |before| == BUCKETS && c == before[h] && k <= |c| <= LONGEST
    requires after == before[h := if k < |c| then Without(c, k) else c]
    ensures after[h := Trim(after[h])] == before[h := MakeRoom(c, k)]
  {
  }

  lemma {:induction false} KeptAll(ls: seq<Host>, c: seq<nat>, k: nat)
    requires k >= |c|
    ensures Kept(Emptied(ls, c, k), ls, NULL)
  {
  }

  lemma {:induction false} KeptLinked(ls: seq<Host>, ls': seq<Host>, s: int)
    requires |ls'| == |ls| && forall t :: 0 <= t < |ls| && t != s ==> ls'[t] == ls[t]
    ensures Kept(ls, ls', s)
  {
  }

  lemma {:induction false} KeptTwice(a: seq<Host>, b: seq<Host>, c: seq<Host>, s: int)
    requires Kept(a, b, NULL) || Kept(a, b, s)
    requires Kept(b, c, NULL) || Kept(b, c, s)
    ensures Kept(a, c, s)
  {
  }

  /** All chains after the ring slot s was taken from whichever chain it was in and linked in at the
      head of bucket h. */
  ghost predicate Reused(before: seq<seq<nat>>, after: seq<seq<nat>>, h: Bucket, s: nat) {
    && |before| == |after| == BUCKETS
    && after[h] == [s] + Minus(before[h], s)
    && forall g: Bucket :: g != h ==> after[g] == Minus(before[g], s)
  }

  /** Slot s is gone from every chain. */
  ghost predicate Taken(before: seq<seq<nat>>, after: seq<seq<nat>>, s: nat) {
    && |before| == |after| == BUCKETS
    && forall g: Bucket :: s !in after[g] && after[g] == Minus(before[g], s)
  }

  class State {
    const hashOf: AddrHash
    const list: array<Host>
    const hash: array<int>
    var index: nat
    ghost var chains: seq<seq<nat>>

    ghost predicate Valid()
      reads this, list, hash
    {
      && list.Length == SLOTS && hash.Length == BUCKETS && index < SLOTS
      && AllOk(list[..], hash[..], chains, hashOf)
    }

    constructor (hashOf: AddrHash)
      ensures Valid() && this.hashOf == hashOf && fresh(list) && fresh(hash)
    {
      this.hashOf := hashOf;
      list := new Host[SLOTS](_ => Host(NULL, 0, 0, 0, []));
      hash := new int[BUCKETS](_ => NULL);
      index := 0;
      chains := seq(BUCKETS, _ => []);
    }

    /** The search loop of handle_packet4, with host_get_next inlined: `last` stays behind by one and
        does not move on when the chain ends. */
    method Search(h: Bucket, saddr: Word) returns (curr: int, last: int, count: nat)
      requires Valid()
      ensures var c := chains[h];
        && count == Find(list[..], c, saddr)
        && curr == (if count < |c| then c[count] else NULL)
        && last == (if count < |c| then (if count > 0 then c[count - 1] else NULL)
                    else if |c| >= 2 then c[|c| - 2] else NULL)
    {
      hide MembersOk;
      ghost var c := chains[h];
      assert ChainOk(list[..], hash[..][h], c, hashOf, h);
      curr, last, count := hash[h], NULL, 0;
      FindIs(list[..], c, saddr, 0);
      while curr != NULL
        invariant count <= |c| && curr == (if count < |c| then c[count] else NULL)
        invariant forall j :: 0 <= j < count ==> SourceAt(list[..], c[j]) != saddr
        invariant last == (if count < |c| then (if count > 0 then c[count - 1] else NULL)
                           else if |c| >= 2 then c[|c| - 2] else NULL)
        decreases |c| - count
      {
        assert LinkIs(list[..], c, count);
        if list[curr].saddr == saddr { break; }
        count := count + 1;
        if list[curr].next != NULL { last := curr; }
        curr := list[curr].next;
      }
      FindIs(list[..], c, saddr, count);
    }

    /** ht_unlink: `last` is the predecessor, NULL at the head. */
    method HtUnlink(h: Bucket, last: int)
      requires list.Length == SLOTS && hash.Length == BUCKETS
      requires last != NULL ==> 0 <= last < SLOTS && 0 <= list[last].next < SLOTS
      requires last == NULL && hash[h] != NULL ==> 0 <= hash[h] < SLOTS
      modifies list, hash
      ensures last != NULL ==> hash[..] == old(hash[..])
      ensures last != NULL ==>
        list[..] == old(list[..])[last := old(list[last]).(next := old(list[list[last].next].next))]
      ensures last == NULL ==> list[..] == old(list[..])
      ensures last == NULL ==> hash[..] == if old(hash[h]) == NULL then old(hash[..])
        else old(hash[..])[h := old(list[hash[h]].next)]
    {
      if last != NULL {
        list[last] := list[last].(next := list[list[last].next].next);
      } else if hash[h] != NULL {
        hash[h] := list[hash[h]].next;
      }
    }

    /** Unlinking the k-th slot of a chain whose members need not all be in use any more. */
    method UnlinkAt(h: Bucket, last: int, ghost k: nat)
      requires list.Length == SLOTS && hash.Length == BUCKETS
      requires |chains| == BUCKETS && ChainIs(list[..], hash[h], chains[h]) && Distinct(chains[h]) && k < |chains[h]|
      requires last == if k > 0 then chains[h][k - 1] else NULL
      modifies list, hash
      ensures ChainIs(list[..], hash[h], Without(chains[h], k))
      ensures forall g: Bucket :: g != h ==> hash[g] == old(hash[g])
      ensures forall s :: 0 <= s < SLOTS ==>
        list[s] == old(list[s]) || (s in chains[h] && s != chains[h][k] && SameButNext(list[s], old(list[s])))
    {
      ghost var c, ls := chains[h], list[..];
      assert LinkIs(ls, c, k) && LinkIs(ls, c, 0);
      if k > 0 {
        assert LinkIs(ls, c, k - 1);
        UnlinkMiddle(ls, hash[h], c, k);
      } else {
        UnlinkHead(ls, hash[h], c);
      }
      HtUnlink(h, last);
    }

    /** The outdated entry at place k of bucket h is marked unused and unlinked. */
    method Expire(h: Bucket, curr: int, last: int, ghost k: nat)
      requires Valid() && k < |chains[h]| && curr == chains[h][k]
      requires last == if k > 0 then chains[h][k - 1] else NULL
      modifies list, hash, this`chains
      ensures Valid() && chains == old(chains)[h := Without(old(chains[h]), k)]
      ensures Kept(Emptied(old(list[..]), old(chains[h]), k), list[..], NULL)
    {
      hide MembersOk;
      ghost var c, ls, heads := chains[h], list[..], hash[..];
      assert ChainOk(ls, heads[h], c, hashOf, h);
      assert LinkIs(ls, c, k);
      assert c[k] in c;
      OneChain(ls, heads, chains, hashOf, h, c[k]);
      list[curr] := list[curr].(saddr := 0);
      ghost var ls0 := list[..];
      ChainFields(ls, ls0, hash[h], c);
      UnlinkAt(h, last, k);
      MembersWithout(ls, c, hashOf, h, k);
      MembersFields(ls, list[..], Without(c, k), hashOf, h);
      ReplaceChain(ls, heads, chains, hashOf, list[..], hash[..], h, Without(c, k), curr);
      chains := chains[h := Without(c, k)];
    }

    /** A full bucket loses its last entry, which stays behind as an orphan slot. */
    method Truncate(h: Bucket, last: int)
      requires Valid() && |chains[h]| >= 2 && last == chains[h][|chains[h]| - 2]
      modifies list, this`chains
      ensures Valid() && chains == old(chains)[h := Without(old(chains[h]), |old(chains[h])| - 1)]
      ensures forall s :: 0 <= s < SLOTS ==> SameButNext(list[s], old(list[s]))
    {
      hide MembersOk;
      ghost var c, ls, heads := chains[h], list[..], hash[..];
      ghost var k := |c| - 1;
      assert ChainOk(ls, heads[h], c, hashOf, h);
      assert LinkIs(ls, c, k - 1);
      assert c[k - 1] in c;
      CutTail(ls, heads[h], c);
      list[last] := list[last].(next := NULL);
      MembersWithout(ls, c, hashOf, h, k);
      MembersFields(ls, list[..], Without(c, k), hashOf, h);
      OneChain(ls, heads, chains, hashOf, h, c[k - 1]);
      ReplaceChain(ls, heads, chains, hashOf, list[..], heads, h, Without(c, k), c[k - 1]);
      chains := chains[h := Without(c, k)];
    }

    /** remove_oldest on the bucket of slot s: unlinks it if it is there. An orphan slot is not. */
    method RemoveOldest(h: Bucket, s: nat)
      requires Valid() && s < SLOTS
      modifies list, hash, this`chains
      ensures Valid() && chains == old(chains)[h := Minus(old(chains[h]), s)]
      ensures forall t :: 0 <= t < SLOTS ==> SameButNext(list[t], old(list[t]))
    {
      hide MembersOk;
      ghost var c, ls, heads := chains[h], list[..], hash[..];
      assert ChainOk(ls, heads[h], c, hashOf, h);
      var x, last := hash[h], NULL;
      ghost var k := 0;
      while x != NULL && x != s
        invariant k <= |c| && x == (if k < |c| then c[k] else NULL)
        invariant last == if k > 0 then c[k - 1] else NULL
        invariant s !in c[..k]
        decreases |c| - k
      {
        assert LinkIs(ls, c, k);
        last := x;
        x := list[x].next;
        k := k + 1;
      }
      if x == NULL {
        assert c[..k] == c;
        assert chains[h := c] == chains;
        return;
      }
      MinusAt(c, s, k);
      UnlinkAt(h, last, k);
      MembersWithout(ls, c, hashOf, h, k);
      MembersFields(ls, list[..], Without(c, k), hashOf, h);
      assert c[k] in c;
      OneChain(ls, heads, chains, hashOf, h, s);
      ReplaceChain(ls, heads, chains, hashOf, list[..], hash[..], h, Without(c, k), s);
      chains := chains[h := Without(c, k)];
    }

    /** remove_oldest with the local pointer as the head: an unused slot is not behind it. */
    method RemoveFromLocal(h: Bucket, from: int, s: nat, ghost p: nat)
      requires Valid() && s < SLOTS && list[s].saddr == 0
      requires from != NULL ==> p < |chains[h]| && from == chains[h][p]
    {
      hide MembersOk;
      ghost var c := chains[h];
      assert ChainOk(list[..], hash[..][h], c, hashOf, h);
      var x := from;
      ghost var k := p;
      while x != NULL && x != s
        invariant x != NULL ==> k < |c| && x == c[k]
        decreases |c| - k, x != NULL
      {
        assert LinkIs(list[..], c, k);
        x := list[x].next;
        k := k + 1;
      }
      if x != NULL {
        assert s in c;
        OneChain(list[..], hash[..], chains, hashOf, h, s);
        assert false;
      }
    }

    /** Linking the reused slot in at the head of bucket h with its new source. */
    method LinkIn(h: Bucket, s: nat, e: Host)
      requires Valid() && s < SLOTS && e.saddr != 0 && hashOf(e.saddr) == h && |chains[h]| < LONGEST
      requires Unlinked(chains, s) && NoSource(list[..], chains[h], e.saddr)
      modifies list, hash, this`chains
      ensures Valid() && chains == old(chains)[h := [s] + old(chains[h])]
      ensures list[s] == e.(next := old(hash[h])) && forall t :: 0 <= t < SLOTS && t != s ==> list[t] == old(list[t])
    {
      hide MembersOk;
      ghost var c, ls, heads := chains[h], list[..], hash[..];
      assert ChainOk(ls, heads[h], c, hashOf, h);
      var entry := e.(next := hash[h]);
      LinkHead(ls, heads[h], c, s, entry);
      list[s] := entry;
      hash[h] := s;
      MembersCons(ls, list[..], c, hashOf, h, s);
      ReplaceChain(ls, heads, chains, hashOf, list[..], hash[..], h, [s] + c, s);
      chains := chains[h := [s] + c];
    }

    /** is_portscan, with port_in_list. */
    method IsPortscan(s: nat, p: Packet, info: Info, now: int) returns (b: bool)
      requires Valid() && s < SLOTS
      modifies list
      ensures Valid()
      ensures forall t :: 0 <= t < SLOTS && t != s ==> list[t] == old(list[t])
      ensures list[s] == Noted(old(list[s]), p, info, now)
      ensures b <==>
        Fresh(old(list[s]), p) && (old(list[s]).weight >= info.threshold || list[s].weight >= info.threshold)
    {
      ghost var ls := list[..];
      var e := list[s];
      for i := 0 to |e.ports|
        invariant forall j :: 0 <= j < i ==> e.ports[j] != Port(p.proto, p.dest)
      {
        if e.ports[i].proto == p.proto && e.ports[i].number == p.dest { return false; }
      }
      if p.proto == TCP && (p.ack || p.rst) { return false; }
      list[s] := list[s].(timestamp := now);
      FieldsKeepValid(ls, list[..], hash[..], chains, hashOf);
      if e.weight >= info.threshold { return true; }
      list[s] := list[s].(weight := (list[s].weight as int + PortWeight(info, p.dest)) % 256);
      FieldsKeepValid(ls, list[..], hash[..], chains, hashOf);
      if list[s].weight >= info.threshold { return true; }
      if |list[s].ports| < MAXPORTS {
        list[s] := list[s].(ports := list[s].ports + [Port(p.proto, p.dest)]);
        FieldsKeepValid(ls, list[..], hash[..], chains, hashOf);
      }
      return false;
    }

    /** The next ring slot leaves whichever chain it is in. */
    method Release(h: Bucket, last: int, ghost q: nat)
      requires Valid()
      requires last == NULL || (q < |chains[h]| && last == chains[h][q])
      modifies list, hash, this`chains
      ensures Valid()
      ensures Taken(old(chains), chains, index) && Kept(old(list[..]), list[..], NULL)
    {
      assert |chains| == BUCKETS && |list[..]| == SLOTS;
      hide AllOk, ChainOk, Minus;
      ghost var before, ls, heads := chains, list[..], hash[..];
      if list[index].saddr != 0 {
        RemoveOldest(hashOf(list[index].saddr), index);
        RemovedOne(ls, heads, before, chains, hashOf, index);
      } else {
        RemoveFromLocal(h, last, index, q);
        NotLinked(ls, heads, chains, hashOf, index);
      }
    }

    /** A full bucket loses its last entry. */
    method Shorten(h: Bucket, count: nat, last: int, ghost saddr: Word)
      requires Valid() && saddr != 0 && NoSource(list[..], chains[h], saddr)
      requires last == NULL || (|chains[h]| >= 2 && last == chains[h][|chains[h]| - 2])
      requires |chains[h]| >= LONGEST <==> (count >= LONGEST && last != NULL)
      modifies list, this`chains
      ensures Valid() && chains == old(chains)[h := Trim(old(chains[h]))] && |chains[h]| < LONGEST
      ensures NoSource(list[..], chains[h], saddr) && Kept(old(list[..]), list[..], NULL)
    {
      assert |list[..]| == SLOTS;
      hide AllOk, ChainOk, NoSource, Trim, Distinct;
      ghost var c := chains[h];
      ChainSlots(list[..], hash[..], chains, hashOf, h);
      TrimIs(c);
      if count >= LONGEST && last != NULL {
        NoSourceWithout(list[..], c, |c| - 1, saddr);
        Truncate(h, last);
        NoSourceFields(old(list[..]), list[..], chains[h], saddr);
      }
    }

    /** A source without an entry takes the next ring slot, from whichever chain that is in, and goes to
        the head of its bucket, which loses its last entry first when it is full. */
    method Admit(h: Bucket, count: nat, last: int, p: Packet, info: Info, now: int)
      requires Valid() && p.saddr != 0 && h == hashOf(p.saddr) && NoSource(list[..], chains[h], p.saddr)
      requires last == NULL || (|chains[h]| >= 2 && last == chains[h][|chains[h]| - 2])
      requires |chains[h]| >= LONGEST <==> (count >= LONGEST && last != NULL)
      modifies this, list, hash
      ensures Valid() && index == (old(index) + 1) % SLOTS
      ensures Reused(old(chains)[h := Trim(old(chains[h]))], chains, h, old(index))
      ensures NewEntry(list[old(index)], p, info, now) && Kept(old(list[..]), list[..], old(index))
    {
      hide Kept, ChainOk, Minus, NoSource, Reused, Trim, SameButNext, Distinct, SourceAt, Taken;
      assert |chains| == BUCKETS && |list[..]| == SLOTS;
      hide AllOk;
      ghost var c, s := chains[h], index;
      ghost var q := if |c| >= 2 then |c| - 2 else 0;
      TrimIs(c);
      Shorten(h, count, last, p.saddr);
      ghost var before, ls := chains, list[..];
      Release(h, last, q);
      NoSourceMinus(ls, list[..], before[h], s, p.saddr);
      TakenAt(before, chains, s, h);
      KeptTwice(old(list[..]), ls, list[..], s);
      ghost var between, ls' := chains, list[..];
      var slot := index;
      index := index + 1;
      if index >= SLOTS { index := 0; }
      LinkIn(h, slot, Host(NULL, p.saddr, now, PortWeight(info, p.dest) % 256, [Port(p.proto, p.dest)]));
      ReusedIs(before, between, chains, h, s);
      KeptLinked(ls', list[..], s);
      KeptTwice(old(list[..]), ls', list[..], s);
    }

    /** handle_packet4. A known and recent source only has its own entry changed. Otherwise an outdated
        entry is dropped, and the source is admitted anew unless the packet is a TCP acknowledgement. */
    method HandlePacket4(p: Packet, info: Info, now: int) returns (matched: bool)
      requires Valid() && p.saddr != 0
      modifies this, list, hash
      ensures Valid()
      ensures var h, ls := hashOf(p.saddr), old(list[..]);
        var c := old(chains[h]);
        var k := Find(ls, c, p.saddr);
        if k < |c| && ls[c[k]].timestamp <= now <= ls[c[k]].timestamp + info.delay then
          && chains == old(chains) && index == old(index)
          && list[..] == ls[c[k] := Noted(ls[c[k]], p, info, now)]
          && (matched <==>
            Fresh(ls[c[k]], p) && (ls[c[k]].weight >= info.threshold || list[c[k]].weight >= info.threshold))
        else if p.proto == TCP && p.ack then
          && !matched && index == old(index)
          && chains == old(chains)[h := if k < |c| then Without(c, k) else c]
          && Kept(Emptied(ls, c, k), list[..], NULL)
        else
          && !matched && index == (old(index) + 1) % SLOTS
          && Reused(old(chains)[h := MakeRoom(c, k)], chains, h, old(index))
          && NewEntry(list[old(index)], p, info, now) && Kept(Emptied(ls, c, k), list[..], old(index))
    {
      hide Kept, Emptied, ChainOk, Minus, Find, Noted, Reused, NoSource, NewEntry;
      assert |chains| == BUCKETS && |list[..]| == SLOTS;
      hide AllOk;
      var h := hashOf(p.saddr);
      var curr, last, count := Search(h, p.saddr);
      ghost var c, k := chains[h], count;
      ChainSlots(list[..], hash[..], chains, hashOf, h);
      if curr != NULL {
        if Recent(list[curr], info, now) {
          matched := IsPortscan(curr, p, info, now);
          return;
        }
        NoSourceUnlinked(list[..], hash[..], chains, hashOf, h, k);
        Expire(h, curr, last, k);
        KeptSources(old(list[..]), list[..], c, k);
        NoSourceFields(old(list[..]), list[..], chains[h], p.saddr);
        last := NULL;
      } else {
        NoSourceFound(list[..], c, p.saddr);
        KeptAll(list[..], c, k);
        assert chains == old(chains)[h := c];
      }
      ghost var ls := list[..];
      if p.proto == TCP && p.ack {
        return false;
      }
      ghost var s := index;
      RoomMade(old(chains), chains, h, c, k);
      Admit(h, count, last, p, info, now);
      KeptTwice(Emptied(old(list[..]), c, k), ls, list[..], s);
      matched := false;
    }
  }

  lemma {:induction false} MembersCons(ls: seq<Host>, ls': seq<Host>, c: seq<nat>, hashOf: AddrHash, h: Bucket, s: nat)
    requires MembersOk(ls, c, hashOf, h) && Distinct(c) && s !in c && s < |ls'| == |ls|
    requires forall t :: 0 <= t < |ls| && t != s ==> ls'[t] == ls[t]
    requires ls'[s].saddr != 0 && hashOf(ls'[s].saddr) == h
    requires forall t :: t in c ==> SourceAt(ls, t) != ls'[s].saddr
    ensures MembersOk(ls', [s] + c, hashOf, h) && Distinct([s] + c)
  {
    var d := [s] + c;
    forall k | 0 <= k < |d| ensures MemberOk(ls', d[k], hashOf, h) {
      if k > 0 {
        assert MemberOk(ls, c[k - 1], hashOf, h) && c[k - 1] in c;
      }
    }
    forall j, k | 0 <= j < k < |d| ensures SourceAt(ls', d[j]) != SourceAt(ls', d[k]) && d[j] != d[k] {
      assert MemberOk(ls, c[k - 1], hashOf, h) && c[k - 1] in c;
      if j > 0 {
        assert MemberOk(ls, c[j - 1], hashOf, h) && c[j - 1] in c;
        assert SourceAt(ls, c[j - 1]) != SourceAt(ls, c[k - 1]);
      }
    }
  }

  /** A port not yet remembered, not from a packet that may answer an outgoing connection. */
  predicate Fresh(e: Host, p: Packet) {
    Port(p.proto, p.dest) !in e.ports && !(p.proto == TCP && (p.ack || p.rst))
  }

  function PortWeight(info: Info, dest: nat): nat {
    if dest < 1024 then info.low else info.high
  }

  /** A known source's entry after a packet: the weight is eight bits wide. */
  function Noted(e: Host, p: Packet, info: Info, now: int): Host {
    if !Fresh(e, p) then e
    else if e.weight >= info.threshold then e.(timestamp := now)
    else
      var w := (e.weight as int + if p.dest < 1024 then info.low else info.high) % 256;
      e.(timestamp := now, weight := w,
         ports := if w < info.threshold && |e.ports| < MAXPORTS then e.ports + [Port(p.proto, p.dest)] else e.ports)
  }

  /** Not older than the limit, and not from the future. */
  predicate Recent(e: Host, info: Info, now: int) {
    0 <= now - e.timestamp <= info.delay
  }

  /** Equal but for the chain pointer. */
  predicate SameButNext(a: Host, b: Host) {
    a == b.(next := a.next)
  }

  /** Fields other than the pointers do not matter for the links. */
  lemma {:induction false} ChainFields(ls: seq<Host>, ls': seq<Host>, head: int, c: seq<nat>)
    requires ChainIs(ls, head, c) && |ls'| == |ls|
    requires forall s :: 0 <= s < |ls| ==> ls'[s].next == ls[s].next
    ensures ChainIs(ls', head, c)
  {
    forall k | 0 <= k < |c| ensures LinkIs(ls', c, k) {
      assert LinkIs(ls, c, k);
    }
  }

  /** Pointers do not matter for the members. */
  lemma {:induction false} MembersFields(ls: seq<Host>, ls': seq<Host>, c: seq<nat>, hashOf: AddrHash, h: Bucket)
    requires MembersOk(ls, c, hashOf, h) && |ls'| == |ls|
    requires forall s :: 0 <= s < |ls| && s in c ==> ls'[s].saddr == ls[s].saddr
    ensures MembersOk(ls', c, hashOf, h)
  {
    forall k | 0 <= k < |c| ensures MemberOk(ls', c[k], hashOf, h) {
      assert MemberOk(ls, c[k], hashOf, h);
    }
    forall j, k | 0 <= j < k < |c| ensures SourceAt(ls', c[j]) != SourceAt(ls', c[k]) {
      assert MemberOk(ls, c[j], hashOf, h) && MemberOk(ls, c[k], hashOf, h);
      assert SourceAt(ls, c[j]) != SourceAt(ls, c[k]);
    }
  }

  lemma {:induction false} FieldsKeepValid(ls: seq<Host>, ls': seq<Host>, heads: seq<int>, chains: seq<seq<nat>>,
                                          hashOf: AddrHash)
    requires AllOk(ls, heads, chains, hashOf) && |ls'| == |ls|
    requires forall s :: 0 <= s < |ls| ==> ls'[s].next == ls[s].next && ls'[s].saddr == ls[s].saddr
    ensures AllOk(ls', heads, chains, hashOf)
  {
    hide ChainIs, MembersOk;
    forall h: Bucket ensures ChainOk(ls', heads[h], chains[h], hashOf, h) {
      assert ChainOk(ls, heads[h], chains[h], hashOf, h);
      ChainFields(ls, ls', heads[h], chains[h]);
      MembersFields(ls, ls', chains[h], hashOf, h);
    }
  }

  lemma {:induction false} ChainSlots(ls: seq<Host>, heads: seq<int>, chains: seq<seq<nat>>, hashOf: AddrHash,
                                      h: Bucket)
    requires AllOk(ls, heads, chains, hashOf)
    ensures forall k :: 0 <= k < |chains[h]| ==> chains[h][k] < SLOTS
    ensures |chains[h]| <= LONGEST
  {
    hide ChainIs, MembersOk;
    assert ChainOk(ls, heads[h], chains[h], hashOf, h);
    InsideSlots(ls, heads[h], chains[h], hashOf, h);
  }

  // ---------- No entry for a source ----------

  lemma {:induction false} NoSourceFound(ls: seq<Host>, c: seq<nat>, a: Word)
    requires Find(ls, c, a) == |c|
    ensures NoSource(ls, c, a)
  {
  }

  lemma {:induction false} NoSourceUnlinked(ls: seq<Host>, heads: seq<int>, chains: seq<seq<nat>>, hashOf: AddrHash,
                                          h: Bucket, k: nat)
    requires AllOk(ls, heads, chains, hashOf) && k < |chains[h]|
    ensures NoSource(ls, Without(chains[h], k), SourceAt(ls, chains[h][k]))
  {
    assert ChainOk(ls, heads[h], chains[h], hashOf, h);
    MembersWithout(ls, chains[h], hashOf, h, k);
  }

  lemma {:induction false} NoSourceWithout(ls: seq<Host>, c: seq<nat>, k: nat, a: Word)
    requires NoSource(ls, c, a) && k < |c|
    ensures NoSource(ls, Without(c, k), a)
  {
    forall t | t in Without(c, k) ensures SourceAt(ls, t) != a {
      assert t in c;
    }
  }

  lemma {:induction false} NoSourceFields(ls: seq<Host>, ls': seq<Host>, c: seq<nat>, a: Word)
    requires NoSource(ls, c, a) && |ls'| == |ls| && a != 0
    requires forall t :: 0 <= t < |ls| ==> ls'[t].saddr == ls[t].saddr || ls'[t].saddr == 0
    ensures NoSource(ls', c, a)
  {
    forall t | t in c ensures SourceAt(ls', t) != a {
      assert SourceAt(ls, t) != a;
    }
  }

  lemma {:induction false} NoSourceMinus(ls: seq<Host>, ls': seq<Host>, c: seq<nat>, s: nat, a: Word)
    requires NoSource(ls, c, a) && |ls'| == |ls|
    requires Kept(ls, ls', NULL)
    ensures NoSource(ls', Minus(c, s), a)
  {
    MinusInside(c, s);
    forall t | t in Minus(c, s) ensures SourceAt(ls', t) != a {
      assert SourceAt(ls, t) != a;
    }
  }

  // ---------- Taking a ring slot out of whichever chain it is in ----------

  /** An unused slot is in no chain. */
  lemma {:induction false} NotLinked(ls: seq<Host>, heads: seq<int>, chains: seq<seq<nat>>, hashOf: AddrHash, s: nat)
    requires AllOk(ls, heads, chains, hashOf) && s < SLOTS && ls[s].saddr == 0
    ensures Taken(chains, chains, s)
  {
    hide ChainOk;
    forall g: Bucket ensures s !in chains[g] && chains[g] == Minus(chains[g], s) {
      if s in chains[g] {
        OneChain(ls, heads, chains, hashOf, g, s);
      }
    }
  }

  /** Taking slot s out of the bucket of its source takes it out of every chain. */
  lemma {:induction false} RemovedOne(ls: seq<Host>, heads: seq<int>, before: seq<seq<nat>>, after: seq<seq<nat>>,
                                      hashOf: AddrHash, s: nat)
    requires AllOk(ls, heads, before, hashOf) && s < SLOTS
    requires after == before[hashOf(ls[s].saddr) := Minus(before[hashOf(ls[s].saddr)], s)]
    ensures Taken(before, after, s)
  {
    hide ChainOk;
    forall g: Bucket ensures s !in after[g] && after[g] == Minus(before[g], s) {
      if s in before[g] {
        OneChain(ls, heads, before, hashOf, g, s);
        ChainDistinct(ls, heads[g], before[g], hashOf, g);
        MinusInside(before[g], s);
      } else {
        MinusInside(before[g], s);
      }
    }
  }

  lemma {:induction false} ReusedIs(before: seq<seq<nat>>, between: seq<seq<nat>>, after: seq<seq<nat>>, h: Bucket,
                                    s: nat)
    requires |before| == |between| == BUCKETS && after == between[h := [s] + between[h]]
    requires Taken(before, between, s)
    ensures Reused(before, after, h, s)
  {
  }

  lemma {:induction false} TakenAt(before: seq<seq<nat>>, after: seq<seq<nat>>, s: nat, h: Bucket)
    requires Taken(before, after, s)
    ensures Unlinked(after, s) && after[h] == Minus(before[h], s) && |after[h]| <= |before[h]|
  {
    MinusInside(before[h], s);
  }

  lemma {:induction false} TrimIs(c: seq<nat>)
    ensures |c| >= LONGEST ==> Trim(c) == Without(c, |c| - 1)
    ensures |c| < LONGEST ==> Trim(c) == c
  {
  }

  lemma {:induction false} ChainDistinct(ls: seq<Host>, head: int, c: seq<nat>, hashOf: AddrHash, h: Bucket)
    requires ChainOk(ls, head, c, hashOf, h)
    ensures Distinct(c)
  {
  }

  lemma {:induction false} FindIs(ls: seq<Host>, c: seq<nat>, a: Word, k: nat)
    requires k <= |c| && (forall j :: 0 <= j < k ==> SourceAt(ls, c[j]) != a)
    requires k < |c| ==> SourceAt(ls, c[k]) == a || k == 0
    ensures k == |c| || SourceAt(ls, c[k]) == a ==> Find(ls, c, a) == k
  {
    if k > 0 {
      assert SourceAt(ls, c[0]) != a;
      if k == |c| || SourceAt(ls, c[k]) == a {
        FindIs(ls, c[1..], a, k - 1);
      }
    }
  }
}
