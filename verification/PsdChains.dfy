/** Singly linked hash chains over the slots of a fixed array, as used by xt_psd.c. A pointer is a
    slot number, or -1 for NULL. */
module PsdChains {
  import opened Basics
  import opened Bytes

  datatype Port = Port(proto: Byte, number: nat)

  /** One slot: struct host4. The remembered ports are a sequence of at most MAXPORTS entries. */
  datatype Host = Host(next: int, saddr: Word, timestamp: int, weight: Byte, ports: seq<Port>)

  const NULL: int := -1
  const SLOTS: nat := 256
  const BUCKETS: nat := 512
  /** HASH_MAX */
  const LONGEST: nat := 16

  type Bucket = b: nat | b < 512
  /** The address hash is a parameter: nothing below depends on which function it is. */
  type AddrHash = Word -> Bucket

  /** Slots c, in order, are what one finds from head on. */
  ghost predicate ChainIs(ls: seq<Host>, head: int, c: seq<nat>) {
    && head == (if c == [] then NULL else c[0])
    && forall k :: 0 <= k < |c| ==> LinkIs(ls, c, k)
  }

  ghost predicate LinkIs(ls: seq<Host>, c: seq<nat>, k: nat)
    requires k < |c|
  {
    c[k] < |ls| && ls[c[k]].next == if k + 1 < |c| then c[k + 1] else NULL
  }

  /** The members of a chain are in use, belong to the bucket, and have different sources. */
  ghost predicate MembersOk(ls: seq<Host>, c: seq<nat>, hashOf: AddrHash, h: Bucket) {
    && (forall k :: 0 <= k < |c| ==> MemberOk(ls, c[k], hashOf, h))
    && (forall j, k :: 0 <= j < k < |c| ==> SourceAt(ls, c[j]) != SourceAt(ls, c[k]))
  }

  ghost predicate MemberOk(ls: seq<Host>, s: nat, hashOf: AddrHash, h: Bucket) {
    s < |ls| && ls[s].saddr != 0 && hashOf(ls[s].saddr) == h
  }

  ghost function SourceAt(ls: seq<Host>, s: nat): Word {
    if s < |ls| then ls[s].saddr else 0
  }

  ghost predicate ChainOk(ls: seq<Host>, head: int, c: seq<nat>, hashOf: AddrHash, h: Bucket) {
    ChainIs(ls, head, c) && Distinct(c) && MembersOk(ls, c, hashOf, h) && |c| <= LONGEST
  }

  /** Slots outside a chain may change. */
  lemma {:induction false} ChainFrame(ls: seq<Host>, ls': seq<Host>, head: int, c: seq<nat>, hashOf: AddrHash,
                                      h: Bucket)
    requires ChainOk(ls, head, c, hashOf, h) && |ls'| == |ls|
    requires forall k :: 0 <= k < |c| ==> ls'[c[k]] == ls[c[k]]
    ensures ChainOk(ls', head, c, hashOf, h)
  {
    forall k | 0 <= k < |c| ensures LinkIs(ls', c, k) && MemberOk(ls', c[k], hashOf, h) {
      assert LinkIs(ls, c, k) && MemberOk(ls, c[k], hashOf, h);
    }
    forall j, k | 0 <= j < k < |c| ensures SourceAt(ls', c[j]) != SourceAt(ls', c[k]) {
      assert SourceAt(ls, c[j]) != SourceAt(ls, c[k]);
    }
  }

  /** Any chain made of some members, in order, still has good members. */
  lemma {:induction false} MembersWithout(ls: seq<Host>, c: seq<nat>, hashOf: AddrHash, h: Bucket, k: nat)
    requires MembersOk(ls, c, hashOf, h) && Distinct(c) && k < |c|
    ensures MembersOk(ls, Without(c, k), hashOf, h) && Distinct(Without(c, k))
    ensures c[k] !in Without(c, k)
    ensures forall s :: s in Without(c, k) ==> SourceAt(ls, s) != SourceAt(ls, c[k])
  {
    hide MemberOk, SourceAt;
    var d := Without(c, k);
    forall x | 0 <= x < |d| ensures MemberOk(ls, d[x], hashOf, h) && d[x] == c[if x < k then x else x + 1] {
    }
    forall x, y | 0 <= x < y < |d| ensures SourceAt(ls, d[x]) != SourceAt(ls, d[y]) && d[x] != d[y] {
      var x', y' := if x < k then x else x + 1, if y < k then y else y + 1;
      assert c[x'] == d[x] && c[y'] == d[y];
    }
  }

  /** ht_unlink in the middle: the predecessor's pointer skips slot c[k]. */
  lemma {:induction false} UnlinkMiddle(ls: seq<Host>, head: int, c: seq<nat>, k: nat)
    requires ChainIs(ls, head, c) && Distinct(c) && 0 < k < |c| && c[k - 1] < |ls| && c[k] < |ls|
    ensures ChainIs(ls[c[k - 1] := ls[c[k - 1]].(next := ls[c[k]].next)], head, Without(c, k))
  {
    var d := Without(c, k);
    var ls' := ls[c[k - 1] := ls[c[k - 1]].(next := ls[c[k]].next)];
    assert LinkIs(ls, c, k);
    forall x | 0 <= x < |d| ensures LinkIs(ls', d, x) {
      if x < k - 1 {
        assert LinkIs(ls, c, x);
      } else if x >= k {
        assert LinkIs(ls, c, x + 1);
      }
    }
  }

  /** ht_unlink at the head. */
  lemma {:induction false} UnlinkHead(ls: seq<Host>, head: int, c: seq<nat>)
    requires ChainIs(ls, head, c) && c != [] && c[0] < |ls|
    ensures ChainIs(ls, ls[c[0]].next, Without(c, 0))
  {
    var d := Without(c, 0);
    assert LinkIs(ls, c, 0);
    forall x | 0 <= x < |d| ensures LinkIs(ls, d, x) {
      assert LinkIs(ls, c, x + 1);
    }
  }

  /** Cutting the chain behind its last but one slot drops the last. */
  lemma {:induction false} CutTail(ls: seq<Host>, head: int, c: seq<nat>)
    requires ChainIs(ls, head, c) && Distinct(c) && |c| >= 2 && c[|c| - 2] < |ls|
    ensures ChainIs(ls[c[|c| - 2] := ls[c[|c| - 2]].(next := NULL)], head, Without(c, |c| - 1))
  {
    var d := Without(c, |c| - 1);
    var ls' := ls[c[|c| - 2] := ls[c[|c| - 2]].(next := NULL)];
    forall x | 0 <= x < |d| ensures LinkIs(ls', d, x) {
      assert LinkIs(ls, c, x);
    }
  }

  /** Linking a slot in at the head. */
  lemma {:induction false} LinkHead(ls: seq<Host>, head: int, c: seq<nat>, s: nat, e: Host)
    requires ChainIs(ls, head, c) && s !in c && s < |ls| && e.next == head
    ensures ChainIs(ls[s := e], s, [s] + c)
  {
    var d, ls' := [s] + c, ls[s := e];
    forall x | 0 <= x < |d| ensures LinkIs(ls', d, x) {
      if x > 0 {
        assert LinkIs(ls, c, x - 1);
      }
    }
  }
}
