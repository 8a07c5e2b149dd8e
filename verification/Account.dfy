/** The traffic counters of xt_ACCOUNT.c: a table of one, two or three levels, whose pages are allocated when
    first needed, is a map from the addresses of one network to counters. */
module Account {
  import opened Basics
  import opened Bytes
  import opened Cidr

  /** struct ipt_acc_ip; the counters are not wide enough to wrap here. */
  datatype Counter = Counter(srcPackets: nat, srcBytes: nat, dstPackets: nat, dstBytes: nat)

  const ZERO: Counter := Counter(0, 0, 0, 0)

  predicate Seen(c: Counter) {
    c.srcPackets != 0 || c.dstPackets != 0
  }

  /** One packet counted at its source, its destination, or both. */
  function Bump(c: Counter, src: bool, dst: bool, size: nat): (r: Counter)
    ensures r.srcPackets == c.srcPackets + (if src then 1 else 0)
    ensures r.srcBytes == c.srcBytes + (if src then size else 0)
    ensures r.dstPackets == c.dstPackets + (if dst then 1 else 0)
    ensures r.dstBytes == c.dstBytes + (if dst then size else 0)
  {
    var a := if src then c.(srcPackets := c.srcPackets + 1, srcBytes := c.srcBytes + size) else c;
    if dst then a.(dstPackets := a.dstPackets + 1, dstBytes := a.dstBytes + size) else a
  }

  // ---------- Networks ----------

  /** x without its k low bits. */
  function Top(x: nat, k: nat): nat {
    if k == 0 then x else Top(x / 2, k - 1)
  }

  /** (ip & netmask) == (net & netmask), for a mask that leaves `bits` low bits open. */
  predicate InNet(net: nat, bits: nat, ip: nat) {
    Top(net, bits) == Top(ip, bits)
  }

  lemma {:induction false} TopMore(a: nat, b: nat, k: nat, m: nat)
    requires k <= m && Top(a, k) == Top(b, k)
    ensures Top(a, m) == Top(b, m)
    decreases k
  {
    if k > 0 {
      TopMore(a / 2, b / 2, k - 1, m - 1);
    }
  }

  lemma {:induction false} TopSum(x: nat, j: nat, k: nat)
    ensures Top(Top(x, j), k) == Top(x, j + k)
    decreases j
  {
    if j > 0 {
      TopSum(x / 2, j - 1, k);
    }
  }

  lemma {:induction false} TopHalf(x: nat, k: nat)
    ensures Top(x, k + 1) == Top(x, k) / 2
    decreases k
  {
    if k > 0 {
      TopHalf(x / 2, k - 1);
    }
  }

  lemma {:induction false} TopByte(x: nat)
    ensures Top(x, 8) == x / 256
  {
    TopHalf(x, 0);
    TopHalf(x, 1);
    TopHalf(x, 2);
    TopHalf(x, 3);
    TopHalf(x, 4);
    TopHalf(x, 5);
    TopHalf(x, 6);
    TopHalf(x, 7);
    hide Top;
    assert Top(x, 4) == x / 16;
  }

  lemma {:induction false} TopBytes(x: nat)
    ensures Top(x, 8) == x / 256 && Top(x, 16) == x / 65536 && Top(x, 24) == x / 16777216
  {
    TopByte(x);
    TopByte(x / 256);
    TopByte(x / 65536);
    TopSum(x, 8, 8);
    TopSum(x, 16, 8);
  }

  // ---------- The table ----------

  /** One page of counters, or a page of pointers to pages, or a page of pointers to such pages. */
  datatype Data =
    | Mask24(p: seq<Counter>)
    | Mask16(m: seq<Option<seq<Counter>>>)
    | Mask8(d: seq<Option<seq<Option<seq<Counter>>>>>)

  predicate Ok24(p: seq<Counter>) {
    |p| == 256
  }

  predicate Ok16(m: seq<Option<seq<Counter>>>) {
    |m| == 256 && forall i :: 0 <= i < 256 && m[i].Some? ==> Ok24(m[i].value)
  }

  predicate Ok8(d: seq<Option<seq<Option<seq<Counter>>>>>) {
    |d| == 256 && forall i :: 0 <= i < 256 && d[i].Some? ==> Ok16(d[i].value)
  }

  predicate Ok(data: Data) {
    match data
    case Mask24(p) => Ok24(p)
    case Mask16(m) => Ok16(m)
    case Mask8(d) => Ok8(d)
  }

  function At24(p: seq<Counter>, x: nat): Counter
    requires Ok24(p)
  {
    p[x % 256]
  }

  function At16(m: seq<Option<seq<Counter>>>, x: nat): Counter
    requires Ok16(m)
  {
    match m[x / 256 % 256]
    case None => ZERO
    case Some(p) => At24(p, x)
  }

  function At8(d: seq<Option<seq<Option<seq<Counter>>>>>, x: nat): Counter
    requires Ok8(d)
  {
    match d[x / 65536 % 256]
    case None => ZERO
    case Some(m) => At16(m, x)
  }

  /** The counters of address x. */
  function At(data: Data, x: nat): Counter
    requires Ok(data)
  {
    match data
    case Mask24(p) => At24(p, x)
    case Mask16(m) => At16(m, x)
    case Mask8(d) => At8(d, x)
  }

  /** How many addresses a table of this depth tells apart, and by how many low bits. */
  function Modulus(data: Data): (n: nat)
    ensures n > 0
  {
    match data
    case Mask24(_) => 256
    case Mask16(_) => 65536
    case Mask8(_) => 16777216
  }

  function Width(data: Data): nat {
    match data
    case Mask24(_) => 8
    case Mask16(_) => 16
    case Mask8(_) => 24
  }

  lemma {:induction false} ModUnique(x: nat, n: nat, q: nat, r: nat)
    requires n > 0 && x == n * q + r && r < n
    ensures x % n == r && x / n == q
  {
    var q', r' := x / n, x % n;
    assert x == n * q' + r';
    if q' < q { MulGrows(n, q', q); }
    if q < q' { MulGrows(n, q, q'); }
  }

  lemma {:induction false} MulGrows(n: nat, a: nat, b: nat)
    requires a < b
    ensures n * a + n <= n * b
  {
    var k := b - a - 1;
    assert b == a + 1 + k && n * (a + 1 + k) == n * a + n + n * k;
  }

  /** x by its part below a and the b values above that. */
  lemma {:induction false} SplitBy(x: nat, a: nat, b: nat)
    requires a > 0 && b > 0
    ensures a * b > 0 && x % (a * b) == a * (x / a % b) + x % a
  {
    var h, l, q := x / a % b, x % a, x / a / b;
    DivMod(x, a);
    DivMod(x / a, b);
    Distribute(a, b, q, h);
    MulGrows(a, h, b);
    ModUnique(x, a * b, q, a * h + l);
  }

  lemma {:induction false} DivMod(x: nat, a: nat)
    requires a > 0
    ensures x == a * (x / a) + x % a && x % a < a
  {
  }

  lemma {:induction false} Distribute(a: nat, b: nat, q: nat, h: nat)
    ensures a * (b * q + h) == (a * b) * q + a * h
  {
  }

  lemma {:induction false} SplitSame(x: nat, y: nat, a: nat, b: nat)
    requires a > 0 && b > 0
    ensures a * b > 0 && (x % (a * b) == y % (a * b) <==> x % a == y % a && x / a % b == y / a % b)
  {
    SplitBy(x, a, b);
    SplitBy(y, a, b);
    ModUnique(x % (a * b), a, x / a % b, x % a);
    ModUnique(y % (a * b), a, y / a % b, y % a);
  }

  lemma {:induction false} SplitMod(x: nat, y: nat)
    ensures x % 65536 == y % 65536 <==> x % 256 == y % 256 && x / 256 % 256 == y / 256 % 256
    ensures x % 16777216 == y % 16777216 <==> x % 65536 == y % 65536 && x / 65536 % 256 == y / 65536 % 256
  {
    SplitSame(x, y, 256, 256);
    SplitSame(x, y, 65536, 256);
  }

  /** Only what is the same modulo the modulus is the same slot. */
  lemma {:induction false} AtSame(data: Data, x: nat, y: nat)
    requires Ok(data) && x % Modulus(data) == y % Modulus(data)
    ensures At(data, x) == At(data, y)
  {
    SplitMod(x, y);
  }

  /** Two addresses of the network never share a slot. */
  lemma {:induction false} SlotsApart(data: Data, net: nat, bits: nat, x: nat, y: nat)
    requires bits <= Width(data) && InNet(net, bits, x) && InNet(net, bits, y) && x % Modulus(data) == y % Modulus(data)
    ensures x == y
  {
    TopMore(x, y, bits, Width(data));
    TopBytes(x);
    TopBytes(y);
    hide Top;
    assert x == Modulus(data) * (x / Modulus(data)) + x % Modulus(data);
    assert y == Modulus(data) * (y / Modulus(data)) + y % Modulus(data);
  }

  // ---------- Counting a packet ----------

  /** How many addresses a packet is the first to show: hits on slots with nothing in them. */
  function NewItems(atSrc: Counter, atDst: Counter, src: bool, dst: bool, same: bool): nat {
    (if src && !Seen(atSrc) then 1 else 0) + (if dst && !Seen(atDst) && !(src && same) then 1 else 0)
  }

  /** All slots after one packet. */
  ghost predicate Bumped24(p: seq<Counter>, p': seq<Counter>, s: bool, src: Word, d: bool, dst: Word, size: nat) {
    && Ok24(p) && Ok24(p')
    && forall x: nat :: At24(p', x) == Bump(At24(p, x), s && x % 256 == src % 256, d && x % 256 == dst % 256, size)
  }

  ghost predicate Bumped16(m: seq<Option<seq<Counter>>>, m': seq<Option<seq<Counter>>>, s: bool, src: Word, d: bool,
                           dst: Word, size: nat) {
    && Ok16(m) && Ok16(m')
    && forall x: nat ::
      At16(m', x) == Bump(At16(m, x), s && x % 65536 == src % 65536, d && x % 65536 == dst % 65536, size)
  }

  ghost predicate Bumped(data: Data, data': Data, s: bool, src: Word, d: bool, dst: Word, size: nat) {
    && Ok(data) && Ok(data') && Modulus(data') == Modulus(data)
    && forall x: nat :: BumpedAt(data, data', s, src, d, dst, size, x)
  }

  ghost predicate BumpedAt(data: Data, data': Data, s: bool, src: Word, d: bool, dst: Word, size: nat, x: nat)
    requires Ok(data) && Ok(data')
  {
    var m := Modulus(data);
    At(data', x) == Bump(At(data, x), s && x % m == src % m, d && x % m == dst % m, size)
  }

  /** ipt_acc_depth0_insert, for a mask that is not empty. */
  method Depth0Insert(p: seq<Counter>, net: Word, bits: nat, src: Word, dst: Word, size: nat, itemcount: nat)
    returns (after: seq<Counter>, items: nat)
    requires Ok24(p)
    ensures Ok24(after)
    ensures Bumped24(p, after, InNet(net, bits, src), src, InNet(net, bits, dst), dst, size)
    ensures items == itemcount + NewItems(At24(p, src), At24(p, dst), InNet(net, bits, src), InNet(net, bits, dst),
      src % 256 == dst % 256)
  {
    hide InNet;
    var isSrc, isDst := InNet(net, bits, src), InNet(net, bits, dst);
    after, items := p, itemcount;
    if !isSrc && !isDst { return; }
    var srcSlot, dstSlot := src % 256, dst % 256;
    var srcNew, dstNew := false, false;
    if isSrc {
      srcNew := !Seen(after[srcSlot]);
      after := after[srcSlot := Bump(after[srcSlot], true, false, size)];
    }
    if isDst {
      dstNew := !Seen(after[dstSlot]);
      after := after[dstSlot := Bump(after[dstSlot], false, true, size)];
    }
    if srcSlot == dstSlot {
      if srcNew || dstNew { items := items + 1; }
    } else {
      if srcNew { items := items + 1; }
      if dstNew { items := items + 1; }
    }
  }

  // ---------- Address 0 ----------

  /** The slot x of a two-level table after one direction of a packet. The other address is passed down as 0,
      which is counted in the slot 0 of the same page if the network holds address 0. */
  function One16(c: Counter, x: nat, ip: Word, toDst: bool, zero: bool, size: nat): Counter {
    var page := x / 256 % 256 == ip / 256 % 256;
    var hit, stray := page && x % 256 == ip % 256, zero && page && x % 256 == 0;
    if toDst then Bump(c, stray, hit, size) else Bump(c, hit, stray, size)
  }

  function Two16(c: Counter, x: nat, src: Word, s: bool, dst: Word, d: bool, zero: bool, size: nat): Counter {
    var c1 := if s then One16(c, x, src, false, zero, size) else c;
    if d then One16(c1, x, dst, true, zero, size) else c1
  }

  /** The same in a three-level table. */
  function One8(c: Counter, x: nat, ip: Word, toDst: bool, zero: bool, size: nat): Counter {
    if x / 65536 % 256 != ip / 65536 % 256 then c
    else if toDst then Two16(c, x, 0, zero, ip, true, zero, size)
    else Two16(c, x, ip, true, 0, zero, zero, size)
  }

  function Two8(c: Counter, x: nat, src: Word, s: bool, dst: Word, d: bool, zero: bool, size: nat): Counter {
    var c1 := if s then One8(c, x, src, false, zero, size) else c;
    if d then One8(c1, x, dst, true, zero, size) else c1
  }

  /** What counting a packet once would make of the slot. */
  function Once(c: Counter, x: nat, src: Word, s: bool, dst: Word, d: bool, m: nat, size: nat): Counter
    requires m > 0
  {
    Bump(c, s && x % m == src % m, d && x % m == dst % m, size)
  }

  lemma {:induction false} NoStray(c: Counter, x: nat, src: Word, s: bool, dst: Word, d: bool, size: nat)
    ensures Two16(c, x, src, s, dst, d, false, size) == Once(c, x, src, s, dst, d, 65536, size)
    ensures Two8(c, x, src, s, dst, d, false, size) == Once(c, x, src, s, dst, d, 16777216, size)
  {
    SplitMod(x, src);
    SplitMod(x, dst);
  }

  /** Where an address of the network is counted astray: in the slot 0 of its page. */
  lemma {:induction false} Stray(src: Word, s: bool, dst: Word, d: bool, size: nat) returns (x: nat)
    requires s || d
    ensures Two16(ZERO, x, src, s, dst, d, true, size) != Once(ZERO, x, src, s, dst, d, 65536, size)
    ensures Two8(ZERO, x, src, s, dst, d, true, size) != Once(ZERO, x, src, s, dst, d, 16777216, size)
  {
    var ip := if s then src else dst;
    x := ip - ip % 256;
    PageStart(ip);
    SplitMod(x, src);
    SplitMod(x, dst);
  }

  lemma {:induction false} PageStart(ip: nat)
    ensures var x := ip - ip % 256; x % 256 == 0 && x / 256 == ip / 256 && x / 65536 == ip / 65536
  {
    var q, r := ip / 256, ip % 256;
    var a, b := q / 256, q % 256;
    SixteenBits(ip - r, a, b, 0);
    SixteenBits(ip, a, b, r);
  }

  lemma {:induction false} SixteenBits(x: nat, a: nat, b: nat, r: nat)
    requires b < 256 && r < 256 && x == 65536 * a + 256 * b + r
    ensures x / 65536 == a && x / 256 == 256 * a + b && x % 256 == r
  {
  }

  /** Packets are counted right in tables of more than one level exactly if the network does not hold address
      0, or the packet is none of the network's. */
  lemma {:induction false} CountedOnceIff(src: Word, s: bool, dst: Word, d: bool, zero: bool, size: nat)
    ensures (forall c: Counter, x: nat ::
      Two16(c, x, src, s, dst, d, zero, size) == Once(c, x, src, s, dst, d, 65536, size)) <==> !(zero && (s || d))
    ensures (forall c: Counter, x: nat ::
      Two8(c, x, src, s, dst, d, zero, size) == Once(c, x, src, s, dst, d, 16777216, size)) <==> !(zero && (s || d))
  {
    if zero && (s || d) {
      var x := Stray(src, s, dst, d, size);
    } else {
      forall c: Counter, x: nat
        ensures Two16(c, x, src, s, dst, d, zero, size) == Once(c, x, src, s, dst, d, 65536, size)
        ensures Two8(c, x, src, s, dst, d, zero, size) == Once(c, x, src, s, dst, d, 16777216, size)
      {
        if zero { BumpNothing(c, size); } else { NoStray(c, x, src, s, dst, d, size); }
      }
    }
  }

  // ---------- Tables of more than one level ----------

  /** One direction of ipt_acc_depth1_insert: the page for `ip` is made if it is not there. */
  method Depth1One(m: seq<Option<seq<Counter>>>, net: Word, bits: nat, ip: Word, toDst: bool, size: nat, itemcount: nat)
    returns (after: seq<Option<seq<Counter>>>, items: nat)
    requires Ok16(m) && InNet(net, bits, ip)
    ensures Ok16(after)
    ensures forall x: nat :: At16(after, x) == One16(At16(m, x), x, ip, toDst, InNet(net, bits, 0), size)
    ensures !InNet(net, bits, 0) ==> items == itemcount + if Seen(At16(m, ip)) then 0 else 1
  {
    hide InNet, Bump;
    var slot := ip / 256 % 256;
    var page := if m[slot].Some? then m[slot].value else seq(256, _ => ZERO);
    var page';
    if toDst {
      page', items := Depth0Insert(page, net, bits, 0, ip, size, itemcount);
    } else {
      page', items := Depth0Insert(page, net, bits, ip, 0, size, itemcount);
    }
    after := m[slot := Some(page')];
    assert At16(m, ip) == At24(page, ip);
    forall x: nat ensures At16(after, x) == One16(At16(m, x), x, ip, toDst, InNet(net, bits, 0), size) {
      BumpNothing(At16(m, x), size);
      if x / 256 % 256 == slot {
        assert At16(m, x) == At24(page, x) && At16(after, x) == At24(page', x);
      }
    }
  }

  lemma {:induction false} BumpNothing(c: Counter, size: nat)
    ensures Bump(c, false, false, size) == c
  {
  }

  /** ipt_acc_depth1_insert */
  method Depth1Insert(m: seq<Option<seq<Counter>>>, net: Word, bits: nat, src: Word, dst: Word, size: nat,
                      itemcount: nat)
    returns (after: seq<Option<seq<Counter>>>, items: nat)
    requires Ok16(m)
    ensures Ok16(after)
    ensures var s, d := InNet(net, bits, src), InNet(net, bits, dst);
      forall x: nat :: At16(after, x) == Two16(At16(m, x), x, src, s, dst, d, InNet(net, bits, 0), size)
    ensures !InNet(net, bits, 0) ==> Bumped16(m, after, InNet(net, bits, src), src, InNet(net, bits, dst), dst, size)
    ensures var s, d := InNet(net, bits, src), InNet(net, bits, dst);
      !InNet(net, bits, 0) ==>
        items == itemcount + NewItems(At16(m, src), At16(m, dst), s, d, src % 65536 == dst % 65536)
  {
    hide InNet, Bump, At16, One16;
    after, items := m, itemcount;
    if InNet(net, bits, src) { after, items := Depth1One(after, net, bits, src, false, size, items); }
    ghost var m1 := after;
    if InNet(net, bits, dst) { after, items := Depth1One(after, net, bits, dst, true, size, items); }
    if !InNet(net, bits, 0) {
      Bumped16Of(m, after, InNet(net, bits, src), src, InNet(net, bits, dst), dst, size);
      Seen16(m, m1, InNet(net, bits, src), src, dst, size);
    }
  }

  lemma {:induction false} Bumped16Of(m: seq<Option<seq<Counter>>>, m': seq<Option<seq<Counter>>>, s: bool, src: Word,
                                      d: bool, dst: Word, size: nat)
    requires Ok16(m) && Ok16(m')
    requires forall x: nat :: At16(m', x) == Two16(At16(m, x), x, src, s, dst, d, false, size)
    ensures Bumped16(m, m', s, src, d, dst, size)
  {
    hide Two16, Two8, At16;
    forall x: nat
      ensures At16(m', x) == Bump(At16(m, x), s && x % 65536 == src % 65536, d && x % 65536 == dst % 65536, size)
    {
      NoStray(At16(m, x), x, src, s, dst, d, size);
    }
  }

  /** Whether the destination has been seen before it is counted. */
  lemma {:induction false} Seen16(m: seq<Option<seq<Counter>>>, m1: seq<Option<seq<Counter>>>, s: bool, src: Word,
                                  dst: Word, size: nat)
    requires Ok16(m) && Ok16(m1)
    requires forall x: nat :: At16(m1, x) == if s then One16(At16(m, x), x, src, false, false, size) else At16(m, x)
    ensures Seen(At16(m1, dst)) <==> Seen(At16(m, dst)) || (s && src % 65536 == dst % 65536)
  {
    hide At16;
    SplitMod(dst, src);
  }

  /** One direction of ipt_acc_depth2_insert. */
  method Depth2One(d: seq<Option<seq<Option<seq<Counter>>>>>, net: Word, bits: nat, ip: Word, toDst: bool, size: nat,
                   itemcount: nat)
    returns (after: seq<Option<seq<Option<seq<Counter>>>>>, items: nat)
    requires Ok8(d) && InNet(net, bits, ip)
    ensures Ok8(after)
    ensures forall x: nat :: At8(after, x) == One8(At8(d, x), x, ip, toDst, InNet(net, bits, 0), size)
    ensures !InNet(net, bits, 0) ==> items == itemcount + if Seen(At8(d, ip)) then 0 else 1
  {
    hide InNet, Bump, Two16, At16;
    var slot := ip / 65536 % 256;
    var page: seq<Option<seq<Counter>>> := if d[slot].Some? then d[slot].value else seq(256, _ => None);
    var page';
    if toDst {
      page', items := Depth1Insert(page, net, bits, 0, ip, size, itemcount);
    } else {
      page', items := Depth1Insert(page, net, bits, ip, 0, size, itemcount);
    }
    after := d[slot := Some(page')];
    SubPage(d, slot, page);
    SubPage(after, slot, page');
    assert At8(d, ip) == At16(page, ip);
  }

  /** The slots of a page of a three-level table; a page that is not there is empty. */
  lemma {:induction false} SubPage(d: seq<Option<seq<Option<seq<Counter>>>>>, slot: nat,
                                   page: seq<Option<seq<Counter>>>)
    requires Ok8(d) && slot < 256 && Ok16(page)
    requires page == if d[slot].Some? then d[slot].value else seq(256, _ => None)
    ensures forall x: nat :: x / 65536 % 256 == slot ==> At8(d, x) == At16(page, x)
  {
  }

  /** ipt_acc_depth2_insert */
  method Depth2Insert(d: seq<Option<seq<Option<seq<Counter>>>>>, net: Word, bits: nat, src: Word, dst: Word,
                      size: nat, itemcount: nat)
    returns (after: seq<Option<seq<Option<seq<Counter>>>>>, items: nat)
    requires Ok8(d)
    ensures Ok8(after)
    ensures var s, t := InNet(net, bits, src), InNet(net, bits, dst);
      forall x: nat :: At8(after, x) == Two8(At8(d, x), x, src, s, dst, t, InNet(net, bits, 0), size)
    ensures !InNet(net, bits, 0) ==>
      Bumped(Mask8(d), Mask8(after), InNet(net, bits, src), src, InNet(net, bits, dst), dst, size)
    ensures var s, t := InNet(net, bits, src), InNet(net, bits, dst);
      !InNet(net, bits, 0) ==>
        items == itemcount + NewItems(At8(d, src), At8(d, dst), s, t, src % 16777216 == dst % 16777216)
  {
    hide InNet, Bump, At8, One8;
    after, items := d, itemcount;
    if InNet(net, bits, src) { after, items := Depth2One(after, net, bits, src, false, size, items); }
    ghost var d1 := after;
    if InNet(net, bits, dst) { after, items := Depth2One(after, net, bits, dst, true, size, items); }
    if !InNet(net, bits, 0) {
      Bumped8Of(d, after, InNet(net, bits, src), src, InNet(net, bits, dst), dst, size);
      Seen8(d, d1, InNet(net, bits, src), src, dst, size);
    }
  }

  lemma {:induction false} Bumped8Of(a: seq<Option<seq<Option<seq<Counter>>>>>,
                                     b: seq<Option<seq<Option<seq<Counter>>>>>, s: bool, src: Word, d: bool,
                                     dst: Word, size: nat)
    requires Ok8(a) && Ok8(b)
    requires forall x: nat :: At8(b, x) == Two8(At8(a, x), x, src, s, dst, d, false, size)
    ensures Bumped(Mask8(a), Mask8(b), s, src, d, dst, size)
  {
    hide Two16, Two8, At8;
    forall x: nat ensures BumpedAt(Mask8(a), Mask8(b), s, src, d, dst, size, x) {
      NoStray(At8(a, x), x, src, s, dst, d, size);
    }
  }

  lemma {:induction false} Seen8(a: seq<Option<seq<Option<seq<Counter>>>>>, b: seq<Option<seq<Option<seq<Counter>>>>>,
                                 s: bool, src: Word, dst: Word, size: nat)
    requires Ok8(a) && Ok8(b)
    requires forall x: nat :: At8(b, x) == if s then One8(At8(a, x), x, src, false, false, size) else At8(a, x)
    ensures Seen(At8(b, dst)) <==> Seen(At8(a, dst)) || (s && src % 16777216 == dst % 16777216)
  {
    hide At8;
    SplitMod(dst, src);
  }

  // ---------- Listing ----------

  /** struct ipt_acc_handle_ip */
  datatype Entry = Entry(ip: nat, c: Counter)

  /** The addresses seen among base, ..., base + n - 1, in that order, with their counters. */
  function Listing(data: Data, base: nat, n: nat): (l: seq<Entry>)
    requires Ok(data)
    ensures |l| <= n
  {
    if n == 0 then []
    else Listing(data, base, n - 1) + if Seen(At(data, n - 1)) then [Entry(base + n - 1, At(data, n - 1))] else []
  }

  /** The list has exactly the addresses seen, each once, in ascending order. */
  ghost predicate Exact(data: Data, base: nat, n: nat, l: seq<Entry>)
    requires Ok(data)
  {
    && (forall i :: 0 <= i < |l| ==> Listed(data, base, n, l[i]))
    && (forall i, j :: 0 <= i < j < |l| ==> l[i].ip < l[j].ip)
    && forall x: nat :: x < n && Seen(At(data, x)) ==> Entry(base + x, At(data, x)) in l
  }

  lemma {:induction false} ListingExact(data: Data, base: nat, n: nat)
    requires Ok(data)
    ensures Exact(data, base, n, Listing(data, base, n))
    decreases n
  {
    hide At, Ok, Seen, Listed;
    if n > 0 {
      ListingExact(data, base, n - 1);
      var init, l, x := Listing(data, base, n - 1), Listing(data, base, n), n - 1;
      forall i | 0 <= i < |init| ensures Listed(data, base, n, init[i]) && init[i].ip < base + x {
        ListedMore(data, base, x, init[i]);
      }
      if Seen(At(data, x)) {
        ListedLast(data, base, x);
      }
      forall y: nat | y < n && Seen(At(data, y)) ensures Entry(base + y, At(data, y)) in l {
        if y == x { assert l[|init|] == Entry(base + y, At(data, y)); }
      }
    }
  }

  lemma {:induction false} ListedMore(data: Data, base: nat, n: nat, e: Entry)
    requires Ok(data) && Listed(data, base, n, e)
    ensures Listed(data, base, n + 1, e) && e.ip < base + n
  {
  }

  lemma {:induction false} ListedLast(data: Data, base: nat, x: nat)
    requires Ok(data) && Seen(At(data, x))
    ensures Listed(data, base, x + 1, Entry(base + x, At(data, x)))
  {
  }

  ghost predicate Listed(data: Data, base: nat, n: nat, e: Entry)
    requires Ok(data)
  {
    base <= e.ip < base + n && Seen(e.c) && e.c == At(data, e.ip - base)
  }

  /** Slots with nothing in them add nothing. */
  lemma {:induction false} ListingSkip(data: Data, base: nat, m: nat, n: nat)
    requires Ok(data) && m <= n && forall x: nat :: m <= x < n ==> At(data, x) == ZERO
    ensures Listing(data, base, n) == Listing(data, base, m)
    decreases n
  {
    hide At, Ok;
    if m < n {
      ListingSkip(data, base, m, n - 1);
      assert At(data, n - 1) == ZERO;
    }
  }

  /** How many entries one packet adds. */
  lemma {:induction false} ListingGrows(data: Data, data': Data, s: bool, src: Word, d: bool, dst: Word, size: nat,
                                        base: nat, n: nat)
    requires Bumped(data, data', s, src, d, dst, size) && n <= Modulus(data)
    ensures var a, b := src % Modulus(data), dst % Modulus(data);
      |Listing(data', base, n)| ==
        |Listing(data, base, n)| + NewItems(At(data, a), At(data, b), s && a < n, d && b < n, a == b)
    decreases n
  {
    hide At, Ok, Modulus;
    if n > 0 {
      ListingGrows(data, data', s, src, d, dst, size, base, n - 1);
      var x := n - 1;
      assert BumpedAt(data, data', s, src, d, dst, size, x);
      SmallMod(x, Modulus(data));
    }
  }

  lemma {:induction false} SmallMod(x: nat, n: nat)
    requires x < n
    ensures x % n == x
  {
  }

  /** x | y on n bits */
  function Or(x: nat, y: nat, n: nat): nat {
    if n == 0 then 0 else 2 * Or(x / 2, y / 2, n - 1) + (if x % 2 + y % 2 > 0 then 1 else 0)
  }

  /** The low part of an address put back under the network's number gives the address. */
  lemma {:induction false} OrRestores(net: nat, x: nat, bits: nat, k: nat, n: nat)
    requires bits <= k <= n && Top(net, bits) == Top(x, bits) && Low(net, bits) == 0 && x < Pow2(n) && net < Pow2(n)
    ensures Or(net, Low(x, k), n) == x
    decreases n
  {
    if n > 0 {
      if k > 0 {
        assert Low(x, k) / 2 == Low(x / 2, k - 1) && Low(x, k) % 2 == x % 2;
        OrRestores(net / 2, x / 2, if bits > 0 then bits - 1 else 0, k - 1, n - 1);
      } else {
        OrRestores(net / 2, x / 2, 0, 0, n - 1);
      }
    }
  }

  lemma {:induction false} OrAtLeast(x: nat, y: nat, n: nat)
    requires x < Pow2(n)
    ensures Or(x, y, n) >= x
    decreases n
  {
    if n > 0 { OrAtLeast(x / 2, y / 2, n - 1); }
  }

  lemma {:induction false} TopFloor(x: nat, k: nat)
    ensures Top(Floor(x, k), k) == Top(x, k)
    decreases k
  {
    if k > 0 {
      assert Floor(x, k) == 2 * Floor(x / 2, k - 1);
      TopFloor(x / 2, k - 1);
    }
  }

  /** Exactly when or-ing works: the slot numbers of all addresses of a network, put back under the number it
      was given, give the addresses if and only if that number has no bits beyond the mask. A network entered
      as one of its hosts is listed wrong; nothing in ipt_acc_table_insert clears those bits. */
  lemma {:induction false} OrRestoresIff(net: Word, bits: nat, k: nat)
    requires bits <= k <= 32
    ensures Low(net, bits) == 0 <==> forall x: Word :: InNet(net, bits, x) ==> Or(net, Low(x, k), 32) == x
  {
    Pow2Of32();
    hide Or, Low, Top, Pow2;
    if Low(net, bits) == 0 {
      forall x: Word | InNet(net, bits, x) ensures Or(net, Low(x, k), 32) == x {
        OrRestores(net, x, bits, k, 32);
      }
    } else {
      var x: Word := Floor(net, bits);
      TopFloor(net, bits);
      OrAtLeast(net, Low(x, k), 32);
      assert InNet(net, bits, x) && Or(net, Low(x, k), 32) != x;
    }
  }

  lemma {:induction false} LowMod(x: nat, k: nat)
    ensures Low(x, k) == x % Pow2(k)
    decreases k
  {
    if k > 0 {
      LowMod(x / 2, k - 1);
      HalfMod(x, Pow2(k - 1));
    }
  }

  lemma {:induction false} HalfMod(x: nat, p: nat)
    requires p > 0
    ensures x % (2 * p) == 2 * (x / 2 % p) + x % 2
  {
    var q := x / 2 / p;
    assert x / 2 == p * q + x / 2 % p;
    assert x == 2 * p * q + (2 * (x / 2 % p) + x % 2);
    ModUnique(x, 2 * p, q, 2 * (x / 2 % p) + x % 2);
  }

  lemma {:induction false} PowersOfWidth(data: Data)
    ensures Pow2(Width(data)) == Modulus(data) && Pow2(32) == 0x1_0000_0000 && Width(data) <= 24
  {
    hide Pow2;
    Pow2Of8();
    PowSum(8, 8);
    PowSum(16, 8);
    Pow2Of32();
  }

  lemma {:induction false} PowSum(a: nat, b: nat)
    ensures Pow2(a + b) == Pow2(a) * Pow2(b)
    decreases a
  {
    if a > 0 {
      PowSum(a - 1, b);
    }
  }

  // ---------- A table and its snapshots ----------

  datatype Packet = Packet(src: Word, dst: Word, size: nat)

  function Add(a: Counter, b: Counter): (c: Counter)
    ensures c.srcPackets == a.srcPackets + b.srcPackets && c.srcBytes == a.srcBytes + b.srcBytes
    ensures c.dstPackets == a.dstPackets + b.dstPackets && c.dstBytes == a.dstBytes + b.dstBytes
  {
    Counter(a.srcPackets + b.srcPackets, a.srcBytes + b.srcBytes, a.dstPackets + b.dstPackets, a.dstBytes + b.dstBytes)
  }

  /** What the packets of a run amount to for address x. */
  ghost function Tally(run: seq<Packet>, x: nat): Counter {
    if run == [] then ZERO
    else
      var p := run[|run| - 1];
      Bump(Tally(run[..|run| - 1], x), x == p.src as int, x == p.dst as int, p.size)
  }

  ghost function Sum(ns: seq<nat>): nat {
    if ns == [] then 0 else Sum(ns[..|ns| - 1]) + ns[|ns| - 1]
  }

  /** So many packets of the run are wanted, and their sizes add up to so many bytes. */
  ghost predicate Amount(run: seq<Packet>, want: Packet -> bool, packets: nat, bytes: nat) {
    && packets == |set i | 0 <= i < |run| && want(run[i])|
    && bytes == Sum(seq(|run|, i requires 0 <= i < |run| => if want(run[i]) then run[i].size else 0))
  }

  /** c is the traffic of address x in the run: the packets and bytes that have x as their source, and those
      that have x as their destination. */
  ghost predicate Traffic(run: seq<Packet>, x: nat, c: Counter) {
    && Amount(run, (p: Packet) => p.src == x, c.srcPackets, c.srcBytes)
    && Amount(run, (p: Packet) => p.dst == x, c.dstPackets, c.dstBytes)
  }

  lemma {:induction false} AmountMore(run: seq<Packet>, p: Packet, want: Packet -> bool, packets: nat, bytes: nat)
    requires Amount(run, want, packets, bytes)
    ensures want(p) ==> Amount(run + [p], want, packets + 1, bytes + p.size)
    ensures !want(p) ==> Amount(run + [p], want, packets, bytes)
  {
    var more, n := run + [p], |run|;
    assert (set i | 0 <= i < n + 1 && want(more[i]))
        == (set i | 0 <= i < n && want(run[i])) + if want(p) then {n} else {};
    var sizes := seq(n + 1, i requires 0 <= i < n + 1 => if want(more[i]) then more[i].size else 0);
    assert sizes[..n] == seq(n, i requires 0 <= i < n => if want(run[i]) then run[i].size else 0);
  }

  /** The tally of a run is its traffic. */
  lemma {:induction false} TallyMeaning(run: seq<Packet>, x: nat)
    ensures Traffic(run, x, Tally(run, x))
    decreases |run|
  {
    hide Amount;
    if run == [] {
      AmountNone((p: Packet) => p.src == x);
      AmountNone((p: Packet) => p.dst == x);
    } else {
      var init, p, c := run[..|run| - 1], run[|run| - 1], Tally(run[..|run| - 1], x);
      TallyMeaning(init, x);
      AmountMore(init, p, (p: Packet) => p.src == x, c.srcPackets, c.srcBytes);
      AmountMore(init, p, (p: Packet) => p.dst == x, c.dstPackets, c.dstBytes);
      assert init + [p] == run;
    }
  }

  lemma {:induction false} AmountNone(want: Packet -> bool)
    ensures Amount([], want, 0, 0)
  {
  }

  /** There is a wanted packet exactly if their number is not zero. */
  lemma {:induction false} AmountSome(run: seq<Packet>, want: Packet -> bool, packets: nat, bytes: nat)
    requires Amount(run, want, packets, bytes)
    ensures packets != 0 <==> exists i :: 0 <= i < |run| && want(run[i])
  {
    var hits := set i | 0 <= i < |run| && want(run[i]);
    if i :| 0 <= i < |run| && want(run[i]) {
      assert i in hits;
    } else {
      assert hits == {};
    }
  }

  /** What the tables handed out amount to for address x. */
  ghost function Total(snaps: seq<Data>, x: nat): Counter
    requires forall i :: 0 <= i < |snaps| ==> Ok(snaps[i])
  {
    if snaps == [] then ZERO else Add(Total(snaps[..|snaps| - 1], x), At(snaps[|snaps| - 1], x))
  }

  /** The first address of the range the table's slots stand for. */
  function Base(net: nat, data: Data): nat {
    net - net % Modulus(data)
  }

  /** A table fit for the network, in which only addresses of the network have been seen. */
  ghost predicate Fits(net: nat, bits: nat, data: Data) {
    && Ok(data) && bits <= Width(data)
    && forall x: nat :: x < Modulus(data) ==> SeenInside(net, bits, data, x)
  }

  ghost predicate SeenInside(net: nat, bits: nat, data: Data, x: nat)
    requires Ok(data)
  {
    Seen(At(data, x)) ==> InNet(net, bits, Base(net, data) + x)
  }

  /** A mask of 8 bits or more; and if the mask has less than 24 bits, a network that does not hold address
      0. `CountedOnceIff` says why. */
  ghost predicate Network(net: Word, bits: nat) {
    bits <= 24 && (bits > 8 ==> !InNet(net, bits, 0))
  }

  /** An address of the network is the table's base plus its slot. */
  lemma {:induction false} BaseOf(net: nat, bits: nat, data: Data, x: nat)
    requires bits <= Width(data) && InNet(net, bits, x)
    ensures Base(net, data) + x % Modulus(data) == x
  {
    TopMore(net, x, bits, Width(data));
    TopBytes(net);
    TopBytes(x);
    hide Top;
    assert x == Modulus(data) * (x / Modulus(data)) + x % Modulus(data);
    assert net == Modulus(data) * (net / Modulus(data)) + net % Modulus(data);
  }

  lemma {:induction false} FitsAfter(net: nat, bits: nat, data: Data, data': Data, s: bool, src: Word, d: bool,
                                     dst: Word, size: nat)
    requires Fits(net, bits, data) && Bumped(data, data', s, src, d, dst, size) && Width(data') == Width(data)
    requires (s ==> InNet(net, bits, src)) && (d ==> InNet(net, bits, dst))
    ensures Fits(net, bits, data')
  {
    hide At, Ok, InNet, Modulus, Base;
    SameBase(net, data, data');
    forall x: nat | x < Modulus(data') ensures SeenInside(net, bits, data', x) {
      assert SeenInside(net, bits, data, x) && BumpedAt(data, data', s, src, d, dst, size, x);
      SmallMod(x, Modulus(data));
      if s { BaseOf(net, bits, data, src); }
      if d { BaseOf(net, bits, data, dst); }
    }
  }

  lemma {:induction false} SameBase(net: nat, data: Data, data': Data)
    requires Modulus(data) == Modulus(data')
    ensures Base(net, data) == Base(net, data')
  {
  }

  lemma {:induction false} BumpAdd(a: Counter, b: Counter, s: bool, d: bool, size: nat)
    ensures Add(a, Bump(b, s, d, size)) == Bump(Add(a, b), s, d, size)
  {
  }

  /** Every packet of address x is counted in the table or in one of the flushed ones. */
  ghost predicate Accounted(run: seq<Packet>, snaps: seq<Data>, data: Data, x: nat)
    requires Ok(data) && forall i :: 0 <= i < |snaps| ==> Ok(snaps[i])
  {
    Tally(run, x) == Add(Total(snaps, x), At(data, x))
  }

  ghost predicate AllAccounted(net: nat, bits: nat, run: seq<Packet>, snaps: seq<Data>, data: Data) {
    && Ok(data) && (forall i :: 0 <= i < |snaps| ==> Ok(snaps[i]))
    && forall x: nat :: InNet(net, bits, x) ==> Accounted(run, snaps, data, x)
  }

  /** For every address of the network the table has its traffic in the run. */
  ghost predicate AllTraffic(net: nat, bits: nat, run: seq<Packet>, data: Data) {
    Ok(data) && forall x: nat :: InNet(net, bits, x) ==> Traffic(run, x, At(data, x))
  }

  /** A table to which no flushed ones are to be added has the traffic of the run. */
  lemma {:induction false} TableMeaning(net: nat, bits: nat, run: seq<Packet>, data: Data)
    requires AllAccounted(net, bits, run, [], data)
    ensures AllTraffic(net, bits, run, data)
  {
    hide Tally, Traffic, InNet, At, Ok;
    forall x: nat | InNet(net, bits, x) ensures Traffic(run, x, At(data, x)) {
      assert Accounted(run, [], data, x);
      TallyMeaning(run, x);
    }
  }

  /** The tables flushed and the one in use have, taken together, the traffic of the whole run. */
  lemma {:induction false} TablesMeaning(net: nat, bits: nat, run: seq<Packet>, snaps: seq<Data>, data: Data, x: nat)
    requires AllAccounted(net, bits, run, snaps, data) && InNet(net, bits, x)
    ensures Traffic(run, x, Add(Total(snaps, x), At(data, x)))
  {
    hide Tally, Traffic, InNet, At, Ok, Total;
    assert Accounted(run, snaps, data, x);
    TallyMeaning(run, x);
  }

  class Table {
    const net: Word
    const bits: nat
    var data: Data
    var itemcount: nat
    /** All packets offered to the table, all tables read and flushed, and the packets since the last of these. */
    ghost var run: seq<Packet>
    ghost var snaps: seq<Data>
    ghost var since: seq<Packet>

    ghost predicate Valid()
      reads this
    {
      && Network(net, bits) && Fits(net, bits, data) && (data.Mask24? <==> bits <= 8)
      && itemcount == |Listing(data, Base(net, data), Modulus(data))|
      && AllAccounted(net, bits, run, snaps, data) && AllAccounted(net, bits, since, [], data)
    }

    /** ipt_acc_table_insert: an empty table, as deep as the network needs. */
    constructor (net: Word, bits: nat)
      requires Network(net, bits)
      ensures Valid() && this.net == net && this.bits == bits && run == [] && snaps == [] && since == []
      ensures itemcount == 0
    {
      NetworkNonZero(net, bits);
      EmptyTable(net, bits);
      AccountedEmpty(net, bits);
      hide InNet, Network, Modulus, Listing, Base, AllAccounted, Fits, Empty;
      this.net, this.bits := net, bits;
      data, itemcount := Empty(bits), 0;
      run, snaps, since := [], [], [];
    }

    /** ipt_acc_target */
    method Target(src: Word, dst: Word, size: nat)
      requires Valid()
      modifies this
      ensures Valid() && run == old(run) + [Packet(src, dst, size)] && snaps == old(snaps)
      ensures since == old(since) + [Packet(src, dst, size)]
      ensures AllTraffic(net, bits, since, data)
    {
      assert Ok(data) && bits <= Width(data);
      hide InNet, Network, Listing, Base, AllAccounted, AllTraffic, Bump, Fits, Bumped;
      ghost var before := data;
      NetworkNonZero(net, bits);
      match data {
        case Mask24(p) =>
          var p';
          p', itemcount := Depth0Insert(p, net, bits, src, dst, size, itemcount);
          data := Mask24(p');
          Deep24(p, p', InNet(net, bits, src), src, InNet(net, bits, dst), dst, size);
        case Mask16(m) =>
          var m';
          m', itemcount := Depth1Insert(m, net, bits, src, dst, size, itemcount);
          data := Mask16(m');
          Deep16(m, m', InNet(net, bits, src), src, InNet(net, bits, dst), dst, size);
        case Mask8(d) =>
          var d';
          d', itemcount := Depth2Insert(d, net, bits, src, dst, size, itemcount);
          data := Mask8(d');
          Deep8(d, d');
      }
      ghost var s, d := InNet(net, bits, src), InNet(net, bits, dst);
      FitsAfter(net, bits, before, data, s, src, d, dst, size);
      ItemsAfter(net, before, data, s, src, d, dst, size);
      run := run + [Packet(src, dst, size)];
      since := since + [Packet(src, dst, size)];
      AccountedAfter(net, bits, before, data, old(run), snaps, s, src, d, dst, size);
      AccountedAfter(net, bits, before, data, old(since), [], s, src, d, dst, size);
      TableMeaning(net, bits, since, data);
    }

    /** ipt_acc_handle_prepare_read_flush: the table is handed out and a new page takes its place. */
    method ReadFlush() returns (handle: Handle)
      requires Valid()
      modifies this
      ensures Valid() && run == old(run) && snaps == old(snaps) + [old(data)] && since == [] && itemcount == 0
      ensures handle == Handle(net, old(data), old(itemcount))
      ensures AllTraffic(net, bits, old(since), handle.data) && Fits(net, bits, handle.data)
      ensures handle.itemcount == |Listing(handle.data, Base(net, handle.data), Modulus(handle.data))|
    {
      hide InNet, Network, Modulus, Listing, Base, AllAccounted, AllTraffic, Fits, Empty;
      handle := Handle(net, data, itemcount);
      NetworkNonZero(net, bits);
      EmptyTable(net, bits);
      AccountedFlushed(net, bits, run, snaps, data);
      TableMeaning(net, bits, since, data);
      AccountedEmpty(net, bits);
      snaps, since := snaps + [data], [];
      data, itemcount := Empty(bits), 0;
    }
  }

  /** struct ipt_acc_handle */
  datatype Handle = Handle(ip: Word, data: Data, itemcount: nat)

  function Empty(bits: nat): (data: Data)
    ensures Ok(data)
  {
    if bits <= 8 then Mask24(seq(256, _ => ZERO))
    else if bits <= 16 then Mask16(seq(256, _ => None))
    else Mask8(seq(256, _ => None))
  }

  lemma {:induction false} NetworkNonZero(net: Word, bits: nat)
    requires Network(net, bits)
    ensures (bits > 8 ==> !InNet(net, bits, 0)) && bits <= 24
  {
  }

  lemma {:induction false} EmptyTable(net: Word, bits: nat)
    requires bits <= 24
    ensures Fits(net, bits, Empty(bits)) && Listing(Empty(bits), Base(net, Empty(bits)), Modulus(Empty(bits))) == []
    ensures (Empty(bits).Mask24? <==> bits <= 8) && forall x: nat :: At(Empty(bits), x) == ZERO
  {
    var data := Empty(bits);
    assert forall x: nat :: At(data, x) == ZERO;
    hide At, InNet, Modulus, Base, Empty;
    ListingSkip(data, Base(net, data), 0, Modulus(data));
    forall x: nat | x < Modulus(data) ensures SeenInside(net, bits, data, x) {
      assert At(data, x) == ZERO;
    }
  }

  lemma {:induction false} Deep24(p: seq<Counter>, p': seq<Counter>, s: bool, src: Word, d: bool, dst: Word, size: nat)
    requires Bumped24(p, p', s, src, d, dst, size)
    ensures Bumped(Mask24(p), Mask24(p'), s, src, d, dst, size) && Width(Mask24(p')) == Width(Mask24(p))
  {
    hide Bump;
    var a, b := Mask24(p), Mask24(p');
    forall x: nat ensures BumpedAt(a, b, s, src, d, dst, size, x) {
      assert At24(p', x) == Bump(At24(p, x), s && x % 256 == src % 256, d && x % 256 == dst % 256, size);
    }
  }

  lemma {:induction false} Deep16(m: seq<Option<seq<Counter>>>, m': seq<Option<seq<Counter>>>, s: bool, src: Word,
                                  d: bool, dst: Word, size: nat)
    requires Bumped16(m, m', s, src, d, dst, size)
    ensures Bumped(Mask16(m), Mask16(m'), s, src, d, dst, size) && Width(Mask16(m')) == Width(Mask16(m))
  {
    hide Bump;
    var a, b := Mask16(m), Mask16(m');
    forall x: nat ensures BumpedAt(a, b, s, src, d, dst, size, x) {
      assert At16(m', x) == Bump(At16(m, x), s && x % 65536 == src % 65536, d && x % 65536 == dst % 65536, size);
    }
  }

  lemma {:induction false} Deep8(d: seq<Option<seq<Option<seq<Counter>>>>>, d': seq<Option<seq<Option<seq<Counter>>>>>)
    ensures Width(Mask8(d')) == Width(Mask8(d)) && Modulus(Mask8(d)) == 16777216
  {
  }

  /** The item counter stays the number of entries. */
  lemma {:induction false} ItemsAfter(net: nat, data: Data, data': Data, s: bool, src: Word, d: bool, dst: Word,
                                      size: nat)
    requires Bumped(data, data', s, src, d, dst, size)
    ensures |Listing(data', Base(net, data'), Modulus(data'))| ==
      |Listing(data, Base(net, data), Modulus(data))| +
      NewItems(At(data, src), At(data, dst), s, d, src % Modulus(data) == dst % Modulus(data))
  {
    hide At, Ok, Listing;
    SameBase(net, data, data');
    var n := Modulus(data);
    ListingGrows(data, data', s, src, d, dst, size, Base(net, data), n);
    ModTwice(src, n);
    ModTwice(dst, n);
    AtSame(data, src, src % n);
    AtSame(data, dst, dst % n);
  }

  lemma {:induction false} ModTwice(x: nat, n: nat)
    requires n > 0
    ensures x % n < n && x % n % n == x % n
  {
  }

  lemma {:induction false} AccountedAfter(net: Word, bits: nat, data: Data, data': Data, run: seq<Packet>,
                                          snaps: seq<Data>,
                                          s: bool, src: Word, d: bool, dst: Word, size: nat)
    requires Bumped(data, data', s, src, d, dst, size) && bits <= Width(data)
    requires s == InNet(net, bits, src) && d == InNet(net, bits, dst)
    requires AllAccounted(net, bits, run, snaps, data)
    ensures AllAccounted(net, bits, run + [Packet(src, dst, size)], snaps, data')
  {
    hide At, Ok, Total, Tally, Bump, Modulus, InNet, Accounted;
    var more := run + [Packet(src, dst, size)];
    forall x: nat | InNet(net, bits, x) ensures Accounted(more, snaps, data', x) {
      assert Accounted(run, snaps, data, x) && BumpedAt(data, data', s, src, d, dst, size, x);
      if x % Modulus(data) == src % Modulus(data) && s { SlotsApart(data, net, bits, x, src); }
      if x % Modulus(data) == dst % Modulus(data) && d { SlotsApart(data, net, bits, x, dst); }
      OneMore(data, data', run, snaps, src, dst, size, x);
    }
  }

  lemma {:induction false} OneMore(data: Data, data': Data, run: seq<Packet>, snaps: seq<Data>, src: Word, dst: Word,
                                   size: nat, x: nat)
    requires Ok(data) && Ok(data') && forall i :: 0 <= i < |snaps| ==> Ok(snaps[i])
    requires Accounted(run, snaps, data, x) && At(data', x) == Bump(At(data, x), x == src as int, x == dst as int, size)
    ensures Accounted(run + [Packet(src, dst, size)], snaps, data', x)
  {
    hide At, Ok, Total, Bump;
    BumpAdd(Total(snaps, x), At(data, x), x == src as int, x == dst as int, size);
    assert (run + [Packet(src, dst, size)])[..|run|] == run;
  }

  lemma {:induction false} AccountedEmpty(net: Word, bits: nat)
    requires bits <= 24
    ensures AllAccounted(net, bits, [], [], Empty(bits))
  {
    EmptyTable(net, bits);
    hide At, Empty, InNet, Ok;
    var data := Empty(bits);
    forall x: nat | InNet(net, bits, x) ensures Accounted([], [], data, x) {
      assert At(data, x) == ZERO;
    }
  }

  lemma {:induction false} AccountedFlushed(net: Word, bits: nat, run: seq<Packet>, snaps: seq<Data>, data: Data)
    requires AllAccounted(net, bits, run, snaps, data) && bits <= 24
    ensures AllAccounted(net, bits, run, snaps + [data], Empty(bits))
  {
    EmptyTable(net, bits);
    hide At, Ok, Total, Tally, InNet, Empty;
    forall x: nat | InNet(net, bits, x) ensures Accounted(run, snaps + [data], Empty(bits), x) {
      assert Accounted(run, snaps, data, x);
      TotalMore(snaps, data, x);
    }
  }

  lemma {:induction false} TotalMore(snaps: seq<Data>, data: Data, x: nat)
    requires (forall i :: 0 <= i < |snaps| ==> Ok(snaps[i])) && Ok(data)
    ensures Total(snaps + [data], x) == Add(Total(snaps, x), At(data, x))
    ensures Add(Total(snaps + [data], x), ZERO) == Total(snaps + [data], x)
  {
    assert (snaps + [data])[..|snaps|] == snaps;
  }

  // ---------- Handing a snapshot out ----------

  const PAGE_SIZE: nat := 4096
  /** sizeof(struct ipt_acc_handle_ip) */
  const ENTRY_SIZE: nat := 20

  /** The base plus a slot number is a 32-bit number with that slot. */
  lemma {:induction false} BasePlus(net: Word, data: Data, low: nat)
    requires low < Modulus(data)
    ensures (Base(net, data) + low) % Modulus(data) == low && Base(net, data) + low < 0x1_0000_0000
  {
    assert net == Modulus(data) * (net / Modulus(data)) + net % Modulus(data);
    ModUnique(Base(net, data) + low, Modulus(data), net / Modulus(data), low);
  }

  /** The network number with a seen slot's number or-ed in is that slot's address. */
  lemma {:induction false} OrIsAddress(net: Word, bits: nat, data: Data, low: nat)
    requires Low(net, bits) == 0 && Fits(net, bits, data) && low < Modulus(data) && Seen(At(data, low))
    ensures Or(net, low, 32) == Base(net, data) + low
  {
    assert SeenInside(net, bits, data, low);
    var x := Base(net, data) + low;
    hide At, Ok, Top, Modulus, Base, Or, Low, Pow2;
    PowersOfWidth(data);
    BasePlus(net, data, low);
    LowMod(x, Width(data));
    OrRestores(net, x, bits, Width(data), 32);
  }

  /** What get_data hands out of the first n slots: the network number with each seen slot's number or-ed in. */
  function Handed(data: Data, net: Word, n: nat): (l: seq<Entry>)
    requires Ok(data)
    ensures |l| <= n
  {
    if n == 0 then []
    else Handed(data, net, n - 1) + if Seen(At(data, n - 1)) then [Entry(Or(net, n - 1, 32), At(data, n - 1))] else []
  }

  /** Handed out and true entries go in step. */
  lemma {:induction false} HandedAt(data: Data, net: Word, base: nat, n: nat, i: nat)
    requires Ok(data)
    ensures |Handed(data, net, n)| == |Listing(data, base, n)|
    ensures i < |Listing(data, base, n)| ==>
      var e, h := Listing(data, base, n)[i], Handed(data, net, n)[i];
      base <= e.ip < base + n && h.ip == Or(net, e.ip - base, 32) && h.c == e.c
    decreases n
  {
    hide At, Ok, Or;
    if n > 0 { HandedAt(data, net, base, n - 1, i); }
  }

  /** A network number without bits beyond the mask is listed right. */
  lemma {:induction false} HandedRight(net: Word, bits: nat, data: Data, n: nat)
    requires Low(net, bits) == 0 && Fits(net, bits, data) && n <= Modulus(data)
    ensures Handed(data, net, n) == Listing(data, Base(net, data), n)
    decreases n
  {
    if n > 0 {
      HandedRight(net, bits, data, n - 1);
      if Seen(At(data, n - 1)) { OrIsAddress(net, bits, data, n - 1); }
    }
  }

  /** One with such bits is listed wrong as soon as the first address of the network has been seen. */
  lemma {:induction false} HandedWrong(net: Word, bits: nat, data: Data)
    requires Low(net, bits) != 0 && Fits(net, bits, data) && Seen(At(data, Floor(net, bits)))
    ensures Handed(data, net, Modulus(data)) != Listing(data, Base(net, data), Modulus(data))
  {
    var x := Floor(net, bits);
    assert x < net;
    hide At, Ok, Or, Listing, Handed, Modulus, Base, Floor, Low, Top, Exact, Seen;
    TopFloor(net, bits);
    assert Ok(data) && InNet(net, bits, x);
    hide Fits, InNet;
    ListingExact(data, Base(net, data), Modulus(data));
    InsideListed(net, bits, data, x, Listing(data, Base(net, data), Modulus(data)));
    SmallerWrong(net, data, Base(net, data), Modulus(data), x);
  }

  lemma {:induction false} SmallerWrong(net: Word, data: Data, base: nat, n: nat, x: nat)
    requires Ok(data) && x < net && Entry(x, At(data, x)) in Listing(data, base, n)
    ensures Handed(data, net, n) != Listing(data, base, n)
  {
    hide At, Ok, Or, Listing, Handed, Pow2;
    var i :| 0 <= i < |Listing(data, base, n)| && Listing(data, base, n)[i] == Entry(x, At(data, x));
    HandedAt(data, net, base, n, i);
    Pow2Of32();
    OrAtLeast(net, x - base, 32);
  }

  /** A three-level table in which one slot has been seen. */
  function OneSeen(slot: nat): (data: Data)
    ensures data.Mask8? && Ok(data)
  {
    var p := seq(256, k => if k == slot % 256 then Counter(1, 0, 0, 0) else ZERO);
    var m := seq(256, k => if k == slot / 256 % 256 then Some(p) else None);
    var data := Mask8(seq(256, k => if k == slot / 65536 % 256 then Some(m) else None));
    data
  }

  lemma {:induction false} OneSeenAt(slot: nat, x: nat)
    ensures Seen(At(OneSeen(slot), x)) <==> x % 16777216 == slot % 16777216
  {
    SplitMod(x, slot);
  }

  /** Exactly the networks whose number has no bits beyond the mask are listed right whatever has been seen. */
  lemma {:induction false} HandedRightIff(net: Word, bits: nat)
    requires bits <= 24
    ensures Low(net, bits) == 0 <==>
      forall data: Data :: Fits(net, bits, data) ==> HandedTrue(net, data)
  {
    hide Low, At, Modulus;
    if Low(net, bits) == 0 {
      forall data: Data | Fits(net, bits, data) ensures HandedTrue(net, data) {
        HandedRight(net, bits, data, Modulus(data));
      }
    } else {
      var data := OneSeen(Floor(net, bits));
      OneSeenFits(net, bits);
      OneSeenAt(Floor(net, bits), Floor(net, bits));
      HandedWrong(net, bits, data);
    }
  }

  ghost predicate HandedTrue(net: Word, data: Data) {
    Ok(data) && Handed(data, net, Modulus(data)) == Listing(data, Base(net, data), Modulus(data))
  }

  lemma {:induction false} OneSeenFits(net: Word, bits: nat)
    requires bits <= 24
    ensures Fits(net, bits, OneSeen(Floor(net, bits)))
  {
    var x, data := Floor(net, bits), OneSeen(Floor(net, bits));
    TopFloor(net, bits);
    BaseOf(net, bits, data, x);
    hide At, Low, Top, OneSeen, Base;
    forall s: nat | s < Modulus(data) ensures SeenInside(net, bits, data, s) {
      OneSeenAt(x, s);
      if Seen(At(data, s)) {
        SmallMod(s, 16777216);
        assert Base(net, data) + s == x;
      }
    }
  }

  /** Page p holds the counters from slot `low` on. */
  ghost predicate PageAt(data: Data, low: nat, p: seq<Counter>)
    requires Ok(data)
  {
    Ok24(p) && forall i: nat :: i < 256 ==> CounterAt(data, low, p, i)
  }

  ghost predicate CounterAt(data: Data, low: nat, p: seq<Counter>, i: nat)
    requires Ok(data) && Ok24(p) && i < 256
  {
    At(data, low + i) == p[i]
  }

  /** ipt_acc_handle_copy_data: the entries of one page, through a page-sized buffer. */
  method CopyData(user0: seq<Entry>, tmpbuf0: seq<Entry>, p: seq<Counter>, net: Word, orMask: nat, ghost data: Data)
    returns (user: seq<Entry>, tmpbuf: seq<Entry>)
    requires Ok(data) && PageAt(data, orMask, p)
    requires user0 + tmpbuf0 == Handed(data, net, orMask)
    ensures user + tmpbuf == Handed(data, net, orMask + 256)
  {
    assert Ok24(p);
    hide At, Ok, Or, PageAt, Handed;
    user, tmpbuf := user0, tmpbuf0;
    for i := 0 to 256
      invariant user + tmpbuf == Handed(data, net, orMask + i)
    {
      CounterIs(data, orMask, p, i);
      HandedNext(data, net, orMask + i);
      if p[i].srcPackets != 0 || p[i].dstPackets != 0 {
        if |tmpbuf| * ENTRY_SIZE + ENTRY_SIZE >= PAGE_SIZE {
          user := user + tmpbuf;
          tmpbuf := [];
        }
        tmpbuf := tmpbuf + [Entry(Or(net, orMask + i, 32), p[i])];
      }
    }
  }

  lemma {:induction false} HandedNext(data: Data, net: Word, n: nat)
    requires Ok(data)
    ensures Handed(data, net, n + 1) == Handed(data, net, n)
      + if Seen(At(data, n)) then [Entry(Or(net, n, 32), At(data, n))] else []
  {
    hide At, Or;
  }

  lemma {:induction false} HandedSkip(data: Data, net: Word, m: nat, n: nat)
    requires Ok(data) && m <= n && forall x: nat :: m <= x < n ==> At(data, x) == ZERO
    ensures Handed(data, net, n) == Handed(data, net, m)
    decreases n
  {
    hide At, Ok, Or;
    if m < n {
      HandedSkip(data, net, m, n - 1);
      assert At(data, n - 1) == ZERO;
    }
  }

  lemma {:induction false} CounterIs(data: Data, low: nat, p: seq<Counter>, i: nat)
    requires Ok(data) && PageAt(data, low, p) && i < 256
    ensures At(data, low + i) == p[i]
  {
    assert CounterAt(data, low, p, i);
  }

  lemma {:induction false} PageOf16(m: seq<Option<seq<Counter>>>, b: nat)
    requires Ok16(m) && b < 256
    ensures m[b].Some? ==> PageAt(Mask16(m), b * 256, m[b].value)
    ensures m[b].None? ==> forall x: nat :: b * 256 <= x < b * 256 + 256 ==> At(Mask16(m), x) == ZERO
  {
    forall x: nat | b * 256 <= x < b * 256 + 256
      ensures At(Mask16(m), x) == if m[b].None? then ZERO else m[b].value[x - b * 256]
    {
      assert x / 256 == b && x % 256 == x - b * 256;
    }
    if m[b].Some? {
      forall i: nat | i < 256 ensures CounterAt(Mask16(m), b * 256, m[b].value, i) {
        assert At(Mask16(m), b * 256 + i) == m[b].value[b * 256 + i - b * 256];
      }
    }
  }

  lemma {:induction false} PageOf8(d: seq<Option<seq<Option<seq<Counter>>>>>, a: nat, b: nat)
    requires Ok8(d) && a < 256 && b < 256
    ensures var low := a * 65536 + b * 256;
      && (d[a].Some? && d[a].value[b].Some? ==> PageAt(Mask8(d), low, d[a].value[b].value))
      && (d[a].None? || d[a].value[b].None? ==> forall x: nat :: low <= x < low + 256 ==> At(Mask8(d), x) == ZERO)
  {
    var low := a * 65536 + b * 256;
    forall x: nat | low <= x < low + 256
      ensures At(Mask8(d), x) == if d[a].None? || d[a].value[b].None? then ZERO else d[a].value[b].value[x - low] {
      assert x / 65536 == a && x / 256 == a * 256 + b && x % 256 == x - low;
    }
    if d[a].Some? && d[a].value[b].Some? {
      forall i: nat | i < 256 ensures CounterAt(Mask8(d), low, d[a].value[b].value, i) {
        assert At(Mask8(d), low + i) == d[a].value[b].value[low + i - low];
      }
    }
  }

  /** ipt_acc_handle_get_data for the three depths. */
  method GetData(h: Handle) returns (user: seq<Entry>)
    requires Ok(h.data)
    ensures user == Handed(h.data, h.ip, Modulus(h.data))
  {
    hide At, Ok, PageAt, Handed, Or;
    match h.data {
      case Mask24(p) =>
        user := GetData24(p, h);
      case Mask16(m) =>
        user := GetData16(m, h);
      case Mask8(d) =>
        user := GetData8(d, h);
    }
  }

  lemma {:induction false} OnlyPage(p: seq<Counter>)
    requires Ok24(p)
    ensures PageAt(Mask24(p), 0, p)
  {
  }

  method GetData24(p: seq<Counter>, h: Handle) returns (user: seq<Entry>)
    requires h.data == Mask24(p) && Ok(h.data)
    ensures user == Handed(h.data, h.ip, 256)
  {
    hide At, PageAt, Handed, Or;
    OnlyPage(p);
    EmptyHanded(h.data, h.ip);
    var tmpbuf;
    user, tmpbuf := CopyData([], [], p, h.ip, 0, h.data);
    user := user + tmpbuf;
  }

  method GetData16(m: seq<Option<seq<Counter>>>, h: Handle) returns (user: seq<Entry>)
    requires h.data == Mask16(m) && Ok(h.data)
    ensures user == Handed(h.data, h.ip, 65536)
  {
    assert Ok(h.data) && Ok16(m) && Modulus(h.data) == 65536;
    hide At, PageAt, Handed, Or;
    var tmpbuf: seq<Entry>;
    user, tmpbuf := [], [];
    EmptyHanded(h.data, h.ip);
    for b := 0 to 256
      invariant user + tmpbuf == Handed(h.data, h.ip, b * 256)
    {
      PageOf16(m, b);
      if m[b].Some? {
        user, tmpbuf := CopyData(user, tmpbuf, m[b].value, h.ip, b * 256, h.data);
      } else {
        HandedSkip(h.data, h.ip, b * 256, b * 256 + 256);
      }
    }
    user := user + tmpbuf;
  }

  method GetData8(d: seq<Option<seq<Option<seq<Counter>>>>>, h: Handle) returns (user: seq<Entry>)
    requires h.data == Mask8(d) && Ok(h.data)
    ensures user == Handed(h.data, h.ip, 16777216)
  {
    assert Ok(h.data) && Ok8(d) && Modulus(h.data) == 16777216;
    hide At, PageAt, Handed, Or;
    var tmpbuf: seq<Entry>;
    user, tmpbuf := [], [];
    EmptyHanded(h.data, h.ip);
    for a := 0 to 256
      invariant user + tmpbuf == Handed(h.data, h.ip, a * 65536)
    {
      if d[a].Some? {
        user, tmpbuf := GetPages(user, tmpbuf, d, a, h);
      } else {
        forall x: nat | a * 65536 <= x < a * 65536 + 65536 ensures At(h.data, x) == ZERO {
          PageOf8(d, a, (x - a * 65536) / 256);
        }
        HandedSkip(h.data, h.ip, a * 65536, a * 65536 + 65536);
      }
    }
    user := user + tmpbuf;
  }

  /** The pages behind entry a of a three-level table. */
  method GetPages(user0: seq<Entry>, tmpbuf0: seq<Entry>, d: seq<Option<seq<Option<seq<Counter>>>>>, a: nat, h: Handle)
    returns (user: seq<Entry>, tmpbuf: seq<Entry>)
    requires h.data == Mask8(d) && Ok(h.data) && a < 256 && d[a].Some?
    requires user0 + tmpbuf0 == Handed(h.data, h.ip, a * 65536)
    ensures user + tmpbuf == Handed(h.data, h.ip, a * 65536 + 65536)
  {
    assert Ok(h.data) && Ok8(d) && Modulus(h.data) == 16777216;
    hide At, PageAt, Handed, Or;
    user, tmpbuf := user0, tmpbuf0;
    for b := 0 to 256
      invariant user + tmpbuf == Handed(h.data, h.ip, a * 65536 + b * 256)
    {
      PageOf8(d, a, b);
      if d[a].value[b].Some? {
        user, tmpbuf := CopyData(user, tmpbuf, d[a].value[b].value, h.ip, a * 65536 + b * 256, h.data);
      } else {
        HandedSkip(h.data, h.ip, a * 65536 + b * 256, a * 65536 + b * 256 + 256);
      }
    }
  }

  lemma {:induction false} EmptyHanded(data: Data, net: Word)
    requires Ok(data)
    ensures Handed(data, net, 0) == []
  {
  }

  /** An entry of the list is an address of the network with its counters. */
  lemma {:induction false} ListedInside(net: Word, bits: nat, data: Data, e: Entry)
    requires Fits(net, bits, data) && Listed(data, Base(net, data), Modulus(data), e)
    ensures InNet(net, bits, e.ip) && e.c == At(data, e.ip) && Seen(e.c)
  {
    hide At, InNet, Base, Top;
    assert SeenInside(net, bits, data, e.ip - Base(net, data));
    SlotOf(net, data, e.ip - Base(net, data));
  }

  /** A seen address of the network has its slot in the list. */
  lemma {:induction false} InsideListed(net: Word, bits: nat, data: Data, x: nat, l: seq<Entry>)
    requires Fits(net, bits, data) && Exact(data, Base(net, data), Modulus(data), l)
    requires InNet(net, bits, x) && Seen(At(data, x))
    ensures Entry(x, At(data, x)) in l
  {
    BaseOf(net, bits, data, x);
    hide At, InNet, Base, Top;
    ModTwice(x, Modulus(data));
    AtSame(data, x, x % Modulus(data));
    assert Seen(At(data, x % Modulus(data)));
  }

  /** What a snapshot of a valid table lists: every address of the network that was seen since the last
      flush, once, with its counters, and nothing else; as many entries as the table's item counter says. */
  lemma {:induction false} SnapshotExact(net: Word, bits: nat, data: Data, itemcount: nat, x: nat)
    requires Fits(net, bits, data) && itemcount == |Listing(data, Base(net, data), Modulus(data))|
    ensures var l := Listing(data, Base(net, data), Modulus(data));
      && |l| == itemcount && (forall i, j :: 0 <= i < j < |l| ==> l[i].ip < l[j].ip)
      && (InNet(net, bits, x) && Seen(At(data, x)) ==> Entry(x, At(data, x)) in l)
      && forall i :: 0 <= i < |l| ==> InNet(net, bits, l[i].ip) && l[i].c == At(data, l[i].ip) && Seen(l[i].c)
  {
    var base, n := Base(net, data), Modulus(data);
    var l := Listing(data, base, n);
    ListingExact(data, base, n);
    assert Ok(data);
    if InNet(net, bits, x) && Seen(At(data, x)) { InsideListed(net, bits, data, x, l); }
    hide At, Ok, InNet, Modulus, Base, Listing, Listed, Fits;
    forall i | 0 <= i < |l| ensures InNet(net, bits, l[i].ip) && l[i].c == At(data, l[i].ip) && Seen(l[i].c) {
      ListedInside(net, bits, data, l[i]);
    }
  }

  /** What is handed out of a table read and flushed, if the network number has no bits beyond the mask: the
      addresses of the network that are source or destination of a packet since the flush before, in ascending
      order, each with its traffic, and as many as the item counter says. */
  lemma {:induction false} ReadoutMeaning(net: Word, bits: nat, data: Data, itemcount: nat, since: seq<Packet>)
    requires Low(net, bits) == 0 && Fits(net, bits, data) && AllTraffic(net, bits, since, data)
    requires itemcount == |Listing(data, Base(net, data), Modulus(data))|
    ensures var l := Handed(data, net, Modulus(data));
      && |l| == itemcount && (forall i, j :: 0 <= i < j < |l| ==> l[i].ip < l[j].ip)
      && (forall i :: 0 <= i < |l| ==> ReadOut(net, bits, since, l[i]))
      && forall p, x: nat :: p in since && (p.src == x || p.dst == x) && InNet(net, bits, x) ==>
        exists e :: e in l && e.ip == x
  {
    hide InNet, Modulus, Base, Listing, Handed, Fits, Traffic, Low;
    HandedRight(net, bits, data, Modulus(data));
    var l := Listing(data, Base(net, data), Modulus(data));
    SnapshotExact(net, bits, data, itemcount, 0);
    hide At, Ok;
    forall i | 0 <= i < |l| ensures ReadOut(net, bits, since, l[i]) {
      assert Traffic(since, l[i].ip, At(data, l[i].ip));
      TrafficSeen(since, l[i].ip, l[i].c);
    }
    forall p, x: nat | p in since && (p.src == x || p.dst == x) && InNet(net, bits, x)
      ensures exists e :: e in l && e.ip == x
    {
      assert Traffic(since, x, At(data, x));
      TrafficSeen(since, x, At(data, x));
      SnapshotExact(net, bits, data, itemcount, x);
      assert Entry(x, At(data, x)) in l;
    }
  }

  /** An address of the network with its traffic, which is not nothing. */
  ghost predicate ReadOut(net: Word, bits: nat, since: seq<Packet>, e: Entry) {
    InNet(net, bits, e.ip) && Traffic(since, e.ip, e.c) && exists p :: p in since && (p.src == e.ip || p.dst == e.ip)
  }

  lemma {:induction false} TrafficSeen(run: seq<Packet>, x: nat, c: Counter)
    requires Traffic(run, x, c)
    ensures Seen(c) <==> exists p :: p in run && (p.src == x || p.dst == x)
  {
    hide Amount;
    AmountSome(run, (p: Packet) => p.src == x, c.srcPackets, c.srcBytes);
    AmountSome(run, (p: Packet) => p.dst == x, c.dstPackets, c.dstBytes);
    if i :| 0 <= i < |run| && (run[i].src == x || run[i].dst == x) { assert run[i] in run; }
  }

  lemma {:induction false} SlotOf(net: nat, data: Data, low: nat)
    requires Ok(data) && low < Modulus(data)
    ensures At(data, Base(net, data) + low) == At(data, low)
  {
    hide At;
    assert net == Modulus(data) * (net / Modulus(data)) + net % Modulus(data);
    ModUnique(Base(net, data) + low, Modulus(data), net / Modulus(data), low);
    SmallMod(low, Modulus(data));
    AtSame(data, Base(net, data) + low, low);
  }
}
