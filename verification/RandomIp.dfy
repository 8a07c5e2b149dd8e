/** The address generator of src/random-ip.c: a shuffled substitution table and a hundred rounds of
    chained xor-and-substitute, which never print an address twice. */
module RandomIp {
  import opened Basics
  import opened Bytes

  /** A substitution table is one-to-one. */
  ghost predicate OneToOne(tab: seq<Byte>) {
    |tab| == 256 && forall i, j :: 0 <= i < j < 256 ==> tab[i] != tab[j]
  }

  /** Looking a byte up. */
  function Sub(tab: seq<Byte>, c: Byte): Byte
    requires |tab| == 256
  {
    tab[c]
  }

  lemma {:induction false} SubInjective(tab: seq<Byte>, a: Byte, b: Byte)
    requires OneToOne(tab) && Sub(tab, a) == Sub(tab, b)
    ensures a == b
  {
    assert tab[a] == tab[b];
  }

  /** Exclusive or of the n low bits. */
  function XorBits(a: nat, b: nat, n: nat): (r: nat) {
    if n == 0 then 0 else 2 * XorBits(a / 2, b / 2, n - 1) + (a + b) % 2
  }

  lemma {:induction false} XorRange(a: nat, b: nat, n: nat)
    ensures XorBits(a, b, n) < Pow2(n)
  {
    if n > 0 {
      XorRange(a / 2, b / 2, n - 1);
    }
  }

  /** Two numbers that give the same result with c agree in their low bits. */
  lemma {:induction false} XorBitsCancel(c: nat, a: nat, b: nat, n: nat)
    requires a < Pow2(n) && b < Pow2(n) && XorBits(c, a, n) == XorBits(c, b, n)
    ensures a == b
    decreases n
  {
    if n > 0 {
      XorBitsCancel(c / 2, a / 2, b / 2, n - 1);
    }
  }

  lemma {:induction false} DoubleEven(a: nat)
    ensures (a + a) % 2 == 0
  {
    assert a + a == 2 * a;
  }

  lemma {:induction false} XorBitsSelf(a: nat, n: nat)
    ensures XorBits(a, a, n) == 0
  {
    if n > 0 {
      XorBitsSelf(a / 2, n - 1);
      DoubleEven(a);
      assert XorBits(a, a, n) == 2 * XorBits(a / 2, a / 2, n - 1) + (a + a) % 2;
    }
  }

  function Xor(a: Byte, b: Byte): Byte {
    XorRange(a, b, 8);
    Pow2Of8();
    XorBits(a, b, 8)
  }

  lemma {:induction false} XorCancel(c: Byte, a: Byte, b: Byte)
    requires Xor(c, a) == Xor(c, b)
    ensures a == b
  {
    Pow2Of8();
    XorBitsCancel(c, a, b, 8);
  }

  // ---------- Mixing ----------

  /** One round over the free bytes; c is carried in. */
  function Round(tab: seq<Byte>, c: Byte, s: seq<Byte>): (r: seq<Byte>)
    requires |tab| == 256
    ensures |r| == |s|
    decreases |s|
  {
    if s == [] then []
    else
      var y := Sub(tab, Xor(c, s[0]));
      [y] + Round(tab, y, s[1..])
  }

  /** Byte by byte: each becomes the table's entry for it and the byte before, as that has come out. */
  lemma {:induction false} RoundChain(tab: seq<Byte>, c: Byte, s: seq<Byte>, i: nat)
    requires |tab| == 256 && i < |s|
    ensures var r := Round(tab, c, s);
      r[i] == tab[Xor(if i == 0 then c else r[i - 1], s[i])]
    decreases |s|
  {
    hide Xor;
    if i > 0 { RoundChain(tab, Sub(tab, Xor(c, s[0])), s[1..], i - 1); }
  }

  /** What a round carries out. */
  function Carry(c: Byte, r: seq<Byte>): Byte {
    if r == [] then c else r[|r| - 1]
  }

  function Mix(tab: seq<Byte>, c: Byte, s: seq<Byte>, rounds: nat): (r: seq<Byte>)
    requires |tab| == 256
    ensures |r| == |s|
    decreases rounds
  {
    if rounds == 0 then s
    else
      var r := Round(tab, c, s);
      Mix(tab, Carry(c, r), r, rounds - 1)
  }

  /** With the same byte carried in, a round is injective. */
  lemma {:induction false} RoundInjective(tab: seq<Byte>, c: Byte, s: seq<Byte>, t: seq<Byte>)
    requires OneToOne(tab) && |s| == |t| && Round(tab, c, s) == Round(tab, c, t)
    ensures s == t
    decreases |s|
  {
    hide Xor, Sub;
    if s != [] {
      var r, q := Round(tab, c, s), Round(tab, c, t);
      assert r[0] == q[0] && r[1..] == q[1..];
      SubInjective(tab, Xor(c, s[0]), Xor(c, t[0]));
      XorCancel(c, s[0], t[0]);
      RoundInjective(tab, r[0], s[1..], t[1..]);
      assert s == [s[0]] + s[1..] && t == [t[0]] + t[1..];
    }
  }

  /** A later round carries in the last byte it starts from. With two bytes or more, all but the first can
      be told from the result alone; then the carried byte is known, and so is the first. */
  lemma {:induction false} RoundTail(tab: seq<Byte>, c: Byte, d: Byte, s: seq<Byte>, t: seq<Byte>)
    requires OneToOne(tab) && |s| == |t| >= 1 && Round(tab, c, s) == Round(tab, d, t)
    ensures s[1..] == t[1..] && Xor(c, s[0]) == Xor(d, t[0])
  {
    hide Xor, Sub;
    var r, q := Round(tab, c, s), Round(tab, d, t);
    assert r[0] == q[0] && r[1..] == q[1..];
    SubInjective(tab, Xor(c, s[0]), Xor(d, t[0]));
    RoundInjective(tab, r[0], s[1..], t[1..]);
  }

  lemma {:induction false} LaterRoundInjective(tab: seq<Byte>, s: seq<Byte>, t: seq<Byte>)
    requires OneToOne(tab) && |s| == |t| >= 2
    requires Round(tab, s[|s| - 1], s) == Round(tab, t[|t| - 1], t)
    ensures s == t
  {
    hide Xor, Sub, Round;
    var c, d := s[|s| - 1], t[|t| - 1];
    RoundTail(tab, c, d, s, t);
    assert s[1..][|s| - 2] == c && t[1..][|t| - 2] == d;
    XorCancel(c, s[0], t[0]);
    assert s == [s[0]] + s[1..] && t == [t[0]] + t[1..];
  }

  /** Rounds that each carry in the last byte of the one before. */
  lemma {:induction false} LaterMixInjective(tab: seq<Byte>, s: seq<Byte>, t: seq<Byte>, rounds: nat)
    requires OneToOne(tab) && |s| == |t| >= 2
    requires Mix(tab, s[|s| - 1], s, rounds) == Mix(tab, t[|t| - 1], t, rounds)
    ensures s == t
    decreases rounds
  {
    hide Xor, Sub, Round;
    if rounds > 0 {
      var r, q := Round(tab, s[|s| - 1], s), Round(tab, t[|t| - 1], t);
      LaterMixInjective(tab, r, q, rounds - 1);
      LaterRoundInjective(tab, s, t);
    }
  }

  /** The mixing of two bytes or more is injective, for any number of rounds. One byte would not do: its
      second round would carry in the byte itself, and lose it. */
  lemma {:induction false} MixInjective(tab: seq<Byte>, c: Byte, s: seq<Byte>, t: seq<Byte>, rounds: nat)
    requires OneToOne(tab) && |s| == |t| >= 2 && Mix(tab, c, s, rounds) == Mix(tab, c, t, rounds)
    ensures s == t
  {
    hide Xor, Sub, Round;
    if rounds > 0 {
      LaterMixInjective(tab, Round(tab, c, s), Round(tab, c, t), rounds - 1);
      RoundInjective(tab, c, s, t);
    }
  }

  /** Why a single free byte is only substituted once: two rounds forget it. */
  lemma {:induction false} OneByteForgotten(tab: seq<Byte>, c: Byte, x: Byte, y: Byte)
    requires |tab| == 256
    ensures Mix(tab, c, [x], 2) == Mix(tab, c, [y], 2)
  {
    OneByteTwice(tab, c, x);
    OneByteTwice(tab, c, y);
  }

  lemma {:induction false} XorSelf(a: Byte)
    ensures Xor(a, a) == 0
  {
    XorBitsSelf(a, 8);
  }

  lemma {:induction false} OneByteTwice(tab: seq<Byte>, c: Byte, x: Byte)
    requires |tab| == 256
    ensures Mix(tab, c, [x], 2) == [Sub(tab, 0)]
  {
    hide Xor;
    var y := Sub(tab, Xor(c, x));
    XorSelf(y);
    assert Round(tab, c, [x]) == [y] && [x][1..] == [];
    assert Round(tab, y, [y]) == [Sub(tab, Xor(y, y))] && [y][1..] == [];
    assert Mix(tab, c, [x], 2) == Mix(tab, y, [y], 1) == Mix(tab, Sub(tab, 0), [Sub(tab, 0)], 0);
  }

  // ---------- Counting ----------

  /** The n low bytes of u, lowest first. */
  function LowBytes(u: nat, n: nat): (s: seq<Byte>)
    ensures |s| == n
  {
    if n == 0 then [] else [u % 256] + LowBytes(u / 256, n - 1)
  }

  function Power256(n: nat): (p: nat)
    ensures p > 0
  {
    if n == 0 then 1 else 256 * Power256(n - 1)
  }

  lemma {:induction false} LowBytesInjective(u: nat, v: nat, n: nat)
    requires u < Power256(n) && v < Power256(n) && LowBytes(u, n) == LowBytes(v, n)
    ensures u == v
    decreases n
  {
    if n > 0 {
      var s, t := LowBytes(u, n), LowBytes(v, n);
      assert s[0] == t[0] && s[1..] == t[1..];
      assert u / 256 < Power256(n - 1) && v / 256 < Power256(n - 1);
      LowBytesInjective(u / 256, v / 256, n - 1);
    }
  }

  // ---------- The program ----------

  /** The table: the identity, then 256 exchanges with a random place. */
  method Shuffle() returns (tab: array<Byte>)
    ensures fresh(tab) && tab.Length == 256 && OneToOne(tab[..])
  {
    tab := new Byte[256](_ => 0);
    for i := 0 to 256
      invariant forall k :: 0 <= k < i ==> tab[k] == k
    {
      tab[i] := i;
    }
    forall i, j | 0 <= i < j < 256 ensures tab[i] != tab[j] {
      assert tab[i] == i && tab[j] == j;
    }
    var j := 256;
    while j > 0
      invariant 0 <= j <= 256 && OneToOne(tab[..])
    {
      var i := Random(j);
      ghost var before := tab[..];
      var c := tab[j - 1];
      tab[j - 1] := tab[i];
      tab[i] := c;
      assert tab[..] == before[j - 1 := before[i]][i := before[j - 1]];
      Exchanged(before, i, j - 1);
      j := j - 1;
    }
  }

  lemma {:induction false} Exchanged(s: seq<Byte>, i: nat, j: nat)
    requires OneToOne(s) && i < 256 && j < 256
    ensures OneToOne(s[j := s[i]][i := s[j]])
  {
  }

  /** One round over the bytes of ip from `ipfixed` on. */
  method MixRound(ip: array<Byte>, ipfixed: nat, tab: array<Byte>, c0: Byte) returns (c: Byte)
    requires ip.Length == 4 && ipfixed <= 4 && tab.Length == 256 && ip != tab
    modifies ip
    ensures ip[..ipfixed] == old(ip[..ipfixed]) && ip[ipfixed..] == Round(tab[..], c0, old(ip[ipfixed..]))
    ensures c == Carry(c0, ip[ipfixed..])
  {
    hide Xor;
    c := c0;
    ghost var s, t := ip[ipfixed..], tab[..];
    ghost var done: seq<Byte>, rest := [], s;
    for i := ipfixed to 4
      invariant |done| == i - ipfixed && ip[ipfixed..i] == done && ip[i..] == rest && c == Carry(c0, done)
      invariant ip[..ipfixed] == old(ip[..ipfixed]) && tab[..] == t
      invariant Round(t, c0, s) == done + Round(t, c, rest)
    {
      RoundStep(t, c, rest, done);
      c := Xor(c, ip[i]);
      c := tab[c];
      ip[i] := c;
      assert ip[ipfixed..i + 1] == ip[ipfixed..i] + [c];
      done, rest := done + [c], rest[1..];
    }
    assert ip[ipfixed..4] == ip[ipfixed..];
  }

  lemma {:induction false} RoundStep(tab: seq<Byte>, c: Byte, rest: seq<Byte>, done: seq<Byte>)
    requires |tab| == 256 && rest != []
    ensures var y := Sub(tab, Xor(c, rest[0])); done + Round(tab, c, rest) == done + [y] + Round(tab, y, rest[1..])
  {
    hide Xor;
  }

  /** What is printed for the counter value u: the fixed bytes, then the mixed counter. */
  function Address(tab: seq<Byte>, fixed: seq<Byte>, u: nat): (a: seq<Byte>)
    requires |tab| == 256 && |fixed| <= 4
    ensures |a| == 4 && a[..|fixed|] == fixed
  {
    var free := LowBytes(u, 4 - |fixed|);
    fixed + if |fixed| == 3 then [Sub(tab, free[0])] else if |fixed| < 3 then Mix(tab, 0, free, 100) else free
  }

  /** Different counter values give different addresses. */
  lemma {:induction false} AddressInjective(tab: seq<Byte>, fixed: seq<Byte>, u: nat, v: nat)
    requires OneToOne(tab) && |fixed| <= 4 && u < Power256(4 - |fixed|) && v < Power256(4 - |fixed|)
    requires Address(tab, fixed, u) == Address(tab, fixed, v)
    ensures u == v
  {
    hide Mix;
    var n := 4 - |fixed|;
    var s, t := LowBytes(u, n), LowBytes(v, n);
    assert Address(tab, fixed, u)[|fixed|..] == Address(tab, fixed, v)[|fixed|..];
    if n == 1 {
      SubInjective(tab, s[0], t[0]);
      assert s == t;
    } else if n >= 2 {
      assert Mix(tab, 0, s, 100) == Address(tab, fixed, u)[|fixed|..];
      assert Mix(tab, 0, t, 100) == Address(tab, fixed, v)[|fixed|..];
      MixInjective(tab, 0, s, t, 100);
    }
    LowBytesInjective(u, v, n);
  }

  /** One address. */
  method Next(ip: array<Byte>, ipfixed: nat, tab: array<Byte>, loops: nat)
    requires ip.Length == 4 && ipfixed <= 4 && tab.Length == 256 && ip != tab
    modifies ip
    ensures ip[..] == Address(tab[..], old(ip[..ipfixed]), loops)
  {
    hide Mix, Xor, LowBytes;
    Spread(ip, ipfixed, loops);
    if ipfixed == 3 {
      var c := ip[3];
      ip[3] := tab[c];
    } else if ipfixed < 3 {
      MixAll(ip, ipfixed, tab);
    }
    assert ip[..] == ip[..ipfixed] + ip[ipfixed..];
  }

  /** The counter, byte by byte. */
  method Spread(ip: array<Byte>, ipfixed: nat, loops: nat)
    requires ip.Length == 4 && ipfixed <= 4
    modifies ip
    ensures ip[..ipfixed] == old(ip[..ipfixed]) && ip[ipfixed..] == LowBytes(loops, 4 - ipfixed)
  {
    var u := loops;
    assert LowBytes(loops, 4 - ipfixed) == [] + LowBytes(u, 4 - ipfixed);
    for i := ipfixed to 4
      invariant ip[..ipfixed] == old(ip[..ipfixed])
      invariant LowBytes(loops, 4 - ipfixed) == ip[ipfixed..i] + LowBytes(u, 4 - i)
    {
      ghost var before := ip[ipfixed..i];
      ip[i] := u % 256;
      assert ip[ipfixed..i + 1] == before + [ip[i]];
      assert before + ([ip[i]] + LowBytes(u / 256, 3 - i)) == (before + [ip[i]]) + LowBytes(u / 256, 3 - i);
      u := u / 256;
    }
    assert ip[ipfixed..4] == ip[ipfixed..];
  }

  /** The hundred rounds. */
  method MixAll(ip: array<Byte>, ipfixed: nat, tab: array<Byte>)
    requires ip.Length == 4 && ipfixed < 3 && tab.Length == 256 && ip != tab
    modifies ip
    ensures ip[..ipfixed] == old(ip[..ipfixed]) && ip[ipfixed..] == Mix(tab[..], 0, old(ip[ipfixed..]), 100)
  {
    hide Xor, Round;
    var c: Byte := 0;
    for j := 0 to 100
      invariant ip[..ipfixed] == old(ip[..ipfixed]) && tab[..] == old(tab[..])
      invariant Mix(tab[..], c, ip[ipfixed..], 100 - j) == Mix(tab[..], 0, old(ip[ipfixed..]), 100)
    {
      c := MixRound(ip, ipfixed, tab, c);
    }
  }

  /** The caps on the number of loops. */
  function Capped(loops: nat, ipfixed: nat): nat {
    var a := if ipfixed >= 1 && loops > 16777216 then 16777216 else loops;
    var b := if ipfixed >= 2 && a > 65536 then 65536 else a;
    var c := if ipfixed >= 3 && b > 256 then 256 else b;
    if ipfixed >= 4 && c > 1 then 1 else c
  }

  lemma {:induction false} Powers(n: nat)
    requires n <= 4
    ensures Power256(n) == if n == 0 then 1 else if n == 1 then 256 else if n == 2 then 65536
      else if n == 3 then 16777216 else 0x1_0000_0000
  {
    if n > 0 {
      Powers(n - 1);
    }
  }

  lemma {:induction false} CappedFits(loops: nat, ipfixed: nat)
    requires ipfixed <= 4 && (ipfixed == 0 ==> loops <= 0x1_0000_0000)
    ensures Capped(loops, ipfixed) <= Power256(4 - ipfixed)
  {
    Powers(4 - ipfixed);
  }

  /** The k-th line printed, of `total` in all. */
  ghost predicate Printed(out: seq<seq<Byte>>, tab: seq<Byte>, fixed: seq<Byte>, total: nat, k: nat)
    requires |tab| == 256 && |fixed| <= 4
  {
    k < |out| && k < total && out[k] == Address(tab, fixed, total - 1 - k)
  }

  lemma {:induction false} AllDifferent(out: seq<seq<Byte>>, tab: seq<Byte>, fixed: seq<Byte>, total: nat)
    requires OneToOne(tab) && |tab| == 256 && |fixed| <= 4 && total <= Power256(4 - |fixed|) && |out| == total
    requires forall k :: 0 <= k < |out| ==> Printed(out, tab, fixed, total, k)
    ensures forall i, j :: 0 <= i < j < |out| ==> out[i] != out[j]
    ensures forall a :: a in out ==> |a| == 4 && a[..|fixed|] == fixed
  {
    hide Address, OneToOne;
    forall i, j | 0 <= i < j < |out| ensures out[i] != out[j] {
      assert Printed(out, tab, fixed, total, i) && Printed(out, tab, fixed, total, j);
      if out[i] == out[j] {
        AddressInjective(tab, fixed, total - 1 - i, total - 1 - j);
      }
    }
    forall k | 0 <= k < |out| ensures |out[k]| == 4 && out[k][..|fixed|] == fixed {
      assert Printed(out, tab, fixed, total, k);
    }
  }

  /** The next line, behind those printed. */
  lemma {:induction false} PrintedMore(out: seq<seq<Byte>>, a: seq<Byte>, tab: seq<Byte>, fixed: seq<Byte>, total: nat)
    requires |tab| == 256 && |fixed| <= 4 && |out| < total && a == Address(tab, fixed, total - 1 - |out|)
    requires forall k :: 0 <= k < |out| ==> Printed(out, tab, fixed, total, k)
    ensures forall k :: 0 <= k < |out| + 1 ==> Printed(out + [a], tab, fixed, total, k)
  {
    hide Address;
    forall k | 0 <= k < |out| + 1 ensures Printed(out + [a], tab, fixed, total, k) {
      if k < |out| {
        assert Printed(out, tab, fixed, total, k);
      }
    }
  }

  /** The fixed bytes in place. */
  method Prepare(fixed: seq<Byte>) returns (ip: array<Byte>)
    requires |fixed| <= 4
    ensures fresh(ip) && ip.Length == 4 && ip[..|fixed|] == fixed
  {
    ip := new Byte[4](_ => 0);
    for i := 0 to |fixed|
      invariant ip[..i] == fixed[..i]
    {
      ip[i] := fixed[i];
    }
  }

  /** The printing loop. */
  method PrintAll(ip: array<Byte>, fixed: seq<Byte>, tab: array<Byte>, total: nat) returns (out: seq<seq<Byte>>)
    requires ip.Length == 4 && |fixed| <= 4 && ip[..|fixed|] == fixed && tab.Length == 256 && ip != tab
    modifies ip
    ensures |out| == total && forall k :: 0 <= k < |out| ==> Printed(out, tab[..], fixed, total, k)
  {
    hide Address, Printed;
    ghost var t := tab[..];
    var loops: nat := total;
    out := [];
    while loops > 0
      invariant loops + |out| == total && tab[..] == t && ip[..|fixed|] == fixed
      invariant forall k :: 0 <= k < |out| ==> Printed(out, t, fixed, total, k)
    {
      loops := loops - 1;
      Next(ip, |fixed|, tab, loops);
      PrintedMore(out, ip[..], t, fixed, total);
      assert ip[..|fixed|] == ip[..][..|fixed|];
      out := out + [ip[..]];
    }
  }

  /** All addresses printed are different, whatever the shuffle was. With nothing fixed this needs no
      more loops than there are addresses. */
  method Generate(fixed: seq<Byte>, limit: nat) returns (out: seq<seq<Byte>>)
    requires |fixed| <= 4 && (fixed == [] ==> limit <= 0x1_0000_0000)
    ensures |out| == Capped(limit, |fixed|)
    ensures forall a :: a in out ==> |a| == 4 && a[..|fixed|] == fixed
    ensures forall i, j :: 0 <= i < j < |out| ==> out[i] != out[j]
  {
    CappedFits(limit, |fixed|);
    hide Address, OneToOne, Capped, Power256, Printed;
    var tab := Shuffle();
    var ip := Prepare(fixed);
    var loops := Capped(limit, |fixed|);
    out := PrintAll(ip, fixed, tab, loops);
    AllDifferent(out, tab[..], fixed, loops);
  }
}
