/** The retry machine of src/dns_transmit.c: one question to up to sixteen servers, over UDP in up to four
    rounds and then over TCP. Sockets, clocks and what arrives are arbitrary. */
module Transmit {
  import opened Basics
  import opened Bytes
  import opened DnsName
  import opened DnsPacket

  const SERVERS: nat := 16
  const ROUNDS: nat := 4
  const IN: seq<Byte> := [0, 1]

  /** A connection or datagram that was tried: a server in a UDP round, or a server over TCP. */
  datatype Try = Udp(round: nat, server: nat) | Tcp(server: nat)

  /** The place of a try in the whole run. */
  function Place(t: Try): nat {
    match t
    case Udp(round, server) => round * SERVERS + server
    case Tcp(server) => ROUNDS * SERVERS + server
  }

  /** Every try comes later in the run than the one before, from round `first` on. */
  ghost predicate InOrder(tries: seq<Try>, first: nat) {
    && (forall i :: 0 <= i < |tries| ==> TryOk(tries[i], first))
    && forall i, j :: 0 <= i < j < |tries| ==> Place(tries[i]) < Place(tries[j])
  }

  ghost predicate TryOk(t: Try, first: nat) {
    match t
    case Udp(round, server) => first <= round < ROUNDS && server < SERVERS
    case Tcp(server) => server < SERVERS
  }

  lemma {:induction false} InOrderMore(tries: seq<Try>, first: nat, t: Try)
    requires InOrder(tries, first) && TryOk(t, first) && (tries != [] ==> Place(tries[|tries| - 1]) < Place(t))
    ensures InOrder(tries + [t], first)
  {
    forall i, j | 0 <= i < j < |tries + [t]| ensures Place((tries + [t])[i]) < Place((tries + [t])[j]) {
      if j == |tries| && i < |tries| - 1 {
        assert Place(tries[i]) < Place(tries[|tries| - 1]);
      }
    }
  }

  lemma {:induction false} InOrderPrefix(tries: seq<Try>, first: nat, k: nat)
    requires InOrder(tries, first) && k <= |tries|
    ensures InOrder(tries[..k], first)
  {
    hide TryOk, Place;
    assert forall i :: 0 <= i < k ==> tries[..k][i] == tries[i];
  }

  /** No server is tried twice in one round or twice over TCP, and nothing is tried over UDP after TCP. */
  lemma {:induction false} NothingTwice(tries: seq<Try>, first: nat, i: nat, j: nat)
    requires InOrder(tries, first) && i < j < |tries|
    ensures tries[i] != tries[j] && !(tries[i].Tcp? && tries[j].Udp?)
  {
    assert TryOk(tries[i], first) && TryOk(tries[j], first);
    assert Place(tries[i]) < Place(tries[j]);
  }

  /** A run has at most sixteen tries for each round and sixteen over TCP. */
  lemma {:induction false} FewTries(tries: seq<Try>, first: nat)
    requires InOrder(tries, first) && first <= ROUNDS
    ensures |tries| <= (ROUNDS - first) * SERVERS + SERVERS
    ensures |UdpTries(tries)| <= (ROUNDS - first) * SERVERS
  {
    CountTries(tries, first);
    UdpFirst(tries, first);
    var u := UdpTries(tries);
    InOrderPrefix(tries, first, |u|);
    assert tries[..|u|] == u;
    CountTries(u, first);
    if u != [] {
      assert u[|u| - 1] == tries[|u| - 1] && TryOk(tries[|u| - 1], first);
    }
  }

  lemma {:induction false} CountTries(tries: seq<Try>, first: nat)
    requires InOrder(tries, first) && first <= ROUNDS
    ensures tries != [] ==> |tries| <= Place(tries[|tries| - 1]) + 1 - first * SERVERS
    decreases |tries|
  {
    if tries != [] {
      var init := tries[..|tries| - 1];
      assert TryOk(tries[|tries| - 1], first);
      if init != [] {
        assert Place(tries[|tries| - 2]) < Place(tries[|tries| - 1]);
      }
      InOrderPrefix(tries, first, |tries| - 1);
      CountTries(init, first);
    }
  }

  function UdpTries(tries: seq<Try>): seq<Try> {
    if tries == [] then [] else UdpTries(tries[..|tries| - 1]) + if tries[|tries| - 1].Udp? then [tries[|tries| - 1]]
      else []
  }

  /** The UDP tries are the first part of the run. */
  lemma {:induction false} UdpFirst(tries: seq<Try>, first: nat)
    requires InOrder(tries, first)
    ensures UdpTries(tries) <= tries
    ensures forall i :: 0 <= i < |UdpTries(tries)| ==> tries[i].Udp?
    ensures forall i :: |UdpTries(tries)| <= i < |tries| ==> tries[i].Tcp?
    decreases |tries|
  {
    hide InOrder, TryOk, Place;
    if tries != [] {
      var init, t := tries[..|tries| - 1], tries[|tries| - 1];
      InOrderPrefix(tries, first, |tries| - 1);
      UdpFirst(init, first);
      var u := UdpTries(init);
      if t.Udp? && |u| < |init| {
        assert init[|u|].Tcp?;
        NothingTwice(tries, first, |u|, |tries| - 1);
        assert false;
      }
      assert UdpTries(tries) == tries[..|UdpTries(tries)|];
    }
  }

  // ---------- What has been tried ----------

  function ServerOf(t: Try): nat {
    match t
    case Udp(_, server) => server
    case Tcp(server) => server
  }

  /** The try that stands at a place. */
  function TryAt(p: nat): (t: Try)
    requires p < (ROUNDS + 1) * SERVERS
    ensures Place(t) == p && ServerOf(t) < SERVERS && (t.Tcp? <==> p >= ROUNDS * SERVERS)
  {
    if p < ROUNDS * SERVERS then Udp(p / SERVERS, p % SERVERS) else Tcp(p - ROUNDS * SERVERS)
  }

  lemma {:induction false} TryAtOk(first: nat, p: nat)
    requires first * SERVERS <= p < (ROUNDS + 1) * SERVERS
    ensures TryOk(TryAt(p), first)
  {
  }

  /** The tries that are due from place `lo` up to place `hi`: the servers that have an address, each once in
      every round, in their order, and then each once over TCP. */
  function Due(servers: seq<Word>, lo: nat, hi: nat): seq<Try>
    requires |servers| == SERVERS && hi <= (ROUNDS + 1) * SERVERS
    decreases hi
  {
    if hi <= lo then []
    else Due(servers, lo, hi - 1) + if servers[ServerOf(TryAt(hi - 1))] != 0 then [TryAt(hi - 1)] else []
  }

  /** The run so far: what is due over UDP up to place k, and over TCP up to `upto`. */
  ghost predicate Legs(tries: seq<Try>, servers: seq<Word>, first: nat, k: nat, upto: nat) {
    && |servers| == SERVERS && first * SERVERS <= k <= ROUNDS * SERVERS <= upto <= (ROUNDS + 1) * SERVERS
    && tries == Due(servers, first * SERVERS, k) + Due(servers, ROUNDS * SERVERS, upto)
  }

  /** Nothing due before place `upto` has been left out, and nothing else has been tried. */
  ghost predicate Covered(tries: seq<Try>, servers: seq<Word>, first: nat, tcp: bool, upto: nat) {
    if tcp then exists k: nat :: Legs(tries, servers, first, k, upto)
    else Legs(tries, servers, first, upto, ROUNDS * SERVERS)
  }

  /** A run: tries in that order, as far as it has come. */
  ghost predicate Ran(tries: seq<Try>, servers: seq<Word>, first: nat) {
    exists k: nat, upto: nat :: Legs(tries, servers, first, k, upto)
  }

  lemma {:induction false} CoveredRan(tries: seq<Try>, servers: seq<Word>, first: nat, tcp: bool, upto: nat)
    requires Covered(tries, servers, first, tcp, upto)
    ensures Ran(tries, servers, first)
  {
    hide Legs;
  }

  /** What is due behind a list of tries continues it in order. */
  lemma {:induction false} DueOrder(tries: seq<Try>, servers: seq<Word>, first: nat, lo: nat, hi: nat)
    requires |servers| == SERVERS && first * SERVERS <= lo <= hi <= (ROUNDS + 1) * SERVERS
    requires InOrder(tries, first) && (tries != [] ==> Place(tries[|tries| - 1]) < lo)
    ensures InOrder(tries + Due(servers, lo, hi), first)
    ensures var all := tries + Due(servers, lo, hi); all != [] ==> Place(all[|all| - 1]) < hi
    decreases hi
  {
    hide InOrder;
    if lo < hi {
      DueOrder(tries, servers, first, lo, hi - 1);
      var t := TryAt(hi - 1);
      TryAtOk(first, hi - 1);
      if servers[ServerOf(t)] != 0 {
        InOrderMore(tries + Due(servers, lo, hi - 1), first, t);
        assert tries + Due(servers, lo, hi) == tries + Due(servers, lo, hi - 1) + [t];
      } else {
        assert Due(servers, lo, hi) == Due(servers, lo, hi - 1);
      }
    } else {
      assert tries + Due(servers, lo, hi) == tries;
    }
  }

  /** A run keeps the order, so that nothing is tried twice. */
  lemma {:induction false} RanInOrder(tries: seq<Try>, servers: seq<Word>, first: nat)
    requires Ran(tries, servers, first)
    ensures InOrder(tries, first)
  {
    var k: nat, upto: nat :| Legs(tries, servers, first, k, upto);
    var udp := Due(servers, first * SERVERS, k);
    DueOrder([], servers, first, first * SERVERS, k);
    assert [] + udp == udp;
    DueOrder(udp, servers, first, ROUNDS * SERVERS, upto);
  }

  lemma {:induction false} DueNone(servers: seq<Word>, lo: nat)
    requires |servers| == SERVERS && lo <= (ROUNDS + 1) * SERVERS
    ensures Due(servers, lo, lo) == []
  {
  }

  lemma {:induction false} CoveredMore(tries: seq<Try>, servers: seq<Word>, first: nat, tcp: bool, t: Try)
    requires Covered(tries, servers, first, tcp, Place(t)) && TryOk(t, first) && t.Tcp? == tcp
    requires |servers| == SERVERS && servers[ServerOf(t)] != 0
    ensures Covered(tries + [t], servers, first, tcp, Place(t) + 1)
  {
    assert t == TryAt(Place(t));
    DueNone(servers, ROUNDS * SERVERS);
    if tcp {
      var k: nat :| Legs(tries, servers, first, k, Place(t));
      assert Legs(tries + [t], servers, first, k, Place(t) + 1);
    }
  }

  /** A server without an address is owed no try. */
  lemma {:induction false} CoveredSkip(tries: seq<Try>, servers: seq<Word>, first: nat, tcp: bool, t: Try)
    requires Covered(tries, servers, first, tcp, Place(t)) && TryOk(t, first) && t.Tcp? == tcp
    requires |servers| == SERVERS && servers[ServerOf(t)] == 0
    ensures Covered(tries, servers, first, tcp, Place(t) + 1)
  {
    assert t == TryAt(Place(t));
    if tcp {
      var k: nat :| Legs(tries, servers, first, k, Place(t));
      assert Legs(tries, servers, first, k, Place(t) + 1);
    }
  }

  lemma {:induction false} CoveredNone(servers: seq<Word>, first: nat)
    requires |servers| == SERVERS && first <= ROUNDS
    ensures Covered([], servers, first, false, first * SERVERS)
  {
    DueNone(servers, first * SERVERS);
    DueNone(servers, ROUNDS * SERVERS);
  }

  /** Going on over TCP. */
  lemma {:induction false} CoveredTcp(tries: seq<Try>, servers: seq<Word>, first: nat, upto: nat)
    requires Covered(tries, servers, first, false, upto)
    ensures Covered(tries, servers, first, true, ROUNDS * SERVERS)
  {
  }

  /** How many servers below k have an address. */
  function Addresses(servers: seq<Word>, k: nat): nat
    requires |servers| == SERVERS && k <= SERVERS
  {
    if k == 0 then 0 else Addresses(servers, k - 1) + if servers[k - 1] != 0 then 1 else 0
  }

  lemma {:induction false} TryAtServer(round: nat, server: nat)
    requires round <= ROUNDS && server < SERVERS
    ensures ServerOf(TryAt(round * SERVERS + server)) == server
  {
  }

  lemma {:induction false} DueRound(servers: seq<Word>, round: nat, k: nat)
    requires |servers| == SERVERS && round <= ROUNDS && k <= SERVERS
    ensures |Due(servers, round * SERVERS, round * SERVERS + k)| == Addresses(servers, k)
    decreases k
  {
    hide TryAt, ServerOf;
    var lo := round * SERVERS;
    if k > 0 {
      DueRound(servers, round, k - 1);
      TryAtServer(round, k - 1);
      assert Due(servers, lo, lo + k) == Due(servers, lo, lo + k - 1)
        + if servers[k - 1] != 0 then [TryAt(lo + k - 1)] else [];
    }
  }

  lemma {:induction false} DueSplit(servers: seq<Word>, lo: nat, mid: nat, hi: nat)
    requires |servers| == SERVERS && lo <= mid <= hi <= (ROUNDS + 1) * SERVERS
    ensures Due(servers, lo, hi) == Due(servers, lo, mid) + Due(servers, mid, hi)
    decreases hi
  {
    hide TryAt;
    if mid < hi { DueSplit(servers, lo, mid, hi - 1); }
  }

  /** With n addresses n tries are due over TCP, and n in each round. */
  lemma {:induction false} DueCounts(servers: seq<Word>, first: nat)
    requires |servers| == SERVERS && first <= ROUNDS
    ensures |Due(servers, ROUNDS * SERVERS, (ROUNDS + 1) * SERVERS)| == Addresses(servers, SERVERS)
    ensures |Due(servers, first * SERVERS, ROUNDS * SERVERS)| == (ROUNDS - first) * Addresses(servers, SERVERS)
    decreases ROUNDS - first
  {
    hide Due, Addresses;
    DueRound(servers, ROUNDS, SERVERS);
    DueRound(servers, first, SERVERS);
    if first < ROUNDS {
      DueCounts(servers, first + 1);
      DueSplit(servers, first * SERVERS, (first + 1) * SERVERS, ROUNDS * SERVERS);
      var n := Addresses(servers, SERVERS);
      assert (ROUNDS - first) * n == n + (ROUNDS - (first + 1)) * n;
    } else {
      DueNone(servers, first * SERVERS);
    }
  }

  /** The whole list of tries of a run that ends without an answer and without want of a socket: everything
      that was due over UDP; or, when it went on to TCP, some first part of that and everything due over TCP. */
  ghost predicate Everything(tries: seq<Try>, servers: seq<Word>, first: nat) {
    || Covered(tries, servers, first, false, ROUNDS * SERVERS)
    || Covered(tries, servers, first, true, (ROUNDS + 1) * SERVERS)
  }

  /** So such a run tries every server that has an address once in each round, or at least once over TCP. */
  lemma {:induction false} EverythingCounts(tries: seq<Try>, servers: seq<Word>, first: nat)
    requires Everything(tries, servers, first) && |servers| == SERVERS && first <= ROUNDS
    ensures
      || |tries| == (ROUNDS - first) * Addresses(servers, SERVERS)
      || Addresses(servers, SERVERS) <= |tries| <= (ROUNDS - first + 1) * Addresses(servers, SERVERS)
  {
    hide Due, Addresses;
    DueCounts(servers, first);
    DueNone(servers, ROUNDS * SERVERS);
    var n := Addresses(servers, SERVERS);
    if !Covered(tries, servers, first, false, ROUNDS * SERVERS) {
      var k: nat :| Legs(tries, servers, first, k, (ROUNDS + 1) * SERVERS);
      DueSplit(servers, first * SERVERS, k, ROUNDS * SERVERS);
      assert (ROUNDS - first + 1) * n == (ROUNDS - first) * n + n;
    }
  }

  // ---------- Accepting a packet ----------

  /** The question as it goes out: length, identifier and flags, one question, class IN. */
  ghost predicate QueryOk(query: seq<Byte>, q: seq<Byte>, qtype: seq<Byte>, recursive: bool) {
    && IsName(q) && |qtype| == 2 && |query| == |q| + 18
    && query[0] as int * 256 + query[1] as int == (|q| + 16) % 65536
    && query[4..14] == [if recursive then 1 else 0, 0, 0, 1, 0, 0, 0, 0, 0, 0]
    && query[14..14 + |q|] == q && query[14 + |q|..] == qtype + IN
  }

  function Built(q: seq<Byte>, qtype: seq<Byte>, recursive: bool): seq<Byte> {
    [(|q| + 16) / 256 % 256, (|q| + 16) % 256, 0, 0] + [if recursive then 1 else 0, 0, 0, 1, 0, 0, 0, 0, 0, 0] + q
      + (qtype + IN)
  }

  /** The packet answers this very question: identifier, one question, the same name up to case, type and
      class. */
  predicate Relevant(query: seq<Byte>, q: seq<Byte>, qtype: seq<Byte>, buf: seq<Byte>)
    requires |query| >= 4
  {
    && |buf| >= 12 && buf[..2] == query[2..4] && buf[4] == 0 && buf[5] == 1
    && GetName(buf, 12).Some?
    && var r := GetName(buf, 12).value;
       SameName(r.name, q) && r.end + 4 <= |buf| && buf[r.end..r.end + 2] == qtype && buf[r.end + 2..r.end + 4] == IN
  }

  /** The truncation bit. */
  predicate Truncated(buf: seq<Byte>) {
    |buf| < 12 || buf[2] / 2 % 2 == 1
  }

  /** Response codes other than success and name error. */
  predicate Refused(buf: seq<Byte>) {
    |buf| < 12 || (buf[3] % 16 != 0 && buf[3] % 16 != 3)
  }

  /** TC is the second lowest bit of the third byte, and the response code the low half of the fourth
      (section 4.1.1 of RFC 1035); codes 0 and 3 are no failure. */
  lemma {:induction false} HeaderMeaning(buf: seq<Byte>, high: nat, tc: nat, rd: nat, ra: nat, code: nat)
    requires |buf| >= 12 && buf[2] == 4 * high + 2 * tc + rd && tc <= 1 && rd <= 1
    requires buf[3] == 16 * ra + code && code <= 15
    ensures (Truncated(buf) <==> tc == 1) && (Refused(buf) <==> code != 0 && code != 3)
  {
  }

  method Irrelevant(query: seq<Byte>, q: seq<Byte>, qtype: seq<Byte>, buf: seq<Byte>) returns (b: bool)
    requires |query| >= 4 && IsName(q) && |qtype| == 2
    ensures b <==> !Relevant(query, q, qtype, buf)
  {
    hide GetName, IsName;
    var pos, out := PacketCopy(buf, 0, 12);
    if pos == 0 { return true; }
    assert out[..2] == buf[..2];
    if out[..2] != query[2..4] { return true; }
    if out[4] != 0 { return true; }
    if out[5] != 1 { return true; }
    var dn;
    pos, dn := PacketGetName(buf, pos);
    GetNameIsName(buf, 12);
    if pos == 0 { return true; }
    var same := DomainEqual(dn, q);
    if !same { return true; }
    ghost var end := pos;
    pos, out := PacketCopy(buf, pos, 4);
    if pos == 0 { return true; }
    assert out[..2] == buf[end..end + 2] && out[2..] == buf[end + 2..end + 4];
    if out[..2] != qtype { return true; }
    if out[2..] != IN { return true; }
    b := false;
  }

  // ---------- The machine ----------

  /** How a connection begins: it is up at once, it comes up later, or it cannot be started. */
  datatype Coming = AtOnce | Later | Never

  /** What the operating system answers, call by call: whether a socket can be had or bound, whether a
      datagram is sent, how a connection begins. */
  datatype Net = Net(opens: nat -> bool, sends: nat -> bool, comesUp: nat -> Coming)

  /** A network in which everything works at once. */
  ghost predicate AllUp(net: Net) {
    forall n: nat :: net.opens(n) && net.sends(n) && net.comesUp(n) == AtOnce
  }

  /** What the outside does in one call: whether the socket is ready, whether the deadline has passed, what
      is received (nothing on an error), whether a refusal was the error, how much of a write was taken,
      and whether a connection came up. */
  datatype Event = Event(ready: bool, due: bool, received: Option<seq<Byte>>, refused: bool, written: nat,
      connected: bool)

  /** How far a TCP exchange has come: the question sent from byte `skipped` on, the two length bytes, the
      packet. A position behind the end of the question is never left by sending. */
  ghost predicate Stream(query: seq<Byte>, packet: Option<seq<Byte>>, packetlen: nat, tcpstate: nat, pos: nat,
                         skipped: nat,
                         outbox: seq<Byte>, inbox: seq<Byte>) {
    && (packet.Some? <==> tcpstate == 5) && (tcpstate == 1 ==> outbox == [] && skipped == 0)
    && (tcpstate == 2 ==> skipped <= pos && (pos <= |query| ==> outbox == query[skipped..pos]))
    && (tcpstate >= 3 ==> skipped < |query| && outbox == query[skipped..])
    && (tcpstate == 3 ==> inbox == [])
    && (tcpstate == 4 ==> |inbox| == 1 && packetlen == inbox[0] as int)
    && (tcpstate == 5 ==>
      && |inbox| == 2 + pos && packetlen == inbox[0] as int * 256 + inbox[1] as int
      && pos <= packetlen && (packetlen > 0 ==> pos < packetlen) && packet.Some? && packet.value == inbox[2..])
  }

  /** The server has been sent the whole question exactly when the sending began at its first byte. */
  lemma {:induction false} WholeQuestion(query: seq<Byte>, packet: Option<seq<Byte>>, packetlen: nat, tcpstate: nat,
                                         pos: nat,
                                         skipped: nat, outbox: seq<Byte>, inbox: seq<Byte>)
    requires Stream(query, packet, packetlen, tcpstate, pos, skipped, outbox, inbox) && tcpstate >= 3
    ensures outbox == query <==> skipped == 0
    ensures |outbox| == |query| - skipped
  {
    assert query[0..] == query;
  }

  class Connection {
    const net: Net
    var query: Option<seq<Byte>>
    var packet: Option<seq<Byte>>
    var packetlen: nat
    var s1: bool
    var tcpstate: nat
    var udploop: nat
    var curserver: nat
    var pos: nat
    var servers: seq<Word>
    var qtype: seq<Byte>
    /** How many answers of the operating system have been used. */
    var used: nat
    /** Open sockets. */
    ghost var open: nat
    ghost var qname: seq<Byte>
    ghost var recursive: bool
    /** All tries since the start. */
    ghost var tries: seq<Try>
    /** What the server has been sent and has sent over this TCP connection. */
    ghost var outbox: seq<Byte>
    ghost var inbox: seq<Byte>
    /** Where in the question sending starts on this TCP connection. */
    ghost var skipped: nat
    /** Where this run began to use these answers. */
    ghost var since: nat

    /** The round a run starts in. */
    ghost function FirstRound(): (n: nat)
      reads this`recursive
      ensures n <= 1
    {
      if recursive then 1 else 0
    }

    /** Everything has been given back. */
    ghost predicate Released()
      reads this
    {
      query == None && packet == None && !s1 && open == 0
    }

    /** The resources are those the fields say. */
    ghost predicate Owned()
      reads this
    {
      open == if s1 then 1 else 0
    }

    ghost predicate Running()
      reads this
    {
      Owned() && query.Some? && QueryOk(query.value, qname, qtype, recursive) && |servers| == SERVERS && since <= used
    }

    /** The run has come to a place, over UDP or over TCP. */
    ghost predicate At(tcp: bool, upto: nat)
      reads this
    {
      Covered(tries, servers, FirstRound(), tcp, upto)
    }

    /** A socket could not be had or bound in this run. */
    ghost predicate NoSocket()
      reads this`used, this`since
    {
      used > since && !net.opens(used - 1)
    }

    /** Giving up: for want of a socket, or when nothing is left to try. */
    ghost predicate GaveUp()
      reads this
    {
      Released() && Ran(tries, servers, FirstRound()) && (NoSocket() || Everything(tries, servers, FirstRound()))
    }

    /** A question is out and an answer is awaited. */
    ghost predicate Waiting()
      reads this
    {
      && Running() && s1 && curserver < SERVERS && servers[curserver] != 0 && tries != []
      && tries[|tries| - 1] == (if tcpstate == 0 then Udp(udploop, curserver) else Tcp(curserver))
      && (tcpstate == 0 ==> FirstRound() <= udploop < ROUNDS) && tcpstate <= 5
      && Stream(query.value, packet, packetlen, tcpstate, pos, skipped, outbox, inbox)
      && At(tcpstate > 0, (if tcpstate == 0 then udploop else ROUNDS) * SERVERS + curserver + 1)
    }

    /** A connection to this server would be up at once. */
    ghost predicate UpAt(server: nat)
      reads this`servers
    {
      AllUp(net) && server < |servers| && servers[server] != 0
    }

    /** A new TCP connection. Its question is sent from the first byte on if it is still coming up; one that is
        up at once goes on from the position `pos` holds. */
    ghost predicate Begun()
      reads this`tcpstate, this`skipped, this`pos, this`used
    {
      used > 0 &&
      match net.comesUp(used - 1)
      case AtOnce => tcpstate == 2 && skipped == pos
      case Later => tcpstate == 1 && skipped == 0
      case Never => false
    }

    /** Going on over UDP: the question has been sent again. */
    ghost predicate Resent(r: int, more: bool)
      reads this`tcpstate, this`used
    {
      (r == 0 ==> more && tcpstate == 0 && used > 0 && net.sends(used - 1)) && (r != 0 ==> r == -1)
    }

    /** Going on over TCP, from this server on. */
    ghost predicate Moved(server: nat, was: nat, r: int, more: bool)
      reads this
    {
      && (r == 0 ==> more && Begun() && pos == was)
      && (r != 0 ==> r == -1)
      && (UpAt(server) ==> r == 0 && tcpstate == 2 && curserver == server)
    }

    constructor (net: Net)
      ensures Released() && this.net == net && pos == 0
    {
      this.net, used := net, 0;
      query, packet, packetlen, s1, tcpstate, udploop, curserver, pos := None, None, 0, false, 0, 0, 0, 0;
      servers, qtype, open, qname, recursive, tries, outbox, inbox, skipped, since := [], [0, 0], 0, [], false, [],
        [], [], 0, 0;
    }

    method SocketFree()
      requires Owned()
      modifies this`s1, this`open
      ensures !s1 && open == 0
    {
      if !s1 { return; }
      open := open - 1;
      s1 := false;
    }

    /** dns_transmit_free */
    method Free()
      requires Owned()
      modifies this`s1, this`open, this`query, this`packet
      ensures Released()
    {
      query := None;
      SocketFree();
      packet := None;
    }

    /** Two fresh random identifier bytes in the query. */
    method NewId()
      requires query.Some? && QueryOk(query.value, qname, qtype, recursive)
      modifies this`query
      ensures query.Some? && QueryOk(query.value, qname, qtype, recursive)
    {
      var a: Byte, b: Byte := *, *;
      ghost var was := query.value;
      query := Some(query.value[2 := a][3 := b]);
      assert query.value[4..14] == was[4..14] && query.value[14..14 + |qname|] == was[14..14 + |qname|];
      assert query.value[14 + |qname|..] == was[14 + |qname|..];
    }

    /** Opening and binding a socket; on failure everything is released. */
    method Open() returns (ok: bool)
      requires Owned() && !s1
      modifies this`s1, this`open, this`query, this`packet, this`used
      ensures ok ==> s1 && open == 1 && query == old(query) && packet == old(packet)
      ensures ok <==> net.opens(old(used)) && net.opens(old(used) + 1)
      ensures used > old(used) && (!ok ==> Released() && !net.opens(used - 1))
      ensures AllUp(net) ==> ok
    {
      ok := net.opens(used);
      used := used + 1;
      if !ok { Free(); return; }
      s1, open := true, 1;
      ok := net.opens(used);
      used := used + 1;
      if !ok { Free(); }
    }

    /** One server over UDP: 0 when the question has been sent, 1 when it could not be, -1 when the machine
        has run out of sockets. */
    method TryUdp() returns (r: int)
      requires Running() && !s1 && packet == None && curserver < SERVERS && servers[curserver] != 0
      requires FirstRound() <= udploop < ROUNDS && At(false, udploop * SERVERS + curserver)
      modifies this`query, this`packet, this`s1, this`open, this`tries, this`tcpstate, this`used
      ensures tries == old(tries) || tries == old(tries) + [Udp(udploop, curserver)]
      ensures r == 0 ==> Waiting() && Resent(r, |tries| > |old(tries)|)
      ensures r == 1 ==> Running() && !s1 && packet == None && At(false, udploop * SERVERS + curserver + 1)
      ensures r == 1 ==> used > 0 && !net.sends(used - 1)
      ensures r != 0 && r != 1 ==> r == -1 && GaveUp() && NoSocket()
      ensures AllUp(net) ==> r == 0
    {
      hide QueryOk, Covered, Ran, Everything, Stream, Waiting, Released;
      CoveredRan(tries, servers, FirstRound(), false, udploop * SERVERS + curserver);
      CoveredMore(tries, servers, FirstRound(), false, Udp(udploop, curserver));
      NewId();
      var ok := Open();
      if !ok { return -1; }
      tries := tries + [Udp(udploop, curserver)];
      r := SendUdp();
    }

    /** Sending the question on the new socket. */
    method SendUdp() returns (r: int)
      requires Running() && s1 && packet == None && curserver < SERVERS && servers[curserver] != 0
      requires tries != [] && tries[|tries| - 1] == Udp(udploop, curserver)
      requires FirstRound() <= udploop < ROUNDS && At(false, udploop * SERVERS + curserver + 1)
      modifies this`s1, this`open, this`tcpstate, this`used
      ensures used == old(used) + 1 && (r == 0 <==> net.sends(old(used)))
      ensures r == 0 ==> Waiting() && tcpstate == 0
      ensures r != 0 ==> r == 1 && Running() && !s1
    {
      hide QueryOk, Covered, Stream;
      StreamUdp(query.value, packetlen, pos, skipped, outbox, inbox);
      var sent := net.sends(used);
      used := used + 1;
      if sent {
        tcpstate := 0;
        return 0;
      }
      SocketFree();
      r := 1;
    }

    /** The rest of a round: 1 when no server in it could be asked. */
    method RestOfRound() returns (r: int)
      requires Running() && !s1 && packet == None && curserver <= SERVERS && FirstRound() <= udploop < ROUNDS
      requires At(false, udploop * SERVERS + curserver)
      modifies this`query, this`packet, this`s1, this`open, this`tries, this`tcpstate, this`used,
        this`curserver
      ensures old(tries) <= tries
      ensures r == 0 ==> Waiting() && Resent(r, |tries| > |old(tries)|)
      ensures r == 1 ==> Running() && !s1 && packet == None && curserver == SERVERS
      ensures r == 1 ==> At(false, (udploop + 1) * SERVERS)
      ensures r != 0 && r != 1 ==> r == -1 && GaveUp()
      ensures old(UpAt(curserver)) ==> r == 0 && curserver == old(curserver)
    {
      hide QueryOk, Covered, Everything, Ran, AllUp, Stream;
      while curserver < SERVERS
        invariant Running() && !s1 && packet == None && curserver <= SERVERS
        invariant At(false, udploop * SERVERS + curserver) && old(tries) <= tries
        invariant old(UpAt(curserver)) ==> curserver == old(curserver)
      {
        if servers[curserver] != 0 {
          r := TryUdp();
          if r == 0 || r == -1 { return; }
        } else {
          CoveredSkip(tries, servers, FirstRound(), false, Udp(udploop, curserver));
        }
        curserver := curserver + 1;
      }
      r := 1;
    }

    /** thisudp: the next server, from (udploop, curserver) on, to which the question can be sent. */
    method ThisUdp() returns (r: int)
      requires Running() && packet == None && curserver <= SERVERS && FirstRound() <= udploop < ROUNDS
      requires At(false, udploop * SERVERS + curserver)
      modifies this`query, this`packet, this`s1, this`open, this`tries, this`tcpstate, this`used,
        this`udploop, this`curserver
      ensures old(tries) <= tries
      ensures r == 0 ==> Waiting()
      ensures r != 0 ==> GaveUp()
      ensures Resent(r, |tries| > |old(tries)|)
      ensures old(UpAt(curserver)) ==> r == 0 && curserver == old(curserver)
    {
      hide QueryOk, Covered, Everything, Ran, AllUp, Stream, Waiting, Released, GaveUp;
      SocketFree();
      while udploop < ROUNDS
        decreases ROUNDS - udploop
        invariant Running() && !s1 && packet == None && curserver <= SERVERS && FirstRound() <= udploop <= ROUNDS
        invariant At(false, udploop * SERVERS + curserver) && old(tries) <= tries
        invariant old(UpAt(curserver)) ==> curserver == old(curserver) && udploop < ROUNDS
      {
        r := RestOfRound();
        if r == 0 || r == -1 { return; }
        udploop := udploop + 1;
        curserver := 0;
      }
      AllTried(false, udploop * SERVERS + curserver);
      r := -1;
    }

    /** Behind the last place there is nothing more to try. */
    lemma {:induction false} NothingLeft(tcp: bool, upto: nat)
      requires At(tcp, upto) && upto >= if tcp then (ROUNDS + 1) * SERVERS else ROUNDS * SERVERS
      ensures Ran(tries, servers, FirstRound()) && Everything(tries, servers, FirstRound())
    {
      CoveredRan(tries, servers, FirstRound(), tcp, upto);
      hide Due;
    }

    /** Giving up for want of anything left to try. */
    method AllTried(ghost tcp: bool, ghost upto: nat)
      requires Running() && At(tcp, upto) && upto >= if tcp then (ROUNDS + 1) * SERVERS else ROUNDS * SERVERS
      modifies this`s1, this`open, this`query, this`packet
      ensures GaveUp()
    {
      hide QueryOk, Covered, Everything, Ran;
      NothingLeft(tcp, upto);
      Free();
    }

    /** One server over TCP: 0 when a connection has been started, 1 when it could not be, -1 when the
        machine has run out of sockets. `pos` is not touched. */
    method TryTcp() returns (r: int)
      requires Running() && !s1 && packet == None && curserver < SERVERS && servers[curserver] != 0
      requires At(true, ROUNDS * SERVERS + curserver)
      modifies this`query, this`packet, this`s1, this`open, this`tries, this`outbox, this`inbox, this`skipped,
        this`tcpstate, this`used
      ensures tries == old(tries) || tries == old(tries) + [Tcp(curserver)]
      ensures r == 0 ==> Waiting() && |tries| > |old(tries)| && Begun()
      ensures r == 1 ==> Running() && !s1 && packet == None && At(true, ROUNDS * SERVERS + curserver + 1)
      ensures r == 1 ==> used > 0 && net.comesUp(used - 1) == Never
      ensures r != 0 && r != 1 ==> r == -1 && GaveUp() && NoSocket()
      ensures AllUp(net) ==> r == 0 && tcpstate == 2
    {
      hide QueryOk, Covered, Ran, Everything, Stream, Waiting, Released, Begun;
      CoveredRan(tries, servers, FirstRound(), true, ROUNDS * SERVERS + curserver);
      CoveredMore(tries, servers, FirstRound(), true, Tcp(curserver));
      NewId();
      var ok := Open();
      if !ok { return -1; }
      tries := tries + [Tcp(curserver)];
      r := ConnectTcp();
    }

    /** Connecting the new socket. */
    method ConnectTcp() returns (r: int)
      requires Running() && s1 && packet == None && curserver < SERVERS && servers[curserver] != 0
      requires tries != [] && tries[|tries| - 1] == Tcp(curserver) && At(true, ROUNDS * SERVERS + curserver + 1)
      modifies this`s1, this`open, this`outbox, this`inbox, this`skipped, this`tcpstate, this`used
      ensures used == old(used) + 1 && (r == 0 <==> net.comesUp(old(used)) != Never)
      ensures r == 0 ==> Waiting() && Begun() && (tcpstate == 2 <==> net.comesUp(old(used)) == AtOnce)
      ensures r != 0 ==> r == 1 && Running() && !s1
    {
      hide QueryOk, Covered, Stream;
      StreamStart(query.value, packetlen, pos);
      var coming := net.comesUp(used);
      used := used + 1;
      outbox, inbox := [], [];
      match coming {
        case AtOnce =>
          tcpstate, skipped := 2, pos;
        case Later =>
          tcpstate, skipped := 1, 0;
        case Never =>
          SocketFree();
          return 1;
      }
      r := 0;
    }

    /** thistcp: the next server from curserver on to which a connection can be started. */
    method ThisTcp() returns (r: int)
      requires Running() && curserver <= SERVERS && At(true, ROUNDS * SERVERS + curserver)
      modifies this`query, this`packet, this`s1, this`open, this`tries, this`outbox, this`inbox, this`skipped,
        this`tcpstate, this`used, this`curserver
      ensures old(tries) <= tries
      ensures r == 0 ==> Waiting()
      ensures r != 0 ==> GaveUp()
      ensures Moved(old(curserver), old(pos), r, |tries| > |old(tries)|)
    {
      hide QueryOk, Covered, Everything, Ran, AllUp, Stream, Waiting, Released, GaveUp, Begun;
      SocketFree();
      packet := None;
      while curserver < SERVERS
        invariant Running() && !s1 && packet == None && curserver <= SERVERS
        invariant At(true, ROUNDS * SERVERS + curserver) && old(tries) <= tries
        invariant old(UpAt(curserver)) ==> curserver == old(curserver)
      {
        if servers[curserver] != 0 {
          r := TryTcp();
          if r == 0 || r == -1 { return; }
        } else {
          CoveredSkip(tries, servers, FirstRound(), true, Tcp(curserver));
        }
        curserver := curserver + 1;
      }
      AllTried(true, ROUNDS * SERVERS + curserver);
      r := -1;
    }

    /** firstudp. Not before any TCP try: the run has just begun. */
    method FirstUdp() returns (r: int)
      requires Running() && packet == None && udploop == FirstRound() && tries == []
      modifies this`query, this`packet, this`s1, this`open, this`tries, this`tcpstate, this`used,
        this`udploop, this`curserver
      ensures r == 0 ==> Waiting()
      ensures r != 0 ==> GaveUp()
      ensures Resent(r, |tries| > |old(tries)|)
      ensures UpAt(0) ==> r == 0 && curserver == 0
    {
      hide QueryOk, Covered, Everything, Ran, AllUp, Stream;
      CoveredNone(servers, FirstRound());
      curserver := 0;
      r := ThisUdp();
    }

    method NextUdp() returns (r: int)
      requires Waiting() && tcpstate == 0
      modifies this`query, this`packet, this`s1, this`open, this`tries, this`tcpstate, this`used,
        this`udploop, this`curserver
      ensures old(tries) <= tries
      ensures r == 0 ==> Waiting()
      ensures r != 0 ==> GaveUp()
      ensures Resent(r, |tries| > |old(tries)|)
    {
      assert packet == None;
      hide QueryOk, Covered, Everything, Ran, AllUp, Stream;
      curserver := curserver + 1;
      r := ThisUdp();
    }

    /** firsttcp, from UDP or at the start. */
    method FirstTcp(ghost upto: nat) returns (r: int)
      requires Running() && At(false, upto)
      modifies this`query, this`packet, this`s1, this`open, this`tries, this`outbox, this`inbox, this`skipped,
        this`tcpstate, this`used, this`curserver
      ensures old(tries) <= tries
      ensures r == 0 ==> Waiting()
      ensures r != 0 ==> GaveUp()
      ensures Moved(0, old(pos), r, |tries| > |old(tries)|)
    {
      hide QueryOk, Covered, Everything, Ran, AllUp, Stream;
      CoveredTcp(tries, servers, FirstRound(), upto);
      curserver := 0;
      r := ThisTcp();
    }

    method NextTcp() returns (r: int)
      requires Running() && curserver < SERVERS && At(true, ROUNDS * SERVERS + curserver + 1)
      modifies this`query, this`packet, this`s1, this`open, this`tries, this`outbox, this`inbox, this`skipped,
        this`tcpstate, this`used, this`curserver
      ensures old(tries) <= tries
      ensures r == 0 ==> Waiting()
      ensures r != 0 ==> GaveUp()
      ensures Moved(old(curserver) + 1, old(pos), r, |tries| > |old(tries)|)
    {
      hide QueryOk, Covered, Everything, Ran, AllUp, Stream;
      curserver := curserver + 1;
      r := ThisTcp();
    }

    /** The question, and what is remembered of it. */
    method Prepare(servers: seq<Word>, flagrecursive: bool, q: seq<Byte>, qtype: seq<Byte>)
      requires Owned() && |servers| == SERVERS && IsName(q) && |qtype| == 2
      modifies this`s1, this`open, this`query, this`packet, this`qtype, this`servers, this`udploop,
        this`qname, this`recursive, this`tries, this`since
      ensures qname == q && this.qtype == qtype && recursive == flagrecursive && this.servers == servers
      ensures Running() && packet == None && udploop == FirstRound() && tries == [] && At(false, FirstRound() * SERVERS)
    {
      hide QueryOk, Built, Covered, IsName;
      Free();
      query := Some(Built(q, qtype, flagrecursive));
      QueryBuilt(q, qtype, flagrecursive);
      this.qtype, this.servers, udploop := qtype, servers, if flagrecursive then 1 else 0;
      qname, recursive, tries, since := q, flagrecursive, [], used;
      CoveredNone(servers, FirstRound());
    }

    /** dns_transmit_start */
    method Start(servers: seq<Word>, flagrecursive: bool, q: seq<Byte>, qtype: seq<Byte>) returns (r: int)
      requires Owned() && |servers| == SERVERS && IsName(q) && |qtype| == 2
      modifies this
      ensures qname == q && this.qtype == qtype && recursive == flagrecursive && this.servers == servers
        && pos == old(pos)
      ensures r == 0 ==> Waiting() && (tcpstate > 0 <==> |q| + 16 > 512)
      ensures r == 0 ==> if tcpstate > 0 then Begun() else Resent(r, true)
      ensures r != 0 ==> r == -1 && GaveUp()
      ensures UpAt(0) ==> r == 0 && curserver == 0
    {
      hide QueryOk, Covered, Everything, Ran, AllUp, Stream, IsName;
      Prepare(servers, flagrecursive, q, qtype);
      if |q| + 16 > 512 {
        r := FirstTcp(FirstRound() * SERVERS);
      } else {
        r := FirstUdp();
      }
    }

    /** dns_transmit_get: 1 with an answer to this question, 0 to wait on, -1 when all tries are over. */
    method Get(e: Event) returns (r: int)
      requires Waiting()
      modifies this
      ensures unchanged(this`servers, this`qtype, this`qname, this`recursive) && old(tries) <= tries
      ensures r == 0 ==> Waiting() && (old(tcpstate) > 0 ==> tcpstate > 0)
      ensures r == 0 && tcpstate > 0 ==> if |tries| > |old(tries)| then Begun() else skipped == old(skipped)
      ensures !e.ready && !e.due ==> r == 0 && unchanged(this)
      ensures !e.ready && e.due && old(tcpstate) == 0 ==> Resent(r, |tries| > |old(tries)|)
      ensures !e.ready && e.due && old(tcpstate) > 0 ==> Moved(old(curserver) + 1, old(pos), r, |tries| > |old(tries)|)
      ensures e.ready && old(tcpstate) == 0 ==>
        if Ignored(e, old(udploop)) then r == 0 && unchanged(this)
        else if e.received == None || e.received == Some([]) then Resent(r, |tries| > |old(tries)|)
        else Heard(old(query.value), e.received.value, old(udploop), old(pos), r, |tries| > |old(tries)|)
      ensures e.ready && old(tcpstate) == 1 ==>
        CameUp(old(query.value), e.connected, old(curserver), old(pos), r, |tries| > |old(tries)|)
      ensures e.ready && old(tcpstate) == 2 ==>
        Written(old(query.value), old(curserver), old(pos), old(outbox), e.written, r, |tries| > |old(tries)|)
      ensures e.ready && old(tcpstate) >= 3 ==>
        Received(old(query.value), old(tcpstate), old(curserver), old(packetlen), old(pos), old(packet), e.received,
          r, |tries| > |old(tries)|)
      ensures r == 1 ==> Answered(old(query.value)) && Ran(tries, servers, FirstRound())
      ensures r != 0 && r != 1 ==> r == -1 && GaveUp()
    {
      hide QueryOk, Stream, Answered, Heard, Written, Received, CameUp, Covered, Everything, Ran, AllUp, Place, UpAt,
        Ignored, NoSocket;
      if !e.ready {
        if !e.due { return 0; }
        if tcpstate == 0 {
          r := NextUdp();
        } else {
          r := NextTcp();
        }
        return;
      }
      if tcpstate == 0 {
        r := GetUdp(e);
      } else {
        r := GetTcp(e);
      }
    }

    /** The packet kept is a good one; the socket and the query have been given back. */
    ghost predicate Answered(prior: seq<Byte>)
      reads this
    {
      query == None && !s1 && open == 0 && packet.Some? && Good(prior, packet.value)
    }

    /** An untruncated answer to the question, with response code 0 or 3. */
    ghost predicate Good(prior: seq<Byte>, buf: seq<Byte>)
      reads this`qname, this`qtype
    {
      |prior| >= 4 && Relevant(prior, qname, qtype, buf) && !Truncated(buf) && !Refused(buf)
    }

    /** What is ignored over UDP: a refusal in the third round, and a datagram that does not fit the buffer. */
    ghost predicate Ignored(e: Event, round: nat) {
      if e.received == None then e.refused && round == 2 else |e.received.value| >= 513
    }

    /** What comes of a connection that was coming up: sending begins at the first byte of the question, or the
        next server is tried. */
    ghost predicate CameUp(prior: seq<Byte>, connected: bool, server: nat, was: nat, r: int, more: bool)
      reads this
    {
      if connected then
        r == 0 && !more && tcpstate == 2 && pos == 0 && skipped == 0 && curserver == server && query == Some(prior)
      else Moved(server + 1, was, r, more)
    }

    /** What a datagram leads to. An answer to another question is ignored; a good one is taken; a truncated
        one makes the machine go on over TCP; and a failure makes it go on to the next server, but for the
        third round, in which failures are ignored. */
    ghost predicate Heard(prior: seq<Byte>, buf: seq<Byte>, round: nat, was: nat, r: int, more: bool)
      reads this
    {
      && |prior| >= 4
      && (r == 1 <==> Good(prior, buf)) && (r == 1 ==> packet == Some(buf))
      && (!Relevant(prior, qname, qtype, buf) ==> r == 0 && !more && query == Some(prior))
      && (Relevant(prior, qname, qtype, buf) && Truncated(buf) ==> Moved(0, was, r, more))
      && (Relevant(prior, qname, qtype, buf) && !Truncated(buf) && Refused(buf) ==>
        if round == 2 then r == 0 && !more && query == Some(prior) else Resent(r, more))
    }

    /** What sending leads to. As much of the rest of the question as is taken has been sent, and at its end
        the answer is awaited; from a position behind the end that never comes; and when nothing is sent the
        next server is tried. */
    ghost predicate Written(prior: seq<Byte>, server: nat, was: nat, sent: seq<Byte>, written: nat, r: int, more: bool)
      reads this
    {
      if written == 0 || was == |prior| then Moved(server + 1, was, r, more)
      else
        && r == 0 && !more && query == Some(prior) && curserver == server && was < pos
        && (was < |prior| ==>
          && pos == (if written < |prior| - was then was + written else |prior|)
          && outbox == sent + prior[was..pos] && tcpstate == if pos == |prior| then 3 else 2)
        && (was > |prior| ==> tcpstate == 2 && pos == was + written)
    }

    /** What receiving leads to: the two length bytes, then the packet up to that length, which is judged
        once it is complete. */
    ghost predicate Received(prior: seq<Byte>, state: nat, server: nat, length: nat, was: nat, part: Option<seq<Byte>>,
                             received: Option<seq<Byte>>, r: int, more: bool)
      reads this
    {
      if received == None || received == Some([]) || (state == 5 && length == 0) then Moved(server + 1, was, r, more)
      else if state == 5 && was + |received.value| >= length then
        && part.Some? && was <= length
        && (r == 1 <==> Good(prior, part.value + received.value[..length - was]))
        && (r != 1 ==> Moved(server + 1, length, r, more))
      else
        && r == 0 && !more && query == Some(prior) && curserver == server
        && (state == 3 ==> tcpstate == 4 && packetlen == received.value[0] as int)
        && (state == 4 ==>
          tcpstate == 5 && pos == 0 && packet == Some([]) && packetlen == length * 256 + received.value[0] as int)
        && (state == 5 ==>
          tcpstate == 5 && packetlen == length && pos == was + |received.value| && part.Some?
            && packet == Some(part.value + received.value))
    }

    method GetUdp(e: Event) returns (r: int)
      requires Waiting() && tcpstate == 0
      modifies this
      ensures unchanged(this`servers, this`qtype, this`qname, this`recursive) && old(tries) <= tries
      ensures r == 0 ==> Waiting() && (tcpstate > 0 ==> |tries| > |old(tries)| && Begun())
      ensures
        if Ignored(e, old(udploop)) then r == 0 && unchanged(this)
        else if e.received == None || e.received == Some([]) then Resent(r, |tries| > |old(tries)|)
        else Heard(old(query.value), e.received.value, old(udploop), old(pos), r, |tries| > |old(tries)|)
      ensures r == 1 ==> Answered(old(query.value)) && Ran(tries, servers, FirstRound())
      ensures r != 0 && r != 1 ==> r == -1 && GaveUp()
    {
      hide QueryOk, Stream, Answered, Heard, Covered, Everything, Ran, AllUp, Place, UpAt, NoSocket;
      if e.received == None || e.received == Some([]) {
        if e.received == None && e.refused && udploop == 2 { return 0; }
        r := NextUdp();
        return;
      }
      if |e.received.value| + 1 > 513 { return 0; }
      r := HandleUdp(e.received.value);
    }

    method IsIrrelevant(buf: seq<Byte>) returns (b: bool)
      requires Running()
      ensures |query.value| >= 4 && (b <==> !Relevant(query.value, qname, qtype, buf))
    {
      hide QueryOk, Relevant, IsName;
      QueryLong(query.value, qname, qtype, recursive);
      b := Irrelevant(query.value, query.value[14..|query.value| - 4], qtype, buf);
    }

    method HandleUdp(udpbuf: seq<Byte>) returns (r: int)
      requires Waiting() && tcpstate == 0
      modifies this
      ensures unchanged(this`servers, this`qtype, this`qname, this`recursive) && old(tries) <= tries
      ensures r == 0 ==> Waiting() && (tcpstate > 0 ==> |tries| > |old(tries)| && Begun())
      ensures Heard(old(query.value), udpbuf, old(udploop), old(pos), r, |tries| > |old(tries)|)
      ensures r == 1 ==> Answered(old(query.value)) && Ran(tries, servers, FirstRound())
      ensures r != 0 && r != 1 ==> r == -1 && GaveUp()
    {
      hide GaveUp, Answered, QueryOk, Stream, Relevant, Truncated, Refused, Place, Covered, Everything, Ran, AllUp,
        UpAt;
      var b := IsIrrelevant(udpbuf);
      if b { return 0; }
      if Truncated(udpbuf) {
        r := FirstTcp(udploop * SERVERS + curserver + 1);
        return;
      }
      r := TakeUdp(udpbuf);
    }

    /** The datagram answers the question and is not truncated. */
    method TakeUdp(udpbuf: seq<Byte>) returns (r: int)
      requires Waiting() && tcpstate == 0
      requires |query.value| >= 4 && Relevant(query.value, qname, qtype, udpbuf) && !Truncated(udpbuf)
      modifies this
      ensures unchanged(this`servers, this`qtype, this`qname, this`recursive) && old(tries) <= tries
      ensures r == 0 ==> Waiting() && tcpstate == 0
      ensures Heard(old(query.value), udpbuf, old(udploop), old(pos), r, |tries| > |old(tries)|)
      ensures r == 1 ==> Answered(old(query.value)) && Ran(tries, servers, FirstRound())
      ensures r != 0 && r != 1 ==> r == -1 && GaveUp()
    {
      hide GaveUp, QueryOk, Stream, Relevant, Truncated, Refused, Place, Covered, Everything, Ran, AllUp, UpAt,
        Moved, Begun;
      CoveredRan(tries, servers, FirstRound(), false, udploop * SERVERS + curserver + 1);
      if Refused(udpbuf) {
        if udploop == 2 { return 0; }
        r := NextUdp();
        return;
      }
      KeepPacket(udpbuf);
      r := 1;
    }

    /** The datagram is the answer. */
    method KeepPacket(udpbuf: seq<Byte>)
      requires Owned()
      modifies this`s1, this`open, this`packetlen, this`packet, this`query
      ensures query == None && !s1 && open == 0 && packet == Some(udpbuf) && packetlen == |udpbuf|
    {
      SocketFree();
      packetlen := |udpbuf|;
      packet := Some(udpbuf);
      query := None;
    }

    method GetTcp(e: Event) returns (r: int)
      requires Waiting() && tcpstate > 0
      modifies this
      ensures unchanged(this`servers, this`qtype, this`qname, this`recursive) && old(tries) <= tries
      ensures r == 0 ==> Waiting() && tcpstate > 0
      ensures r == 0 ==> if |tries| > |old(tries)| then Begun() else skipped == old(skipped)
      ensures old(tcpstate) == 1 ==>
        CameUp(old(query.value), e.connected, old(curserver), old(pos), r, |tries| > |old(tries)|)
      ensures old(tcpstate) == 2 ==>
        Written(old(query.value), old(curserver), old(pos), old(outbox), e.written, r, |tries| > |old(tries)|)
      ensures old(tcpstate) >= 3 ==>
        Received(old(query.value), old(tcpstate), old(curserver), old(packetlen), old(pos), old(packet), e.received,
          r, |tries| > |old(tries)|)
      ensures r == 1 ==> Answered(old(query.value)) && Ran(tries, servers, FirstRound())
      ensures r != 0 && r != 1 ==> r == -1 && GaveUp()
    {
      hide QueryOk, Stream, Answered, Written, Received, CameUp, Covered, Everything, Ran, AllUp, Place, UpAt,
        NoSocket;
      if tcpstate == 1 {
        r := Connected(e.connected);
      } else if tcpstate == 2 {
        r := Write(e.written);
      } else {
        r := Receive(e.received);
      }
    }

    /** A connection that was coming up is up, or has failed. */
    method Connected(connected: bool) returns (r: int)
      requires Waiting() && tcpstate == 1
      modifies this
      ensures unchanged(this`servers, this`qtype, this`qname, this`recursive) && old(tries) <= tries
      ensures r == 0 ==> Waiting() && tcpstate > 0
      ensures r == 0 ==> if |tries| > |old(tries)| then Begun() else skipped == old(skipped)
      ensures CameUp(old(query.value), connected, old(curserver), old(pos), r, |tries| > |old(tries)|)
      ensures r != 0 ==> r == -1 && GaveUp()
    {
      hide QueryOk, Covered, Everything, Ran, AllUp, UpAt;
      if !connected {
        hide Stream;
        r := NextTcp();
        return;
      }
      pos, tcpstate := 0, 2;
      r := 0;
    }

    /** Sending more of the question; at most what is left is taken. */
    method Write(written: nat) returns (r: int)
      requires Waiting() && tcpstate == 2
      modifies this
      ensures unchanged(this`servers, this`qtype, this`qname, this`recursive) && old(tries) <= tries
      ensures r == 0 ==> Waiting() && tcpstate > 0
      ensures r == 0 ==> if |tries| > |old(tries)| then Begun() else skipped == old(skipped)
      ensures Written(old(query.value), old(curserver), old(pos), old(outbox), written, r, |tries| > |old(tries)|)
      ensures r != 0 ==> r == -1 && GaveUp()
    {
      hide QueryOk, Covered, Everything, Ran, AllUp, UpAt, Place;
      if written == 0 || pos == |query.value| {
        hide Stream;
        r := NextTcp();
        return;
      }
      var n := if pos < |query.value| && written > |query.value| - pos then |query.value| - pos else written;
      if pos < |query.value| { outbox := outbox + query.value[pos..pos + n]; }
      pos := pos + n;
      if pos == |query.value| { tcpstate, inbox := 3, []; }
      r := 0;
    }

    /** The length of the answer, byte by byte, and then the answer. */
    method Receive(received: Option<seq<Byte>>) returns (r: int)
      requires Waiting() && tcpstate >= 3
      modifies this
      ensures unchanged(this`servers, this`qtype, this`qname, this`recursive) && old(tries) <= tries
      ensures r == 0 ==> Waiting() && tcpstate > 0
      ensures r == 0 ==> if |tries| > |old(tries)| then Begun() else skipped == old(skipped)
      ensures Received(old(query.value), old(tcpstate), old(curserver), old(packetlen), old(pos), old(packet),
        received, r, |tries| > |old(tries)|)
      ensures r == 1 ==> Answered(old(query.value)) && Ran(tries, servers, FirstRound())
      ensures r != 0 && r != 1 ==> r == -1 && GaveUp()
    {
      hide QueryOk, Answered, Covered, Everything, Ran, AllUp, UpAt, Place;
      if received == None || received == Some([]) {
        hide Stream;
        r := NextTcp();
        return;
      }
      var bytes := received.value;
      if tcpstate == 3 {
        packetlen, tcpstate, inbox := bytes[0], 4, [bytes[0]];
        return 0;
      }
      if tcpstate == 4 {
        packetlen := packetlen * 256 + bytes[0] as int;
        tcpstate, pos, inbox := 5, 0, inbox + [bytes[0]];
        packet := Some([]);
        return 0;
      }
      hide Stream;
      r := ReadPacket(bytes);
    }

    /** Receiving more of the packet; what is behind its length is not read. */
    method ReadPacket(bytes: seq<Byte>) returns (r: int)
      requires Waiting() && tcpstate == 5 && bytes != []
      modifies this
      ensures unchanged(this`servers, this`qtype, this`qname, this`recursive) && old(tries) <= tries
      ensures r == 0 ==> Waiting() && tcpstate > 0
      ensures r == 0 ==> if |tries| > |old(tries)| then Begun() else skipped == old(skipped)
      ensures Received(old(query.value), 5, old(curserver), old(packetlen), old(pos), old(packet), Some(bytes), r,
        |tries| > |old(tries)|)
      ensures r == 1 ==> Answered(old(query.value)) && Ran(tries, servers, FirstRound())
      ensures r != 0 && r != 1 ==> r == -1 && GaveUp()
    {
      hide QueryOk, Stream, Answered, Covered, Everything, Ran, AllUp, UpAt, Place, Relevant, Truncated, Refused;
      StreamPacket(query.value, packet, packetlen, pos, skipped, outbox, inbox, bytes);
      if packetlen == 0 {
        r := NextTcp();
        return;
      }
      var got := if |bytes| > packetlen - pos then bytes[..packetlen - pos] else bytes;
      assert |bytes| <= packetlen - pos ==> got == bytes[..|bytes|];
      packet := Some(packet.value + got);
      inbox := inbox + got;
      pos := pos + |got|;
      if pos < packetlen { return 0; }
      r := FinishPacket();
    }

    method Accepts(buf: seq<Byte>) returns (b: bool)
      requires Running()
      ensures |query.value| >= 4 && (b <==>
        Relevant(query.value, qname, qtype, buf) && !Truncated(buf) && !Refused(buf))
    {
      hide QueryOk, Relevant, Truncated, Refused;
      b := IsIrrelevant(buf);
      b := !b && !Truncated(buf) && !Refused(buf);
    }

    /** The packet is there: it is the answer, or the next server is tried. */
    method FinishPacket() returns (r: int)
      requires Running() && packet.Some? && curserver < SERVERS && At(true, ROUNDS * SERVERS + curserver + 1)
      modifies this
      ensures unchanged(this`servers, this`qtype, this`qname, this`recursive) && old(tries) <= tries
      ensures r == 0 ==> Waiting() && tcpstate > 0
      ensures r == 1 <==> old(Good(query.value, packet.value))
      ensures r == 1 ==> packet == old(packet)
      ensures r != 1 ==> Moved(old(curserver) + 1, old(pos), r, |tries| > |old(tries)|)
      ensures r == 1 ==> Answered(old(query.value)) && Ran(tries, servers, FirstRound())
      ensures r != 0 && r != 1 ==> r == -1 && GaveUp()
    {
      hide QueryOk, Stream, Relevant, Truncated, Refused, IsName, Place, Covered, Everything, Ran, AllUp, UpAt;
      CoveredRan(tries, servers, FirstRound(), true, ROUNDS * SERVERS + curserver + 1);
      SocketFree();
      var good := Accepts(packet.value);
      if !good {
        r := NextTcp();
        return;
      }
      query := None;
      r := 1;
    }
  }

  /** Reading some of the packet, or none of an empty one. */
  lemma {:induction false} StreamPacket(query: seq<Byte>, packet: Option<seq<Byte>>, packetlen: nat, pos: nat,
                                        skipped: nat,
                                        outbox: seq<Byte>, inbox: seq<Byte>, bytes: seq<Byte>)
    requires Stream(query, packet, packetlen, 5, pos, skipped, outbox, inbox)
    ensures packet.Some? && pos <= packetlen
    ensures packetlen > 0 ==>
      var got := if |bytes| > packetlen - pos then bytes[..packetlen - pos] else bytes;
      pos + |got| < packetlen ==>
        Stream(query, Some(packet.value + got), packetlen, 5, pos + |got|, skipped, outbox, inbox + got)
  {
  }

  lemma {:induction false} StreamStart(query: seq<Byte>, packetlen: nat, pos: nat)
    ensures Stream(query, None, packetlen, 1, pos, 0, [], []) && Stream(query, None, packetlen, 2, pos, pos, [], [])
  {
  }

  lemma {:induction false} StreamUdp(query: seq<Byte>, packetlen: nat, pos: nat, skipped: nat, outbox: seq<Byte>,
                                     inbox: seq<Byte>)
    ensures Stream(query, None, packetlen, 0, pos, skipped, outbox, inbox)
  {
  }

  lemma {:induction false} FourParts(a: seq<Byte>, b: seq<Byte>, c: seq<Byte>, d: seq<Byte>)
    ensures var s := a + b + c + d;
      s[..|a|] == a && s[|a|..|a + b|] == b && s[|a + b|..|a + b + c|] == c && s[|a + b + c|..] == d
  {
  }

  lemma {:induction false} QueryBuilt(q: seq<Byte>, qtype: seq<Byte>, recursive: bool)
    requires IsName(q) && |qtype| == 2
    ensures QueryOk(Built(q, qtype, recursive), q, qtype, recursive)
  {
    hide IsName;
    var n := |q| + 16;
    TwoBytes(n);
    var head: seq<Byte>, ten: seq<Byte> := [n / 256 % 256, n % 256, 0, 0],
      [if recursive then 1 else 0, 0, 0, 1, 0, 0, 0, 0, 0, 0];
    FourParts(head, ten, q, qtype + IN);
    assert Built(q, qtype, recursive) == head + ten + q + (qtype + IN);
  }

  lemma {:induction false} TwoBytes(n: nat)
    ensures n / 256 % 256 * 256 + n % 256 == n % 65536
  {
    var a, b, q := n / 256 % 256, n % 256, n / 256 / 256;
    assert n == 65536 * q + (256 * a + b);
  }

  lemma {:induction false} QueryLong(query: seq<Byte>, q: seq<Byte>, qtype: seq<Byte>, recursive: bool)
    requires QueryOk(query, q, qtype, recursive)
    ensures |query| >= 18 && IsName(q) && |qtype| == 2 && query[14..|query| - 4] == q
  {
  }

  // ---------- A question that is not sent whole ----------

  /** A truncated answer to a question about the root. */
  function CutAnswer(query: seq<Byte>, qtype: seq<Byte>): seq<Byte>
    requires |query| >= 4
  {
    query[2..4] + [2, 0] + [0, 1, 0, 0, 0, 0, 0, 0] + [0] + qtype + IN
  }

  lemma {:induction false} CutAnswerRelevant(query: seq<Byte>, qtype: seq<Byte>)
    requires |query| >= 4 && |qtype| == 2
    ensures var buf := CutAnswer(query, qtype); |buf| == 17 && Relevant(query, [0], qtype, buf) && Truncated(buf)
  {
    var buf := CutAnswer(query, qtype);
    assert buf[..2] == query[2..4] && buf[13..15] == qtype && buf[15..17] == IN;
    assert buf[12] == 0;
    assert GetName(buf, 12).Some? && GetName(buf, 12).value.name == [0] && GetName(buf, 12).value.end == 13;
  }

  /** A question about the root to two servers that can be reached at once, up to its TCP connection to the
      first. */
  method OverTcp(net: Net, servers: seq<Word>, qtype: seq<Byte>) returns (c: Connection)
    requires AllUp(net) && |servers| == SERVERS && servers[0] != 0 && servers[1] != 0 && |qtype| == 2
    ensures fresh(c) && c.net == net && c.servers == servers && c.Waiting()
    ensures c.tcpstate == 2 && c.curserver == 0 && c.pos == 0 && |c.qname| == 1
  {
    hide AllUp, Relevant, Truncated, Stream, Covered, Ran, Everything;
    c := new Connection(net);
    var r := c.Start(servers, false, [0], qtype);
    assert c.UpAt(0);
    CutAnswerRelevant(c.query.value, qtype);
    r := c.Get(Event(true, false, Some(CutAnswer(c.query.value, qtype)), false, 0, false));
    assert c.UpAt(0);
  }

  /** The first server takes five bytes and then no more; the second is up at once. What it is sent begins at
      the sixth byte of the question. */
  method SkippedRun(net: Net, servers: seq<Word>, qtype: seq<Byte>) returns (c: Connection)
    requires AllUp(net) && |servers| == SERVERS && servers[0] != 0 && servers[1] != 0 && |qtype| == 2
    ensures fresh(c) && c.Waiting() && c.tcpstate == 3 && c.skipped == 5
    ensures c.outbox == c.query.value[5..] != c.query.value
  {
    c := OverTcp(net, servers, qtype);
    hide AllUp, Covered, Ran, Everything, Relevant, Truncated;
    var r := c.Get(Event(true, false, None, false, 5, false));
    r := c.Get(Event(true, false, None, false, 0, false));
    assert c.UpAt(1);
    r := c.Get(Event(true, false, None, false, 100, false));
    WholeQuestion(c.query.value, c.packet, c.packetlen, c.tcpstate, c.pos, c.skipped, c.outbox, c.inbox);
  }

  /** The first server takes the whole question. */
  method WholeSent(net: Net, servers: seq<Word>, qtype: seq<Byte>) returns (c: Connection)
    requires AllUp(net) && |servers| == SERVERS && servers[0] != 0 && servers[1] != 0 && |qtype| == 2
    ensures fresh(c) && c.net == net && c.servers == servers && c.Waiting()
    ensures c.tcpstate == 3 && c.curserver == 0 && |c.qname| == 1
  {
    c := OverTcp(net, servers, qtype);
    hide AllUp, Covered, Ran, Everything, Stream, c.Good, c.Heard, c.Moved;
    assert |c.query.value| == 19;
    var r := c.Get(Event(true, false, None, false, 100, false));
  }

  /** It announces 256 bytes and sends a hundred. */
  method HalfRead(net: Net, servers: seq<Word>, qtype: seq<Byte>) returns (c: Connection)
    requires AllUp(net) && |servers| == SERVERS && servers[0] != 0 && servers[1] != 0 && |qtype| == 2
    ensures fresh(c) && c.net == net && c.servers == servers && c.Waiting()
    ensures c.tcpstate == 5 && c.packetlen == 256 && c.curserver == 0 && c.pos == 100 && |c.qname| == 1
  {
    c := WholeSent(net, servers, qtype);
    hide AllUp, Covered, Ran, Everything, Stream, c.Good, c.Heard, c.Moved, c.Written, QueryOk;
    var r := c.Get(Event(true, false, Some([1]), false, 0, false));
    r := c.Get(Event(true, false, Some([0]), false, 0, false));
    r := c.Get(Event(true, false, Some(seq(100, _ => 0)), false, 0, false));
  }

  /** When it sends no more, the second is up at once. The position is then behind the end of the question, so
      that no amount of sending ends. */
  method BeyondRun(net: Net, servers: seq<Word>, qtype: seq<Byte>, written: nat) returns (c: Connection)
    requires AllUp(net) && |servers| == SERVERS && servers[0] != 0 && servers[1] != 0 && |qtype| == 2 && written > 0
    ensures fresh(c) && c.Waiting() && c.tcpstate == 2 && c.pos == 100 + written > |c.query.value|
  {
    c := HalfRead(net, servers, qtype);
    hide AllUp, Covered, Ran, Everything, Stream;
    var r := c.Get(Event(true, false, None, false, 0, false));
    assert c.UpAt(1) && |c.query.value| == 19;
    r := c.Get(Event(true, false, None, false, written, false));
    assert |c.query.value| == 19;
  }
}
