/** The knock sequence machine of xt_pknock.c, for one rule with knock ports and no secrets. */
module Pknock {
  import opened Basics
  import opened Bytes

  type Port = p: nat | p < 65536

  datatype Status = INIT | MATCHING | ALLOWED

  /** struct peer */
  datatype Peer = Peer(count: nat, timestamp: int, login: int, status: Status)

  // ---------- What a run of ports has matched ----------

  /** The ports of s, in order but not necessarily next to each other, are found in t. */
  ghost predicate Subsequence(s: seq<Port>, t: seq<Port>)
    decreases |t|
  {
    if s == [] then true
    else if t == [] then false
    else if s[|s| - 1] == t[|t| - 1] && Subsequence(s[..|s| - 1], t[..|t| - 1]) then true
    else Subsequence(s, t[..|t| - 1])
  }

  /** How many ports of the list have been matched one after the other. */
  function Matched(ports: seq<Port>, sent: seq<Port>): (k: nat)
    ensures k <= |ports| && k <= |sent|
    decreases |sent|
  {
    if sent == [] then 0
    else
      var k := Matched(ports, sent[..|sent| - 1]);
      if k < |ports| && ports[k] == sent[|sent| - 1] then k + 1 else k
  }

  /** The count is the length of the longest prefix of the list that is a subsequence of what was sent. */
  lemma {:induction false} MatchedIsLongest(ports: seq<Port>, sent: seq<Port>, j: nat)
    requires j <= |ports|
    ensures Subsequence(ports[..j], sent) <==> j <= Matched(ports, sent)
    decreases |sent|
  {
    if sent != [] {
      var init, x := sent[..|sent| - 1], sent[|sent| - 1];
      MatchedIsLongest(ports, init, j);
      if j > 0 {
        assert ports[..j][..j - 1] == ports[..j - 1];
        MatchedIsLongest(ports, init, j - 1);
      }
    }
  }

  lemma {:induction false} MatchedMore(ports: seq<Port>, sent: seq<Port>, x: Port)
    ensures var k := Matched(ports, sent);
      Matched(ports, sent + [x]) == if k < |ports| && ports[k] == x then k + 1 else k
  {
    assert (sent + [x])[..|sent|] == sent;
  }

  /** Which of the ports sent were the ones that matched. */
  ghost function Hits(ports: seq<Port>, sent: seq<Port>): (h: seq<nat>)
    ensures |h| == Matched(ports, sent)
    ensures forall i :: 0 <= i < |h| ==> h[i] < |sent|
    decreases |sent|
  {
    if sent == [] then []
    else
      var n := |sent| - 1;
      var h := Hits(ports, sent[..n]);
      if |h| < |ports| && ports[|h|] == sent[n] then h + [n] else h
  }

  /** They are the ports of the list, one after the other. */
  lemma {:induction false} HitsMeaning(ports: seq<Port>, sent: seq<Port>)
    ensures var h := Hits(ports, sent);
      && (forall i :: 0 <= i < |h| ==> sent[h[i]] == ports[i])
      && forall i, j :: 0 <= i < j < |h| ==> h[i] < h[j]
    decreases |sent|
  {
    if sent != [] {
      HitsMeaning(ports, sent[..|sent| - 1]);
    }
  }

  lemma {:induction false} HitsMore(ports: seq<Port>, sent: seq<Port>, x: Port)
    ensures var h := Hits(ports, sent);
      Hits(ports, sent + [x]) == if |h| < |ports| && ports[|h|] == x then h + [|sent|] else h
  {
    assert (sent + [x])[..|sent|] == sent;
  }

  /** A peer and what it sent since its entry was made: it has matched the longest prefix there is, in
      strict mode nothing else has come between, and it is allowed exactly when the list is complete. */
  ghost predicate PeerOk(ports: seq<Port>, strict: bool, p: Peer, sent: seq<Port>) {
    && p.count == Matched(ports, sent)
    && (p.status == ALLOWED <==> p.count == |ports|)
    && (strict ==> p.count == |sent| && sent == ports[..p.count])
  }

  /** The times at which the ports that matched were sent. */
  ghost function HitTimes(ports: seq<Port>, sent: seq<Port>, times: seq<int>): (t: seq<int>)
    requires |times| == |sent|
    ensures |t| == Matched(ports, sent)
  {
    var h := Hits(ports, sent);
    seq(|h|, i requires 0 <= i < |h| => times[h[i]])
  }

  lemma {:induction false} HitTimesMore(ports: seq<Port>, sent: seq<Port>, times: seq<int>, x: Port, now: int)
    requires |times| == |sent|
    ensures var t := HitTimes(ports, sent, times);
      HitTimes(ports, sent + [x], times + [now]) == if |t| < |ports| && ports[|t|] == x then t + [now] else t
  {
    HitsMore(ports, sent, x);
    hide Hits, Matched;
  }

  /** Before the last port of the list no port that matched came later than maxTime seconds after the one
      before, and the time stamp is the time of the latest. */
  ghost predicate InTime(ports: seq<Port>, maxTime: nat, p: Peer, sent: seq<Port>, times: seq<int>) {
    |times| == |sent| &&
    var t := HitTimes(ports, sent, times);
    && (forall i :: 0 < i < |t| && i + 1 < |ports| ==> t[i] <= t[i - 1] + maxTime)
    && (0 < |t| < |ports| ==> p.timestamp == t[|t| - 1])
  }

  class Rule {
    const ports: seq<Port>
    const strict: bool
    const timed: bool
    const maxTime: nat
    const autoclose: nat
    var peers: map<Word, Peer>
    /** What each peer has sent since its entry was made, and when. */
    ghost var sent: map<Word, seq<Port>>
    ghost var times: map<Word, seq<int>>

    ghost predicate Valid()
      reads this
    {
      && 0 < |ports| <= 15 && peers.Keys == sent.Keys == times.Keys
      && forall ip :: ip in peers ==> EntryOk(peers[ip], sent[ip], times[ip])
    }

    ghost predicate EntryOk(p: Peer, sent: seq<Port>, times: seq<int>) {
      PeerOk(ports, strict, p, sent) && (timed ==> InTime(ports, maxTime, p, sent, times))
    }

    ghost function Entry(ip: Word): Option<Peer>
      reads this
    {
      if ip in peers then Some(peers[ip]) else None
    }

    /** What one more port makes of an entry that has not been allowed: the wrong port ends a strict sequence
        and is passed over otherwise, the last port opens, and a port before the last ends a timed sequence
        if it comes too late. */
    ghost predicate Moved(p: Peer, port: Port, now: int, seconds: int, q: Option<Peer>)
      requires p.count < |ports|
    {
      if port != ports[p.count] then
        q == if strict then None else Some(p)
      else if p.count + 1 == |ports| then
        q == Some(Peer(|ports|, p.timestamp, seconds, ALLOWED))
      else if timed && now > p.timestamp + maxTime then
        q == None
      else
        q == Some(Peer(p.count + 1, if timed then now else p.timestamp, p.login, MATCHING))
    }

    constructor (ports: seq<Port>, strict: bool, timed: bool, maxTime: nat, autoclose: nat)
      requires 0 < |ports| <= 15
      ensures Valid() && peers == map[] && this.ports == ports && this.strict == strict
      ensures this.timed == timed && this.maxTime == maxTime && this.autoclose == autoclose
    {
      this.ports, this.strict, this.timed, this.maxTime, this.autoclose := ports, strict, timed, maxTime, autoclose;
      peers, sent, times := map[], map[], map[];
    }

    predicate AutocloseTimePassed(p: Peer, seconds: int) {
      autoclose != 0 && seconds > p.login + autoclose * 60
    }

    predicate InterknockTimeExceeded(p: Peer, now: int) {
      now > p.timestamp + maxTime
    }

    method RemovePeer(ip: Word)
      requires Valid()
      modifies this
      ensures Valid() && OthersSame(ip) && Entry(ip) == None
    {
      hide EntryOk;
      peers, sent, times := peers - {ip}, sent - {ip}, times - {ip};
    }

    /** Nobody else's entry changes. */
    twostate predicate OthersSame(ip: Word)
      reads this
    {
      forall a :: a != ip ==>
        && (a in peers <==> a in old(peers)) && (a in peers ==> peers[a] == old(peers[a]))
        && (a in sent <==> a in old(sent)) && (a in sent ==> sent[a] == old(sent[a]))
        && (a in times <==> a in old(times)) && (a in times ==> times[a] == old(times[a]))
    }

    /** update_peer; the entry exists and is not allowed yet. */
    method UpdatePeer(ip: Word, port: Port, now: int, seconds: int)
      requires Valid() && ip in peers && peers[ip].status != ALLOWED
      modifies this
      ensures Valid() && OthersSame(ip) && old(peers[ip]).count < |ports|
      ensures Moved(old(peers[ip]), port, now, seconds, Entry(ip))
      ensures ip in peers ==> sent[ip] == old(sent[ip]) + [port] && times[ip] == old(times[ip]) + [now]
    {
      hide EntryOk, OthersSame;
      NotDone(peers[ip], sent[ip], times[ip]);
      var peer := peers[ip];
      if ports[peer.count] != port {
        if strict {
          RemovePeer(ip);
        } else {
          Store(ip, peer, port, now, seconds);
        }
        return;
      }
      peer := peer.(count := peer.count + 1);
      if peer.count == |ports| {
        peer := peer.(status := ALLOWED, login := seconds);
        Store(ip, peer, port, now, seconds);
        return;
      }
      if timed {
        if InterknockTimeExceeded(peer, now) {
          RemovePeer(ip);
          return;
        }
        peer := peer.(timestamp := now);
      }
      peer := peer.(status := MATCHING);
      Store(ip, peer, port, now, seconds);
    }

    lemma {:induction false} NotDone(p: Peer, sent: seq<Port>, times: seq<int>)
      requires EntryOk(p, sent, times) && p.status != ALLOWED
      ensures p.count < |ports|
    {
    }

    /** The changed entry, after one more port. */
    method Store(ip: Word, peer: Peer, port: Port, now: int, seconds: int)
      requires Valid() && ip in peers && peers[ip].status != ALLOWED && peers[ip].count < |ports|
      requires Moved(peers[ip], port, now, seconds, Some(peer))
      modifies this
      ensures Valid() && OthersSame(ip) && Entry(ip) == Some(peer)
      ensures sent[ip] == old(sent[ip]) + [port] && times[ip] == old(times[ip]) + [now]
    {
      hide EntryOk, Moved;
      MovedOk(peers[ip], peer, sent[ip], times[ip], port, now, seconds);
      peers, sent, times :=
        peers[ip := peer], sent[ip := sent[ip] + [port]], times[ip := times[ip] + [now]];
    }

    lemma {:induction false} MovedOk(p: Peer, q: Peer, sent: seq<Port>, times: seq<int>, port: Port, now: int,
                                     seconds: int)
      requires EntryOk(p, sent, times) && p.status != ALLOWED && p.count < |ports|
      requires Moved(p, port, now, seconds, Some(q))
      ensures EntryOk(q, sent + [port], times + [now])
    {
      hide InTime, Matched;
      MatchedMore(ports, sent, port);
      if timed { MovedInTime(ports, maxTime, p, q, sent, times, port, now); }
    }

    /** new_peer and add_peer */
    method AddPeer(ip: Word, now: int)
      requires Valid() && ip !in peers
      modifies this
      ensures Valid() && OthersSame(ip) && Entry(ip) == Some(Peer(0, now, 0, INIT))
      ensures sent[ip] == [] && times[ip] == []
    {
      hide EntryOk;
      FirstKnock(now);
      peers, sent, times := peers[ip := Peer(0, now, 0, INIT)], sent[ip := []], times[ip := []];
    }

    /** pknock_mt under --knockports: whether the packet passes. Only a peer that was allowed before does, until
        autoclose minutes have gone by since it was. */
    method Knock(ip: Word, port: Port, tcp: bool, now: int, seconds: int) returns (ret: bool)
      requires Valid()
      modifies this
      ensures Valid() && OthersSame(ip)
      ensures ret <==>
        ip in old(peers) && old(peers[ip]).status == ALLOWED
          && !(autoclose != 0 && seconds > old(peers[ip]).login + autoclose * 60)
      ensures ip in old(peers) && old(peers[ip]).status == ALLOWED ==>
        if !ret && (tcp || old(peers[ip]).login / 60 != seconds / 60) then ip !in peers
        else peers == old(peers) && sent == old(sent) && times == old(times)
      ensures ip in old(peers) && old(peers[ip]).status != ALLOWED ==>
        && old(peers[ip]).count < |ports| && Moved(old(peers[ip]), port, now, seconds, Entry(ip))
        && (ip in peers ==> sent[ip] == old(sent[ip]) + [port] && times[ip] == old(times[ip]) + [now])
      ensures ip !in old(peers) && port != ports[0] ==> ip !in peers
      ensures ip !in old(peers) && port == ports[0] ==>
        && 0 < |ports| && Moved(Peer(0, now, 0, INIT), port, now, seconds, Entry(ip))
        && ip in peers && sent[ip] == [port] && times[ip] == [now]
    {
      hide EntryOk, Moved;
      ret := ip in peers && peers[ip].status == ALLOWED;
      if !ret {
        if ip !in peers && ports[0] == port {
          AddPeer(ip, now);
        }
        if ip in peers { UpdatePeer(ip, port, now, seconds); }
        if ip !in old(peers) && port == ports[0] { FirstKept(port, now, seconds, Entry(ip)); }
        return;
      }
      if AutocloseTimePassed(peers[ip], seconds) {
        ret := false;
        if tcp || peers[ip].login / 60 != seconds / 60 { RemovePeer(ip); }
      }
    }

    lemma {:induction false} FirstKnock(now: int)
      requires 0 < |ports|
      ensures EntryOk(Peer(0, now, 0, INIT), [], [])
    {
    }

    /** The first knock of a sequence is never too late. */
    lemma {:induction false} FirstKept(port: Port, now: int, seconds: int, q: Option<Peer>)
      requires 0 < |ports| && port == ports[0] && Moved(Peer(0, now, 0, INIT), port, now, seconds, q)
      ensures q.Some?
    {
    }

    /** peer_gc: what is left are the allowed peers that are not closed yet, and the others whose latest knock in
        time is not too long ago. */
    method Gc(now: int, seconds: int)
      requires Valid()
      modifies this
      ensures Valid() && forall ip :: ip in peers ==>
        ip in old(peers) && peers[ip] == old(peers[ip]) && sent[ip] == old(sent[ip]) && times[ip] == old(times[ip])
      ensures forall ip :: ip in old(peers) && old(peers[ip]).status == ALLOWED ==>
        (ip in peers <==> autoclose == 0 || seconds <= old(peers[ip]).login + autoclose * 60)
      ensures forall ip :: ip in old(peers) && old(peers[ip]).status != ALLOWED ==>
        (ip in peers <==> now <= old(peers[ip]).timestamp + maxTime)
    {
      hide EntryOk;
      var keep := map ip | ip in peers && !Outdated(peers[ip], now, seconds) :: peers[ip];
      ghost var kept := map ip | ip in keep :: sent[ip];
      ghost var when := map ip | ip in keep :: times[ip];
      peers, sent, times := keep, kept, when;
    }

    predicate Outdated(p: Peer, now: int, seconds: int) {
      (p.status != ALLOWED && InterknockTimeExceeded(p, now))
        || (p.status == ALLOWED && AutocloseTimePassed(p, seconds))
    }
  }

  lemma {:induction false} MovedInTime(ports: seq<Port>, maxTime: nat, p: Peer, q: Peer, sent: seq<Port>,
                                       times: seq<int>, port: Port, now: int)
    requires InTime(ports, maxTime, p, sent, times)
    requires var k := Matched(ports, sent);
      if k < |ports| && ports[k] == port then
        k + 1 < |ports| ==> q.timestamp == now <= p.timestamp + maxTime
      else
        q.timestamp == p.timestamp
    ensures InTime(ports, maxTime, q, sent + [port], times + [now])
  {
    hide Hits, Matched, HitTimes;
    HitTimesMore(ports, sent, times, port, now);
  }

  /** Of a timed rule: the packets of a peer that matched stand in the order of the list, none before the last of
      the list was sent more than maxTime seconds after the one before, and the time stamp of a peer that is
      still matching is the time of its latest. */
  lemma {:induction false} TimedMeaning(ports: seq<Port>, maxTime: nat, p: Peer, sent: seq<Port>, times: seq<int>)
    requires InTime(ports, maxTime, p, sent, times)
    ensures var h := Hits(ports, sent);
      && |h| == Matched(ports, sent) && |times| == |sent|
      && (forall i :: 0 <= i < |h| ==> sent[h[i]] == ports[i])
      && (forall i, j :: 0 <= i < j < |h| ==> h[i] < h[j])
      && (forall i :: 0 < i < |h| && i + 1 < |ports| ==> times[h[i]] <= times[h[i - 1]] + maxTime)
      && (0 < |h| < |ports| ==> p.timestamp == times[h[|h| - 1]])
  {
    HitsMeaning(ports, sent);
    var h, t := Hits(ports, sent), HitTimes(ports, sent, times);
    hide Hits, Matched;
    assert forall i :: 0 <= i < |h| ==> t[i] == times[h[i]];
  }

  /** A peer that has not been allowed has matched less than the list, and no longer prefix of the list is
      among what it sent; an allowed one has sent the whole list, in strict mode without anything between. */
  lemma {:induction false} KnocksMeaning(ports: seq<Port>, strict: bool, p: Peer, sent: seq<Port>)
    requires PeerOk(ports, strict, p, sent) && ports != []
    ensures p.status != ALLOWED ==> p.count < |ports| && !Subsequence(ports[..p.count + 1], sent)
    ensures Subsequence(ports[..p.count], sent)
    ensures p.status == ALLOWED <==> Subsequence(ports, sent)
    ensures strict && p.status == ALLOWED ==> sent == ports
  {
    assert ports[..|ports|] == ports;
    MatchedIsLongest(ports, sent, p.count);
    MatchedIsLongest(ports, sent, |ports|);
    if p.count < |ports| {
      MatchedIsLongest(ports, sent, p.count + 1);
    }
  }
}
