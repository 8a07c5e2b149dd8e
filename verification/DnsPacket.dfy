/** Reading names out of a message: src/dns_packet.c (section 4.1.4 of RFC 1035). */
module DnsPacket {
  import opened Basics
  import opened Bytes
  import opened DnsName

  /** A name read from a message, and the position behind it. */
  datatype Read = Read(name: seq<Byte>, end: nat)

  /** The step limit of dns_packet_getname. */
  const LIMIT: nat := 1000

  /** Where following pointers leads: the length byte found, the position behind it, the steps
      so far, and the position behind the first pointer (0 when none was met). */
  datatype Jump = Jump(ch: Byte, pos: nat, loop: nat, first: nat)

  function Follow(buf: seq<Byte>, j: Jump): (r: Option<Jump>)
    ensures r.Some? ==> r.value.ch < 192 && r.value.loop >= j.loop
    ensures r.Some? && j.loop < LIMIT ==> r.value.loop < LIMIT
    decreases LIMIT - j.loop
  {
    if j.ch < 192 then Some(j)
    else if j.pos >= |buf| then None
    else
      var to := (j.ch - 192) * 256 + buf[j.pos];
      if to >= |buf| || j.loop + 1 >= LIMIT then None
      else Follow(buf, Jump(buf[to], to + 1, j.loop + 1, if j.first == 0 then j.pos + 1 else j.first))
  }

  /** dns_packet_getname as a function: `state` label bytes are still to copy, `name` is copied. */
  function Get(buf: seq<Byte>, pos: nat, loop: nat, state: nat, first: nat, name: seq<Byte>): Option<Read>
    decreases LIMIT - loop
  {
    if pos >= |buf| || loop + 1 >= LIMIT then None
    else if state > 0 then
      if |name| + 1 > MAXNAME then None
      else Get(buf, pos + 1, loop + 1, state - 1, first, name + [buf[pos]])
    else
      match Follow(buf, Jump(buf[pos], pos + 1, loop + 1, first))
      case None => None
      case Some(j) =>
        if j.ch >= 64 || |name| + 1 > MAXNAME then None
        else if j.ch == 0 then Some(Read(name + [0], if j.first != 0 then j.first else j.pos))
        else Get(buf, j.pos, j.loop, j.ch, j.first, name + [j.ch])
  }

  function GetName(buf: seq<Byte>, pos: nat): Option<Read> {
    Get(buf, pos, 0, 0, 0, [])
  }

  /** dns_packet_skipname as a function. */
  function SkipName(buf: seq<Byte>, pos: nat): Option<nat>
    decreases |buf| - pos
  {
    if pos >= |buf| then None
    else if buf[pos] >= 192 then Some(pos + 2)
    else if buf[pos] >= 64 then None
    else if buf[pos] == 0 then Some(pos + 1)
    else SkipName(buf, pos + 1 + buf[pos])
  }

  /** The inner loop of dns_packet_getname: from pointer to pointer until there is a length byte. */
  method FollowPointers(buf: seq<Byte>, ch0: Byte, pos0: nat, loop0: nat, first0: nat)
    returns (found: bool, ch: Byte, pos: nat, loop: nat, first: nat)
    requires loop0 < LIMIT
    ensures match Follow(buf, Jump(ch0, pos0, loop0, first0))
            case None => !found
            case Some(j) => found && j == Jump(ch, pos, loop, first) && loop < LIMIT
    ensures pos0 > 0 ==> pos > 0
  {
    found, ch, pos, loop, first := true, ch0, pos0, loop0, first0;
    while ch >= 192
      invariant loop < LIMIT && (pos0 > 0 ==> pos > 0)
      invariant Follow(buf, Jump(ch, pos, loop, first)) == Follow(buf, Jump(ch0, pos0, loop0, first0))
      decreases LIMIT - loop
    {
      var where: nat := ch - 192;
      where := where * 256;
      if pos >= |buf| { return false, ch, pos, loop, first; }
      ch := buf[pos];
      pos := pos + 1;
      if first == 0 { first := pos; }
      pos := where + ch;
      if pos >= |buf| { return false, ch, pos, loop, first; }
      ch := buf[pos];
      pos := pos + 1;
      loop := loop + 1;
      if loop >= LIMIT { return false, ch, pos, loop, first; }
    }
  }

  /** dns_packet_getname over the message bytes; 0 stands for the protocol error. */
  method PacketGetName(buf: seq<Byte>, start: nat) returns (end: nat, d: seq<Byte>)
    ensures match GetName(buf, start)
            case None => end == 0
            case Some(r) => end == r.end && d == r.name && end > 0
  {
    var pos: nat, loop: nat, state: nat, firstcompress: nat, namelen: nat := start, 0, 0, 0, 0;
    var name := new Byte[255](_ => 0);
    d := [];
    hide Follow;
    while true
      invariant namelen <= 255 && loop < LIMIT
      invariant Get(buf, pos, loop, state, firstcompress, name[..namelen]) == GetName(buf, start)
      decreases LIMIT - loop
    {
      if pos >= |buf| { return 0, []; }
      var ch := buf[pos];
      pos := pos + 1;
      loop := loop + 1;
      if loop >= LIMIT { return 0, []; }
      if state > 0 {
        if namelen + 1 > 255 { return 0, []; }
        ghost var before := name[..namelen];
        name[namelen] := ch;
        namelen := namelen + 1;
        state := state - 1;
        assert name[..namelen] == before + [ch];
      } else {
        var found, c, p, l, f := FollowPointers(buf, ch, pos, loop, firstcompress);
        if !found { return 0, []; }
        ch, pos, loop, firstcompress := c, p, l, f;
        if ch >= 64 { return 0, []; }
        if namelen + 1 > 255 { return 0, []; }
        ghost var before := name[..namelen];
        name[namelen] := ch;
        namelen := namelen + 1;
        assert name[..namelen] == before + [ch];
        if ch == 0 {
          return if firstcompress != 0 then firstcompress else pos, name[..namelen];
        }
        state := ch;
      }
    }
  }

  /** dns_packet_skipname; 0 stands for the protocol error. */
  method PacketSkipName(buf: seq<Byte>, start: nat) returns (end: nat)
    ensures match SkipName(buf, start) case None => end == 0 case Some(e) => end == e && end > 0
  {
    var pos := start;
    while true
      invariant SkipName(buf, pos) == SkipName(buf, start)
      decreases if pos < |buf| then |buf| - pos + 1 else 0
    {
      if pos >= |buf| { break; }
      var ch := buf[pos];
      pos := pos + 1;
      if ch >= 192 { return pos + 1; }
      if ch >= 64 { break; }
      if ch == 0 { return pos; }
      pos := pos + ch;
    }
    return 0;
  }

  /** dns_packet_copy: outlen bytes from pos, or 0 when the message ends first. */
  method PacketCopy(buf: seq<Byte>, start: nat, outlen: nat) returns (pos: nat, out: seq<Byte>)
    ensures start + outlen <= |buf| ==> pos == start + outlen && out == buf[start..pos]
    ensures start + outlen > |buf| && outlen > 0 ==> pos == 0
    ensures outlen == 0 ==> pos == start && out == []
  {
    pos, out := start, [];
    var left := outlen;
    while left > 0
      invariant 0 <= left <= outlen && pos == start + outlen - left
      invariant left < outlen ==> pos <= |buf|
      invariant left == outlen ==> out == []
      invariant start <= pos <= |buf| ==> out == buf[start..pos]
    {
      if pos >= |buf| { return 0, []; }
      out := out + [buf[pos]];
      pos := pos + 1;
      left := left - 1;
    }
  }

  // ---------- What is read is a name ----------

  /** Whole labels, the last of which still lacks `state` bytes. */
  predicate Partial(n: seq<Byte>, state: nat)
    decreases |n|
  {
    if n == [] then state == 0
    else
      && 1 <= n[0] <= 63
      && if 1 + n[0] <= |n| then Partial(n[1 + n[0]..], state) else state == 1 + n[0] - |n|
  }

  lemma {:induction false} PartialByte(n: seq<Byte>, state: nat, b: Byte)
    requires Partial(n, state) && state > 0
    ensures Partial(n + [b], state - 1)
    decreases |n|
  {
    if 1 + n[0] <= |n| {
      PartialByte(n[1 + n[0]..], state, b);
      assert (n + [b])[1 + n[0]..] == n[1 + n[0]..] + [b];
    }
  }

  lemma {:induction false} PartialLabel(n: seq<Byte>, ch: Byte)
    requires Partial(n, 0) && ch < 64
    ensures ch != 0 ==> Partial(n + [ch], ch)
    ensures ch == 0 ==> IsName(n + [ch])
    decreases |n|
  {
    if n != [] {
      PartialLabel(n[1 + n[0]..], ch);
      assert (n + [ch])[1 + n[0]..] == n[1 + n[0]..] + [ch];
    }
  }

  lemma {:induction false} GetIsName(buf: seq<Byte>, pos: nat, loop: nat, state: nat, first: nat, name: seq<Byte>)
    requires Partial(name, state) && |name| <= MAXNAME
    ensures var r := Get(buf, pos, loop, state, first, name);
            r.Some? ==> IsName(r.value.name) && |r.value.name| <= MAXNAME
    decreases LIMIT - loop
  {
    hide Partial, IsName, Follow;
    if pos < |buf| && loop + 1 < LIMIT {
      if state > 0 {
        if |name| < MAXNAME {
          PartialByte(name, state, buf[pos]);
          GetIsName(buf, pos + 1, loop + 1, state - 1, first, name + [buf[pos]]);
        }
      } else {
        var j := Follow(buf, Jump(buf[pos], pos + 1, loop + 1, first));
        if j.Some? && j.value.ch < 64 && |name| < MAXNAME {
          PartialLabel(name, j.value.ch);
          if j.value.ch != 0 {
            GetIsName(buf, j.value.pos, j.value.loop, j.value.ch, j.value.first, name + [j.value.ch]);
          }
        }
      }
    }
  }

  /** Whatever bytes it is given, dns_packet_getname yields a proper name of at most 255 bytes. */
  lemma {:induction false} GetNameIsName(buf: seq<Byte>, pos: nat)
    ensures GetName(buf, pos).Some? ==>
      IsName(GetName(buf, pos).value.name) && |GetName(buf, pos).value.name| <= MAXNAME
  {
    GetIsName(buf, pos, 0, 0, 0, []);
  }

  // ---------- skipname agrees with getname ----------

  lemma {:induction false} SkipAgreesFrom(buf: seq<Byte>, pos: nat, loop: nat, state: nat, first: nat, name: seq<Byte>)
    requires Get(buf, pos, loop, state, first, name).Some?
    ensures var e := Get(buf, pos, loop, state, first, name).value.end;
            if first != 0 then e == first else SkipName(buf, pos + state) == Some(e)
    decreases LIMIT - loop
  {
    if state > 0 {
      SkipAgreesFrom(buf, pos + 1, loop + 1, state - 1, first, name + [buf[pos]]);
    } else {
      var j := Follow(buf, Jump(buf[pos], pos + 1, loop + 1, first)).value;
      FollowFirst(buf, Jump(buf[pos], pos + 1, loop + 1, first));
      if j.ch != 0 {
        SkipAgreesFrom(buf, j.pos, j.loop, j.ch, j.first, name + [j.ch]);
      }
    }
  }

  lemma {:induction false} FollowFirst(buf: seq<Byte>, j: Jump)
    requires Follow(buf, j).Some?
    ensures var r := Follow(buf, j).value;
            if j.ch < 192 then r == j else r.first == (if j.first == 0 then j.pos + 1 else j.first)
    decreases LIMIT - j.loop
  {
    if j.ch >= 192 {
      var to := (j.ch - 192) * 256 + buf[j.pos];
      FollowFirst(buf, Jump(buf[to], to + 1, j.loop + 1, if j.first == 0 then j.pos + 1 else j.first));
    }
  }

  /** Wherever a name can be read, skipping it leads to the same position. */
  lemma {:induction false} SkipAgrees(buf: seq<Byte>, pos: nat)
    requires GetName(buf, pos).Some?
    ensures SkipName(buf, pos) == Some(GetName(buf, pos).value.end)
  {
    SkipAgreesFrom(buf, pos, 0, 0, 0, []);
  }
}
