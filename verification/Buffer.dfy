/** The buffered streams of src/buffer_put.c and src/buffer_get.c and the line reader on top of them,
    under arbitrary partial transfers and interrupts. */
module Buffer {
  import opened Bytes

  const OUTSIZE: nat := 8192

  // ---------- Output ----------

  class Output {
    const x: array<Byte>
    var p: nat
    /** The bytes the system has taken, and all bytes put into the stream. */
    ghost var written: seq<Byte>
    ghost var given: seq<Byte>

    /** Nothing is lost, doubled or out of order. */
    ghost predicate Valid()
      reads this, x
    {
      x.Length > 0 && p <= x.Length && written + x[..p] == given
    }

    constructor (size: nat)
      requires size > 0
      ensures Valid() && fresh(x) && x.Length == size && given == [] && written == []
    {
      x := new Byte[size](_ => 0);
      p, written, given := 0, [], [];
    }

    /** One write: -1 on an error or an interrupt, or the number of bytes taken, at least one. */
    method Op(buf: seq<Byte>) returns (w: int)
      requires buf != []
      modifies this`written
      ensures (w == -1 && written == old(written)) || (1 <= w <= |buf| && written == old(written) + buf[..w])
    {
      var taken: int := *;
      if taken <= 0 || taken > |buf| { return -1; }
      written := written + buf[..taken];
      w := taken;
    }

    /** allwrite: until everything is written or an error that is not an interrupt. */
    method AllWrite(buf: seq<Byte>) returns (r: int)
      modifies this`written
      ensures r == 0 ==> written == old(written) + buf
      ensures r != 0 ==> r == -1 && old(written) <= written <= old(written) + buf
    {
      var interrupts: nat := *;
      var i := 0;
      assert buf[..0] == [];
      while i < |buf|
        invariant i <= |buf| && written == old(written) + buf[..i]
        decreases |buf| - i, interrupts
      {
        var w := Op(buf[i..]);
        if w == -1 {
          if interrupts > 0 {
            interrupts := interrupts - 1;
            continue;
          }
          return -1;
        }
        assert buf[..i + w] == buf[..i] + buf[i..][..w];
        i := i + w;
      }
      assert buf[..i] == buf;
      r := 0;
    }

    /** buffer_flush */
    method Flush() returns (r: int)
      requires Valid()
      modifies this`p, this`written
      ensures r == 0 ==> Valid() && p == 0 && written == given
      ensures r != 0 ==> r == -1 && written <= given
    {
      if p == 0 { return 0; }
      var n := p;
      p := 0;
      ghost var before, held := written, x[..n];
      r := AllWrite(x[..n]);
      assert written <= before + held;
    }

    /** Copying into the room that is left. */
    method Fill(buf: seq<Byte>)
      requires Valid() && |buf| <= x.Length - p
      modifies this`p, this`given, x
      ensures Valid() && p == old(p) + |buf| && given == old(given) + buf
    {
      var q := p;
      ghost var held := x[..p];
      assert given == written + held;
      for i := 0 to |buf|
        invariant p == q && x[..q + i] == held + buf[..i] && given == written + held && given == old(given)
      {
        x[q + i] := buf[i];
      }
      p := p + |buf|;
      given := given + buf;
      assert buf[..|buf|] == buf && x[..p] == held + buf;
      assert given == (written + held) + buf == written + x[..p];
    }

    /** buffer_putalign: only whole buffers are written, and what is left stays in the buffer. */
    method PutAlign(data: seq<Byte>) returns (r: int)
      requires Valid()
      modifies this, x
      ensures r == 0 ==> Valid() && given == old(given) + data && Blocks(|written| - |old(written)|, x.Length)
      ensures r != 0 ==> r == -1 && written <= old(given) + data
    {
      var buf := data;
      ghost var all := given + data;
      while |buf| > x.Length - p
        invariant Valid() && given + buf == all && Blocks(|written| - |old(written)|, x.Length)
        decreases |buf|, p
      {
        var n := x.Length - p;
        Cut(given, buf, n);
        Fill(buf[..n]);
        buf := buf[n..];
        ghost var out := written;
        r := Flush();
        if r == -1 {
          PrefixMore(written, given, buf);
          return;
        }
        assert |written| == |out| + x.Length;
      }
      Fill(buf);
      r := 0;
    }

    /** buffer_put: what does not fit the empty buffer goes out directly, in big pieces. */
    method Put(data: seq<Byte>) returns (r: int)
      requires Valid()
      modifies this, x
      ensures r == 0 ==> Valid() && given == old(given) + data
      ensures r != 0 ==> r == -1 && written <= old(given) + data
    {
      var buf := data;
      if |buf| > x.Length - p {
        r := Flush();
        if r == -1 { return; }
        buf, r := PutDirect(data);
        if r == -1 { return; }
      }
      Fill(buf);
      r := 0;
    }

    /** The direct writes of buffer_put, with nothing in the buffer. */
    method PutDirect(data: seq<Byte>) returns (buf: seq<Byte>, r: int)
      requires Valid() && p == 0
      modifies this`written, this`given
      ensures r == 0 ==> Valid() && |buf| <= x.Length && old(given) + data == given + buf
      ensures r != 0 ==> r == -1 && written <= old(given) + data
    {
      buf, r := data, 0;
      var n := if x.Length < OUTSIZE then OUTSIZE else x.Length;
      ghost var all := given + data;
      assert x[..0] == [] && written == given;
      while |buf| > x.Length
        invariant p == 0 && n > 0 && given + buf == all && written == given
        decreases |buf|
      {
        if n > |buf| { n := |buf|; }
        Cut(given, buf, n);
        r := AllWrite(buf[..n]);
        given := given + buf[..n];
        buf := buf[n..];
        if r == -1 {
          PrefixMore(written, given, buf);
          return;
        }
      }
      assert written + x[..0] == given;
      r := 0;
    }

    /** buffer_putflush */
    method PutFlush(data: seq<Byte>) returns (r: int)
      requires Valid()
      modifies this, x
      ensures r == 0 ==> Valid() && given == old(given) + data && written == given && p == 0
      ensures r != 0 ==> r == -1 && written <= old(given) + data
    {
      r := Flush();
      if r == -1 { return; }
      r := AllWrite(data);
      if r == 0 { given := given + data; }
    }
  }

  /** m bytes are whole blocks of n. */
  predicate Blocks(m: int, n: nat)
    decreases m
  {
    m == 0 || (m >= n > 0 && Blocks(m - n, n))
  }

  lemma {:induction false} Cut(a: seq<Byte>, b: seq<Byte>, n: nat)
    requires n <= |b|
    ensures (a + b[..n]) + b[n..] == a + b
  {
  }

  lemma {:induction false} Regroup(a: seq<Byte>, b: seq<Byte>, c: seq<Byte>)
    ensures a + b + c == a + (b + c)
  {
  }

  lemma {:induction false} PrefixMore(a: seq<Byte>, b: seq<Byte>, c: seq<Byte>)
    requires a <= b
    ensures a <= b + c
  {
  }

  // ---------- Input ----------

  class Input {
    const x: array<Byte>
    /** The p bytes held are at the right end of the buffer, from n on. */
    var p: nat
    var n: nat
    /** What the system still has to deliver. */
    var rest: seq<Byte>

    ghost predicate Valid()
      reads this
    {
      x.Length > 0 && n + p == x.Length
    }

    /** What a reader has yet to see. */
    ghost function Ahead(): seq<Byte>
      requires Valid()
      reads this, x
    {
      x[n..] + rest
    }

    constructor (size: nat, source: seq<Byte>)
      requires size > 0
      ensures Valid() && fresh(x) && Ahead() == source
    {
      x := new Byte[size](_ => 0);
      p, n, rest := 0, size, source;
      new;
      assert x[n..] == [];
    }

    /** oneread: at most len bytes; none only at the end; -1 on an error other than an interrupt. */
    method OneRead(len: nat) returns (r: int, got: seq<Byte>)
      requires len > 0
      modifies this`rest
      ensures got + rest == old(rest) && |got| <= len
      ensures (r == -1 && got == []) || (r == |got| && (r == 0 ==> rest == []))
    {
      var interrupts: nat := *;
      while true
        invariant rest == old(rest)
        decreases interrupts
      {
        var failed: bool := *;
        if failed {
          if interrupts == 0 { return -1, []; }
          interrupts := interrupts - 1;
          continue;
        }
        if rest == [] { return 0, []; }
        var c: int := *;
        if c <= 0 || c > len || c > |rest| { c := 1; }
        got, rest := rest[..c], rest[c..];
        return c, got;
      }
    }

    /** buffer_feed: an empty buffer is refilled, and the bytes moved to its right end. */
    method Feed() returns (r: int)
      requires Valid()
      modifies this, x
      ensures Valid() && Ahead() == old(Ahead())
      ensures (r == p && (r == 0 ==> Ahead() == [])) || (r == -1 && p == 0)
    {
      if p > 0 { return p; }
      var got;
      r, got := OneRead(n);
      assert x[n..] == [] && old(x[n..]) == [];
      if r <= 0 { return; }
      for i := 0 to r
        invariant x[..i] == got[..i] && p == 0 && n == x.Length && rest == old(rest)[r..]
      {
        x[i] := got[i];
      }
      p := r;
      n := n - r;
      if n > 0 { MoveRight(got); }
      assert x[n..] == got;
    }

    /** byte_copyr: from the last byte down, so that overlapping bytes are read before they are written. */
    method MoveRight(ghost got: seq<Byte>)
      requires Valid() && n > 0 && p == |got| && p <= x.Length && x[..p] == got
      modifies x
      ensures x[n..] == got
    {
      var i := p;
      while i > 0
        invariant 0 <= i <= p && x[..i] == got[..i]
        invariant forall k :: i <= k < p ==> x[n + k] == got[k]
      {
        i := i - 1;
        assert x[i] == x[..i + 1][i] == got[i];
        x[n + i] := x[i];
      }
    }

    /** getthis */
    method GetThis(len0: nat) returns (buf: seq<Byte>)
      requires Valid()
      modifies this`p, this`n
      ensures Valid() && buf + Ahead() == old(Ahead()) && |buf| == (if len0 > old(p) then old(p) else len0)
      ensures buf == x[old(n)..old(n) + |buf|] && p == old(p) - |buf|
    {
      var len := if len0 > p then p else len0;
      p := p - len;
      buf := x[n..n + len];
      n := n + len;
    }

    /** buffer_get: bytes from the buffer, or straight into the caller's memory when that is no smaller. */
    method Get(len: nat) returns (r: int, buf: seq<Byte>)
      requires Valid() && len > 0
      modifies this, x
      ensures Valid() && buf + Ahead() == old(Ahead()) && |buf| <= len
      ensures (r == |buf| && (r == 0 ==> Ahead() == [])) || (r == -1 && buf == [])
      ensures old(p) > 0 ==>
        |buf| == (if len > old(p) then old(p) else len) && buf == old(x[n..])[..|buf|] && p == old(p) - |buf|
    {
      if p > 0 {
        buf := GetThis(len);
        return |buf|, buf;
      }
      assert x[n..] == [];
      if n <= len {
        r, buf := OneRead(len);
        return;
      }
      r := Feed();
      if r <= 0 { return r, []; }
      buf := GetThis(len);
      r := |buf|;
    }

    /** getln2: the line is `sa` followed by the clen bytes of the buffer from `at` on. */
    method Getln2(sep: Byte) returns (r: int, sa: seq<Byte>, at: nat, clen: nat)
      requires Valid()
      modifies this, x
      ensures Valid() && at + clen <= x.Length && sep !in sa
      ensures r == 0 || r == -1
      ensures r == -1 ==> sa + Ahead() == old(Ahead())
      ensures r == 0 && clen == 0 ==> sa == old(Ahead()) && Ahead() == []
      ensures r == 0 && clen > 0 ==>
        sa + x[at..at + clen] + Ahead() == old(Ahead()) && x[at + clen - 1] == sep && sep !in x[at..at + clen - 1]
    {
      sa, at, clen := [], 0, 0;
      while true
        invariant Valid() && sa + Ahead() == old(Ahead()) && sep !in sa
        decreases |Ahead()|
      {
        var avail := Feed();
        if avail < 0 { return -1, sa, 0, 0; }
        if avail == 0 { return 0, sa, 0, 0; }
        var i := Chr(sep);
        if i < p {
          at, clen := n, i + 1;
          Seek(clen, sa);
          return 0, sa, at, clen;
        }
        ghost var held := x[n..];
        var got, buf := Get(avail);
        Regroup(sa, buf, Ahead());
        assert buf == held;
        sa := sa + buf;
      }
    }

    /** buffer_SEEK; sa is what has been taken before. */
    method Seek(len: nat, ghost sa: seq<Byte>)
      requires Valid() && len <= p
      modifies this`p, this`n
      ensures Valid() && p == old(p) - len && n == old(n) + len
      ensures sa + x[old(n)..n] + Ahead() == sa + old(Ahead())
    {
      ghost var before := Ahead();
      p, n := p - len, n + len;
      assert before == x[old(n)..n] + Ahead();
      Regroup(sa, x[old(n)..n], Ahead());
    }

    /** byte_chr over the bytes held: where the separator first is, or their number. */
    method Chr(sep: Byte) returns (i: nat)
      requires Valid()
      ensures i <= p && (i < p ==> x[n + i] == sep) && sep !in x[n..n + i]
    {
      i := 0;
      while i < p && x[n + i] != sep
        invariant i <= p && sep !in x[n..n + i]
      {
        assert x[n..n + i + 1] == x[n..n + i] + [x[n + i]];
        i := i + 1;
      }
    }

    /** getln: the next line of what is ahead. */
    method Getln(sep: Byte) returns (r: int, line: seq<Byte>, matched: bool)
      requires Valid()
      modifies this, x
      ensures Valid() && (r == 0 || r == -1)
      ensures r == 0 ==> line == FirstLine(old(Ahead()), sep) && line + Ahead() == old(Ahead()) && (matched <==>
        sep in line)
      ensures r == 0 && !matched ==> Ahead() == []
    {
      var sa, at, clen;
      r, sa, at, clen := Getln2(sep);
      if r == -1 { return -1, [], false; }
      if clen == 0 {
        FirstLineWhole(sa, sep);
        assert sa + [] == sa;
        return 0, sa, false;
      }
      line := sa + x[at..at + clen];
      ghost var head := sa + x[at..at + clen - 1];
      assert line == head + [sep];
      FirstLineEnds(head, Ahead(), sep);
      matched := true;
    }

    /** Reading line by line to the end: the lines put together are the input. */
    method AllLines(sep: Byte) returns (r: int, lines: seq<seq<Byte>>)
      requires Valid()
      modifies this, x
      ensures Valid() && (r == 0 || r == -1)
      ensures r == 0 ==> Joined(lines) == old(Ahead()) && Ahead() == []
      ensures forall i :: 0 <= i < |lines| - 1 ==> Line(lines[i], sep)
      ensures r == 0 && lines != [] ==> Line(lines[|lines| - 1], sep) || sep !in lines[|lines| - 1]
    {
      hide FirstLine, Line, Joined, Ahead;
      NoLines();
      lines := [];
      assert [] + Ahead() == Ahead();
      while true
        invariant Valid() && Joined(lines) + Ahead() == old(Ahead())
        invariant forall i :: 0 <= i < |lines| ==> Line(lines[i], sep)
        decreases |Ahead()|
      {
        var line, matched;
        ghost var before := Ahead();
        r, line, matched := Getln(sep);
        if r == -1 { return; }
        FirstLineIs(before, sep);
        JoinedMore(lines, line);
        assert Joined(lines) + (line + Ahead()) == Joined(lines + [line]) + Ahead();
        lines := lines + [line];
        if !matched {
          assert Joined(lines) + [] == Joined(lines);
          return;
        }
      }
    }
  }

  /** Up to and with the first separator, or everything. */
  function FirstLine(s: seq<Byte>, sep: Byte): seq<Byte> {
    if s == [] then [] else if s[0] == sep then [sep] else [s[0]] + FirstLine(s[1..], sep)
  }

  /** The separator is the last byte and no other. */
  predicate Line(l: seq<Byte>, sep: Byte) {
    l != [] && l[|l| - 1] == sep && sep !in l[..|l| - 1]
  }

  lemma {:induction false} FirstLineIs(s: seq<Byte>, sep: Byte)
    ensures var l := FirstLine(s, sep);
      && (sep in l ==> Line(l, sep)) && (sep !in l ==> l == s && sep !in s) && (s != [] ==> l != [])
    decreases |s|
  {
    if s != [] && s[0] != sep {
      var l, t := FirstLine(s, sep), FirstLine(s[1..], sep);
      FirstLineIs(s[1..], sep);
      assert l == [s[0]] + t && s == [s[0]] + s[1..];
      if sep in l {
        assert sep in t;
        assert l[..|l| - 1] == [s[0]] + t[..|t| - 1];
      } else {
        assert sep !in t;
      }
    }
  }

  lemma {:induction false} FirstLineWhole(s: seq<Byte>, sep: Byte)
    requires sep !in s
    ensures FirstLine(s, sep) == s
    decreases |s|
  {
    if s != [] {
      FirstLineWhole(s[1..], sep);
    }
  }

  lemma {:induction false} FirstLineEnds(a: seq<Byte>, b: seq<Byte>, sep: Byte)
    requires sep !in a
    ensures FirstLine(a + [sep] + b, sep) == a + [sep]
    decreases |a|
  {
    var s := a + [sep] + b;
    if a == [] {
      assert s[0] == sep;
    } else {
      assert s[0] == a[0] && s[1..] == a[1..] + [sep] + b;
      FirstLineEnds(a[1..], b, sep);
      assert a + [sep] == [a[0]] + (a[1..] + [sep]);
    }
  }

  function Joined(lines: seq<seq<Byte>>): seq<Byte> {
    if lines == [] then [] else Joined(lines[..|lines| - 1]) + lines[|lines| - 1]
  }

  lemma {:induction false} NoLines()
    ensures Joined([]) == []
  {
  }

  lemma {:induction false} JoinedMore(lines: seq<seq<Byte>>, line: seq<Byte>)
    ensures Joined(lines + [line]) == Joined(lines) + line
  {
    assert (lines + [line])[..|lines|] == lines;
  }
}
