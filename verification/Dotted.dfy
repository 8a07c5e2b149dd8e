/** Dotted text for domain names: the printer of src/dns_dtda.c and the parser of src/dns_dfd.c, which share
    no code, and their round trip. */
module Dotted {
  import opened Basics
  import opened Bytes
  import opened DnsName
  import opened DnsPacket

  const DOT: Byte := '.' as int
  const BACKSLASH: Byte := '\\' as int
  const ZERO: Byte := '0' as int
  const MAXLABEL: nat := 63

  // ---------- Printing ----------

  /** Bytes that stand for themselves: lower-case letters, digits, hyphen and underscore. */
  predicate Plain(b: Byte) {
    'a' as int <= b <= 'z' as int || '0' as int <= b <= '9' as int || b == '-' as int || b == '_' as int
  }

  /** One byte of a label: lowered, and in octal unless it is plain. */
  function Shown(b: Byte): (s: seq<Byte>) {
    var l := LowerByte(b);
    if Plain(l) then [l] else [BACKSLASH, ZERO + l / 64, ZERO + l / 8 % 8, ZERO + l % 8]
  }

  function LabelText(s: seq<Byte>): seq<Byte> {
    if s == [] then [] else Shown(s[0]) + LabelText(s[1..])
  }

  function Text(w: seq<Byte>): seq<Byte>
    requires IsName(w) && w[0] != 0
    decreases |w|
  {
    var rest := w[1 + w[0]..];
    LabelText(w[1..1 + w[0]]) + if rest[0] == 0 then [] else [DOT] + Text(rest)
  }

  /** The dotted form of a name; the root is a single dot. */
  function ToDot(w: seq<Byte>): seq<Byte>
    requires IsName(w)
  {
    if w[0] == 0 then [DOT] else Text(w)
  }

  lemma {:induction false} LabelTextMore(s: seq<Byte>, b: Byte)
    ensures LabelText(s + [b]) == LabelText(s) + Shown(b)
    decreases |s|
  {
    hide Shown;
    if s == [] {
      assert [b][1..] == [];
    } else {
      assert (s + [b])[1..] == s[1..] + [b];
      LabelTextMore(s[1..], b);
    }
  }

  /** The text of a name by its first label. */
  lemma {:induction false} TextParts(w: seq<Byte>)
    requires IsName(w) && w[0] != 0
    ensures 1 + w[0] < |w| && w[0] <= 63
    ensures var rest := w[1 + w[0]..];
      && IsName(rest) && rest != [] && |rest| < |w|
      && (rest[0] == 0 ==> Text(w) == LabelText(w[1..1 + w[0]]))
      && (rest[0] != 0 ==> Text(w) == LabelText(w[1..1 + w[0]]) + [DOT] + Text(rest))
  {
    assert LabelText(w[1..1 + w[0]]) + [] == LabelText(w[1..1 + w[0]]);
  }

  /** The inner loop: one label. */
  method LabelCat(prior: seq<Byte>, lab: seq<Byte>) returns (out: seq<Byte>)
    ensures out == prior + LabelText(lab)
  {
    hide Shown, Plain;
    out := prior;
    assert lab[..0] == [];
    for i := 0 to |lab|
      invariant out == prior + LabelText(lab[..i])
    {
      ghost var before := out;
      var ch2 := lab[i];
      if 'A' as int <= ch2 <= 'Z' as int { ch2 := ch2 + 32; }
      ShownMeans(lab[i]);
      if 'a' as int <= ch2 <= 'z' as int || '0' as int <= ch2 <= '9' as int || ch2 == '-' as int || ch2 == '_' as int {
        out := out + [ch2];
      } else {
        var buf3 := ZERO + ch2 % 8;
        var ch3 := ch2 / 8;
        var buf2 := ZERO + ch3 % 8;
        ch3 := ch3 / 8;
        var buf1 := ZERO + ch3 % 8;
        out := out + [BACKSLASH, buf1, buf2, buf3];
      }
      assert out == before + Shown(lab[i]);
      LabelTextMore(lab[..i], lab[i]);
      assert lab[..i + 1] == lab[..i] + [lab[i]];
    }
    assert lab[..|lab|] == lab;
  }

  /** dns_domain_todot_cat: appends to what is there. */
  method ToDotCat(prior: seq<Byte>, d0: seq<Byte>) returns (out: seq<Byte>)
    requires IsName(d0)
    ensures out == prior + ToDot(d0)
  {
    if d0[0] == 0 { return prior + [DOT]; }
    assert ToDot(d0) == Text(d0) && d0 != [];
    hide IsName, Text, ToDot, LabelText;
    out := prior;
    var d: seq<Byte> := d0;
    while true
      invariant IsName(d) && d != [] && d[0] != 0 && out + Text(d) == prior + Text(d0)
      decreases |d|
    {
      TextParts(d);
      ghost var before := out;
      out := LabelCat(out, d[1..1 + d[0]]);
      d := d[1 + d[0]..];
      if d[0] == 0 { return; }
      out := out + [DOT];
    }
  }

  lemma {:induction false} ShownMeans(b: Byte)
    ensures var l := LowerByte(b);
      && (Plain(l) <==>
        'a' as int <= l <= 'z' as int || '0' as int <= l <= '9' as int || l == '-' as int || l == '_' as int)
      && (Plain(l) ==> Shown(b) == [l])
      && (!Plain(l) ==> Shown(b) == [BACKSLASH, ZERO + l / 8 / 8 % 8, ZERO + l / 8 % 8, ZERO + l % 8])
  {
    var l := LowerByte(b);
    assert l / 64 == l / 8 / 8;
  }

  // ---------- Parsing ----------

  predicate Octal(b: Byte) {
    '0' as int <= b <= '7' as int
  }

  /** The byte behind a backslash, and how many characters it takes: one to three octal digits, or the
      character itself. The arithmetic is that of an eight-bit character. */
  function Escaped(s: seq<Byte>): (r: (Byte, nat))
    requires s != []
    ensures 1 <= r.1 <= |s|
  {
    if !Octal(s[0]) then (s[0], 1)
    else
      var a := s[0] - ZERO;
      if |s| < 2 || !Octal(s[1]) then (a, 1)
      else
        var b := (8 * a + (s[1] - ZERO)) % 256;
        if |s| < 3 || !Octal(s[2]) then (b, 2)
        else ((8 * b + (s[2] - ZERO)) % 256, 3)
  }

  /** A finished label behind the labels so far; None when the name would be too long. */
  function Flush(lab: seq<Byte>, name: seq<Byte>): Option<seq<Byte>> {
    if lab == [] then Some(name)
    else if |name| + |lab| + 1 > MAXNAME || |lab| > MAXLABEL then None
    else Some(name + [|lab|] + lab)
  }

  function Close(lab: seq<Byte>, name: seq<Byte>): Option<seq<Byte>> {
    match Flush(lab, name)
    case None => None
    case Some(n) => if |n| + 1 > MAXNAME then None else Some(n + [0])
  }

  /** dns_domain_fromdot, with `label` in progress behind the finished labels in `name`. */
  function Parse(s: seq<Byte>, lab: seq<Byte>, name: seq<Byte>): Option<seq<Byte>>
    decreases |s|
  {
    if s == [] || s == [BACKSLASH] then Close(lab, name)
    else if s[0] == DOT then
      match Flush(lab, name)
      case None => None
      case Some(n) => Parse(s[1..], [], n)
    else
      var (ch, used) := if s[0] == BACKSLASH then var e := Escaped(s[1..]); (e.0, 1 + e.1) else (s[0], 1);
      if |lab| >= MAXLABEL then None else Parse(s[used..], lab + [ch], name)
  }

  function FromDot(s: seq<Byte>): Option<seq<Byte>> {
    Parse(s, [], [])
  }

  /** dns_domain_fromdot over its buffers; false stands for the protocol error. */
  method DomainFromDot(buf: seq<Byte>) returns (ok: bool, out: seq<Byte>)
    ensures match FromDot(buf) case None => !ok case Some(w) => ok && out == w
  {
    hide Escaped;
    var lab, name := new Byte[63](_ => 0), new Byte[255](_ => 0);
    var labellen: nat, namelen: nat := 0, 0;
    var x := buf;
    out := [];
    while x != []
      invariant labellen <= 63 && namelen <= 255
      invariant Parse(x, lab[..labellen], name[..namelen]) == FromDot(buf)
      decreases |x|
    {
      var ch := x[0];
      if ch == DOT {
        x := x[1..];
        if labellen > 0 {
          if namelen + labellen + 1 > 255 { return false, []; }
          namelen := AddLabel(name, namelen, lab, labellen);
          labellen := 0;
        }
        continue;
      }
      var used := 1;
      if ch == BACKSLASH {
        if |x| == 1 { break; }
        var n;
        ch, n := Unescape(x[1..]);
        used := 1 + n;
      }
      if labellen >= 63 { return false, []; }
      ghost var before := lab[..labellen];
      lab[labellen] := ch;
      labellen := labellen + 1;
      assert lab[..labellen] == before + [ch];
      x := x[used..];
    }
    if labellen > 0 {
      if namelen + labellen + 1 > 255 { return false, []; }
      namelen := AddLabel(name, namelen, lab, labellen);
    }
    if namelen + 1 > 255 { return false, []; }
    ghost var before := name[..namelen];
    name[namelen] := 0;
    assert name[..namelen + 1] == before + [0];
    return true, name[..namelen + 1];
  }

  /** The length byte and the label, behind the labels so far. */
  method AddLabel(name: array<Byte>, namelen: nat, lab: array<Byte>, labellen: nat) returns (n: nat)
    requires name.Length == 255 && lab.Length == 63 && name != lab && 0 < labellen <= 63
      && namelen + labellen + 1 <= 255
    modifies name
    ensures n == namelen + labellen + 1 && name[..n] == old(name[..namelen]) + [labellen] + lab[..labellen]
  {
    ghost var before := name[..namelen];
    name[namelen] := labellen;
    for i := 0 to labellen
      invariant name[..namelen + 1 + i] == before + [labellen] + lab[..i] && lab[..] == old(lab[..])
    {
      name[namelen + 1 + i] := lab[i];
    }
    n := namelen + labellen + 1;
  }

  method Unescape(s: seq<Byte>) returns (ch: Byte, n: nat)
    requires s != []
    ensures (ch, n) == Escaped(s)
  {
    ch, n := s[0], 1;
    if '0' as int <= ch <= '7' as int {
      ch := ch - ZERO;
      if |s| > 1 && '0' as int <= s[1] <= '7' as int {
        ch := (8 * (ch as int) + (s[1] - ZERO)) % 256;
        n := 2;
        if |s| > 2 && '0' as int <= s[2] <= '7' as int {
          ch := (8 * (ch as int) + (s[2] - ZERO)) % 256;
          n := 3;
        }
      }
    }
  }

  // ---------- The round trip ----------

  /** A printed byte is parsed back as the lowered byte, whatever follows it. */
  lemma {:induction false} ParseShown(b: Byte, rest: seq<Byte>, lab: seq<Byte>, name: seq<Byte>)
    requires |lab| < MAXLABEL
    ensures Parse(Shown(b) + rest, lab, name) == Parse(rest, lab + [LowerByte(b)], name)
  {
    hide Close, Flush;
    var l := LowerByte(b);
    var s := Shown(b) + rest;
    if Plain(l) {
      assert s[1..] == rest;
    } else {
      OctalBack(l, rest);
      assert s[1..] == [ZERO + l / 64, ZERO + l / 8 % 8, ZERO + l % 8] + rest;
      assert s[4..] == rest;
    }
  }

  lemma {:induction false} OctalBack(l: Byte, rest: seq<Byte>)
    ensures Escaped([ZERO + l / 64, ZERO + l / 8 % 8, ZERO + l % 8] + rest) == (l, 3)
  {
    assert 8 * (8 * (l / 64) + l / 8 % 8) + l % 8 == l;
  }

  lemma {:induction false} ParseLabelText(s: seq<Byte>, rest: seq<Byte>, lab: seq<Byte>, name: seq<Byte>)
    requires |lab| + |s| <= MAXLABEL
    ensures Parse(LabelText(s) + rest, lab, name) == Parse(rest, lab + Lower(s), name)
    decreases |s|
  {
    hide Parse, Shown;
    if s == [] {
      assert LabelText(s) + rest == rest && lab + Lower(s) == lab;
    } else {
      assert LabelText(s) + rest == Shown(s[0]) + (LabelText(s[1..]) + rest);
      ParseShown(s[0], LabelText(s[1..]) + rest, lab, name);
      ParseLabelText(s[1..], rest, lab + [LowerByte(s[0])], name);
      assert lab + [LowerByte(s[0])] + Lower(s[1..]) == lab + Lower(s);
    }
  }

  /** The dot behind a label. */
  lemma {:induction false} ParseDot(lab: seq<Byte>, rest: seq<Byte>, name: seq<Byte>)
    requires 0 < |lab| <= MAXLABEL && |name| + |lab| + 1 <= MAXNAME
    ensures Parse([DOT] + rest, lab, name) == Parse(rest, [], name + [|lab|] + lab)
  {
    assert ([DOT] + rest)[1..] == rest;
  }

  lemma {:induction false} ParseEnd(lab: seq<Byte>, name: seq<Byte>)
    requires 0 < |lab| <= MAXLABEL && |name| + |lab| + 2 <= MAXNAME
    ensures Parse([], lab, name) == Some(name + [|lab|] + lab + [0])
  {
  }

  lemma {:induction false} LowerParts(w: seq<Byte>)
    requires IsName(w) && w[0] != 0
    ensures Lower(w) == [w[0]] + Lower(w[1..1 + w[0]]) + Lower(w[1 + w[0]..])
  {
    LengthIsLow(w[0]);
  }

  /** The last label of a name: low is the lowered label. */
  lemma {:induction false} ParseLast(lab: seq<Byte>, low: seq<Byte>, name: seq<Byte>)
    requires 0 < |lab| <= MAXLABEL && low == Lower(lab) && |name| + |lab| + 2 <= MAXNAME
    ensures Parse(LabelText(lab), [], name) == Some(name + ([|lab|] + low + [0]))
  {
    hide Parse, Lower, LabelText;
    ParseLabelText(lab, [], [], name);
    assert LabelText(lab) + [] == LabelText(lab) && [] + low == low;
    ParseEnd(low, name);
    assert name + ([|lab|] + low + [0]) == name + [|lab|] + low + [0];
  }

  /** A label with a dot and more text behind it. */
  lemma {:induction false} ParseMore(lab: seq<Byte>, low: seq<Byte>, text: seq<Byte>, name: seq<Byte>)
    requires 0 < |lab| <= MAXLABEL && low == Lower(lab) && |name| + |lab| + 1 <= MAXNAME
    ensures Parse(LabelText(lab) + [DOT] + text, [], name) == Parse(text, [], name + ([|lab|] + low))
  {
    hide Parse, Lower, LabelText;
    ParseLabelText(lab, [DOT] + text, [], name);
    assert LabelText(lab) + ([DOT] + text) == LabelText(lab) + [DOT] + text && [] + low == low;
    ParseDot(low, text, name);
    assert name + ([|lab|] + low) == name + [|lab|] + low;
  }

  lemma {:induction false} ParseText(w: seq<Byte>, name: seq<Byte>)
    requires IsName(w) && w[0] != 0 && |name| + |w| <= MAXNAME
    ensures Parse(Text(w), [], name) == Some(name + Lower(w))
    decreases |w|
  {
    hide IsName, LabelText, Parse, Lower, Text;
    var lab, rest := NameParts(w);
    var low, lowRest := Lower(lab), Lower(rest);
    if rest[0] == 0 {
      ParseLast(lab, low, name);
    } else {
      ParseMore(lab, low, Text(rest), name);
      ParseText(rest, name + ([|lab|] + low));
      Regroup(name, [|lab|] + low, lowRest);
    }
  }

  lemma {:induction false} Regroup(a: seq<Byte>, b: seq<Byte>, c: seq<Byte>)
    ensures a + b + c == a + (b + c)
  {
  }

  /** The first label of a name and the rest, with their text and their lowered form. */
  lemma {:induction false} NameParts(w: seq<Byte>) returns (lab: seq<Byte>, rest: seq<Byte>)
    requires IsName(w) && w[0] != 0
    ensures 0 < |lab| <= MAXLABEL && |w| == 1 + |lab| + |rest| && IsName(rest) && rest != [] && |rest| < |w|
    ensures rest[0] == 0 ==> Text(w) == LabelText(lab) && Lower(w) == [|lab|] + Lower(lab) + [0]
    ensures rest[0] != 0 ==> Text(w) == LabelText(lab) + [DOT] + Text(rest)
    ensures Lower(w) == [|lab|] + Lower(lab) + Lower(rest)
  {
    TextParts(w);
    LowerParts(w);
    lab, rest := w[1..1 + w[0]], w[1 + w[0]..];
    if rest[0] == 0 { RestIsRoot(rest); }
  }

  lemma {:induction false} LengthIsLow(n: Byte)
    requires n <= 63
    ensures LowerByte(n) == n
  {
  }

  lemma {:induction false} RestIsRoot(w: seq<Byte>)
    requires IsName(w) && w[0] == 0
    ensures w == [0] && Lower(w) == [0]
  {
  }

  lemma {:induction false} RootParses()
    ensures Parse([], [], []) == Some([0])
  {
    var none: seq<Byte> := [];
    assert none + [0] == [0];
    assert Close(none, none) == Some([0]);
  }

  /** Printing a name and parsing the text gives the name back, its letters lowered. */
  lemma {:induction false} DottedRoundTrip(w: seq<Byte>)
    requires IsName(w) && |w| <= MAXNAME
    ensures FromDot(ToDot(w)) == Some(Lower(w))
  {
    if w[0] == 0 {
      RestIsRoot(w);
      assert [DOT][1..] == [];
      RootParses();
    } else {
      ParseText(w, []);
      assert [] + Lower(w) == Lower(w);
    }
  }

  // ---------- What is parsed is a name ----------

  lemma {:induction false} FlushPartial(lab: seq<Byte>, name: seq<Byte>)
    requires Partial(name, 0)
    ensures Flush(lab, name).Some? ==> Partial(Flush(lab, name).value, 0)
  {
    if lab != [] && |lab| <= MAXLABEL {
      PartialLabel(name, |lab|);
      PartialBytes(name + [|lab|], |lab|, lab);
    }
  }

  lemma {:induction false} PartialBytes(n: seq<Byte>, state: nat, s: seq<Byte>)
    requires Partial(n, state) && |s| <= state
    ensures Partial(n + s, state - |s|)
    decreases |s|
  {
    hide Partial;
    if s == [] {
      assert n + s == n;
    } else {
      PartialByte(n, state, s[0]);
      PartialBytes(n + [s[0]], state - 1, s[1..]);
      assert n + [s[0]] + s[1..] == n + s;
    }
  }

  lemma {:induction false} ParsePartial(s: seq<Byte>, lab: seq<Byte>, name: seq<Byte>)
    requires Partial(name, 0)
    ensures var r := Parse(s, lab, name); r.Some? ==> IsName(r.value) && |r.value| <= MAXNAME
    decreases |s|
  {
    hide Partial, IsName, Escaped, Flush;
    FlushPartial(lab, name);
    if s == [] || s == [BACKSLASH] {
      if Flush(lab, name).Some? { PartialLabel(Flush(lab, name).value, 0); }
    } else if s[0] == DOT {
      if Flush(lab, name).Some? { ParsePartial(s[1..], [], Flush(lab, name).value); }
    } else if |lab| < MAXLABEL {
      var (ch, used) := if s[0] == BACKSLASH then var e := Escaped(s[1..]); (e.0, 1 + e.1) else (s[0], 1);
      ParsePartial(s[used..], lab + [ch], name);
    }
  }

  /** Whatever the text, a parsed name is a proper one of at most 255 bytes. */
  lemma {:induction false} FromDotIsName(s: seq<Byte>)
    ensures FromDot(s).Some? ==> IsName(FromDot(s).value) && |FromDot(s).value| <= MAXNAME
  {
    ParsePartial(s, [], []);
  }
}
