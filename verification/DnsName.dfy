/** Wire-format domain names (section 3.1 of RFC 1035) and the functions of src/dns_domain.c. */
module DnsName {
  import opened Bytes

  /** A sequence of length-prefixed labels of 1 to 63 bytes, ended by the empty label. */
  predicate IsName(w: seq<Byte>)
    decreases |w|
  {
    w != [] &&
    if w[0] == 0 then |w| == 1
    else w[0] <= 63 && 1 + w[0] < |w| && IsName(w[1 + w[0]..])
  }

  /** The limit of RFC 1035 on a whole name. */
  const MAXNAME: nat := 255

  // ---------- ASCII case ----------

  function LowerByte(b: Byte): Byte {
    if 'A' as int <= b <= 'Z' as int then b + 32 else b
  }

  function Lower(w: seq<Byte>): (r: seq<Byte>)
    ensures |r| == |w| && forall i :: 0 <= i < |w| ==> r[i] == LowerByte(w[i])
  {
    seq(|w|, i requires 0 <= i < |w| => LowerByte(w[i]))
  }

  /** The per-byte key compared by case_diffb: unsigned-char subtraction, then re-basing. */
  function CaseKey(b: Byte): Byte {
    var x := (b - 'A' as int + 256) % 256;
    if x <= 25 then (x + 'a' as int) % 256 else (x + 'A' as int) % 256
  }

  lemma {:induction false} CaseKeyIsLower(b: Byte)
    ensures CaseKey(b) == LowerByte(b)
  {
  }

  lemma {:induction false} LowerIdempotent(w: seq<Byte>)
    ensures Lower(Lower(w)) == Lower(w)
  {
  }

  /** Lengths are below 'A', so lowering a name leaves its structure alone. */
  lemma {:induction false} LowerIsName(w: seq<Byte>)
    requires IsName(w)
    ensures IsName(Lower(w)) && Lower(w)[0] == w[0]
    decreases |w|
  {
    if w[0] != 0 {
      LowerIsName(w[1 + w[0]..]);
      assert Lower(w)[1 + Lower(w)[0]..] == Lower(w[1 + w[0]..]);
    }
  }

  // ---------- Length and comparison ----------

  /** dns_domain_length: walks the labels. The buffer may continue behind the name. */
  method DomainLength(dn: seq<Byte>, ghost w: seq<Byte>) returns (n: nat)
    requires IsName(w) && w <= dn
    ensures n == |w|
  {
    var x := 0;
    ghost var rest := w;
    while true
      invariant IsName(rest) && x + |rest| == |w| && rest == w[x..]
      decreases |rest|
    {
      var c := dn[x];
      assert c == rest[0];
      x := x + 1;
      if c == 0 {
        return x;
      }
      x := x + c;
      rest := rest[1 + c..];
    }
  }

  predicate SameName(a: seq<Byte>, b: seq<Byte>) {
    Lower(a) == Lower(b)
  }

  /** case_diffb as an equality test. */
  method CaseEqual(s: seq<Byte>, t: seq<Byte>) returns (same: bool)
    requires |s| == |t|
    ensures same <==> SameName(s, t)
  {
    var i := 0;
    while i < |s|
      invariant i <= |s| && forall k :: 0 <= k < i ==> LowerByte(s[k]) == LowerByte(t[k])
    {
      CaseKeyIsLower(s[i]);
      CaseKeyIsLower(t[i]);
      if CaseKey(s[i]) != CaseKey(t[i]) {
        assert Lower(s)[i] != Lower(t)[i];
        return false;
      }
      i := i + 1;
    }
    return true;
  }

  /** dns_domain_equal */
  method DomainEqual(a: seq<Byte>, b: seq<Byte>) returns (same: bool)
    requires IsName(a) && IsName(b)
    ensures same <==> SameName(a, b)
  {
    var len := DomainLength(a, a);
    var other := DomainLength(b, b);
    if len != other {
      assert |Lower(a)| != |Lower(b)|;
      return false;
    }
    same := CaseEqual(a, b);
  }

  // ---------- Suffixes ----------

  /** The names obtained by dropping leading labels, as offsets. */
  predicate IsSuffixAt(w: seq<Byte>, o: nat)
    requires IsName(w)
    decreases |w|
  {
    o == 0 || (w[0] != 0 && o >= 1 + w[0] && IsSuffixAt(w[1 + w[0]..], o - 1 - w[0]))
  }

  lemma {:induction false} SuffixIsName(w: seq<Byte>, o: nat)
    requires IsName(w) && IsSuffixAt(w, o)
    ensures o < |w| && IsName(w[o..])
    decreases |w|
  {
    if o != 0 {
      SuffixIsName(w[1 + w[0]..], o - 1 - w[0]);
      assert w[1 + w[0]..][o - 1 - w[0]..] == w[o..];
    }
  }

  lemma {:induction false} SuffixStep(w: seq<Byte>, o: nat)
    requires IsName(w) && IsSuffixAt(w, o) && o < |w| && w[o] != 0
    ensures IsSuffixAt(w, o + 1 + w[o])
    decreases |w|
  {
    if o != 0 {
      assert w[1 + w[0]..][o - 1 - w[0]] == w[o];
      SuffixStep(w[1 + w[0]..], o - 1 - w[0]);
    }
  }

  /** Between two neighbouring suffixes there is none. */
  lemma {:induction false} SuffixGap(w: seq<Byte>, o: nat, p: nat)
    requires IsName(w) && IsSuffixAt(w, o) && IsSuffixAt(w, p) && o < p && o < |w|
    ensures w[o] != 0 && p >= o + 1 + w[o]
    decreases |w|
  {
    if o != 0 {
      assert w[1 + w[0]..][o - 1 - w[0]] == w[o];
      SuffixGap(w[1 + w[0]..], o - 1 - w[0], p - 1 - w[0]);
    }
  }

  lemma {:induction false} SuffixStart(w: seq<Byte>)
    requires IsName(w)
    ensures IsSuffixAt(w, 0) && w[0..] == w && |w| > 0
  {
  }

  /** dns_domain_suffixpos and dns_domain_suffix: the first suffix of big that is little, if any. */
  method SuffixPos(big: seq<Byte>, little: seq<Byte>) returns (found: bool, pos: nat)
    requires IsName(big) && IsName(little)
    ensures found ==> IsSuffixAt(big, pos) && pos < |big| && SameName(big[pos..], little)
    ensures found ==> forall o :: 0 <= o < pos && IsSuffixAt(big, o) ==> !SameName(big[o..], little)
    ensures !found ==> forall o :: 0 <= o < |big| && IsSuffixAt(big, o) ==> !SameName(big[o..], little)
  {
    hide Lower, IsName, IsSuffixAt;
    SuffixStart(big);
    pos := 0;
    while true
      invariant pos < |big| && IsSuffixAt(big, pos) && IsName(big[pos..])
      invariant forall o :: 0 <= o < pos && IsSuffixAt(big, o) ==> !SameName(big[o..], little)
      decreases |big| - pos
    {
      var same := DomainEqual(big[pos..], little);
      if same {
        return true, pos;
      }
      var c := big[pos];
      forall o | pos < o < |big| && IsSuffixAt(big, o) ensures c != 0 && o >= pos + 1 + c {
        SuffixGap(big, pos, o);
      }
      if c == 0 {
        return false, 0;
      }
      SuffixStep(big, pos);
      pos := pos + 1 + c;
      SuffixIsName(big, pos);
    }
  }
}
