/** The two flag bytes of a message header: the AA bit and the response code (section 4.1.1 of RFC 1035).
    Every other byte keeps its value. */
module HeaderBits {
  import opened Bytes
  import opened MessageWriter

  /** b & ~4 */
  function ClearAA(b: Byte): (r: Byte)
    ensures r / 4 % 2 == 0 && r / 8 == b / 8 && r % 4 == b % 4
  {
    if b / 4 % 2 == 1 then b - 4 else b
  }

  /** b | 4 */
  function SetAA(b: Byte): (r: Byte)
    ensures r / 4 % 2 == 1 && r / 8 == b / 8 && r % 4 == b % 4
  {
    if b / 4 % 2 == 1 then b else b + 4
  }

  /** b | 3 */
  function NameError(b: Byte): (r: Byte)
    ensures r % 4 == 3 && r / 4 == b / 4
  {
    b - b % 4 + 3
  }

  /** b | 2 */
  function ServerFailure(b: Byte): (r: Byte)
    ensures r / 2 % 2 == 1 && r / 4 == b / 4 && r % 2 == b % 2
  {
    if b / 2 % 2 == 1 then b else b + 2
  }

  method ClearAuthority(m: Message)
    requires m.Complete()
    modifies m.r.msg
    ensures m.Complete() && (old(m.r.Small()) ==> m.r.Small())
    ensures |old(m.Flags())| == 2 && m.Flags() == [ClearAA(old(m.Flags())[0]), old(m.Flags())[1]]
    ensures m.r.msg[..m.r.len] == old(m.r.msg[..m.r.len])[2 := ClearAA(old(m.r.msg[2]))]
  {
    var b := m.r.msg[2];
    m.SetHeader(2, ClearAA(b));
    FlagBytes(m);
  }

  /** response_nxdomain */
  method NxDomain(m: Message)
    requires m.Complete()
    modifies m.r.msg
    ensures m.Complete() && (old(m.r.Small()) ==> m.r.Small())
    ensures |old(m.Flags())| == 2 && m.Flags() == [SetAA(old(m.Flags())[0]), NameError(old(m.Flags())[1])]
    ensures m.r.msg[..m.r.len] == old(m.r.msg[..m.r.len])[3 := NameError(old(m.r.msg[3]))][2 := SetAA(old(m.r.msg[2]))]
  {
    var a, b := m.r.msg[3], m.r.msg[2];
    m.SetHeader(3, NameError(a));
    FlagBytes(m);
    m.SetHeader(2, SetAA(b));
    FlagBytes(m);
  }

  /** response_servfail */
  method ServFail(m: Message)
    requires m.Complete()
    modifies m.r.msg
    ensures m.Complete() && (old(m.r.Small()) ==> m.r.Small())
    ensures |old(m.Flags())| == 2 && m.Flags() == [old(m.Flags())[0], ServerFailure(old(m.Flags())[1])]
    ensures m.r.msg[..m.r.len] == old(m.r.msg[..m.r.len])[3 := ServerFailure(old(m.r.msg[3]))]
  {
    var b := m.r.msg[3];
    m.SetHeader(3, ServerFailure(b));
    FlagBytes(m);
  }

  lemma {:induction false} FlagBytes(m: Message)
    requires m.Complete()
    ensures m.r.len <= m.r.msg.Length && m.r.len >= HEADERLEN && m.Flags() == m.r.msg[..m.r.len][2..4]
  {
  }
}
