/** The data of a resource record as a message holds it: plain bytes and names, the names possibly
    compressed. */
module RecordData {
  import opened Basics
  import opened Bytes
  import opened DnsName
  import opened DnsPacket
  import opened DnsCompress

  /** A name is kept lower-cased. */
  datatype Piece = Raw(s: seq<Byte>) | Name(w: seq<Byte>)

  /** The pieces ps stand back to back from pos up to end. */
  ghost predicate PiecesAt(buf: seq<Byte>, nb: Trace, pos: nat, ps: seq<Piece>, end: nat)
    decreases |ps|
  {
    if ps == [] then pos == end
    else
      var next := PieceEnd(nb, pos, ps[0]);
      PieceAt(buf, nb, pos, ps[0]) && PiecesAt(buf, nb, next, ps[1..], end)
  }

  ghost predicate PieceAt(buf: seq<Byte>, nb: Trace, pos: nat, p: Piece) {
    match p
    case Raw(s) => pos + |s| <= |buf| && buf[pos..pos + |s|] == s
    case Name(w) => IsName(w) && |w| <= MAXNAME && At(nb, pos, w) && EndAt(nb, pos, w) <= |buf|
  }

  /** The position behind a piece. */
  ghost function PieceEnd(nb: Trace, pos: nat, p: Piece): nat {
    match p
    case Raw(s) => pos + |s|
    case Name(w) => if IsName(w) && At(nb, pos, w) then EndAt(nb, pos, w) else pos
  }

  lemma {:induction false} PieceForward(buf: seq<Byte>, nb: Trace, pos: nat, p: Piece)
    requires PieceAt(buf, nb, pos, p)
    ensures pos <= PieceEnd(nb, pos, p) <= |buf|
    ensures p.Name? ==> pos < PieceEnd(nb, pos, p)
  {
    if p.Name? {
      EndBehind(nb, pos, p.w);
    }
  }

  lemma {:induction false} EndBehind(nb: Trace, pos: nat, w: seq<Byte>)
    requires IsName(w) && At(nb, pos, w)
    ensures EndAt(nb, pos, w) > pos
    decreases |w|
  {
    if w[0] != 0 && nb[pos] < 192 {
      assert Literal(nb, pos, w);
      EndBehind(nb, pos + 1 + w[0], w[1 + w[0]..]);
    }
  }

  lemma {:induction false} PiecesForward(buf: seq<Byte>, nb: Trace, pos: nat, ps: seq<Piece>, end: nat)
    requires PiecesAt(buf, nb, pos, ps, end)
    ensures pos <= end && (ps != [] ==> end <= |buf|)
    decreases |ps|
  {
    hide PieceAt, PieceEnd;
    if ps != [] {
      PieceForward(buf, nb, pos, ps[0]);
      PiecesForward(buf, nb, PieceEnd(nb, pos, ps[0]), ps[1..], end);
    }
  }

  lemma {:induction false} PieceStays(buf: seq<Byte>, nb: Trace, buf': seq<Byte>, nb': Trace, pos: nat, p: Piece)
    requires PieceAt(buf, nb, pos, p) && Extends(nb, nb') && PieceEnd(nb, pos, p) <= |buf'|
    requires forall i :: pos <= i < PieceEnd(nb, pos, p) ==> buf'[i] == buf[i]
    ensures PieceAt(buf', nb', pos, p) && PieceEnd(nb', pos, p) == PieceEnd(nb, pos, p)
  {
    if p.Name? {
      AtStays(nb, nb', pos, p.w);
    }
  }

  /** Record data stays while more is written, and when bytes elsewhere change. */
  lemma {:induction false} PiecesStay(buf: seq<Byte>, nb: Trace, buf': seq<Byte>, nb': Trace, pos: nat,
                                      ps: seq<Piece>, end: nat)
    requires PiecesAt(buf, nb, pos, ps, end) && Extends(nb, nb') && end <= |buf'| && end <= |buf|
    requires forall i :: pos <= i < end ==> buf'[i] == buf[i]
    ensures PiecesAt(buf', nb', pos, ps, end)
    decreases |ps|
  {
    hide PieceAt, PieceEnd, Extends;
    if ps != [] {
      PieceForward(buf, nb, pos, ps[0]);
      PiecesForward(buf, nb, PieceEnd(nb, pos, ps[0]), ps[1..], end);
      PieceStays(buf, nb, buf', nb', pos, ps[0]);
      PiecesStay(buf, nb, buf', nb', PieceEnd(nb, pos, ps[0]), ps[1..], end);
    }
  }

  lemma {:induction false} PiecesAppend(buf: seq<Byte>, nb: Trace, pos: nat, ps: seq<Piece>, end: nat, p: Piece)
    requires PiecesAt(buf, nb, pos, ps, end) && PieceAt(buf, nb, end, p)
    ensures PiecesAt(buf, nb, pos, ps + [p], PieceEnd(nb, end, p))
    decreases |ps|
  {
    hide PieceAt, PieceEnd;
    if ps == [] {
      assert (ps + [p])[1..] == [];
    } else {
      assert (ps + [p])[1..] == ps[1..] + [p];
      PiecesAppend(buf, nb, PieceEnd(nb, pos, ps[0]), ps[1..], end, p);
    }
  }

  /** The name behind `skip` plain bytes of record data is read back, up to ASCII case. */
  lemma {:induction false} ReadName(buf: seq<Byte>, nb: Trace, pos: nat, ps: seq<Piece>, end: nat, k: nat)
    requires PiecesAt(buf, nb, pos, ps, end) && Shows(buf, nb)
    requires k < |ps| <= 2 && ps[k].Name? && (k == 1 ==> ps[0].Raw?)
    ensures var from := if k == 0 then pos else pos + |ps[0].s|;
      GetName(buf, from).Some? && Lower(GetName(buf, from).value.name) == ps[k].w
  {
    hide GetName, SkipName, At, EndAt, Shows;
    if k == 1 {
      assert ps[1..][0] == ps[1];
      assert PieceAt(buf, nb, pos + |ps[0].s|, ps[1]);
      RoundTrip(buf, nb, pos + |ps[0].s|, ps[1].w);
    } else {
      RoundTrip(buf, nb, pos, ps[0].w);
    }
  }
}
