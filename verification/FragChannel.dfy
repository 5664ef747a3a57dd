/**
 Many packets over a channel that may lose, repeat and reorder their fragments at will: what the receiver
 hands up was sent, as long as 14 bits tell the fragments apart.
 */
module FragChannel {
  import opened Base
  import opened Fragment

  /** The fragments of the first `n` packets, one packet after the other, numbered from `s`. */
  function SentTo(ps: seq<Bytes>, cap: nat, s: U32, n: nat): seq<Frag>
    requires cap > 0 && n <= |ps|
  {
    if n == 0 then [] else
      var before := SentTo(ps, cap, s, n - 1);
      before + Cut(ps[n - 1], cap, 0, Add32(s, |before|))
  }

  function Sent(ps: seq<Bytes>, cap: nat, s: U32): seq<Frag>
    requires cap > 0
  {
    SentTo(ps, cap, s, |ps|)
  }

  /** What the channel makes of the fragments: position `t` holds a copy of fragment `picks[t]`. */
  function Arrivals(fs: seq<Frag>, picks: seq<nat>): (ds: seq<Bytes>)
    requires forall t :: 0 <= t < |picks| ==> picks[t] < |fs|
    ensures |ds| == |picks|
  {
    seq(|picks|, t requires 0 <= t < |picks| => Frame(fs[picks[t]]))
  }

  // ---------------------------------------------------------------- where each fragment comes from

  /** Fragment made from packet `pkt` at offset `offs`. */
  datatype Origin = Origin(pkt: Bytes, offs: nat)

  ghost predicate Inner(o: Origin, cap: nat) {
    o.offs + cap < |o.pkt|
  }

  ghost predicate Followed(os: seq<Origin>, cap: nat, i: nat)
    requires i < |os|
  {
    Inner(os[i], cap) ==> i + 1 < |os| && os[i + 1] == Origin(os[i].pkt, os[i].offs + cap)
  }

  /** `os` tells for each fragment what it was made from. */
  ghost predicate Origins(os: seq<Origin>, ps: seq<Bytes>, fs: seq<Frag>, cap: nat, s: nat) {
    && |os| == |fs|
    && (forall i :: 0 <= i < |os| ==> os[i].pkt in ps && os[i].offs < |os[i].pkt|)
    && (forall i :: 0 <= i < |os| ==> fs[i] == Piece(os[i].pkt, cap, os[i].offs, s + i))
    && (os != [] ==> os[0].offs == 0)
    && (forall i :: 0 <= i < |os| ==> Followed(os, cap, i))
  }

  lemma LowBits(s: nat, i: nat)
    ensures (s % TWO32 + i) % SEQ_SPACE == (s + i) % SEQ_SPACE
  {
    assert s % TWO32 == s - s / TWO32 * (TWO32 / SEQ_SPACE) * SEQ_SPACE;
  }

  lemma CutOrigin(pkt: Bytes, cap: nat, s: nat, s0: U32, i: nat)
    requires cap > 0 && s0 == s % TWO32 && i < |Cut(pkt, cap, 0, s0)|
    ensures Full(cap, i) < |pkt| && Cut(pkt, cap, 0, s0)[i] == Piece(pkt, cap, Full(cap, i), s + i)
    ensures Full(cap, i) + cap < |pkt| ==> i + 1 < |Cut(pkt, cap, 0, s0)|
    ensures Full(cap, i + 1) == Full(cap, i) + cap
  {
    hide Full, Piece, Cut;
    CutAt(pkt, cap, 0, s0, i);
    LowBits(s, i);
    SameNumber(pkt, cap, Full(cap, i), s0 + i, s + i);
    FullStep(cap, i);
    CutEnds(pkt, cap, s0);
  }

  lemma CutEnds(pkt: Bytes, cap: nat, s0: U32)
    requires cap > 0 && pkt != []
    ensures Full(cap, |Cut(pkt, cap, 0, s0)|) >= |pkt|
  {
    CutIsExact(pkt, cap, 0, s0);
  }

  lemma CutOrigins(pkt: Bytes, cap: nat, s: nat, s0: U32) returns (os: seq<Origin>)
    requires cap > 0 && s0 == s % TWO32
    ensures Origins(os, [pkt], Cut(pkt, cap, 0, s0), cap, s)
  {
    hide Full, Piece, Cut;
    var fs := Cut(pkt, cap, 0, s0);
    os := seq(|fs|, i requires 0 <= i < |fs| => Origin(pkt, Full(cap, i)));
    FullStep(cap, 0);
    forall i | 0 <= i < |fs|
      ensures os[i].offs < |pkt| && fs[i] == Piece(pkt, cap, os[i].offs, s + i)
      ensures Followed(os, cap, i)
    {
      CutOrigin(pkt, cap, s, s0, i);
    }
  }

  lemma {:induction false} SentOrigins(ps: seq<Bytes>, cap: nat, s: U32, n: nat) returns (os: seq<Origin>)
    requires cap > 0 && n <= |ps|
    ensures Origins(os, ps, SentTo(ps, cap, s, n), cap, s)
  {
    hide Piece, Cut;
    if n == 0 {
      os := [];
    } else {
      var os1 := SentOrigins(ps, cap, s, n - 1);
      var k := |os1|;
      var os2 := CutOrigins(ps[n - 1], cap, s + k, Add32(s, k));
      OriginsJoin(os1, os2, ps, ps[n - 1], SentTo(ps, cap, s, n - 1), Cut(ps[n - 1], cap, 0, Add32(s, k)), cap, s);
      os := os1 + os2;
    }
  }

  lemma OriginsJoin(os1: seq<Origin>, os2: seq<Origin>, ps: seq<Bytes>, p: Bytes, fs1: seq<Frag>, fs2: seq<Frag>,
                    cap: nat, s: nat)
    requires p in ps && Origins(os1, ps, fs1, cap, s) && Origins(os2, [p], fs2, cap, s + |os1|)
    ensures Origins(os1 + os2, ps, fs1 + fs2, cap, s)
  {
    hide Piece, Inner;
    var os, fs, k := os1 + os2, fs1 + fs2, |os1|;
    forall i | 0 <= i < |os|
      ensures os[i].pkt in ps && os[i].offs < |os[i].pkt|
      ensures fs[i] == Piece(os[i].pkt, cap, os[i].offs, s + i)
      ensures Followed(os, cap, i)
    {
      if i < k {
        assert Followed(os1, cap, i);
      } else {
        assert Followed(os2, cap, i - k);
        assert os[i] == os2[i - k] && fs[i] == fs2[i - k];
        assert s + i == s + k + (i - k);
      }
    }
  }

  // ---------------------------------------------------------------- what the receiver holds

  /** After fragment `j`: nothing, or all of its packet up to the end of `j`, with more to come. */
  ghost predicate Collecting(e: Rx, os: seq<Origin>, cap: nat, s: nat, j: nat)
    requires j < |os|
  {
    && e.recvseq == (s + j) % SEQ_SPACE + 1
    && (e.defrag.Some? ==> Inner(os[j], cap) && e.defrag.value == os[j].pkt[..os[j].offs + cap])
  }

  /** Numbers tell fragment `i`, taken after `j`, from the successor of `j`. */
  ghost predicate Apart(os: seq<Origin>, cap: nat, s: nat, j: nat, i: nat)
    requires i < |os| && j < |os|
  {
    Inner(os[j], cap) && (s + i) % SEQ_SPACE == (s + j) % SEQ_SPACE + 1 ==> i == j + 1 || os[i].offs == 0
  }

  /** A fragment that opens a packet, or that ends up with nothing to extend. */
  lemma TakeAfresh(e: Rx, ps: seq<Bytes>, fs: seq<Frag>, os: seq<Origin>, cap: nat, s: nat, i: nat)
    requires cap > 0 && Origins(os, ps, fs, cap, s) && i < |fs|
    requires os[i].offs == 0 || e.defrag.None? || e.recvseq != (s + i) % SEQ_SPACE
    ensures var (e1, up) := Take(e, fs[i]); Collecting(e1, os, cap, s, i) && (up.Some? ==> up.value in ps)
  {
    var o := os[i];
    assert fs[i] == Piece(o.pkt, cap, o.offs, s + i);
    assert o.pkt[0..|o.pkt|] == o.pkt;
  }

  /** The successor of the last fragment taken. */
  lemma TakeNext(e: Rx, ps: seq<Bytes>, fs: seq<Frag>, os: seq<Origin>, cap: nat, s: nat, j: nat)
    requires cap > 0 && Origins(os, ps, fs, cap, s) && j + 1 < |fs|
    requires Collecting(e, os, cap, s, j) && e.defrag.Some?
    ensures var (e1, up) := Take(e, fs[j + 1]); Collecting(e1, os, cap, s, j + 1) && (up.Some? ==> up.value in ps)
  {
    var o, q := os[j], os[j + 1];
    assert Followed(os, cap, j);
    assert q == Origin(o.pkt, o.offs + cap);
    var m := PieceLen(q.pkt, cap, q.offs);
    assert fs[j + 1] == Piece(q.pkt, cap, q.offs, s + (j + 1));
    assert q.pkt[..q.offs] + q.pkt[q.offs..q.offs + m] == q.pkt[..q.offs + m];
    assert q.pkt[..|q.pkt|] == q.pkt;
  }

  lemma TakeAny(e: Rx, ps: seq<Bytes>, fs: seq<Frag>, os: seq<Origin>, cap: nat, s: nat, j: nat, i: nat)
    requires cap > 0 && Origins(os, ps, fs, cap, s) && i < |fs| && j < |fs|
    requires Collecting(e, os, cap, s, j) && Apart(os, cap, s, j, i)
    ensures Take.requires(e, fs[i])
    ensures var (e1, up) := Take(e, fs[i]); Collecting(e1, os, cap, s, i) && (up.Some? ==> up.value in ps)
  {
    hide Take, Origins;
    PieceNumber(ps, fs, os, cap, s, i);
    if e.defrag.Some? && e.recvseq == (s + i) % SEQ_SPACE && os[i].offs != 0 {
      TakeNext(e, ps, fs, os, cap, s, j);
    } else {
      TakeAfresh(e, ps, fs, os, cap, s, i);
    }
  }

  lemma PieceNumber(ps: seq<Bytes>, fs: seq<Frag>, os: seq<Origin>, cap: nat, s: nat, i: nat)
    requires Origins(os, ps, fs, cap, s) && i < |fs|
    ensures |os| == |fs| && fs[i].seqno == (s + i) % SEQ_SPACE
  {
    assert fs[i] == Piece(os[i].pkt, cap, os[i].offs, s + i);
  }

  /** Fragments are written and read back on the way. */
  lemma FeedSent(e: Rx, ps: seq<Bytes>, fs: seq<Frag>, os: seq<Origin>, cap: nat, s: nat, i: nat)
    requires 0 < cap <= 65535 - OVERHEAD && Origins(os, ps, fs, cap, s) && i < |fs|
    ensures fs[i].seqno < SEQ_SPACE && Feed(e, Frame(fs[i])) == Take(e, fs[i])
  {
    hide Parse, Frame, Take;
    assert fs[i] == Piece(os[i].pkt, cap, os[i].offs, s + i);
    FrameRoundTrip(fs[i]);
  }

  /** After any arrivals of which each is told from the successor of the one before. */
  lemma {:induction false} Arrived(e: Rx, ps: seq<Bytes>, fs: seq<Frag>, os: seq<Origin>, cap: nat, s: nat,
                                   picks: seq<nat>, n: nat)
    requires 0 < cap <= 65535 - OVERHEAD && Origins(os, ps, fs, cap, s) && e.defrag.None?
    requires forall t :: 0 <= t < |picks| ==> picks[t] < |fs|
    requires forall t :: 0 < t < |picks| ==> Apart(os, cap, s, picks[t - 1], picks[t])
    requires n <= |picks|
    ensures var (e1, ups) := FeedTo(e, Arrivals(fs, picks), n);
            && (n > 0 ==> Collecting(e1, os, cap, s, picks[n - 1]))
            && (forall b :: b in ups ==> b in ps)
  {
    hide Origins, Feed, Take, Frame, Collecting, Apart;
    if n > 0 {
      Arrived(e, ps, fs, os, cap, s, picks, n - 1);
      var i := picks[n - 1];
      var e1 := FeedTo(e, Arrivals(fs, picks), n - 1).0;
      assert Arrivals(fs, picks)[n - 1] == Frame(fs[i]);
      FeedSent(e1, ps, fs, os, cap, s, i);
      if n == 1 {
        TakeAfresh(e1, ps, fs, os, cap, s, i);
      } else {
        TakeAny(e1, ps, fs, os, cap, s, picks[n - 2], i);
      }
    }
  }

  // ---------------------------------------------------------------- integrity

  /** Numbers one apart belong to fragments one apart, give or take whole turns of the counter. */
  lemma WholeTurns(s: nat, j: nat, i: nat) returns (turns: int)
    requires (s + i) % SEQ_SPACE == (s + j) % SEQ_SPACE + 1
    ensures i == j + 1 + SEQ_SPACE * turns
  {
    turns := (s + i) / SEQ_SPACE - (s + j) / SEQ_SPACE;
  }

  lemma ShortStreamApart(os: seq<Origin>, ps: seq<Bytes>, fs: seq<Frag>, cap: nat, s: nat, j: nat, i: nat)
    requires Origins(os, ps, fs, cap, s) && |fs| <= SEQ_SPACE + 1 && i < |fs| && j < |fs|
    ensures Apart(os, cap, s, j, i)
  {
    hide Piece;
    if Inner(os[j], cap) && (s + i) % SEQ_SPACE == (s + j) % SEQ_SPACE + 1 {
      assert Followed(os, cap, j);
      var turns := WholeTurns(s, j, i);
    }
  }

  /** Of at most 2^14 + 1 fragments, of any packets, lost, repeated and reordered in any way, every packet
      put together is one that was sent. */
  lemma OnlySentPackets(e: Rx, ps: seq<Bytes>, cap: nat, s: U32, picks: seq<nat>)
    requires 0 < cap <= 65535 - OVERHEAD && e.defrag.None?
    requires |Sent(ps, cap, s)| <= SEQ_SPACE + 1
    requires forall t :: 0 <= t < |picks| ==> picks[t] < |Sent(ps, cap, s)|
    ensures forall b :: b in FeedTo(e, Arrivals(Sent(ps, cap, s), picks), |picks|).1 ==> b in ps
  {
    hide Origins, Apart;
    var fs := Sent(ps, cap, s);
    var os := SentOrigins(ps, cap, s, |ps|);
    forall t {:trigger picks[t]} | 0 < t < |picks|
      ensures |os| == |fs| && Apart(os, cap, s, picks[t - 1], picks[t])
    {
      PieceNumber(ps, fs, os, cap, s, picks[t]);
      ShortStreamApart(os, ps, fs, cap, s, picks[t - 1], picks[t]);
    }
    Arrived(e, ps, fs, os, cap, s, picks, |picks|);
  }

  /** And so is everything the forwarder is given, provided that no packet sent is a fragment itself. */
  lemma OnlySentForwarded(e: Rx, ps: seq<Bytes>, cap: nat, s: U32, picks: seq<nat>)
    requires 0 < cap <= 65535 - OVERHEAD && e.defrag.None?
    requires |Sent(ps, cap, s)| <= SEQ_SPACE + 1 && forall p :: p in ps ==> !Parse(p).Fragment?
    requires forall t :: 0 <= t < |picks| ==> picks[t] < |Sent(ps, cap, s)|
    ensures forall b :: b in DeepTo(e, Arrivals(Sent(ps, cap, s), picks), |picks|).1 ==> b in ps
  {
    hide Parse, Sent, FeedTo, DeepTo;
    OnlySentPackets(e, ps, cap, s, picks);
    DeepIsFeed(e, Arrivals(Sent(ps, cap, s), picks), |picks|);
  }

  /** Arrivals next to each other lie at most 2^14 forward, or 2^14 - 2 back, in the order of sending. */
  predicate BoundedJumps(picks: seq<nat>) {
    forall t :: 0 < t < |picks| ==> picks[t - 1] - (SEQ_SPACE - 2) <= picks[t] <= picks[t - 1] + SEQ_SPACE
  }

  lemma NearApart(os: seq<Origin>, cap: nat, s: nat, j: nat, i: nat)
    requires i < |os| && j < |os| && j - (SEQ_SPACE - 2) <= i <= j + SEQ_SPACE
    ensures Apart(os, cap, s, j, i)
  {
    if (s + i) % SEQ_SPACE == (s + j) % SEQ_SPACE + 1 {
      var turns := WholeTurns(s, j, i);
    }
  }

  /** However long the stream is, when no two arrivals in a row are far apart. */
  lemma OnlySentPacketsEver(e: Rx, ps: seq<Bytes>, cap: nat, s: U32, picks: seq<nat>)
    requires 0 < cap <= 65535 - OVERHEAD && e.defrag.None?
    requires forall t :: 0 <= t < |picks| ==> picks[t] < |Sent(ps, cap, s)|
    requires BoundedJumps(picks)
    ensures forall b :: b in FeedTo(e, Arrivals(Sent(ps, cap, s), picks), |picks|).1 ==> b in ps
  {
    hide Origins, Apart;
    var fs := Sent(ps, cap, s);
    var os := SentOrigins(ps, cap, s, |ps|);
    forall t {:trigger picks[t]} | 0 < t < |picks|
      ensures |os| == |fs| && Apart(os, cap, s, picks[t - 1], picks[t])
    {
      PieceNumber(ps, fs, os, cap, s, picks[t]);
      NearApart(os, cap, s, picks[t - 1], picks[t]);
    }
    Arrived(e, ps, fs, os, cap, s, picks, |picks|);
  }
}
