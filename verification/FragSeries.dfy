/**
 A single packet in transit: when its fragments arrive in order and none is missing, and when the receiver
 nevertheless loses it.
 */
module FragSeries {
  import opened Base
  import opened Fragment
  import opened FragChannel

  /** The fragments of a whole packet, as datagrams. */
  function Series(pkt: Bytes, cap: nat, s: U32): seq<Bytes>
    requires cap > 0
  {
    Frames(Cut(pkt, cap, 0, s))
  }

  /** No fragment of a series of `n` starting at `s`, other than the first, has number 0. */
  predicate NoWrap(s: nat, n: nat) {
    s % SEQ_SPACE + n <= SEQ_SPACE
  }

  /** What the receiver must hold when `n` fragments of the packet have been taken, from `s` on. */
  predicate Holds(e: Rx, pkt: Bytes, cap: nat, s: nat, n: nat)
    requires 0 < n && Full(cap, n) <= |pkt|
  {
    && e.recvseq == (s + n - 1) % SEQ_SPACE + 1
    && e.defrag == if NoWrap(s, n) then Some(pkt[..Full(cap, n)]) else None
  }

  lemma WrapStep(s: nat, n: nat)
    requires n > 0
    ensures NoWrap(s, n) ==> (NoWrap(s, n + 1) <==> (s + n) % SEQ_SPACE == (s + n - 1) % SEQ_SPACE + 1)
    ensures NoWrap(s, n + 1) ==> NoWrap(s, n)
  {
  }

  /** A later fragment arrives at a receiver that holds the ones before it, or has lost the series. */
  lemma TakeStep(e: Rx, pkt: Bytes, cap: nat, s: nat, n: nat)
    requires cap > 0 && n > 0 && Full(cap, n) < |pkt|
    requires Holds(e, pkt, cap, s, n)
    ensures var (e1, up) := Take(e, Piece(pkt, cap, Full(cap, n), s + n));
            if Full(cap, n + 1) < |pkt| then Holds(e1, pkt, cap, s, n + 1) && up == None
            else up == if NoWrap(s, n + 1) then Some(pkt) else None
  {
    hide Full;
    var offs := Full(cap, n);
    FullStep(cap, n);
    WrapStep(s, n);
    var m := PieceLen(pkt, cap, offs);
    assert pkt[..offs] + pkt[offs..offs + m] == pkt[..offs + m];
    assert pkt[..|pkt|] == pkt;
  }

  lemma FirstStep(e: Rx, pkt: Bytes, cap: nat, s: nat)
    requires cap > 0 && pkt != []
    ensures var (e1, up) := Take(e, Piece(pkt, cap, 0, s));
            if cap < |pkt| then Holds(e1, pkt, cap, s, 1) && up == None else up == Some(pkt)
  {
    hide Full;
    FullStep(cap, 0);
    assert pkt[0..|pkt|] == pkt;
  }

  /** Datagram `i` of the series reaches the receiver as the fragment it was made from. */
  lemma FeedPiece(e: Rx, pkt: Bytes, cap: nat, s: U32, i: nat)
    requires 0 < cap <= 65535 - OVERHEAD && i < |Series(pkt, cap, s)|
    ensures Full(cap, i) < |pkt| && Feed(e, Series(pkt, cap, s)[i]) == Take(e, Piece(pkt, cap, Full(cap, i), s + i))
  {
    hide Full, Take, Frame, Parse, Encodable;
    CutAt(pkt, cap, 0, s, i);
    CutFits(pkt, cap, 0, s);
    var f := Cut(pkt, cap, 0, s)[i];
    assert f in Cut(pkt, cap, 0, s);
    FrameRoundTrip(f);
    assert Series(pkt, cap, s)[i] == FrameOf()(f);
  }

  /** What has been handed up, and what the receiver holds, after the first `n` fragments. */
  lemma {:induction false} AfterPieces(e: Rx, pkt: Bytes, cap: nat, s: U32, n: nat)
    requires 0 < cap <= 65535 - OVERHEAD && pkt != [] && 0 < n <= |Series(pkt, cap, s)|
    ensures var (e1, ups) := FeedTo(e, Series(pkt, cap, s), n);
            if Full(cap, n) < |pkt| then Holds(e1, pkt, cap, s, n) && ups == []
            else ups == if NoWrap(s, n) then [pkt] else []
    decreases n
  {
    hide Full, Holds, NoWrap, Take, PieceLen, Feed, Series;
    var m := n - 1;
    var (e1, ups) := FeedTo(e, Series(pkt, cap, s), m);
    FeedPiece(e1, pkt, cap, s, m);
    var (e2, up) := Take(e1, Piece(pkt, cap, Full(cap, m), s + m));
    assert FeedTo(e, Series(pkt, cap, s), n) == (e2, ups + Handed(up));
    FullStep(cap, 0);
    if m == 0 {
      FirstStep(e, pkt, cap, s);
      SingleNeverWraps(s);
    } else {
      AfterPieces(e, pkt, cap, s, m);
      assert Holds(e1, pkt, cap, s, m) && ups == [];
      TakeStep(e1, pkt, cap, s, m);
    }
  }

  lemma SingleNeverWraps(s: nat)
    ensures NoWrap(s, 1)
  {
  }

  /** An unbroken series reaches the receiver intact and once, whatever the receiver has been through,
      if and only if its sequence numbers do not wrap inside the packet; else nothing is handed up. */
  lemma SeriesDeliveredIff(e: Rx, pkt: Bytes, cap: nat, s: U32)
    requires 0 < cap <= 65535 - OVERHEAD && pkt != []
    ensures var n := |Series(pkt, cap, s)|;
            FeedTo(e, Series(pkt, cap, s), n).1 == if NoWrap(s, n) then [pkt] else []
  {
    CutIsExact(pkt, cap, 0, s);
    AfterPieces(e, pkt, cap, s, |Series(pkt, cap, s)|);
  }

  // ---------------------------------------------------------------- many packets

  lemma FeedStep(e: Rx, ds: seq<Bytes>, n: nat, d: Bytes)
    requires 0 < n <= |ds| && ds[n - 1] == d
    ensures var (e1, ups) := FeedTo(e, ds, n - 1);
            FeedTo(e, ds, n) == (Feed(e1, d).0, ups + Handed(Feed(e1, d).1))
  {
  }

  lemma {:induction false} FeedAppend(e: Rx, xs: seq<Bytes>, ys: seq<Bytes>, n: nat)
    requires n <= |ys|
    ensures var (e1, ups) := FeedTo(e, xs, |xs|);
            var (e2, more) := FeedTo(e1, ys, n);
            FeedTo(e, xs + ys, |xs| + n) == (e2, ups + more)
  {
    hide Feed, FeedTo, Handed;
    var (e1, ups) := FeedTo(e, xs, |xs|);
    if n == 0 {
      FeedFront(e, xs, ys, |xs|);
      FeedNothing(e1, ys);
      assert ups + [] == ups;
    } else {
      FeedAppend(e, xs, ys, n - 1);
      var (e2, more) := FeedTo(e1, ys, n - 1);
      FeedStep(e1, ys, n, ys[n - 1]);
      FeedStep(e, xs + ys, |xs| + n, ys[n - 1]);
      AppendAssoc(ups, more, Handed(Feed(e2, ys[n - 1]).1));
    }
  }

  lemma {:induction false} FeedFront(e: Rx, xs: seq<Bytes>, ys: seq<Bytes>, n: nat)
    requires n <= |xs|
    ensures FeedTo(e, xs + ys, n) == FeedTo(e, xs, n)
  {
    hide Feed;
    if n > 0 {
      FeedFront(e, xs, ys, n - 1);
    }
  }

  /** Those of the first `n` packets that have bytes and whose numbers do not wrap inside the packet. */
  function Unwrapped(ps: seq<Bytes>, cap: nat, s: U32, n: nat): seq<Bytes>
    requires cap > 0 && n <= |ps|
  {
    if n == 0 then [] else
      var start := Add32(s, |SentTo(ps, cap, s, n - 1)|);
      Unwrapped(ps, cap, s, n - 1)
      + if ps[n - 1] != [] && NoWrap(start, |Series(ps[n - 1], cap, start)|) then [ps[n - 1]] else []
  }

  lemma OnePacket(e: Rx, pkt: Bytes, cap: nat, s: U32)
    requires 0 < cap <= 65535 - OVERHEAD
    ensures var ds := Series(pkt, cap, s);
            FeedTo(e, ds, |ds|).1 == if pkt != [] && NoWrap(s, |ds|) then [pkt] else []
  {
    if pkt != [] {
      SeriesDeliveredIff(e, pkt, cap, s);
    }
  }

  /** When nothing is lost, repeated or reordered, exactly those packets arrive, once each and in order. */
  lemma {:induction false} AllDeliveredIff(e: Rx, ps: seq<Bytes>, cap: nat, s: U32, n: nat)
    requires 0 < cap <= 65535 - OVERHEAD && n <= |ps|
    ensures var ds := Frames(SentTo(ps, cap, s, n)); FeedTo(e, ds, |ds|).1 == Unwrapped(ps, cap, s, n)
  {
    hide FeedTo, NoWrap, Add32, Cut;
    if n == 0 {
      FeedNothing(e, []);
    } else {
      AllDeliveredIff(e, ps, cap, s, n - 1);
      var before, pkt := SentTo(ps, cap, s, n - 1), ps[n - 1];
      var start := Add32(s, |before|);
      var e1 := FeedTo(e, Frames(before), |before|).0;
      OnePacket(e1, pkt, cap, start);
      FeedAppend(e, Frames(before), Series(pkt, cap, start), |Series(pkt, cap, start)|);
      MapAppend(FrameOf(), before, Cut(pkt, cap, 0, start));
    }
  }

  lemma FeedNothing(e: Rx, ds: seq<Bytes>)
    ensures FeedTo(e, ds, 0) == (e, [])
  {
  }
}
