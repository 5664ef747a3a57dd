/**
 How many fragments a face may send before the receiver can take a mixture of two packets for a packet:
 2^14 + 1, exactly, for any size of fragment.
 */
module FragBound {
  import opened Base
  import opened Fragment
  import opened FragChannel
  import FragFace

  // ---------------------------------------------------------------- the statement

  /** What a face with this MTU sends as `n` fragments, and arrivals taken from them. */
  ghost predicate Stream(mtu: int, ps: seq<Bytes>, s: U32, n: nat, picks: seq<nat>)
    requires 13 < mtu <= 65535
  {
    && (forall p :: p in ps ==> !FragFace.Blocked(mtu, p, 0))
    && |Sent(ps, FragFace.Room(mtu), s)| == n
    && forall t :: 0 <= t < |picks| ==> picks[t] < n
  }

  /** Everything a receiver that holds nothing hands up after these arrivals was sent. */
  ghost predicate Intact(e: Rx, ps: seq<Bytes>, cap: nat, s: U32, picks: seq<nat>)
    requires cap > 0 && forall t :: 0 <= t < |picks| ==> picks[t] < |Sent(ps, cap, s)|
  {
    forall b :: b in FeedTo(e, Arrivals(Sent(ps, cap, s), picks), |picks|).1 ==> b in ps
  }

  /** Streams of `n` fragments are safe under any loss, repetition and reordering. */
  ghost predicate SafeLength(mtu: int, n: nat)
    requires 13 < mtu <= 65535
  {
    forall e: Rx, ps, s, picks :: e.defrag.None? && Stream(mtu, ps, s, n, picks) ==>
                                Intact(e, ps, FragFace.Room(mtu), s, picks)
  }

  // ---------------------------------------------------------------- two pieces and three

  lemma TwoPieces(pkt: Bytes, cap: nat, s: U32)
    requires cap > 0 && |pkt| == cap + 1
    ensures Cut(pkt, cap, 0, s) == [Frag(FLAG_FIRST, s % SEQ_SPACE, pkt[..cap]),
                                    Frag(FLAG_LAST, Add32(s, 1) % SEQ_SPACE, pkt[cap..])]
  {
    CutUnfold(pkt, cap, 0, s);
    CutUnfold(pkt, cap, cap, Add32(s, 1));
    assert Cut(pkt, cap, cap + cap, Add32(Add32(s, 1), 1)) == [];
    assert pkt[0..cap] == pkt[..cap] && pkt[cap..cap + 1] == pkt[cap..];
  }

  lemma ThreePieces(pkt: Bytes, cap: nat)
    requires cap > 0 && |pkt| == 2 * cap + 1
    ensures Cut(pkt, cap, 0, 0) == [Frag(FLAG_FIRST, 0, pkt[..cap]), Frag(FLAG_MID, 1, pkt[cap..2 * cap]),
                                    Frag(FLAG_LAST, 2, pkt[2 * cap..])]
  {
    CutUnfold(pkt, cap, 0, 0);
    CutUnfold(pkt, cap, cap, 1);
    CutUnfold(pkt, cap, 2 * cap, 2);
    assert Cut(pkt, cap, 3 * cap, 3) == [];
    assert pkt[0..cap] == pkt[..cap] && pkt[2 * cap..2 * cap + 1] == pkt[2 * cap..];
  }

  // ---------------------------------------------------------------- a stream that is not safe

  /** A packet of `len` bytes: a switch to the CCNx suite, and zeros. */
  function Opener(len: nat): (p: Bytes)
    ensures |p| == len && (len >= 2 ==> p[0] == 0x80 && p[1] == 2) && forall i :: 2 <= i < len ==> p[i] == 0
  {
    seq(len, i => if i == 0 then 0x80 else if i == 1 then 2 else 0)
  }

  /** A packet of `len` bytes: version 1, type 3, and more of that value. */
  function Filler(len: nat): (p: Bytes)
    ensures |p| == len && (len > 0 ==> p[0] == 1) && forall i :: 1 <= i < len ==> p[i] == 3
  {
    seq(len, i => if i == 0 then 1 else 3)
  }

  /** One packet, and `k` others of two fragments each. */
  function Mixable(len: nat, cap: nat, k: nat): (ps: seq<Bytes>)
    ensures |ps| == k + 1 && ps[0] == Opener(len)
    ensures forall i :: 1 <= i <= k ==> ps[i] == Filler(cap + 1)
  {
    [Opener(len)] + seq(k, _ => Filler(cap + 1))
  }

  lemma Sendable(mtu: int, len: nat, k: nat)
    requires 13 < mtu <= 65535 && len >= 2
    ensures forall p :: p in Mixable(len, mtu - 13, k) ==> !FragFace.Blocked(mtu, p, 0)
  {
    var p, q := Opener(len), Filler(mtu - 12);
    assert FragFace.Suite(q) == FragFace.SUITE_CCNTLV;
    assert FragFace.SuiteAfter(p[2..], FragFace.SUITE_CCNTLV) == FragFace.SUITE_CCNTLV;
    assert FragFace.Suite(p) == FragFace.SUITE_CCNTLV;
  }

  lemma {:induction false} SentGrows(ps: seq<Bytes>, cap: nat, s: U32, m: nat, n: nat)
    requires cap > 0 && m <= n <= |ps|
    ensures SentTo(ps, cap, s, m) <= SentTo(ps, cap, s, n)
  {
    hide Cut;
    if m < n {
      SentGrows(ps, cap, s, m, n - 1);
    }
  }

  lemma {:induction false} MixableSent(len: nat, cap: nat, k: nat, n: nat)
    requires cap > 0 && n <= k
    ensures |SentTo(Mixable(len, cap, k), cap, 0, n + 1)| == |Cut(Opener(len), cap, 0, 0)| + 2 * n
  {
    hide Cut, Mixable, Opener, Filler;
    var ps := Mixable(len, cap, k);
    if n == 0 {
      assert SentTo(ps, cap, 0, 0) == [];
      assert SentTo(ps, cap, 0, 1) == [] + Cut(ps[0], cap, 0, 0);
    } else {
      MixableSent(len, cap, k, n - 1);
      TwoPieces(Filler(cap + 1), cap, Add32(0, |SentTo(ps, cap, 0, n)|));
    }
  }

  /** The pieces of the first packet, and the last piece of a later one with the number of its last. */
  lemma MixablePieces(len: nat, cap: nat, k: nat, f: nat)
    requires cap > 0 && k >= 8192 && f == |Cut(Opener(len), cap, 0, 0)| && 2 <= f <= 3
    ensures var fs := Sent(Mixable(len, cap, k), cap, 0);
            && |fs| == f + 2 * k && fs[..f] == Cut(Opener(len), cap, 0, 0)
            && fs[SEQ_SPACE + f - 1] == Frag(FLAG_LAST, f - 1, [3])
  {
    hide Cut, Mixable, Opener, Filler;
    var ps := Mixable(len, cap, k);
    var g := Filler(cap + 1);
    MixableSent(len, cap, k, 0);
    MixableSent(len, cap, k, 8191);
    MixableSent(len, cap, k, k);
    assert SentTo(ps, cap, 0, 0) == [];
    assert SentTo(ps, cap, 0, 1) == [] + Cut(ps[0], cap, 0, 0);
    SentGrows(ps, cap, 0, 1, k + 1);
    SentGrows(ps, cap, 0, 8193, k + 1);
    TwoPieces(g, cap, 16382 + f);
    assert g[cap..] == [3];
    assert SentTo(ps, cap, 0, 8193) == SentTo(ps, cap, 0, 8192) + Cut(g, cap, 0, 16382 + f);
  }

  lemma FeedOne(e: Rx, ds: seq<Bytes>, n: nat, f: Frag)
    requires 0 < n <= |ds| && ds[n - 1] == Frame(f) && Encodable(f)
    ensures var (e1, ups) := FeedTo(e, ds, n - 1);
            FeedTo(e, ds, n) == (Take(e1, f).0, ups + Handed(Take(e1, f).1))
  {
    hide Frame, Parse, Take;
    FrameRoundTrip(f);
  }

  /** A first piece and a last one with the number after it. */
  lemma JoinTwo(ds: seq<Bytes>, a: Frag, b: Frag)
    requires Encodable(a) && Encodable(b) && ds == [Frame(a), Frame(b)]
    requires a.flags == FLAG_FIRST && a.seqno == 0 && b.flags == FLAG_LAST && b.seqno == 1
    ensures FeedTo(Rx(0, None), ds, 2).1 == [a.data + b.data]
  {
    hide Frame, Encodable;
    var none: seq<Bytes> := [];
    assert FeedTo(Rx(0, None), ds, 0) == (Rx(0, None), none);
    FeedOne(Rx(0, None), ds, 1, a);
    assert none + Handed(None) == none;
    FeedOne(Rx(0, None), ds, 2, b);
  }

  lemma JoinThree(ds: seq<Bytes>, a: Frag, b: Frag, c: Frag)
    requires Encodable(a) && Encodable(b) && Encodable(c) && ds == [Frame(a), Frame(b), Frame(c)]
    requires a.flags == FLAG_FIRST && a.seqno == 0 && b.flags == FLAG_MID && b.seqno == 1
    requires c.flags == FLAG_LAST && c.seqno == 2
    ensures FeedTo(Rx(0, None), ds, 3).1 == [a.data + b.data + c.data]
  {
    hide Frame, Encodable;
    var none: seq<Bytes> := [];
    assert FeedTo(Rx(0, None), ds, 0) == (Rx(0, None), none);
    FeedOne(Rx(0, None), ds, 1, a);
    assert none + Handed(None) == none;
    FeedOne(Rx(0, None), ds, 2, b);
    FeedOne(Rx(0, None), ds, 3, c);
  }

  /** The pieces of the opener but the last, and a last piece that bears the number of its own. */
  function MixPicks(f: nat): seq<nat> {
    if f == 2 then [0, SEQ_SPACE + 1] else [0, 1, SEQ_SPACE + 2]
  }

  /** What is put together from them. */
  function Mixed(len: nat): Bytes
    requires len > 0
  {
    Opener(len)[..len - 1] + [3]
  }

  lemma MixedTwo(cap: nat, k: nat)
    requires 0 < cap <= 65535 - OVERHEAD && k >= 8192
    ensures var fs := Sent(Mixable(cap + 1, cap, k), cap, 0);
            && |fs| == 2 + 2 * k && (forall t :: 0 <= t < 2 ==> MixPicks(2)[t] < |fs|)
            && FeedTo(Rx(0, None), Arrivals(fs, MixPicks(2)), 2).1 == [Mixed(cap + 1)]
  {
    hide Cut, Mixable, Opener, Filler, Frame, SentTo, FeedTo;
    var p := Opener(cap + 1);
    TwoPieces(p, cap, 0);
    MixablePieces(cap + 1, cap, k, 2);
    var fs := Sent(Mixable(cap + 1, cap, k), cap, 0);
    assert fs[0] == fs[..2][0];
    JoinTwo(Arrivals(fs, MixPicks(2)), fs[0], fs[SEQ_SPACE + 1]);
  }

  lemma MixedThree(cap: nat, k: nat)
    requires 0 < cap <= 65535 - OVERHEAD && k >= 8192
    ensures var fs := Sent(Mixable(2 * cap + 1, cap, k), cap, 0);
            && |fs| == 3 + 2 * k && (forall t :: 0 <= t < 3 ==> MixPicks(3)[t] < |fs|)
            && FeedTo(Rx(0, None), Arrivals(fs, MixPicks(3)), 3).1 == [Mixed(2 * cap + 1)]
  {
    hide Cut, Mixable, Opener, Filler, Frame, SentTo, FeedTo;
    var p := Opener(2 * cap + 1);
    ThreePieces(p, cap);
    MixablePieces(2 * cap + 1, cap, k, 3);
    var fs := Sent(Mixable(2 * cap + 1, cap, k), cap, 0);
    assert fs[0] == fs[..3][0] && fs[1] == fs[..3][1];
    JoinThree(Arrivals(fs, MixPicks(3)), fs[0], fs[1], fs[SEQ_SPACE + 2]);
    assert p[..cap] + p[cap..2 * cap] == p[..2 * cap];
  }

  lemma MixedIsNew(len: nat, cap: nat, k: nat)
    requires len >= 2
    ensures Mixed(len) !in Mixable(len, cap, k)
  {
    hide Mixable, Opener, Filler;
    var p, m := Opener(len), Mixed(len);
    assert m[len - 1] != p[len - 1] && m[0] != Filler(cap + 1)[0];
  }

  /** The first packet ends like one of the others: a mixture of two packets is handed up. */
  lemma MixedPacket(len: nat, cap: nat, k: nat, f: nat)
    requires 0 < cap <= 65535 - OVERHEAD && k >= 8192
    requires (f == 2 && len == cap + 1) || (f == 3 && len == 2 * cap + 1)
    ensures |Sent(Mixable(len, cap, k), cap, 0)| == f + 2 * k
    ensures forall t :: 0 <= t < |MixPicks(f)| ==> MixPicks(f)[t] < f + 2 * k
    ensures !Intact(Rx(0, None), Mixable(len, cap, k), cap, 0, MixPicks(f))
  {
    hide Mixable, Sent, FeedTo, Mixed;
    if f == 2 {
      MixedTwo(cap, k);
    } else {
      MixedThree(cap, k);
    }
    MixedIsNew(len, cap, k);
    assert Mixed(len) in FeedTo(Rx(0, None), Arrivals(Sent(Mixable(len, cap, k), cap, 0), MixPicks(f)), f).1;
  }

  // ---------------------------------------------------------------- the bound

  lemma LongStreamUnsafe(mtu: int, n: nat)
    requires 13 < mtu <= 65535 && n > SEQ_SPACE + 1
    ensures !SafeLength(mtu, n)
  {
    hide Intact, Mixable, FragFace.Blocked, Sent;
    var cap, f := mtu - 13, 2 + n % 2;
    var len, k := if f == 2 then cap + 1 else 2 * cap + 1, (n - f) / 2;
    MixedPacket(len, cap, k, f);
    Sendable(mtu, len, k);
    assert Stream(mtu, Mixable(len, cap, k), 0, n, MixPicks(f));
  }

  /** For every MTU with room for data whose frames fit their length field: whatever is lost, repeated or
      reordered, the receiver puts together only packets that were sent, if and only if the stream has at
      most 2^14 + 1 fragments. */
  lemma SafeIff(mtu: int, n: nat)
    requires 13 < mtu <= 65535
    ensures SafeLength(mtu, n) <==> n <= SEQ_SPACE + 1
  {
    hide SafeLength;
    if n <= SEQ_SPACE + 1 {
      ShortStreamSafe(mtu, n);
    } else {
      LongStreamUnsafe(mtu, n);
    }
  }

  lemma ShortStreamSafe(mtu: int, n: nat)
    requires 13 < mtu <= 65535 && n <= SEQ_SPACE + 1
    ensures SafeLength(mtu, n)
  {
    forall e: Rx, ps, s, picks | e.defrag.None? && Stream(mtu, ps, s, n, picks)
      ensures Intact(e, ps, FragFace.Room(mtu), s, picks)
    {
      OnlySentPackets(e, ps, FragFace.Room(mtu), s, picks);
    }
  }
}
