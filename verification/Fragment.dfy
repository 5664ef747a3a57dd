/**
 Begin-End fragmentation over the CCNx fragment format: what a fragment looks like on the wire, how a
 packet is cut, how fragments are put together again, and what a channel that loses, duplicates and
 reorders can and cannot do to the packets. The build has the CCNx TLV suite only.
 */
module Fragment {
  import opened Base

  const SEQ_SPACE: nat := 16384      // 14-bit sequence numbers
  const HEADER: nat := 9             // fixed header
  const OVERHEAD: nat := 13          // fixed header plus type and length of the fragment
  const FLAG_MID: nat := 0
  const FLAG_FIRST: nat := 1
  const FLAG_LAST: nat := 2
  const FLAG_SINGLE: nat := 3

  /** What a fragment says: its place in the series, its sequence number and its bytes. */
  datatype Frag = Frag(flags: nat, seqno: nat, data: Bytes)

  // ---------------------------------------------------------------- on the wire

  function U16(hi: Byte, lo: Byte): nat {
    256 * hi + lo
  }

  function Hi(v: nat): Byte {
    (v / 256) % 256
  }

  function Lo(v: nat): Byte {
    v % 256
  }

  /** Version 1, type 3, packet length, hop limit 0, flags and sequence number, header length (in the
      byte order of a little-endian host), then type 5 and length. Lengths lose all but 16 bits. */
  function Header(flags: nat, seqno: nat, len: nat): (b: Bytes)
    ensures |b| == OVERHEAD
  {
    var fields := flags * SEQ_SPACE + seqno;
    [1, 3, Hi(OVERHEAD + len), Lo(OVERHEAD + len), 0, Hi(fields), Lo(fields), HEADER, 0, 0, 5, Hi(len), Lo(len)]
  }

  lemma HeaderBytes(flags: nat, seqno: nat, len: nat)
    ensures var h, fields := Header(flags, seqno, len), flags * SEQ_SPACE + seqno;
            && h[0] == 1 && h[1] == 3 && h[2] == Hi(OVERHEAD + len) && h[3] == Lo(OVERHEAD + len) && h[4] == 0
            && h[5] == Hi(fields) && h[6] == Lo(fields) && h[7] == HEADER && h[8] == 0
            && h[9] == 0 && h[10] == 5 && h[11] == Hi(len) && h[12] == Lo(len)
  {
    hide Hi, Lo;
  }

  function Frame(f: Frag): Bytes {
    Header(f.flags, f.seqno, |f.data|) + f.data
  }

  datatype Parsed = Rejected | Dropped | NoFragment | Fragment(frag: Frag)

  /** The fragment branch of the forwarder. The hop limit is decremented as an unsigned byte, so a 0
      wraps to 255 and only a 1 expires. */
  function Parse(b: Bytes): Parsed {
    if |b| < HEADER || b[0] != 1 then Rejected else
      var hdrlen := U16(b[8], b[7]);
      var pktlen := U16(b[2], b[3]);
      if hdrlen > |b| || pktlen < hdrlen || pktlen > |b| then Rejected
      else if b[1] != 3 then NoFragment
      else if b[4] == 1 || pktlen - hdrlen < 4 then Dropped
      else if U16(b[hdrlen], b[hdrlen + 1]) == 5 && U16(b[hdrlen + 2], b[hdrlen + 3]) == pktlen - hdrlen - 4 then
        var fields := U16(b[5], b[6]);
        Fragment(Frag(fields / SEQ_SPACE, fields % SEQ_SPACE, b[hdrlen + 4..]))
      else Dropped
  }

  function Word(high: nat, low: nat): nat {
    256 * high + low
  }

  /** Which bytes are a fragment, and what it says: version 1, type 3, a hop limit that does not run out, a fixed
      header, a packet length within the datagram, and one field of type 5 that fills the packet. */
  predicate IsFragment(b: Bytes) {
    && |b| >= 9 && b[0] == 1 && b[1] == 3 && b[4] != 1
    && var header: nat, packet: nat := Word(b[8], b[7]), Word(b[2], b[3]);
    && header + 4 <= packet <= |b|
    && b[header] == 0 && b[header + 1] == 5 && Word(b[header + 2], b[header + 3]) == packet - header - 4
  }

  /** For any bytes: a fragment is recognised exactly if it is one. */
  lemma ParseIff(b: Bytes)
    ensures Parse(b).Fragment? <==> IsFragment(b)
    ensures IsFragment(b) ==>
              var header: nat, number: nat := Word(b[8], b[7]), Word(b[5] % 64, b[6]);
              Parse(b).frag == Frag(b[5] / 64, number, b[header + 4..])
  {
  }

  predicate Encodable(f: Frag) {
    f.flags <= FLAG_SINGLE && f.seqno < SEQ_SPACE && OVERHEAD + |f.data| <= 65535
  }

  lemma HiLo(v: nat)
    requires v < 65536
    ensures U16(Hi(v), Lo(v)) == v
  {
  }

  lemma SmallHiLo()
    ensures forall v :: 0 <= v < 256 ==> Hi(v) == 0 && Lo(v) == v
  {
  }

  lemma FieldsApart(flags: nat, seqno: nat)
    requires flags <= FLAG_SINGLE && seqno < SEQ_SPACE
    ensures flags * SEQ_SPACE + seqno < 65536
    ensures (flags * SEQ_SPACE + seqno) / SEQ_SPACE == flags && (flags * SEQ_SPACE + seqno) % SEQ_SPACE == seqno
  {
  }

  /** Bytes behind a fragment are taken for more of its data: its length field says where the data ends,
      and the reader goes on to the end of the datagram. */
  lemma TrailingBytes(f: Frag, tail: Bytes)
    requires Encodable(f)
    ensures Parse(Frame(f) + tail) == Fragment(f.(data := f.data + tail))
  {
    hide Hi, Lo, U16;
    HiLo(OVERHEAD + |f.data|);
    HiLo(|f.data|);
    FieldsApart(f.flags, f.seqno);
    HiLo(f.flags * SEQ_SPACE + f.seqno);
    HiLo(HEADER);
    HiLo(5);
    SmallHiLo();
    assert (Frame(f) + tail)[OVERHEAD..] == f.data + tail;
  }

  /** The reader recovers every fragment the writer can produce. */
  lemma FrameRoundTrip(f: Frag)
    requires Encodable(f)
    ensures Parse(Frame(f)) == Fragment(f) && |Frame(f)| == OVERHEAD + |f.data|
  {
    hide Parse, Header;
    TrailingBytes(f, []);
    assert Frame(f) + [] == Frame(f) && f.data + [] == f.data;
  }

  // ---------------------------------------------------------------- cutting a packet

  function PieceLen(pkt: Bytes, cap: nat, offs: nat): nat
    requires offs <= |pkt|
  {
    if cap > |pkt| - offs then |pkt| - offs else cap
  }

  /** The fragment made at offset `offs`, numbered `s`. */
  function Piece(pkt: Bytes, cap: nat, offs: nat, s: nat): Frag
    requires offs <= |pkt|
  {
    var n := PieceLen(pkt, cap, offs);
    var flags :=
      if n >= |pkt| then FLAG_SINGLE
      else if offs == 0 then FLAG_FIRST
      else if n >= |pkt| - offs then FLAG_LAST
      else FLAG_MID;
    Frag(flags, s % SEQ_SPACE, pkt[offs..offs + n])
  }

  /** The packet from `offs` on, cut into pieces of at most `cap` bytes; the first bears number `s`. */
  function Cut(pkt: Bytes, cap: nat, offs: nat, s: U32): seq<Frag>
    requires cap > 0
    decreases |pkt| - offs
  {
    if offs >= |pkt| then [] else [Piece(pkt, cap, offs, s)] + Cut(pkt, cap, offs + cap, Add32(s, 1))
  }

  function Joined(fs: seq<Frag>): Bytes {
    if fs == [] then [] else fs[0].data + Joined(fs[1..])
  }

  lemma CutUnfold(pkt: Bytes, cap: nat, offs: nat, s: U32)
    requires cap > 0 && offs < |pkt|
    ensures |Cut(pkt, cap, offs, s)| > 0
    ensures Cut(pkt, cap, offs, s)[0] == Piece(pkt, cap, offs, s)
    ensures Cut(pkt, cap, offs, s)[1..] == Cut(pkt, cap, offs + cap, Add32(s, 1))
  {
  }

  lemma CountOnce(n: nat, cap: nat, len: nat)
    requires (n - 1) * cap < len <= n * cap
    ensures (n + 1 - 1) * cap < len + cap <= (n + 1) * cap
  {
  }

  /** A non-empty packet is cut into ceil(len / cap) pieces, and the pieces join up to the packet. */
  lemma {:induction false} CutIsExact(pkt: Bytes, cap: nat, offs: nat, s: U32)
    requires cap > 0 && offs < |pkt|
    ensures var n := |Cut(pkt, cap, offs, s)|; n > 0 && (n - 1) * cap < |pkt| - offs <= n * cap
    ensures Joined(Cut(pkt, cap, offs, s)) == pkt[offs..]
    decreases |pkt| - offs
  {
    hide Add32;
    CutUnfold(pkt, cap, offs, s);
    var rest := Cut(pkt, cap, offs + cap, Add32(s, 1));
    if offs + cap < |pkt| {
      CutIsExact(pkt, cap, offs + cap, Add32(s, 1));
      CountOnce(|rest|, cap, |pkt| - (offs + cap));
      assert pkt[offs..offs + cap] + pkt[offs + cap..] == pkt[offs..];
    } else {
      assert rest == [];
    }
  }

  lemma NextNumber(s: U32, i: nat)
    requires i > 0
    ensures (Add32(s, 1) + (i - 1)) % SEQ_SPACE == (s + i) % SEQ_SPACE
  {
  }

  /** A sequence number is a number of 32 bits of which the fragment shows 14. */
  lemma SameNumber(pkt: Bytes, cap: nat, offs: nat, s: nat, t: nat)
    requires offs <= |pkt| && s % SEQ_SPACE == t % SEQ_SPACE
    ensures Piece(pkt, cap, offs, s) == Piece(pkt, cap, offs, t)
  {
  }

  /** The bytes in `n` full pieces. */
  function Full(cap: nat, n: nat): nat {
    n * cap
  }

  lemma FullStep(cap: nat, n: nat)
    ensures Full(cap, 0) == 0 && Full(cap, n + 1) == Full(cap, n) + cap
    ensures n > 0 ==> Full(cap, n) >= cap
  {
  }

  /** Piece `i` of a packet is cut after `i` full pieces and bears the number `s + i`. */
  lemma {:induction false} CutAt(pkt: Bytes, cap: nat, offs: nat, s: U32, i: nat)
    requires cap > 0 && i < |Cut(pkt, cap, offs, s)|
    ensures offs + Full(cap, i) < |pkt|
    ensures Cut(pkt, cap, offs, s)[i] == Piece(pkt, cap, offs + Full(cap, i), s + i)
    decreases i
  {
    hide Add32, Full, Piece;
    FullStep(cap, 0);
    CutUnfold(pkt, cap, offs, s);
    if i > 0 {
      CutAt(pkt, cap, offs + cap, Add32(s, 1), i - 1);
      NextNumber(s, i);
      SameNumber(pkt, cap, offs + cap + Full(cap, i - 1), Add32(s, 1) + (i - 1), s + i);
      FullStep(cap, i - 1);
      assert Cut(pkt, cap, offs, s)[i] == Cut(pkt, cap, offs + cap, Add32(s, 1))[i - 1];
    }
  }

  /** Every piece fits the MTU and can be written as a frame. */
  lemma CutFits(pkt: Bytes, cap: nat, offs: nat, s: U32)
    requires 0 < cap <= 65535 - OVERHEAD
    ensures forall f :: f in Cut(pkt, cap, offs, s) ==> Encodable(f) && 0 < |f.data| && |Frame(f)| <= OVERHEAD + cap
  {
    hide Full, Frame;
    var fs := Cut(pkt, cap, offs, s);
    forall f | f in fs
      ensures Encodable(f) && 0 < |f.data| && |Frame(f)| <= OVERHEAD + cap
    {
      var i :| 0 <= i < |fs| && fs[i] == f;
      CutAt(pkt, cap, offs, s, i);
      FrameRoundTrip(f);
    }
  }

  // ---------------------------------------------------------------- putting it together

  /** The receiver: the number expected next (not reduced to 14 bits) and what has been collected. */
  datatype Rx = Rx(recvseq: U32, defrag: Option<Bytes>)

  /** One fragment arrives; the second result is what is handed up. */
  function Take(e: Rx, f: Frag): (Rx, Option<Bytes>)
    requires f.seqno < SEQ_SPACE
  {
    var have := if e.recvseq != f.seqno then None else e.defrag;
    var next := f.seqno + 1;
    if f.flags == FLAG_SINGLE then (Rx(next, None), Some(f.data))
    else if f.flags == FLAG_FIRST then (Rx(next, Some(f.data)), None)
    else if have.None? then (Rx(next, None), None)
    else if f.flags == FLAG_LAST then (Rx(next, None), Some(have.value + f.data))
    else (Rx(next, Some(have.value + f.data)), None)
  }

  /** One datagram arrives; only a fragment touches the receiver. */
  function Feed(e: Rx, b: Bytes): (Rx, Option<Bytes>) {
    match Parse(b)
    case Fragment(f) => Take(e, f)
    case _ => (e, None)
  }

  function Handed(up: Option<Bytes>): seq<Bytes> {
    if up.Some? then [up.value] else []
  }

  /** The receiver after the first `n` datagrams, and all it has handed up. */
  function FeedTo(e: Rx, ds: seq<Bytes>, n: nat): (Rx, seq<Bytes>)
    requires n <= |ds|
  {
    if n == 0 then (e, []) else
      var (e1, ups) := FeedTo(e, ds, n - 1);
      var (e2, up) := Feed(e1, ds[n - 1]);
      (e2, ups + Handed(up))
  }

  // ---------------------------------------------------------------- fragments in fragments

  function Held(e: Rx): nat {
    if e.defrag.Some? then |e.defrag.value| else 0
  }

  lemma HandedSmaller(e: Rx, b: Bytes)
    ensures var (e1, up) := Feed(e, b); up.Some? ==> |up.value| + Held(e1) < |b| + Held(e)
  {
    hide U16;
  }

  /** One datagram arrives and what is handed up goes to the forwarder like a datagram of its own: it may be
      a fragment again. The second result is all the forwarder is given. */
  function Deep(e: Rx, b: Bytes): (Rx, seq<Bytes>)
    decreases |b| + Held(e)
  {
    HandedSmaller(e, b);
    var (e1, up) := Feed(e, b);
    if up.None? then (e1, []) else
      var (e2, more) := Deep(e1, up.value);
      (e2, [up.value] + more)
  }

  function DeepTo(e: Rx, ds: seq<Bytes>, n: nat): (Rx, seq<Bytes>)
    requires n <= |ds|
  {
    if n == 0 then (e, []) else
      var (e1, ups) := DeepTo(e, ds, n - 1);
      var (e2, more) := Deep(e1, ds[n - 1]);
      (e2, ups + more)
  }

  /** The difference is none as long as no packet handed up is a fragment. */
  lemma {:induction false} DeepIsFeed(e: Rx, ds: seq<Bytes>, n: nat)
    requires n <= |ds|
    requires forall b :: b in FeedTo(e, ds, n).1 ==> !Parse(b).Fragment?
    ensures DeepTo(e, ds, n) == FeedTo(e, ds, n)
  {
    hide Parse, Take;
    if n > 0 {
      var (e1, ups) := FeedTo(e, ds, n - 1);
      var (e2, up) := Feed(e1, ds[n - 1]);
      assert FeedTo(e, ds, n).1 == ups + Handed(up);
      assert forall b :: b in ups ==> b in FeedTo(e, ds, n).1;
      DeepIsFeed(e, ds, n - 1);
      if up.Some? {
        assert up.value in FeedTo(e, ds, n).1;
        assert Deep(e2, up.value) == (e2, []);
        assert [up.value] + [] == Handed(up);
      }
    }
  }

  /** A fragment in a fragment is taken apart in turn. */
  lemma NestedHandedUp(e: Rx, seqno: nat, f: Frag)
    requires Encodable(f) && f.flags == FLAG_SINGLE && Encodable(Frag(FLAG_SINGLE, seqno, Frame(f)))
    ensures [Frame(f), f.data] <= Deep(e, Frame(Frag(FLAG_SINGLE, seqno, Frame(f)))).1
  {
    hide Parse, Frame;
    var g := Frag(FLAG_SINGLE, seqno, Frame(f));
    FrameRoundTrip(f);
    FrameRoundTrip(g);
    var e1 := Feed(e, Frame(g)).0;
    var (e2, more) := Deep(e1, Frame(f));
    assert [Frame(f)] + more == Deep(e, Frame(g)).1;
    assert [f.data] <= more;
  }

  function FrameOf(): Frag -> Bytes {
    (f: Frag) => Frame(f)
  }

  function Frames(fs: seq<Frag>): seq<Bytes> {
    Map(FrameOf(), fs)
  }
}
