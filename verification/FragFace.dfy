/**
 A face that fragments: the fields of the fragmentation state updated in place, the fragment writer that
 fills its buffer step by step, and the loop that pushes fragments until the queue is drained.
 */
module FragFace {
  import opened Base
  import opened Fragment
  import FragChannel
  import Tlv

  const SUITE_NONE: int := -1
  const SUITE_CCNTLV: int := 2
  const ENC_CCNX: int := 2

  /** The suite of a packet: switch prefixes are skipped, the last one decides; else the first two bytes. */
  function SuiteAfter(pkt: Bytes, found: int): int {
    if |pkt| >= 2 && pkt[0] == 0x80 && pkt[1] < 253 then
      SuiteAfter(pkt[2..], if pkt[1] == ENC_CCNX then SUITE_CCNTLV else SUITE_NONE)
    else if found >= 0 then found
    else if |pkt| > 1 && pkt[0] == 1 && pkt[1] <= 3 then SUITE_CCNTLV
    else SUITE_NONE
  }

  function Suite(pkt: Bytes): int {
    SuiteAfter(pkt, SUITE_NONE)
  }

  /** Switches to these encodings, one behind the other. */
  function Switches(encs: seq<Byte>): Bytes {
    if encs == [] then [] else [0x80, encs[0]] + Switches(encs[1..])
  }

  predicate StartsWithSwitch(pkt: Bytes) {
    |pkt| >= 2 && pkt[0] == 0x80 && pkt[1] < 253
  }

  /** A packet is of the CCNx suite exactly if the last of its leading switches says so, or what follows them
      begins like a CCNx packet: version 1, type at most 3. */
  lemma SuiteIff(encs: seq<Byte>, rest: Bytes)
    requires (forall e :: e in encs ==> e < 253) && !StartsWithSwitch(rest)
    ensures Suite(Switches(encs) + rest) == SUITE_CCNTLV <==>
              (encs != [] && encs[|encs| - 1] == 2) || (|rest| > 1 && rest[0] == 1 && rest[1] <= 3)
  {
    SuiteAfterIs(encs, rest, SUITE_NONE);
  }

  lemma {:induction false} SuiteAfterIs(encs: seq<Byte>, rest: Bytes, found: int)
    requires (forall e :: e in encs ==> e < 253) && !StartsWithSwitch(rest)
    requires found == SUITE_CCNTLV || found == SUITE_NONE
    ensures SuiteAfter(Switches(encs) + rest, found) ==
              if (if encs != [] then encs[|encs| - 1] == 2 else found == SUITE_CCNTLV)
                 || (|rest| > 1 && rest[0] == 1 && rest[1] <= 3)
              then SUITE_CCNTLV else SUITE_NONE
    decreases |encs|
  {
    var pkt := Switches(encs) + rest;
    if encs == [] {
      assert pkt == rest;
    } else {
      assert encs[0] in encs && pkt[2..] == Switches(encs[1..]) + rest;
      assert forall e :: e in encs[1..] ==> e in encs;
      SuiteAfterIs(encs[1..], rest, if encs[0] == ENC_CCNX then SUITE_CCNTLV else SUITE_NONE);
    }
  }

  /** Room for data in a fragment, computed in unsigned 64-bit arithmetic. */
  function Room(mtu: int): nat {
    (mtu - OVERHEAD) % TWO64
  }

  /** The sending half of the state. */
  datatype Tx = Tx(bigpkt: Option<Bytes>, sendoffs: nat, sendseq: U32, outq: seq<Bytes>)

  /** No fragment can be made of the packet at this offset. */
  predicate Blocked(mtu: int, pkt: Bytes, offs: nat)
    requires offs <= |pkt|
  {
    Suite(pkt) != SUITE_CCNTLV || PieceLen(pkt, Room(mtu), offs) > 65535
  }

  /** That is so if the suite is another, or both the room and what is left of the packet pass 16 bits. */
  lemma BlockedIff(mtu: int, pkt: Bytes, offs: nat)
    requires 13 <= mtu <= 0x7fff_ffff && offs <= |pkt|
    ensures Blocked(mtu, pkt, offs) <==>
              Suite(pkt) != SUITE_CCNTLV || (mtu >= 0x1_0000 + 13 && |pkt| - offs >= 0x1_0000)
  {
    hide Suite;
  }

  /** Every frame fits the MTU, and every frame but the last of a packet fills it. */
  lemma FramesFillMtu(mtu: int, pkt: Bytes, s: U32, i: nat)
    requires 13 < mtu <= 65535 && i < |Cut(pkt, Room(mtu), 0, s)|
    ensures var fs := Cut(pkt, Room(mtu), 0, s);
            && |Frame(fs[i])| <= mtu
            && (i < |fs| - 1 ==> |Frame(fs[i])| == mtu)
  {
    hide Frame, Cut, Full, Piece;
    var cap, fs := Room(mtu), Cut(pkt, Room(mtu), 0, s);
    CutAt(pkt, cap, 0, s, i);
    CutFits(pkt, cap, 0, s);
    assert fs[i] in fs;
    FrameRoundTrip(fs[i]);
    PieceSize(pkt, cap, Full(cap, i), s + i);
    if i < |fs| - 1 {
      CutAt(pkt, cap, 0, s, i + 1);
      FullStep(cap, i);
    }
  }

  lemma PieceSize(pkt: Bytes, cap: nat, offs: nat, s: nat)
    requires offs <= |pkt|
    ensures |Piece(pkt, cap, offs, s).data| == if offs + cap <= |pkt| then cap else |pkt| - offs
  {
  }

  predicate Sending(t: Tx) {
    t.bigpkt.Some? ==>
      t.sendoffs <= |t.bigpkt.value| && (Suite(t.bigpkt.value) == SUITE_CCNTLV ==> t.sendoffs < |t.bigpkt.value|)
  }

  predicate Ready(mtu: int, t: Tx)
    requires Sending(t)
  {
    t.bigpkt.Some? && !Blocked(mtu, t.bigpkt.value, t.sendoffs)
  }

  /** The state in which the next fragment is made. */
  function Refill(mtu: int, t: Tx): (u: Tx)
    requires Sending(t)
    ensures Sending(u)
  {
    if Ready(mtu, t) then t
    else if t.outq == [] then Tx(None, 0, t.sendseq, [])
    else
      SuiteNotEmpty(t.outq[0]);
      Tx(Some(t.outq[0]), 0, t.sendseq, t.outq[1..])
  }

  /** There is room for data, or no fragment to make: the push comes to an end (PushEndsIff). */
  predicate Ends(mtu: int, t: Tx)
    requires Sending(t)
  {
    Room(mtu) > 0 || !Ready(mtu, Refill(mtu, t))
  }

  /** Clear to send: the fragments pushed out and the state left behind. */
  function Push(mtu: int, t: Tx): (Tx, seq<Frag>)
    requires Sending(t) && Ends(mtu, t)
    decreases |t.outq|, if t.bigpkt.Some? then 1 else 0
  {
    if Ready(mtu, t) then
      var fs := Cut(t.bigpkt.value, Room(mtu), t.sendoffs, t.sendseq);
      var (t1, more) := Push(mtu, Tx(None, 0, Add32(t.sendseq, |fs|), t.outq));
      (t1, fs + more)
    else if t.outq == [] then (Tx(None, 0, t.sendseq, []), [])
    else
      SuiteNotEmpty(t.outq[0]);
      var t1 := Tx(Some(t.outq[0]), 0, t.sendseq, t.outq[1..]);
      if Ready(mtu, t1) then Push(mtu, t1) else (t1, [])
  }

  lemma SuiteNotEmpty(pkt: Bytes)
    ensures Suite(pkt) == SUITE_CCNTLV ==> pkt != []
  {
  }

  lemma PushRefill(mtu: int, t: Tx)
    requires Sending(t) && Ends(mtu, t)
    ensures var u := Refill(mtu, t); Push(mtu, t) == if Ready(mtu, u) then Push(mtu, u) else (u, [])
  {
  }

  /** The state after one more fragment of the packet being sent. */
  function AfterPiece(mtu: int, t: Tx): Tx
    requires Sending(t) && Ready(mtu, t)
  {
    var offs := t.sendoffs + PieceLen(t.bigpkt.value, Room(mtu), t.sendoffs);
    Tx(if offs >= |t.bigpkt.value| then None else t.bigpkt, offs, Add32(t.sendseq, 1), t.outq)
  }

  lemma AddOnce(s: U32, n: nat)
    ensures Add32(Add32(s, 1), n) == Add32(s, n + 1)
  {
  }

  /** Pushing goes on where one fragment leaves off. */
  lemma PushPiece(mtu: int, t: Tx)
    requires Room(mtu) > 0 && Sending(t) && Ready(mtu, t)
    ensures Sending(AfterPiece(mtu, t))
    ensures Push(mtu, t).0 == Push(mtu, AfterPiece(mtu, t)).0
    ensures Push(mtu, t).1
         == [Piece(t.bigpkt.value, Room(mtu), t.sendoffs, t.sendseq)] + Push(mtu, AfterPiece(mtu, t)).1
  {
    hide Add32, Piece, Suite, Room;
    var pkt, cap, offs, s := t.bigpkt.value, Room(mtu), t.sendoffs, t.sendseq;
    CutUnfold(pkt, cap, offs, s);
    var t1 := AfterPiece(mtu, t);
    var rest := Cut(pkt, cap, offs + cap, Add32(s, 1));
    AddOnce(s, |rest|);
    var (t2, more) := Push(mtu, Tx(None, 0, Add32(s, |rest| + 1), t.outq));
    assert Cut(pkt, cap, offs, s) == [Piece(pkt, cap, offs, s)] + rest;
    if t1.bigpkt.Some? {
      assert t1.sendoffs == offs + cap && Push(mtu, t1) == (t2, rest + more);
    } else {
      assert rest == [];
      PushIdle(mtu, t1, Tx(None, 0, Add32(s, 1), t.outq));
    }
  }

  lemma PushIdle(mtu: int, t: Tx, u: Tx)
    requires Room(mtu) > 0 && t.bigpkt.None? && u.bigpkt.None? && t.outq == u.outq && t.sendseq == u.sendseq
    ensures Push(mtu, t) == Push(mtu, u)
  {
  }

  // ---------------------------------------------------------------- when the push ends

  lemma AfterPieceSending(mtu: int, t: Tx)
    requires Sending(t) && Ready(mtu, t)
    ensures Sending(AfterPiece(mtu, t))
  {
  }

  /** The state after `n` rounds of the push, each of which makes a fragment if one can be made. */
  function Rounds(mtu: int, t: Tx, n: nat): (u: Tx)
    requires Sending(t)
    ensures Sending(u)
    decreases n
  {
    var u := Refill(mtu, t);
    if n == 0 then t
    else if Ready(mtu, u) then
      AfterPieceSending(mtu, u);
      Rounds(mtu, AfterPiece(mtu, u), n - 1)
    else Rounds(mtu, u, n - 1)
  }

  /** After `n` rounds there is no fragment to make. */
  predicate Stuck(mtu: int, t: Tx, n: nat)
    requires Sending(t)
  {
    !Ready(mtu, Refill(mtu, Rounds(mtu, t, n)))
  }

  /** Without room for data a round changes nothing but the sequence number. */
  lemma NoRoomNoProgress(mtu: int, t: Tx)
    requires Sending(t) && Ready(mtu, t) && Room(mtu) == 0
    ensures AfterPiece(mtu, t) == t.(sendseq := Add32(t.sendseq, 1)) && Ready(mtu, AfterPiece(mtu, t))
  {
  }

  lemma {:induction false} NeverStuck(mtu: int, t: Tx, n: nat)
    requires Sending(t) && !Ends(mtu, t)
    ensures !Stuck(mtu, t, n)
    decreases n
  {
    hide Blocked, Suite, Room, AfterPiece;
    if n > 0 {
      var u := Refill(mtu, t);
      NoRoomNoProgress(mtu, u);
      NeverStuck(mtu, AfterPiece(mtu, u), n - 1);
    }
  }

  /** The push makes one fragment a round until it is stuck, and leaves the state of that round. */
  lemma {:induction false} PushIsRounds(mtu: int, t: Tx)
    requires Sending(t) && Ends(mtu, t)
    ensures var (t1, fs) := Push(mtu, t); Stuck(mtu, t, |fs|) && t1 == Refill(mtu, Rounds(mtu, t, |fs|))
    decreases |t.outq|, if t.bigpkt.Some? then |t.bigpkt.value| - t.sendoffs else 0
  {
    hide Suite, Room, Add32, Push, Piece;
    PushRefill(mtu, t);
    var u := Refill(mtu, t);
    if Ready(mtu, u) {
      PushPiece(mtu, u);
      PushIsRounds(mtu, AfterPiece(mtu, u));
    }
  }

  /** The push comes to an end if and only if fragments have room for data, or there is nothing to push
      to begin with. */
  lemma PushEndsIff(mtu: int, t: Tx)
    requires Sending(t)
    ensures (exists n :: Stuck(mtu, t, n)) <==> Room(mtu) > 0 || !Ready(mtu, Refill(mtu, t))
  {
    hide Room, Ready, Refill, Stuck;
    if Ends(mtu, t) {
      PushIsRounds(mtu, t);
    } else {
      forall n ensures !Stuck(mtu, t, n) {
        NeverStuck(mtu, t, n);
      }
    }
  }

  /** At an MTU of 13 a packet of the CCNx suite is pushed for ever. */
  lemma NoRoomAtThirteen(pkt: Bytes)
    requires Suite(pkt) == SUITE_CCNTLV
    ensures Sending(Tx(Some(pkt), 0, 0, [])) && forall n: nat :: !Stuck(13, Tx(Some(pkt), 0, 0, []), n)
  {
    hide Suite, Stuck;
    SuiteNotEmpty(pkt);
    var t := Tx(Some(pkt), 0, 0, []);
    assert !Blocked(13, pkt, 0);
    forall n: nat ensures !Stuck(13, t, n) {
      NeverStuck(13, t, n);
    }
  }

  // ---------------------------------------------------------------- what the push sends

  /** How many packets at the head of the queue can be fragmented. */
  function Clear(mtu: int, q: seq<Bytes>): (k: nat)
    ensures k <= |q|
    ensures forall i :: 0 <= i < k ==> !Blocked(mtu, q[i], 0)
    ensures k < |q| ==> Blocked(mtu, q[k], 0)
  {
    if q == [] || Blocked(mtu, q[0], 0) then 0 else 1 + Clear(mtu, q[1..])
  }

  lemma {:induction false} SentCons(p: Bytes, ps: seq<Bytes>, cap: nat, s: U32, n: nat)
    requires cap > 0 && n <= |ps|
    ensures var fs := Cut(p, cap, 0, s);
            FragChannel.SentTo([p] + ps, cap, s, n + 1) == fs + FragChannel.SentTo(ps, cap, Add32(s, |fs|), n)
  {
    hide Cut, Add32;
    var fs := Cut(p, cap, 0, s);
    var all := [p] + ps;
    if n == 0 {
      assert FragChannel.SentTo(all, cap, s, 0) == [];
      AddZero(s);
    } else {
      SentCons(p, ps, cap, s, n - 1);
      var s1, tail := Add32(s, |fs|), FragChannel.SentTo(ps, cap, Add32(s, |fs|), n - 1);
      AddTwice(s, |fs|, |tail|);
      assert FragChannel.SentTo(all, cap, s, n) == fs + tail && all[n] == ps[n - 1];
      AppendAssoc(fs, tail, Cut(ps[n - 1], cap, 0, Add32(s1, |tail|)));
    }
  }

  lemma AddZero(s: U32)
    ensures Add32(s, 0) == s
  {
  }

  lemma AddTwice(s: U32, m: nat, n: nat)
    ensures Add32(Add32(s, m), n) == Add32(s, m + n)
  {
  }

  /** What is left of the queue when its first `k` packets have been sent. */
  function Stopped(q: seq<Bytes>, k: nat): (Option<Bytes>, seq<Bytes>)
    requires k <= |q|
  {
    if k < |q| then (Some(q[k]), q[k + 1..]) else (None, [])
  }

  lemma StoppedTail(q: seq<Bytes>, k: nat)
    requires q != [] && k <= |q| - 1
    ensures Stopped(q[1..], k) == Stopped(q, k + 1) && q[..k + 1] == [q[0]] + q[1..][..k]
  {
    if k < |q| - 1 {
      assert q[1..][k + 1..] == q[k + 2..];
    }
  }

  /** The push when the first packet can be fragmented, and when not. */
  lemma PushHead(mtu: int, t: Tx)
    requires Room(mtu) > 0 && t.bigpkt.None? && t.outq != []
    ensures Blocked(mtu, t.outq[0], 0) ==> Push(mtu, t) == (Tx(Some(t.outq[0]), 0, t.sendseq, t.outq[1..]), [])
    ensures !Blocked(mtu, t.outq[0], 0) ==>
              var fs := Cut(t.outq[0], Room(mtu), 0, t.sendseq);
              var (t1, more) := Push(mtu, Tx(None, 0, Add32(t.sendseq, |fs|), t.outq[1..]));
              Push(mtu, t) == (t1, fs + more)
  {
    hide Room, Cut, Blocked, Suite, Add32;
    SuiteNotEmpty(t.outq[0]);
  }

  /** From an idle state, the packets ahead of the first that cannot be fragmented are sent whole and in
      order, and nothing else; that packet, if any, is loaded and stops the push. */
  lemma {:induction false} PushSendsInOrder(mtu: int, t: Tx)
    requires Room(mtu) > 0 && t.bigpkt.None?
    ensures var k := Clear(mtu, t.outq);
            var (t1, fs) := Push(mtu, t);
            && fs == FragChannel.Sent(t.outq[..k], Room(mtu), t.sendseq)
            && (t1.bigpkt, t1.outq) == Stopped(t.outq, k)
            && t1.sendseq == Add32(t.sendseq, |fs|)
    decreases |t.outq|
  {
    hide Room, Cut, Blocked, Suite, Add32, FragChannel.SentTo, Push;
    AddZero(t.sendseq);
    if t.outq == [] {
      PushNothing(mtu, t);
      SentNone(Room(mtu), t.sendseq);
    } else {
      PushHead(mtu, t);
      if Blocked(mtu, t.outq[0], 0) {
        SentNone(Room(mtu), t.sendseq);
      } else {
        var p, rest := t.outq[0], t.outq[1..];
        var fs := Cut(p, Room(mtu), 0, t.sendseq);
        var t1 := Tx(None, 0, Add32(t.sendseq, |fs|), rest);
        PushSendsInOrder(mtu, t1);
        var k := Clear(mtu, rest);
        StoppedTail(t.outq, k);
        SentCons(p, rest[..k], Room(mtu), t.sendseq, k);
        AddTwice(t.sendseq, |fs|, |Push(mtu, t1).1|);
      }
    }
  }

  lemma PushNothing(mtu: int, t: Tx)
    requires Room(mtu) > 0 && t.bigpkt.None? && t.outq == []
    ensures Push(mtu, t) == (Tx(None, 0, t.sendseq, []), [])
  {
  }

  lemma SentNone(cap: nat, s: U32)
    requires cap > 0
    ensures FragChannel.Sent([], cap, s) == []
  {
  }

  // ---------------------------------------------------------------- the code

  class Face {
    const mtu: int
    var bigpkt: Option<Bytes>
    var sendoffs: nat
    var outsuite: int
    var sendseq: U32
    var recvseq: U32
    var defrag: Option<Bytes>
    var outq: seq<Bytes>
    var wire: seq<Bytes>     // frames given to the interface
    var upper: seq<Bytes>    // packets given to the forwarder

    constructor (mtu: int)
      ensures Valid() && this.mtu == mtu && Sender() == Tx(None, 0, 0, []) && Receiver() == Rx(0, None)
      ensures wire == [] && upper == []
    {
      this.mtu := mtu;
      bigpkt, sendoffs, outsuite, sendseq, recvseq, defrag, outq := None, 0, 0, 0, 0, None, [];
      wire, upper := [], [];
    }

    ghost predicate Valid()
      reads this
    {
      && (bigpkt.Some? ==> outsuite == Suite(bigpkt.value))
      && Sending(Sender())
    }

    function Sender(): Tx
      reads this
    {
      Tx(bigpkt, sendoffs, sendseq, outq)
    }

    function Receiver(): Rx
      reads this
    {
      Rx(recvseq, defrag)
    }

    /** Fill in the header, field by field, in a buffer of zeros. */
    static method PutHeader(buf: array<Byte>, datalen: nat, flags: nat, seqno: nat)
      requires buf.Length == OVERHEAD + datalen
      requires forall i :: 0 <= i < OVERHEAD ==> buf[i] == 0
      modifies buf
      ensures forall i :: 0 <= i < OVERHEAD ==> buf[i] == Header(flags, seqno, datalen)[i]
    {
      hide Hi, Lo, Header;
      var fields := flags * SEQ_SPACE + seqno;
      buf[0] := 1;
      buf[1] := 3;
      buf[7] := HEADER;
      buf[2], buf[3] := Hi(OVERHEAD + datalen), Lo(OVERHEAD + datalen);
      buf[9], buf[10] := 0, 5;
      buf[11], buf[12] := Hi(datalen), Lo(datalen);
      buf[5], buf[6] := Hi(fields), Lo(fields);
      HeaderBytes(flags, seqno, datalen);
    }

    /** Make the next fragment; the state is only read. */
    method MkFrag() returns (buf: array?<Byte>, consumed: nat)
      requires Valid() && bigpkt.Some?
      ensures fresh(buf) || buf == null
      ensures buf == null <==> PieceLen(bigpkt.value, Room(mtu), sendoffs) > 65535
      ensures buf != null ==> consumed == PieceLen(bigpkt.value, Room(mtu), sendoffs)
      ensures buf != null ==> buf[..] == Frame(Piece(bigpkt.value, Room(mtu), sendoffs, sendseq))
    {
      hide Header, Room, Suite;
      consumed := 0;
      var pkt := bigpkt.value;
      var datalen := Room(mtu);
      if datalen > |pkt| - sendoffs {
        datalen := |pkt| - sendoffs;
      }
      if datalen > 65535 {
        return null, 0;
      }
      buf := new Byte[OVERHEAD + datalen](_ => 0);
      var flags := FLAG_MID;
      if datalen >= |pkt| {
        flags := FLAG_SINGLE;
      } else if sendoffs == 0 {
        flags := FLAG_FIRST;
      } else if datalen >= |pkt| - sendoffs {
        flags := FLAG_LAST;
      }
      PutHeader(buf, datalen, flags, sendseq % SEQ_SPACE);
      assert buf[..OVERHEAD] == Header(flags, sendseq % SEQ_SPACE, datalen);
      Tlv.CopyTo(pkt[sendoffs..sendoffs + datalen], buf, OVERHEAD);
      assert buf[OVERHEAD + datalen..] == [];
      consumed := datalen;
    }

    /** The next fragment of the packet being sent, if there is one. */
    method GetNext() returns (frame: Option<Bytes>)
      requires Valid()
      modifies `bigpkt, `sendoffs, `sendseq
      ensures Valid()
      ensures old(Ready(mtu, Sender())) ==>
                && frame == Some(Frame(old(Piece(bigpkt.value, Room(mtu), sendoffs, sendseq))))
                && Sender() == old(AfterPiece(mtu, Sender()))
      ensures !old(Ready(mtu, Sender())) ==> frame == None && Sender() == old(Sender())
    {
      frame := None;
      if bigpkt.None? || outsuite != SUITE_CCNTLV {
        return;
      }
      var buf, datalen := MkFrag();
      if buf != null {
        frame := Some(buf[..]);
        sendseq := Add32(sendseq, 1);
        sendoffs := sendoffs + datalen;
        if sendoffs >= |bigpkt.value| {
          bigpkt := None;
        }
      }
    }

    /** Load a packet to be fragmented, or nothing. */
    method Reset(buf: Option<Bytes>)
      modifies `bigpkt, `sendoffs, `outsuite
      ensures bigpkt == buf && sendoffs == 0
      ensures buf.Some? ==> outsuite == Suite(buf.value)
    {
      bigpkt := buf;
      if buf.Some? {
        outsuite := Suite(buf.value);
      }
      sendoffs := 0;
    }

    method Dequeue() returns (buf: Option<Bytes>)
      modifies `outq
      ensures buf == (if old(outq) == [] then None else Some(old(outq)[0]))
      ensures outq == if old(outq) == [] then [] else old(outq)[1..]
    {
      if outq == [] {
        return None;
      }
      buf := Some(outq[0]);
      outq := outq[1..];
    }

    /** Take the next packet from the queue when no fragment can be made of the current one. */
    method Advance() returns (frame: Option<Bytes>)
      requires Valid()
      modifies `bigpkt, `sendoffs, `outsuite, `sendseq, `outq
      ensures Valid()
      ensures var t := Refill(mtu, old(Sender()));
              if Ready(mtu, t)
              then Sender() == AfterPiece(mtu, t)
                   && frame == Some(Frame(Piece(t.bigpkt.value, Room(mtu), t.sendoffs, t.sendseq)))
              else Sender() == t && frame == None
    {
      hide Suite, Piece, Frame, Room, Add32;
      frame := GetNext();
      if frame.None? {
        var pkt := Dequeue();
        if pkt.Some? {
          SuiteNotEmpty(pkt.value);
        }
        Reset(pkt);
        frame := GetNext();
      }
    }

    /** Clear to send: push fragments until none is left, packet after packet. */
    method Cts()
      requires Valid() && Ends(mtu, Sender())
      modifies `bigpkt, `sendoffs, `outsuite, `sendseq, `outq, `wire
      ensures Valid()
      ensures Sender() == Push(mtu, old(Sender())).0
      ensures wire == old(wire) + Frames(Push(mtu, old(Sender())).1)
      decreases |outq|, if bigpkt.Some? then |bigpkt.value| - sendoffs else 0
    {
      hide Suite, Piece, Frame, Room, Add32, Push;
      ghost var t := Refill(mtu, Sender());
      PushRefill(mtu, Sender());
      var buf := Advance();
      if buf.Some? {
        wire := wire + [buf.value];
        PushPiece(mtu, t);
        Cts();
        FramesCons(Piece(t.bigpkt.value, Room(mtu), t.sendoffs, t.sendseq), Push(mtu, AfterPiece(mtu, t)).1);
      }
    }

    /** Queue a packet unless an equal one waits already, and push. */
    method Enqueue(pkt: Bytes) returns (taken: bool)
      requires Valid() && (pkt in outq || Ends(mtu, Sender().(outq := outq + [pkt])))
      modifies `bigpkt, `sendoffs, `outsuite, `sendseq, `outq, `wire
      ensures Valid() && taken == (pkt !in old(outq))
      ensures var t := old(Sender());
              var (t1, fs) := if pkt in t.outq then (t, []) else Push(mtu, t.(outq := t.outq + [pkt]));
              Sender() == t1 && wire == old(wire) + Frames(fs)
    {
      hide Push, Frame, Room, Suite;
      var i := 0;
      while i < |outq|
        invariant 0 <= i <= |outq| && pkt !in outq[..i]
      {
        if outq[i] == pkt {
          return false;
        }
        i := i + 1;
      }
      outq := outq + [pkt];
      Cts();
      return true;
    }

    /** A fragment has come in. */
    method RxBeginEnd(bits: nat, seqno: nat, data: Bytes)
      requires bits <= FLAG_SINGLE && seqno < SEQ_SPACE
      modifies `recvseq, `defrag, `upper
      ensures var (e, up) := Take(old(Receiver()), Frag(bits, seqno, data));
              var (e1, ups) := if up.None? then (e, []) else (Deep(e, up.value).0, [up.value] + Deep(e, up.value).1);
              Receiver() == e1 && upper == old(upper) + ups
      decreases |data| + Held(Receiver()), 1
    {
      hide Deep;
      if recvseq != seqno {
        defrag := None;
        recvseq := seqno;
      }
      var buf: Option<Bytes> := None;
      if bits == FLAG_SINGLE {
        defrag := None;
        recvseq := Add32(recvseq, 1);
        upper := upper + [data];
        Receive(data);
        return;
      } else if bits == FLAG_FIRST {
        defrag := Some(data);
      } else if defrag.Some? {
        if bits == FLAG_LAST {
          buf, defrag := Some(defrag.value + data), None;
        } else {
          defrag := Some(defrag.value + data);
        }
      }
      recvseq := Add32(recvseq, 1);
      if buf.Some? {
        upper := upper + [buf.value];
        Receive(buf.value);
      }
    }

    /** A datagram has come in, or a packet has been put together: `upper` lists what the forwarder is
        given of the latter. */
    method Receive(b: Bytes)
      modifies `recvseq, `defrag, `upper
      ensures var (e, ups) := Deep(old(Receiver()), b); Receiver() == e && upper == old(upper) + ups
      decreases |b| + Held(Receiver()), 0
    {
      hide Take;
      match Parse(b)
      case Fragment(f) =>
        FragmentSmaller(b, f);
        RxBeginEnd(f.flags, f.seqno, f.data);
      case _ =>
    }
  }

  lemma FragmentSmaller(b: Bytes, f: Frag)
    requires Parse(b) == Fragment(f)
    ensures |f.data| < |b|
  {
    hide U16;
  }

  lemma FramesCons(f: Frag, fs: seq<Frag>)
    ensures Frames([f] + fs) == [Frame(f)] + Frames(fs)
  {
  }
}
