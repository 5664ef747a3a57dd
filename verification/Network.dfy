/**
 A network of relays on a fixed topology, cycles included: packets are delivered, lost, and repeated
 by ageing in any order. As long as at most MAX_NONCES nonces are about, every run comes to rest.
 */
module Network {
  import opened Base
  import opened Names
  import opened RelayState
  import opened Structure

  datatype Packet = InterestPacket(interest: Interest) | DataPacket(data: Data)

  /** A packet on its way to `node`, where it will come in on interface `ifndx` from `peer`. */
  datatype Flight = Flight(node: nat, ifndx: int, peer: Addr, pkt: Packet)

  /** Where a packet that leaves a node through an interface towards a peer arrives. */
  type Wires = map<(nat, int, Addr), (nat, int, Addr)>

  datatype Net = Net(nodes: seq<State>, flight: seq<Flight>)

  datatype Step = Deliver(k: nat, now: U32) | Lose(k: nat) | Age(r: nat, t: U32)

  // ---------------------------------------------------------------- what goes on the wire

  /** Position of a face by id. */
  function FaceIndex(faces: seq<Face>, id: FaceId): (k: nat)
    ensures k <= |faces|
    ensures k < |faces| ==> faces[k].id == id
  {
    if faces == [] || faces[0].id == id then 0 else 1 + FaceIndex(faces[1..], id)
  }

  function Launch(wires: Wires, node: nat, faces: seq<Face>, id: FaceId, pkt: Packet): seq<Flight> {
    var k := FaceIndex(faces, id);
    if k < |faces| && faces[k].peer.Some? && (node, faces[k].ifndx, faces[k].peer.value) in wires then
      var to := wires[(node, faces[k].ifndx, faces[k].peer.value)];
      [Flight(to.0, to.1, to.2, pkt)]
    else []
  }

  function OnWire(wires: Wires, node: nat, faces: seq<Face>, a: Action): seq<Flight> {
    match a
    case SentInterest(f, p) => Launch(wires, node, faces, f, InterestPacket(p))
    case SentData(f, d, _, upcall) => if upcall then [] else Launch(wires, node, faces, f, DataPacket(d))
    case GotInterest(_, _, _) => []
  }

  function Transmit(wires: Wires, node: nat, faces: seq<Face>): Action -> seq<Flight> {
    (a: Action) => OnWire(wires, node, faces, a)
  }

  /** A frame arrives: the relay finds or makes the face it came from and dispatches the packet. */
  function Receive(s: State, f: Flight, now: U32): State {
    var (s1, from) := GetFace(s, f.ifndx, Some(f.peer), now);
    if from.None? then s1 else
      match f.pkt
      case InterestPacket(p) => HandleInterest(s1, from, p, now)
      case DataPacket(d) => HandleContent(s1, d, now)
  }

  // ---------------------------------------------------------------- steps

  predicate CanStep(net: Net, step: Step) {
    match step
    case Deliver(k, _) => k < |net.flight|
    case Lose(k) => k < |net.flight|
    case Age(r, _) => r < |net.nodes| && net.nodes[r].pit != []
  }

  /** What a node's new log entries put on the wire; `faces` are the faces at the time of sending. */
  function Sent(wires: Wires, r: nat, faces: seq<Face>, before: State, after: State): seq<Flight> {
    if |before.log| <= |after.log| then FlatMap(Transmit(wires, r, faces), after.log[|before.log|..]) else []
  }

  function DoStep(wires: Wires, net: Net, step: Step): Net
    requires CanStep(net, step)
  {
    match step
    case Lose(k) => net.(flight := net.flight[..k] + net.flight[k + 1..])
    case Deliver(k, now) =>
      var f := net.flight[k];
      var rest := net.flight[..k] + net.flight[k + 1..];
      if f.node >= |net.nodes| then net.(flight := rest) else
        var s := net.nodes[f.node];
        var s1 := Receive(s, f, now);
        Net(net.nodes[f.node := s1], rest + Sent(wires, f.node, s1.faces, s, s1))
    case Age(r, t) =>
      var s := net.nodes[r];
      var s1 := RelayState.Age(s, t);
      Net(net.nodes[r := s1], net.flight + Sent(wires, r, s.faces, s, s1))
  }

  ghost predicate Next(wires: Wires, a: Net, b: Net) {
    exists step :: CanStep(a, step) && b == DoStep(wires, a, step)
  }

  /** Nothing in flight and nothing pending anywhere. */
  ghost predicate AtRest(net: Net) {
    net.flight == [] && forall r :: 0 <= r < |net.nodes| ==> net.nodes[r].pit == []
  }

  // ---------------------------------------------------------------- the nonces about

  ghost predicate Tagged(p: Interest, all: set<Bytes>) {
    p.nonce.Some? && p.nonce.value in all
  }

  ghost predicate NodeOk(s: State, all: set<Bytes>) {
    && Ok(s)
    && (forall i :: 0 <= i < |s.nonces| ==> s.nonces[i] in all)
    && (forall i :: 0 <= i < |s.pit| ==> Tagged(s.pit[i].pkt, all))
  }

  ghost predicate FlightOk(f: Flight, all: set<Bytes>) {
    f.pkt.InterestPacket? ==> Tagged(f.pkt.interest, all)
  }

  /** Every Interest carries one of these nonces. */
  ghost predicate NetTagged(net: Net, all: set<Bytes>) {
    && (forall r :: 0 <= r < |net.nodes| ==> NodeOk(net.nodes[r], all))
    && (forall k :: 0 <= k < |net.flight| ==> FlightOk(net.flight[k], all))
  }

  /** And no more than MAX_NONCES of them are about. */
  ghost predicate NetOk(net: Net, all: set<Bytes>) {
    |all| <= MAX_NONCES && NetTagged(net, all)
  }

  // ---------------------------------------------------------------- the measure

  function Seen(nonces: seq<Bytes>): set<Bytes> {
    set x | x in nonces
  }

  /** How many of the nonces about the first `n` nodes have yet to see. */
  ghost function Unseen(nodes: seq<State>, n: nat, all: set<Bytes>): nat
    requires n <= |nodes|
  {
    if n == 0 then 0 else Unseen(nodes, n - 1, all) + |all - Seen(nodes[n - 1].nonces)|
  }

  function Weight(e: PitEntry): nat {
    if e.retries <= MAX_RETRANSMIT then MAX_RETRANSMIT + 1 - e.retries else 0
  }

  /** How often the first `n` entries may yet be repeated, removal included. */
  function PitWeight(pit: seq<PitEntry>, n: nat): nat
    requires n <= |pit|
  {
    if n == 0 then 0 else PitWeight(pit, n - 1) + Weight(pit[n - 1])
  }

  function Pending(nodes: seq<State>, n: nat): nat
    requires n <= |nodes|
  {
    if n == 0 then 0 else Pending(nodes, n - 1) + PitWeight(nodes[n - 1].pit, |nodes[n - 1].pit|)
  }

  lemma {:induction false} UnseenUpdate(nodes: seq<State>, r: nat, s: State, n: nat, all: set<Bytes>)
    requires r < |nodes| && n <= |nodes|
    ensures Unseen(nodes[r := s], n, all) + (if r < n then |all - Seen(nodes[r].nonces)| else 0)
         == Unseen(nodes, n, all) + (if r < n then |all - Seen(s.nonces)| else 0)
  {
    if n > 0 {
      UnseenUpdate(nodes, r, s, n - 1, all);
    }
  }

  lemma {:induction false} PendingUpdate(nodes: seq<State>, r: nat, s: State, n: nat)
    requires r < |nodes| && n <= |nodes|
    ensures Pending(nodes[r := s], n) + (if r < n then PitWeight(nodes[r].pit, |nodes[r].pit|) else 0)
         == Pending(nodes, n) + (if r < n then PitWeight(s.pit, |s.pit|) else 0)
  {
    if n > 0 {
      PendingUpdate(nodes, r, s, n - 1);
    }
  }

  lemma {:induction false} WeightAppend(a: seq<PitEntry>, b: seq<PitEntry>, n: nat)
    requires n <= |b|
    ensures PitWeight(a + b, |a| + n) == PitWeight(a, |a|) + PitWeight(b, n)
    decreases n, |a|
  {
    if n > 0 {
      WeightAppend(a, b, n - 1);
    } else if a != [] {
      WeightPrefix(a, b, |a|);
    }
  }

  lemma {:induction false} WeightPrefix(a: seq<PitEntry>, b: seq<PitEntry>, n: nat)
    requires n <= |a|
    ensures PitWeight(a + b, n) == PitWeight(a, n)
  {
    if n > 0 {
      WeightPrefix(a, b, n - 1);
    }
  }

  /** A pass that never makes an entry heavier, and makes the marked ones lighter. */
  lemma {:induction false} PassWeight(f: PitEntry -> seq<PitEntry>, lighter: PitEntry -> bool, pit: seq<PitEntry>,
                                      n: nat)
    requires n <= |pit|
    requires forall i :: 0 <= i < |pit| ==> |f(pit[i])| <= 1
    requires forall i :: 0 <= i < |pit| ==>
               (if f(pit[i]) == [] then 0 else Weight(f(pit[i])[0])) + (if lighter(pit[i]) then 1 else 0)
               <= Weight(pit[i])
    ensures PitWeight(Pass(f, pit, n), |Pass(f, pit, n)|) + CountTo(lighter, pit, n) <= PitWeight(pit, n)
  {
    if n > 0 {
      PassWeight(f, lighter, pit, n - 1);
      var front, r := Pass(f, pit, n - 1), f(pit[n - 1]);
      WeightAppend(front, r, |r|);
      if r != [] {
        assert PitWeight(r, 1) == PitWeight(r, 0) + Weight(r[0]);
      }
    }
  }

  // ---------------------------------------------------------------- what single packets do to a node

  lemma SeenMore(nonces: seq<Bytes>, n: Bytes, all: set<Bytes>)
    requires Distinct(nonces) && n !in nonces && n in all && |all| <= MAX_NONCES
    requires forall i :: 0 <= i < |nonces| ==> nonces[i] in all
    ensures |all - Seen(Remember(nonces, n))| < |all - Seen(nonces)|
    ensures forall i :: 0 <= i < |Remember(nonces, n)| ==> Remember(nonces, n)[i] in all
  {
    DistinctSize(nonces);
    SubsetSize(Seen(nonces) + {n}, all);
    assert n !in Seen(nonces);
    assert |Seen(nonces) + {n}| == |nonces| + 1;
    assert Remember(nonces, n) == [n] + nonces;
    assert n in [n] + nonces;
    assert forall x :: x in nonces ==> x in [n] + nonces;
    assert Seen([n] + nonces) == Seen(nonces) + {n};
    assert all - Seen([n] + nonces) == (all - Seen(nonces)) - {n};
    assert n in all - Seen(nonces);
  }

  lemma {:induction false} DistinctSize(s: seq<Bytes>)
    requires Distinct(s)
    ensures |Seen(s)| == |s|
  {
    if s != [] {
      var front, last := s[..|s| - 1], s[|s| - 1];
      DistinctSize(front);
      assert s == front + [last];
      assert Seen(s) == Seen(front) + {last};
      assert last !in Seen(front);
    }
  }

  lemma SubsetSize(a: set<Bytes>, b: set<Bytes>)
    requires a <= b
    ensures |a| <= |b|
  {
    assert b == a + (b - a);
  }

  /** Packets a log extension may put on the wire. */
  ghost predicate QuietLog(more: seq<Action>, all: set<Bytes>) {
    forall i :: 0 <= i < |more| && more[i].SentInterest? ==> Tagged(more[i].interest, all)
  }

  lemma WireOk(wires: Wires, node: nat, faces: seq<Face>, more: seq<Action>, all: set<Bytes>, f: Flight)
    requires QuietLog(more, all) && f in FlatMap(Transmit(wires, node, faces), more)
    ensures FlightOk(f, all)
  {
    PassMember(Transmit(wires, node, faces), more, |more|, f);
  }

  lemma ForwardsTagged(faces: seq<Face>, e: PitEntry, fib: seq<FibEntry>, all: set<Bytes>)
    requires Tagged(e.pkt, all)
    ensures QuietLog(FlatMap(Forwarded(faces, e), fib), all)
  {
    hide Tagged, Follows;
    var more := FlatMap(Forwarded(faces, e), fib);
    forall i | 0 <= i < |more| && more[i].SentInterest? ensures Tagged(more[i].interest, all) {
      PassMember(Forwarded(faces, e), fib, |fib|, more[i]);
    }
  }

  /** An Interest either is a duplicate and changes nothing but the log, or is one nonce fewer to see. */
  lemma InterestStep(s: State, from: FaceId, p: Interest, now: U32, all: set<Bytes>)
    requires NodeOk(s, all) && HasFace(s.faces, from) && Tagged(p, all) && |all| <= MAX_NONCES
    ensures var s1 := HandleInterest(s, Some(from), p, now);
            && NodeOk(s1, all) && s.log <= s1.log && QuietLog(s1.log[|s.log|..], all) && s1.faces == s.faces
            && if IsDup(s, p) then s1 == s.(log := s.log + [GotInterest(from, p, false)])
               else |all - Seen(s1.nonces)| < |all - Seen(s.nonces)|
  {
    hide Ok, Remember, SameAt, HitAt, IsLocal, Seen, KeyOf, Hits;
    var s1 := HandleInterest(s, Some(from), p, now);
    HandleInterestKeeps(s, Some(from), p, now);
    if !IsDup(s, p) {
      OkNonces(s);
      SeenMore(s.nonces, p.nonce.value, all);
      var e := AppendPending(NewEntry(p, Some(from), now), Some(from));
      ForwardsTagged(s.faces, e, s.fib, all);
    }
  }

  lemma OkNonces(s: State)
    requires Ok(s)
    ensures Distinct(s.nonces) && |s.nonces| <= MAX_NONCES
    ensures forall i :: 0 <= i < |s.pit| ==> s.pit[i].retries <= MAX_RETRANSMIT
  {
    hide Distinct, HasFace;
  }

  /** Data either meets no pending entry and changes nothing a packet could see, or takes one out. */
  lemma DataStep(s: State, d: Data, now: U32, all: set<Bytes>)
    requires NodeOk(s, all)
    ensures var s1 := HandleContent(s, d, now);
            && NodeOk(s1, all) && s.log <= s1.log && QuietLog(s1.log[|s.log|..], all) && s1.faces == s.faces
            && s1.nonces == s.nonces
            && if s1.log == s.log then s1.pit == s.pit || PitWeight(s1.pit, |s1.pit|) < PitWeight(s.pit, |s.pit|)
               else PitWeight(s1.pit, |s1.pit|) < PitWeight(s.pit, |s.pit|)
  {
    hide Ok, Tagged, EvictScan, Matches;
    var s1 := HandleContent(s, d, now);
    HandleContentKeeps(s, d, now);
    if !Stored(s.contents, d.name) {
      forall i | 0 <= i < |s1.pit| ensures Tagged(s1.pit[i].pkt, all) {
        FilterMember(Unanswered(d), s.pit, s1.pit[i]);
        var j :| 0 <= j < |s.pit| && s.pit[j] == s1.pit[i];
      }
      ServeWeight(s, d);
    }
  }

  function Answered(d: Data): PitEntry -> bool {
    (e: PitEntry) => Matches(e.pkt, d)
  }

  lemma ServeWeight(s: State, d: Data)
    requires Ok(s)
    ensures var pit := Filter(Unanswered(d), s.pit);
            if Wanted(s.pit, d) then PitWeight(pit, |pit|) < PitWeight(s.pit, |s.pit|)
            else pit == s.pit && Deliveries(s.pit, d) == []
  {
    hide Ok, Matches;
    OkNonces(s);
    if Wanted(s.pit, d) {
      PassWeight(Guard(Unanswered(d)), Answered(d), s.pit, |s.pit|);
      CountPositive(Answered(d), s.pit, |s.pit|);
    } else {
      FilterAll(Unanswered(d), s.pit);
      NothingServed(s.pit, |s.pit|, d);
    }
  }

  lemma {:induction false} NothingServed(pit: seq<PitEntry>, n: nat, d: Data)
    requires n <= |pit| && !Wanted(pit, d)
    ensures DeliveriesTo(pit, n, d) == []
  {
    if n > 0 {
      NothingServed(pit, n - 1, d);
      assert pit[n - 1] in pit;
    }
  }

  function Everything(): PitEntry -> bool {
    (e: PitEntry) => true
  }

  function Nothing(): PitEntry -> bool {
    (e: PitEntry) => false
  }

  /** A tick on a relay that has pending entries brings each of them closer to its end. */
  lemma AgeStep(s: State, t: U32, all: set<Bytes>)
    requires NodeOk(s, all) && s.pit != []
    ensures var s1 := RelayState.Age(s, t);
            && NodeOk(s1, all) && s.log <= s1.log && QuietLog(s1.log[|s.log|..], all)
            && s1.nonces == s.nonces && PitWeight(s1.pit, |s1.pit|) < PitWeight(s.pit, |s.pit|)
  {
    hide Ok, Tagged, InterestExpired, AgedContent, Pass, ExpiredFaces, Follows;
    AgeKeeps(s, t);
    OkNonces(s);
    var s1 := AgeContents(s, t);
    var s2 := AgeInterests(s1, t);
    var s3 := RemoveFaces(s2, ExpiredFaces(s2.faces, t));
    AgeOutput(s1, t, all);
    AgePit(s1, t, all);
    StripPit(s2, ExpiredFaces(s2.faces, t), all);
  }

  lemma AgeOutput(s: State, t: U32, all: set<Bytes>)
    requires forall i :: 0 <= i < |s.pit| ==> Tagged(s.pit[i].pkt, all)
    ensures QuietLog(FlatMap(Resent(s.fib, s.faces, t), s.pit), all)
  {
    hide Tagged, InterestExpired;
    var more := FlatMap(Resent(s.fib, s.faces, t), s.pit);
    forall i | 0 <= i < |more| && more[i].SentInterest? ensures Tagged(more[i].interest, all) {
      PassMember(Resent(s.fib, s.faces, t), s.pit, |s.pit|, more[i]);
      var j :| 0 <= j < |s.pit| && more[i] in Resend(s.fib, s.faces, s.pit[j], t);
      ForwardsTagged(s.faces, s.pit[j], s.fib, all);
    }
  }

  lemma AgePit(s: State, t: U32, all: set<Bytes>)
    requires s.pit != []
    requires forall i :: 0 <= i < |s.pit| ==> Tagged(s.pit[i].pkt, all) && s.pit[i].retries <= MAX_RETRANSMIT
    ensures var pit := AgeInterests(s, t).pit;
            && PitWeight(pit, |pit|) < PitWeight(s.pit, |s.pit|)
            && forall i :: 0 <= i < |pit| ==> Tagged(pit[i].pkt, all) && pit[i].retries <= MAX_RETRANSMIT
  {
    hide Tagged, Add32;
    var pit := AgeInterests(s, t).pit;
    PassWeight(AgedInterest(t), Everything(), s.pit, |s.pit|);
    CountPositive(Everything(), s.pit, |s.pit|);
    assert Everything()(s.pit[0]);
    forall i | 0 <= i < |pit| ensures Tagged(pit[i].pkt, all) && pit[i].retries <= MAX_RETRANSMIT {
      PassMember(AgedInterest(t), s.pit, |s.pit|, pit[i]);
      var j :| 0 <= j < |s.pit| && pit[i] in AgeInterest(s.pit[j], t);
    }
  }

  lemma StripPit(s: State, gone: set<FaceId>, all: set<Bytes>)
    requires forall i :: 0 <= i < |s.pit| ==> Tagged(s.pit[i].pkt, all)
    ensures var pit := RemoveFaces(s, gone).pit;
            && PitWeight(pit, |pit|) <= PitWeight(s.pit, |s.pit|)
            && forall i :: 0 <= i < |pit| ==> Tagged(pit[i].pkt, all)
  {
    hide Tagged, Filter;
    if gone != {} {
      var pit := RemoveFaces(s, gone).pit;
      PassWeight(Stripped(gone), Nothing(), s.pit, |s.pit|);
      forall i | 0 <= i < |pit| ensures Tagged(pit[i].pkt, all) {
        PassMember(Stripped(gone), s.pit, |s.pit|, pit[i]);
        var j :| 0 <= j < |s.pit| && pit[i] in Strip(s.pit[j], gone);
      }
    }
  }

  // ---------------------------------------------------------------- steps make progress

  /** Lexicographic comparison of the three parts of the measure. */
  ghost predicate Less(a: Net, b: Net, all: set<Bytes>) {
    var ua, ub := Unseen(a.nodes, |a.nodes|, all), Unseen(b.nodes, |b.nodes|, all);
    var pa, pb := Pending(a.nodes, |a.nodes|), Pending(b.nodes, |b.nodes|);
    ua < ub || (ua == ub && (pa < pb || (pa == pb && |a.flight| < |b.flight|)))
  }

  lemma ReceiveStep(s: State, f: Flight, now: U32, all: set<Bytes>)
    requires NodeOk(s, all) && FlightOk(f, all) && |all| <= MAX_NONCES
    ensures var s1 := Receive(s, f, now);
            && NodeOk(s1, all) && s.log <= s1.log && QuietLog(s1.log[|s.log|..], all)
            && (|all - Seen(s1.nonces)| < |all - Seen(s.nonces)|
                || (s1.nonces == s.nonces
                    && (PitWeight(s1.pit, |s1.pit|) < PitWeight(s.pit, |s.pit|)
                        || (s1.pit == s.pit && forall i :: |s.log| <= i < |s1.log| ==> s1.log[i].GotInterest?))))
  {
    hide Ok, Tagged, Seen, HasFace, QuietLog;
    var (s0, from) := GetFace(s, f.ifndx, Some(f.peer), now);
    GetFaceKeeps(s, f.ifndx, Some(f.peer), now);
    GetFaceKeepsFaces(s, f.ifndx, Some(f.peer), now) by {
      OkFaces(s);
    }
    GetFaceTouches(s, f.ifndx, Some(f.peer), now);
    QuietNothing(s.log, all);
    if from.Some? {
      match f.pkt
      case InterestPacket(p) => InterestStep(s0, from.value, p, now, all);
      case DataPacket(d) => DataStep(s0, d, now, all);
    }
  }

  lemma OkFaces(s: State)
    requires Ok(s)
    ensures FacesOk(s)
  {
    hide FacesOk, FibOk, PitOk, StoreOk, NoncesOk;
  }

  lemma QuietNothing(log: seq<Action>, all: set<Bytes>)
    ensures QuietLog(log[|log|..], all)
  {
  }

  lemma GetFaceTouches(s: State, ifndx: int, peer: Option<Addr>, now: U32)
    ensures var s1 := GetFace(s, ifndx, peer, now).0; s1 == s.(faces := s1.faces, seqno := s1.seqno)
  {
    hide FaceAt, PickIface, NewFace;
  }

  lemma OnlyHeard(wires: Wires, node: nat, faces: seq<Face>, more: seq<Action>, n: nat)
    requires n <= |more| && forall i :: 0 <= i < |more| ==> more[i].GotInterest?
    ensures Pass(Transmit(wires, node, faces), more, n) == []
  {
  }

  /** One node changed and the flight was reshuffled: the rest of the network is as it was. */
  lemma NodeChanged(net: Net, r: nat, s1: State, flight: seq<Flight>, all: set<Bytes>)
    requires NetOk(net, all) && r < |net.nodes| && NodeOk(s1, all)
    requires forall f :: f in flight ==> FlightOk(f, all)
    ensures var net1 := Net(net.nodes[r := s1], flight);
            var s := net.nodes[r];
            && NetOk(net1, all)
            && (|all - Seen(s1.nonces)| < |all - Seen(s.nonces)| ==> Less(net1, net, all))
            && (s1.nonces == s.nonces && PitWeight(s1.pit, |s1.pit|) < PitWeight(s.pit, |s.pit|) ==>
                  Less(net1, net, all))
            && (s1.nonces == s.nonces && s1.pit == s.pit && |flight| < |net.flight| ==> Less(net1, net, all))
  {
    hide NodeOk, FlightOk, Seen, PitWeight;
    UnseenUpdate(net.nodes, r, s1, |net.nodes|, all);
    PendingUpdate(net.nodes, r, s1, |net.nodes|);
  }

  /** Every step keeps the network sound and makes the measure smaller. */
  lemma StepProgress(wires: Wires, net: Net, step: Step, all: set<Bytes>)
    requires NetOk(net, all) && CanStep(net, step)
    ensures NetOk(DoStep(wires, net, step), all) && Less(DoStep(wires, net, step), net, all)
  {
    hide NodeOk, FlightOk, Seen, PitWeight, Unseen, Pending, Receive, RelayState.Age, QuietLog, Transmit;
    match step
    case Lose(k) =>
    case Deliver(k, now) =>
      var f := net.flight[k];
      var rest := net.flight[..k] + net.flight[k + 1..];
      if f.node < |net.nodes| {
        var s := net.nodes[f.node];
        var s1 := Receive(s, f, now);
        ReceiveStep(s, f, now, all);
        var more := s1.log[|s.log|..];
        var sent := Sent(wires, f.node, s1.faces, s, s1);
        forall x | x in rest + sent ensures FlightOk(x, all) {
          if x in sent {
            WireOk(wires, f.node, s1.faces, more, all, x);
          }
        }
        NodeChanged(net, f.node, s1, rest + sent, all);
        if forall i :: |s.log| <= i < |s1.log| ==> s1.log[i].GotInterest? {
          OnlyHeard(wires, f.node, s1.faces, more, |more|);
        }
      }
    case Age(r, t) =>
      var s := net.nodes[r];
      var s1 := RelayState.Age(s, t);
      AgeStep(s, t, all);
      var sent := Sent(wires, r, s.faces, s, s1);
      forall x | x in net.flight + sent ensures FlightOk(x, all) {
        if x in sent {
          WireOk(wires, r, s.faces, s1.log[|s.log|..], all, x);
        }
      }
      NodeChanged(net, r, s1, net.flight + sent, all);
  }

  // ---------------------------------------------------------------- quiescence

  /** A run in which every network follows from the one before by a step. */
  ghost predicate Endless(wires: Wires, run: nat -> Net) {
    forall n: nat :: Next(wires, run(n), run(n + 1))
  }

  lemma {:induction false} NoEndlessRun(wires: Wires, run: nat -> Net, i: nat, all: set<Bytes>)
    requires NetOk(run(i), all) && Endless(wires, run)
    ensures false
    decreases Unseen(run(i).nodes, |run(i).nodes|, all), Pending(run(i).nodes, |run(i).nodes|), |run(i).flight|
  {
    hide NetOk, CanStep, DoStep, Unseen, Pending;
    assert Next(wires, run(i), run(i + 1));
    var step :| CanStep(run(i), step) && run(i + 1) == DoStep(wires, run(i), step);
    StepProgress(wires, run(i), step, all);
    NoEndlessRun(wires, run, i + 1, all);
  }

  /** Every run of the network stops: whatever is delivered, lost or aged in whatever order, there is
      a point at which no further step was taken. */
  lemma Quiesces(wires: Wires, run: nat -> Net, all: set<Bytes>)
    requires NetOk(run(0), all)
    ensures exists n: nat :: !Next(wires, run(n), run(n + 1))
  {
    if Endless(wires, run) {
      NoEndlessRun(wires, run, 0, all);
    }
  }

  /** A step is possible unless nothing is in flight and nothing is pending. */
  lemma StopsOnlyAtRest(net: Net)
    ensures (forall step :: !CanStep(net, step)) <==> AtRest(net)
  {
    if net.flight != [] {
      assert CanStep(net, Lose(0));
    }
    if r :| 0 <= r < |net.nodes| && net.nodes[r].pit != [] {
      assert CanStep(net, Age(r, 0));
    }
  }

  /** A step is taken whenever one is possible; else everything stays as it is. */
  ghost predicate GoesOn(wires: Wires, a: Net, b: Net) {
    Next(wires, a, b) || (b == a && forall step :: !CanStep(a, step))
  }

  ghost predicate Maximal(wires: Wires, run: nat -> Net) {
    forall n: nat :: GoesOn(wires, run(n), run(n + 1))
  }

  lemma RestsOn(wires: Wires, run: nat -> Net, n: nat)
    requires Maximal(wires, run) && AtRest(run(n))
    ensures run(n + 1) == run(n)
  {
    hide CanStep, AtRest, DoStep;
    StopsOnlyAtRest(run(n));
    assert GoesOn(wires, run(n), run(n + 1));
  }

  lemma {:induction false} StaysAtRest(wires: Wires, run: nat -> Net, n: nat, m: nat)
    requires Maximal(wires, run) && AtRest(run(n)) && n <= m
    ensures run(m) == run(n)
  {
    hide Maximal, AtRest;
    if m > n {
      StaysAtRest(wires, run, n, m - 1);
      RestsOn(wires, run, m - 1);
    }
  }

  lemma StopsAtRest(wires: Wires, run: nat -> Net, n: nat)
    requires Maximal(wires, run) && !Next(wires, run(n), run(n + 1))
    ensures AtRest(run(n))
  {
    hide CanStep, AtRest, Next;
    assert GoesOn(wires, run(n), run(n + 1));
    StopsOnlyAtRest(run(n));
  }

  /** A run that goes on as long as it can comes to rest, nothing in flight and nothing pending, and stays
      there. */
  lemma ComesToRest(wires: Wires, run: nat -> Net, all: set<Bytes>)
    requires NetOk(run(0), all) && Maximal(wires, run)
    ensures exists n: nat :: AtRest(run(n)) && forall m: nat :: n <= m ==> run(m) == run(n)
  {
    hide AtRest, NetOk, Next, Maximal;
    Quiesces(wires, run, all);
    var n: nat :| !Next(wires, run(n), run(n + 1));
    StopsAtRest(wires, run, n);
    forall m: nat | n <= m
      ensures run(m) == run(n)
    {
      StaysAtRest(wires, run, n, m);
    }
  }
}
