/**
 What travels over the wires of a network: an Interest that a relay sends on is in flight to the neighbour behind
 the face, and so is the Data that answers a neighbour.
 */
module Travel {
  import opened Base
  import opened Names
  import opened RelayState
  import opened Structure
  import opened Tables
  import opened Outcomes
  import opened Network

  /** The relay reaches a neighbour through this face. */
  ghost predicate Wired(wires: Wires, node: nat, faces: seq<Face>, x: Face) {
    x in faces && x.ifndx >= 0 && x.peer.Some? && (node, x.ifndx, x.peer.value) in wires
  }

  function Towards(wires: Wires, node: nat, x: Face, pkt: Packet): Flight
    requires x.peer.Some? && (node, x.ifndx, x.peer.value) in wires
  {
    var to := wires[(node, x.ifndx, x.peer.value)];
    Flight(to.0, to.1, to.2, pkt)
  }

  lemma FaceIndexIs(faces: seq<Face>, x: Face)
    requires DistinctIds(faces) && x in faces
    ensures FaceIndex(faces, x.id) < |faces| && faces[FaceIndex(faces, x.id)] == x
  {
    var k := FaceIndex(faces, x.id);
    FirstIndex(faces, x.id);
    SameFace(faces, x, faces[k]);
  }

  lemma {:induction false} FirstIndex(faces: seq<Face>, id: FaceId)
    requires HasFace(faces, id)
    ensures FaceIndex(faces, id) < |faces|
  {
    var x :| x in faces && x.id == id;
    if faces[0].id != id {
      assert x in faces[1..];
      FirstIndex(faces[1..], id);
    }
  }

  /** Looking a face up leaves the others, and the ways they lead, as they were. */
  lemma LookupKeepsFace(s: State, ifndx: int, peer: Option<Addr>, now: U32, x: Face)
    requires FacesOk(s) && x in s.faces
    ensures var faces1 := GetFace(s, ifndx, peer, now).0.faces;
            && DistinctIds(faces1)
            && exists y :: y in faces1 && y.id == x.id && y.ifndx == x.ifndx && y.peer == x.peer
  {
    hide Distinct, FaceAt, PickIface;
    GetFaceKeepsFaces(s, ifndx, peer, now);
    var faces1 := GetFace(s, ifndx, peer, now).0.faces;
    var i :| 0 <= i < |s.faces| && s.faces[i] == x;
    var y := faces1[i + |faces1| - |s.faces|];
    assert y in faces1 && y.id == x.id && y.ifndx == x.ifndx && y.peer == x.peer;
  }

  lemma ToNeighbour(wires: Wires, node: nat, faces: seq<Face>, x: Face, pkt: Packet)
    requires DistinctIds(faces) && x.peer.Some? && (node, x.ifndx, x.peer.value) in wires
    requires exists y :: y in faces && y.id == x.id && y.ifndx == x.ifndx && y.peer == x.peer
    ensures Launch(wires, node, faces, x.id, pkt) == [Towards(wires, node, x, pkt)]
  {
    var y :| y in faces && y.id == x.id && y.ifndx == x.ifndx && y.peer == x.peer;
    FaceIndexIs(faces, y);
  }

  /** An action among those added to the history puts its packet in flight. */
  lemma InFlight(wires: Wires, node: nat, faces: seq<Face>, before: State, after: State, a: Action, f: Flight)
    requires before.log <= after.log && a in after.log[|before.log|..] && f in OnWire(wires, node, faces, a)
    ensures f in Network.Sent(wires, node, faces, before, after)
  {
    hide OnWire;
    var more := after.log[|before.log|..];
    PassMember(Transmit(wires, node, faces), more, |more|, f);
  }

  /** The packet is in flight to a relay that has a face for the neighbour it comes from. */
  ghost predicate Arriving(net: Net, k: nat, now: U32, pkt: Packet) {
    && k < |net.flight| && net.flight[k].node < |net.nodes| && net.flight[k].pkt == pkt
    && FacesOk(net.nodes[net.flight[k].node])
    && GetFace(net.nodes[net.flight[k].node], net.flight[k].ifndx, Some(net.flight[k].peer), now).1.Some?
  }

  /** The relay a packet arrives at, the state in which it handles it, and the face it comes from. */
  ghost function Handler(net: Net, k: nat, now: U32): (State, FaceId)
    requires k < |net.flight| && net.flight[k].node < |net.nodes|
    requires GetFace(net.nodes[net.flight[k].node], net.flight[k].ifndx, Some(net.flight[k].peer), now).1.Some?
  {
    var r := GetFace(net.nodes[net.flight[k].node], net.flight[k].ifndx, Some(net.flight[k].peer), now);
    (r.0, r.1.value)
  }

  lemma HandlerIs(net: Net, k: nat, now: U32, pkt: Packet)
    requires Arriving(net, k, now, pkt)
    ensures var s, h := net.nodes[net.flight[k].node], Handler(net, k, now).0;
            h == s.(faces := h.faces, seqno := h.seqno)
  {
    hide FaceAt, PickIface, NewFace;
  }

  /** Data that arrives at a relay where a neighbour waits for it, and where it is not stored, is in flight to that
      neighbour afterwards. */
  lemma DataTravels(wires: Wires, net: Net, k: nat, now: U32, d: Data, e: PitEntry, x: Face)
    requires Arriving(net, k, now, DataPacket(d))
    requires var s := net.nodes[net.flight[k].node];
             && Wired(wires, net.flight[k].node, s.faces, x)
             && e in s.pit && Matches(e.pkt, d) && x.id in e.pending && !HasName(s.contents, d.name)
    ensures Towards(wires, net.flight[k].node, x, DataPacket(d)) in DoStep(wires, net, Deliver(k, now)).flight
  {
    hide GetFace, HandleContent, Matches, HasName, Network.Sent, FacesOk, Launch;
    var f := net.flight[k];
    var s, h := net.nodes[f.node], Handler(net, k, now).0;
    HandlerIs(net, k, now, DataPacket(d));
    LookupKeepsFace(s, f.ifndx, Some(f.peer), now, x);
    var s1 := HandleContent(h, d, now);
    assert Receive(s, f, now) == s1;
    DataSent(h, d, now, e, x);
    var a :| a in s1.log[|h.log|..] && a.SentData? && a.data == d && a.face == x.id && !a.upcall;
    ToNeighbour(wires, f.node, s1.faces, x, DataPacket(d));
    InFlight(wires, f.node, s1.faces, s, s1, a, Towards(wires, f.node, x, DataPacket(d)));
  }

  lemma DataSent(s: State, d: Data, now: U32, e: PitEntry, x: Face)
    requires e in s.pit && Matches(e.pkt, d) && x.id in e.pending && !HasName(s.contents, d.name)
    requires DistinctIds(s.faces) && x.ifndx >= 0
    requires exists y :: y in s.faces && y.id == x.id && y.ifndx == x.ifndx && y.peer == x.peer
    ensures var s1 := HandleContent(s, d, now);
            && s.log <= s1.log && s1.faces == s.faces
            && exists a :: a in s1.log[|s.log|..] && a.SentData? && a.data == d && a.face == x.id && !a.upcall
  {
    hide HandleContent, ServePending, Add2Cache, Matches, HasName, DistinctIds;
    DataOutcome(s, d, now);
    ServeOutcome(s, d);
    CachingKeeps(ServePending(s, d), Content(d, AskedByNobody(s.pit, d), false, now));
    var more := ServePending(s, d).log[|s.log|..];
    var i :| 0 <= i < |s.pit| && s.pit[i] == e;
    assert WaitsFor(s.pit, d, x.id);
    CountPositive(DataTo(x.id), more, |more|);
    var j :| 0 <= j < |more| && DataTo(x.id)(more[j]);
    assert more[j] in more;
    if ToClient(s.faces, x.id) {
      var y :| y in s.faces && y.id == x.id && y.ifndx == x.ifndx && y.peer == x.peer;
      var z :| z in s.faces && z.id == x.id && z.ifndx < 0;
      SameFace(s.faces, y, z);
    }
  }

  lemma CachingKeeps(s: State, c: Content)
    ensures Add2Cache(s, c).log == s.log && Add2Cache(s, c).faces == s.faces
  {
  }

  /** An Interest that arrives at a relay where its request is new, and where a route to a neighbour fits, is in
      flight to that neighbour afterwards, unless it came from there. */
  lemma InterestTravels(wires: Wires, net: Net, k: nat, now: U32, p: Interest, x: Face, r: FibEntry)
    requires Arriving(net, k, now, InterestPacket(p))
    requires var s := net.nodes[net.flight[k].node];
             && Wired(wires, net.flight[k].node, s.faces, x)
             && Heeded(s, p) && NothingStored(s, p) && p.scope > 2 && !Known(s, p) && HasRoom(s)
             && r in s.fib && r.face == x.id && r.prefix.comps <= p.name.comps && x.id != Handler(net, k, now).1
    ensures Towards(wires, net.flight[k].node, x, InterestPacket(p)) in DoStep(wires, net, Deliver(k, now)).flight
  {
    hide GetFace, HandleInterest, Heeded, NothingStored, Network.Sent, FacesOk, Launch, Sends;
    var f := net.flight[k];
    var s := net.nodes[f.node];
    var (h, from) := Handler(net, k, now);
    HandlerIs(net, k, now, InterestPacket(p));
    LookupKeepsFace(s, f.ifndx, Some(f.peer), now, x);
    SameQuestion(s, h, p);
    var e := Opened(p, Some(from), now);
    AskedToOpen(h, Some(from), p, now);
    var s1 := HandleInterest(h, Some(from), p, now);
    assert Receive(s, f, now) == s1;
    GoesOutIff(h.faces, e, h.fib, x.id);
    var a := SentInterest(x.id, p);
    AppendAssoc(h.log, Got(Some(from), p, true), Sends(h.faces, e, h.fib));
    assert s1.log[|h.log|..] == Got(Some(from), p, true) + Sends(h.faces, e, h.fib);
    ToNeighbour(wires, f.node, s1.faces, x, InterestPacket(p));
    InFlight(wires, f.node, s1.faces, s, s1, a, Towards(wires, f.node, x, InterestPacket(p)));
  }

  lemma SameQuestion(s: State, h: State, p: Interest)
    requires h == s.(faces := h.faces, seqno := h.seqno)
    ensures Heeded(h, p) == Heeded(s, p) && NothingStored(h, p) == NothingStored(s, p)
  {
  }
}
