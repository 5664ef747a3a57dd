/**
 What every operation on the tables of a relay comes to, case by case: an Interest that arrives, Data that
 arrives, a face that is looked up or removed, a tick of the clock.
 */
module Outcomes {
  import opened Base
  import opened Names
  import opened RelayState
  import opened Structure
  import opened Tables

  // ---------------------------------------------------------------- an Interest arrives

  /** What the history records of an arrival. */
  function Got(from: Option<FaceId>, p: Interest, isNew: bool): seq<Action> {
    if from.None? then [] else [GotInterest(from.value, p, isNew)]
  }

  function NoncesAfter(s: State, p: Interest): seq<Bytes> {
    if p.nonce.None? then s.nonces else Remember(s.nonces, p.nonce.value)
  }

  predicate ForManagement(n: Name) {
    |n.comps| == 4 && [0x63, 0x63, 0x6e, 0x78] <= n.comps[0]
  }

  /** Not a duplicate, and not for the management of the relay. */
  predicate Heeded(s: State, p: Interest) {
    (p.nonce.Some? ==> p.nonce.value !in s.nonces) && !ForManagement(p.name)
  }

  predicate CanAnswer(c: Content, p: Interest) {
    Matches(p, c.data) && (p.mustBeFresh ==> !c.stale)
  }

  ghost predicate NothingStored(s: State, p: Interest) {
    forall i :: 0 <= i < |s.contents| ==> !CanAnswer(s.contents[i], p)
  }

  ghost predicate Known(s: State, p: Interest) {
    exists i :: 0 <= i < |s.pit| && KeyOf(s.pit[i].pkt) == KeyOf(p)
  }

  predicate HasRoom(s: State) {
    s.maxPit == -1 || s.pitcnt < s.maxPit
  }

  /** The client on this relay, reached without an interface. */
  ghost predicate ToClient(faces: seq<Face>, f: FaceId) {
    exists x :: x in faces && x.id == f && x.ifndx < 0
  }

  lemma AskedAgain(s: State, from: Option<FaceId>, p: Interest, now: U32)
    requires p.nonce.Some? && p.nonce.value in s.nonces
    ensures HandleInterest(s, from, p, now) == s.(log := s.log + Got(from, p, false))
  {
    assert s.log + [] == s.log;
  }

  lemma ForManagementIs(n: Name)
    ensures IsMgmt(n) <==> ForManagement(n)
  {
    if |n.comps| == 4 && |n.comps[0]| >= 4 {
      assert n.comps[0] == n.comps[0][..4] + n.comps[0][4..];
    }
  }

  lemma HeededIs(s: State, from: Option<FaceId>, p: Interest, now: U32)
    requires Heeded(s, p)
    ensures !IsDup(s, p) && !IsMgmt(p.name)
    ensures Noted(Heard(s, from, p, true), p) ==
            s.(nonces := NoncesAfter(s, p), log := s.log + Got(from, p, true))
  {
    ForManagementIs(p.name);
    assert s.log + [] == s.log;
  }

  lemma HitIsAnswer(contents: seq<Content>, p: Interest)
    ensures var k := HitAt(contents, p);
            && k <= |contents| && (k < |contents| ==> CanAnswer(contents[k], p))
            && forall j :: 0 <= j < k ==> !CanAnswer(contents[j], p)
  {
    hide Matches;
  }

  /** The first content that answers goes to the face that asks, and nothing comes to wait. */
  lemma AskedOfStore(s: State, from: Option<FaceId>, p: Interest, now: U32)
    requires Heeded(s, p) && !NothingStored(s, p)
    ensures exists k :: 0 <= k < |s.contents| && CanAnswer(s.contents[k], p)
                        && (forall j :: 0 <= j < k ==> !CanAnswer(s.contents[j], p))
                        && HandleInterest(s, from, p, now) ==
                           s.(nonces := NoncesAfter(s, p), log := s.log + Got(from, p, true) +
                                if from.None? then [] else
                                  [SentData(from.value, s.contents[k].data, p, ToClient(s.faces, from.value))])
  {
    hide CanAnswer, Hits, Remember, Enter, IsMgmt, HitAt;
    HeededIs(s, from, p, now);
    HitIsAnswer(s.contents, p);
    var k := HitAt(s.contents, p);
    assert s.log + [] + [] == s.log;
    if from.Some? {
      assert IsLocal(s.faces, from.value) <==> ToClient(s.faces, from.value);
    }
  }

  lemma UnansweredIsEnter(s: State, from: Option<FaceId>, p: Interest, now: U32)
    requires Heeded(s, p) && NothingStored(s, p)
    ensures HandleInterest(s, from, p, now) ==
            Enter(s.(nonces := NoncesAfter(s, p), log := s.log + Got(from, p, true)), from, p, now)
  {
    hide CanAnswer, Hits, Remember, Enter, IsMgmt, HitAt;
    HeededIs(s, from, p, now);
    HitIsAnswer(s.contents, p);
  }

  /** An entry that one more face waits in. */
  function Joined(e: PitEntry, from: Option<FaceId>): PitEntry {
    PitEntry(e.pkt, e.from, if from.None? || from.value in e.pending then e.pending else e.pending + [from.value],
             e.lifetime, e.lastUsed, e.retries)
  }

  /** A request that is known gains the face that asks; its other waiters and all other entries stay. */
  lemma AskedToJoin(s: State, from: Option<FaceId>, p: Interest, now: U32, k: nat)
    requires PitOk(s) && Heeded(s, p) && NothingStored(s, p) && p.scope > 2
    requires k < |s.pit| && KeyOf(s.pit[k].pkt) == KeyOf(p)
    ensures HandleInterest(s, from, p, now) ==
            s.(nonces := NoncesAfter(s, p), log := s.log + Got(from, p, true),
               pit := s.pit[k := Joined(s.pit[k], from)])
  {
    hide CanAnswer, Remember, IsMgmt, HandleInterest, SameAt, EntryOk;
    UnansweredIsEnter(s, from, p, now);
    var keys := Map(PitKey(), s.pit);
    var i := SameAt(s.pit, p);
    assert i <= k && keys[i] == keys[k];
  }

  /** The entry that is opened: this packet, its arrival face, and only that face waiting. */
  function Opened(p: Interest, from: Option<FaceId>, now: U32): PitEntry {
    PitEntry(p, from, if from.None? then [] else [from.value], (p.lifetimeMs / 1000) % 0x1_0000_0000, now, 0)
  }

  /** A request that is new gets an entry of its own and goes out on every route that fits. */
  lemma AskedToOpen(s: State, from: Option<FaceId>, p: Interest, now: U32)
    requires Heeded(s, p) && NothingStored(s, p) && p.scope > 2 && !Known(s, p) && HasRoom(s)
    ensures var e := Opened(p, from, now);
            HandleInterest(s, from, p, now) ==
            s.(nonces := NoncesAfter(s, p), pit := [e] + s.pit, pitcnt := s.pitcnt + 1,
               log := s.log + Got(from, p, true) + Sends(s.faces, e, s.fib))
  {
    hide CanAnswer, Remember, IsMgmt, HandleInterest, Sends;
    UnansweredIsEnter(s, from, p, now);
    var e := Opened(p, from, now);
    assert [] + Got(from, p, true) == Got(from, p, true);
    assert AppendPending(NewEntry(p, from, now), from) == e;
    ForwardedIsSends(s.faces, e, s.fib);
  }

  /** Nothing comes to wait if the scope forbids it, or a new request finds the table full. */
  lemma AskedInVain(s: State, from: Option<FaceId>, p: Interest, now: U32)
    requires Heeded(s, p) && NothingStored(s, p) && (p.scope <= 2 || (!Known(s, p) && !HasRoom(s)))
    ensures HandleInterest(s, from, p, now) ==
            s.(nonces := NoncesAfter(s, p), log := s.log + Got(from, p, true))
  {
    hide CanAnswer, Remember, IsMgmt, HandleInterest;
    UnansweredIsEnter(s, from, p, now);
  }

  lemma AskedForManagement(s: State, from: Option<FaceId>, p: Interest, now: U32)
    requires (p.nonce.Some? ==> p.nonce.value !in s.nonces) && ForManagement(p.name)
    ensures HandleInterest(s, from, p, now) ==
            s.(nonces := NoncesAfter(s, p), log := s.log + Got(from, p, true))
  {
    ForManagementIs(p.name);
    assert s.log + [] == s.log;
  }

  // ---------------------------------------------------------------- Data arrives

  function NotFor(d: Data): PitEntry -> bool {
    (e: PitEntry) => !Matches(e.pkt, d)
  }

  /** Some request for the data is pending; the face waits for it; nobody does. */
  ghost predicate AskedFor(pit: seq<PitEntry>, d: Data) {
    exists i :: 0 <= i < |pit| && Matches(pit[i].pkt, d)
  }

  ghost predicate WaitsFor(pit: seq<PitEntry>, d: Data, f: FaceId) {
    exists i :: 0 <= i < |pit| && Matches(pit[i].pkt, d) && f in pit[i].pending
  }

  ghost predicate AskedByNobody(pit: seq<PitEntry>, d: Data) {
    exists i :: 0 <= i < |pit| && Matches(pit[i].pkt, d) && pit[i].pending == []
  }

  ghost predicate HasName(contents: seq<Content>, name: Name) {
    exists i :: 0 <= i < |contents| && contents[i].data.name == name
  }

  function DataTo(f: FaceId): Action -> bool {
    (a: Action) => a.SentData? && a.face == f
  }

  lemma {:induction false} OnceEach(faces: seq<Face>, d: Data, ds: seq<Delivery>, n: nat, f: FaceId)
    requires n <= |ds| && Distinct(Map(FaceOf(), ds))
    ensures CountTo(DataTo(f), Map(Delivered(faces, d), ds), n) ==
            if exists i :: 0 <= i < n && ds[i].0 == f then 1 else 0
  {
    if n > 0 {
      OnceEach(faces, d, ds, n - 1, f);
      var fs := Map(FaceOf(), ds);
      assert forall i :: 0 <= i < n - 1 ==> fs[i] != fs[n - 1];
    }
  }

  /** What serving adds to the history: the data once to each waiting face and to nobody else, with an
      Interest that it matches for its cause, and as an upcall if the face is the client on this relay. */
  ghost predicate Served(faces: seq<Face>, pit: seq<PitEntry>, d: Data, more: seq<Action>) {
    && (forall i :: 0 <= i < |more| ==>
          && more[i].SentData? && more[i].data == d && Matches(more[i].cause, d)
          && (more[i].upcall <==> ToClient(faces, more[i].face)))
    && forall f :: Count(DataTo(f), more) == if WaitsFor(pit, d, f) then 1 else 0
  }

  lemma ServedIs(faces: seq<Face>, pit: seq<PitEntry>, d: Data)
    ensures Served(faces, pit, d, Map(Delivered(faces, d), Deliveries(pit, d)))
  {
    hide Matches, Distinct, Deliveries;
    var ds := Deliveries(pit, d);
    var more := Map(Delivered(faces, d), ds);
    ServesEachOnce(pit, d);
    forall i | 0 <= i < |more|
      ensures more[i].SentData? && more[i].data == d && Matches(more[i].cause, d)
      ensures more[i].upcall <==> ToClient(faces, more[i].face)
    {
      DeliveredFrom(pit, d, ds[i]);
    }
    forall f ensures Count(DataTo(f), more) == if WaitsFor(pit, d, f) then 1 else 0 {
      OnceEach(faces, d, ds, |ds|, f);
      assert f in FacesOf(ds) <==> Waits(pit, |pit|, d, f);
      if i :| 0 <= i < |ds| && ds[i].0 == f {
        assert ds[i] in ds;
      }
    }
  }

  lemma DeliveredFrom(pit: seq<PitEntry>, d: Data, x: Delivery)
    requires x in Deliveries(pit, d)
    ensures Matches(x.1, d)
  {
    DeliverySource(pit, |pit|, d, x);
  }

  lemma ServeOutcome(s: State, d: Data)
    ensures var s1 := ServePending(s, d);
            var pit := Filter(NotFor(d), s.pit);
            && s.log <= s1.log && Served(s.faces, s.pit, d, s1.log[|s.log|..])
            && s1 == s.(pit := pit, pitcnt := s.pitcnt - (|s.pit| - |pit|), served := s1.served, log := s1.log)
  {
    hide Served, Matches;
    ServedIs(s.faces, s.pit, d);
    FilterSame(Unanswered(d), NotFor(d), s.pit, |s.pit|);
    var more := Map(Delivered(s.faces, d), Deliveries(s.pit, d));
    assert (s.log + more)[|s.log|..] == more;
  }

  /** The first `n` elements without those that have occurred before. */
  function Firsts(s: seq<FaceId>, n: nat): seq<FaceId>
    requires n <= |s|
  {
    if n == 0 then [] else
      var front := Firsts(s, n - 1);
      if s[n - 1] in front then front else front + [s[n - 1]]
  }

  function IsFor(d: Data): PitEntry -> bool {
    (e: PitEntry) => Matches(e.pkt, d)
  }

  function WaitingIn(): PitEntry -> seq<FaceId> {
    (e: PitEntry) => e.pending
  }

  /** Who waits for the data, entry by entry and in the order of asking. */
  function Waiters(pit: seq<PitEntry>, n: nat, d: Data): seq<FaceId>
    requires n <= |pit|
  {
    FlatMap(WaitingIn(), Pass(Guard(IsFor(d)), pit, n))
  }

  /** Faces are served in that order, each where it occurs first. */
  lemma ServedInOrder(pit: seq<PitEntry>, d: Data)
    ensures var w := Waiters(pit, |pit|, d); Map(FaceOf(), Deliveries(pit, d)) == Firsts(w, |w|)
  {
    ServedInOrderTo(pit, |pit|, d);
  }

  lemma WaitersNext(pit: seq<PitEntry>, n: nat, d: Data)
    requires n <= |pit|
    ensures Waiters(pit, 0, d) == []
    ensures n < |pit| ==>
              Waiters(pit, n + 1, d) == Waiters(pit, n, d) + if Matches(pit[n].pkt, d) then pit[n].pending else []
  {
    hide Matches, FlatMap;
    PassUnfold(WaitingIn(), [], 0);
    if n < |pit| {
      var matching := Pass(Guard(IsFor(d)), pit, n);
      FlatMapAppend(WaitingIn(), matching, [pit[n]]);
      FlatMapOne(WaitingIn(), pit[n]);
      assert matching + [] == matching;
    }
  }

  lemma {:induction false} ServedInOrderTo(pit: seq<PitEntry>, n: nat, d: Data)
    requires n <= |pit|
    ensures var w := Waiters(pit, n, d); Map(FaceOf(), DeliveriesTo(pit, n, d)) == Firsts(w, |w|)
  {
    hide Matches, FlatMap, Pass, Waiters, FacesOf, EntryDeliveries;
    if n == 0 {
      WaitersNext(pit, 0, d);
    } else {
      ServedInOrderTo(pit, n - 1, d);
      WaitersNext(pit, n - 1, d);
      var e, front, w := pit[n - 1], DeliveriesTo(pit, n - 1, d), Waiters(pit, n - 1, d);
      if Matches(e.pkt, d) {
        EntryInOrder(e.pending, |e.pending|, e.pkt, front, w);
      } else {
        assert front + [] == front && w + [] == w;
      }
    }
  }

  lemma FirstsFront(w: seq<FaceId>, more: seq<FaceId>, n: nat)
    requires n <= |w|
    ensures Firsts(w + more, n) == Firsts(w, n)
  {
    if n > 0 {
      FirstsFront(w, more, n - 1);
    }
  }

  lemma InFaces(ds: seq<Delivery>, f: FaceId)
    ensures f in FacesOf(ds) <==> f in Map(FaceOf(), ds)
  {
    if x :| x in ds && x.0 == f {
      var i :| 0 <= i < |ds| && ds[i] == x;
      assert Map(FaceOf(), ds)[i] == f;
    }
    if f in Map(FaceOf(), ds) {
      var i :| 0 <= i < |ds| && ds[i].0 == f;
      assert ds[i] in ds;
    }
  }

  lemma {:induction false} EntryInOrder(pending: seq<FaceId>, n: nat, cause: Interest, front: seq<Delivery>,
                                        w: seq<FaceId>)
    requires n <= |pending| && Map(FaceOf(), front) == Firsts(w, |w|)
    ensures Map(FaceOf(), front + EntryDeliveries(pending, n, cause, FacesOf(front))) ==
            Firsts(w + pending, |w| + n)
  {
    hide FacesOf;
    if n == 0 {
      FirstsFront(w, pending, |w|);
      assert front + EntryDeliveries(pending, 0, cause, FacesOf(front)) == front;
    } else {
      EntryInOrder(pending, n - 1, cause, front, w);
      var more, f := EntryDeliveries(pending, n - 1, cause, FacesOf(front)), pending[n - 1];
      FacesOfAppend(front, more);
      InFaces(front + more, f);
      assert (w + pending)[|w| + n - 1] == f;
      MapAppend(FaceOf(), front + more, [(f, cause)]);
      AppendAssoc(front, more, [(f, cause)]);
    }
  }

  lemma AskedForIs(pit: seq<PitEntry>, d: Data)
    ensures Wanted(pit, d) <==> AskedFor(pit, d)
    ensures Count(Orphan(d), pit) > 0 <==> AskedByNobody(pit, d)
  {
    hide Matches;
    CountPositive(Orphan(d), pit, |pit|);
  }

  /** Data whose name is stored changes nothing. Other data is served; it is also cached if some request for it
      was pending, and pinned if nobody waited in such a request. */
  lemma DataOutcome(s: State, d: Data, now: U32)
    ensures HandleContent(s, d, now) ==
            if HasName(s.contents, d.name) then s
            else if AskedFor(s.pit, d) && s.maxCache != 0 then
              Add2Cache(ServePending(s, d), Content(d, AskedByNobody(s.pit, d), false, now))
            else ServePending(s, d)
  {
    hide Matches, ServePending, Add2Cache;
    AskedForIs(s.pit, d);
  }

  /** Data from the application is cached, pinned if a request for it was pending in which nobody waited, and
      served. */
  lemma HandedInOutcome(s: State, d: Data, now: U32)
    requires !HasName(s.contents, d.name)
    ensures var cached := Add2Cache(s, Content(d, false, false, now));
            var s1 := ServePending(cached, d);
            CsAdd(s, d, now) == s1.(contents :=
              if cached.contents != [] && cached.contents[0].data == d && AskedByNobody(s.pit, d)
              then [Content(d, true, false, now)] + cached.contents[1..] else cached.contents)
  {
    hide Matches, MakeRoom, Deliveries;
    AskedForIs(s.pit, d);
    var room := MakeRoom(s);
    forall i | 0 <= i < |room.contents| ensures room.contents[i].data.name != d.name {
      RoomFromOld(s, room.contents[i]);
    }
  }

  lemma StoredDataIgnored(s: State, d: Data, now: U32)
    requires HasName(s.contents, d.name)
    ensures CsAdd(s, d, now) == s
  {
  }

  // ---------------------------------------------------------------- a content is cached

  /** The list without the content at `k`, with a new one in front. */
  function InsteadOf(contents: seq<Content>, k: nat, c: Content): seq<Content>
    requires k < |contents|
  {
    [c] + contents[..k] + contents[k + 1..]
  }

  /** A content of a new name goes in front while the limit is not reached or there is none. At the limit it
      takes the place of one that is not static; if all are static it is admitted on top of the limit, once. */
  lemma CacheOutcome(s: State, c: Content)
    requires StoreOk(s) && !HasName(s.contents, c.data.name)
    ensures var s1 := Add2Cache(s, c);
            var allStatic := forall i :: 0 <= i < |s.contents| ==> s.contents[i].isStatic;
            && s1 == s.(contents := s1.contents, contentcnt := |s1.contents|)
            && (s.maxCache <= 0 || s.contentcnt < s.maxCache || (allStatic && s.contentcnt == s.maxCache) ==>
                  s1.contents == [c] + s.contents)
            && (s.maxCache > 0 && s.contentcnt >= s.maxCache && !allStatic ==>
                  exists k :: 0 <= k < |s.contents| && !s.contents[k].isStatic
                              && s1.contents == InsteadOf(s.contents, k, c))
            && (s.maxCache > 0 && s.contentcnt > s.maxCache && allStatic ==> s1.contents == s.contents)
  {
    hide Distinct;
    var pick := EvictScan(s.contents, |s.contents|).1;
    if pick.Some? {
      var rest := s.contents[..pick.value] + s.contents[pick.value + 1..];
      assert [c] + rest == InsteadOf(s.contents, pick.value, c);
    }
  }

  lemma CachedAlready(s: State, c: Content)
    requires HasName(s.contents, c.data.name)
    ensures Add2Cache(s, c) == s
  {
  }

  // ---------------------------------------------------------------- routes

  /** The route of a name is pointed to another face where it stands; a new one comes last. */
  lemma RouteAddOutcome(s: State, name: Name, face: FaceId, k: nat)
    requires k <= |s.fib| && (k < |s.fib| ==> s.fib[k].prefix == name)
    requires forall j :: 0 <= j < k ==> s.fib[j].prefix != name
    ensures FibAdd(s, name, face) ==
            s.(fib := if k < |s.fib| then s.fib[k := FibEntry(name, face)] else s.fib + [FibEntry(name, face)])
  {
    hide RouteAt;
    var i := RouteAt(s.fib, name);
    assert i <= k;
  }

  /** A route to that face of that name, or whichever of the two is given. */
  predicate Meant(r: FibEntry, name: Option<Name>, face: Option<FaceId>) {
    (name.Some? ==> r.prefix == name.value) && (face.Some? ==> r.face == face.value)
  }

  /** The first route meant goes, the others stay in their order; if none is, nothing changes. */
  lemma RouteDropOutcome(s: State, name: Option<Name>, face: Option<FaceId>, k: nat)
    requires k <= |s.fib| && (k < |s.fib| ==> Meant(s.fib[k], name, face))
    requires forall j :: 0 <= j < k ==> !Meant(s.fib[j], name, face)
    ensures FibRem(s, name, face) == if k < |s.fib| then s.(fib := s.fib[..k] + s.fib[k + 1..]) else s
  {
    hide SelectedAt;
    var i := SelectedAt(s.fib, name, face);
    assert i < k ==> Selected(s.fib[i], name, face);
    assert i <= k;
  }

  // ---------------------------------------------------------------- a face is looked up

  /** The face is reached through this interface and peer; no peer asks for the client on this relay. */
  predicate Reaches(f: Face, ifndx: int, peer: Option<Addr>) {
    if peer.None? then f.ifndx == -1 else ifndx != -1 && f.ifndx == ifndx && f.peer == peer
  }

  /** A face found is used again, a peer's being marked as used now. */
  lemma LookupFinds(s: State, ifndx: int, peer: Option<Addr>, now: U32, k: nat)
    requires k < |s.faces| && Reaches(s.faces[k], ifndx, peer)
    requires forall j :: 0 <= j < k ==> !Reaches(s.faces[j], ifndx, peer)
    ensures GetFace(s, ifndx, peer, now) ==
            (if peer.None? then s else s.(faces := s.faces[k := s.faces[k].(lastUsed := now)]), Some(s.faces[k].id))
  {
    hide FaceAt;
    var i := FaceAt(s.faces, ifndx, peer);
    assert i <= k;
  }

  /** Else a face is made: with a new id, the peer, the interface and the flags of the interface. */
  lemma LookupMakes(s: State, ifndx: int, peer: Option<Addr>, now: U32)
    requires forall j :: 0 <= j < |s.faces| ==> !Reaches(s.faces[j], ifndx, peer)
    ensures var (s1, r) := GetFace(s, ifndx, peer, now);
            if peer.Some? && ifndx == -1 && forall i :: i in s.ifs ==> i.family != peer.value.family then
              s1 == s && r == None
            else
              && |s1.faces| == |s.faces| + 1 && r == Some(s.seqno + 1)
              && var f := s1.faces[0];
              && s1 == s.(faces := [f] + s.faces, seqno := s.seqno + 1)
              && f.id == s.seqno + 1 && f.peer == peer && !f.isStatic && f.lastUsed == now
              && (peer.None? ==> f.ifndx == -1)
              && (peer.Some? && ifndx != -1 ==> f.ifndx == ifndx)
              && (peer.Some? && ifndx == -1 ==>
                    0 <= f.ifndx < |s.ifs| && s.ifs[f.ifndx].family == peer.value.family
                    && forall j :: 0 <= j < f.ifndx ==> s.ifs[j].family != peer.value.family)
              && (peer.Some? && 0 <= f.ifndx < |s.ifs| ==>
                    f.reflect == s.ifs[f.ifndx].reflect && f.fwdalli == s.ifs[f.ifndx].fwdalli)
  {
    hide FaceAt, FirstOfFamily;
    assert s.faces[..] == s.faces;
  }

  /** Looked up again through its interface, the same face is found. */
  lemma LookupAgain(s: State, ifndx: int, peer: Option<Addr>, now: U32, later: U32)
    requires GetFace(s, ifndx, peer, now).1.Some?
    ensures var (s1, r) := GetFace(s, ifndx, peer, now);
            exists f :: f in s1.faces && f.id == r.value && (peer.Some? ==> f.peer == peer)
                        && GetFace(s1, f.ifndx, peer, later).1 == r
  {
    hide FirstOfFamily;
    var (s1, r) := GetFace(s, ifndx, peer, now);
    var k := FaceAt(s.faces, ifndx, peer);
    var f := if k < |s.faces| then s1.faces[k] else s1.faces[0];
    if k < |s.faces| {
      assert forall j :: 0 <= j < k ==> !Reaches(s1.faces[j], f.ifndx, peer);
      LookupFinds(s1, f.ifndx, peer, later, k);
    } else {
      LookupFinds(s1, f.ifndx, peer, later, 0);
    }
    assert f in s1.faces;
  }

  /** Without an interface a peer is never found: each lookup makes one more face for it. */
  lemma LookupBlind(s: State, peer: Addr, now: U32)
    requires exists i :: i in s.ifs && i.family == peer.family
    ensures var s1 := GetFace(s, -1, Some(peer), now).0; |s1.faces| == |s.faces| + 1 && s1.faces[1..] == s.faces
  {
    hide FaceAt, FirstOfFamily, GetFace;
    LookupMakes(s, -1, Some(peer), now);
  }

  // ---------------------------------------------------------------- faces are removed

  function Outside(gone: set<FaceId>): FaceId -> bool {
    (f: FaceId) => f !in gone
  }

  function FaceOutside(gone: set<FaceId>): Face -> bool {
    (f: Face) => f.id !in gone
  }

  function RouteOutside(gone: set<FaceId>): FibEntry -> bool {
    (r: FibEntry) => r.face !in gone
  }

  /** Some face outside `gone` waits. */
  predicate StillAsked(e: PitEntry, gone: set<FaceId>) {
    exists f :: f in e.pending && f !in gone
  }

  function AskedBeyond(gone: set<FaceId>): PitEntry -> bool {
    (e: PitEntry) => StillAsked(e, gone)
  }

  /** An entry without the faces in `gone`: the other waiters stay in their order, and so does the face it
      came from. */
  function Struck(e: PitEntry, gone: set<FaceId>): PitEntry {
    PitEntry(e.pkt, if e.from.Some? && e.from.value in gone then None else e.from, Filter(Outside(gone), e.pending),
             e.lifetime, e.lastUsed, e.retries)
  }

  function StruckBy(gone: set<FaceId>): PitEntry -> PitEntry {
    (e: PitEntry) => Struck(e, gone)
  }

  lemma StripIs(e: PitEntry, gone: set<FaceId>)
    ensures Strip(e, gone) == if StillAsked(e, gone) then [Struck(e, gone)] else []
  {
    FilterSame(Keeps(gone), Outside(gone), e.pending, |e.pending|);
    var left := Filter(Outside(gone), e.pending);
    if f :| f in e.pending && f !in gone {
      FilterMember(Outside(gone), e.pending, f);
    }
    if left != [] {
      FilterMember(Outside(gone), e.pending, left[0]);
    }
  }

  /** Faces, routes and waiters outside `gone` stay in their order, those in it go; an entry stays exactly if
      some waiter does. Nothing else changes. */
  lemma RemovalOutcome(s: State, gone: set<FaceId>)
    requires gone != {}
    ensures var pit := Map(StruckBy(gone), Filter(AskedBeyond(gone), s.pit));
            RemoveFaces(s, gone) ==
            s.(faces := Filter(FaceOutside(gone), s.faces), fib := Filter(RouteOutside(gone), s.fib), pit := pit,
               pitcnt := s.pitcnt - (|s.pit| - |pit|), served := s.served - gone)
  {
    hide Strip, Struck, StillAsked;
    FilterSame(FaceKept(gone), FaceOutside(gone), s.faces, |s.faces|);
    FilterSame(RouteKept(gone), RouteOutside(gone), s.fib, |s.fib|);
    forall i | 0 <= i < |s.pit|
      ensures Stripped(gone)(s.pit[i]) == if AskedBeyond(gone)(s.pit[i]) then [StruckBy(gone)(s.pit[i])] else []
    {
      StripIs(s.pit[i], gone);
    }
    PassMapped(Stripped(gone), AskedBeyond(gone), StruckBy(gone), s.pit, |s.pit|);
  }

  /** What that means for a single face, route, waiter and entry. */
  lemma RemovalMembers(s: State, gone: set<FaceId>)
    requires gone != {}
    ensures forall x :: x in RemoveFaces(s, gone).faces <==> x in s.faces && x.id !in gone
    ensures forall r :: r in RemoveFaces(s, gone).fib <==> r in s.fib && r.face !in gone
    ensures forall e :: e in s.pit && StillAsked(e, gone) ==> Struck(e, gone) in RemoveFaces(s, gone).pit
    ensures forall e1 :: e1 in RemoveFaces(s, gone).pit ==>
                           exists e :: e in s.pit && StillAsked(e, gone) && e1 == Struck(e, gone)
  {
    hide StillAsked, Struck, Filter, RemoveFaces;
    RemovalOutcome(s, gone);
    forall x ensures x in Filter(FaceOutside(gone), s.faces) <==> x in s.faces && x.id !in gone {
      FilterMember(FaceOutside(gone), s.faces, x);
    }
    forall r ensures r in Filter(RouteOutside(gone), s.fib) <==> r in s.fib && r.face !in gone {
      FilterMember(RouteOutside(gone), s.fib, r);
    }
    var live := Filter(AskedBeyond(gone), s.pit);
    forall e | e in s.pit && StillAsked(e, gone) ensures Struck(e, gone) in Map(StruckBy(gone), live) {
      FilterMember(AskedBeyond(gone), s.pit, e);
      var i :| 0 <= i < |live| && live[i] == e;
      assert Map(StruckBy(gone), live)[i] == Struck(e, gone);
    }
    forall e1 | e1 in Map(StruckBy(gone), live)
      ensures exists e :: e in s.pit && StillAsked(e, gone) && e1 == Struck(e, gone)
    {
      var i :| 0 <= i < |live| && Map(StruckBy(gone), live)[i] == e1;
      FilterMember(AskedBeyond(gone), s.pit, live[i]);
    }
  }

  lemma StruckWaits(e: PitEntry, gone: set<FaceId>, f: FaceId)
    ensures f in Struck(e, gone).pending <==> f in e.pending && f !in gone
  {
    FilterMember(Outside(gone), e.pending, f);
  }

  /** Every entry has a waiter, and neither entries nor routes name a face in `gone`. */
  ghost predicate Apart(s: State, gone: set<FaceId>) {
    && (forall r :: r in s.fib ==> r.face !in gone)
    && forall e :: e in s.pit ==>
                     e.pending != [] && (e.from.Some? ==> e.from.value !in gone)
                     && forall f :: f in e.pending ==> f !in gone
  }

  /** Such tables are left as they were. */
  lemma RemovalLeaves(s: State, gone: set<FaceId>)
    requires Apart(s, gone)
    ensures var s1 := RemoveFaces(s, gone); s1.pit == s.pit && s1.fib == s.fib && s1.pitcnt == s.pitcnt
  {
    hide RemoveFaces, Filter;
    if gone == {} {
      RemovesNone(s);
    } else {
      RemovalOutcome(s, gone);
      forall i | 0 <= i < |s.pit| ensures StillAsked(s.pit[i], gone) && Struck(s.pit[i], gone) == s.pit[i] {
        assert s.pit[i] in s.pit && s.pit[i].pending[0] in s.pit[i].pending;
        FilterAll(Outside(gone), s.pit[i].pending);
      }
      FilterAll(AskedBeyond(gone), s.pit);
      FilterAll(RouteOutside(gone), s.fib);
    }
  }

  lemma RemovesNone(s: State)
    ensures RemoveFaces(s, {}) == s
  {
  }

  // ---------------------------------------------------------------- the clock ticks

  /** Before its end of life, and repeated fewer than seven times. */
  predicate Lives(e: PitEntry, t: U32) {
    t < (e.lastUsed + e.lifetime) % 0x1_0000_0000 && e.retries < 7
  }

  function Living(t: U32): PitEntry -> bool {
    (e: PitEntry) => Lives(e, t)
  }

  function Retried(): PitEntry -> PitEntry {
    (e: PitEntry) => e.(retries := e.retries + 1)
  }

  function SendsOf(faces: seq<Face>, fib: seq<FibEntry>): PitEntry -> seq<Action> {
    (e: PitEntry) => Sends(faces, e, fib)
  }

  /** Entries that live on are sent once more along every route that fits, in their order, and have one
      retry more; the others go unsent. */
  lemma PendingAged(s: State, t: U32)
    ensures var live := Filter(Living(t), s.pit);
            AgeInterests(s, t) ==
            s.(pit := Map(Retried(), live), pitcnt := s.pitcnt - (|s.pit| - |live|),
               log := s.log + FlatMap(SendsOf(s.faces, s.fib), live))
  {
    hide Sends;
    forall i | 0 <= i < |s.pit|
      ensures Resent(s.fib, s.faces, t)(s.pit[i]) ==
              if Living(t)(s.pit[i]) then SendsOf(s.faces, s.fib)(s.pit[i]) else []
      ensures AgedInterest(t)(s.pit[i]) == if Living(t)(s.pit[i]) then [Retried()(s.pit[i])] else []
    {
      ForwardedIsSends(s.faces, s.pit[i], s.fib);
    }
    PassMapped(AgedInterest(t), Living(t), Retried(), s.pit, |s.pit|);
    PassFiltered(Resent(s.fib, s.faces, t), Living(t), SendsOf(s.faces, s.fib), s.pit, |s.pit|);
  }

  predicate KeptContent(c: Content, t: U32) {
    c.isStatic || t < (c.lastUsed + 300) % 0x1_0000_0000
  }

  function KeptAt(t: U32): Content -> bool {
    (c: Content) => KeptContent(c, t)
  }

  predicate Fresh(c: Content, t: U32) {
    c.isStatic || t < (c.lastUsed + c.data.freshnessMs / 1000) % 0x1_0000_0000_0000_0000
  }

  function Marked(t: U32): Content -> Content {
    (c: Content) => if Fresh(c, t) then c else c.(stale := true)
  }

  /** Contents that are not static go after 300 seconds; of the others, those past their freshness are
      marked, and nothing else about them changes. */
  lemma StoreAged(s: State, t: U32)
    ensures var contents := Map(Marked(t), Filter(KeptAt(t), s.contents));
            AgeContents(s, t) ==
            s.(contents := contents, contentcnt := s.contentcnt - (|s.contents| - |contents|))
  {
    PassMapped(AgedContent(t), KeptAt(t), Marked(t), s.contents, |s.contents|);
  }

  predicate TimedOut(f: Face, t: U32) {
    !f.isStatic && (f.lastUsed + 30) % 0x1_0000_0000 <= t
  }

  /** The faces that a tick removes. */
  ghost function Leaving(faces: seq<Face>, t: U32): set<FaceId> {
    set f | f in faces && TimedOut(f, t) :: f.id
  }

  lemma {:induction false} ExpiredAre(faces: seq<Face>, n: nat, t: U32)
    requires n <= |faces|
    ensures forall id :: id in ExpiredTo(faces, n, t) <==>
                           exists i :: 0 <= i < n && TimedOut(faces[i], t) && faces[i].id == id
  {
    if n > 0 {
      ExpiredAre(faces, n - 1, t);
    }
  }

  lemma LeavingIs(faces: seq<Face>, t: U32)
    ensures ExpiredFaces(faces, t) == Leaving(faces, t)
  {
    hide TimedOut, ExpiredTo;
    ExpiredAre(faces, |faces|, t);
  }

  /** A tick: contents, then pending Interests, then faces with everything that names them. */
  lemma AgeOutcome(s: State, t: U32)
    ensures var live := Filter(Living(t), s.pit);
            var contents := Map(Marked(t), Filter(KeptAt(t), s.contents));
            Age(s, t) == RemoveFaces(
              s.(contents := contents, contentcnt := s.contentcnt - (|s.contents| - |contents|),
                 pit := Map(Retried(), live), pitcnt := s.pitcnt - (|s.pit| - |live|),
                 log := s.log + FlatMap(SendsOf(s.faces, s.fib), live)),
              Leaving(s.faces, t))
  {
    hide AgeContents, AgeInterests, RemoveFaces, Living, KeptAt, Marked, Leaving;
    StoreAged(s, t);
    PendingAged(AgeContents(s, t), t);
    LeavingIs(s.faces, t);
  }

  /** A face goes exactly if it is not static and has not been used for 30 seconds. */
  lemma FacesAged(s: State, t: U32)
    requires DistinctIds(s.faces)
    ensures forall x :: x in Age(s, t).faces <==> x in s.faces && !TimedOut(x, t)
  {
    hide Age, RemoveFaces, TimedOut;
    AgeOutcome(s, t);
    var gone := Leaving(s.faces, t);
    forall x | x in s.faces
      ensures x.id in gone <==> TimedOut(x, t)
    {
      if y :| y in s.faces && TimedOut(y, t) && y.id == x.id {
        SameFace(s.faces, x, y);
      }
    }
    AgedFaces(s, t);
  }

  lemma SameFace(faces: seq<Face>, x: Face, y: Face)
    requires DistinctIds(faces) && x in faces && y in faces && x.id == y.id
    ensures x == y
  {
    var ids := Map(IdOf(), faces);
    var i :| 0 <= i < |faces| && faces[i] == x;
    var j :| 0 <= j < |faces| && faces[j] == y;
    assert ids[i] == ids[j];
  }

  lemma AgedFaces(s: State, t: U32)
    ensures forall x :: x in Age(s, t).faces <==> x in s.faces && x.id !in Leaving(s.faces, t)
  {
    hide Age, RemoveFaces, Leaving, Living, KeptAt, Marked;
    AgeOutcome(s, t);
    var gone := Leaving(s.faces, t);
    var s2 := AgeInterests(AgeContents(s, t), t);
    LeavingIs(s.faces, t);
    if gone == {} {
      RemovesNone(s2);
    } else {
      RemovalMembers(s2, gone);
    }
    AgeIs(s, t);
  }

  lemma AgeIs(s: State, t: U32)
    ensures var s2 := AgeInterests(AgeContents(s, t), t);
            s2.faces == s.faces && Age(s, t) == RemoveFaces(s2, ExpiredFaces(s.faces, t))
  {
  }
}
