/**
 What every operation keeps, ageing and face removal included: no table points at a face that is
 gone, counters equal list lengths, limits hold, and no table holds the same thing twice.
 */
module Structure {
  import opened Base
  import opened Names
  import opened RelayState

  function PitKey(): PitEntry -> Key {
    (e: PitEntry) => KeyOf(e.pkt)
  }

  function ContentName(): Content -> Name {
    (c: Content) => c.data.name
  }

  function RoutePrefix(): FibEntry -> Name {
    (r: FibEntry) => r.prefix
  }

  function IsPinned(): Content -> bool {
    (c: Content) => c.isStatic
  }

  /** Faces have ids of their own, all handed out already. */
  ghost predicate FacesOk(s: State) {
    && DistinctIds(s.faces)
    && (forall i :: 0 <= i < |s.faces| ==> s.faces[i].id <= s.seqno)
    && (forall f :: f in s.served ==> HasFace(s.faces, f))
  }

  /** Every route leads to a face the relay has, and there is one route per name. */
  ghost predicate FibOk(s: State) {
    && (forall i :: 0 <= i < |s.fib| ==> HasFace(s.faces, s.fib[i].face))
    && Distinct(Map(RoutePrefix(), s.fib))
  }

  ghost predicate EntryOk(faces: seq<Face>, e: PitEntry) {
    && (e.from.Some? ==> HasFace(faces, e.from.value))
    && (forall i :: 0 <= i < |e.pending| ==> HasFace(faces, e.pending[i]))
    && Distinct(e.pending)
    && e.retries <= MAX_RETRANSMIT
  }

  /** Entries point at live faces, list no face twice, and stand for different requests; the counter
      is right and the limit holds. */
  ghost predicate PitOk(s: State) {
    && (forall i :: 0 <= i < |s.pit| ==> EntryOk(s.faces, s.pit[i]))
    && Distinct(Map(PitKey(), s.pit))
    && s.pitcnt == |s.pit|
    && (s.maxPit >= 0 ==> s.pitcnt <= s.maxPit)
    && (s.maxPit < -1 ==> s.pitcnt == 0)
  }

  /** Stored names differ, the counter is right, and the store is over its limit by at most one,
      which takes at least as many static entries as the limit. */
  ghost predicate StoreOk(s: State) {
    && Distinct(Map(ContentName(), s.contents))
    && s.contentcnt == |s.contents|
    && (s.maxCache > 0 ==>
          s.contentcnt <= s.maxCache + 1
          && (s.contentcnt == s.maxCache + 1 ==> Count(IsPinned(), s.contents) >= s.maxCache))
  }

  ghost predicate NoncesOk(s: State) {
    Distinct(s.nonces) && |s.nonces| <= MAX_NONCES
  }

  ghost predicate Ok(s: State) {
    FacesOk(s) && FibOk(s) && PitOk(s) && StoreOk(s) && NoncesOk(s)
  }

  lemma EmptyOk(s: State)
    requires IsEmpty(s)
    ensures Ok(s)
  {
  }

  // ---------------------------------------------------------------- faces come and go

  lemma HasFaceAt(faces: seq<Face>, k: nat)
    requires k < |faces|
    ensures HasFace(faces, faces[k].id)
  {
    assert faces[k] in faces;
  }

  lemma TouchKeeps(s: State, k: nat, now: U32)
    requires FacesOk(s) && k < |s.faces|
    ensures var s1 := s.(faces := s.faces[k := s.faces[k].(lastUsed := now)]);
            FacesOk(s1) && forall id :: HasFace(s.faces, id) ==> HasFace(s1.faces, id)
  {
    hide Distinct, HasFace;
    var s1 := s.(faces := s.faces[k := s.faces[k].(lastUsed := now)]);
    assert Map(IdOf(), s1.faces) == Map(IdOf(), s.faces);
    FacesGrow(s.faces, s1.faces, 0);
  }

  lemma NewFaceKeeps(s: State, f: Face)
    requires FacesOk(s) && f.id == s.seqno + 1
    ensures var s1 := s.(faces := [f] + s.faces, seqno := f.id);
            FacesOk(s1) && forall id :: HasFace(s.faces, id) ==> HasFace(s1.faces, id)
  {
    hide Distinct, HasFace;
    var s1 := s.(faces := [f] + s.faces, seqno := f.id);
    DistinctCons(f.id, Map(IdOf(), s.faces));
    assert Map(IdOf(), s1.faces) == [f.id] + Map(IdOf(), s.faces);
    FacesGrow(s.faces, s1.faces, 1);
  }

  lemma GetFaceKeepsFaces(s: State, ifndx: int, peer: Option<Addr>, now: U32)
    requires FacesOk(s)
    ensures FacesOk(GetFace(s, ifndx, peer, now).0)
    ensures var (s1, r) := GetFace(s, ifndx, peer, now); r.Some? ==> HasFace(s1.faces, r.value)
    ensures forall id :: HasFace(s.faces, id) ==> HasFace(GetFace(s, ifndx, peer, now).0.faces, id)
  {
    hide FacesOk, HasFace, IsFaceFor, FaceAt, PickIface;
    var (s1, r) := GetFace(s, ifndx, peer, now);
    var k := FaceAt(s.faces, ifndx, peer);
    if k < |s.faces| {
      TouchKeeps(s, k, now);
      HasFaceAt(s1.faces, k);
    } else if s1 != s {
      NewFaceKeeps(s, s1.faces[0]);
      HasFaceAt(s1.faces, 0);
    }
  }

  lemma FacesGrow(faces: seq<Face>, faces1: seq<Face>, shift: nat)
    requires |faces1| == |faces| + shift
    requires forall i :: 0 <= i < |faces| ==> faces1[i + shift].id == faces[i].id
    ensures forall id :: HasFace(faces, id) ==> HasFace(faces1, id)
  {
    forall id | HasFace(faces, id) ensures HasFace(faces1, id) {
      var f :| f in faces && f.id == id;
      var i :| 0 <= i < |faces| && faces[i] == f;
      assert faces1[i + shift] in faces1;
    }
  }

  lemma GetFaceKeeps(s: State, ifndx: int, peer: Option<Addr>, now: U32)
    requires Ok(s)
    ensures Ok(GetFace(s, ifndx, peer, now).0)
  {
    hide Distinct, FacesOk, HasFace;
    GetFaceKeepsFaces(s, ifndx, peer, now);
  }

  lemma StillThere(faces: seq<Face>, gone: set<FaceId>, id: FaceId)
    requires HasFace(faces, id) && id !in gone
    ensures HasFace(Filter(FaceKept(gone), faces), id)
  {
    var f :| f in faces && f.id == id;
    FilterMember(FaceKept(gone), faces, f);
  }

  /** A stripped entry is sound for the faces that remain. */
  lemma StripOk(faces: seq<Face>, e: PitEntry, gone: set<FaceId>)
    requires EntryOk(faces, e)
    ensures EntryOk(Filter(FaceKept(gone), faces), Without(e, gone))
  {
    var e1, left := Without(e, gone), Filter(FaceKept(gone), faces);
    forall i | 0 <= i < |e1.pending| ensures HasFace(left, e1.pending[i]) {
      FilterMember(Keeps(gone), e.pending, e1.pending[i]);
      var j :| 0 <= j < |e.pending| && e.pending[j] == e1.pending[i];
      StillThere(faces, gone, e1.pending[i]);
    }
    FilterDistinct(Keeps(gone), e.pending);
    if e1.from.Some? {
      StillThere(faces, gone, e1.from.value);
    }
  }

  function Same(): FaceId -> FaceId {
    (id: FaceId) => id
  }

  lemma FilterDistinct(p: FaceId -> bool, s: seq<FaceId>)
    requires Distinct(s)
    ensures Distinct(Filter(p, s))
  {
    assert Map(Same(), s) == s;
    PassDistinct(Guard(p), Same(), s, |s|);
    assert Map(Same(), Filter(p, s)) == Filter(p, s);
  }

  lemma RemoveFacesKeeps(s: State, gone: set<FaceId>)
    requires Ok(s)
    ensures Ok(RemoveFaces(s, gone))
  {
    if gone != {} {
      RemoveFacesKeepsFaces(s, gone);
      RemoveFacesKeepsFib(s, gone);
      RemoveFacesKeepsPit(s, gone);
    }
  }

  lemma RemoveFacesKeepsFaces(s: State, gone: set<FaceId>)
    requires Ok(s)
    ensures FacesOk(RemoveFaces(s, gone))
  {
    var s1 := RemoveFaces(s, gone);
    if gone != {} {
      PassDistinct(Guard(FaceKept(gone)), IdOf(), s.faces, |s.faces|);
      forall i | 0 <= i < |s1.faces| ensures s1.faces[i].id <= s1.seqno {
        FilterMember(FaceKept(gone), s.faces, s1.faces[i]);
        var j :| 0 <= j < |s.faces| && s.faces[j] == s1.faces[i];
      }
      forall f | f in s1.served ensures HasFace(s1.faces, f) {
        StillThere(s.faces, gone, f);
      }
    }
  }

  lemma RemoveFacesKeepsFib(s: State, gone: set<FaceId>)
    requires Ok(s)
    ensures FibOk(RemoveFaces(s, gone))
  {
    var s1 := RemoveFaces(s, gone);
    if gone != {} {
      PassDistinct(Guard(RouteKept(gone)), RoutePrefix(), s.fib, |s.fib|);
      forall i | 0 <= i < |s1.fib| ensures HasFace(s1.faces, s1.fib[i].face) {
        FilterMember(RouteKept(gone), s.fib, s1.fib[i]);
        var j :| 0 <= j < |s.fib| && s.fib[j] == s1.fib[i];
        StillThere(s.faces, gone, s1.fib[i].face);
      }
    }
  }

  lemma RemoveFacesKeepsPit(s: State, gone: set<FaceId>)
    requires Ok(s)
    ensures PitOk(RemoveFaces(s, gone))
  {
    hide Distinct, EntryOk, FacesOk, FibOk, StoreOk, NoncesOk, HasFace, Keeps, FaceKept, Filter;
    var s1 := RemoveFaces(s, gone);
    if gone != {} {
      PassDistinct(Stripped(gone), PitKey(), s.pit, |s.pit|);
      PassShrinks(Stripped(gone), s.pit, |s.pit|);
      forall i | 0 <= i < |s1.pit| ensures EntryOk(s1.faces, s1.pit[i]) {
        PassMember(Stripped(gone), s.pit, |s.pit|, s1.pit[i]);
        var j :| 0 <= j < |s.pit| && s1.pit[i] in Strip(s.pit[j], gone);
        StripOk(s.faces, s.pit[j], gone);
      }
    }
  }

  // ---------------------------------------------------------------- routes

  lemma FibAddKeeps(s: State, name: Name, face: FaceId)
    requires Ok(s) && HasFace(s.faces, face)
    ensures Ok(FibAdd(s, name, face))
  {
    hide Distinct, HasFace;
    var fib, fib1 := s.fib, FibAdd(s, name, face).fib;
    var k := RouteAt(fib, name);
    var keys, keys1 := Map(RoutePrefix(), fib), Map(RoutePrefix(), fib1);
    if k < |fib| {
      assert keys1 == keys;
    } else {
      DistinctCons(name, keys);
      assert keys1 == keys + [name];
    }
  }

  lemma FibRemKeeps(s: State, name: Option<Name>, face: Option<FaceId>)
    requires Ok(s)
    ensures Ok(FibRem(s, name, face))
  {
    var k := SelectedAt(s.fib, name, face);
    if k < |s.fib| {
      DistinctDrop(RoutePrefix(), s.fib, k);
    }
  }

  // ---------------------------------------------------------------- Interests

  lemma RememberKeeps(nonces: seq<Bytes>, n: Bytes)
    requires Distinct(nonces) && |nonces| <= MAX_NONCES && n !in nonces
    ensures Distinct(Remember(nonces, n)) && |Remember(nonces, n)| <= MAX_NONCES
  {
  }

  lemma EnterKeeps(s: State, from: Option<FaceId>, p: Interest, now: U32)
    requires Ok(s) && (from.None? || HasFace(s.faces, from.value))
    ensures Ok(Enter(s, from, p, now))
  {
    hide Distinct, EntryOk, Enter, HasFace, PitOk;
    EnterKeepsPit(s, from, p, now);
    EnterKeepsRest(s, from, p, now);
  }

  lemma EnterKeepsPit(s: State, from: Option<FaceId>, p: Interest, now: U32)
    requires PitOk(s) && (from.None? || HasFace(s.faces, from.value))
    ensures PitOk(Enter(s, from, p, now))
  {
    hide Distinct, EntryOk, Propagate, HasFace;
    var s1 := Enter(s, from, p, now);
    var k := SameAt(s.pit, p);
    var keys := Map(PitKey(), s.pit);
    if p.scope > 2 && k < |s.pit| {
      assert Map(PitKey(), s1.pit) == keys;
      AppendOk(s.faces, s.pit[k], from);
    } else if p.scope > 2 && !PitFull(s) {
      var e := AppendPending(NewEntry(p, from, now), from);
      PropagateOnlyLogs(s.(pit := [e] + s.pit, pitcnt := s.pitcnt + 1), e);
      DistinctCons(KeyOf(p), keys);
      assert Map(PitKey(), [e] + s.pit) == [KeyOf(p)] + keys;
      NewEntryOk(s.faces, p, from, now);
      AppendOk(s.faces, NewEntry(p, from, now), from);
    }
  }

  lemma PropagateOnlyLogs(s: State, e: PitEntry)
    ensures Propagate(s, e) == s.(log := Propagate(s, e).log)
  {
  }

  lemma EnterKeepsRest(s: State, from: Option<FaceId>, p: Interest, now: U32)
    ensures var s1 := Enter(s, from, p, now);
            s1 == s.(pit := s1.pit, pitcnt := s1.pitcnt, log := s1.log)
  {
  }

  lemma NewEntryOk(faces: seq<Face>, p: Interest, from: Option<FaceId>, now: U32)
    requires from.None? || HasFace(faces, from.value)
    ensures EntryOk(faces, NewEntry(p, from, now))
  {
  }

  lemma AppendOk(faces: seq<Face>, e: PitEntry, from: Option<FaceId>)
    requires EntryOk(faces, e) && (from.None? || HasFace(faces, from.value))
    ensures EntryOk(faces, AppendPending(e, from))
  {
  }

  lemma HandleInterestKeeps(s: State, from: Option<FaceId>, p: Interest, now: U32)
    requires Ok(s) && (from.None? || HasFace(s.faces, from.value))
    ensures Ok(HandleInterest(s, from, p, now))
  {
    hide Distinct, Enter, HitAt, Remember, HasFace;
    if !IsDup(s, p) {
      var s1 := Noted(Heard(s, from, p, true), p);
      if p.nonce.Some? {
        RememberKeeps(s.nonces, p.nonce.value);
      }
      assert Ok(s1);
      EnterKeeps(s1, from, p, now);
    }
  }

  // ---------------------------------------------------------------- Data

  lemma ServePendingKeeps(s: State, d: Data)
    requires Ok(s)
    ensures Ok(ServePending(s, d))
  {
    var s1 := ServePending(s, d);
    PassDistinct(Guard(Unanswered(d)), PitKey(), s.pit, |s.pit|);
    PassShrinks(Guard(Unanswered(d)), s.pit, |s.pit|);
    forall i | 0 <= i < |s1.pit| ensures EntryOk(s1.faces, s1.pit[i]) {
      FilterMember(Unanswered(d), s.pit, s1.pit[i]);
      var j :| 0 <= j < |s.pit| && s.pit[j] == s1.pit[i];
    }
    forall f | f in s1.served ensures HasFace(s1.faces, f) {
      var x :| x in Deliveries(s.pit, d) && x.0 == f;
      DeliverySource(s.pit, |s.pit|, d, x);
    }
  }

  /** A delivery goes to a face that waits in a matching entry, which is its cause. */
  lemma {:induction false} DeliverySource(pit: seq<PitEntry>, n: nat, d: Data, x: Delivery)
    requires n <= |pit| && x in DeliveriesTo(pit, n, d)
    ensures exists i :: 0 <= i < n && Matches(pit[i].pkt, d) && x.1 == pit[i].pkt && x.0 in pit[i].pending
  {
    var front := DeliveriesTo(pit, n - 1, d);
    if x in front {
      DeliverySource(pit, n - 1, d, x);
    } else {
      var e := pit[n - 1];
      EntrySource(e.pending, |e.pending|, e.pkt, FacesOf(front), x);
    }
  }

  lemma {:induction false} EntrySource(pending: seq<FaceId>, n: nat, cause: Interest, done: set<FaceId>, x: Delivery)
    requires n <= |pending| && x in EntryDeliveries(pending, n, cause, done)
    ensures x.1 == cause && x.0 in pending && x.0 !in done
  {
    if x in EntryDeliveries(pending, n - 1, cause, done) {
      EntrySource(pending, n - 1, cause, done, x);
    }
  }

  lemma MakeRoomKeeps(s: State)
    requires Ok(s)
    ensures Ok(MakeRoom(s)) && MakeRoom(s).maxCache == s.maxCache
    ensures s.maxCache > 0 ==>
              MakeRoom(s).contentcnt < s.maxCache || Count(IsPinned(), MakeRoom(s).contents) >= s.maxCache
  {
    var pick := EvictScan(s.contents, |s.contents|).1;
    if s.maxCache > 0 && s.contentcnt >= s.maxCache {
      if pick.Some? {
        DistinctDrop(ContentName(), s.contents, pick.value);
        DropUnpinned(s.contents, pick.value);
      } else {
        CountAll(s.contents, |s.contents|);
      }
    }
  }

  lemma DropUnpinned(contents: seq<Content>, k: nat)
    requires k < |contents| && !contents[k].isStatic
    ensures Count(IsPinned(), contents[..k] + contents[k + 1..]) == Count(IsPinned(), contents)
  {
    assert contents == contents[..k] + ([contents[k]] + contents[k + 1..]);
    CountAppend(IsPinned(), contents[..k], [contents[k]] + contents[k + 1..]);
    CountAppend(IsPinned(), [contents[k]], contents[k + 1..]);
    CountOne(IsPinned(), contents[k]);
    CountAppend(IsPinned(), contents[..k], contents[k + 1..]);
  }

  lemma {:induction false} CountAll(contents: seq<Content>, n: nat)
    requires n <= |contents| && forall i :: 0 <= i < |contents| ==> contents[i].isStatic
    ensures CountTo(IsPinned(), contents, n) == n
  {
    if n > 0 {
      CountAll(contents, n - 1);
    }
  }

  lemma Add2CacheKeeps(s: State, c: Content)
    requires Ok(s)
    ensures Ok(Add2Cache(s, c))
  {
    hide Distinct, MakeRoom;
    if !Stored(s.contents, c.data.name) {
      var room, s1 := MakeRoom(s), Add2Cache(s, c);
      MakeRoomKeeps(s);
      if Admits(room) {
        var keys := Map(ContentName(), room.contents);
        assert Map(ContentName(), s1.contents) == [c.data.name] + keys;
        forall i | 0 <= i < |keys| ensures keys[i] != c.data.name {
          RoomFromOld(s, room.contents[i]);
        }
        DistinctCons(c.data.name, keys);
        CountAppend(IsPinned(), [c], room.contents);
        CountOne(IsPinned(), c);
      }
    }
  }

  lemma RoomFromOld(s: State, c: Content)
    requires c in MakeRoom(s).contents
    ensures c in s.contents
  {
  }

  lemma HandleContentKeeps(s: State, d: Data, now: U32)
    requires Ok(s)
    ensures Ok(HandleContent(s, d, now))
  {
    if !Stored(s.contents, d.name) {
      ServePendingKeeps(s, d);
      Add2CacheKeeps(ServePending(s, d), Content(d, Count(Orphan(d), s.pit) > 0, false, now));
    }
  }

  lemma CsAddKeeps(s: State, d: Data, now: U32)
    requires Ok(s)
    ensures Ok(CsAdd(s, d, now))
  {
    if !Stored(s.contents, d.name) {
      var s1 := Add2Cache(s, Content(d, false, false, now));
      Add2CacheKeeps(s, Content(d, false, false, now));
      ServePendingKeeps(s1, d);
      PinKeeps(ServePending(s1, d));
    }
  }

  lemma PinKeeps(s: State)
    requires StoreOk(s)
    ensures StoreOk(PinFirst(s))
  {
    hide Distinct;
    if s.contents != [] {
      var c, rest, s1 := s.contents[0], s.contents[1..], PinFirst(s);
      assert s.contents == [c] + rest && s1.contents == [c.(isStatic := true)] + rest;
      assert Map(ContentName(), s1.contents) == Map(ContentName(), s.contents);
      CountAppend(IsPinned(), [c], rest);
      CountAppend(IsPinned(), [c.(isStatic := true)], rest);
      CountOne(IsPinned(), c);
      CountOne(IsPinned(), c.(isStatic := true));
    }
  }

  // ---------------------------------------------------------------- ageing

  lemma AgeContentsKeeps(s: State, t: U32)
    requires Ok(s)
    ensures Ok(AgeContents(s, t))
  {
    var s1 := AgeContents(s, t);
    PassDistinct(AgedContent(t), ContentName(), s.contents, |s.contents|);
    PassShrinks(AgedContent(t), s.contents, |s.contents|);
    PinnedStay(s.contents, |s.contents|, t);
  }

  lemma {:induction false} PinnedStay(contents: seq<Content>, n: nat, t: U32)
    requires n <= |contents|
    ensures Count(IsPinned(), Pass(AgedContent(t), contents, n)) == CountTo(IsPinned(), contents, n)
  {
    if n > 0 {
      PinnedStay(contents, n - 1, t);
      var c := contents[n - 1];
      CountAppend(IsPinned(), Pass(AgedContent(t), contents, n - 1), AgeContent(c, t));
      CountOne(IsPinned(), c);
      CountOne(IsPinned(), c.(stale := true));
    }
  }

  lemma AgeInterestsKeeps(s: State, t: U32)
    requires Ok(s)
    ensures Ok(AgeInterests(s, t))
  {
    hide Distinct, EntryOk, HasFace, Add32, InterestExpired;
    var s1 := AgeInterests(s, t);
    PassDistinct(AgedInterest(t), PitKey(), s.pit, |s.pit|);
    PassShrinks(AgedInterest(t), s.pit, |s.pit|);
    forall i | 0 <= i < |s1.pit| ensures EntryOk(s1.faces, s1.pit[i]) {
      PassMember(AgedInterest(t), s.pit, |s.pit|, s1.pit[i]);
      var j :| 0 <= j < |s.pit| && s1.pit[i] in AgeInterest(s.pit[j], t);
      AgedOk(s.faces, s.pit[j], t, s1.pit[i]);
    }
  }

  lemma AgedOk(faces: seq<Face>, e: PitEntry, t: U32, e1: PitEntry)
    requires EntryOk(faces, e) && e1 in AgeInterest(e, t)
    ensures EntryOk(faces, e1)
  {
  }

  lemma AgeKeeps(s: State, t: U32)
    requires Ok(s)
    ensures Ok(Age(s, t))
  {
    AgeContentsKeeps(s, t);
    var s1 := AgeInterests(AgeContents(s, t), t);
    AgeInterestsKeeps(AgeContents(s, t), t);
    RemoveFacesKeeps(s1, ExpiredFaces(s1.faces, t));
  }

  // ---------------------------------------------------------------- runs

  lemma ApplyKeeps(s: State, ev: Event)
    requires Ok(s) && Enabled(s, ev)
    ensures Ok(Apply(s, ev))
  {
    match ev
    case LookupFace(ifndx, peer, now) => GetFaceKeeps(s, ifndx, peer, now);
    case DropFace(f) => RemoveFacesKeeps(s, {f});
    case AddRoute(p, f) => FibAddKeeps(s, p, f);
    case DropRoute(p, f) => FibRemKeeps(s, p, f);
    case RxInterest(from, p, now) => HandleInterestKeeps(s, from, p, now);
    case RxData(d, now) => HandleContentKeeps(s, d, now);
    case StoreData(d, now) => CsAddKeeps(s, d, now);
    case Tick(t) => AgeKeeps(s, t);
  }

  /** The tables are sound in every reachable state. */
  lemma {:induction false} RunKeeps(s: State, evs: seq<Event>, n: nat)
    requires Ok(s) && CanRun(s, evs) && n <= |evs|
    ensures Ok(Run(s, evs, n))
  {
    hide Ok, Apply, Enabled;
    if n > 0 {
      RunKeeps(s, evs, n - 1);
      ApplyKeeps(Run(s, evs, n - 1), evs[n - 1]);
    }
  }
}
