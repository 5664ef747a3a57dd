/**
 What becomes of a face that asks, over whole runs: its Interest goes out, it waits through whatever else
 happens, its Interest is repeated at every tick, and it gets the Data; or its time runs out.
 */
module Waiting {
  import opened Base
  import opened Names
  import opened RelayState
  import opened Structure
  import opened Tables
  import opened Outcomes

  // ---------------------------------------------------------------- asking

  /** The Interest is heeded, nothing stored answers it, and its scope lets it pass. */
  ghost predicate Asks(s: State, p: Interest) {
    Heeded(s, p) && NothingStored(s, p) && p.scope > 2
  }

  /** The request of the Interest is new and there is room for it. */
  ghost predicate Opens(s: State, p: Interest) {
    Asks(s, p) && !Known(s, p) && HasRoom(s)
  }

  /** What event `n` of a run adds to the history. */
  ghost function News(s: State, evs: seq<Event>, n: nat): seq<Action>
    requires n < |evs|
  {
    var before, after := Run(s, evs, n).log, Run(s, evs, n + 1).log;
    if before <= after then after[|before|..] else []
  }

  lemma NewsIs(s: State, evs: seq<Event>, n: nat, more: seq<Action>)
    requires n < |evs| && Run(s, evs, n + 1).log == Run(s, evs, n).log + more
    ensures News(s, evs, n) == more
  {
  }

  /** A new Interest goes out on a face exactly if some route to it fits, and the face is not the one that
      asks, or reflects. */
  lemma NewInterestGoesOut(s: State, evs: seq<Event>, n: nat, f: FaceId, p: Interest, now: U32)
    requires n < |evs| && evs[n] == RxInterest(Some(f), p, now) && Opens(Run(s, evs, n), p)
    ensures var before := Run(s, evs, n);
            forall g :: SentInterest(g, p) in News(s, evs, n) <==>
                          && (exists r :: r in before.fib && r.face == g && r.prefix.comps <= p.name.comps)
                          && (g != f || exists x :: x in before.faces && x.id == f && x.reflect)
  {
    hide HandleInterest, Asks, Heeded, Sends;
    var before := Run(s, evs, n);
    var e := Opened(p, Some(f), now);
    AskedNow(before, Some(f), p, now);
    var sends := Sends(before.faces, e, before.fib);
    AppendAssoc(before.log, Got(Some(f), p, true), sends);
    NewsIs(s, evs, n, Got(Some(f), p, true) + sends);
    forall g
      ensures SentInterest(g, p) in News(s, evs, n) <==> SentInterest(g, e.pkt) in sends
    {
    }
    forall g
      ensures SentInterest(g, p) in News(s, evs, n) <==>
                && (exists r :: r in before.fib && r.face == g && r.prefix.comps <= p.name.comps)
                && (g != f || exists x :: x in before.faces && x.id == f && x.reflect)
    {
      GoesOutIff(before.faces, e, before.fib, g);
    }
  }

  lemma AskedNow(s: State, from: Option<FaceId>, p: Interest, now: U32)
    requires Opens(s, p)
    ensures var e := Opened(p, from, now);
            HandleInterest(s, from, p, now) ==
            s.(nonces := NoncesAfter(s, p), pit := [e] + s.pit, pitcnt := s.pitcnt + 1,
               log := s.log + Got(from, p, true) + Sends(s.faces, e, s.fib))
  {
    hide HandleInterest, Heeded, Sends;
    AskedToOpen(s, from, p, now);
  }

  // ---------------------------------------------------------------- waiting

  /** The face waits in the entry. */
  predicate IsWaiting(s: State, f: FaceId, e: PitEntry) {
    e in s.pit && f in e.pending
  }

  /** The same request, opened at the same time for as long; the face that opened it is kept. */
  predicate Alike(f: FaceId, e: PitEntry, e1: PitEntry) {
    && e1.pkt == e.pkt && e1.lifetime == e.lifetime && e1.lastUsed == e.lastUsed
    && (e.from == Some(f) ==> e1.from == Some(f))
  }

  /** Before the end of life of an entry. */
  predicate InTime(e: PitEntry, t: U32) {
    t < (e.lastUsed + e.lifetime) % 0x1_0000_0000
  }

  /** The event does not end the wait of a face for what entry `e` asks: it is no Data that answers, unless
      ignored; the face does not go; and no time runs out. */
  ghost predicate LetsWait(s: State, ev: Event, f: FaceId, e: PitEntry) {
    match ev
    case DropFace(g) => g != f
    case RxData(d, _) => HasName(s.contents, d.name) || !Matches(e.pkt, d)
    case StoreData(d, _) => HasName(s.contents, d.name) || !Matches(e.pkt, d)
    case Tick(t) => InTime(e, t) && forall x :: x in s.faces && x.id == f ==> !TimedOut(x, t)
    case _ => true
  }

  lemma WaitsThroughInterest(s: State, from: Option<FaceId>, p: Interest, now: U32, f: FaceId, e: PitEntry)
    returns (e1: PitEntry)
    requires PitOk(s) && IsWaiting(s, f, e)
    ensures IsWaiting(HandleInterest(s, from, p, now), f, e1) && Alike(f, e, e1) && e1.retries == e.retries
  {
    hide HandleInterest, Heeded, NothingStored, Sends, PitOk;
    e1 := e;
    var i :| 0 <= i < |s.pit| && s.pit[i] == e;
    if p.nonce.Some? && p.nonce.value in s.nonces {
      AskedAgain(s, from, p, now);
    } else if ForManagement(p.name) {
      AskedForManagement(s, from, p, now);
    } else {
      HeededNow(s, p);
      if !NothingStored(s, p) {
        AskedOfStore(s, from, p, now);
      } else if p.scope > 2 && Known(s, p) {
        var k :| 0 <= k < |s.pit| && KeyOf(s.pit[k].pkt) == KeyOf(p);
        AskedToJoin(s, from, p, now, k);
        e1 := if i == k then Joined(e, from) else e;
        assert HandleInterest(s, from, p, now).pit[i] == e1;
      } else if p.scope > 2 && HasRoom(s) {
        AskedToOpen(s, from, p, now);
      } else {
        AskedInVain(s, from, p, now);
      }
    }
  }

  lemma HeededNow(s: State, p: Interest)
    requires !(p.nonce.Some? && p.nonce.value in s.nonces) && !ForManagement(p.name)
    ensures Heeded(s, p)
  {
  }

  lemma WaitsThroughServing(s: State, d: Data, f: FaceId, e: PitEntry)
    requires IsWaiting(s, f, e) && !Matches(e.pkt, d)
    ensures IsWaiting(ServePending(s, d), f, e)
  {
    hide ServePending, Matches, Served;
    ServeOutcome(s, d);
    FilterMember(NotFor(d), s.pit, e);
  }

  lemma CachingLeavesPit(s: State, c: Content)
    ensures Add2Cache(s, c).pit == s.pit
  {
  }

  lemma WaitsThroughData(s: State, d: Data, now: U32, f: FaceId, e: PitEntry)
    requires IsWaiting(s, f, e) && (HasName(s.contents, d.name) || !Matches(e.pkt, d))
    ensures IsWaiting(HandleContent(s, d, now), f, e) && IsWaiting(CsAdd(s, d, now), f, e)
  {
    hide HandleContent, CsAdd, Add2Cache, ServePending, Matches, HasName;
    DataOutcome(s, d, now);
    if HasName(s.contents, d.name) {
      StoredDataIgnored(s, d, now);
    } else {
      var cached := Add2Cache(s, Content(d, false, false, now));
      HandedInOutcome(s, d, now);
      CachingLeavesPit(s, Content(d, false, false, now));
      CachingLeavesPit(ServePending(s, d), Content(d, AskedByNobody(s.pit, d), false, now));
      WaitsThroughServing(s, d, f, e);
      WaitsThroughServing(cached, d, f, e);
    }
  }

  lemma WaitsThroughRemoval(s: State, gone: set<FaceId>, f: FaceId, e: PitEntry) returns (e1: PitEntry)
    requires IsWaiting(s, f, e) && f !in gone
    ensures IsWaiting(RemoveFaces(s, gone), f, e1) && Alike(f, e, e1) && e1.retries == e.retries
  {
    hide RemoveFaces;
    if gone == {} {
      RemovesNone(s);
      e1 := e;
    } else {
      RemovalMembers(s, gone);
      StruckWaits(e, gone, f);
      e1 := Struck(e, gone);
    }
  }

  lemma WaitsThroughTick(s: State, t: U32, f: FaceId, e: PitEntry) returns (e1: PitEntry)
    requires IsWaiting(s, f, e) && LetsWait(s, Tick(t), f, e) && e.retries < 7
    ensures IsWaiting(Age(s, t), f, e1) && Alike(f, e, e1) && e1.retries == e.retries + 1
  {
    hide AgeInterests, AgeContents, RemoveFaces, TimedOut;
    var s2 := AgeInterests(AgeContents(s, t), t);
    var live := Filter(Living(t), s.pit);
    StoreAged(s, t);
    PendingAged(AgeContents(s, t), t);
    FilterMember(Living(t), s.pit, e);
    var i :| 0 <= i < |live| && live[i] == e;
    assert s2.pit[i] == e.(retries := e.retries + 1);
    LeavingIs(s.faces, t);
    assert f !in Leaving(s.faces, t);
    AgeIs(s, t);
    e1 := WaitsThroughRemoval(s2, Leaving(s.faces, t), f, e.(retries := e.retries + 1));
  }

  /** One event later the face still waits; a tick has made one retry more. */
  lemma StillWaits(s: State, ev: Event, f: FaceId, e: PitEntry) returns (e1: PitEntry)
    requires PitOk(s) && IsWaiting(s, f, e) && LetsWait(s, ev, f, e) && (ev.Tick? ==> e.retries < 7)
    ensures IsWaiting(Apply(s, ev), f, e1) && Alike(f, e, e1)
    ensures e1.retries == e.retries + if ev.Tick? then 1 else 0
  {
    hide HandleInterest, HandleContent, CsAdd, Age, RemoveFaces, FaceAt, RouteAt, SelectedAt, Matches, HasName;
    e1 := e;
    match ev
    case RxInterest(from, p, now) => e1 := WaitsThroughInterest(s, from, p, now, f, e);
    case RxData(d, now) => WaitsThroughData(s, d, now, f, e);
    case StoreData(d, now) => WaitsThroughData(s, d, now, f, e);
    case DropFace(g) => e1 := WaitsThroughRemoval(s, {g}, f, e);
    case Tick(t) => e1 := WaitsThroughTick(s, t, f, e);
    case _ =>
  }

  // ---------------------------------------------------------------- over a run

  /** How many of the events from `i` up to `n` are ticks. */
  function Ticks(evs: seq<Event>, i: nat, n: nat): (k: nat)
    requires i <= n <= |evs|
    ensures k <= n - i
  {
    if i == n then 0 else Ticks(evs, i, n - 1) + if evs[n - 1].Tick? then 1 else 0
  }

  /** No event from `i` up to `n` ends the wait. */
  ghost predicate Patient(s: State, evs: seq<Event>, i: nat, n: nat, f: FaceId, e: PitEntry)
    requires i <= n <= |evs|
  {
    forall k :: i <= k < n ==> LetsWait(Run(s, evs, k), evs[k], f, e)
  }

  lemma LetsWaitAlike(s: State, ev: Event, f: FaceId, e: PitEntry, e1: PitEntry)
    requires Alike(f, e, e1) && LetsWait(s, ev, f, e)
    ensures LetsWait(s, ev, f, e1)
  {
    hide Matches, HasName, TimedOut;
  }

  lemma {:induction false} WaitsOn(s: State, evs: seq<Event>, i: nat, n: nat, f: FaceId, e: PitEntry)
    returns (e1: PitEntry)
    requires Ok(s) && CanRun(s, evs) && i <= n <= |evs| && IsWaiting(Run(s, evs, i), f, e)
    requires Patient(s, evs, i, n, f, e) && e.retries + Ticks(evs, i, n) <= 7
    ensures IsWaiting(Run(s, evs, n), f, e1) && Alike(f, e, e1) && e1.retries == e.retries + Ticks(evs, i, n)
  {
    hide Ok, IsWaiting, LetsWait, Apply, CanRun;
    if i == n {
      e1 := e;
    } else {
      var e0 := WaitsOn(s, evs, i, n - 1, f, e);
      var before := Run(s, evs, n - 1);
      RunKeeps(s, evs, n - 1);
      OkPit(before);
      LetsWaitAlike(before, evs[n - 1], f, e, e0);
      e1 := StillWaits(before, evs[n - 1], f, e0);
    }
  }

  lemma OkPit(s: State)
    requires Ok(s)
    ensures PitOk(s)
  {
    hide FacesOk, FibOk, PitOk, StoreOk, NoncesOk;
  }

  /** A face that asks comes to wait, in the entry for its request. */
  lemma AskingWaits(s: State, f: FaceId, p: Interest, now: U32)
    requires PitOk(s) && Asks(s, p) && (Known(s, p) || HasRoom(s))
    ensures exists e :: IsWaiting(HandleInterest(s, Some(f), p, now), f, e) && KeyOf(e.pkt) == KeyOf(p)
  {
    hide HandleInterest, Heeded, NothingStored, Sends, PitOk;
    var s1 := HandleInterest(s, Some(f), p, now);
    if Known(s, p) {
      var k :| 0 <= k < |s.pit| && KeyOf(s.pit[k].pkt) == KeyOf(p);
      AskedToJoin(s, Some(f), p, now, k);
      assert s1.pit[k] == Joined(s.pit[k], Some(f));
      assert IsWaiting(s1, f, s1.pit[k]);
    } else {
      AskedToOpen(s, Some(f), p, now);
      assert s1.pit[0] == Opened(p, Some(f), now);
      assert IsWaiting(s1, f, s1.pit[0]);
    }
  }

  /** A face that waits when matching Data arrives that is not stored gets it, once. */
  lemma WaitingIsServed(s: State, evs: seq<Event>, n: nat, f: FaceId, e: PitEntry, d: Data, now: U32)
    requires n < |evs| && evs[n] == RxData(d, now) && IsWaiting(Run(s, evs, n), f, e)
    requires Matches(e.pkt, d) && !HasName(Run(s, evs, n).contents, d.name)
    ensures Count(DataTo(f), News(s, evs, n)) == 1
    ensures forall a :: a in News(s, evs, n) ==> a.SentData? && a.data == d
  {
    hide ServePending, Matches, HasName, Add2Cache, HandleContent, DataTo;
    var before := Run(s, evs, n);
    var served := ServePending(before, d);
    DataOutcome(before, d, now);
    ServeOutcome(before, d);
    CachingOnlyStores(served, Content(d, AskedByNobody(before.pit, d), false, now));
    var more := served.log[|before.log|..];
    assert served.log == before.log + more;
    NewsIs(s, evs, n, more);
    var i :| 0 <= i < |before.pit| && before.pit[i] == e;
    assert WaitsFor(before.pit, d, f);
  }

  lemma CachingOnlyStores(s: State, c: Content)
    ensures Add2Cache(s, c).log == s.log && Add2Cache(s, c).faces == s.faces
  {
  }

  /** A face asks, nothing ends its wait, and Data that its Interest matches arrives: the face gets it. The
      entry it waits in is the one for its request, opened by itself or by another. */
  lemma AskedIsAnswered(s: State, evs: seq<Event>, i: nat, n: nat, f: FaceId, p: Interest, e: PitEntry, d: Data,
                        now: U32)
    requires Ok(s) && CanRun(s, evs) && i < n < |evs|
    requires evs[i].RxInterest? && evs[i].from == Some(f) && evs[i].interest == p && Asks(Run(s, evs, i), p)
    requires IsWaiting(Run(s, evs, i + 1), f, e) && KeyOf(e.pkt) == KeyOf(p)
    requires Patient(s, evs, i + 1, n, f, e) && e.retries + Ticks(evs, i + 1, n) <= 7
    requires evs[n] == RxData(d, now) && Matches(p, d) && !HasName(Run(s, evs, n).contents, d.name)
    ensures Count(DataTo(f), News(s, evs, n)) == 1
  {
    hide Ok, CanRun, Asks, IsWaiting, Patient, Matches, HasName, DataTo, News, Run;
    var e1 := WaitsOn(s, evs, i + 1, n, f, e);
    SameKeySameMatches(p, e1.pkt, d);
    WaitingIsServed(s, evs, n, f, e1, d, now);
  }

  /** Two faces ask for the same, one after the other; matching Data that is not stored goes to both. */
  lemma BothAreAnswered(s: State, evs: seq<Event>, n: nat, f: FaceId, p: Interest, g: FaceId, q: Interest, d: Data,
                        now: U32)
    requires Ok(s) && CanRun(s, evs) && n + 2 < |evs|
    requires evs[n].RxInterest? && evs[n].from == Some(f) && evs[n].interest == p
    requires evs[n + 1].RxInterest? && evs[n + 1].from == Some(g) && evs[n + 1].interest == q
    requires evs[n + 2] == RxData(d, now) && KeyOf(p) == KeyOf(q) && Matches(p, d)
    requires Asks(Run(s, evs, n), p) && (Known(Run(s, evs, n), p) || HasRoom(Run(s, evs, n)))
    requires Asks(Run(s, evs, n + 1), q) && !HasName(Run(s, evs, n + 2).contents, d.name)
    ensures Count(DataTo(f), News(s, evs, n + 2)) == 1 && Count(DataTo(g), News(s, evs, n + 2)) == 1
  {
    hide Ok, CanRun, Asks, Matches, HasName, DataTo, News, Run, IsWaiting, PitOk, Known, HandleInterest;
    var s0, s1, s2 := Run(s, evs, n), Run(s, evs, n + 1), Run(s, evs, n + 2);
    RunKeeps(s, evs, n);
    RunKeeps(s, evs, n + 1);
    OkPit(s0);
    OkPit(s1);
    RunInterest(s, evs, n);
    RunInterest(s, evs, n + 1);
    AskingWaits(s0, f, p, evs[n].now);
    var e :| IsWaiting(s1, f, e) && KeyOf(e.pkt) == KeyOf(p);
    var e1 := WaitsThroughInterest(s1, Some(g), q, evs[n + 1].now, f, e);
    KnownIs(s1, f, e, q);
    AskingWaits(s1, g, q, evs[n + 1].now);
    var e2 :| IsWaiting(s2, g, e2) && KeyOf(e2.pkt) == KeyOf(q);
    SameKeySameMatches(p, e1.pkt, d);
    SameKeySameMatches(p, e2.pkt, d);
    WaitingIsServed(s, evs, n + 2, f, e1, d, now);
    WaitingIsServed(s, evs, n + 2, g, e2, d, now);
  }

  lemma RunInterest(s: State, evs: seq<Event>, n: nat)
    requires n < |evs| && evs[n].RxInterest?
    ensures Run(s, evs, n + 1) == HandleInterest(Run(s, evs, n), evs[n].from, evs[n].interest, evs[n].now)
  {
  }

  lemma KnownIs(s: State, f: FaceId, e: PitEntry, q: Interest)
    requires IsWaiting(s, f, e) && KeyOf(e.pkt) == KeyOf(q)
    ensures Known(s, q)
  {
    var i :| 0 <= i < |s.pit| && s.pit[i] == e;
    assert KeyOf(s.pit[i].pkt) == KeyOf(q);
  }

  // ---------------------------------------------------------------- repeating

  /** At a tick in its time, an entry with fewer than seven retries is sent on every route that fits. */
  lemma RepeatedAtTick(s: State, evs: seq<Event>, n: nat, t: U32, e: PitEntry)
    requires n < |evs| && evs[n] == Tick(t) && e in Run(s, evs, n).pit && InTime(e, t) && e.retries < 7
    ensures var before := Run(s, evs, n);
            forall a :: a in Sends(before.faces, e, before.fib) ==> a in News(s, evs, n)
  {
    hide Age, RemoveFaces, Sends;
    var before := Run(s, evs, n);
    var live := Filter(Living(t), before.pit);
    var more := FlatMap(SendsOf(before.faces, before.fib), live);
    AgedLog(before, t);
    NewsIs(s, evs, n, more);
    FilterMember(Living(t), before.pit, e);
    var i :| 0 <= i < |live| && live[i] == e;
    forall a | a in Sends(before.faces, e, before.fib) ensures a in more {
      PassMember(SendsOf(before.faces, before.fib), live, |live|, a);
    }
  }

  lemma AgedLog(s: State, t: U32)
    ensures Age(s, t).log == s.log + FlatMap(SendsOf(s.faces, s.fib), Filter(Living(t), s.pit))
  {
    hide Age, RemoveFaces;
    AgeOutcome(s, t);
    RemovalSilent(AgeInterests(AgeContents(s, t), t), Leaving(s.faces, t));
    LeavingIs(s.faces, t);
    AgeIs(s, t);
    StoreAged(s, t);
    PendingAged(AgeContents(s, t), t);
  }

  lemma RemovalSilent(s: State, gone: set<FaceId>)
    ensures RemoveFaces(s, gone).log == s.log
  {
  }

  /** At any other tick it goes, and no entry for its request is left. */
  lemma GoneAtTick(s: State, t: U32, e: PitEntry)
    requires PitOk(s) && e in s.pit && !(InTime(e, t) && e.retries < 7)
    ensures forall x :: x in Age(s, t).pit ==> KeyOf(x.pkt) != KeyOf(e.pkt)
  {
    hide AgeInterests, AgeContents, RemoveFaces, EntryOk;
    var s2 := AgeInterests(AgeContents(s, t), t);
    var gone := ExpiredFaces(s.faces, t);
    StoreAged(s, t);
    PendingAged(AgeContents(s, t), t);
    AgeIs(s, t);
    forall x | x in s2.pit ensures KeyOf(x.pkt) != KeyOf(e.pkt) {
      AgedFromLiving(s, t, e, x);
    }
    if gone == {} {
      RemovesNone(s2);
    } else {
      RemovalMembers(s2, gone);
    }
  }

  lemma AgedFromLiving(s: State, t: U32, e: PitEntry, x: PitEntry)
    requires PitOk(s) && e in s.pit && !(InTime(e, t) && e.retries < 7)
    requires x in Map(Retried(), Filter(Living(t), s.pit))
    ensures KeyOf(x.pkt) != KeyOf(e.pkt)
  {
    hide EntryOk;
    var live := Filter(Living(t), s.pit);
    var i :| 0 <= i < |live| && x == Retried()(live[i]);
    FilterMember(Living(t), s.pit, live[i]);
    var keys := Map(PitKey(), s.pit);
    var j :| 0 <= j < |s.pit| && s.pit[j] == live[i];
    var k :| 0 <= k < |s.pit| && s.pit[k] == e;
    assert keys[j] != keys[k];
  }

  /** The Interest goes out at event `n` on every face that some route to it fits, except the face that asks
      unless it reflects. */
  ghost predicate Repeated(s: State, evs: seq<Event>, n: nat, f: FaceId, p: Interest)
    requires n < |evs|
  {
    var before := Run(s, evs, n);
    forall r :: r in before.fib && r.prefix.comps <= p.name.comps
                && (r.face != f || exists x :: x in before.faces && x.id == f && x.reflect) ==>
                  SentInterest(r.face, p) in News(s, evs, n)
  }

  lemma RepeatsNow(s: State, evs: seq<Event>, n: nat, t: U32, f: FaceId, e: PitEntry)
    requires n < |evs| && evs[n] == Tick(t) && e in Run(s, evs, n).pit && InTime(e, t) && e.retries < 7
    requires e.from == Some(f)
    ensures Repeated(s, evs, n, f, e.pkt)
  {
    hide Sends, News, Run;
    var before := Run(s, evs, n);
    RepeatedAtTick(s, evs, n, t, e);
    forall r | r in before.fib && r.prefix.comps <= e.pkt.name.comps
               && (r.face != f || exists x :: x in before.faces && x.id == f && x.reflect)
      ensures SentInterest(r.face, e.pkt) in News(s, evs, n)
    {
      GoesOutIff(before.faces, e, before.fib, r.face);
    }
  }

  lemma {:induction false} TicksSplit(evs: seq<Event>, i: nat, k: nat, n: nat)
    requires i <= k <= n <= |evs|
    ensures Ticks(evs, i, k) + Ticks(evs, k, n) == Ticks(evs, i, n)
  {
    if k < n {
      TicksSplit(evs, i, k, n - 1);
    }
  }

  /** An Interest that opens an entry and stays unanswered up to event `n` is repeated at each tick on the way,
      up to seven of them. If event `n` is a tick after its life or after seven repeats, no entry for its
      request is left; if it is an earlier tick, the Interest is repeated once more. */
  lemma RepeatedUntilGone(s: State, evs: seq<Event>, i: nat, n: nat, f: FaceId, p: Interest, now: U32)
    requires Ok(s) && CanRun(s, evs) && i < n < |evs|
    requires evs[i] == RxInterest(Some(f), p, now) && Opens(Run(s, evs, i), p)
    requires Patient(s, evs, i + 1, n, f, Opened(p, Some(f), now)) && Ticks(evs, i + 1, n) <= 7
    ensures forall k :: i < k < n && evs[k].Tick? ==> Repeated(s, evs, k, f, p)
    ensures evs[n].Tick? ==>
              if InTime(Opened(p, Some(f), now), evs[n].now) && Ticks(evs, i + 1, n) < 7
              then Repeated(s, evs, n, f, p)
              else forall x :: x in Run(s, evs, n + 1).pit ==> KeyOf(x.pkt) != KeyOf(p)
  {
    hide Ok, CanRun, Opens, IsWaiting, LetsWait, Apply, Run, Age, InTime;
    var e := Opened(p, Some(f), now);
    OpenedWaits(s, evs, i, f, p, now);
    forall k | i < k < n && evs[k].Tick?
      ensures Repeated(s, evs, k, f, p)
    {
      TicksSplit(evs, i + 1, k, n);
      TicksSplit(evs, k, k + 1, n);
      assert Ticks(evs, k, k + 1) == Ticks(evs, k, k) + 1;
      var e1 := WaitsOn(s, evs, i + 1, k, f, e);
      WaitsInTime(Run(s, evs, k), evs[k].now, f, e, e1);
      RepeatsNow(s, evs, k, evs[k].now, f, e1);
    }
    if evs[n].Tick? {
      var e1 := WaitsOn(s, evs, i + 1, n, f, e);
      RunKeeps(s, evs, n);
      OkPit(Run(s, evs, n));
      WaitingIn(Run(s, evs, n), f, e1);
      InTimeAlike(e, e1, f, evs[n].now);
      if InTime(e, evs[n].now) && Ticks(evs, i + 1, n) < 7 {
        RepeatsNow(s, evs, n, evs[n].now, f, e1);
      } else {
        GoneAtTick(Run(s, evs, n), evs[n].now, e1);
        RunTick(s, evs, n);
      }
    }
  }

  lemma OpenedWaits(s: State, evs: seq<Event>, i: nat, f: FaceId, p: Interest, now: U32)
    requires i < |evs| && evs[i] == RxInterest(Some(f), p, now) && Opens(Run(s, evs, i), p)
    ensures IsWaiting(Run(s, evs, i + 1), f, Opened(p, Some(f), now))
  {
    hide HandleInterest, Opens, Sends;
    AskedNow(Run(s, evs, i), Some(f), p, now);
    assert Run(s, evs, i + 1).pit[0] == Opened(p, Some(f), now);
  }

  lemma RunTick(s: State, evs: seq<Event>, n: nat)
    requires n < |evs| && evs[n].Tick?
    ensures Run(s, evs, n + 1) == Age(Run(s, evs, n), evs[n].now)
  {
  }

  lemma WaitingIn(s: State, f: FaceId, e: PitEntry)
    requires IsWaiting(s, f, e)
    ensures e in s.pit
  {
  }

  lemma InTimeAlike(e: PitEntry, e1: PitEntry, f: FaceId, t: U32)
    requires Alike(f, e, e1)
    ensures InTime(e, t) <==> InTime(e1, t)
  {
  }

  lemma WaitsInTime(s: State, t: U32, f: FaceId, e: PitEntry, e1: PitEntry)
    requires IsWaiting(s, f, e1) && Alike(f, e, e1) && LetsWait(s, Tick(t), f, e)
    ensures e1 in s.pit && InTime(e1, t)
  {
  }

  // ---------------------------------------------------------------- upcalls

  /** Faces without a peer, and only they, have no interface. */
  ghost predicate ClientsApart(faces: seq<Face>) {
    forall x :: x in faces ==> (x.ifndx < 0 <==> x.peer.None?)
  }

  /** Interfaces are named by their number, or by -1 for none. */
  ghost predicate Numbered(evs: seq<Event>) {
    forall i :: 0 <= i < |evs| && evs[i].LookupFace? ==> evs[i].ifndx >= -1
  }

  lemma LookupKeepsApart(s: State, ifndx: int, peer: Option<Addr>, now: U32)
    requires ClientsApart(s.faces) && ifndx >= -1
    ensures ClientsApart(GetFace(s, ifndx, peer, now).0.faces)
  {
    hide FaceAt, FirstOfFamily;
    var k := FaceAt(s.faces, ifndx, peer);
    var faces1 := GetFace(s, ifndx, peer, now).0.faces;
    forall x | x in faces1 ensures x.ifndx < 0 <==> x.peer.None? {
      if k < |s.faces| && x !in s.faces {
        assert s.faces[k] in s.faces;
      }
    }
  }

  lemma ApplyKeepsApart(s: State, ev: Event)
    requires ClientsApart(s.faces) && (ev.LookupFace? ==> ev.ifndx >= -1)
    ensures ClientsApart(Apply(s, ev).faces)
  {
    hide GetFace, RemoveFaces, SameAt, HitAt, Matches, Deliveries, EvictScan, RouteAt, SelectedAt, Age, ClientsApart;
    match ev
    case LookupFace(ifndx, peer, now) => LookupKeepsApart(s, ifndx, peer, now);
    case DropFace(f) => RemovalKeepsApart(s, {f});
    case Tick(t) =>
      AgedFaces(s, t);
      FewerApart(s.faces, Age(s, t).faces);
    case _ =>
  }

  lemma RemovalKeepsApart(s: State, gone: set<FaceId>)
    requires ClientsApart(s.faces) && gone != {}
    ensures ClientsApart(RemoveFaces(s, gone).faces)
  {
    hide RemoveFaces;
    RemovalMembers(s, gone);
  }

  lemma FewerApart(faces: seq<Face>, faces1: seq<Face>)
    requires ClientsApart(faces) && forall x :: x in faces1 ==> x in faces
    ensures ClientsApart(faces1)
  {
  }

  lemma {:induction false} RunKeepsApart(s: State, evs: seq<Event>, n: nat)
    requires IsEmpty(s) && Numbered(evs) && n <= |evs|
    ensures ClientsApart(Run(s, evs, n).faces)
  {
    hide Apply;
    if n > 0 {
      RunKeepsApart(s, evs, n - 1);
      ApplyKeepsApart(Run(s, evs, n - 1), evs[n - 1]);
    }
  }

  lemma ClientIs(faces: seq<Face>, f: FaceId)
    requires ClientsApart(faces)
    ensures ToClient(faces, f) <==> exists x :: x in faces && x.id == f && x.peer.None?
  {
  }

  /** Of what is added to a history, Data is an upcall exactly towards the client on this relay. */
  ghost predicate UpcallsRight(faces: seq<Face>, more: seq<Action>) {
    forall i :: 0 <= i < |more| && more[i].SentData? ==> (more[i].upcall <==> ToClient(faces, more[i].face))
  }

  lemma UpcallAdded(s: State, log: seq<Action>, more: seq<Action>, a: Action)
    requires log == s.log + more && UpcallsRight(s.faces, more) && a in log[|s.log|..] && a.SentData?
    ensures a.upcall <==> ToClient(s.faces, a.face)
  {
    hide ToClient;
  }

  lemma SendsNoData(faces: seq<Face>, e: PitEntry, fib: seq<FibEntry>)
    ensures forall a :: a in Sends(faces, e, fib) ==> a.SentInterest?
  {
  }

  lemma UpcallOfInterest(s: State, from: Option<FaceId>, p: Interest, now: U32, a: Action)
    requires var s1 := HandleInterest(s, from, p, now);
             s.log <= s1.log && a in s1.log[|s.log|..] && a.SentData?
    requires PitOk(s)
    ensures a.upcall <==> ToClient(s.faces, a.face)
  {
    hide HandleInterest, Heeded, NothingStored, Sends, ToClient, PitOk, CanAnswer;
    var s1 := HandleInterest(s, from, p, now);
    var got := Got(from, p, true);
    if p.nonce.Some? && p.nonce.value in s.nonces {
      AskedAgain(s, from, p, now);
      UpcallAdded(s, s1.log, Got(from, p, false), a);
    } else if ForManagement(p.name) {
      AskedForManagement(s, from, p, now);
      UpcallAdded(s, s1.log, got, a);
    } else {
      HeededNow(s, p);
      if !NothingStored(s, p) {
        UpcallOfHit(s, from, p, now, a);
      } else if p.scope > 2 && Known(s, p) {
        var k :| 0 <= k < |s.pit| && KeyOf(s.pit[k].pkt) == KeyOf(p);
        AskedToJoin(s, from, p, now, k);
        UpcallAdded(s, s1.log, got, a);
      } else if p.scope > 2 && HasRoom(s) {
        AskedToOpen(s, from, p, now);
        var sends := Sends(s.faces, Opened(p, from, now), s.fib);
        SendsNoData(s.faces, Opened(p, from, now), s.fib);
        AppendAssoc(s.log, got, sends);
        UpcallAdded(s, s1.log, got + sends, a);
      } else {
        AskedInVain(s, from, p, now);
        UpcallAdded(s, s1.log, got, a);
      }
    }
  }

  lemma UpcallOfHit(s: State, from: Option<FaceId>, p: Interest, now: U32, a: Action)
    requires Heeded(s, p) && !NothingStored(s, p)
    requires a in HandleInterest(s, from, p, now).log[|s.log|..] && a.SentData?
    requires s.log <= HandleInterest(s, from, p, now).log
    ensures a.upcall <==> ToClient(s.faces, a.face)
  {
    hide HandleInterest, Heeded, NothingStored, ToClient, CanAnswer;
    AskedOfStore(s, from, p, now);
    var got := Got(from, p, true);
    var k :| 0 <= k < |s.contents| &&
      HandleInterest(s, from, p, now).log == s.log + got + if from.None? then [] else
        [SentData(from.value, s.contents[k].data, p, ToClient(s.faces, from.value))];
    var sent := if from.None? then [] else [SentData(from.value, s.contents[k].data, p, ToClient(s.faces, from.value))];
    AppendAssoc(s.log, got, sent);
    UpcallAdded(s, HandleInterest(s, from, p, now).log, got + sent, a);
  }

  lemma UpcallOfServing(s: State, d: Data, a: Action)
    requires var s1 := ServePending(s, d); s.log <= s1.log && a in s1.log[|s.log|..] && a.SentData?
    ensures a.upcall <==> ToClient(s.faces, a.face)
  {
    hide ServePending, Matches, DataTo, ToClient;
    ServeOutcome(s, d);
  }

  lemma UpcallOfData(s: State, d: Data, now: U32, a: Action)
    requires var s1 := HandleContent(s, d, now); s.log <= s1.log && a in s1.log[|s.log|..] && a.SentData?
    ensures a.upcall <==> ToClient(s.faces, a.face)
  {
    hide HandleContent, ServePending, Add2Cache, Matches, HasName, ToClient;
    DataOutcome(s, d, now);
    CachingOnlyStores(ServePending(s, d), Content(d, AskedByNobody(s.pit, d), false, now));
    if !HasName(s.contents, d.name) {
      UpcallOfServing(s, d, a);
    }
  }

  lemma UpcallOfStored(s: State, d: Data, now: U32, a: Action)
    requires var s1 := CsAdd(s, d, now); s.log <= s1.log && a in s1.log[|s.log|..] && a.SentData?
    ensures a.upcall <==> ToClient(s.faces, a.face)
  {
    hide CsAdd, ServePending, Add2Cache, Matches, HasName, ToClient;
    if HasName(s.contents, d.name) {
      StoredDataIgnored(s, d, now);
    } else {
      var cached := Add2Cache(s, Content(d, false, false, now));
      HandedInOutcome(s, d, now);
      CachingOnlyStores(s, Content(d, false, false, now));
      UpcallOfServing(cached, d, a);
    }
  }

  lemma TickSendsNoData(s: State, t: U32, a: Action)
    requires a in FlatMap(SendsOf(s.faces, s.fib), Filter(Living(t), s.pit))
    ensures a.SentInterest?
  {
    hide Living;
    var live := Filter(Living(t), s.pit);
    PassMember(SendsOf(s.faces, s.fib), live, |live|, a);
  }

  lemma UpcallNow(s: State, ev: Event, a: Action)
    requires PitOk(s)
    requires s.log <= Apply(s, ev).log && a in Apply(s, ev).log[|s.log|..] && a.SentData?
    ensures a.upcall <==> ToClient(s.faces, a.face)
  {
    hide HandleInterest, HandleContent, CsAdd, Age, RemoveFaces, GetFace, ToClient, RouteAt, SelectedAt, PitOk;
    match ev
    case RxInterest(from, p, now) => UpcallOfInterest(s, from, p, now, a);
    case RxData(d, now) => UpcallOfData(s, d, now, a);
    case StoreData(d, now) => UpcallOfStored(s, d, now, a);
    case Tick(t) =>
      AgedLog(s, t);
      TickSendsNoData(s, t, a);
    case LookupFace(ifndx, peer, now) => LookupSilent(s, ifndx, peer, now);
    case DropFace(f) => RemovalSilent(s, {f});
    case _ =>
  }

  lemma LookupSilent(s: State, ifndx: int, peer: Option<Addr>, now: U32)
    ensures GetFace(s, ifndx, peer, now).0.log == s.log
  {
  }

  /** Over any run from an empty relay, Data sent on a face is an upcall exactly if the face has no peer. */
  lemma UpcallIffNoPeer(s: State, evs: seq<Event>, n: nat, a: Action)
    requires IsEmpty(s) && CanRun(s, evs) && Numbered(evs) && n < |evs| && a in News(s, evs, n) && a.SentData?
    ensures a.upcall <==> exists x :: x in Run(s, evs, n).faces && x.id == a.face && x.peer.None?
  {
    hide Apply, IsEmpty, CanRun, ClientsApart, Numbered, Ok, ToClient;
    var before := Run(s, evs, n);
    RunKeepsApart(s, evs, n);
    EmptyOk(s);
    RunKeeps(s, evs, n);
    OkPit(before);
    UpcallNow(before, evs[n], a);
    ClientIs(before.faces, a.face);
  }
}
