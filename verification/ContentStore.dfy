/**
 The content store over whole runs: what may enter it, what eviction picks, and when arriving data
 fails to answer the Interests that wait for it.
 */
module ContentStore {
  import opened Base
  import opened Names
  import opened RelayState
  import opened Structure

  // ---------------------------------------------------------------- what may enter

  /** Event `i` of the run put data `d` into the store at `at`: the application handed it in, or it came
      from the network while some pending entry matched it. No content of that name was there. */
  ghost predicate EnteredBy(s: State, evs: seq<Event>, i: nat, d: Data, at: U32)
    requires i < |evs|
  {
    var before := Run(s, evs, i);
    && !Stored(before.contents, d.name)
    && (evs[i] == StoreData(d, at) || (evs[i] == RxData(d, at) && Wanted(before.pit, d) && before.maxCache != 0))
  }

  ghost predicate Holds(contents: seq<Content>, d: Data, at: U32) {
    exists i :: 0 <= i < |contents| && contents[i].data == d && contents[i].lastUsed == at
  }

  /** Data and time of what is stored never change; what is new came with the event. */
  lemma ApplyContents(s: State, ev: Event, d: Data, at: U32)
    requires Holds(Apply(s, ev).contents, d, at) && !Holds(s.contents, d, at)
    ensures !Stored(s.contents, d.name)
    ensures ev == StoreData(d, at) || (ev == RxData(d, at) && Wanted(s.pit, d) && s.maxCache != 0)
  {
    hide Deliveries, Wanted, Stored, MakeRoom, Strip, Remember, SameAt, HitAt, Matches, AgeInterests, Holds, Admits;
    match ev
    case RxData(x, now) =>
      Add2CacheHolds(ServePending(s, x), Content(x, Count(Orphan(x), s.pit) > 0, false, now), d, at);
    case StoreData(x, now) =>
      var s1 := Add2Cache(s, Content(x, false, false, now));
      if Apply(s, ev).contents != s1.contents {
        PinHolds(ServePending(s1, x), d, at);
      }
      Add2CacheHolds(s, Content(x, false, false, now), d, at);
    case Tick(t) =>
      AgeContentsOnly(s, t);
      AgedHolds(s.contents, t, d, at);
    case _ =>
  }

  lemma Add2CacheHolds(s: State, c: Content, d: Data, at: U32)
    requires Holds(Add2Cache(s, c).contents, d, at)
    ensures Holds(s.contents, d, at) || (c.data == d && c.lastUsed == at && !Stored(s.contents, c.data.name))
  {
    hide Stored, MakeRoom;
    var cs := Add2Cache(s, c).contents;
    var i :| 0 <= i < |cs| && cs[i].data == d && cs[i].lastUsed == at;
    if cs[i] in MakeRoom(s).contents {
      RoomFromOld(s, cs[i]);
    }
  }

  lemma PinHolds(s: State, d: Data, at: U32)
    requires Holds(PinFirst(s).contents, d, at)
    ensures Holds(s.contents, d, at)
  {
    var cs := PinFirst(s).contents;
    var i :| 0 <= i < |cs| && cs[i].data == d && cs[i].lastUsed == at;
    assert s.contents[i].data == d && s.contents[i].lastUsed == at;
  }

  lemma AgedHolds(contents: seq<Content>, t: U32, d: Data, at: U32)
    requires Holds(FlatMap(AgedContent(t), contents), d, at)
    ensures Holds(contents, d, at)
  {
    hide AgeContent, Pass;
    var cs := FlatMap(AgedContent(t), contents);
    var i :| 0 <= i < |cs| && cs[i].data == d && cs[i].lastUsed == at;
    PassMember(AgedContent(t), contents, |contents|, cs[i]);
    var j :| 0 <= j < |contents| && cs[i] in AgeContent(contents[j], t);
    AgedKeepsTime(contents[j], t);
  }

  /** Over any run of a relay that starts empty, through eviction, ageing and pinning: whatever the store
      holds was handed in by the application, or was wanted by a pending entry when it arrived. */
  lemma {:induction false} StoreWasWanted(s: State, evs: seq<Event>, n: nat, c: Content)
    requires IsEmpty(s) && n <= |evs| && c in Run(s, evs, n).contents
    ensures exists i :: 0 <= i < n && EnteredBy(s, evs, i, c.data, c.lastUsed)
  {
    hide Apply, EnteredBy, Stored, Wanted;
    if n > 0 {
      var before, after := Run(s, evs, n - 1), Run(s, evs, n);
      var j :| 0 <= j < |after.contents| && after.contents[j] == c;
      assert Holds(after.contents, c.data, c.lastUsed);
      if Holds(before.contents, c.data, c.lastUsed) {
        var cs := before.contents;
        var k :| 0 <= k < |cs| && cs[k].data == c.data && cs[k].lastUsed == c.lastUsed;
        StoreWasWanted(s, evs, n - 1, cs[k]);
      } else {
        ApplyContents(before, evs[n - 1], c.data, c.lastUsed);
        Entered(s, evs, n - 1, c.data, c.lastUsed);
      }
    }
  }

  lemma Entered(s: State, evs: seq<Event>, i: nat, d: Data, at: U32)
    requires i < |evs| && !Stored(Run(s, evs, i).contents, d.name)
    requires evs[i] == StoreData(d, at)
             || (evs[i] == RxData(d, at) && Wanted(Run(s, evs, i).pit, d) && Run(s, evs, i).maxCache != 0)
    ensures EnteredBy(s, evs, i, d, at)
  {
    hide Stored, Wanted;
  }

  /** Arriving data leaves no matching entry behind exactly when there was none, or no content of its
      name is stored. A stale copy that an Interest refused (MustBeFresh) therefore shuts out the
      fresh data sent in answer. */
  lemma ArrivalAnswersIff(s: State, d: Data, now: U32)
    ensures !Wanted(HandleContent(s, d, now).pit, d) <==> (!Wanted(s.pit, d) || !Stored(s.contents, d.name))
    ensures Stored(s.contents, d.name) ==> HandleContent(s, d, now) == s
  {
    hide Matches, Deliveries, Stored, EvictScan;
    if !Stored(s.contents, d.name) {
      forall e | e in Filter(Unanswered(d), s.pit) ensures !Matches(e.pkt, d) {
        FilterMember(Unanswered(d), s.pit, e);
      }
    }
  }

  // ---------------------------------------------------------------- the limit

  ghost predicate AllStatic(contents: seq<Content>) {
    forall i :: 0 <= i < |contents| ==> contents[i].isStatic
  }

  /** Adding leaves the store over its limit exactly if it was over it, or was full of static contents and
      the name is new. */
  lemma OverLimitIff(s: State, c: Content)
    requires StoreOk(s) && s.maxCache > 0
    ensures Add2Cache(s, c).contentcnt > s.maxCache <==>
            s.contentcnt > s.maxCache
            || (s.contentcnt == s.maxCache && !Stored(s.contents, c.data.name) && AllStatic(s.contents))
  {
    hide Stored, Distinct;
    var pick := EvictScan(s.contents, |s.contents|).1;
    assert pick.None? <==> AllStatic(s.contents);
  }

  // ---------------------------------------------------------------- what eviction picks

  /** `k` is evictable and nothing evictable is older. */
  ghost predicate IsOldest(contents: seq<Content>, k: nat) {
    && k < |contents| && !contents[k].isStatic
    && forall j :: 0 <= j < |contents| && !contents[j].isStatic ==> contents[k].lastUsed <= contents[j].lastUsed
  }

  /** Position of the last evictable entry below `n`. */
  function LastLive(contents: seq<Content>, n: nat): (r: Option<nat>)
    requires n <= |contents|
    ensures r.Some? ==> r.value < n && !contents[r.value].isStatic
                        && forall j :: r.value < j < n ==> contents[j].isStatic
    ensures r.None? ==> forall j :: 0 <= j < n ==> contents[j].isStatic
  {
    if n == 0 then None else if !contents[n - 1].isStatic then Some(n - 1) else LastLive(contents, n - 1)
  }

  /** No evictable entry carries clock reading 0, except if the last one does. */
  ghost predicate ZeroOnlyLast(contents: seq<Content>, n: nat)
    requires n <= |contents|
  {
    (exists j :: 0 <= j < n && !contents[j].isStatic && contents[j].lastUsed == 0) ==>
      LastLive(contents, n).Some? && contents[LastLive(contents, n).value].lastUsed == 0
  }

  /** Position of the last evictable entry below `n` with clock reading 0, or -1. */
  function LastZero(contents: seq<Content>, n: nat): (r: int)
    requires n <= |contents|
    ensures -1 <= r < n
    ensures r >= 0 ==> !contents[r].isStatic && contents[r].lastUsed == 0
    ensures forall j :: r < j < n && !contents[j].isStatic ==> contents[j].lastUsed > 0
  {
    if n == 0 then -1
    else if !contents[n - 1].isStatic && contents[n - 1].lastUsed == 0 then n - 1
    else LastZero(contents, n - 1)
  }

  /** The scan over the first `n` entries: what it has picked is the oldest of those it has looked at
      since it last met a 0. */
  lemma {:induction false} ScanSoFar(contents: seq<Content>, n: nat)
    requires n <= |contents|
    ensures var (age, pick) := EvictScan(contents, n);
            && (pick.None? <==> LastLive(contents, n).None?)
            && (age == 0 && pick.Some? ==> pick == LastLive(contents, n) && pick.value == LastZero(contents, n))
            && (age > 0 ==> forall j :: LastZero(contents, n) < j < n && !contents[j].isStatic ==>
                              age <= contents[j].lastUsed)
            && (age > 0 && pick.Some? ==>
                  LastZero(contents, n) < pick.value
                  && forall j :: LastZero(contents, n) < j < pick.value && !contents[j].isStatic ==>
                                   age < contents[j].lastUsed)
  {
    if n > 0 {
      ScanSoFar(contents, n - 1);
    }
  }

  /** Which entry is evicted: of the evictable entries behind the last one with clock reading 0, the first of the
      oldest; or that one, if none is behind it. */
  lemma EvictsFirstOldest(contents: seq<Content>, k: nat)
    requires EvictScan(contents, |contents|).1 == Some(k)
    ensures var z := LastZero(contents, |contents|);
            && (k == z <==> forall j :: z < j < |contents| ==> contents[j].isStatic)
            && (k != z ==>
                  && z < k && forall j :: z < j < |contents| && !contents[j].isStatic ==>
                                            contents[k].lastUsed <= contents[j].lastUsed
                                            && (j < k ==> contents[k].lastUsed < contents[j].lastUsed))
  {
    hide EvictScan, LastLive;
    ScanSoFar(contents, |contents|);
  }

  /** Eviction picks an oldest evictable entry if and only if a clock reading of 0 occurs, among the
      evictable entries, nowhere or at the end of the list. */
  lemma EvictsOldestIff(contents: seq<Content>)
    requires EvictScan(contents, |contents|).1.Some?
    ensures IsOldest(contents, EvictScan(contents, |contents|).1.value) <==> ZeroOnlyLast(contents, |contents|)
  {
    var n := |contents|;
    var (age, pick) := EvictScan(contents, n);
    var z := LastZero(contents, n);
    ScanSoFar(contents, n);
    if age > 0 && z >= 0 {
      assert contents[z].lastUsed < contents[pick.value].lastUsed;
      if contents[LastLive(contents, n).value].lastUsed == 0 {
        LastZeroIsPicked(contents, n);
      }
    }
  }

  lemma {:induction false} LastZeroIsPicked(contents: seq<Content>, n: nat)
    requires n <= |contents| && LastLive(contents, n).Some? && contents[LastLive(contents, n).value].lastUsed == 0
    ensures EvictScan(contents, n).0 == 0
  {
    if contents[n - 1].isStatic {
      LastZeroIsPicked(contents, n - 1);
    }
  }

  // ---------------------------------------------------------------- eviction over a run

  /** The store lists its entries newest first. */
  ghost predicate NewestFirst(contents: seq<Content>) {
    forall i, j :: 0 <= i < j < |contents| ==> contents[j].lastUsed <= contents[i].lastUsed
  }

  ghost predicate NotAfter(contents: seq<Content>, now: U32) {
    forall i :: 0 <= i < |contents| ==> contents[i].lastUsed <= now
  }

  /** In such a list eviction picks an oldest entry, zeros or not. */
  lemma NewestFirstEvictsOldest(contents: seq<Content>)
    requires NewestFirst(contents) && EvictScan(contents, |contents|).1.Some?
    ensures IsOldest(contents, EvictScan(contents, |contents|).1.value)
  {
    hide EvictScan, IsOldest;
    var n := |contents|;
    if j :| 0 <= j < n && !contents[j].isStatic && contents[j].lastUsed == 0 {
      var last := LastLive(contents, n).value;
      assert j <= last && contents[last].lastUsed <= contents[j].lastUsed;
    }
    EvictsOldestIff(contents);
  }

  lemma AgedKeepsTime(c: Content, t: U32)
    ensures var r := AgeContent(c, t);
            r == [] || (|r| == 1 && r[0].lastUsed == c.lastUsed && r[0].data == c.data)
  {
  }

  /** What is left after ageing the first `n` entries bears the time of one of them. */
  lemma AgedFrom(contents: seq<Content>, n: nat, t: U32, x: Content)
    requires n <= |contents| && x in Pass(AgedContent(t), contents, n)
    ensures exists i :: 0 <= i < n && x.lastUsed == contents[i].lastUsed
  {
    hide AgeContent, Pass;
    PassMember(AgedContent(t), contents, n, x);
    var i :| 0 <= i < n && x in AgeContent(contents[i], t);
    AgedKeepsTime(contents[i], t);
  }

  lemma {:induction false} AgedNewestFirst(contents: seq<Content>, n: nat, t: U32)
    requires n <= |contents| && NewestFirst(contents)
    ensures NewestFirst(Pass(AgedContent(t), contents, n))
  {
    hide AgeContent;
    if n > 0 {
      AgedNewestFirst(contents, n - 1, t);
      AgedKeepsTime(contents[n - 1], t);
      var front := Pass(AgedContent(t), contents, n - 1);
      forall i | 0 <= i < |front| ensures contents[n - 1].lastUsed <= front[i].lastUsed {
        AgedFrom(contents, n - 1, t, front[i]);
      }
    }
  }

  lemma DropNewestFirst(contents: seq<Content>, k: nat)
    requires k < |contents| && NewestFirst(contents)
    ensures NewestFirst(contents[..k] + contents[k + 1..])
  {
    var rest := contents[..k] + contents[k + 1..];
    forall i, j | 0 <= i < j < |rest| ensures rest[j].lastUsed <= rest[i].lastUsed {
      assert rest[i] == contents[if i < k then i else i + 1];
      assert rest[j] == contents[if j < k then j else j + 1];
    }
  }

  lemma MakeRoomNewestFirst(s: State, now: U32)
    requires NewestFirst(s.contents) && NotAfter(s.contents, now)
    ensures NewestFirst(MakeRoom(s).contents) && NotAfter(MakeRoom(s).contents, now)
  {
    var pick := EvictScan(s.contents, |s.contents|).1;
    if pick.Some? {
      DropNewestFirst(s.contents, pick.value);
    }
    forall i | 0 <= i < |MakeRoom(s).contents| ensures MakeRoom(s).contents[i].lastUsed <= now {
      RoomFromOld(s, MakeRoom(s).contents[i]);
    }
  }

  lemma Add2CacheNewestFirst(s: State, c: Content)
    requires NewestFirst(s.contents) && NotAfter(s.contents, c.lastUsed)
    ensures NewestFirst(Add2Cache(s, c).contents) && NotAfter(Add2Cache(s, c).contents, c.lastUsed)
  {
    hide MakeRoom;
    MakeRoomNewestFirst(s, c.lastUsed);
  }

  /** The instant at which an event may store something. */
  function StoresAt(ev: Event): Option<U32> {
    match ev
    case RxData(_, now) => Some(now)
    case StoreData(_, now) => Some(now)
    case _ => None
  }

  /** The clock does not run backwards from one storing event to the next. */
  ghost predicate Timely(evs: seq<Event>) {
    forall i, j :: 0 <= i <= j < |evs| && StoresAt(evs[i]).Some? && StoresAt(evs[j]).Some? ==>
                     StoresAt(evs[i]).value <= StoresAt(evs[j]).value
  }

  lemma ApplyNewestFirst(s: State, ev: Event)
    requires NewestFirst(s.contents)
    requires StoresAt(ev).Some? ==> NotAfter(s.contents, StoresAt(ev).value)
    ensures NewestFirst(Apply(s, ev).contents)
    ensures forall now: U32 :: NotAfter(s.contents, now) && (StoresAt(ev).Some? ==> StoresAt(ev).value <= now) ==>
                          NotAfter(Apply(s, ev).contents, now)
  {
    hide Deliveries, Wanted, Stored, MakeRoom, Strip, Remember, SameAt, HitAt, Matches, AgeInterests;
    match ev
    case RxData(d, now) =>
      Add2CacheNewestFirst(ServePending(s, d), Content(d, Count(Orphan(d), s.pit) > 0, false, now));
    case StoreData(d, now) =>
      Add2CacheNewestFirst(s, Content(d, false, false, now));
    case Tick(t) =>
      AgedNewestFirst(s.contents, |s.contents|, t);
      AgeContentsOnly(s, t);
      forall now: U32 | NotAfter(s.contents, now) ensures NotAfter(Apply(s, ev).contents, now) {
        forall i | 0 <= i < |Apply(s, ev).contents| ensures Apply(s, ev).contents[i].lastUsed <= now {
          AgedFrom(s.contents, |s.contents|, t, Apply(s, ev).contents[i]);
        }
      }
    case _ =>
  }

  lemma AgeContentsOnly(s: State, t: U32)
    ensures Age(s, t).contents == FlatMap(AgedContent(t), s.contents)
  {
    hide ExpiredFaces, Resent;
  }

  /** With a clock that does not run backwards, the store of a relay that started empty is always
      newest first, so what it evicts is always an oldest evictable entry. */
  lemma {:induction false} RunEvictsOldest(s: State, evs: seq<Event>, n: nat)
    requires IsEmpty(s) && Timely(evs) && n <= |evs|
    ensures NewestFirst(Run(s, evs, n).contents)
    ensures forall j :: n <= j < |evs| && StoresAt(evs[j]).Some? ==>
                          NotAfter(Run(s, evs, n).contents, StoresAt(evs[j]).value)
    ensures var cs := Run(s, evs, n).contents;
            EvictScan(cs, |cs|).1.Some? ==> IsOldest(cs, EvictScan(cs, |cs|).1.value)
  {
    hide Apply, NewestFirst, NotAfter;
    if n > 0 {
      RunEvictsOldest(s, evs, n - 1);
      ApplyNewestFirst(Run(s, evs, n - 1), evs[n - 1]);
    } else {
      EmptyNewestFirst();
    }
    var cs := Run(s, evs, n).contents;
    if EvictScan(cs, |cs|).1.Some? {
      NewestFirstEvictsOldest(cs);
    }
  }

  lemma EmptyNewestFirst()
    ensures NewestFirst([]) && forall now: U32 :: NotAfter([], now)
  {
  }
}
