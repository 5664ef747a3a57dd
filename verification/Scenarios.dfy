/**
 Short runs from an empty relay that end where one would not expect: a store over its limit, an eviction
 that passes over the oldest content, and a stale copy that shuts out fresh data.
 */
module Scenarios {
  import opened Base
  import opened Names
  import opened RelayState
  import opened ContentStore

  function NameOf(n: Byte): Name {
    Name([[n]], None)
  }

  function Ask(n: Byte, must: bool): Interest {
    Interest(NameOf(n), 0, 2, None, must, None, 3, 4000)
  }

  function Answer(n: Byte, text: Bytes): Data {
    Data(NameOf(n), None, 1000, text)
  }

  lemma NamesDiffer(m: Byte, n: Byte)
    ensures NameOf(m) == NameOf(n) <==> m == n
  {
    if NameOf(m) == NameOf(n) {
      assert NameOf(m).comps[0][0] == m && NameOf(n).comps[0][0] == n;
    }
  }

  lemma AnswersMatch(m: Byte, must: bool, n: Byte, text: Bytes)
    ensures Matches(Ask(m, must), Answer(n, text)) <==> m == n
    ensures !IsMgmt(NameOf(m))
  {
    NamesDiffer(m, n);
  }

  // ---------------------------------------------------------------- single steps

  /** A new Interest on a relay without routes becomes the first pending entry. */
  lemma Pends(s: State, from: Option<FaceId>, p: Interest, now: U32)
    requires p.nonce.None? && p.scope > 2 && !IsMgmt(p.name) && s.fib == [] && s.pit == [] && s.maxPit == -1
    requires forall i :: 0 <= i < |s.contents| ==> !Hits(s.contents[i], p)
    ensures HandleInterest(s, from, p, now) ==
            Heard(s, from, p, true).(pit := [AppendPending(NewEntry(p, from, now), from)], pitcnt := s.pitcnt + 1)
  {
    hide Matches, IsMgmt;
    var s1 := Heard(s, from, p, true);
    var k := HitAt(s1.contents, p);
    var e := AppendPending(NewEntry(p, from, now), from);
    assert FlatMap(Forwarded(s1.faces, e), s1.fib) == [];
    assert s1.log + [] == s1.log;
  }

  /** Data answers the only pending entry. */
  lemma AnswersOne(s: State, e: PitEntry, d: Data)
    requires s.pit == [e] && Matches(e.pkt, d) && !Stored(s.contents, d.name) && |e.pending| <= 1
    ensures ServePending(s, d).pit == [] && ServePending(s, d).pitcnt == s.pitcnt - 1
    ensures ServePending(s, d).log == s.log + if e.pending == [] then [] else
              [SentData(e.pending[0], d, e.pkt, IsLocal(s.faces, e.pending[0]))]
    ensures Wanted(s.pit, d) && (Count(Orphan(d), s.pit) > 0 <==> e.pending == [])
  {
    hide Matches;
    assert e in s.pit;
    FilterOne(Unanswered(d), e);
    CountOne(Orphan(d), e);
    var ds := Deliveries(s.pit, d);
    assert DeliveriesTo(s.pit, 0, d) == [];
    assert FacesOf([]) == {};
    assert DeliveriesTo(s.pit, 1, d) == [] + OneEntry(e, d, {});
    assert ds == OneEntry(e, d, {});
    if |e.pending| == 1 {
      assert EntryDeliveries(e.pending, 0, e.pkt, {}) == [];
      assert ds == [(e.pending[0], e.pkt)];
    }
    assert s.log + [] == s.log;
  }

  lemma NotStored(contents: seq<Content>, name: Name)
    requires forall i :: 0 <= i < |contents| ==> contents[i].data.name != name
    ensures !Stored(contents, name)
  {
  }

  // ---------------------------------------------------------------- over the limit

  /** The application asks and the network answers: contents without a waiting face are pinned, and a
      store whose limit is one holds two of them. */
  function AskedAndAnswered(): seq<Event> {
    [RxInterest(None, Ask(1, false), 0), RxData(Answer(1, []), 0),
     RxInterest(None, Ask(2, false), 0), RxData(Answer(2, []), 0)]
  }

  /** Static contents with the given names, one behind the other. */
  predicate Pinned(s: State, names: seq<Byte>) {
    && s.fib == [] && s.pitcnt == |s.pit| && s.maxPit == -1 && s.maxCache == 1
    && s.contentcnt == |s.contents| == |names|
    && forall i :: 0 <= i < |names| ==> s.contents[i] == Content(Answer(names[i], []), true, false, 0)
  }

  lemma AskOnce(s: State, names: seq<Byte>, n: Byte)
    requires Pinned(s, names) && s.pit == [] && n !in names
    ensures var s1 := HandleInterest(s, None, Ask(n, false), 0);
            Pinned(s1, names) && s1.pit == [NewEntry(Ask(n, false), None, 0)]
  {
    hide Matches, IsMgmt, HandleInterest;
    AnswersMatch(n, false, n, []);
    forall i | 0 <= i < |s.contents|
      ensures !Hits(s.contents[i], Ask(n, false))
    {
      AnswersMatch(n, false, names[i], []);
    }
    Pends(s, None, Ask(n, false), 0);
  }

  lemma PinOne(s: State, names: seq<Byte>, n: Byte)
    requires Pinned(s, names) && !Stored(s.contents, NameOf(n)) && |names| <= 1
    ensures var s1 := Add2Cache(s, Content(Answer(n, []), true, false, 0)); Pinned(s1, [n] + names) && s1.pit == s.pit
  {
    hide Stored, EvictScan;
    assert EvictScan(s.contents, |s.contents|).1.None?;
  }

  lemma AnswerOnce(s: State, names: seq<Byte>, n: Byte)
    requires Pinned(s, names) && s.pit == [NewEntry(Ask(n, false), None, 0)] && n !in names && |names| <= 1
    ensures var s1 := HandleContent(s, Answer(n, []), 0); Pinned(s1, [n] + names) && s1.pit == []
  {
    hide Matches, Stored, ServePending, Add2Cache, NameOf;
    var d := Answer(n, []);
    AnswersMatch(n, false, n, []);
    forall i | 0 <= i < |s.contents|
      ensures s.contents[i].data.name != d.name
    {
      NamesDiffer(names[i], n);
    }
    NotStored(s.contents, d.name);
    AnswersOne(s, s.pit[0], d);
    ServeKeepsStore(s, d);
    PinOne(ServePending(s, d), names, n);
  }

  lemma ServeKeepsStore(s: State, d: Data)
    ensures var s1 := ServePending(s, d);
            && s1.contents == s.contents && s1.contentcnt == s.contentcnt && s1.fib == s.fib && s1.faces == s.faces
            && s1.maxCache == s.maxCache && s1.maxPit == s.maxPit
  {
  }

  lemma StoreOverfills(s: State)
    requires IsEmpty(s) && s.maxCache == 1 && s.maxPit == -1
    ensures CanRun(s, AskedAndAnswered())
    ensures var r := Run(s, AskedAndAnswered(), 4); r.contentcnt == |r.contents| == 2 && r.contentcnt > r.maxCache
  {
    hide HandleInterest, HandleContent;
    var evs := AskedAndAnswered();
    var s0 := Run(s, evs, 0);
    AskOnce(s0, [], 1);
    var s1 := HandleInterest(s0, None, Ask(1, false), 0);
    AnswerOnce(s1, [], 1);
    var s2 := HandleContent(s1, Answer(1, []), 0);
    AskOnce(s2, [1], 2);
    var s3 := HandleInterest(s2, None, Ask(2, false), 0);
    AnswerOnce(s3, [1], 2);
    assert Run(s, evs, 1) == s1;
    assert Run(s, evs, 2) == s2;
    assert Run(s, evs, 3) == s3;
  }

  // ---------------------------------------------------------------- the oldest content is passed over

  /** Contents handed in while the clock goes back. */
  function HandedIn(): seq<Event> {
    [StoreData(Answer(1, []), 5), StoreData(Answer(2, []), 0), StoreData(Answer(3, []), 3),
     StoreData(Answer(4, []), 6)]
  }

  function Kept(n: Byte, at: U32): Content {
    Content(Answer(n, []), false, false, at)
  }

  /** The application adds a content whose name is new; there is room, or the one at `k` goes. */
  lemma HandsIn(s: State, n: Byte, at: U32)
    requires s.pit == [] && s.maxCache == 3 && s.contentcnt == |s.contents| <= 3
    requires forall i :: 0 <= i < |s.contents| ==> s.contents[i].data.name != NameOf(n) && !s.contents[i].isStatic
    ensures var s1 := CsAdd(s, Answer(n, []), at);
            var k := EvictScan(s.contents, |s.contents|).1;
            && s1.pit == [] && s1.maxCache == 3 && s1.contentcnt == |s1.contents|
            && s1.contents == [Kept(n, at)] +
                 if |s.contents| < 3 then s.contents else s.contents[..k.value] + s.contents[k.value + 1..]
  {
    hide Stored, EvictScan;
    var d := Answer(n, []);
    NotStored(s.contents, d.name);
    var s1 := Add2Cache(s, Content(d, false, false, at));
    assert Deliveries([], d) == [] && Filter(Unanswered(d), []) == [] && Count(Orphan(d), []) == 0;
    assert ServePending(s1, d).contents == s1.contents;
    if s.contents != [] {
      assert !s.contents[0].isStatic;
    }
  }

  lemma AllNamesDiffer()
    ensures forall m: Byte, n: Byte :: NameOf(m) == NameOf(n) <==> m == n
  {
    forall m: Byte, n: Byte
      ensures NameOf(m) == NameOf(n) <==> m == n
    {
      NamesDiffer(m, n);
    }
  }

  lemma ThreeIn(s: State)
    requires IsEmpty(s) && s.maxCache == 3
    ensures var r := Run(s, HandedIn(), 3);
            && r.contents == [Kept(3, 3), Kept(2, 0), Kept(1, 5)]
            && r.pit == [] && r.maxCache == 3 && r.contentcnt == 3
  {
    hide CsAdd, EvictScan, NameOf;
    var evs := HandedIn();
    AllNamesDiffer();
    var s0 := Run(s, evs, 0);
    HandsIn(s0, 1, 5);
    var s1 := CsAdd(s0, Answer(1, []), 5);
    assert s1.contents == [Kept(1, 5)];
    HandsIn(s1, 2, 0);
    var s2 := CsAdd(s1, Answer(2, []), 0);
    HandsIn(s2, 3, 3);
    assert Run(s, evs, 1) == s1;
    assert Run(s, evs, 2) == s2;
  }

  /** From an empty relay with room for three: the scan evicts the content of age 5 and keeps that of
      age 0. */
  lemma EvictionCanMiss(s: State)
    requires IsEmpty(s) && s.maxCache == 3
    ensures CanRun(s, HandedIn())
    ensures var cs := Run(s, HandedIn(), 3).contents;
            && cs == [Kept(3, 3), Kept(2, 0), Kept(1, 5)]
            && EvictScan(cs, 3).1 == Some(2) && !IsOldest(cs, 2)
    ensures Run(s, HandedIn(), 4).contents == [Kept(4, 6), Kept(3, 3), Kept(2, 0)]
  {
    hide CsAdd, EvictScan, NameOf, IsOldest;
    ThreeIn(s);
    var s3 := Run(s, HandedIn(), 3);
    var cs := s3.contents;
    ScanMisses(cs);
    AllNamesDiffer();
    HandsIn(s3, 4, 6);
    assert cs[..2] + cs[3..] == [Kept(3, 3), Kept(2, 0)];
  }

  lemma ScanMisses(cs: seq<Content>)
    requires cs == [Kept(3, 3), Kept(2, 0), Kept(1, 5)]
    ensures EvictScan(cs, 3).1 == Some(2) && !IsOldest(cs, 2)
  {
    assert EvictScan(cs, 0) == (0, None);
    assert EvictScan(cs, 1) == (3, Some(0));
    assert EvictScan(cs, 2) == (0, Some(1));
    assert cs[1].lastUsed < cs[2].lastUsed;
  }

  // ---------------------------------------------------------------- a stale copy shuts out fresh data

  /** A face asks, is answered, and the copy goes stale; the face asks for fresh data, which arrives. */
  function AskedAfresh(peer: Addr, was: Bytes, news: Bytes): seq<Event> {
    [LookupFace(0, Some(peer), 0), RxInterest(Some(1), Ask(1, false), 0), RxData(Answer(1, was), 0), Tick(1),
     RxInterest(Some(1), Ask(1, true), 1), RxData(Answer(1, news), 1)]
  }

  /** The relay of this run: one face, one entry or none, one copy or none. */
  predicate Small(s: State, pit: seq<PitEntry>, contents: seq<Content>, log: seq<Action>) {
    && |s.faces| == 1 && s.faces[0].id == 1 && s.faces[0].ifndx == 0 && s.faces[0].lastUsed == 0
    && s.fib == [] && s.maxPit == -1 && s.maxCache != 0
    && s.pit == pit && s.pitcnt == |pit| && s.contents == contents && s.contentcnt == |contents| && s.log == log
  }

  function Waiting(must: bool, now: U32): PitEntry {
    PitEntry(Ask(1, must), Some(1), [1], 4, now, 0)
  }

  function Copy(text: Bytes, stale: bool): Content {
    Content(Answer(1, text), false, stale, 0)
  }

  function Asked(must: bool): Action {
    GotInterest(1, Ask(1, must), true)
  }

  lemma Arrives(s: State, peer: Addr)
    requires IsEmpty(s) && s.maxCache != 0 && s.maxPit == -1
    ensures Small(GetFace(s, 0, Some(peer), 0).0, [], [], [])
  {
  }

  lemma Asks(s: State, contents: seq<Content>, log: seq<Action>, must: bool, now: U32)
    requires Small(s, [], contents, log)
    requires contents == [] || (must && exists text :: contents == [Copy(text, true)])
    ensures Small(HandleInterest(s, Some(1), Ask(1, must), now), [Waiting(must, now)], contents, log + [Asked(must)])
  {
    hide Matches, IsMgmt, HandleInterest;
    AnswersMatch(1, must, 1, []);
    forall i | 0 <= i < |contents|
      ensures !Hits(contents[i], Ask(1, must))
    {
      assert contents[i].stale;
    }
    Pends(s, Some(1), Ask(1, must), now);
    assert [] + [1] == [1];
    assert AppendPending(NewEntry(Ask(1, must), Some(1), now), Some(1)) == Waiting(must, now);
  }

  lemma Answers(s: State, text: Bytes)
    requires Small(s, [Waiting(false, 0)], [], [Asked(false)])
    ensures Small(HandleContent(s, Answer(1, text), 0), [], [Copy(text, false)],
                  [Asked(false), SentData(1, Answer(1, text), Ask(1, false), false)])
  {
    hide Matches, Stored, ServePending;
    var d := Answer(1, text);
    AnswersMatch(1, false, 1, text);
    NotStored(s.contents, d.name);
    AnswersOne(s, s.pit[0], d);
    ServeKeepsStore(s, d);
    assert forall f :: f in s.faces ==> f == s.faces[0];
    assert !IsLocal(s.faces, 1);
    assert EvictScan([], 0).1.None?;
  }

  lemma GoesStale(s: State, text: Bytes, log: seq<Action>)
    requires Small(s, [], [Copy(text, false)], log)
    ensures Small(Age(s, 1), [], [Copy(text, true)], log)
  {
    var s1 := AgeContents(s, 1);
    FlatMapOne(AgedContent(1), Copy(text, false));
    assert s1.contents == [Copy(text, true)];
    var s2 := AgeInterests(s1, 1);
    assert FlatMap(AgedInterest(1), []) == [] && FlatMap(Resent(s1.fib, s1.faces, 1), []) == [];
    assert s2.log == s1.log + [] == s1.log;
    assert ExpiredTo(s2.faces, 0, 1) == {};
    assert ExpiredFaces(s2.faces, 1) == {};
  }

  /** The relay answers the first Interest, refuses its stale copy to the second, and drops the fresh data
      that would answer it: the Interest still waits and the copy is still the old one. */
  lemma StaleCopyBlocks(s: State, peer: Addr, was: Bytes, news: Bytes)
    requires IsEmpty(s) && s.maxCache != 0 && s.maxPit == -1
    ensures CanRun(s, AskedAfresh(peer, was, news))
    ensures var r := Run(s, AskedAfresh(peer, was, news), 6);
            && r.pit == [Waiting(true, 1)] && r.contents == [Copy(was, true)]
            && r.log == [Asked(false), SentData(1, Answer(1, was), Ask(1, false), false), Asked(true)]
  {
    hide HandleInterest, HandleContent, Age, GetFace, Small;
    var evs := AskedAfresh(peer, was, news);
    var sent := SentData(1, Answer(1, was), Ask(1, false), false);
    var s1 := Run(s, evs, 1);
    Arrives(s, peer);
    assert Run(s, evs, 0) == s;
    var s2 := HandleInterest(s1, Some(1), Ask(1, false), 0);
    Asks(s1, [], [], false, 0);
    assert [] + [Asked(false)] == [Asked(false)];
    var s3 := HandleContent(s2, Answer(1, was), 0);
    Answers(s2, was);
    var s4 := Age(s3, 1);
    GoesStale(s3, was, [Asked(false), sent]);
    var s5 := HandleInterest(s4, Some(1), Ask(1, true), 1);
    Asks(s4, [Copy(was, true)], [Asked(false), sent], true, 1);
    assert [Asked(false), sent] + [Asked(true)] == [Asked(false), sent, Asked(true)];
    assert Run(s, evs, 2) == s2;
    assert Run(s, evs, 3) == s3;
    assert Run(s, evs, 4) == s4;
    assert Run(s, evs, 5) == s5;
    Dropped(s5, was, news, [Asked(false), sent, Asked(true)]);
    FaceThere(s1, [], [], []);
    FaceThere(s4, [], [Copy(was, true)], [Asked(false), sent]);
  }

  lemma Dropped(s: State, was: Bytes, news: Bytes, log: seq<Action>)
    requires Small(s, [Waiting(true, 1)], [Copy(was, true)], log)
    ensures HandleContent(s, Answer(1, news), 1) == s
    ensures s.pit == [Waiting(true, 1)] && s.contents == [Copy(was, true)] && s.log == log
  {
    assert s.contents[0].data.name == Answer(1, news).name;
  }

  lemma FaceThere(s: State, pit: seq<PitEntry>, contents: seq<Content>, log: seq<Action>)
    requires Small(s, pit, contents, log)
    ensures HasFace(s.faces, 1)
  {
    assert s.faces[0] in s.faces;
  }
}
