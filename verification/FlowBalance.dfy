/**
 Flow balance over whole runs: on every face, and for every kind of request, the data delivered plus
 the requests still pending never exceed the Interests accepted from that face. So no data is
 unsolicited, and no Interest is answered twice.
 */
module FlowBalance {
  import opened Base
  import opened Names
  import opened RelayState
  import opened Structure

  /** Accepted Interests from `f`, deliveries to `f` and pending entries naming `f`, for the requests
      whose key satisfies `want`. */
  function IsGot(f: FaceId, want: Key -> bool): Action -> bool {
    (a: Action) => a.GotInterest? && a.face == f && a.isNew && want(KeyOf(a.interest))
  }

  function IsSent(f: FaceId, want: Key -> bool): Action -> bool {
    (a: Action) => a.SentData? && a.face == f && want(KeyOf(a.cause))
  }

  function IsWaiting(f: FaceId, want: Key -> bool): PitEntry -> bool {
    (e: PitEntry) => f in e.pending && want(KeyOf(e.pkt))
  }

  function IsKey(k: Key): Key -> bool {
    (x: Key) => x == k
  }

  function AnyKey(): Key -> bool {
    (x: Key) => true
  }

  /** The balance of the moment, and what it implies of every earlier moment. */
  ghost predicate LogBalanced(log: seq<Action>, f: FaceId, want: Key -> bool, waiting: nat) {
    && Count(IsSent(f, want), log) + waiting <= Count(IsGot(f, want), log)
    && forall n :: 0 <= n <= |log| ==> CountTo(IsSent(f, want), log, n) <= CountTo(IsGot(f, want), log, n)
  }

  ghost predicate Balanced(s: State, f: FaceId, want: Key -> bool) {
    LogBalanced(s.log, f, want, Count(IsWaiting(f, want), s.pit))
  }

  /** Every delivery answers an Interest that the data matches. */
  ghost predicate Answers(log: seq<Action>) {
    forall i :: 0 <= i < |log| && log[i].SentData? ==> Matches(log[i].cause, log[i].data)
  }

  // ---------------------------------------------------------------- counting

  lemma {:induction false} CountMonotone<T>(p: T -> bool, s: seq<T>, m: nat, n: nat)
    requires m <= n <= |s|
    ensures CountTo(p, s, m) <= CountTo(p, s, n)
  {
    if m < n {
      CountMonotone(p, s, m, n - 1);
    }
  }

  lemma CountNone<T>(p: T -> bool, s: seq<T>)
    requires forall i :: 0 <= i < |s| ==> !p(s[i])
    ensures Count(p, s) == 0
  {
    CountPositive(p, s, |s|);
  }

  /** A pass that only keeps or rewrites elements, and turns none into a satisfying one. */
  lemma {:induction false} PassCount<T>(f: T -> seq<T>, p: T -> bool, s: seq<T>, n: nat)
    requires n <= |s|
    requires forall i :: 0 <= i < |s| ==> |f(s[i])| <= 1 && (f(s[i]) != [] && p(f(s[i])[0]) ==> p(s[i]))
    ensures Count(p, Pass(f, s, n)) <= CountTo(p, s, n)
  {
    if n > 0 {
      PassCount(f, p, s, n - 1);
      var r := f(s[n - 1]);
      CountAppend(p, Pass(f, s, n - 1), r);
      if r != [] {
        assert r == [r[0]];
        CountOne(p, r[0]);
      } else {
        CountNone(p, r);
      }
    }
  }

  /** Extending a balanced log: first Interests, then deliveries covered by what was pending. */
  lemma Extend(log: seq<Action>, got: seq<Action>, sent: seq<Action>, f: FaceId, want: Key -> bool,
               before: nat, after: nat)
    requires LogBalanced(log, f, want, before)
    requires Count(IsSent(f, want), got) == 0 && Count(IsGot(f, want), sent) == 0
    requires Count(IsSent(f, want), sent) + after <= before + Count(IsGot(f, want), got)
    ensures LogBalanced(log + got + sent, f, want, after)
  {
    var isSent, isGot := IsSent(f, want), IsGot(f, want);
    var all := log + got + sent;
    CountAppend(isSent, log + got, sent);
    CountAppend(isSent, log, got);
    CountAppend(isGot, log + got, sent);
    CountAppend(isGot, log, got);
    forall n | 0 <= n <= |all| ensures CountTo(isSent, all, n) <= CountTo(isGot, all, n) {
      CountSplit(isSent, log + got, sent, n);
      CountSplit(isGot, log + got, sent, n);
      if n <= |log + got| {
        CountSplit(isSent, log, got, n);
        CountSplit(isGot, log, got, n);
        if n > |log| {
          CountMonotone(isSent, got, n - |log|, |got|);
        }
      } else {
        CountMonotone(isSent, sent, n - |log + got|, |sent|);
        CountMonotone(isGot, sent, n - |log + got|, |sent|);
      }
    }
  }

  /** Actions that are neither accepted Interests nor deliveries do not move the balance. */
  ghost predicate Neutral(a: Action) {
    a.SentInterest? || (a.GotInterest? && !a.isNew)
  }

  lemma ExtendNeutral(log: seq<Action>, more: seq<Action>, f: FaceId, want: Key -> bool, before: nat, after: nat)
    requires LogBalanced(log, f, want, before) && after <= before
    requires forall i :: 0 <= i < |more| ==> Neutral(more[i])
    ensures LogBalanced(log + more, f, want, after)
  {
    CountNone(IsSent(f, want), more);
    CountNone(IsGot(f, want), more);
    Extend(log, more, [], f, want, before, after);
    assert log + more + [] == log + more;
  }

  lemma Forwards(faces: seq<Face>, e: PitEntry, fib: seq<FibEntry>)
    ensures forall a :: a in FlatMap(Forwarded(faces, e), fib) ==> a.SentInterest?
  {
    forall a | a in FlatMap(Forwarded(faces, e), fib) ensures a.SentInterest? {
      PassMember(Forwarded(faces, e), fib, |fib|, a);
    }
  }

  // ---------------------------------------------------------------- serving data

  /** An entry serves a face at most once, and only if the face waits in it. */
  lemma {:induction false} EntryCount(toLog: Delivery -> Action, faces: seq<Face>, d: Data, f: FaceId,
                                      want: Key -> bool, pending: seq<FaceId>, n: nat, cause: Interest,
                                       done: set<FaceId>)
    requires n <= |pending| && toLog == Delivered(faces, d)
    ensures Count(IsSent(f, want), Map(toLog, EntryDeliveries(pending, n, cause, done)))
         == if f in FacesOf(EntryDeliveries(pending, n, cause, done)) && want(KeyOf(cause)) then 1 else 0
  {
    hide LogBalanced;
    if n > 0 {
      EntryCount(toLog, faces, d, f, want, pending, n - 1, cause, done);
      var front := EntryDeliveries(pending, n - 1, cause, done);
      var x := (pending[n - 1], cause);
      if x.0 !in done && x.0 !in FacesOf(front) {
        AppendDelivery(toLog, faces, d, f, want, front, x);
      }
    } else {
      CountNone(IsSent(f, want), Map(toLog, EntryDeliveries(pending, 0, cause, done)));
    }
  }

  lemma AppendDelivery(toLog: Delivery -> Action, faces: seq<Face>, d: Data, f: FaceId, want: Key -> bool,
                       front: seq<Delivery>, x: Delivery)
    requires toLog == Delivered(faces, d)
    ensures Count(IsSent(f, want), Map(toLog, front + [x]))
         == Count(IsSent(f, want), Map(toLog, front)) + if x.0 == f && want(KeyOf(x.1)) then 1 else 0
    ensures FacesOf(front + [x]) == FacesOf(front) + {x.0}
  {
    MapAppend(toLog, front, [x]);
    assert Map(toLog, [x]) == [toLog(x)];
    CountAppend(IsSent(f, want), Map(toLog, front), Map(toLog, [x]));
    CountOne(IsSent(f, want), toLog(x));
    forall g | g in FacesOf(front) ensures g in FacesOf(front + [x]) {
      var y :| y in front && y.0 == g;
      assert y in front + [x];
    }
    assert x in front + [x];
  }

  /** What is delivered to `f` is covered by the matching entries that listed it. */
  lemma {:induction false} ServedCovered(faces: seq<Face>, pit: seq<PitEntry>, n: nat, d: Data, f: FaceId,
                                         want: Key -> bool)
    requires n <= |pit|
    ensures Count(IsSent(f, want), Map(Delivered(faces, d), DeliveriesTo(pit, n, d)))
          + Count(IsWaiting(f, want), Pass(Guard(Unanswered(d)), pit, n))
         <= CountTo(IsWaiting(f, want), pit, n)
  {
    hide FacesOf, Map, Matches, OneEntry, KeyOf, Guard, Count, IsWaiting, IsSent;
    var toLog, isSent, isWaiting := Delivered(faces, d), IsSent(f, want), IsWaiting(f, want);
    if n > 0 {
      ServedCovered(faces, pit, n - 1, d, f, want);
      var front := DeliveriesTo(pit, n - 1, d);
      var e := pit[n - 1];
      var more := OneEntry(e, d, FacesOf(front));
      MapAppend(toLog, front, more);
      CountAppend(isSent, Map(toLog, front), Map(toLog, more));
      CountAppend(isWaiting, Pass(Guard(Unanswered(d)), pit, n - 1), Guard(Unanswered(d))(e));
      OneLeft(e, d, isWaiting);
      OneEntryCovered(faces, e, d, f, want, FacesOf(front));
    } else {
      CountOfNone(isSent, toLog);
      CountNone(isWaiting, []);
    }
  }

  lemma CountOfNone(isSent: Action -> bool, toLog: Delivery -> Action)
    ensures Count(isSent, Map(toLog, [])) == 0
  {
  }

  lemma OneLeft(e: PitEntry, d: Data, isWaiting: PitEntry -> bool)
    ensures Count(isWaiting, Guard(Unanswered(d))(e)) == if !Matches(e.pkt, d) && isWaiting(e) then 1 else 0
  {
    CountOne(isWaiting, e);
  }

  lemma OneEntryCovered(faces: seq<Face>, e: PitEntry, d: Data, f: FaceId, want: Key -> bool, done: set<FaceId>)
    ensures Count(IsSent(f, want), Map(Delivered(faces, d), OneEntry(e, d, done)))
         <= if Matches(e.pkt, d) && IsWaiting(f, want)(e) then 1 else 0
  {
    if Matches(e.pkt, d) {
      var ds := EntryDeliveries(e.pending, |e.pending|, e.pkt, done);
      EntryCount(Delivered(faces, d), faces, d, f, want, e.pending, |e.pending|, e.pkt, done);
      if f in FacesOf(ds) {
        var x :| x in ds && x.0 == f;
        EntrySource(e.pending, |e.pending|, e.pkt, done, x);
      }
    } else {
      CountNone(IsSent(f, want), Map(Delivered(faces, d), OneEntry(e, d, done)));
    }
  }

  lemma ServedNotGot(s: State, d: Data, f: FaceId, want: Key -> bool)
    ensures Count(IsGot(f, want), Map(Delivered(s.faces, d), Deliveries(s.pit, d))) == 0
  {
    CountNone(IsGot(f, want), Map(Delivered(s.faces, d), Deliveries(s.pit, d)));
  }

  lemma ServedSplit(s: State, d: Data)
    ensures ServePending(s, d).pit == Pass(Guard(Unanswered(d)), s.pit, |s.pit|)
    ensures Deliveries(s.pit, d) == DeliveriesTo(s.pit, |s.pit|, d)
    ensures forall p: PitEntry -> bool :: Count(p, s.pit) == CountTo(p, s.pit, |s.pit|)
  {
  }

  lemma ServeBalanced(s: State, d: Data, f: FaceId, want: Key -> bool)
    requires Balanced(s, f, want)
    ensures Balanced(ServePending(s, d), f, want)
  {
    hide LogBalanced, Count, IsWaiting, Filter;
    ServedNotGot(s, d, f, want);
    var s1 := ServePending(s, d);
    var sent := Map(Delivered(s.faces, d), Deliveries(s.pit, d));
    ServedCovered(s.faces, s.pit, |s.pit|, d, f, want);
    CountNone(IsSent(f, want), []);
    CountNone(IsGot(f, want), []);
    ServedSplit(s, d);
    Extend(s.log, [], sent, f, want, Count(IsWaiting(f, want), s.pit), Count(IsWaiting(f, want), s1.pit));
    assert s.log + [] + sent == s.log + sent;
  }

  // ---------------------------------------------------------------- Interests

  lemma EnterBalanced(s: State, s0: State, from: Option<FaceId>, p: Interest, now: U32, f: FaceId, want: Key -> bool)
    requires Balanced(s0, f, want) && s.pit == s0.pit
    requires s.log == s0.log + if from.Some? then [GotInterest(from.value, p, true)] else []
    ensures Balanced(Enter(s, from, p, now), f, want)
  {
    hide LogBalanced, SameAt;
    var got := if from.Some? then [GotInterest(from.value, p, true)] else [];
    var s1 := Enter(s, from, p, now);
    var isWaiting, isGot := IsWaiting(f, want), IsGot(f, want);
    var waits := if from == Some(f) && want(KeyOf(p)) then 1 else 0;
    GotCount(from, p, f, want);
    EnterWaiting(s, from, p, now, f, want);
    var e := AppendPending(NewEntry(p, from, now), from);
    Forwards(s.faces, e, s.fib);
    var opens := p.scope > 2 && SameAt(s.pit, p) == |s.pit| && !PitFull(s);
    var sent := if opens then FlatMap(Forwarded(s.faces, e), s.fib) else [];
    forall i | 0 <= i < |sent| ensures sent[i].SentInterest? {
      assert sent[i] in sent;
    }
    CountNone(IsSent(f, want), sent);
    CountNone(isGot, sent);
    Extend(s0.log, got, sent, f, want, Count(isWaiting, s0.pit), Count(isWaiting, s1.pit));
    assert s0.log + got + [] == s0.log + got;
  }

  lemma GotCount(from: Option<FaceId>, p: Interest, f: FaceId, want: Key -> bool)
    ensures var got := if from.Some? then [GotInterest(from.value, p, true)] else [];
            && Count(IsGot(f, want), got) == (if from == Some(f) && want(KeyOf(p)) then 1 else 0)
            && Count(IsSent(f, want), got) == 0
  {
    var got := if from.Some? then [GotInterest(from.value, p, true)] else [];
    CountNone(IsSent(f, want), got);
    if from.Some? {
      CountOne(IsGot(f, want), got[0]);
    } else {
      CountNone(IsGot(f, want), got);
    }
  }

  /** An Interest makes at most its own face wait, and only for its own key. */
  lemma EnterWaiting(s: State, from: Option<FaceId>, p: Interest, now: U32, f: FaceId, want: Key -> bool)
    ensures Count(IsWaiting(f, want), Enter(s, from, p, now).pit)
         <= Count(IsWaiting(f, want), s.pit) + if from == Some(f) && want(KeyOf(p)) then 1 else 0
  {
    var isWaiting := IsWaiting(f, want);
    var k := SameAt(s.pit, p);
    if p.scope > 2 && k < |s.pit| {
      var e, e1 := s.pit[k], AppendPending(s.pit[k], from);
      CountReplace(isWaiting, s.pit, k, e1);
    } else if p.scope > 2 && !PitFull(s) {
      var e := AppendPending(NewEntry(p, from, now), from);
      CountAppend(isWaiting, [e], s.pit);
      CountOne(isWaiting, e);
    }
  }

  lemma CountReplace<T>(p: T -> bool, s: seq<T>, k: nat, x: T)
    requires k < |s|
    ensures Count(p, s[k := x]) + (if p(s[k]) then 1 else 0) == Count(p, s) + if p(x) then 1 else 0
  {
    assert s == s[..k] + ([s[k]] + s[k + 1..]);
    assert s[k := x] == s[..k] + ([x] + s[k + 1..]);
    CountAppend(p, s[..k], [s[k]] + s[k + 1..]);
    CountAppend(p, s[..k], [x] + s[k + 1..]);
    CountAppend(p, [s[k]], s[k + 1..]);
    CountAppend(p, [x], s[k + 1..]);
    CountOne(p, s[k]);
    CountOne(p, x);
  }

  lemma HitBalanced(s: State, from: FaceId, p: Interest, d: Data, upcall: bool, f: FaceId, want: Key -> bool)
    requires Balanced(s, f, want)
    ensures LogBalanced(s.log + [GotInterest(from, p, true)] + [SentData(from, d, p, upcall)], f, want,
                        Count(IsWaiting(f, want), s.pit))
  {
    hide LogBalanced;
    var got, sent := [GotInterest(from, p, true)], [SentData(from, d, p, upcall)];
    GotCount(Some(from), p, f, want);
    CountOne(IsSent(f, want), sent[0]);
    CountOne(IsGot(f, want), sent[0]);
    var w := Count(IsWaiting(f, want), s.pit);
    Extend(s.log, got, sent, f, want, w, w);
  }

  lemma GotBalanced(s: State, from: Option<FaceId>, p: Interest, isNew: bool, f: FaceId, want: Key -> bool)
    requires Balanced(s, f, want)
    ensures Balanced(Heard(s, from, p, isNew), f, want)
  {
    hide LogBalanced;
    var got := if from.Some? then [GotInterest(from.value, p, isNew)] else [];
    CountNone(IsSent(f, want), got);
    CountNone(IsGot(f, want), []);
    CountNone(IsSent(f, want), []);
    var w := Count(IsWaiting(f, want), s.pit);
    Extend(s.log, got, [], f, want, w, w);
    assert s.log + got + [] == Heard(s, from, p, isNew).log;
  }

  lemma HandleInterestBalanced(s: State, from: Option<FaceId>, p: Interest, now: U32, f: FaceId, want: Key -> bool)
    requires Balanced(s, f, want)
    ensures Balanced(HandleInterest(s, from, p, now), f, want)
  {
    hide LogBalanced, Enter, Count, HitAt, Remember;
    GotBalanced(s, from, p, !IsDup(s, p), f, want);
    if !IsDup(s, p) && !IsMgmt(p.name) {
      var s1 := Noted(Heard(s, from, p, true), p);
      var k := HitAt(s1.contents, p);
      if k < |s1.contents| {
        if from.Some? {
          HitBalanced(s, from.value, p, s1.contents[k].data, IsLocal(s1.faces, from.value), f, want);
        }
      } else {
        if from.None? {
          assert s.log + [] == s.log;
        }
        EnterBalanced(s1, s, from, p, now, f, want);
      }
    }
  }

  // ---------------------------------------------------------------- ageing and face removal

  lemma StripBalanced(s: State, gone: set<FaceId>, f: FaceId, want: Key -> bool)
    requires Balanced(s, f, want)
    ensures Balanced(RemoveFaces(s, gone), f, want)
  {
    if gone != {} {
      forall i | 0 <= i < |s.pit|
        ensures |Strip(s.pit[i], gone)| <= 1
        ensures Strip(s.pit[i], gone) != [] && IsWaiting(f, want)(Strip(s.pit[i], gone)[0]) ==>
                  IsWaiting(f, want)(s.pit[i])
      {
        FilterMember(Keeps(gone), s.pit[i].pending, f);
      }
      PassCount(Stripped(gone), IsWaiting(f, want), s.pit, |s.pit|);
    }
  }

  lemma AgeBalanced(s: State, t: U32, f: FaceId, want: Key -> bool)
    requires Balanced(s, f, want)
    ensures Balanced(Age(s, t), f, want)
  {
    hide LogBalanced, ExpiredFaces, RemoveFaces;
    var s1 := AgeContents(s, t);
    var s2 := AgeInterests(s1, t);
    PassCount(AgedInterest(t), IsWaiting(f, want), s1.pit, |s1.pit|);
    var more := FlatMap(Resent(s1.fib, s1.faces, t), s1.pit);
    forall i | 0 <= i < |more| ensures Neutral(more[i]) {
      PassMember(Resent(s1.fib, s1.faces, t), s1.pit, |s1.pit|, more[i]);
      var j :| 0 <= j < |s1.pit| && more[i] in Resend(s1.fib, s1.faces, s1.pit[j], t);
      Forwards(s1.faces, s1.pit[j], s1.fib);
    }
    ExtendNeutral(s1.log, more, f, want, Count(IsWaiting(f, want), s1.pit), Count(IsWaiting(f, want), s2.pit));
    StripBalanced(s2, ExpiredFaces(s2.faces, t), f, want);
  }

  // ---------------------------------------------------------------- runs

  lemma ApplyBalanced(s: State, ev: Event, f: FaceId, want: Key -> bool)
    requires Balanced(s, f, want)
    ensures Balanced(Apply(s, ev), f, want)
  {
    hide LogBalanced, HandleInterest, ServePending, RemoveFaces, Age;
    match ev
    case LookupFace(_, _, _) =>
    case DropFace(g) => StripBalanced(s, {g}, f, want);
    case AddRoute(_, _) =>
    case DropRoute(_, _) =>
    case RxInterest(from, p, now) => HandleInterestBalanced(s, from, p, now, f, want);
    case RxData(d, now) =>
      ServeBalanced(s, d, f, want);
    case StoreData(d, now) =>
      var c := Content(d, false, false, now);
      assert Balanced(Add2Cache(s, c), f, want);
      ServeBalanced(Add2Cache(s, c), d, f, want);
    case Tick(t) => AgeBalanced(s, t, f, want);
  }

  /** Flow balance holds in every reachable state, at every point of its history. */
  lemma {:induction false} RunBalanced(s: State, evs: seq<Event>, n: nat, f: FaceId, want: Key -> bool)
    requires Balanced(s, f, want) && n <= |evs|
    ensures Balanced(Run(s, evs, n), f, want)
  {
    hide Balanced, Apply;
    if n > 0 {
      RunBalanced(s, evs, n - 1, f, want);
      ApplyBalanced(Run(s, evs, n - 1), evs[n - 1], f, want);
    }
  }

  /** A relay that starts empty never delivers more to a face than it accepted Interests from it,
      even counting what is still pending. */
  lemma NoFaceIsOverserved(s: State, evs: seq<Event>, f: FaceId)
    requires IsEmpty(s)
    ensures var r := Run(s, evs, |evs|);
            Count(IsSent(f, AnyKey()), r.log) + Count(IsWaiting(f, AnyKey()), r.pit) <= Count(IsGot(f, AnyKey()), r.log)
  {
    EmptyBalanced(s, f, AnyKey());
    RunBalanced(s, evs, |evs|, f, AnyKey());
  }

  lemma EmptyBalanced(s: State, f: FaceId, want: Key -> bool)
    requires IsEmpty(s)
    ensures Balanced(s, f, want) && Answers(s.log)
  {
  }

  // ---------------------------------------------------------------- every delivery is solicited

  lemma AnswersAppend(log: seq<Action>, more: seq<Action>)
    requires Answers(log)
    requires forall i :: 0 <= i < |more| && more[i].SentData? ==> Matches(more[i].cause, more[i].data)
    ensures Answers(log + more)
  {
    hide Matches;
  }

  lemma ServeAnswers(s: State, d: Data)
    requires Answers(s.log)
    ensures Answers(ServePending(s, d).log)
  {
    hide Matches, Answers;
    var ds := Deliveries(s.pit, d);
    forall i | 0 <= i < |ds| ensures Matches(ds[i].1, d) {
      DeliverySource(s.pit, |s.pit|, d, ds[i]);
    }
    AnswersAppend(s.log, Map(Delivered(s.faces, d), ds));
  }

  lemma PropagateAnswers(s: State, e: PitEntry)
    requires Answers(s.log)
    ensures Answers(Propagate(s, e).log)
  {
    hide Matches, Answers;
    var more := FlatMap(Forwarded(s.faces, e), s.fib);
    Forwards(s.faces, e, s.fib);
    forall i | 0 <= i < |more| ensures more[i].SentInterest? {
      assert more[i] in more;
    }
    AnswersAppend(s.log, more);
  }

  lemma HandleInterestAnswers(s: State, from: Option<FaceId>, p: Interest, now: U32)
    requires Answers(s.log)
    ensures Answers(HandleInterest(s, from, p, now).log)
  {
    hide Matches, Answers, Propagate, Remember, SameAt;
    var heard := Heard(s, from, p, !IsDup(s, p));
    AnswersAppend(s.log, if from.None? then [] else [GotInterest(from.value, p, !IsDup(s, p))]);
    assert s.log + [] == s.log;
    var s1 := Noted(heard, p);
    var k := HitAt(s1.contents, p);
    if k < |s1.contents| && from.Some? {
      AnswersAppend(s1.log, [SentData(from.value, s1.contents[k].data, p, IsLocal(s1.faces, from.value))]);
    }
    var e := AppendPending(NewEntry(p, from, now), from);
    PropagateAnswers(s1.(pit := [e] + s1.pit, pitcnt := s1.pitcnt + 1), e);
  }

  lemma AgeAnswers(s: State, t: U32)
    requires Answers(s.log)
    ensures Answers(Age(s, t).log)
  {
    hide Matches, Answers, ExpiredFaces, AgedInterest;
    var s1 := AgeContents(s, t);
    var more := FlatMap(Resent(s1.fib, s1.faces, t), s1.pit);
    forall i | 0 <= i < |more| ensures more[i].SentInterest? {
      PassMember(Resent(s1.fib, s1.faces, t), s1.pit, |s1.pit|, more[i]);
      var j :| 0 <= j < |s1.pit| && more[i] in Resend(s1.fib, s1.faces, s1.pit[j], t);
      Forwards(s1.faces, s1.pit[j], s1.fib);
    }
    AnswersAppend(s1.log, more);
  }

  lemma ApplyAnswers(s: State, ev: Event)
    requires Answers(s.log)
    ensures Answers(Apply(s, ev).log)
  {
    hide Answers, HandleInterest, ServePending, Age;
    match ev
    case LookupFace(_, _, _) =>
    case DropFace(_) =>
    case AddRoute(_, _) =>
    case DropRoute(_, _) =>
    case RxInterest(from, p, now) => HandleInterestAnswers(s, from, p, now);
    case RxData(d, now) => ServeAnswers(s, d);
    case StoreData(d, now) => ServeAnswers(Add2Cache(s, Content(d, false, false, now)), d);
    case Tick(t) => AgeAnswers(s, t);
  }

  lemma {:induction false} RunAnswers(s: State, evs: seq<Event>, n: nat)
    requires Answers(s.log) && n <= |evs|
    ensures Answers(Run(s, evs, n).log)
  {
    hide Answers, Apply;
    if n > 0 {
      RunAnswers(s, evs, n - 1);
      ApplyAnswers(Run(s, evs, n - 1), evs[n - 1]);
    }
  }

  /** Whatever a relay delivers to a face, that face asked for before, with an Interest the data
      matches. */
  lemma NothingUnsolicited(s: State, evs: seq<Event>, k: nat)
    requires IsEmpty(s)
    requires k < |Run(s, evs, |evs|).log| && Run(s, evs, |evs|).log[k].SentData?
    ensures var log := Run(s, evs, |evs|).log;
            exists j :: 0 <= j < k && log[j].GotInterest? && log[j].isNew && log[j].face == log[k].face
                        && KeyOf(log[j].interest) == KeyOf(log[k].cause) && Matches(log[j].interest, log[k].data)
  {
    hide Matches, Apply, IsEmpty;
    EmptyBalanced(s, Run(s, evs, |evs|).log[k].face, IsKey(KeyOf(Run(s, evs, |evs|).log[k].cause)));
    var log := Run(s, evs, |evs|).log;
    var f, key := log[k].face, KeyOf(log[k].cause);
    RunAnswers(s, evs, |evs|);
    RunBalanced(s, evs, |evs|, f, IsKey(key));
    CountPositive(IsSent(f, IsKey(key)), log, k + 1);
    CountPositive(IsGot(f, IsKey(key)), log, k + 1);
    var j :| 0 <= j < k + 1 && IsGot(f, IsKey(key))(log[j]);
    SameKeySameMatches(log[j].interest, log[k].cause, log[k].data);
  }
}
