/**
 The relay as a mutable object: the loops of the forwarder over its tables. Each list of the
 original is a sequence field, spliced where the original splices; LinkedList.dfy shows that the
 pointer lists behave like such sequences. Every method is tied to RelayState.
 */
module Relay {
  import opened Base
  import opened Names
  import Spec = RelayState
  import opened RelayState

  class Relay {
    var ifs: seq<Iface>
    var faces: seq<Face>
    var fib: seq<FibEntry>
    var pit: seq<PitEntry>
    var contents: seq<Content>
    var nonces: seq<Bytes>
    var contentcnt: int
    var maxCache: int
    var pitcnt: int
    var maxPit: int
    var served: set<FaceId>
    var seqno: nat
    var log: seq<Action>

    function State(): Spec.State
      reads this
    {
      Spec.State(ifs, faces, fib, pit, contents, nonces, contentcnt, maxCache, pitcnt, maxPit, served, seqno, log)
    }

    constructor (ifs: seq<Iface>, maxCache: int, maxPit: int)
      ensures IsEmpty(State()) && this.ifs == ifs && this.maxCache == maxCache && this.maxPit == maxPit
    {
      this.ifs, this.maxCache, this.maxPit := ifs, maxCache, maxPit;
      faces, fib, pit, contents, nonces, log := [], [], [], [], [], [];
      contentcnt, pitcnt, served, seqno := 0, 0, {}, 0;
    }

    // -------------------------------------------------------------- faces

    method GetFaceOrCreate(ifndx: int, peer: Option<Addr>, now: U32) returns (r: Option<FaceId>)
      modifies this`faces, this`seqno
      ensures (State(), r) == GetFace(old(State()), ifndx, peer, now)
    {
      var k := 0;
      while k < |faces|
        invariant 0 <= k <= |faces|
        invariant forall j :: 0 <= j < k ==> !IsFaceFor(faces[j], ifndx, peer)
      {
        if peer.None? {
          if faces[k].ifndx == -1 {
            return Some(faces[k].id);
          }
        } else if ifndx != -1 && faces[k].ifndx == ifndx && faces[k].peer == peer {
          faces := faces[k := faces[k].(lastUsed := now)];
          return Some(faces[k].id);
        }
        k := k + 1;
      }
      var pick := ifndx;
      if peer.Some? && ifndx == -1 {
        var i := 0;
        while i < |ifs|
          invariant 0 <= i <= |ifs| && pick == -1
          invariant forall j :: 0 <= j < i ==> ifs[j].family != peer.value.family
        {
          if ifs[i].family == peer.value.family {
            pick := i;
            break;
          }
          i := i + 1;
        }
        if pick == -1 {
          return None;
        }
      }
      var f := NewFace(State(), pick, peer, now);
      seqno := seqno + 1;
      faces := [f] + faces;
      r := Some(f.id);
    }

    method InterestRemove(k: nat)
      requires k < |pit|
      modifies this`pit, this`pitcnt
      ensures pit == Splice(old(pit), k, []) && pitcnt == old(pitcnt) - 1
    {
      SpliceForms(pit, k, pit[k]);
      pitcnt := pitcnt - 1;
      pit := pit[..k] + pit[k + 1..];
    }

    /** Strikes a face from the waiting list of entry `k`; returns how often it was listed. */
    method RemovePending(k: nat, f: FaceId) returns (struck: nat)
      requires k < |pit|
      modifies this`pit
      ensures pit == old(pit)[k := old(pit[k]).(pending := Filter(Keeps({f}), old(pit[k]).pending))]
      ensures struck == |old(pit[k].pending)| - |pit[k].pending|
    {
      hide Swept, Splice, Pass, FlatMap;
      var pending := pit[k].pending;
      ghost var all, front := pending, [];
      ghost var strike := Guard(Keeps({f}));
      ghost var m := 0;
      var j := 0;
      struck := 0;
      SweepStart(strike, all);
      while j < |pending|
        modifies {}
        invariant Swept(strike, all, m, front, pending)
        invariant j == |front| && struck == |all| - |pending|
        decreases |all| - m
      {
        SweepNext(strike, all, m, front, pending);
        SpliceForms(pending, j, pending[j]);
        if pending[j] == f {
          pending := pending[..j] + pending[j + 1..];
          struck := struck + 1;
        } else {
          j := j + 1;
        }
        front := front + strike(all[m]);
        m := m + 1;
      }
      SweepEnd(strike, all, m, front, pending);
      pit := pit[k := pit[k].(pending := pending)];
    }

    /** Purges a face from one entry, and the entry with it if nobody is left waiting. */
    method StripEntry(k: nat, f: FaceId) returns (kept: bool)
      requires k < |pit|
      modifies this`pit, this`pitcnt
      ensures var r := Strip(old(pit[k]), {f});
              pit == Splice(old(pit), k, r) && pitcnt == old(pitcnt) - (1 - |r|) && kept == (r != [])
    {
      ghost var was := pit;
      if pit[k].from == Some(f) {
        pit := pit[k := pit[k].(from := None)];
      }
      var struck := RemovePending(k, f);
      SpliceForms(was, k, pit[k]);
      assert pit == was[k := Without(was[k], {f})];
      kept := pit[k].pending != [];
      if !kept {
        InterestRemove(k);
      }
    }

    method PurgeRoutes(f: FaceId)
      modifies this`fib
      ensures fib == Filter(RouteKept({f}), old(fib))
    {
      hide Swept, Splice, Pass, FlatMap;
      ghost var all, front := fib, [];
      ghost var purge := Guard(RouteKept({f}));
      ghost var n := 0;
      var i := 0;
      SweepStart(purge, all);
      while i < |fib|
        invariant Swept(purge, all, n, front, fib) && i == |front|
        decreases |all| - n
      {
        SweepNext(purge, all, n, front, fib);
        SpliceForms(fib, i, fib[i]);
        if fib[i].face == f {
          fib := fib[..i] + fib[i + 1..];
        } else {
          i := i + 1;
        }
        front := front + purge(all[n]);
        n := n + 1;
      }
      SweepEnd(purge, all, n, front, fib);
    }

    method StripTable(f: FaceId)
      modifies this`pit, this`pitcnt
      ensures pit == FlatMap(Stripped({f}), old(pit)) && pitcnt == old(pitcnt) - (|old(pit)| - |pit|)
    {
      hide Swept, Splice, Pass, FlatMap;
      ghost var all, front := pit, [];
      ghost var strip := Stripped({f});
      ghost var n := 0;
      var i := 0;
      SweepStart(strip, all);
      while i < |pit|
        invariant Swept(strip, all, n, front, pit) && i == |front|
        invariant pitcnt == old(pitcnt) - (|all| - |pit|)
        decreases |all| - n
      {
        SweepNext(strip, all, n, front, pit);
        var kept := StripEntry(i, f);
        if kept {
          i := i + 1;
        }
        front := front + strip(all[n]);
        n := n + 1;
      }
      SweepEnd(strip, all, n, front, pit);
    }

    /** Purges a face from pending table and forwarding table, then unlinks it. */
    method FaceRemove(f: FaceId)
      modifies this`pit, this`pitcnt, this`fib, this`faces, this`served
      ensures State() == RemoveFaces(old(State()), {f})
    {
      hide FlatMap, Pass, Filter, Strip;
      StripTable(f);
      PurgeRoutes(f);
      faces := Filter(FaceKept({f}), faces);
      served := served - {f};
    }

    // -------------------------------------------------------------- forwarding

    /** Offers an entry to every route. */
    method InterestPropagate(e: PitEntry)
      modifies this`log
      ensures State() == Propagate(old(State()), e)
    {
      ghost var s := State();
      ghost var out: seq<Action> := [];
      var i := 0;
      while i < |fib|
        modifies this`log
        invariant 0 <= i <= |fib|
        invariant log == s.log + out && out == Pass(Forwarded(faces, e), fib, i)
      {
        var fwd := fib[i];
        AppendAssoc(s.log, out, Forward(faces, e, fwd));
        out := out + Forward(faces, e, fwd);
        var rc := PrefixCmp(fwd.prefix, None, e.pkt.name, Longest);
        LongestIsPrefix(fwd.prefix, e.pkt.name);
        if rc >= |fwd.prefix.comps| {
          if e.from.None? || fwd.face != e.from.value || Reflects(faces, e.from.value) {
            log := log + [SentInterest(fwd.face, e.pkt)];
          }
        }
        i := i + 1;
      }
    }

    method FibAddEntry(name: Name, face: FaceId)
      modifies this`fib
      ensures State() == FibAdd(old(State()), name, face)
    {
      var k := 0;
      while k < |fib|
        modifies {}
        invariant 0 <= k <= |fib|
        invariant forall j :: 0 <= j < k ==> fib[j].prefix != name
      {
        var rc := PrefixCmp(fib[k].prefix, None, name, Exact);
        if rc == 0 {
          break;
        }
        k := k + 1;
      }
      if k < |fib| {
        fib := fib[k := FibEntry(name, face)];
      } else {
        fib := fib + [FibEntry(name, face)];
      }
    }

    method FibRemEntry(name: Option<Name>, face: Option<FaceId>) returns (res: int)
      modifies this`fib
      ensures State() == FibRem(old(State()), name, face)
      ensures res == 0 <==> exists e :: e in old(fib) && Selected(e, name, face)
    {
      var k := 0;
      while k < |fib|
        invariant 0 <= k <= |fib| && fib == old(fib)
        invariant forall j :: 0 <= j < k ==> !Selected(fib[j], name, face)
      {
        var same := true;
        if name.Some? {
          var rc := PrefixCmp(fib[k].prefix, None, name.value, Exact);
          same := rc == 0;
        }
        if same && (face.None? || fib[k].face == face.value) {
          fib := fib[..k] + fib[k + 1..];
          return 0;
        }
        k := k + 1;
      }
      res := -1;
    }

    // -------------------------------------------------------------- nonces

    /** Looks a nonce up and, if it is new, puts it in front and cuts the table to its size. */
    method NonceFindOrAppend(n: Bytes) returns (res: int)
      modifies this`nonces
      ensures res == -1 <==> n in old(nonces)
      ensures res == -1 || res == 0
      ensures nonces == if res == -1 then old(nonces) else Remember(old(nonces), n)
    {
      var i, beforeLast := 0, -1;
      while i < |nonces|
        invariant 0 <= i <= |nonces|
        invariant n !in nonces[..i]
        invariant beforeLast == if |nonces| >= 2 && i >= 1 then (if i == |nonces| then i - 2 else i - 1) else -1
      {
        if nonces[i] == n {
          return -1;
        }
        if i + 1 < |nonces| {
          beforeLast := i;
        }
        i := i + 1;
      }
      nonces := [n] + nonces;
      if i >= MAX_NONCES && beforeLast >= 0 {
        nonces := nonces[..beforeLast + 2];
      }
      res := 0;
    }

    // -------------------------------------------------------------- content store

    method ContentRemove(k: nat)
      requires k < |contents|
      modifies this`contents, this`contentcnt
      ensures State() == RemoveContent(old(State()), k)
    {
      contents := contents[..k] + contents[k + 1..];
      contentcnt := contentcnt - 1;
    }

    method IsStored(name: Name) returns (found: bool)
      ensures found <==> Stored(contents, name)
    {
      var k := 0;
      while k < |contents|
        invariant 0 <= k <= |contents|
        invariant forall j :: 0 <= j < k ==> contents[j].data.name != name
      {
        var rc := PrefixCmp(name, None, contents[k].data.name, Exact);
        if rc == 0 {
          assert contents[k] in contents;
          return true;
        }
        k := k + 1;
      }
      found := false;
    }

    method ContentAdd2Cache(c: Content) returns (added: bool)
      modifies this`contents, this`contentcnt
      ensures State() == Add2Cache(old(State()), c)
      ensures added <==> !Stored(old(contents), c.data.name)
    {
      ghost var s := State();
      var duplicate := IsStored(c.data.name);
      if duplicate {
        return false;
      }
      if maxCache > 0 && contentcnt >= maxCache {
        var oldest: Option<nat> := None;
        var age: U32 := 0;
        var k := 0;
        while k < |contents|
        modifies {}
          invariant 0 <= k <= |contents|
          invariant (age, oldest) == EvictScan(contents, k)
        {
          if !contents[k].isStatic {
            if age == 0 || contents[k].lastUsed < age {
              age := contents[k].lastUsed;
              oldest := Some(k);
            }
          }
          k := k + 1;
        }
        if oldest.Some? {
          ContentRemove(oldest.value);
        }
      }
      assert State() == MakeRoom(s);
      if maxCache <= 0 || contentcnt <= maxCache {
        contents := [c] + contents;
        contentcnt := contentcnt + 1;
      }
      added := true;
    }

    // -------------------------------------------------------------- serving data

    /** Hands data to the faces waiting in one entry, each face at most once per packet. */
    method ServeEntry(e: PitEntry, d: Data) returns (cnt: nat)
      modifies this`served, this`log
      ensures var ds := EntryDeliveries(e.pending, |e.pending|, e.pkt, old(served));
              && served == old(served) + FacesOf(ds)
              && log == old(log) + Map(Delivered(faces, d), ds)
              && cnt == |ds|
    {
      ghost var done, was, toLog := served, log, Delivered(faces, d);
      ghost var ds: seq<Delivery> := [];
      var k := 0;
      cnt := 0;
      while k < |e.pending|
        invariant 0 <= k <= |e.pending| && ds == EntryDeliveries(e.pending, k, e.pkt, done)
        invariant served == done + FacesOf(ds)
        invariant log == was + Map(toLog, ds)
        invariant cnt == |ds|
      {
        var f := e.pending[k];
        if f !in served {
          served := served + {f};
          log := log + [SentData(f, d, e.pkt, IsLocal(faces, f))];
          cnt := cnt + 1;
          DeliveryLogged(toLog, ds, (f, e.pkt), was);
          ds := ds + [(f, e.pkt)];
        }
        k := k + 1;
      }
    }

    /** Offers data to one entry. A matching entry is served and removed; if nobody waits on it, it
        is removed and makes the content static. */
    method OfferTo(k: nat, d: Data) returns (cnt: nat, orphan: bool, kept: bool)
      requires k < |pit|
      modifies this`pit, this`pitcnt, this`served, this`log
      ensures var e := old(pit[k]);
              var ds := OneEntry(e, d, old(served));
              && pit == Splice(old(pit), k, Guard(Unanswered(d))(e))
              && pitcnt == old(pitcnt) - (1 - |Guard(Unanswered(d))(e)|)
              && served == old(served) + FacesOf(ds)
              && log == old(log) + Map(Delivered(faces, d), ds)
              && orphan == Orphan(d)(e)
              && cnt == |ds| + (if orphan then 1 else 0)
              && |Guard(Unanswered(d))(e)| == if kept then 1 else 0
    {
      var e := pit[k];
      SpliceForms(pit, k, e);
      cnt, orphan, kept := 0, false, false;
      var rc := IPrefixOfC(e.pkt, d);
      if rc < 0 {
        kept := true;
      } else if e.pending == [] {
        orphan := true;
        InterestRemove(k);
        cnt := 1;
      } else {
        cnt := ServeEntry(e, d);
        InterestRemove(k);
      }
    }

    method ContentServePending(d: Data) returns (cnt: nat, makeStatic: bool)
      modifies this`pit, this`pitcnt, this`served, this`log
      ensures pit == Filter(Unanswered(d), old(pit)) && pitcnt == old(pitcnt) - (|old(pit)| - |pit|)
      ensures served == FacesOf(Deliveries(old(pit), d))
      ensures log == old(log) + Map(Delivered(faces, d), Deliveries(old(pit), d))
      ensures cnt == ServedCount(old(pit), d)
      ensures makeStatic <==> Count(Orphan(d), old(pit)) > 0
    {
      hide Swept, Splice, Pass, FlatMap, FacesOf, Map, CountTo, DeliveriesTo, OneEntry, Matches, Delivered, Guard,
        Orphan;
      ghost var all, front, was := pit, [], log;
      ghost var sweep, toLog := Guard(Unanswered(d)), Delivered(faces, d);
      ghost var ds: seq<Delivery>, n := [], 0;
      served := {};
      cnt, makeStatic := 0, false;
      var i := 0;
      DeliveriesNext(toLog, all, 0, d, was);
      SweepStart(sweep, all);
      while i < |pit|
        invariant n <= |all| && Swept(sweep, all, n, front, pit) && i == |front|
        invariant pitcnt == old(pitcnt) - (|all| - |pit|)
        invariant ds == DeliveriesTo(all, n, d) && served == FacesOf(ds)
        invariant log == was + Map(toLog, ds)
        invariant cnt == |ds| + CountTo(Orphan(d), all, n)
        invariant makeStatic <==> CountTo(Orphan(d), all, n) > 0
        decreases |all| - n
      {
        SweepNext(sweep, all, n, front, pit);
        ghost var more := OneEntry(all[n], d, served);
        DeliveriesNext(toLog, all, n, d, was);
        var c, orphan, kept := OfferTo(i, d);
        ds := ds + more;
        cnt := cnt + c;
        makeStatic := makeStatic || orphan;
        if kept {
          i := i + 1;
        }
        front := front + sweep(all[n]);
        n := n + 1;
      }
      SweepEnd(sweep, all, n, front, pit);
    }

    // -------------------------------------------------------------- packet handlers

    method FwdHandleContent(d: Data, now: U32)
      modifies this`pit, this`pitcnt, this`served, this`log, this`contents, this`contentcnt
      ensures State() == HandleContent(old(State()), d, now)
    {
      ghost var s := State();
      var duplicate := IsStored(d.name);
      if duplicate {
        return;
      }
      var cnt, makeStatic := ContentServePending(d);
      assert State() == ServePending(s, d);
      ServedIffWanted(s.pit, d);
      if cnt > 0 && maxCache != 0 {
        var added := ContentAdd2Cache(Content(d, makeStatic, false, now));
      }
    }

    method CsAdd(d: Data, now: U32) returns (res: int)
      modifies this`pit, this`pitcnt, this`served, this`log, this`contents, this`contentcnt
      ensures State() == Spec.CsAdd(old(State()), d, now)
      ensures res == 0 <==> !Stored(old(contents), d.name)
    {
      ghost var s := State();
      var added := ContentAdd2Cache(Content(d, false, false, now));
      if !added {
        return -1;
      }
      ghost var s1 := State();
      var here := |contents| > 0 && contents[0].data.name == d.name;
      assert here <==> Admits(MakeRoom(s)) by {
        StoredStays(s, d.name);
      }
      var cnt, makeStatic := ContentServePending(d);
      assert State() == ServePending(s1, d);
      if makeStatic && here {
        contents := contents[0 := contents[0].(isStatic := true)];
        assert State() == PinFirst(ServePending(s1, d));
      }
      res := 0;
    }

    /** Joins a request already pending, or opens an entry for it and sends it on. */
    method EnterPending(from: Option<FaceId>, p: Interest, now: U32)
      modifies this`log, this`pit, this`pitcnt
      ensures State() == Enter(old(State()), from, p, now)
    {
      ghost var s := State();
      var i := 0;
      while i < |pit|
        modifies {}
        invariant 0 <= i <= |pit|
        invariant forall j :: 0 <= j < i ==> KeyOf(pit[j].pkt) != KeyOf(p)
      {
        if KeyOf(pit[i].pkt) == KeyOf(p) {
          break;
        }
        i := i + 1;
      }
      assert i == SameAt(pit, p);
      if p.scope <= 2 {
        return;
      }
      if i < |pit| {
        pit := pit[i := AppendPending(pit[i], from)];
      } else if maxPit != -1 && pitcnt >= maxPit {
        return;
      } else {
        pit := [NewEntry(p, from, now)] + pit;
        pitcnt := pitcnt + 1;
        pit := pit[0 := AppendPending(pit[0], from)];
        assert pit == [AppendPending(NewEntry(p, from, now), from)] + s.pit;
        InterestPropagate(pit[0]);
      }
    }

    method FwdHandleInterest(from: Option<FaceId>, p: Interest, now: U32)
      modifies this`log, this`nonces, this`pit, this`pitcnt
      ensures State() == HandleInterest(old(State()), from, p, now)
    {
      hide Enter, Remember, Matches, IsLocal, Propagate, SameAt, IsMgmt;
      ghost var s := State();
      if p.nonce.Some? {
        var rc := NonceFindOrAppend(p.nonce.value);
        if rc == -1 {
          if from.Some? {
            log := log + [GotInterest(from.value, p, false)];
          }
          return;
        }
      }
      if from.Some? {
        log := log + [GotInterest(from.value, p, true)];
      }
      assert State() == Noted(Heard(s, from, p, true), p);
      if IsMgmt(p.name) {
        return;
      }
      var k := 0;
      while k < |contents|
        modifies {}
        invariant 0 <= k <= |contents|
        invariant forall j :: 0 <= j < k ==> !Hits(contents[j], p)
      {
        var rc := IPrefixOfC(p, contents[k].data);
        if rc >= 0 && !(p.mustBeFresh && contents[k].stale) {
          break;
        }
        k := k + 1;
      }
      assert k == HitAt(contents, p);
      if k < |contents| {
        if from.Some? {
          log := log + [SentData(from.value, contents[k].data, p, IsLocal(faces, from.value))];
        }
        return;
      }
      EnterPending(from, p, now);
    }

    // -------------------------------------------------------------- ageing

    /** One ageing tick. Faces are dropped while the list is walked, each drop purging the tables. */
    method DoAgeing(t: U32)
      requires DistinctIds(faces)
      modifies this
      ensures State() == Age(old(State()), t)
    {
      ghost var s := State();
      AgeContentTable(t);
      assert State() == AgeContents(s, t);
      AgePendingTable(t);
      ghost var aged := State();
      assert aged == AgeInterests(AgeContents(s, t), t);
      AgeFaceTable(t);
    }

    /** Drops one face if it timed out; `gone` are the faces the sweep has dropped from `s` so far. */
    method AgeFace(k: nat, t: U32, ghost s: Spec.State, ghost gone: set<FaceId>) returns (kept: bool)
      requires k < |faces| && DistinctIds(faces)
      requires State() == RemoveFaces(s, gone)
      modifies this`pit, this`pitcnt, this`fib, this`faces, this`served
      ensures DistinctIds(faces)
      ensures faces == Splice(old(faces), k, Guard(Alive(t))(old(faces[k])))
      ensures |Guard(Alive(t))(old(faces[k]))| == if kept then 1 else 0
      ensures State() == RemoveFaces(s, gone + ExpiredOne(old(faces[k]), t))
    {
      var f := faces[k];
      SpliceForms(faces, k, f);
      RemoveMore(s, gone, f, t);
      kept := f.isStatic || Add32(f.lastUsed, FACE_TIMEOUT) > t;
      if !kept {
        FilterOutOne(faces, k);
        FaceRemove(f.id);
      }
    }

    method AgeFaceTable(t: U32)
      requires DistinctIds(faces)
      modifies this`pit, this`pitcnt, this`fib, this`faces, this`served
      ensures State() == RemoveFaces(old(State()), ExpiredFaces(old(faces), t))
    {
      hide Distinct, Swept, Splice, RemoveFaces, DistinctIds, ExpiredTo, ExpiredFaces, ExpiredOne, Guard;
      ghost var s, all, front := State(), faces, [];
      ghost var live, gone: set<FaceId> := Guard(Alive(t)), {};
      ghost var n := 0;
      var k := 0;
      RemoveNone(s);
      ExpiredNext(all, 0, t);
      SweepStart(live, all);
      while k < |faces|
        invariant n <= |all| && Swept(live, all, n, front, faces) && k == |front|
        invariant DistinctIds(faces)
        invariant ExpiredTo(all, n, t) == gone && State() == RemoveFaces(s, gone)
        decreases |all| - n
      {
        SweepNext(live, all, n, front, faces);
        var kept := AgeFace(k, t, s, gone);
        ExpiredNext(all, n, t);
        gone := gone + ExpiredOne(all[n], t);
        if kept {
          k := k + 1;
        }
        front := front + live(all[n]);
        n := n + 1;
      }
      SweepEnd(live, all, n, front, faces);
      ExpiredNext(all, n, t);
    }

    method AgeContent(k: nat, t: U32) returns (kept: bool)
      requires k < |contents|
      modifies this`contents, this`contentcnt
      ensures var r := Spec.AgeContent(old(contents[k]), t);
              contents == Splice(old(contents), k, r) && contentcnt == old(contentcnt) - (1 - |r|) && kept == (r != [])
    {
      var c := contents[k];
      SpliceForms(contents, k, c);
      SpliceForms(contents, k, c.(stale := true));
      kept := true;
      if Add32(c.lastUsed, CONTENT_TIMEOUT) <= t && !c.isStatic {
        ContentRemove(k);
        kept := false;
      } else if Add64(c.lastUsed, c.data.freshnessMs / 1000) <= t && !c.isStatic {
        contents := contents[k := c.(stale := true)];
      }
    }

    method AgeContentTable(t: U32)
      modifies this`contents, this`contentcnt
      ensures contents == FlatMap(AgedContent(t), old(contents))
      ensures contentcnt == old(contentcnt) - (|old(contents)| - |contents|)
    {
      hide Swept, Splice, Pass, FlatMap;
      ghost var all, front := contents, [];
      ghost var age := AgedContent(t);
      ghost var n := 0;
      var i := 0;
      SweepStart(age, all);
      while i < |contents|
        invariant Swept(age, all, n, front, contents) && i == |front|
        invariant contentcnt == old(contentcnt) - (|all| - |contents|)
        decreases |all| - n
      {
        SweepNext(age, all, n, front, contents);
        var kept := AgeContent(i, t);
        if kept {
          i := i + 1;
        }
        front := front + age(all[n]);
        n := n + 1;
      }
      SweepEnd(age, all, n, front, contents);
    }

    /** Drops an entry that timed out or was repeated often enough, else repeats it once more. */
    method AgeInterest(k: nat, t: U32) returns (kept: bool)
      requires k < |pit|
      modifies this`pit, this`pitcnt, this`log
      ensures var r := Spec.AgeInterest(old(pit[k]), t);
              pit == Splice(old(pit), k, r) && pitcnt == old(pitcnt) - (1 - |r|) && kept == (r != [])
      ensures log == old(log) + Resend(fib, faces, old(pit[k]), t)
    {
      var e := pit[k];
      SpliceForms(pit, k, e.(retries := e.retries + 1));
      kept := !(Add32(e.lastUsed, e.lifetime) <= t || e.retries >= MAX_RETRANSMIT);
      if kept {
        InterestPropagate(e);
        pit := pit[k := e.(retries := e.retries + 1)];
      } else {
        InterestRemove(k);
      }
    }

    method AgePendingTable(t: U32)
      modifies this`pit, this`pitcnt, this`log
      ensures pit == FlatMap(AgedInterest(t), old(pit)) && pitcnt == old(pitcnt) - (|old(pit)| - |pit|)
      ensures log == old(log) + FlatMap(Resent(fib, faces, t), old(pit))
    {
      hide Swept, Splice, Pass, FlatMap;
      ghost var all, front, was := pit, [], log;
      ghost var age, resend := AgedInterest(t), Resent(fib, faces, t);
      ghost var out: seq<Action> := [];
      ghost var n := 0;
      var i := 0;
      PassUnfold(resend, all, 0);
      SweepStart(age, all);
      while i < |pit|
        invariant n <= |all| && Swept(age, all, n, front, pit) && i == |front|
        invariant pitcnt == old(pitcnt) - (|all| - |pit|)
        invariant log == was + out && out == Pass(resend, all, n)
        decreases |all| - n
      {
        SweepNext(age, all, n, front, pit);
        PassUnfold(resend, all, n);
        AppendAssoc(was, out, resend(all[n]));
        out := out + resend(all[n]);
        var kept := AgeInterest(i, t);
        if kept {
          i := i + 1;
        }
        front := front + age(all[n]);
        n := n + 1;
      }
      PassUnfold(resend, all, n);
      SweepEnd(age, all, n, front, pit);
    }
  }

  // ---------------------------------------------------------------- facts the loops need

  /** LONGEST comparison reaches the end of the route's prefix exactly when it is a prefix. */
  lemma LongestIsPrefix(p: Name, n: Name)
    ensures Shared(p.comps, n.comps) >= |p.comps| <==> IsPrefix(p, n)
  {
    if |p.comps| <= |n.comps| {
      SharedIsGreatest(p.comps, n.comps, |p.comps|);
    }
  }

  /** What offering data to one more entry adds to deliveries and log. */
  lemma DeliveriesNext(toLog: Delivery -> Action, pit: seq<PitEntry>, n: nat, d: Data, was: seq<Action>)
    requires n <= |pit|
    ensures DeliveriesTo(pit, 0, d) == [] && CountTo(Orphan(d), pit, 0) == 0
    ensures FacesOf([]) == {} && was + Map(toLog, []) == was
    ensures DeliveriesTo(pit, |pit|, d) == Deliveries(pit, d) && CountTo(Orphan(d), pit, |pit|) == Count(Orphan(d), pit)
    ensures n < |pit| ==>
              var ds := DeliveriesTo(pit, n, d);
              var more := OneEntry(pit[n], d, FacesOf(ds));
              && DeliveriesTo(pit, n + 1, d) == ds + more
              && FacesOf(ds + more) == FacesOf(ds) + FacesOf(more)
              && was + Map(toLog, ds + more) == was + Map(toLog, ds) + Map(toLog, more)
              && CountTo(Orphan(d), pit, n + 1) == CountTo(Orphan(d), pit, n) + if Orphan(d)(pit[n]) then 1 else 0
  {
    if n < |pit| {
      var ds := DeliveriesTo(pit, n, d);
      var more := OneEntry(pit[n], d, FacesOf(ds));
      FacesOfAppend(ds, more);
      MapAppend(toLog, ds, more);
      AppendAssoc(was, Map(toLog, ds), Map(toLog, more));
    }
  }

  lemma DeliveryLogged(toLog: Delivery -> Action, ds: seq<Delivery>, x: Delivery, was: seq<Action>)
    ensures FacesOf(ds + [x]) == FacesOf(ds) + {x.0}
    ensures was + Map(toLog, ds + [x]) == was + Map(toLog, ds) + [toLog(x)]
  {
    FacesOfAppend(ds, [x]);
    MapAppend(toLog, ds, [x]);
    AppendAssoc(was, Map(toLog, ds), Map(toLog, [x]));
    assert Map(toLog, [x]) == [toLog(x)];
    assert FacesOf([x]) == {x.0};
  }

  lemma RemoveNone(s: State)
    ensures RemoveFaces(s, {}) == s
  {
  }

  lemma RemoveMore(s: State, gone: set<FaceId>, f: Face, t: U32)
    ensures RemoveFaces(RemoveFaces(s, gone), ExpiredOne(f, t)) == RemoveFaces(s, gone + ExpiredOne(f, t))
  {
    if FaceExpired(f, t) {
      RemoveOneMore(s, gone, f.id);
    } else {
      assert gone + {} == gone;
    }
  }

  /** With distinct ids, dropping an id drops one element. */
  lemma FilterOutOne(faces: seq<Face>, k: nat)
    requires k < |faces| && DistinctIds(faces)
    ensures Filter(FaceKept({faces[k].id}), faces) == faces[..k] + faces[k + 1..]
    ensures DistinctIds(faces[..k] + faces[k + 1..])
  {
    var ids := Map(IdOf(), faces);
    forall j | 0 <= j < |faces| && j != k ensures faces[j].id != faces[k].id {
      assert ids[j] != ids[k];
    }
    FilterOutAt(FaceKept({faces[k].id}), faces, k);
    DistinctDrop(IdOf(), faces, k);
  }

  /** Removing faces one after the other amounts to removing them together. */
  lemma RemoveOneMore(s: State, gone: set<FaceId>, f: FaceId)
    ensures RemoveFaces(RemoveFaces(s, gone), {f}) == RemoveFaces(s, gone + {f})
  {
    if gone == {} {
      assert gone + {f} == {f};
    } else {
      var both := gone + {f};
      FilterCompose(FaceKept(gone), FaceKept({f}), FaceKept(both), s.faces);
      FilterCompose(RouteKept(gone), RouteKept({f}), RouteKept(both), s.fib);
      forall i | 0 <= i < |s.pit| 
        ensures FlatMap(Stripped({f}), Stripped(gone)(s.pit[i])) == Stripped(both)(s.pit[i])
      {
        StripCompose(s.pit[i], gone, f);
      }
      PassCompose(Stripped({f}), Stripped(gone), Stripped(both), s.pit, |s.pit|);
      var once := RemoveFaces(s, gone);
      var twice, together := RemoveFaces(once, {f}), RemoveFaces(s, both);
      assert f in {f} && f in both;
      assert twice.faces == together.faces && twice.fib == together.fib;
      assert twice.pit == together.pit;
      assert twice.served == together.served;
    }
  }

  lemma WithoutCompose(e: PitEntry, gone: set<FaceId>, f: FaceId)
    ensures Without(Without(e, gone), {f}) == Without(e, gone + {f})
    ensures Without(e, gone).pending == [] ==> Without(e, gone + {f}).pending == []
  {
    FilterCompose(Keeps(gone), Keeps({f}), Keeps(gone + {f}), e.pending);
    FlatMapOne(Guard(Keeps({f})), f);
  }

  lemma StripCompose(e: PitEntry, gone: set<FaceId>, f: FaceId)
    ensures FlatMap(Stripped({f}), Strip(e, gone)) == Strip(e, gone + {f})
  {
    WithoutCompose(e, gone, f);
    FlatMapOne(Stripped({f}), Without(e, gone));
  }

  /** Something is served or cleared away exactly when some entry matches. */
  lemma ServedIffWanted(pit: seq<PitEntry>, d: Data)
    ensures ServedCount(pit, d) > 0 <==> Wanted(pit, d)
  {
    ServedToIffWanted(pit, |pit|, d);
  }

  lemma {:induction false} ServedToIffWanted(pit: seq<PitEntry>, n: nat, d: Data)
    requires n <= |pit|
    ensures |DeliveriesTo(pit, n, d)| + CountTo(Orphan(d), pit, n) > 0
       <==> exists i :: 0 <= i < n && Matches(pit[i].pkt, d)
  {
    if n > 0 {
      ServedToIffWanted(pit, n - 1, d);
      var e := pit[n - 1];
      if DeliveriesTo(pit, n - 1, d) == [] && Matches(e.pkt, d) && e.pending != [] {
        FirstDelivery(e.pending, |e.pending|, e.pkt);
      }
    }
  }

  lemma {:induction false} FirstDelivery(pending: seq<FaceId>, n: nat, cause: Interest)
    requires 0 < n <= |pending|
    ensures EntryDeliveries(pending, n, cause, {}) != []
  {
    if n > 1 {
      FirstDelivery(pending, n - 1, cause);
    } else {
      assert EntryDeliveries(pending, 0, cause, {}) == [];
    }
  }

  /** Making room only ever removes names. */
  lemma StoredStays(s: State, name: Name)
    requires !Stored(s.contents, name)
    ensures !Stored(MakeRoom(s).contents, name)
  {
  }
}
