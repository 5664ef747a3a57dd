/** What the single tables amount to: serving, forwarding, the route map and the nonce memory. */
module Tables {
  import opened Base
  import opened Names
  import opened RelayState
  import opened Structure

  // ---------------------------------------------------------------- serving is exact

  function FaceOf(): Delivery -> FaceId {
    (x: Delivery) => x.0
  }

  /** The faces waiting in the first `n` entries that match. */
  ghost predicate Waits(pit: seq<PitEntry>, n: nat, d: Data, f: FaceId)
    requires n <= |pit|
  {
    exists i :: 0 <= i < n && Matches(pit[i].pkt, d) && f in pit[i].pending
  }

  /** Each face waiting in a matching entry is served, no other face is, and none is served twice. */
  lemma ServesEachOnce(pit: seq<PitEntry>, d: Data)
    ensures Distinct(Map(FaceOf(), Deliveries(pit, d)))
    ensures forall f :: f in FacesOf(Deliveries(pit, d)) <==> Waits(pit, |pit|, d, f)
  {
    ServesEachOnceTo(pit, |pit|, d);
  }

  lemma {:induction false} ServesEachOnceTo(pit: seq<PitEntry>, n: nat, d: Data)
    requires n <= |pit|
    ensures Distinct(Map(FaceOf(), DeliveriesTo(pit, n, d)))
    ensures forall f :: f in FacesOf(DeliveriesTo(pit, n, d)) <==> Waits(pit, n, d, f)
  {
    hide Distinct, Map, EntryDeliveries;
    if n > 0 {
      ServesEachOnceTo(pit, n - 1, d);
      var front := DeliveriesTo(pit, n - 1, d);
      var e := pit[n - 1];
      var more := OneEntry(e, d, FacesOf(front));
      if Matches(e.pkt, d) {
        EntryServesEachOnce(e.pending, |e.pending|, e.pkt, front);
      } else {
        assert front + more == front;
      }
      forall f ensures f in FacesOf(DeliveriesTo(pit, n, d)) <==> Waits(pit, n, d, f) {
        assert f in FacesOf(front) <==> Waits(pit, n - 1, d, f);
      }
    } else {
      assert Distinct(Map(FaceOf(), [])) by {
        NoneDistinct();
      }
    }
  }

  lemma NoneDistinct()
    ensures Distinct(Map(FaceOf(), []))
  {
  }

  lemma {:induction false} EntryServesEachOnce(pending: seq<FaceId>, n: nat, cause: Interest, front: seq<Delivery>)
    requires n <= |pending| && Distinct(Map(FaceOf(), front))
    ensures var more := EntryDeliveries(pending, n, cause, FacesOf(front));
            && Distinct(Map(FaceOf(), front + more))
            && forall f :: f in FacesOf(front + more) <==> f in FacesOf(front) || f in pending[..n]
  {
    hide Distinct, Map;
    var done := FacesOf(front);
    if n > 0 {
      EntryServesEachOnce(pending, n - 1, cause, front);
      var more := EntryDeliveries(pending, n - 1, cause, done);
      var f := pending[n - 1];
      assert pending[..n] == pending[..n - 1] + [f];
      FacesOfAppend(front, more);
      if f !in done && f !in FacesOf(more) {
        OneMore(front + more, (f, cause));
        assert front + (more + [(f, cause)]) == front + more + [(f, cause)];
      }
    } else {
      assert front + EntryDeliveries(pending, 0, cause, done) == front;
    }
  }

  lemma OneMore(ds: seq<Delivery>, x: Delivery)
    requires Distinct(Map(FaceOf(), ds)) && x.0 !in FacesOf(ds)
    ensures Distinct(Map(FaceOf(), ds + [x]))
    ensures forall f :: f in FacesOf(ds + [x]) <==> f in FacesOf(ds) || f == x.0
  {
    hide Distinct;
    assert Map(FaceOf(), ds + [x]) == Map(FaceOf(), ds) + [x.0];
    DistinctCons(x.0, Map(FaceOf(), ds));
    FacesOfAppend(ds, [x]);
    assert x in [x];
  }

  // ---------------------------------------------------------------- forwarding is exact

  /** The prefix of the route begins the name, and the route does not lead back to the face the Interest
      came from unless that face reflects. */
  predicate Fits(faces: seq<Face>, e: PitEntry, r: FibEntry) {
    && r.prefix.comps <= e.pkt.name.comps
    && (e.from.None? || r.face != e.from.value || exists f :: f in faces && f.id == e.from.value && f.reflect)
  }

  function Fitting(faces: seq<Face>, e: PitEntry): FibEntry -> bool {
    (r: FibEntry) => Fits(faces, e, r)
  }

  function SendAlong(e: PitEntry): FibEntry -> Action {
    (r: FibEntry) => SentInterest(r.face, e.pkt)
  }

  /** One send per route that fits, in the order of the table. */
  function Sends(faces: seq<Face>, e: PitEntry, fib: seq<FibEntry>): seq<Action> {
    Map(SendAlong(e), Filter(Fitting(faces, e), fib))
  }

  /** A route adds its send exactly if it fits. */
  lemma RouteAdds(faces: seq<Face>, e: PitEntry, r: FibEntry)
    ensures Forward(faces, e, r) == if Fits(faces, e, r) then [SentInterest(r.face, e.pkt)] else []
  {
  }

  lemma ForwardedIsSends(faces: seq<Face>, e: PitEntry, fib: seq<FibEntry>)
    ensures FlatMap(Forwarded(faces, e), fib) == Sends(faces, e, fib)
  {
    hide Fits, Forward;
    forall i | 0 <= i < |fib|
      ensures Forwarded(faces, e)(fib[i]) == if Fitting(faces, e)(fib[i]) then [SendAlong(e)(fib[i])] else []
    {
      RouteAdds(faces, e, fib[i]);
    }
    PassMapped(Forwarded(faces, e), Fitting(faces, e), SendAlong(e), fib, |fib|);
  }

  /** An Interest goes out once along each route that fits, in the order of the table, and nowhere else. */
  lemma ForwardsExactly(s: State, e: PitEntry)
    ensures Propagate(s, e).log == s.log + Map(SendAlong(e), Filter(Fitting(s.faces, e), s.fib))
  {
    ForwardedIsSends(s.faces, e, s.fib);
  }

  /** So it goes out on a face exactly if some route to that face has a prefix that begins its name, and the
      face is not the one it came from, or reflects. */
  lemma GoesOutIff(faces: seq<Face>, e: PitEntry, fib: seq<FibEntry>, g: FaceId)
    ensures SentInterest(g, e.pkt) in Sends(faces, e, fib) <==>
              && (exists r :: r in fib && r.face == g && r.prefix.comps <= e.pkt.name.comps)
              && (e.from != Some(g) || exists f :: f in faces && f.id == g && f.reflect)
  {
    hide Filter;
    var live := Filter(Fitting(faces, e), fib);
    if r :| r in fib && r.face == g && r.prefix.comps <= e.pkt.name.comps {
      FilterMember(Fitting(faces, e), fib, r);
      if r in live {
        var i :| 0 <= i < |live| && live[i] == r;
        assert Sends(faces, e, fib)[i] == SentInterest(g, e.pkt);
      }
    }
    if SentInterest(g, e.pkt) in Sends(faces, e, fib) {
      var i :| 0 <= i < |live| && SendAlong(e)(live[i]) == SentInterest(g, e.pkt);
      FilterMember(Fitting(faces, e), fib, live[i]);
    }
  }

  // ---------------------------------------------------------------- the forwarding table is a map

  ghost function RouteMap(fib: seq<FibEntry>): map<Name, FaceId>
    requires Distinct(Map(RoutePrefix(), fib))
  {
    var names := Map(RoutePrefix(), fib);
    assert forall i, j :: 0 <= i < j < |fib| && fib[i].prefix == fib[j].prefix ==> names[i] == names[j];
    map i | 0 <= i < |fib| :: fib[i].prefix := fib[i].face
  }

  ghost predicate Binds(m: map<Name, FaceId>, p: Name, f: FaceId) {
    p in m && m[p] == f
  }

  /** The map binds what the table lists. */
  lemma RouteMapBinds(fib: seq<FibEntry>, p: Name, f: FaceId)
    requires Distinct(Map(RoutePrefix(), fib))
    ensures Binds(RouteMap(fib), p, f) <==> FibEntry(p, f) in fib
  {
    var names := Map(RoutePrefix(), fib);
    if FibEntry(p, f) in fib {
      var i :| 0 <= i < |fib| && fib[i] == FibEntry(p, f);
      assert names[i] == p;
    }
  }

  lemma SameMap(m: map<Name, FaceId>, m1: map<Name, FaceId>)
    requires forall p, f :: Binds(m, p, f) <==> Binds(m1, p, f)
    ensures m == m1
  {
    forall p | p in m ensures p in m1 && m1[p] == m[p] {
      assert Binds(m, p, m[p]);
    }
    forall p | p in m1 ensures p in m {
      assert Binds(m1, p, m1[p]);
    }
  }

  lemma AddLists(fib: seq<FibEntry>, name: Name, face: FaceId, p: Name, f: FaceId)
    requires Distinct(Map(RoutePrefix(), fib))
    ensures var k := RouteAt(fib, name);
            var fib1 := if k < |fib| then fib[k := FibEntry(name, face)] else fib + [FibEntry(name, face)];
            FibEntry(p, f) in fib1 <==> if p == name then f == face else FibEntry(p, f) in fib
  {
    var k := RouteAt(fib, name);
    var fib1 := if k < |fib| then fib[k := FibEntry(name, face)] else fib + [FibEntry(name, face)];
    var names := Map(RoutePrefix(), fib);
    assert fib1[k] == FibEntry(name, face);
    if FibEntry(p, f) in fib1 {
      var i :| 0 <= i < |fib1| && fib1[i] == FibEntry(p, f);
      if i != k {
        assert fib[i] == fib1[i] && names[i] == p;
        assert k < |fib| ==> names[k] == name;
      }
    }
    if FibEntry(p, f) in fib && p != name {
      var i :| 0 <= i < |fib| && fib[i] == FibEntry(p, f);
      assert fib1[i] == fib[i];
    }
  }

  /** Adding a route binds its name, and only that. */
  lemma FibAddIsUpdate(s: State, name: Name, face: FaceId)
    requires Distinct(Map(RoutePrefix(), s.fib))
    ensures Distinct(Map(RoutePrefix(), FibAdd(s, name, face).fib))
    ensures RouteMap(FibAdd(s, name, face).fib) == RouteMap(s.fib)[name := face]
  {
    hide RouteMap, Distinct;
    var fib, fib1 := s.fib, FibAdd(s, name, face).fib;
    if RouteAt(fib, name) < |fib| {
      assert Map(RoutePrefix(), fib1) == Map(RoutePrefix(), fib);
    } else {
      DistinctCons(name, Map(RoutePrefix(), fib));
      assert Map(RoutePrefix(), fib1) == Map(RoutePrefix(), fib) + [name];
    }
    forall p, f ensures Binds(RouteMap(fib1), p, f) <==> Binds(RouteMap(fib)[name := face], p, f) {
      RouteMapBinds(fib, p, f);
      RouteMapBinds(fib1, p, f);
      AddLists(fib, name, face, p, f);
    }
    SameMap(RouteMap(fib1), RouteMap(fib)[name := face]);
  }

  lemma DropLists(fib: seq<FibEntry>, k: nat, p: Name, f: FaceId)
    requires Distinct(Map(RoutePrefix(), fib)) && k < |fib|
    ensures FibEntry(p, f) in fib[..k] + fib[k + 1..] <==> p != fib[k].prefix && FibEntry(p, f) in fib
  {
    var fib1, names := fib[..k] + fib[k + 1..], Map(RoutePrefix(), fib);
    if FibEntry(p, f) in fib1 {
      var i :| 0 <= i < |fib1| && fib1[i] == FibEntry(p, f);
      var j := if i < k then i else i + 1;
      assert fib[j] == fib1[i] && names[j] != names[k];
    }
    if FibEntry(p, f) in fib && p != fib[k].prefix {
      var i :| 0 <= i < |fib| && fib[i] == FibEntry(p, f);
      assert fib1[if i < k then i else i - 1] == fib[i];
    }
  }

  lemma DropIsRemoval(fib: seq<FibEntry>, k: nat)
    requires Distinct(Map(RoutePrefix(), fib)) && k < |fib|
    ensures Distinct(Map(RoutePrefix(), fib[..k] + fib[k + 1..]))
    ensures RouteMap(fib[..k] + fib[k + 1..]) == RouteMap(fib) - {fib[k].prefix}
  {
    hide RouteMap, Distinct;
    var fib1 := fib[..k] + fib[k + 1..];
    DistinctDrop(RoutePrefix(), fib, k);
    forall p, f ensures Binds(RouteMap(fib1), p, f) <==> Binds(RouteMap(fib) - {fib[k].prefix}, p, f) {
      RouteMapBinds(fib, p, f);
      RouteMapBinds(fib1, p, f);
      DropLists(fib, k, p, f);
    }
    SameMap(RouteMap(fib1), RouteMap(fib) - {fib[k].prefix});
  }

  /** Removing a route unbinds the name of the first one selected; given a name, it unbinds that name
      if it is bound, and bound to the given face when there is one. */
  lemma FibRemIsRemoval(s: State, name: Option<Name>, face: Option<FaceId>)
    requires Distinct(Map(RoutePrefix(), s.fib))
    ensures Distinct(Map(RoutePrefix(), FibRem(s, name, face).fib))
    ensures var m, k := RouteMap(s.fib), SelectedAt(s.fib, name, face);
            RouteMap(FibRem(s, name, face).fib) == if k < |s.fib| then m - {s.fib[k].prefix} else m
    ensures name.Some? ==>
              RouteMap(FibRem(s, name, face).fib)
              == if exists f :: Binds(RouteMap(s.fib), name.value, f) && (face.None? || f == face.value)
                 then RouteMap(s.fib) - {name.value} else RouteMap(s.fib)
  {
    hide RouteMap, Distinct;
    var fib := s.fib;
    var k := SelectedAt(fib, name, face);
    if k < |fib| {
      DropIsRemoval(fib, k);
      RouteMapBinds(fib, fib[k].prefix, fib[k].face);
    } else if name.Some? {
      forall f | Binds(RouteMap(fib), name.value, f) ensures face.Some? && f != face.value {
        RouteMapBinds(fib, name.value, f);
        var i :| 0 <= i < |fib| && fib[i] == FibEntry(name.value, f);
        assert !Selected(fib[i], name, face);
      }
    }
  }

  // ---------------------------------------------------------------- the nonce memory

  /** The nonces presented by the first `n` events of a run. */
  function Presented(evs: seq<Event>, n: nat): seq<Bytes>
    requires n <= |evs|
  {
    if n == 0 then [] else
      Presented(evs, n - 1)
      + if evs[n - 1].RxInterest? && evs[n - 1].interest.nonce.Some? then [evs[n - 1].interest.nonce.value] else []
  }

  /** The last 256 elements of a history. */
  function Recent(h: seq<Bytes>): seq<Bytes> {
    if |h| > 256 then h[|h| - 256..] else h
  }

  /** The nonces accepted among the first `n` presented: those not among the recently accepted. */
  function Accepted(h: seq<Bytes>, n: nat): seq<Bytes>
    requires n <= |h|
  {
    if n == 0 then [] else
      var a := Accepted(h, n - 1);
      if h[n - 1] in Recent(a) then a else a + [h[n - 1]]
  }

  function Reverse(s: seq<Bytes>): (r: seq<Bytes>)
    ensures |r| == |s| && forall i :: 0 <= i < |s| ==> r[i] == s[|s| - 1 - i]
  {
    seq(|s|, i requires 0 <= i < |s| => s[|s| - 1 - i])
  }

  lemma ReverseMember(s: seq<Bytes>, x: Bytes)
    ensures x in Reverse(s) <==> x in s
  {
    if x in s {
      var i :| 0 <= i < |s| && s[i] == x;
      assert Reverse(s)[|s| - 1 - i] == x;
    }
  }

  lemma RememberIsRecent(a: seq<Bytes>, n: Bytes)
    ensures Remember(Reverse(Recent(a)), n) == Reverse(Recent(a + [n]))
  {
    var r, r1 := Reverse(Recent(a)), Reverse(Recent(a + [n]));
    var kept := if |a| >= MAX_NONCES then MAX_NONCES - 1 else |a|;
    assert |r1| == kept + 1 && r1[0] == n;
    forall i | 0 <= i < kept ensures r1[i + 1] == r[i] {
      assert r[i] == a[|a| - 1 - i];
      assert r1[i + 1] == (a + [n])[|a| - 1 - i];
    }
    assert r1 == [n] + r[..kept];
    assert Remember(r, n) == [n] + r[..kept];
  }

  lemma {:induction false} AcceptedStable(h: seq<Bytes>, more: seq<Bytes>, n: nat)
    requires n <= |h|
    ensures Accepted(h + more, n) == Accepted(h, n)
  {
    hide Recent;
    if n > 0 {
      AcceptedStable(h, more, n - 1);
    }
  }

  /** Which events leave the nonce table alone. */
  lemma NoncesStep(s: State, ev: Event)
    ensures Apply(s, ev).nonces ==
            if ev.RxInterest? && ev.interest.nonce.Some? && ev.interest.nonce.value !in s.nonces
            then Remember(s.nonces, ev.interest.nonce.value) else s.nonces
  {
    hide Remember, SameAt, HitAt, Stored, Wanted, Deliveries, Count;
  }

  lemma RememberDistinct(nonces: seq<Bytes>)
    requires Distinct(nonces)
    ensures forall x :: x !in nonces ==> Distinct(Remember(nonces, x))
  {
  }

  /** In every reachable state the table holds exactly the 256 most recently accepted nonces,
      newest first. */
  lemma {:induction false} NonceTableIsRecent(s: State, evs: seq<Event>, n: nat)
    requires IsEmpty(s) && n <= |evs|
    ensures var h := Presented(evs, n);
            Run(s, evs, n).nonces == Reverse(Recent(Accepted(h, |h|)))
    ensures Distinct(Run(s, evs, n).nonces)
  {
    hide Remember, Recent, Reverse, Apply, IsEmpty, Distinct;
    if n > 0 {
      NonceTableIsRecent(s, evs, n - 1);
      RememberDistinct(Run(s, evs, n - 1).nonces);
      var h0, ev := Presented(evs, n - 1), evs[n - 1];
      NoncesStep(Run(s, evs, n - 1), ev);
      if ev.RxInterest? && ev.interest.nonce.Some? {
        AcceptStep(h0, ev.interest.nonce.value);
      } else {
        assert Presented(evs, n) == h0;
      }
    } else {
      EmptyTable(s);
    }
  }

  /** One more nonce presented: history and table take the same decision and the same turn. */
  lemma AcceptStep(h: seq<Bytes>, x: Bytes)
    ensures var table := Reverse(Recent(Accepted(h, |h|)));
            var h1 := h + [x];
            Reverse(Recent(Accepted(h1, |h1|))) == if x !in table then Remember(table, x) else table
  {
    hide Recent, Remember, Reverse;
    AcceptedStable(h, [x], |h|);
    ReverseMember(Recent(Accepted(h, |h|)), x);
    RememberIsRecent(Accepted(h, |h|), x);
  }

  /** So an Interest is refused as a duplicate iff its nonce is one of them. */
  lemma RefusedIffRecent(s: State, evs: seq<Event>, p: Interest)
    requires IsEmpty(s)
    ensures var h := Presented(evs, |evs|);
            IsDup(Run(s, evs, |evs|), p) <==> p.nonce.Some? && p.nonce.value in Recent(Accepted(h, |h|))
  {
    hide Recent, Reverse, Run, IsEmpty;
    var h := Presented(evs, |evs|);
    NonceTableIsRecent(s, evs, |evs|);
    if p.nonce.Some? {
      ReverseMember(Recent(Accepted(h, |h|)), p.nonce.value);
    }
  }

  lemma EmptyTable(s: State)
    requires IsEmpty(s)
    ensures s.nonces == Reverse(Recent([])) && Distinct(s.nonces)
  {
  }
}
