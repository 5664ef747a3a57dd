/**
 The tables of one relay as a value, and what each operation on them amounts to. The class in
 Relay.dfy runs the loops and is proved against these functions; Structure.dfy, FlowBalance.dfy,
 ContentStore.dfy and Network.dfy prove what they keep.
 */
module RelayState {
  import opened Base
  import opened Names

  const MAX_NONCES: nat := 256
  const MAX_RETRANSMIT: nat := 7
  const CONTENT_TIMEOUT: nat := 300
  const FACE_TIMEOUT: nat := 30

  type FaceId = nat

  datatype Addr = Addr(family: nat, id: nat)

  datatype Iface = Iface(family: nat, reflect: bool, fwdalli: bool)

  datatype Face = Face(id: FaceId, ifndx: int, peer: Option<Addr>, isStatic: bool, reflect: bool, fwdalli: bool,
                       lastUsed: U32)

  datatype FibEntry = FibEntry(prefix: Name, face: FaceId)

  /** One pending Interest; `pending` lists the faces that want the data, `from` the first of them. */
  datatype PitEntry = PitEntry(pkt: Interest, from: Option<FaceId>, pending: seq<FaceId>, lifetime: U32,
                               lastUsed: U32, retries: nat)

  datatype Content = Content(data: Data, isStatic: bool, stale: bool, lastUsed: U32)

  /** What a relay is seen to do. `isNew` says the Interest was not dropped as a duplicate; `cause`
      is the Interest a delivery answers; `upcall` marks delivery to a local client. */
  datatype Action =
    | GotInterest(face: FaceId, interest: Interest, isNew: bool)
    | SentInterest(face: FaceId, interest: Interest)
    | SentData(face: FaceId, data: Data, cause: Interest, upcall: bool)

  /** `served` is the set of faces whose SERVED flag is up; `log` is the history, oldest first. */
  datatype State = State(
    ifs: seq<Iface>, faces: seq<Face>, fib: seq<FibEntry>, pit: seq<PitEntry>, contents: seq<Content>,
    nonces: seq<Bytes>, contentcnt: int, maxCache: int, pitcnt: int, maxPit: int,
    served: set<FaceId>, seqno: nat, log: seq<Action>)

  // ---------------------------------------------------------------- faces

  function IdOf(): Face -> FaceId {
    (f: Face) => f.id
  }

  ghost predicate DistinctIds(faces: seq<Face>) {
    Distinct(Map(IdOf(), faces))
  }

  predicate HasFace(faces: seq<Face>, id: FaceId) {
    exists f :: f in faces && f.id == id
  }

  predicate IsLocal(faces: seq<Face>, id: FaceId) {
    exists f :: f in faces && f.id == id && f.ifndx < 0
  }

  predicate Reflects(faces: seq<Face>, id: FaceId) {
    exists f :: f in faces && f.id == id && f.reflect
  }

  /** Position of the first face reached through this interface and peer; a None peer asks for the
      local client. */
  function FaceAt(faces: seq<Face>, ifndx: int, peer: Option<Addr>): (k: nat)
    ensures k <= |faces|
    ensures k < |faces| ==> IsFaceFor(faces[k], ifndx, peer)
    ensures forall j :: 0 <= j < k ==> !IsFaceFor(faces[j], ifndx, peer)
  {
    if faces == [] then 0
    else if IsFaceFor(faces[0], ifndx, peer) then 0
    else 1 + FaceAt(faces[1..], ifndx, peer)
  }

  predicate IsFaceFor(f: Face, ifndx: int, peer: Option<Addr>) {
    if peer.None? then f.ifndx == -1 else ifndx != -1 && f.ifndx == ifndx && f.peer == peer
  }

  /** The interface a new face goes out on: the given one, or the first of the peer's family. */
  function PickIface(ifs: seq<Iface>, ifndx: int, peer: Option<Addr>): (r: int)
    ensures r >= -1 || r == ifndx
    ensures peer.Some? && ifndx == -1 && r != -1 ==>
              0 <= r < |ifs| && ifs[r].family == peer.value.family
              && forall j :: 0 <= j < r ==> ifs[j].family != peer.value.family
    ensures peer.Some? && ifndx == -1 && r == -1 ==> forall i :: i in ifs ==> i.family != peer.value.family
  {
    if peer.Some? && ifndx == -1 then FirstOfFamily(ifs, peer.value.family) else ifndx
  }

  function FirstOfFamily(ifs: seq<Iface>, family: nat): (r: int)
    ensures -1 <= r < |ifs|
    ensures r >= 0 ==> ifs[r].family == family && forall j :: 0 <= j < r ==> ifs[j].family != family
    ensures r == -1 ==> forall i :: i in ifs ==> i.family != family
  {
    if ifs == [] then -1
    else if ifs[0].family == family then 0
    else
      var r := FirstOfFamily(ifs[1..], family);
      if r == -1 then -1 else r + 1
  }

  function NewFace(s: State, ifndx: int, peer: Option<Addr>, now: U32): Face {
    var known := 0 <= ifndx < |s.ifs|;
    Face(s.seqno + 1, if peer.Some? then ifndx else -1, peer, false,
         known && s.ifs[ifndx].reflect, known && s.ifs[ifndx].fwdalli, now)
  }

  /** Finds or makes the face for a peer; None when no interface suits. */
  function GetFace(s: State, ifndx: int, peer: Option<Addr>, now: U32): (State, Option<FaceId>) {
    var k := FaceAt(s.faces, ifndx, peer);
    if k < |s.faces| then
      (if peer.Some? then s.(faces := s.faces[k := s.faces[k].(lastUsed := now)]) else s, Some(s.faces[k].id))
    else
      var pick := PickIface(s.ifs, ifndx, peer);
      if peer.Some? && pick == -1 then (s, None)
      else
        var f := NewFace(s, pick, peer, now);
        (s.(faces := [f] + s.faces, seqno := f.id), Some(f.id))
  }

  // ---------------------------------------------------------------- face removal

  function Keeps(gone: set<FaceId>): FaceId -> bool {
    (id: FaceId) => id !in gone
  }

  function Without(e: PitEntry, gone: set<FaceId>): PitEntry {
    e.(from := if e.from.Some? && e.from.value in gone then None else e.from,
       pending := Filter(Keeps(gone), e.pending))
  }

  /** An entry once the faces in `gone` are struck from it; no longer an entry if nobody waits. */
  function Strip(e: PitEntry, gone: set<FaceId>): seq<PitEntry> {
    if Without(e, gone).pending == [] then [] else [Without(e, gone)]
  }

  function Stripped(gone: set<FaceId>): PitEntry -> seq<PitEntry> {
    (e: PitEntry) => Strip(e, gone)
  }

  function FaceKept(gone: set<FaceId>): Face -> bool {
    (f: Face) => f.id !in gone
  }

  function RouteKept(gone: set<FaceId>): FibEntry -> bool {
    (e: FibEntry) => e.face !in gone
  }

  /** Removing any number of faces at once; removing none changes nothing. */
  function RemoveFaces(s: State, gone: set<FaceId>): State {
    if gone == {} then s else
      var pit := FlatMap(Stripped(gone), s.pit);
      s.(faces := Filter(FaceKept(gone), s.faces), fib := Filter(RouteKept(gone), s.fib),
         pit := pit, pitcnt := s.pitcnt - (|s.pit| - |pit|), served := s.served - gone)
  }

  // ---------------------------------------------------------------- forwarding table

  predicate IsPrefix(p: Name, n: Name) {
    p.comps <= n.comps
  }

  /** Whether an Interest goes out along a route: the prefix fits, and the route does not lead back
      to where the Interest came from unless that face reflects. */
  predicate Follows(faces: seq<Face>, e: PitEntry, r: FibEntry) {
    && IsPrefix(r.prefix, e.pkt.name)
    && (e.from.None? || r.face != e.from.value || Reflects(faces, e.from.value))
  }

  function Forward(faces: seq<Face>, e: PitEntry, r: FibEntry): seq<Action> {
    if Follows(faces, e, r) then [SentInterest(r.face, e.pkt)] else []
  }

  function Forwarded(faces: seq<Face>, e: PitEntry): FibEntry -> seq<Action> {
    (r: FibEntry) => Forward(faces, e, r)
  }

  function Propagate(s: State, e: PitEntry): State {
    s.(log := s.log + FlatMap(Forwarded(s.faces, e), s.fib))
  }

  /** Position of the route for exactly this name. */
  function RouteAt(fib: seq<FibEntry>, name: Name): (k: nat)
    ensures k <= |fib|
    ensures k < |fib| ==> fib[k].prefix == name
    ensures forall j :: 0 <= j < k ==> fib[j].prefix != name
  {
    if fib == [] || fib[0].prefix == name then 0 else 1 + RouteAt(fib[1..], name)
  }

  function FibAdd(s: State, name: Name, face: FaceId): State {
    var k := RouteAt(s.fib, name);
    if k < |s.fib| then s.(fib := s.fib[k := FibEntry(name, face)])
    else s.(fib := s.fib + [FibEntry(name, face)])
  }

  predicate Selected(e: FibEntry, name: Option<Name>, face: Option<FaceId>) {
    (name.None? || e.prefix == name.value) && (face.None? || e.face == face.value)
  }

  function SelectedAt(fib: seq<FibEntry>, name: Option<Name>, face: Option<FaceId>): (k: nat)
    ensures k <= |fib|
    ensures k < |fib| ==> Selected(fib[k], name, face)
    ensures forall j :: 0 <= j < k ==> !Selected(fib[j], name, face)
  {
    if fib == [] || Selected(fib[0], name, face) then 0 else 1 + SelectedAt(fib[1..], name, face)
  }

  /** Drops the first route that fits the two optional criteria. */
  function FibRem(s: State, name: Option<Name>, face: Option<FaceId>): State {
    var k := SelectedAt(s.fib, name, face);
    if k < |s.fib| then s.(fib := s.fib[..k] + s.fib[k + 1..]) else s
  }

  // ---------------------------------------------------------------- nonces

  /** The table after a nonce it does not hold: newest first, cut to its size. */
  function Remember(nonces: seq<Bytes>, n: Bytes): seq<Bytes> {
    if |nonces| >= MAX_NONCES && |nonces| >= 2 then [n] + nonces[..|nonces| - 1] else [n] + nonces
  }

  predicate IsDup(s: State, p: Interest) {
    p.nonce.Some? && p.nonce.value in s.nonces
  }

  // ---------------------------------------------------------------- pending table

  /** Position of the entry that stands for the same request. */
  function SameAt(pit: seq<PitEntry>, p: Interest): (k: nat)
    ensures k <= |pit|
    ensures k < |pit| ==> KeyOf(pit[k].pkt) == KeyOf(p)
    ensures forall j :: 0 <= j < k ==> KeyOf(pit[j].pkt) != KeyOf(p)
  {
    if pit == [] || KeyOf(pit[0].pkt) == KeyOf(p) then 0 else 1 + SameAt(pit[1..], p)
  }

  function AppendPending(e: PitEntry, from: Option<FaceId>): PitEntry {
    if from.None? || from.value in e.pending then e else e.(pending := e.pending + [from.value])
  }

  function NewEntry(p: Interest, from: Option<FaceId>, now: U32): PitEntry {
    PitEntry(p, from, [], (p.lifetimeMs / 1000) % TWO32, now, 0)
  }

  predicate PitFull(s: State) {
    s.maxPit != -1 && s.pitcnt >= s.maxPit
  }

  // ---------------------------------------------------------------- content store

  /** Position of the first stored content that answers an Interest. */
  function HitAt(contents: seq<Content>, p: Interest): (k: nat)
    ensures k <= |contents|
    ensures k < |contents| ==> Hits(contents[k], p)
    ensures forall j :: 0 <= j < k ==> !Hits(contents[j], p)
  {
    if contents == [] || Hits(contents[0], p) then 0 else 1 + HitAt(contents[1..], p)
  }

  predicate Hits(c: Content, p: Interest) {
    Matches(p, c.data) && !(p.mustBeFresh && c.stale)
  }

  predicate Stored(contents: seq<Content>, name: Name) {
    exists c :: c in contents && c.data.name == name
  }

  /** The eviction scan over the first `n` entries: the age it has seen and the position it would
      evict. An age of 0 counts as "nothing seen yet". */
  function EvictScan(contents: seq<Content>, n: nat): (r: (U32, Option<nat>))
    requires n <= |contents|
    ensures r.1.Some? ==> r.1.value < n && !contents[r.1.value].isStatic && r.0 == contents[r.1.value].lastUsed
    ensures r.1.None? ==> r.0 == 0 && forall i :: 0 <= i < n ==> contents[i].isStatic
  {
    if n == 0 then (0, None) else
      var (age, pick) := EvictScan(contents, n - 1);
      if !contents[n - 1].isStatic && (age == 0 || contents[n - 1].lastUsed < age)
      then (contents[n - 1].lastUsed, Some(n - 1)) else (age, pick)
  }

  function RemoveContent(s: State, k: nat): State
    requires k < |s.contents|
  {
    s.(contents := s.contents[..k] + s.contents[k + 1..], contentcnt := s.contentcnt - 1)
  }

  function MakeRoom(s: State): State {
    var pick := EvictScan(s.contents, |s.contents|).1;
    if s.maxCache > 0 && s.contentcnt >= s.maxCache && pick.Some? then RemoveContent(s, pick.value) else s
  }

  predicate Admits(s: State) {
    s.maxCache <= 0 || s.contentcnt <= s.maxCache
  }

  function Add2Cache(s: State, c: Content): State {
    if Stored(s.contents, c.data.name) then s else
      var room := MakeRoom(s);
      if Admits(room) then room.(contents := [c] + room.contents, contentcnt := room.contentcnt + 1) else room
  }

  // ---------------------------------------------------------------- serving data

  function Unanswered(d: Data): PitEntry -> bool {
    (e: PitEntry) => !Matches(e.pkt, d)
  }

  function Orphan(d: Data): PitEntry -> bool {
    (e: PitEntry) => Matches(e.pkt, d) && e.pending == []
  }

  predicate Wanted(pit: seq<PitEntry>, d: Data) {
    exists e :: e in pit && Matches(e.pkt, d)
  }

  /** Deliveries as (face, cause) pairs, in the order they happen. */
  type Delivery = (FaceId, Interest)

  function FacesOf(ds: seq<Delivery>): set<FaceId> {
    set x | x in ds :: x.0
  }

  lemma FacesOfAppend(a: seq<Delivery>, b: seq<Delivery>)
    ensures FacesOf(a + b) == FacesOf(a) + FacesOf(b)
  {
    forall f | f in FacesOf(a) + FacesOf(b) ensures f in FacesOf(a + b) {
      if f in FacesOf(a) {
        var x :| x in a && x.0 == f;
        assert x in a + b;
      } else {
        var x :| x in b && x.0 == f;
        assert x in a + b;
      }
    }
  }

  /** The first `n` waiting faces of one entry, those that have not been served before. */
  function EntryDeliveries(pending: seq<FaceId>, n: nat, cause: Interest, done: set<FaceId>): seq<Delivery>
    requires n <= |pending|
  {
    if n == 0 then [] else
      var front := EntryDeliveries(pending, n - 1, cause, done);
      var f := pending[n - 1];
      if f in done || f in FacesOf(front) then front else front + [(f, cause)]
  }

  function OneEntry(e: PitEntry, d: Data, done: set<FaceId>): seq<Delivery> {
    if Matches(e.pkt, d) then EntryDeliveries(e.pending, |e.pending|, e.pkt, done) else []
  }

  /** What the first `n` entries of the pending table receive. */
  function DeliveriesTo(pit: seq<PitEntry>, n: nat, d: Data): seq<Delivery>
    requires n <= |pit|
  {
    if n == 0 then [] else
      var front := DeliveriesTo(pit, n - 1, d);
      front + OneEntry(pit[n - 1], d, FacesOf(front))
  }

  function Deliveries(pit: seq<PitEntry>, d: Data): seq<Delivery> {
    DeliveriesTo(pit, |pit|, d)
  }

  function Deliver(faces: seq<Face>, d: Data, x: Delivery): Action {
    SentData(x.0, d, x.1, IsLocal(faces, x.0))
  }

  function Delivered(faces: seq<Face>, d: Data): Delivery -> Action {
    (x: Delivery) => Deliver(faces, d, x)
  }

  function ServePending(s: State, d: Data): State {
    var ds := Deliveries(s.pit, d);
    var pit := Filter(Unanswered(d), s.pit);
    s.(pit := pit, pitcnt := s.pitcnt - (|s.pit| - |pit|), served := FacesOf(ds),
       log := s.log + Map(Delivered(s.faces, d), ds))
  }

  /** What serving reports: one per delivery and one per matching entry nobody waits on. */
  function ServedCount(pit: seq<PitEntry>, d: Data): nat {
    |Deliveries(pit, d)| + Count(Orphan(d), pit)
  }

  // ---------------------------------------------------------------- packet handlers

  /** Management requests share this shape of name and are not forwarded. */
  predicate IsMgmt(n: Name) {
    |n.comps| == 4 && |n.comps[0]| >= 4 && n.comps[0][..4] == [99, 99, 110, 120]
  }

  function Heard(s: State, from: Option<FaceId>, p: Interest, isNew: bool): State {
    if from.None? then s else s.(log := s.log + [GotInterest(from.value, p, isNew)])
  }

  /** The pending-table half of handling an Interest. */
  function Enter(s: State, from: Option<FaceId>, p: Interest, now: U32): State {
    var k := SameAt(s.pit, p);
    if p.scope <= 2 then s
    else if k < |s.pit| then s.(pit := s.pit[k := AppendPending(s.pit[k], from)])
    else if PitFull(s) then s
    else
      var e := AppendPending(NewEntry(p, from, now), from);
      Propagate(s.(pit := [e] + s.pit, pitcnt := s.pitcnt + 1), e)
  }

  function Noted(s: State, p: Interest): State {
    if p.nonce.Some? then s.(nonces := Remember(s.nonces, p.nonce.value)) else s
  }

  function HandleInterest(s: State, from: Option<FaceId>, p: Interest, now: U32): State {
    if IsDup(s, p) then Heard(s, from, p, false) else
      var s1 := Noted(Heard(s, from, p, true), p);
      if IsMgmt(p.name) then s1 else
        var k := HitAt(s1.contents, p);
        if k < |s1.contents| then
          if from.None? then s1
          else s1.(log := s1.log + [SentData(from.value, s1.contents[k].data, p, IsLocal(s1.faces, from.value))])
        else Enter(s1, from, p, now)
  }

  function HandleContent(s: State, d: Data, now: U32): State {
    if Stored(s.contents, d.name) then s else
      var s1 := ServePending(s, d);
      var orphans := Count(Orphan(d), s.pit) > 0;
      if Wanted(s.pit, d) && s.maxCache != 0 then Add2Cache(s1, Content(d, orphans, false, now)) else s1
  }

  /** Content handed in by the application: stored first, then offered to whoever waits. */
  function CsAdd(s: State, d: Data, now: U32): State {
    if Stored(s.contents, d.name) then s else
      var s1 := ServePending(Add2Cache(s, Content(d, false, false, now)), d);
      if Count(Orphan(d), s.pit) > 0 && Admits(MakeRoom(s)) then PinFirst(s1) else s1
  }

  function PinFirst(s: State): State {
    if s.contents == [] then s else s.(contents := s.contents[0 := s.contents[0].(isStatic := true)])
  }

  // ---------------------------------------------------------------- ageing

  predicate ContentExpired(c: Content, t: U32) {
    Add32(c.lastUsed, CONTENT_TIMEOUT) <= t && !c.isStatic
  }

  function AgeContent(c: Content, t: U32): seq<Content> {
    if ContentExpired(c, t) then []
    else if Add64(c.lastUsed, c.data.freshnessMs / 1000) <= t && !c.isStatic then [c.(stale := true)]
    else [c]
  }

  function AgedContent(t: U32): Content -> seq<Content> {
    (c: Content) => AgeContent(c, t)
  }

  predicate InterestExpired(e: PitEntry, t: U32) {
    Add32(e.lastUsed, e.lifetime) <= t || e.retries >= MAX_RETRANSMIT
  }

  function AgeInterest(e: PitEntry, t: U32): seq<PitEntry> {
    if InterestExpired(e, t) then [] else [e.(retries := e.retries + 1)]
  }

  function AgedInterest(t: U32): PitEntry -> seq<PitEntry> {
    (e: PitEntry) => AgeInterest(e, t)
  }

  function Resend(fib: seq<FibEntry>, faces: seq<Face>, e: PitEntry, t: U32): seq<Action> {
    if InterestExpired(e, t) then [] else FlatMap(Forwarded(faces, e), fib)
  }

  function Resent(fib: seq<FibEntry>, faces: seq<Face>, t: U32): PitEntry -> seq<Action> {
    (e: PitEntry) => Resend(fib, faces, e, t)
  }

  predicate FaceExpired(f: Face, t: U32) {
    !f.isStatic && Add32(f.lastUsed, FACE_TIMEOUT) <= t
  }

  function Alive(t: U32): Face -> bool {
    (f: Face) => !FaceExpired(f, t)
  }

  function ExpiredOne(f: Face, t: U32): set<FaceId> {
    if FaceExpired(f, t) then {f.id} else {}
  }

  function ExpiredTo(faces: seq<Face>, n: nat, t: U32): set<FaceId>
    requires n <= |faces|
  {
    if n == 0 then {} else ExpiredTo(faces, n - 1, t) + ExpiredOne(faces[n - 1], t)
  }

  function ExpiredFaces(faces: seq<Face>, t: U32): set<FaceId> {
    ExpiredTo(faces, |faces|, t)
  }

  lemma ExpiredNext(faces: seq<Face>, n: nat, t: U32)
    requires n <= |faces|
    ensures n < |faces| ==> ExpiredTo(faces, n + 1, t) == ExpiredTo(faces, n, t) + ExpiredOne(faces[n], t)
    ensures n == |faces| ==> ExpiredTo(faces, n, t) == ExpiredFaces(faces, t)
    ensures ExpiredTo(faces, 0, t) == {}
  {
  }

  function AgeContents(s: State, t: U32): State {
    var contents := FlatMap(AgedContent(t), s.contents);
    s.(contents := contents, contentcnt := s.contentcnt - (|s.contents| - |contents|))
  }

  function AgeInterests(s: State, t: U32): State {
    var pit := FlatMap(AgedInterest(t), s.pit);
    s.(pit := pit, pitcnt := s.pitcnt - (|s.pit| - |pit|),
       log := s.log + FlatMap(Resent(s.fib, s.faces, t), s.pit))
  }

  /** One ageing tick: contents, then pending Interests (each retransmitted), then faces. */
  function Age(s: State, t: U32): State {
    var s1 := AgeInterests(AgeContents(s, t), t);
    RemoveFaces(s1, ExpiredFaces(s1.faces, t))
  }

  // ---------------------------------------------------------------- runs

  /** Everything that can happen to a relay. */
  datatype Event =
    | LookupFace(ifndx: int, peer: Option<Addr>, now: U32)
    | DropFace(face: FaceId)
    | AddRoute(prefix: Name, via: FaceId)
    | DropRoute(name: Option<Name>, next: Option<FaceId>)
    | RxInterest(from: Option<FaceId>, interest: Interest, now: U32)
    | RxData(data: Data, now: U32)
    | StoreData(data: Data, now: U32)
    | Tick(now: U32)

  /** The faces an event names are faces the relay has. */
  predicate Enabled(s: State, ev: Event) {
    match ev
    case DropFace(f) => HasFace(s.faces, f)
    case AddRoute(_, f) => HasFace(s.faces, f)
    case RxInterest(from, _, _) => from.None? || HasFace(s.faces, from.value)
    case _ => true
  }

  function Apply(s: State, ev: Event): State {
    match ev
    case LookupFace(ifndx, peer, now) => GetFace(s, ifndx, peer, now).0
    case DropFace(f) => RemoveFaces(s, {f})
    case AddRoute(p, f) => FibAdd(s, p, f)
    case DropRoute(p, f) => FibRem(s, p, f)
    case RxInterest(from, p, now) => HandleInterest(s, from, p, now)
    case RxData(d, now) => HandleContent(s, d, now)
    case StoreData(d, now) => CsAdd(s, d, now)
    case Tick(t) => Age(s, t)
  }

  /** The state after the first `n` events, and whether each of them was possible when it came. */
  function Run(s: State, evs: seq<Event>, n: nat): State
    requires n <= |evs|
  {
    if n == 0 then s else Apply(Run(s, evs, n - 1), evs[n - 1])
  }

  predicate CanRun(s: State, evs: seq<Event>) {
    forall n :: 0 <= n < |evs| ==> Enabled(Run(s, evs, n), evs[n])
  }

  predicate IsEmpty(s: State) {
    && s.faces == [] && s.fib == [] && s.pit == [] && s.contents == [] && s.nonces == []
    && s.contentcnt == 0 && s.pitcnt == 0 && s.served == {} && s.seqno == 0 && s.log == []
  }
}
