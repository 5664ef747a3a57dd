/**
 A network with one nonce more than a relay remembers: a relay whose face leads back to itself, and as many
 Interests in flight. Each is forgotten just before it comes round again, so the run never ends.
 */
module NonceBound {
  import opened Base
  import opened Names
  import opened RelayState
  import opened Structure
  import opened Network

  const ROUND: nat := 257

  function Nonce(i: nat): Bytes {
    [i % ROUND / 256, i % ROUND % 256]
  }

  function NoncesTo(n: nat): (all: set<Bytes>)
    ensures |all| <= n
    ensures forall i :: 0 <= i < n ==> Nonce(i) in all
  {
    if n == 0 then {} else NoncesTo(n - 1) + {Nonce(n - 1)}
  }

  lemma NonceAbout(i: nat)
    ensures Nonce(i) in NoncesTo(ROUND)
  {
    assert Nonce(i) == Nonce(i % ROUND);
  }

  lemma NoncesDiffer(i: nat, j: nat)
    requires j < i < j + ROUND
    ensures Nonce(i) != Nonce(j)
  {
  }

  // ---------------------------------------------------------------- the network

  const HERE: Addr := Addr(0, 0)

  function Around(): Wires {
    map[(0, 0, HERE) := (0, 0, HERE)]
  }

  function Probe(i: nat): Interest {
    Interest(Name([], None), 0, 2, None, false, Some(Nonce(i)), 3, 0)
  }

  function Flying(i: nat): Flight {
    Flight(0, 0, HERE, InterestPacket(Probe(i)))
  }

  function Queue(m: nat): seq<Flight> {
    seq(ROUND, j requires 0 <= j => Flying(m + j))
  }

  /** The relay: one face, which reflects, and a route through it for every name. */
  function Hop(nonces: seq<Bytes>, pit: seq<PitEntry>, log: seq<Action>): State {
    State([Iface(0, true, false)], [Face(1, 0, Some(HERE), false, true, false, 0)], [FibEntry(Name([], None), 1)], pit,
          [], nonces, 0, 0, |pit|, -1, {}, 1, log)
  }

  /** What the relay remembers after `m` arrivals. */
  function Table(m: nat): seq<Bytes> {
    if m == 0 then [] else Remember(Table(m - 1), Nonce(m - 1))
  }

  lemma {:induction false} TableHolds(m: nat)
    ensures |Table(m)| <= MAX_NONCES && |Table(m)| <= m
    ensures forall j :: 0 <= j < |Table(m)| ==> Table(m)[j] == Nonce(m - 1 - j)
  {
    hide Nonce;
    if m > 0 {
      TableHolds(m - 1);
    }
  }

  lemma Forgotten(m: nat)
    ensures Nonce(m) !in Table(m)
  {
    hide Nonce, Table;
    TableHolds(m);
    var t := Table(m);
    if j :| 0 <= j < |t| && t[j] == Nonce(m) {
      NoncesDiffer(m, m - 1 - j);
    }
  }

  // ---------------------------------------------------------------- two steps

  function Waits(m: nat): PitEntry {
    PitEntry(Probe(m), Some(1), [1], 0, 0, 0)
  }

  function Heard1(m: nat, log: seq<Action>): seq<Action> {
    log + [GotInterest(1, Probe(m), true), SentInterest(1, Probe(m))]
  }

  lemma Arrival(nonces: seq<Bytes>, m: nat, log: seq<Action>)
    requires Nonce(m) !in nonces
    ensures Receive(Hop(nonces, [], log), Flying(m), 0)
         == Hop(Remember(nonces, Nonce(m)), [Waits(m)], Heard1(m, log))
  {
    hide Nonce, Remember;
    var s := Hop(nonces, [], log);
    assert s.faces[0 := s.faces[0].(lastUsed := 0)] == s.faces;
    assert GetFace(s, 0, Some(HERE), 0) == (s, Some(1));
    var s1 := Noted(Heard(s, Some(1), Probe(m), true), Probe(m));
    var e := AppendPending(NewEntry(Probe(m), Some(1), 0), Some(1));
    assert e == Waits(m) by {
      assert [] + [1] == [1];
    }
    assert s.faces[0] in s.faces && Reflects(s.faces, 1);
    FlatMapOne(Forwarded(s.faces, e), s.fib[0]);
    assert Forward(s.faces, e, s.fib[0]) == [SentInterest(1, Probe(m))];
    assert s1.log + [SentInterest(1, Probe(m))] == Heard1(m, log);
  }

  lemma Sends(m: nat, log: seq<Action>, before: State, after: State)
    requires before.log == log && after == Hop(after.nonces, after.pit, Heard1(m, log))
    ensures Network.Sent(Around(), 0, after.faces, before, after) == [Flying(m)]
  {
    hide Nonce;
    var more := [GotInterest(1, Probe(m), true), SentInterest(1, Probe(m))];
    assert after.log[|log|..] == more;
    var f := Transmit(Around(), 0, after.faces);
    assert more == [more[0]] + [more[1]];
    FlatMapAppend(f, [more[0]], [more[1]]);
    FlatMapOne(f, more[0]);
    FlatMapOne(f, more[1]);
    assert f(more[0]) == [];
    assert FaceIndex(after.faces, 1) == 0;
    assert f(more[1]) == [Flying(m)];
  }

  lemma Expiry(nonces: seq<Bytes>, m: nat, log: seq<Action>)
    ensures RelayState.Age(Hop(nonces, [Waits(m)], log), 0) == Hop(nonces, [], log)
  {
    hide Nonce;
    var s := Hop(nonces, [Waits(m)], log);
    var s1 := AgeContents(s, 0);
    assert s1 == s;
    FlatMapOne(AgedInterest(0), Waits(m));
    FlatMapOne(Resent(s.fib, s.faces, 0), Waits(m));
    assert s.log + [] == s.log;
    var s2 := AgeInterests(s1, 0);
    assert ExpiredTo(s2.faces, 0, 0) == {};
    assert ExpiredFaces(s2.faces, 0) == {};
  }

  /** One arrival and one tick later the queue has turned by one. */
  lemma QueueTurns(m: nat)
    ensures Queue(m)[..0] + Queue(m)[0 + 1..] + [Flying(m)] == Queue(m + 1)
  {
    assert Flying(m + ROUND) == Flying(m) by {
      assert Nonce(m + ROUND) == Nonce(m);
    }
  }

  // ---------------------------------------------------------------- the run

  function Advance(net: Net, step: Step): Net {
    if CanStep(net, step) then DoStep(Around(), net, step) else net
  }

  function StepAt(n: nat): Step {
    if n % 2 == 0 then Deliver(0, 0) else Network.Age(0, 0)
  }

  function Turning(n: nat): Net {
    if n == 0 then Net([Hop([], [], [])], Queue(0)) else Advance(Turning(n - 1), StepAt(n - 1))
  }

  function Turns(): nat -> Net {
    (n: nat) => Turning(n)
  }

  /** Before arrival `m`. */
  ghost predicate Idle(net: Net, m: nat) {
    |net.nodes| == 1 && net == Net([Hop(Table(m), [], net.nodes[0].log)], Queue(m))
  }

  /** After it. */
  ghost predicate Busy(net: Net, m: nat) {
    |net.nodes| == 1 && net == Net([Hop(Table(m + 1), [Waits(m)], net.nodes[0].log)], Queue(m + 1))
  }

  lemma Arrives(net: Net, m: nat)
    requires Idle(net, m)
    ensures CanStep(net, Deliver(0, 0)) && Busy(DoStep(Around(), net, Deliver(0, 0)), m)
  {
    hide Hop, Receive, Network.Sent, Remember, Nonce;
    var log := net.nodes[0].log;
    Forgotten(m);
    Arrival(Table(m), m, log);
    HopParts(Table(m), [], log);
    HopParts(Table(m + 1), [Waits(m)], Heard1(m, log));
    Sends(m, log, net.nodes[0], Hop(Table(m + 1), [Waits(m)], Heard1(m, log)));
    QueueTurns(m);
    assert net.flight[0] == Flying(m);
  }

  lemma HopParts(nonces: seq<Bytes>, pit: seq<PitEntry>, log: seq<Action>)
    ensures var s := Hop(nonces, pit, log); s.nonces == nonces && s.pit == pit && s.log == log
  {
  }

  lemma Ages(net: Net, m: nat)
    requires Busy(net, m)
    ensures CanStep(net, Network.Age(0, 0)) && Idle(DoStep(Around(), net, Network.Age(0, 0)), m + 1)
  {
    hide Hop, RelayState.Age, Table;
    var log := net.nodes[0].log;
    HopParts(Table(m + 1), [Waits(m)], log);
    HopParts(Table(m + 1), [], log);
    Expiry(Table(m + 1), m, log);
    assert log[|log|..] == [];
    assert net.flight + [] == net.flight;
  }

  lemma {:induction false} TurnsOn(m: nat)
    ensures Idle(Turning(2 * m), m)
    ensures Busy(Turning(2 * m + 1), m) && CanStep(Turning(2 * m), Deliver(0, 0))
  {
    hide Idle, Busy, CanStep, DoStep;
    if m == 0 {
      FirstIdle();
    } else {
      TurnsOn(m - 1);
      Ages(Turning(2 * m - 1), m - 1);
    }
    Arrives(Turning(2 * m), m);
  }

  lemma FirstIdle()
    ensures Idle(Turning(0), 0)
  {
  }

  lemma NeverEnds()
    ensures Endless(Around(), Turns())
  {
    hide Idle, Busy, CanStep, DoStep;
    forall n: nat
      ensures Next(Around(), Turns()(n), Turns()(n + 1))
    {
      var m := n / 2;
      TurnsOn(m);
      if n % 2 == 1 {
        Ages(Turning(n), m);
      }
      assert CanStep(Turning(n), StepAt(n)) && Turning(n + 1) == DoStep(Around(), Turning(n), StepAt(n));
    }
  }

  lemma StartTagged()
    ensures NetTagged(Turning(0), NoncesTo(ROUND))
  {
    hide NoncesTo, Nonce;
    forall k | 0 <= k < ROUND
      ensures FlightOk(Queue(0)[k], NoncesTo(ROUND))
    {
      NonceAbout(k);
      assert Queue(0)[k] == Flying(k);
    }
  }

  // ---------------------------------------------------------------- the bound

  /** No run with at most `k` nonces is endless. */
  ghost predicate AllEnd(k: nat) {
    forall wires: Wires, run: nat -> Net, all: set<Bytes> ::
      |all| <= k && NetTagged(run(0), all) ==> !Endless(wires, run)
  }

  /** On every topology every run comes to an end, if and only if no more nonces are about than a relay
      remembers. */
  lemma EndsIff(k: nat)
    ensures AllEnd(k) <==> k <= 256
  {
    hide Endless, NetTagged, Turning;
    if k <= MAX_NONCES {
      forall wires: Wires, run: nat -> Net, all: set<Bytes> | |all| <= k && NetTagged(run(0), all)
        ensures !Endless(wires, run)
      {
        if Endless(wires, run) {
          NoEndlessRun(wires, run, 0, all);
        }
      }
    } else {
      NeverEnds();
      StartTagged();
      assert Turns()(0) == Turning(0);
    }
  }
}
