/**
 The timer queue and the loop that fires what is due, while the callbacks set and remove other timers.
 */
module Timers {
  import opened Base

  const MILLION: nat := 1000000

  /** Seconds and microseconds. */
  datatype TimeVal = TimeVal(sec: int, usec: int)

  function Micros(t: TimeVal): int {
    MILLION * t.sec + t.usec
  }

  predicate Normal(t: TimeVal) {
    0 <= t.usec < MILLION
  }

  function Delta(a: TimeVal, b: TimeVal): (d: int)
    ensures d == Micros(a) - Micros(b)
  {
    MILLION * (a.sec - b.sec) + a.usec - b.usec
  }

  /** A point in time `usec` later, seconds and microseconds split anew. */
  function LaterBy(t: TimeVal, usec: nat): (r: TimeVal)
    requires Normal(t)
    ensures Normal(r) && Micros(r) == Micros(t) + usec
  {
    TimeVal(t.sec + (usec + t.usec) / MILLION, (usec + t.usec) % MILLION)
  }

  /** The comparison that insertion makes: seconds first, then microseconds. */
  predicate After(a: TimeVal, b: TimeVal) {
    a.sec > b.sec || (a.sec == b.sec && a.usec > b.usec)
  }

  lemma AfterIsLater(a: TimeVal, b: TimeVal)
    requires Normal(a) && Normal(b)
    ensures After(a, b) <==> Micros(a) > Micros(b)
  {
  }

  /** A pending timer; handles are given out in the order in which timers are set. */
  datatype Timer = Timer(handle: nat, timeout: TimeVal)

  /** What a callback does: set a timer at some clock reading, or remove one. */
  datatype Act = Set(clock: TimeVal, usec: nat) | Rem(handle: nat)

  /** The queue and the next handle to give out. */
  datatype State = State(queue: seq<Timer>, next: nat)

  // ---------------------------------------------------------------- setting and removing

  function Insert(q: seq<Timer>, t: Timer): (r: seq<Timer>)
    ensures |r| == |q| + 1
  {
    if q == [] || After(q[0].timeout, t.timeout) then [t] + q else [q[0]] + Insert(q[1..], t)
  }

  function Remove(q: seq<Timer>, h: nat): (r: seq<Timer>)
    ensures |r| <= |q|
  {
    if q == [] then [] else if q[0].handle == h then q[1..] else [q[0]] + Remove(q[1..], h)
  }

  predicate Allowed(a: Act) {
    a.Set? ==> Normal(a.clock)
  }

  function Perform(s: State, a: Act): State
    requires Allowed(a)
  {
    match a
    case Set(clock, usec) => State(Insert(s.queue, Timer(s.next, LaterBy(clock, usec))), s.next + 1)
    case Rem(h) => State(Remove(s.queue, h), s.next)
  }

  predicate AllAllowed(acts: seq<Act>) {
    forall i :: 0 <= i < |acts| ==> Allowed(acts[i])
  }

  function PerformTo(s: State, acts: seq<Act>, n: nat): State
    requires n <= |acts| && AllAllowed(acts)
  {
    if n == 0 then s else Perform(PerformTo(s, acts, n - 1), acts[n - 1])
  }

  // ---------------------------------------------------------------- the order of the queue

  /** Earlier, or at the same time and set earlier. */
  predicate Precedes(a: Timer, b: Timer) {
    Micros(a.timeout) < Micros(b.timeout) || (Micros(a.timeout) == Micros(b.timeout) && a.handle < b.handle)
  }

  predicate Unlike(a: Timer, b: Timer) {
    a.handle != b.handle
  }

  ghost predicate Sorted(q: seq<Timer>) {
    forall i, j :: 0 <= i < j < |q| ==> Precedes(q[i], q[j])
  }

  /** Sorted with ties in the order of setting, one timer per handle, no handle still to be given out. */
  ghost predicate Good(s: State) {
    && Sorted(s.queue)
    && (forall i, j :: 0 <= i < j < |s.queue| ==> Unlike(s.queue[i], s.queue[j]))
    && (forall t :: t in s.queue ==> Normal(t.timeout) && t.handle < s.next)
  }

  lemma GoodTail(s: State)
    requires Good(s) && s.queue != []
    ensures Good(State(s.queue[1..], s.next))
    ensures forall t :: t in s.queue[1..] ==> Precedes(s.queue[0], t) && Unlike(s.queue[0], t)
  {
  }

  lemma GoodCons(t: Timer, s: State)
    requires Good(s) && Normal(t.timeout) && t.handle < s.next
    requires forall u :: u in s.queue ==> Precedes(t, u) && Unlike(t, u)
    ensures Good(State([t] + s.queue, s.next))
  {
  }

  lemma GoodWider(q: seq<Timer>, n: nat, m: nat)
    requires Good(State(q, n)) && n <= m
    ensures Good(State(q, m))
  {
  }

  lemma {:induction false} InsertKeeps(q: seq<Timer>, t: Timer)
    requires Good(State(q, t.handle)) && Normal(t.timeout)
    ensures Good(State(Insert(q, t), t.handle + 1))
    ensures forall u :: u in Insert(q, t) <==> u == t || u in q
  {
    hide Good;
    if q == [] || After(q[0].timeout, t.timeout) {
      FrontFits(q, t);
    } else {
      GoodTail(State(q, t.handle));
      var rest := Insert(q[1..], t);
      InsertKeeps(q[1..], t);
      HeadFacts(q, t);
      GoodCons(q[0], State(rest, t.handle + 1));
    }
  }

  lemma FrontFits(q: seq<Timer>, t: Timer)
    requires Good(State(q, t.handle)) && Normal(t.timeout)
    requires q == [] || After(q[0].timeout, t.timeout)
    ensures Good(State([t] + q, t.handle + 1))
  {
    forall u | u in q
      ensures Precedes(t, u) && Unlike(t, u)
    {
      AfterIsLater(q[0].timeout, t.timeout);
      assert u == q[0] || Precedes(q[0], u);
    }
    GoodWider(q, t.handle, t.handle + 1);
    GoodCons(t, State(q, t.handle + 1));
  }

  lemma HeadFacts(q: seq<Timer>, t: Timer)
    requires Good(State(q, t.handle)) && Normal(t.timeout) && q != [] && !After(q[0].timeout, t.timeout)
    ensures Precedes(q[0], t) && Unlike(q[0], t) && Normal(q[0].timeout) && q[0].handle < t.handle
  {
    AfterIsLater(q[0].timeout, t.timeout);
  }

  lemma {:induction false} RemoveKeeps(q: seq<Timer>, next: nat, h: nat)
    requires Good(State(q, next))
    ensures Good(State(Remove(q, h), next))
    ensures forall u :: u in Remove(q, h) <==> u in q && u.handle != h
  {
    hide Good;
    if q != [] {
      GoodTail(State(q, next));
      if q[0].handle == h {
        assert q == [q[0]] + q[1..];
      } else {
        RemoveKeeps(q[1..], next, h);
        HeadOk(State(q, next));
        GoodCons(q[0], State(Remove(q[1..], h), next));
        assert q == [q[0]] + q[1..];
      }
    }
  }

  lemma HeadOk(s: State)
    requires Good(s) && s.queue != []
    ensures Normal(s.queue[0].timeout) && s.queue[0].handle < s.next
  {
  }

  /** Whatever callbacks do, the queue stays sorted with ties in the order of setting. */
  lemma {:induction false} PerformKeeps(s: State, acts: seq<Act>, n: nat)
    requires n <= |acts| && AllAllowed(acts) && Good(s)
    ensures Good(PerformTo(s, acts, n)) && PerformTo(s, acts, n).next >= s.next
  {
    hide Good;
    if n > 0 {
      PerformKeeps(s, acts, n - 1);
      var s1 := PerformTo(s, acts, n - 1);
      match acts[n - 1]
      case Set(clock, usec) => InsertKeeps(s1.queue, Timer(s1.next, LaterBy(clock, usec)));
      case Rem(h) => RemoveKeeps(s1.queue, s1.next, h);
    }
  }
}
