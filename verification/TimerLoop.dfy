/**
 Draining the timer queue: which timers fire, and what is left.
 */
module TimerLoop {
  import opened Base
  import opened Timers

  /** The callbacks, by the handle of the timer that fires: none sets a timer for before `now`, which a
      clock that does not go back rules out, and none removes the timer it was called for. */
  ghost predicate Tame(cb: nat -> seq<Act>, now: TimeVal) {
    forall h, i {:trigger cb(h)[i]} :: 0 <= h && 0 <= i < |cb(h)| ==> Timely(cb(h)[i], now) && cb(h)[i] != Rem(h)
  }

  predicate Timely(a: Act, now: TimeVal) {
    a.Set? ==> Normal(a.clock) && Micros(a.clock) + a.usec >= Micros(now)
  }

  predicate Due(t: Timer, now: TimeVal) {
    Micros(t.timeout) < Micros(now)
  }

  /** What removals, and nothing else, make of a list of timers. */
  function RemovedTo(q: seq<Timer>, acts: seq<Act>, n: nat): (r: seq<Timer>)
    requires n <= |acts|
    ensures |r| <= |q|
  {
    if n == 0 then q
    else if acts[n - 1].Set? then RemovedTo(q, acts, n - 1)
    else Remove(RemovedTo(q, acts, n - 1), acts[n - 1].handle)
  }

  function Pruned(q: seq<Timer>, acts: seq<Act>): (r: seq<Timer>)
    ensures |r| <= |q|
  {
    RemovedTo(q, acts, |acts|)
  }

  /** Of the timers that are due, those that fire: each in turn, unless one before it removed it. */
  function Fired(due: seq<Timer>, cb: nat -> seq<Act>): seq<Timer>
    decreases |due|
  {
    if due == [] then [] else [due[0]] + Fired(Pruned(due[1..], cb(due[0].handle)), cb)
  }

  /** What becomes of the timers that are not due. */
  function Left(due: seq<Timer>, later: State, cb: nat -> seq<Act>): State
    requires forall h {:trigger cb(h)} :: 0 <= h ==> AllAllowed(cb(h))
    decreases |due|
  {
    if due == [] then later else
      var acts := cb(due[0].handle);
      Left(Pruned(due[1..], acts), PerformTo(later, acts, |acts|), cb)
  }

  // ---------------------------------------------------------------- due and not due, side by side

  lemma {:induction false} InsertBehind(due: seq<Timer>, later: seq<Timer>, t: Timer)
    requires forall d :: d in due ==> !After(d.timeout, t.timeout)
    ensures Insert(due + later, t) == due + Insert(later, t)
    decreases |due|
  {
    if due == [] {
      assert due + later == later;
    } else {
      assert (due + later)[1..] == due[1..] + later;
      InsertBehind(due[1..], later, t);
      AppendAssoc([due[0]], due[1..], Insert(later, t));
      assert [due[0]] + due[1..] == due;
    }
  }

  lemma {:induction false} RemoveAbsent(q: seq<Timer>, h: nat)
    requires forall t :: t in q ==> t.handle != h
    ensures Remove(q, h) == q
    decreases |q|
  {
    if q != [] {
      RemoveAbsent(q[1..], h);
      assert [q[0]] + q[1..] == q;
    }
  }

  lemma {:induction false} RemoveEither(due: seq<Timer>, later: seq<Timer>, next: nat, h: nat)
    requires Good(State(due + later, next))
    ensures Remove(due + later, h) == Remove(due, h) + Remove(later, h)
    decreases |due|
  {
    hide Good;
    var all := due + later;
    if due == [] {
      assert all == later;
    } else {
      assert all[1..] == due[1..] + later && all[0] == due[0];
      GoodTail(State(all, next));
      if due[0].handle == h {
        forall t | t in later
          ensures t.handle != h
        {
          assert t in all[1..];
        }
        RemoveAbsent(later, h);
      } else {
        RemoveEither(due[1..], later, next, h);
        AppendAssoc([due[0]], Remove(due[1..], h), Remove(later, h));
      }
    }
  }

  lemma {:induction false} RemovedMembers(q: seq<Timer>, next: nat, acts: seq<Act>, n: nat)
    requires n <= |acts| && Good(State(q, next))
    ensures Good(State(RemovedTo(q, acts, n), next))
    ensures forall t :: t in RemovedTo(q, acts, n) <==> t in q && Rem(t.handle) !in acts[..n]
  {
    hide Good;
    if n > 0 {
      RemovedMembers(q, next, acts, n - 1);
      assert acts[..n] == acts[..n - 1] + [acts[n - 1]];
      if acts[n - 1].Rem? {
        RemoveKeeps(RemovedTo(q, acts, n - 1), next, acts[n - 1].handle);
      }
    }
  }

  /** A callback that only sets timers which are not due acts on the two parts of the queue separately. */
  lemma {:induction false} PerformApart(due: seq<Timer>, later: seq<Timer>, next: nat, now: TimeVal,
                                        acts: seq<Act>, n: nat)
    requires n <= |acts| && AllAllowed(acts) && Good(State(due + later, next)) && Good(State(due, next))
    requires forall i :: 0 <= i < |acts| ==> Timely(acts[i], now)
    requires forall d :: d in due ==> Due(d, now)
    ensures var l := PerformTo(State(later, next), acts, n);
            PerformTo(State(due + later, next), acts, n) == State(RemovedTo(due, acts, n) + l.queue, l.next)
  {
    hide Good, Normal, Micros, Due;
    if n > 0 {
      PerformApart(due, later, next, now, acts, n - 1);
      PerformKeeps(State(due + later, next), acts, n - 1);
      RemovedMembers(due, next, acts, n - 1);
      var d, l := RemovedTo(due, acts, n - 1), PerformTo(State(later, next), acts, n - 1);
      match acts[n - 1]
      case Set(clock, usec) =>
        var t := Timer(l.next, LaterBy(clock, usec));
        forall x | x in d
          ensures !After(x.timeout, t.timeout)
        {
          NotDue(State(due, next), x, now, acts[n - 1]);
        }
        InsertBehind(d, l.queue, t);
      case Rem(h) =>
        RemoveEither(d, l.queue, l.next, h);
    }
  }

  lemma NotDue(s: State, x: Timer, now: TimeVal, a: Act)
    requires Good(s) && x in s.queue && Due(x, now) && Timely(a, now) && a.Set?
    ensures !After(x.timeout, LaterBy(a.clock, a.usec))
  {
    AfterIsLater(x.timeout, LaterBy(a.clock, a.usec));
  }

  lemma GoodParts(due: seq<Timer>, later: seq<Timer>, next: nat)
    requires Good(State(due + later, next))
    ensures Good(State(due, next)) && Good(State(later, next))
  {
    var all := due + later;
    forall i, j | 0 <= i < j < |due|
      ensures Precedes(due[i], due[j]) && Unlike(due[i], due[j])
    {
      assert all[i] == due[i] && all[j] == due[j];
    }
    forall i, j | 0 <= i < j < |later|
      ensures Precedes(later[i], later[j]) && Unlike(later[i], later[j])
    {
      assert all[|due| + i] == later[i] && all[|due| + j] == later[j];
    }
  }

  // ---------------------------------------------------------------- exactly what fires

  /** A timer that is due fires if and only if no timer that fires before it removes it. */
  lemma {:induction false} FiresIff(due: seq<Timer>, next: nat, cb: nat -> seq<Act>)
    requires Good(State(due, next))
    ensures forall t :: t in Fired(due, cb) <==> t in due && Spared(t, Fired(due, cb), cb)
    decreases |due|
  {
    hide Good;
    if due != [] {
      var d, acts := due[0], cb(due[0].handle);
      var due' := Pruned(due[1..], acts);
      GoodTail(State(due, next));
      RemovedMembers(due[1..], next, acts, |acts|);
      assert acts[..|acts|] == acts;
      FiresIff(due', next, cb);
      var f, f' := Fired(due, cb), Fired(due', cb);
      assert f == [d] + f' && due == [d] + due[1..];
      forall t
        ensures t in f <==> t in due && Spared(t, f, cb)
      {
        if t == d {
          assert forall u :: u in f' ==> Precedes(d, u);
        } else if t in due[1..] {
          SparedCons(t, d, f', cb);
        }
      }
    }
  }

  /** No timer that fires before `t` removes it. */
  ghost predicate Spared(t: Timer, fired: seq<Timer>, cb: nat -> seq<Act>) {
    forall u :: u in fired && Precedes(u, t) ==> Rem(t.handle) !in cb(u.handle)
  }

  lemma SparedCons(t: Timer, d: Timer, f: seq<Timer>, cb: nat -> seq<Act>)
    requires Precedes(d, t)
    ensures Spared(t, [d] + f, cb) <==> Rem(t.handle) !in cb(d.handle) && Spared(t, f, cb)
  {
    assert forall u :: u in [d] + f <==> u == d || u in f;
    assert d in [d] + f;
  }

  /** Timers fire in the order of their timeouts, ties in the order of setting, each once. */
  lemma {:induction false} FiresInOrder(due: seq<Timer>, next: nat, cb: nat -> seq<Act>)
    requires Good(State(due, next))
    ensures Good(State(Fired(due, cb), next))
    ensures forall t :: t in Fired(due, cb) ==> t in due
    decreases |due|
  {
    hide Good;
    if due == [] {
    } else {
      var acts := cb(due[0].handle);
      GoodTail(State(due, next));
      HeadOk(State(due, next));
      RemovedMembers(due[1..], next, acts, |acts|);
      FiresInOrder(Pruned(due[1..], acts), next, cb);
      GoodCons(due[0], State(Fired(Pruned(due[1..], acts), cb), next));
    }
  }

  /** When no callback removes a timer, everything that is due fires. */
  lemma {:induction false} AllFire(due: seq<Timer>, cb: nat -> seq<Act>)
    requires forall h, a :: 0 <= h && a in cb(h) ==> a.Set?
    ensures Fired(due, cb) == due
    decreases |due|
  {
    if due != [] {
      var acts := cb(due[0].handle);
      NoRemovals(due[1..], acts, |acts|);
      AllFire(due[1..], cb);
    }
  }

  lemma {:induction false} NoRemovals(q: seq<Timer>, acts: seq<Act>, n: nat)
    requires n <= |acts| && forall a :: a in acts ==> a.Set?
    ensures RemovedTo(q, acts, n) == q
  {
    if n > 0 {
      NoRemovals(q, acts, n - 1);
    }
  }

  /** Nothing that is left is due, and what is left was not due before or has been set meanwhile. */
  lemma {:induction false} LeftIsNotDue(due: seq<Timer>, later: State, cb: nat -> seq<Act>, now: TimeVal, next: nat)
    requires forall h {:trigger cb(h)} :: 0 <= h ==> AllAllowed(cb(h))
    requires Tame(cb, now) && Good(later) && next <= later.next
    requires forall t :: t in later.queue ==> !Due(t, now)
    ensures var r := Left(due, later, cb);
            && Good(r) && next <= r.next
            && forall t :: t in r.queue ==> !Due(t, now) && (t in later.queue || t.handle >= next)
    decreases |due|
  {
    hide Good, Due;
    if due != [] {
      var acts := cb(due[0].handle);
      PerformKeeps(later, acts, |acts|);
      PerformedIsNotDue(later, acts, |acts|, now, next);
      LeftIsNotDue(Pruned(due[1..], acts), PerformTo(later, acts, |acts|), cb, now, next);
    }
  }

  lemma {:induction false} PerformedIsNotDue(later: State, acts: seq<Act>, n: nat, now: TimeVal, next: nat)
    requires n <= |acts| && AllAllowed(acts) && forall i :: 0 <= i < |acts| ==> Timely(acts[i], now)
    requires Good(later) && next <= later.next && forall t :: t in later.queue ==> !Due(t, now)
    ensures next <= PerformTo(later, acts, n).next
    ensures forall t :: t in PerformTo(later, acts, n).queue ==> !Due(t, now) && (t in later.queue || t.handle >= next)
  {
    hide Good;
    if n > 0 {
      PerformedIsNotDue(later, acts, n - 1, now, next);
      PerformKeeps(later, acts, n - 1);
      var s := PerformTo(later, acts, n - 1);
      match acts[n - 1]
      case Set(clock, usec) => InsertKeeps(s.queue, Timer(s.next, LaterBy(clock, usec)));
      case Rem(h) => RemoveKeeps(s.queue, s.next, h);
    }
  }

  // ---------------------------------------------------------------- the code

  /** How many timers at the head of the queue are due. */
  function DueCount(q: seq<Timer>, now: TimeVal): (k: nat)
    ensures k <= |q|
    ensures forall i :: 0 <= i < k ==> Due(q[i], now)
    ensures k < |q| ==> !Due(q[k], now)
  {
    if q == [] || !Due(q[0], now) then 0 else 1 + DueCount(q[1..], now)
  }

  /** The value of a 64-bit integer returned as one of 32 bits. */
  function ToInt32(x: int): int {
    (x + 0x8000_0000) % TWO32 - 0x8000_0000
  }

  /** It is the value if that fits 32 bits with a sign; else it differs by a multiple of 2^32. */
  lemma ToInt32Is(x: int)
    ensures -0x8000_0000 <= ToInt32(x) < 0x8000_0000 && (x - ToInt32(x)) % 0x1_0000_0000 == 0
    ensures ToInt32(x) == x <==> -0x8000_0000 <= x < 0x8000_0000
  {
  }

  class EventQueue {
    var queue: seq<Timer>
    var next: nat

    constructor ()
      ensures Now() == State([], 0) && Good(Now())
    {
      queue, next := [], 0;
    }

    function Now(): State
      reads this
    {
      State(queue, next)
    }

    /** Insert a timer before the first that is later. */
    method SetTimer(clock: TimeVal, usec: nat) returns (h: nat)
      requires Normal(clock)
      modifies this
      ensures h == old(next) && Now() == Perform(old(Now()), Set(clock, usec))
    {
      hide LaterBy, After;
      var t := Timer(next, LaterBy(clock, usec));
      next := next + 1;
      var pp := 0;
      assert queue[0..] == queue;
      while pp < |queue| && !After(queue[pp].timeout, t.timeout)
        invariant 0 <= pp <= |queue| && queue == old(queue) && next == old(next) + 1
        invariant Insert(queue, t) == queue[..pp] + Insert(queue[pp..], t)
      {
        InsertStep(queue, t, pp);
        pp := pp + 1;
      }
      InsertHere(queue, t, pp);
      queue := queue[..pp] + [t] + queue[pp..];
      h := t.handle;
    }

    /** Remove the timer with this handle, if it is pending. */
    method RemTimer(h: nat)
      modifies this`queue
      ensures Now() == Perform(old(Now()), Rem(h))
    {
      var pp := 0;
      assert queue[0..] == queue;
      while pp < |queue|
        invariant 0 <= pp <= |queue| && queue == old(queue)
        invariant Remove(queue, h) == queue[..pp] + Remove(queue[pp..], h)
      {
        RemoveStep(queue, h, pp);
        if queue[pp].handle == h {
          queue := queue[..pp] + queue[pp + 1..];
          return;
        }
        pp := pp + 1;
      }
    }

    /** The body of a callback. */
    method Callback(acts: seq<Act>)
      requires AllAllowed(acts)
      modifies this
      ensures Now() == PerformTo(old(Now()), acts, |acts|)
    {
      hide Insert, Remove;
      var i := 0;
      while i < |acts|
        invariant 0 <= i <= |acts| && Now() == PerformTo(old(Now()), acts, i)
      {
        match acts[i] {
          case Set(clock, usec) => var h := SetTimer(clock, usec);
          case Rem(h) => RemTimer(h);
        }
        i := i + 1;
      }
    }

    /** Fire what is due at `now`, one timer after the other; then say how long it is to the next. */
    method RunEvents(now: TimeVal, cb: nat -> seq<Act>) returns (usec: int, fired: seq<Timer>)
      requires Good(Now()) && Tame(cb, now)
      requires forall h {:trigger cb(h)} :: 0 <= h ==> AllAllowed(cb(h))
      modifies this
      ensures var k := DueCount(old(queue), now);
              && fired == Fired(old(queue)[..k], cb)
              && Now() == Left(old(queue)[..k], State(old(queue)[k..], old(next)), cb)
      ensures Good(Now()) && forall t :: t in queue ==> !Due(t, now)
      ensures usec == if queue == [] then -1 else ToInt32(Micros(queue[0].timeout) - Micros(now))
    {
      hide Good, Due, Tame, AllAllowed, Split, Fired, Left;
      ghost var k := DueCount(queue, now);
      ghost var due0, later0 := queue[..k], State(queue[k..], next);
      ghost var due, later := due0, later0;
      SplitStart(queue, next, now);
      fired := [];
      while queue != []
        invariant Split(Now(), due, later, now)
        invariant fired + Fired(due, cb) == Fired(due0, cb)
        invariant Left(due, later, cb) == Left(due0, later0, cb)
        decreases |due|
      {
        var t := queue[0];
        HeadTells(Now(), due, later, now);
        usec := Delta(t.timeout, now);
        if usec >= 0 {
          SplitEnd(Now(), due, later, now, cb, fired);
          usec := ToInt32(usec);
          return;
        }
        FireStep(Now(), due, later, now, cb, fired);
        fired := fired + [t];
        Callback(cb(t.handle));
        queue := queue[1..];
        ghost var after := AfterFiring(due, later, cb);
        due, later := after.0, after.1;
      }
      SplitEmpty(Now(), due, later, now);
      SplitEnd(Now(), due, later, now, cb, fired);
      usec := -1;
    }
  }

  /** The queue is made up of timers that are due and timers that are not. */
  ghost predicate Split(s: State, due: seq<Timer>, later: State, now: TimeVal) {
    && s.queue == due + later.queue && s.next == later.next
    && Good(s) && Good(State(due, later.next)) && Good(later)
    && (forall t :: t in due ==> Due(t, now)) && (forall t :: t in later.queue ==> !Due(t, now))
  }

  lemma SplitStart(q: seq<Timer>, next: nat, now: TimeVal)
    requires Good(State(q, next))
    ensures var k := DueCount(q, now); Split(State(q, next), q[..k], State(q[k..], next), now)
  {
    hide Good;
    var k := DueCount(q, now);
    assert q == q[..k] + q[k..];
    TailNotDue(q, next, now);
    GoodParts(q[..k], q[k..], next);
  }

  lemma SplitEmpty(s: State, due: seq<Timer>, later: State, now: TimeVal)
    requires Split(s, due, later, now) && s.queue == []
    ensures due == []
  {
  }

  lemma SplitEnd(s: State, due: seq<Timer>, later: State, now: TimeVal, cb: nat -> seq<Act>, fired: seq<Timer>)
    requires forall h {:trigger cb(h)} :: 0 <= h ==> AllAllowed(cb(h))
    requires Split(s, due, later, now) && due == []
    ensures s == later == Left(due, later, cb) && fired + Fired(due, cb) == fired
    ensures Good(s) && forall t :: t in s.queue ==> !Due(t, now)
  {
    assert due + later.queue == later.queue && fired + [] == fired;
  }

  /** What is due, and what is not, after the head of the queue has fired. */
  ghost function AfterFiring(due: seq<Timer>, later: State, cb: nat -> seq<Act>): (r: (seq<Timer>, State))
    requires due != [] && AllAllowed(cb(due[0].handle))
    ensures |r.0| < |due|
  {
    var acts := cb(due[0].handle);
    (Pruned(due[1..], acts), PerformTo(later, acts, |acts|))
  }

  lemma InsertHere(q: seq<Timer>, t: Timer, k: nat)
    requires k <= |q| && (k < |q| ==> After(q[k].timeout, t.timeout))
    ensures q[..k] + Insert(q[k..], t) == q[..k] + [t] + q[k..]
  {
    AppendAssoc(q[..k], [t], q[k..]);
  }

  lemma InsertStep(q: seq<Timer>, t: Timer, k: nat)
    requires k < |q| && !After(q[k].timeout, t.timeout)
    ensures q[..k] + Insert(q[k..], t) == q[..k + 1] + Insert(q[k + 1..], t)
  {
    assert q[k..][1..] == q[k + 1..] && q[..k + 1] == q[..k] + [q[k]];
    AppendAssoc(q[..k], [q[k]], Insert(q[k + 1..], t));
  }

  lemma RemoveStep(q: seq<Timer>, h: nat, k: nat)
    requires k < |q|
    ensures q[k].handle == h ==> Remove(q[k..], h) == q[k + 1..]
    ensures q[k].handle != h ==> q[..k] + Remove(q[k..], h) == q[..k + 1] + Remove(q[k + 1..], h)
  {
    assert q[k..][1..] == q[k + 1..] && q[..k + 1] == q[..k] + [q[k]];
    AppendAssoc(q[..k], [q[k]], Remove(q[k + 1..], h));
  }

  lemma TailNotDue(q: seq<Timer>, next: nat, now: TimeVal)
    requires Good(State(q, next))
    ensures var k := DueCount(q, now);
            (forall t :: t in q[..k] ==> Due(t, now)) && (forall t :: t in q[k..] ==> !Due(t, now))
  {
    var k := DueCount(q, now);
    forall t | t in q[k..]
      ensures !Due(t, now)
    {
      var i :| 0 <= i < |q[k..]| && q[k..][i] == t;
      assert q[k + i] == t;
    }
  }

  lemma HeadTells(s: State, due: seq<Timer>, later: State, now: TimeVal)
    requires Split(s, due, later, now) && s.queue != []
    ensures due != [] ==> s.queue[0] == due[0]
    ensures Micros(s.queue[0].timeout) < Micros(now) <==> due != []
  {
    if due == [] {
      assert later.queue[0] in later.queue;
    } else {
      assert due[0] in due;
    }
  }

  /** One callback: its timer stays at the head, the due timers are pruned, the others go their own way. */
  lemma FireStep(s: State, due: seq<Timer>, later: State, now: TimeVal, cb: nat -> seq<Act>, fired: seq<Timer>)
    requires due != [] && Split(s, due, later, now) && Tame(cb, now)
    requires forall h {:trigger cb(h)} :: 0 <= h ==> AllAllowed(cb(h))
    ensures var acts := cb(due[0].handle);
            var s' := PerformTo(s, acts, |acts|);
            var (due', later') := AfterFiring(due, later, cb);
            && s'.queue != [] && Split(State(s'.queue[1..], s'.next), due', later', now)
            && fired + [due[0]] + Fired(due', cb) == fired + Fired(due, cb)
            && Left(due', later', cb) == Left(due, later, cb)
  {
    hide Good, Due, Tame, Micros, Normal, AllAllowed;
    var acts := cb(due[0].handle);
    var n := |acts|;
    var (due', later') := AfterFiring(due, later, cb);
    TameActs(cb, now, due[0].handle);
    PerformApart(due, later.queue, later.next, now, acts, n);
    PerformKeeps(s, acts, n);
    PerformKeeps(later, acts, n);
    PerformedIsNotDue(later, acts, n, now, later.next);
    GoodTail(State(due, later.next));
    RemovedMembers(due[1..], later.next, acts, n);
    HeadStays(due, acts, n);
    AppendAssoc([due[0]], due', later'.queue);
    var s' := PerformTo(s, acts, n);
    assert s'.queue[1..] == due' + later'.queue;
    GoodTail(s');
    GoodParts(due', later'.queue, later'.next);
    AppendAssoc(fired, [due[0]], Fired(due', cb));
  }

  lemma TameActs(cb: nat -> seq<Act>, now: TimeVal, h: nat)
    requires Tame(cb, now)
    ensures forall i :: 0 <= i < |cb(h)| ==> Timely(cb(h)[i], now) && cb(h)[i] != Rem(h)
  {
  }

  lemma {:induction false} HeadStays(due: seq<Timer>, acts: seq<Act>, n: nat)
    requires due != [] && n <= |acts| && forall i :: 0 <= i < |acts| ==> acts[i] != Rem(due[0].handle)
    ensures RemovedTo(due, acts, n) == [due[0]] + RemovedTo(due[1..], acts, n)
  {
    if n > 0 {
      HeadStays(due, acts, n - 1);
      assert RemovedTo(due, acts, n - 1)[1..] == RemovedTo(due[1..], acts, n - 1);
    }
  }
}
