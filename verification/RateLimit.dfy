/**
 The packet-rate scheduler: when it lets packets go, over any sequence of requests and completions.
 */
module RateLimit {
  import opened Base
  import opened Timers

  /** A call: ready to send so many packets, or so many have been sent. */
  datatype Op = Rts(now: TimeVal, cnt: int) | CtsDone(now: TimeVal, cnt: int)

  /** Clear to send, at once or when a timer set now expires. */
  datatype Grant = AtOnce(now: TimeVal) | Timed(now: TimeVal, since: int)

  /** The state of a scheduler in packet-rate mode; `ipi` is the interval between packets. */
  datatype Sched = Sched(cnt: int, nextTX: TimeVal, ipi: int)

  /** The instant for which the grant is given, in microseconds. */
  function Instant(g: Grant): int {
    match g
    case AtOnce(now) => Micros(now)
    case Timed(now, since) => Micros(now) + since
  }

  /** Division as the machine does it, towards zero, and what remains. */
  function Quot(x: int): int {
    if x >= 0 then x / MILLION else -((-x) / MILLION)
  }

  function Rest(x: int): int {
    x - MILLION * Quot(x)
  }

  /** The remainder is less than a second and bears the sign of what was divided. */
  lemma QuotIs(x: int)
    ensures x == MILLION * Quot(x) + Rest(x) && Rest(x) < MILLION && Rest(x) + MILLION > 0
    ensures (x >= 0 ==> Rest(x) >= 0) && (x <= 0 ==> Rest(x) <= 0)
  {
    var y := if x >= 0 then x else -x;
    assert y == MILLION * (y / MILLION) + y % MILLION;
    assert Rest(x) == if x >= 0 then y % MILLION else -(y % MILLION);
  }

  /** Seconds and microseconds are added apart; no carry from one to the other. */
  function Plus(t: TimeVal, ipi: int): (r: TimeVal)
    ensures Micros(r) == Micros(t) + ipi
  {
    TimeVal(t.sec + Quot(ipi), t.usec + Rest(ipi))
  }

  /** One more packet is granted. */
  function Reserve(s: Sched, now: TimeVal): (Sched, Grant) {
    var since := Delta(s.nextTX, now);
    if since <= 0 then (s.(nextTX := Plus(now, s.ipi)), AtOnce(now))
    else (s.(nextTX := Plus(s.nextTX, s.ipi)), Timed(now, since))
  }

  function Step(s: Sched, op: Op): (Sched, seq<Grant>) {
    match op
    case Rts(now, cnt) =>
      var (s', g) := Reserve(s.(cnt := s.cnt + cnt), now);
      (s', [g])
    case CtsDone(now, cnt) =>
      var s1 := s.(cnt := s.cnt - cnt);
      if s1.cnt <= 0 then (s1, []) else
        var (s', g) := Reserve(s1, now);
        (s', [g])
  }

  /** After the first `n` calls. */
  function RunTo(s: Sched, ops: seq<Op>, n: nat): (Sched, seq<Grant>)
    requires n <= |ops|
  {
    if n == 0 then (s, []) else
      var (s1, gs) := RunTo(s, ops, n - 1);
      var (s2, g) := Step(s1, ops[n - 1]);
      (s2, gs + g)
  }

  class Scheduler {
    var cnt: int
    var nextTX: TimeVal
    const ipi: int
    var grants: seq<Grant>     // the calls back and the timers set

    constructor (now: TimeVal, interval: int)
      ensures Now() == Sched(0, now, interval) && grants == []
    {
      cnt, nextTX, ipi, grants := 0, now, interval, [];
    }

    function Now(): Sched
      reads this
    {
      Sched(cnt, nextTX, ipi)
    }

    method RequestToSend(now: TimeVal, n: int)
      modifies this
      ensures var (s, g) := Step(old(Now()), Rts(now, n)); Now() == s && grants == old(grants) + g
    {
      cnt := cnt + n;
      Proceed(now);
    }

    method Done(now: TimeVal, n: int)
      modifies this
      ensures var (s, g) := Step(old(Now()), CtsDone(now, n)); Now() == s && grants == old(grants) + g
    {
      cnt := cnt - n;
      if cnt <= 0 {
        assert grants + [] == grants;
        return;
      }
      Proceed(now);
    }

    /** The common end of both calls. */
    method Proceed(now: TimeVal)
      modifies `nextTX, `grants
      ensures var (s, g) := Reserve(old(Now()), now); Now() == s && grants == old(grants) + [g]
    {
      var since := Delta(nextTX, now);
      if since <= 0 {
        nextTX := TimeVal(now.sec + Quot(ipi), now.usec + Rest(ipi));
        grants := grants + [AtOnce(now)];
        return;
      }
      grants := grants + [Timed(now, since)];
      nextTX := TimeVal(nextTX.sec + Quot(ipi), nextTX.usec + Rest(ipi));
    }
  }

  // ---------------------------------------------------------------- the rate

  function Max(a: int, b: int): int {
    if a > b then a else b
  }

  /** The earliest instant that grant `i` could have at this rate: no sooner than the call, and one interval
      after the grant before; the first one waits for `start`. */
  function Earliest(start: int, ipi: int, gs: seq<Grant>, i: nat): int
    requires i < |gs|
  {
    Max(Micros(gs[i].now), if i == 0 then start else Instant(gs[i - 1]) + ipi)
  }

  /** Every grant is as early as the rate allows, and the next one will wait its turn. */
  ghost predicate Spaced(start: int, s: Sched, gs: seq<Grant>) {
    && (forall i :: 0 <= i < |gs| ==> Instant(gs[i]) == Earliest(start, s.ipi, gs, i))
    && Micros(s.nextTX) == if gs == [] then start else Instant(gs[|gs| - 1]) + s.ipi
  }

  /** Over any run, whatever the clock does between the calls, the instants are spaced by the interval and
      not by more than that, although microseconds are never carried into seconds. */
  lemma {:induction false} RunSpaced(s: Sched, ops: seq<Op>, n: nat)
    requires n <= |ops|
    ensures var (s', gs) := RunTo(s, ops, n); s'.ipi == s.ipi && Spaced(Micros(s.nextTX), s', gs)
  {
    hide Plus, Micros, Spaced, Step;
    if n == 0 {
      NoneSpaced(s);
    } else {
      RunSpaced(s, ops, n - 1);
      var (s1, gs) := RunTo(s, ops, n - 1);
      StepSpaced(Micros(s.nextTX), s1, gs, ops[n - 1]);
    }
  }

  lemma NoneSpaced(s: Sched)
    ensures Spaced(Micros(s.nextTX), s, [])
  {
  }

  lemma ReserveMeets(s: Sched, now: TimeVal)
    ensures var (s', g) := Reserve(s, now);
            && s'.ipi == s.ipi && Instant(g) == Max(Micros(g.now), Micros(s.nextTX))
            && Micros(s'.nextTX) == Instant(g) + s.ipi
  {
    hide Plus;
  }

  lemma SpacedMore(start: int, s: Sched, gs: seq<Grant>, s': Sched, g: Grant)
    requires Spaced(start, s, gs) && s'.ipi == s.ipi
    requires Instant(g) == Max(Micros(g.now), Micros(s.nextTX)) && Micros(s'.nextTX) == Instant(g) + s.ipi
    ensures Spaced(start, s', gs + [g])
  {
    hide Micros, Instant, Max;
    var all := gs + [g];
    forall i | 0 <= i < |all|
      ensures Instant(all[i]) == Earliest(start, s.ipi, all, i)
    {
      if i < |gs| {
        assert Instant(gs[i]) == Earliest(start, s.ipi, gs, i);
      }
    }
  }

  lemma StepSpaced(start: int, s: Sched, gs: seq<Grant>, op: Op)
    requires Spaced(start, s, gs)
    ensures var (s', g) := Step(s, op); s'.ipi == s.ipi && Spaced(start, s', gs + g)
  {
    hide Reserve, Micros, Instant, Max, Spaced;
    var (s', g) := Step(s, op);
    var s1 := s.(cnt := if op.Rts? then s.cnt + op.cnt else s.cnt - op.cnt);
    ReserveMeets(s1, op.now);
    CountAside(start, s, gs, s1);
    if g == [] {
      assert gs + g == gs;
    } else {
      SpacedMore(start, s1, gs, s', g[0]);
    }
  }

  lemma CountAside(start: int, s: Sched, gs: seq<Grant>, s': Sched)
    requires Spaced(start, s, gs) && s'.ipi == s.ipi && s'.nextTX == s.nextTX
    ensures Spaced(start, s', gs)
  {
    hide Micros, Instant, Max;
  }

  // ---------------------------------------------------------------- that packets are let go

  /** What has been asked for and not been reported sent, after `n` calls. */
  function Balance(start: int, ops: seq<Op>, n: nat): int
    requires n <= |ops|
  {
    if n == 0 then start
    else Balance(start, ops, n - 1) + if ops[n - 1].Rts? then ops[n - 1].cnt else -ops[n - 1].cnt
  }

  /** A request always earns a grant, a report of packets sent does if more is asked for. */
  predicate Earns(start: int, ops: seq<Op>, i: nat)
    requires i < |ops|
  {
    ops[i].Rts? || Balance(start, ops, i + 1) > 0
  }

  /** The clock readings of the calls that earn a grant. */
  function Earned(start: int, ops: seq<Op>, n: nat): seq<TimeVal>
    requires n <= |ops|
  {
    if n == 0 then [] else Earned(start, ops, n - 1) + if Earns(start, ops, n - 1) then [ops[n - 1].now] else []
  }

  function Clock(): Grant -> TimeVal {
    (g: Grant) => g.now
  }

  /** Over any run there is one grant for each call that earns one, with the clock reading of the call, and no
      other. */
  lemma {:induction false} GrantsAreEarned(s: Sched, ops: seq<Op>, n: nat)
    requires n <= |ops|
    ensures var (s1, gs) := RunTo(s, ops, n);
            Map(Clock(), gs) == Earned(s.cnt, ops, n) && s1.cnt == Balance(s.cnt, ops, n)
  {
    hide Plus, Delta;
    if n > 0 {
      GrantsAreEarned(s, ops, n - 1);
      var (s1, gs) := RunTo(s, ops, n - 1);
      var (s2, more) := Step(s1, ops[n - 1]);
      MapAppend(Clock(), gs, more);
      assert Map(Clock(), more) == if Earns(s.cnt, ops, n - 1) then [ops[n - 1].now] else [];
    }
  }

  /** The instant reserved for the next packet: one interval after the last grant. */
  function Reserved(s: Sched, gs: seq<Grant>): int {
    if gs == [] then Micros(s.nextTX) else Instant(gs[|gs| - 1]) + s.ipi
  }

  lemma ReservedIs(s: Sched, ops: seq<Op>, n: nat)
    requires n <= |ops|
    ensures var (s1, gs) := RunTo(s, ops, n); Micros(s1.nextTX) == Reserved(s, gs)
  {
    hide RunTo, Micros, Instant;
    RunSpaced(s, ops, n);
  }

  /** What a call that earns a grant gets, when the next instant is `next`. */
  function GrantFor(now: TimeVal, next: int): Grant {
    if Micros(now) >= next then AtOnce(now) else Timed(now, next - Micros(now))
  }

  lemma StepGrants(s: Sched, op: Op)
    requires op.Rts? || s.cnt - op.cnt > 0
    ensures Step(s, op).1 == [GrantFor(op.now, Micros(s.nextTX))]
  {
    hide Plus;
  }

  /** A call that earns a grant gets it at once if it comes no earlier than the instant reserved; else a timer
      is set for that instant. */
  lemma GrantedAtOnceIff(s: Sched, ops: seq<Op>, n: nat)
    requires n < |ops| && Earns(s.cnt, ops, n)
    ensures var gs, now := RunTo(s, ops, n).1, ops[n].now;
            RunTo(s, ops, n + 1).1 == gs +
              [if Micros(now) >= Reserved(s, gs) then AtOnce(now) else Timed(now, Reserved(s, gs) - Micros(now))]
  {
    hide Plus, Micros, Step, Reserved;
    ReservedIs(s, ops, n);
    GrantsAreEarned(s, ops, n);
    StepGrants(RunTo(s, ops, n).0, ops[n]);
  }

  lemma OneApart(start: int, s: Sched, gs: seq<Grant>, i: nat)
    requires Spaced(start, s, gs) && 0 < i < |gs|
    ensures Instant(gs[i]) >= Instant(gs[i - 1]) + s.ipi
  {
    hide Micros, Instant;
    assert Instant(gs[i]) == Earliest(start, s.ipi, gs, i);
  }

  function Times(k: nat, ipi: int): int {
    k * ipi
  }

  lemma TimesStep(k: nat, ipi: int)
    ensures Times(0, ipi) == 0 && Times(k + 1, ipi) == Times(k, ipi) + ipi
  {
  }

  lemma {:induction false} Apart(start: int, s: Sched, gs: seq<Grant>, i: nat, j: nat)
    requires Spaced(start, s, gs) && i <= j < |gs|
    ensures Instant(gs[j]) >= Instant(gs[i]) + Times(j - i, s.ipi)
    decreases j
  {
    hide Instant, Times, Spaced;
    TimesStep(0, s.ipi);
    if i < j {
      Apart(start, s, gs, i, j - 1);
      OneApart(start, s, gs, j);
      TimesStep(j - 1 - i, s.ipi);
    }
  }

  predicate InWindow(g: Grant, from: int, width: nat) {
    from <= Instant(g) <= from + width
  }

  function Within(from: int, width: nat): Grant -> bool {
    (g: Grant) => InWindow(g, from, width)
  }

  /** Grants in the window lie between the first and the last of them. */
  lemma {:induction false} CountBetween(p: Grant -> bool, gs: seq<Grant>, n: nat, i: nat, j: nat)
    requires n <= |gs| && i <= j < |gs|
    requires forall k :: 0 <= k < n && p(gs[k]) ==> i <= k <= j
    ensures CountTo(p, gs, n) <= if n <= i then 0 else if n <= j then n - i else j - i + 1
  {
    if n > 0 {
      CountBetween(p, gs, n - 1, i, j);
    }
  }

  /** The first and the last grant that satisfy `p`, if there is one. */
  lemma {:induction false} Extremes(p: Grant -> bool, gs: seq<Grant>, n: nat) returns (i: nat, j: nat)
    requires n <= |gs|
    ensures CountTo(p, gs, n) > 0 ==>
              i <= j < n && p(gs[i]) && p(gs[j]) && forall k :: 0 <= k < n && p(gs[k]) ==> i <= k <= j
    ensures CountTo(p, gs, n) == 0 ==> forall k :: 0 <= k < n ==> !p(gs[k])
  {
    i, j := 0, 0;
    if n > 0 {
      i, j := Extremes(p, gs, n - 1);
      if p(gs[n - 1]) {
        if CountTo(p, gs, n - 1) == 0 {
          i := n - 1;
        }
        j := n - 1;
      }
    }
  }

  lemma WindowCount(start: int, s: Sched, gs: seq<Grant>, from: int, width: nat)
    requires s.ipi > 0 && Spaced(start, s, gs)
    ensures Count(Within(from, width), gs) <= width / s.ipi + 1
  {
    hide Instant, Spaced, InWindow, Times, CountTo;
    var p := Within(from, width);
    var i, j := Extremes(p, gs, |gs|);
    if Count(p, gs) > 0 {
      Apart(start, s, gs, i, j);
      WindowWidth(gs[i], gs[j], from, width);
      DivAtLeast(j - i, s.ipi, width);
      CountBetween(p, gs, |gs|, i, j);
    } else {
      TimesStep(0, s.ipi);
      DivAtLeast(0, s.ipi, width);
    }
  }

  /** A window of `width` microseconds holds at most width / ipi + 1 of the instants granted in any run. */
  lemma WindowHolds(s: Sched, ops: seq<Op>, from: int, width: nat)
    requires s.ipi > 0
    ensures Count(Within(from, width), RunTo(s, ops, |ops|).1) <= width / s.ipi + 1
  {
    hide Spaced, RunTo, Micros, Count, Within;
    var (s', gs) := RunTo(s, ops, |ops|);
    RunSpaced(s, ops, |ops|);
    WindowCount(Micros(s.nextTX), s', gs, from, width);
  }

  lemma WindowWidth(g: Grant, h: Grant, from: int, width: nat)
    requires InWindow(g, from, width) && InWindow(h, from, width)
    ensures Instant(h) - Instant(g) <= width
  {
  }

  lemma DivAtLeast(k: nat, d: nat, w: nat)
    requires d > 0 && Times(k, d) <= w
    ensures k <= w / d
  {
    var q := w / d;
    assert w < (q + 1) * d;
    Cancel(k, q + 1, d);
  }

  lemma Cancel(k: int, m: int, d: nat)
    requires d > 0 && k * d < m * d
    ensures k < m
  {
    assert (m - k) * d > 0;
  }
}
