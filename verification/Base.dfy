/** Bytes, options and the list vocabulary shared by the other modules. */
module Base {

  type Byte = x: int | 0 <= x < 256
  type Bytes = seq<Byte>

  const TWO32: nat := 0x1_0000_0000
  const TWO64: nat := 0x1_0000_0000_0000_0000

  /** An unsigned 32-bit counter or clock reading. */
  type U32 = x: int | 0 <= x < 0x1_0000_0000

  datatype Option<+T> = None | Some(value: T)

  /** 32-bit and 64-bit unsigned addition, which wrap around. */
  function Add32(a: nat, b: nat): U32 {
    (a + b) % TWO32
  }

  function Add64(a: nat, b: nat): nat {
    (a + b) % TWO64
  }

  /** How many of the first `n` positions of `s` satisfy `p`. */
  function CountTo<T>(p: T -> bool, s: seq<T>, n: nat): (c: nat)
    requires n <= |s|
    ensures c <= n
  {
    if n == 0 then 0 else CountTo(p, s, n - 1) + if p(s[n - 1]) then 1 else 0
  }

  function Count<T>(p: T -> bool, s: seq<T>): nat {
    CountTo(p, s, |s|)
  }

  /** The images of the elements of `s` under `f`. */
  function Map<T, U>(f: T -> U, s: seq<T>): (r: seq<U>)
    ensures |r| == |s|
    ensures forall i :: 0 <= i < |s| ==> r[i] == f(s[i])
  {
    seq(|s|, i requires 0 <= i < |s| => f(s[i]))
  }

  /** The images of the first `n` elements of `s`, each a list of its own, one after the other. */
  function Pass<T, U>(f: T -> seq<U>, s: seq<T>, n: nat): seq<U>
    requires n <= |s|
  {
    if n == 0 then [] else Pass(f, s, n - 1) + f(s[n - 1])
  }

  function FlatMap<T, U>(f: T -> seq<U>, s: seq<T>): seq<U> {
    Pass(f, s, |s|)
  }

  function Guard<T>(p: T -> bool): T -> seq<T> {
    (x: T) => if p(x) then [x] else []
  }

  /** The elements of `s` that satisfy `p`, in their order. */
  function Filter<T>(p: T -> bool, s: seq<T>): seq<T> {
    FlatMap(Guard(p), s)
  }

  ghost predicate Distinct<T>(s: seq<T>) {
    forall i, j :: 0 <= i < j < |s| ==> s[i] != s[j]
  }

  // ---------------------------------------------------------------- sweeps

  /** A left-to-right sweep of `all` in place, `n` elements done: `front` is what became of them. */
  ghost predicate Swept<T>(f: T -> seq<T>, all: seq<T>, n: nat, front: seq<T>, cur: seq<T>) {
    n <= |all| && front == Pass(f, all, n) && cur == front + all[n..]
  }

  lemma SweepStart<T>(f: T -> seq<T>, all: seq<T>)
    ensures Swept(f, all, 0, [], all)
  {
  }

  /** `s` with element `k` replaced by the elements of `r`. */
  function Splice<T>(s: seq<T>, k: nat, r: seq<T>): seq<T>
    requires k < |s|
  {
    s[..k] + r + s[k + 1..]
  }

  /** Dropping and rewriting an element are the two splices a list walk performs. */
  lemma SpliceForms<T>(s: seq<T>, k: nat, x: T)
    requires k < |s|
    ensures Splice(s, k, []) == s[..k] + s[k + 1..]
    ensures Splice(s, k, [x]) == s[k := x]
    ensures Splice(s[k := x], k, []) == Splice(s, k, [])
    ensures Splice(s, k, [s[k]]) == s
  {
  }

  /** The element the sweep has come to, and the sweep after it. */
  lemma SweepNext<T>(f: T -> seq<T>, all: seq<T>, n: nat, front: seq<T>, cur: seq<T>)
    requires Swept(f, all, n, front, cur) && |front| < |cur|
    ensures n < |all| && cur[|front|] == all[n] && |cur| == |front| + |all| - n
    ensures Swept(f, all, n + 1, front + f(all[n]), Splice(cur, |front|, f(all[n])))
  {
    assert cur[..|front|] == front;
  }

  lemma SweepEnd<T>(f: T -> seq<T>, all: seq<T>, n: nat, front: seq<T>, cur: seq<T>)
    requires Swept(f, all, n, front, cur) && |front| >= |cur|
    ensures n == |all| && cur == FlatMap(f, all)
  {
  }

  // ---------------------------------------------------------------- list facts

  lemma AppendAssoc<T>(a: seq<T>, b: seq<T>, c: seq<T>)
    ensures (a + b) + c == a + (b + c)
  {
  }

  lemma PassUnfold<T, U>(f: T -> seq<U>, s: seq<T>, n: nat)
    requires n <= |s|
    ensures n < |s| ==> Pass(f, s, n + 1) == Pass(f, s, n) + f(s[n])
    ensures n == |s| ==> Pass(f, s, n) == FlatMap(f, s)
    ensures Pass(f, s, 0) == []
  {
  }

  lemma MapAppend<T, U>(f: T -> U, a: seq<T>, b: seq<T>)
    ensures Map(f, a + b) == Map(f, a) + Map(f, b)
  {
  }

  /** A pass over `a + b` is a pass over `a` and then one over `b`. */
  lemma {:induction false} PassSplit<T, U>(f: T -> seq<U>, a: seq<T>, b: seq<T>, n: nat)
    requires n <= |a| + |b|
    ensures n <= |a| ==> Pass(f, a + b, n) == Pass(f, a, n)
    ensures n > |a| ==> Pass(f, a + b, n) == FlatMap(f, a) + Pass(f, b, n - |a|)
  {
    if n > 0 {
      PassSplit(f, a, b, n - 1);
      if n == |a| + 1 {
        assert Pass(f, b, 0) == [];
      }
    }
  }

  lemma FlatMapAppend<T, U>(f: T -> seq<U>, a: seq<T>, b: seq<T>)
    ensures FlatMap(f, a + b) == FlatMap(f, a) + FlatMap(f, b)
  {
    PassSplit(f, a, b, |a| + |b|);
    if b == [] {
      assert a + b == a;
    }
  }

  lemma FlatMapOne<T, U>(f: T -> seq<U>, x: T)
    ensures FlatMap(f, [x]) == f(x)
    ensures FlatMap(f, []) == []
  {
    assert Pass(f, [x], 0) == [];
  }

  /** Two passes make one. */
  lemma {:induction false} PassCompose<T, U, V>(g: U -> seq<V>, f: T -> seq<U>, h: T -> seq<V>, s: seq<T>, n: nat)
    requires n <= |s|
    requires forall i :: 0 <= i < |s| ==> FlatMap(g, f(s[i])) == h(s[i])
    ensures FlatMap(g, Pass(f, s, n)) == Pass(h, s, n)
  {
    if n > 0 {
      PassCompose(g, f, h, s, n - 1);
      FlatMapAppend(g, Pass(f, s, n - 1), f(s[n - 1]));
    }
  }

  lemma FilterCompose<T>(p: T -> bool, q: T -> bool, both: T -> bool, s: seq<T>)
    requires forall i :: 0 <= i < |s| ==> both(s[i]) == (p(s[i]) && q(s[i]))
    ensures Filter(q, Filter(p, s)) == Filter(both, s)
  {
    forall i | 0 <= i < |s| ensures FlatMap(Guard(q), Guard(p)(s[i])) == Guard(both)(s[i]) {
      FlatMapOne(Guard(q), s[i]);
    }
    PassCompose(Guard(q), Guard(p), Guard(both), s, |s|);
  }

  lemma FilterOne<T>(p: T -> bool, x: T)
    ensures Filter(p, [x]) == if p(x) then [x] else []
  {
    FlatMapOne(Guard(p), x);
  }

  lemma {:induction false} PassAll<T>(p: T -> bool, s: seq<T>, n: nat)
    requires n <= |s|
    requires forall i :: 0 <= i < n ==> p(s[i])
    ensures Pass(Guard(p), s, n) == s[..n]
  {
    if n > 0 {
      PassAll(p, s, n - 1);
    }
  }

  lemma FilterAll<T>(p: T -> bool, s: seq<T>)
    requires forall i :: 0 <= i < |s| ==> p(s[i])
    ensures Filter(p, s) == s
  {
    PassAll(p, s, |s|);
  }

  /** A pass that treats some elements and drops the others is a pass over those that remain. */
  lemma {:induction false} PassFiltered<T, U>(f: T -> seq<U>, p: T -> bool, h: T -> seq<U>, s: seq<T>, n: nat)
    requires n <= |s|
    requires forall i :: 0 <= i < |s| ==> f(s[i]) == if p(s[i]) then h(s[i]) else []
    ensures Pass(f, s, n) == FlatMap(h, Pass(Guard(p), s, n))
  {
    hide FlatMap;
    if n > 0 {
      PassFiltered(f, p, h, s, n - 1);
      var x, front := s[n - 1], Pass(Guard(p), s, n - 1);
      assert Pass(f, s, n) == Pass(f, s, n - 1) + f(x);
      if p(x) {
        assert Pass(Guard(p), s, n) == front + [x];
        FlatMapAppend(h, front, [x]);
        FlatMapOne(h, x);
      } else {
        assert Pass(Guard(p), s, n) == front + [] == front;
      }
    } else {
      PassUnfold(h, [], 0);
    }
  }

  /** If it makes one image of each of those, it is a map over them. */
  lemma {:induction false} PassMapped<T, U>(f: T -> seq<U>, p: T -> bool, g: T -> U, s: seq<T>, n: nat)
    requires n <= |s|
    requires forall i :: 0 <= i < |s| ==> f(s[i]) == if p(s[i]) then [g(s[i])] else []
    ensures Pass(f, s, n) == Map(g, Pass(Guard(p), s, n))
  {
    if n > 0 {
      PassMapped(f, p, g, s, n - 1);
      MapAppend(g, Pass(Guard(p), s, n - 1), Guard(p)(s[n - 1]));
      assert Map(g, Guard(p)(s[n - 1])) == f(s[n - 1]);
    }
  }

  /** Predicates that agree on the elements of a list filter it alike. */
  lemma {:induction false} FilterSame<T>(p: T -> bool, q: T -> bool, s: seq<T>, n: nat)
    requires n <= |s|
    requires forall i :: 0 <= i < |s| ==> p(s[i]) == q(s[i])
    ensures Pass(Guard(p), s, n) == Pass(Guard(q), s, n)
  {
    if n > 0 {
      FilterSame(p, q, s, n - 1);
    }
  }

  /** A filter that refuses just one position. */
  lemma FilterOutAt<T>(p: T -> bool, s: seq<T>, k: nat)
    requires k < |s| && !p(s[k])
    requires forall j :: 0 <= j < |s| && j != k ==> p(s[j])
    ensures Filter(p, s) == s[..k] + s[k + 1..]
  {
    calc {
      Filter(p, s);
      { assert s == s[..k] + ([s[k]] + s[k + 1..]); FlatMapAppend(Guard(p), s[..k], [s[k]] + s[k + 1..]); }
      Filter(p, s[..k]) + Filter(p, [s[k]] + s[k + 1..]);
      { FlatMapAppend(Guard(p), [s[k]], s[k + 1..]); FilterOne(p, s[k]); }
      Filter(p, s[..k]) + Filter(p, s[k + 1..]);
      { FilterAll(p, s[..k]); FilterAll(p, s[k + 1..]); }
      s[..k] + s[k + 1..];
    }
  }

  lemma {:induction false} CountSplit<T>(p: T -> bool, a: seq<T>, b: seq<T>, n: nat)
    requires n <= |a| + |b|
    ensures n <= |a| ==> CountTo(p, a + b, n) == CountTo(p, a, n)
    ensures n > |a| ==> CountTo(p, a + b, n) == Count(p, a) + CountTo(p, b, n - |a|)
  {
    if n > 0 {
      CountSplit(p, a, b, n - 1);
    }
  }

  lemma CountAppend<T>(p: T -> bool, a: seq<T>, b: seq<T>)
    ensures Count(p, a + b) == Count(p, a) + Count(p, b)
  {
    CountSplit(p, a, b, |a| + |b|);
  }

  lemma CountOne<T>(p: T -> bool, x: T)
    ensures Count(p, [x]) == if p(x) then 1 else 0
    ensures Count(p, []) == 0
  {
    assert CountTo(p, [x], 0) == 0;
  }

  /** The count is positive exactly when some position satisfies the predicate. */
  lemma {:induction false} CountPositive<T>(p: T -> bool, s: seq<T>, n: nat)
    requires n <= |s|
    ensures CountTo(p, s, n) > 0 <==> exists i :: 0 <= i < n && p(s[i])
  {
    if n > 0 {
      CountPositive(p, s, n - 1);
    }
  }

  /** Where an element of a flattened list comes from. */
  lemma {:induction false} PassMember<T, U>(f: T -> seq<U>, s: seq<T>, n: nat, y: U)
    requires n <= |s|
    ensures y in Pass(f, s, n) <==> exists i :: 0 <= i < n && y in f(s[i])
  {
    if n > 0 {
      PassMember(f, s, n - 1, y);
    }
  }

  /** Filtering keeps exactly the satisfying elements. */
  lemma FilterMember<T>(p: T -> bool, s: seq<T>, x: T)
    ensures x in Filter(p, s) <==> x in s && p(x)
  {
    PassMember(Guard(p), s, |s|, x);
  }

  /** If every element yields at most one image, a pass does not lengthen. */
  lemma {:induction false} PassShrinks<T, U>(f: T -> seq<U>, s: seq<T>, n: nat)
    requires n <= |s|
    requires forall i :: 0 <= i < |s| ==> |f(s[i])| <= 1
    ensures |Pass(f, s, n)| <= n
  {
    if n > 0 {
      PassShrinks(f, s, n - 1);
    }
  }

  lemma DistinctCons<T>(x: T, s: seq<T>)
    requires Distinct(s) && x !in s
    ensures Distinct([x] + s) && Distinct(s + [x])
  {
  }

  /** Dropping one element keeps the images of the rest distinct. */
  lemma DistinctDrop<T, U>(key: T -> U, s: seq<T>, k: nat)
    requires k < |s| && Distinct(Map(key, s))
    ensures Distinct(Map(key, s[..k] + s[k + 1..]))
  {
    var keys, rest := Map(key, s), Map(key, s[..k] + s[k + 1..]);
    forall i, j | 0 <= i < j < |rest| ensures rest[i] != rest[j] {
      assert rest[i] == keys[if i < k then i else i + 1];
      assert rest[j] == keys[if j < k then j else j + 1];
    }
  }

  /** A rewriting that keeps the key of what it keeps also keeps the keys distinct. */
  lemma {:induction false} PassDistinct<T, U>(f: T -> seq<T>, key: T -> U, s: seq<T>, n: nat)
    requires n <= |s| && Distinct(Map(key, s))
    requires forall i :: 0 <= i < |s| ==> |f(s[i])| <= 1 && (f(s[i]) != [] ==> key(f(s[i])[0]) == key(s[i]))
    ensures Distinct(Map(key, Pass(f, s, n)))
  {
    if n > 0 {
      var front := Pass(f, s, n - 1);
      var keys := Map(key, s);
      PassDistinct(f, key, s, n - 1);
      forall k | 0 <= k < |front| ensures key(front[k]) != key(s[n - 1]) {
        PassMember(f, s, n - 1, front[k]);
        var i :| 0 <= i < n - 1 && front[k] in f(s[i]);
        assert keys[i] != keys[n - 1];
      }
    }
  }
}
