/** Names, the two packet kinds, and the comparisons that decide what matches what. */
module Names {
  import opened Base

  /** A name: its components, and the chunk number when the name carries one. */
  datatype Name = Name(comps: seq<Bytes>, chunk: Option<nat>)

  /** A SHA-256 digest. */
  type Digest = b: seq<Byte> | |b| == 32 witness seq(32, _ => 0)

  datatype Interest = Interest(
    name: Name, minSuffix: nat, maxSuffix: nat, ppkl: Option<Bytes>,
    mustBeFresh: bool, nonce: Option<Bytes>, scope: nat, lifetimeMs: nat)

  /** `digest` is what hashing the packet yields; None where the build has no digest function. */
  datatype Data = Data(name: Name, digest: Option<Digest>, freshnessMs: nat, payload: Bytes)

  datatype Mode = Exact | Match | Longest

  /** What two Interests must share to be one entry of the pending table. */
  datatype Key = Key(name: Name, minSuffix: nat, maxSuffix: nat, ppkl: Option<Bytes>)

  function KeyOf(i: Interest): Key {
    Key(i.name, i.minSuffix, i.maxSuffix, i.ppkl)
  }

  /** The number of leading components two lists share. */
  function Shared(a: seq<Bytes>, b: seq<Bytes>): (n: nat)
    ensures n <= |a| && n <= |b|
    ensures a[..n] == b[..n]
    ensures n < |a| && n < |b| ==> a[n] != b[n]
  {
    if a == [] || b == [] || a[0] != b[0] then 0 else 1 + Shared(a[1..], b[1..])
  }

  /** Those facts pin the number down: it is the greatest common prefix. */
  lemma SharedIsGreatest(a: seq<Bytes>, b: seq<Bytes>, m: nat)
    requires m <= |a| && m <= |b|
    ensures a[..m] == b[..m] <==> m <= Shared(a, b)
  {
    var n := Shared(a, b);
    if m <= n {
      assert a[..m] == a[..n][..m] && b[..m] == b[..n][..m];
    } else {
      assert a[..m][n] == a[n] && b[..m][n] == b[n];
    }
  }

  function WithDigest(comps: seq<Bytes>, md: Option<Digest>): seq<Bytes> {
    if md.Some? then comps + [md.value] else comps
  }

  /** Walks two names side by side; `md`, when given, counts as one more component of `pfx`. */
  method PrefixCmp(pfx: Name, md: Option<Digest>, nam: Name, mode: Mode) returns (rc: int)
    ensures mode.Exact? ==> rc == 0 || rc == -1
    ensures mode.Exact? ==> (rc == 0 <==> nam == Name(WithDigest(pfx.comps, md), pfx.chunk))
    ensures !mode.Exact? ==> rc == Shared(WithDigest(pfx.comps, md), nam.comps)
  {
    hide Shared;
    var plen := |pfx.comps| + if md.Some? then 1 else 0;
    if mode.Exact? {
      if plen != |nam.comps| {
        return -1;
      }
      if pfx.chunk.Some? || nam.chunk.Some? {
        if pfx.chunk.None? || nam.chunk.None? {
          return -1;
        }
        if pfx.chunk.value != nam.chunk.value {
          return -1;
        }
      }
    }
    ghost var whole := WithDigest(pfx.comps, md);
    var i := 0;
    while i < plen && i < |nam.comps|
      invariant 0 <= i <= plen && i <= |nam.comps|
      invariant whole[..i] == nam.comps[..i]
    {
      var comp := if i < |pfx.comps| then pfx.comps[i] else md.value;
      if |comp| != |nam.comps[i]| || comp != nam.comps[i] {
        SharedIsGreatest(whole, nam.comps, i);
        SharedIsGreatest(whole, nam.comps, i + 1);
        assert whole[..i + 1][i] == comp;
        return if mode.Exact? then -1 else i;
      }
      i := i + 1;
    }
    SharedIsGreatest(whole, nam.comps, i);
    assert plen == |whole|;
    if mode.Exact? {
      assert whole == whole[..i] && nam.comps == nam.comps[..i];
    }
    rc := if mode.Exact? then 0 else i;
  }

  /** Data answers an Interest: the suffix window, then equality of the full names, where the
      Interest may name the data's digest as one last component. */
  predicate Matches(i: Interest, d: Data) {
    && Add64(|i.name.comps|, i.minSuffix) <= |d.name.comps| + 1
    && Add64(|i.name.comps|, i.maxSuffix) >= |d.name.comps| + 1
    && i.name.chunk == d.name.chunk
    && (i.name.comps == d.name.comps || (d.digest.Some? && i.name.comps == d.name.comps + [d.digest.value]))
  }

  /** In full: the names are equal and the window covers one more component, the digest that goes unsaid; or
      the Interest names the digest, and the window covers none. The sums are taken in 64 bits: a minimum
      that overflows lets pass, a maximum that overflows shuts out. */
  lemma MatchesIff(i: Interest, d: Data)
    requires i.minSuffix < TWO64 && i.maxSuffix < TWO64 && |i.name.comps| + |d.name.comps| + 1 < TWO64
    ensures var n := |i.name.comps|;
            Matches(i, d) <==>
              && i.name.chunk == d.name.chunk && i.maxSuffix + n < TWO64
              && ((i.name.comps == d.name.comps && 1 <= i.maxSuffix && (i.minSuffix <= 1 || i.minSuffix + n >= TWO64))
                  || (d.digest.Some? && i.name.comps == d.name.comps + [d.digest.value]
                      && (i.minSuffix == 0 || i.minSuffix + n >= TWO64)))
  {
    var n := |i.name.comps|;
    assert Add64(n, i.minSuffix) == if n + i.minSuffix < TWO64 then n + i.minSuffix else n + i.minSuffix - TWO64;
    assert Add64(n, i.maxSuffix) == if n + i.maxSuffix < TWO64 then n + i.maxSuffix else n + i.maxSuffix - TWO64;
  }

  /** With the greatest maximum an Interest is not answered by the very data it names, and with the greatest
      minimum it is. */
  lemma WindowOverflows(i: Interest, d: Data)
    requires i.name == d.name && 0 < |i.name.comps| < 1000
    ensures !Matches(i.(minSuffix := 0, maxSuffix := TWO64 - 1), d)
    ensures Matches(i.(minSuffix := TWO64 - 1, maxSuffix := 1), d)
  {
    hide Matches;
    MatchesIff(i.(minSuffix := 0, maxSuffix := TWO64 - 1), d);
    MatchesIff(i.(minSuffix := TWO64 - 1, maxSuffix := 1), d);
  }

  /** Two Interests are one request exactly if name, window and publisher agree; nonce, scope, lifetime and the
      wish for fresh data do not count. */
  lemma SameRequestIff(i: Interest, j: Interest)
    ensures KeyOf(i) == KeyOf(j) <==>
            && i.name.comps == j.name.comps && i.name.chunk == j.name.chunk
            && i.minSuffix == j.minSuffix && i.maxSuffix == j.maxSuffix && i.ppkl == j.ppkl
  {
  }

  method IPrefixOfC(i: Interest, d: Data) returns (rc: int)
    ensures rc >= 0 <==> Matches(i, d)
  {
    var p := d.name;
    if Add64(|i.name.comps|, i.minSuffix) > |p.comps| + 1 || Add64(|i.name.comps|, i.maxSuffix) < |p.comps| + 1 {
      return -2;
    }
    var md: Option<Digest> := None;
    if |i.name.comps| - |p.comps| == 1 {
      md := d.digest;
      if md.None? {
        return -3;
      }
    }
    rc := PrefixCmp(p, md, i.name, Exact);
  }

  /** Pending-table identity depends on the key alone, and so does what an entry answers to. */
  lemma SameKeySameMatches(i: Interest, j: Interest, d: Data)
    requires KeyOf(i) == KeyOf(j)
    ensures Matches(i, d) == Matches(j, d)
  {
  }
}
