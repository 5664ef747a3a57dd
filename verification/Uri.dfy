/**
 Names as text: printing with escapes, cutting and unescaping a string in place, and which names come back.
 */
module Uri {
  import opened Base

  const SLASH: Byte := 0x2f
  const PERCENT: Byte := 0x25
  const MAX_NAME_COMP: nat := 64
  const MAX_PREFIX_SIZE: nat := 2048

  // ---------------------------------------------------------------- unescaping

  /** The value of a hexadecimal digit in either case; anything else counts as zero. */
  function Hex2Int(c: Byte): (v: nat)
    ensures v < 16
  {
    if 0x30 <= c <= 0x39 then c - 0x30
    else if 0x61 <= c <= 0x66 then c - 0x61 + 10
    else if 0x41 <= c <= 0x46 then c - 0x41 + 10
    else 0
  }

  function Unescaped(s: Bytes): (r: Bytes)
    ensures |r| <= |s|
  {
    if s == [] then []
    else if s[0] == PERCENT && |s| >= 3 then [Hex2Int(s[1]) * 16 + Hex2Int(s[2])] + Unescaped(s[3..])
    else [s[0]] + Unescaped(s[1..])
  }

  /** A string in memory: no zero byte inside, one at its end. */
  ghost predicate IsString(a: Bytes, at: nat, s: Bytes) {
    at + |s| < |a| && a[at..at + |s|] == s && 0 !in s && a[at + |s|] == 0
  }

  /** The text between slashes, at most `room` pieces. A slash at the end is not followed by a piece. */
  function Pieces(s: Bytes, room: nat): seq<Bytes>
    decreases room
  {
    if s == [] || room == 0 then [] else
      var k := Cut(s);
      [s[..k]] + Pieces(if k < |s| then s[k + 1..] else [], room - 1)
  }

  /** Where the first slash is, or the end. */
  function Cut(s: Bytes): (k: nat)
    ensures k <= |s| && SLASH !in s[..k] && (k < |s| ==> s[k] == SLASH)
  {
    if s == [] || s[0] == SLASH then 0 else
      assert s[..1 + Cut(s[1..])] == [s[0]] + s[1..][..Cut(s[1..])];
      1 + Cut(s[1..])
  }

  function Unescape(): Bytes -> Bytes {
    (s: Bytes) => Unescaped(s)
  }

  /** The components in a text. */
  function Components(s: Bytes): seq<Bytes> {
    var t := if s != [] && s[0] == SLASH then s[1..] else s;
    Unescapes(t, MAX_NAME_COMP - 1)
  }

  function Unescapes(t: Bytes, room: nat): seq<Bytes> {
    Map(Unescape(), Pieces(t, room))
  }

  /** The string from `comp` to `end` has been unescaped up to `src`, the result lies before `out`. */
  ghost predicate Progress(a0: Bytes, a: Bytes, comp: nat, out: nat, src: nat, end: nat) {
    && |a| == |a0| && comp <= out <= src <= end < |a|
    && a[..comp] == a0[..comp] && a[src..] == a0[src..]
    && Unescaped(a0[comp..end]) == a[comp..out] + Unescaped(a0[src..end])
  }

  /** One byte is written and one or three have been read. */
  lemma ProgressStep(a0: Bytes, a: Bytes, comp: nat, out: nat, src: nat, end: nat, x: Byte, k: nat)
    requires Progress(a0, a, comp, out, src, end) && 0 < k && src + k <= end
    requires Unescaped(a0[src..end]) == [x] + Unescaped(a0[src + k..end])
    ensures Progress(a0, a[out := x], comp, out + 1, src + k, end)
  {
    var b := a[out := x];
    assert b[comp..out + 1] == a[comp..out] + [x];
    assert b[src + k..] == a[src..][k..] == a0[src..][k..] == a0[src + k..];
    AppendAssoc(a[comp..out], [x], Unescaped(a0[src + k..end]));
  }

  /** What the next bytes of a string tell. */
  lemma Next(a: Bytes, src: nat, end: nat)
    requires src <= end < |a| && a[end] == 0 && forall i :: src <= i < end ==> a[i] != 0
    ensures a[src] == 0 <==> src == end
    ensures src < end ==> (a[src + 1] == 0 <==> src + 1 == end)
    ensures src + 1 < end ==> (a[src + 2] == 0 <==> src + 2 == end)
    ensures src < end ==>
              var wide := a[src] == PERCENT && src + 3 <= end;
              Unescaped(a[src..end]) ==
                if wide then [Hex2Int(a[src + 1]) * 16 + Hex2Int(a[src + 2])] + Unescaped(a[src + 3..end])
                else [a[src]] + Unescaped(a[src + 1..end])
  {
    var rest := a[src..end];
    if src < end {
      assert rest[0] == a[src] && rest[1..] == a[src + 1..end];
    }
    if src + 3 <= end {
      assert rest[1] == a[src + 1] && rest[2] == a[src + 2] && rest[3..] == a[src + 3..end];
    }
  }

  method SetByte(a: array<Byte>, i: nat, x: Byte)
    requires i < a.Length
    modifies a
    ensures a[..] == old(a[..])[i := x]
  {
    a[i] := x;
  }

  /** One byte of the result; how many bytes of the string it stands for. */
  method UnescapeByte(a: array<Byte>, ghost a0: Bytes, ghost comp: nat, out: nat, src: nat, ghost end: nat)
    returns (k: nat)
    requires Progress(a0, a[..], comp, out, src, end) && a[src] != 0
    requires a0[end] == 0 && forall i :: comp <= i < end ==> a0[i] != 0
    modifies a
    ensures 0 < k && src + k <= end && Progress(a0, a[..], comp, out + 1, src + k, end)
  {
    hide Hex2Int, Unescaped, Progress;
    Same(a0, a[..], comp, out, src, end);
    Next(a0, src, end);
    var x;
    if a[src] != PERCENT || a[src + 1] == 0 || a[src + 2] == 0 {
      x, k := a[src], 1;
    } else {
      x, k := Hex2Int(a[src + 1]) * 16 + Hex2Int(a[src + 2]), 3;
    }
    ProgressStep(a0, a[..], comp, out, src, end, x, k);
    SetByte(a, out, x);
  }

  /** Unescape a string in place, with one pointer that reads and one that writes behind it. */
  method UnescapeComponent(a: array<Byte>, comp: nat, ghost s: Bytes) returns (len: nat)
    requires IsString(a[..], comp, s)
    modifies a
    ensures len == |Unescaped(s)| && a[comp..comp + len] == Unescaped(s)
    ensures a[..comp] == old(a[..comp]) && a[comp + |s|..] == old(a[comp + |s|..])
  {
    hide Unescaped, Progress;
    var src: nat := comp;
    ghost var end, a0 := comp + |s|, a[..];
    ProgressStart(a0, comp, s);
    Same(a0, a0, comp, comp, comp, end);
    len := 0;
    while a[src] != 0
      invariant Progress(a0, a[..], comp, comp + len, src, end) && src <= end < a.Length
      decreases end - src
    {
      var k := UnescapeByte(a, a0, comp, comp + len, src, end);
      src := src + k;
      len := len + 1;
    }
    Same(a0, a[..], comp, comp + len, src, end);
    Next(a0, src, end);
    Done(a0, a[..], comp, comp + len, end);
  }

  lemma ProgressStart(a0: Bytes, comp: nat, s: Bytes)
    requires IsString(a0, comp, s)
    ensures var end := comp + |s|;
            && Progress(a0, a0, comp, comp, comp, end) && a0[comp..end] == s && a0[end] == 0
            && forall i :: comp <= i < end ==> a0[i] != 0
  {
    forall i | comp <= i < comp + |s|
      ensures a0[i] != 0
    {
      assert s[i - comp] == a0[i] && s[i - comp] in s;
    }
  }

  lemma Same(a0: Bytes, a: Bytes, comp: nat, out: nat, src: nat, end: nat)
    requires Progress(a0, a, comp, out, src, end)
    ensures |a| == |a0| && comp <= out <= src <= end < |a| && forall i :: src <= i < |a| ==> a[i] == a0[i]
  {
    forall i | src <= i < |a|
      ensures a[i] == a0[i]
    {
      assert a[src..][i - src] == a0[src..][i - src];
    }
  }

  lemma Done(a0: Bytes, a: Bytes, comp: nat, out: nat, end: nat)
    requires Progress(a0, a, comp, out, end, end)
    ensures comp <= out <= end <= |a| == |a0|
    ensures a[comp..out] == Unescaped(a0[comp..end]) && a[..comp] == a0[..comp] && a[end..] == a0[end..]
  {
    assert a0[end..end] == [];
  }

  // ---------------------------------------------------------------- cutting

  function AfterCut(t: Bytes): Bytes {
    if Cut(t) < |t| then t[Cut(t) + 1..] else []
  }

  lemma {:induction false} CutAt(t: Bytes, k: nat)
    requires k <= |t| && (forall i :: 0 <= i < k ==> t[i] != SLASH) && (k < |t| ==> t[k] == SLASH)
    ensures Cut(t) == k
    decreases k
  {
    if k > 0 {
      CutAt(t[1..], k - 1);
    }
  }

  lemma StringBytes(a: Bytes, at: nat, s: Bytes)
    requires IsString(a, at, s)
    ensures at + |s| < |a| && a[at + |s|] == 0
    ensures forall i :: 0 <= i < |s| ==> s[i] == a[at + i] && s[i] != 0
  {
    forall i | 0 <= i < |s|
      ensures s[i] == a[at + i] && s[i] != 0
    {
      assert a[at..at + |s|][i] == a[at + i] && s[i] in s;
    }
  }

  lemma BytesString(a: Bytes, at: nat, s: Bytes)
    requires at + |s| < |a| && a[at + |s|] == 0
    requires forall i :: 0 <= i < |s| ==> s[i] == a[at + i] && s[i] != 0
    ensures IsString(a, at, s)
  {
    assert a[at..at + |s|] == s;
  }

  method FindSlash(a: array<Byte>, comp: nat, ghost t: Bytes) returns (next: nat)
    requires IsString(a[..], comp, t)
    ensures next == comp + Cut(t)
  {
    hide IsString, Cut;
    StringBytes(a[..], comp, t);
    next := comp;
    while a[next] != 0 && a[next] != SLASH
      invariant comp <= next <= comp + |t| && forall i :: 0 <= i < next - comp ==> t[i] != SLASH
      decreases comp + |t| - next
    {
      assert t[next - comp] == a[..][next];
      next := next + 1;
    }
    assert next < comp + |t| ==> t[next - comp] == a[..][next];
    CutAt(t, next - comp);
  }

  /** Cut a string at its first slash by a zero byte; the second part begins at `next`. */
  method CutString(a: array<Byte>, comp: nat, ghost t: Bytes) returns (next: nat)
    requires IsString(a[..], comp, t)
    modifies a
    ensures IsString(a[..], comp, t[..Cut(t)]) && IsString(a[..], next, AfterCut(t))
    ensures comp + Cut(t) <= next && (Cut(t) < |t| ==> comp + Cut(t) < next)
    ensures a[..comp] == old(a[..comp])
  {
    hide IsString, Cut;
    StringBytes(a[..], comp, t);
    next := FindSlash(a, comp, t);
    ghost var k, b := Cut(t), a[..];
    assert k < |t| ==> t[k] == b[next];
    if a[next] != 0 {
      a[next] := 0;
      next := next + 1;
    }
    ghost var c := a[..];
    assert forall i :: 0 <= i < |t| && i != k ==> t[i] == c[comp + i];
    BytesString(c, comp, t[..k]);
    BytesString(c, next, AfterCut(t));
  }

  /** Cut off one component and unescape it. */
  method OneComponent(a: array<Byte>, comp: nat, ghost t: Bytes) returns (len: nat, next: nat)
    requires IsString(a[..], comp, t)
    modifies a
    ensures comp + len < a.Length && a[comp..comp + len] == Unescaped(t[..Cut(t)]) && a[comp + len] == 0
    ensures IsString(a[..], next, AfterCut(t)) && a[..comp] == old(a[..comp])
    ensures Cut(t) < |t| ==> comp + len < next
  {
    hide Cut, Unescaped, IsString;
    next := CutString(a, comp, t);
    ghost var b := a[..];
    ghost var k := Cut(t);
    StringBytes(b, comp, t[..k]);
    len := UnescapeComponent(a, comp, t[..k]);
    Kept(b, a[..], comp + k, next, AfterCut(t));
    ghost var c := a[..];
    SetByte(a, comp + len, 0);
    Zeroed(c, a[..], comp + len, next, AfterCut(t));
  }

  lemma TailSlice(a: Bytes, b: Bytes, lo: nat, i: nat, j: nat)
    requires |a| == |b| && lo <= i <= j <= |a| && a[lo..] == b[lo..]
    ensures a[i..j] == b[i..j]
  {
    forall k | 0 <= k < j - i
      ensures a[i..j][k] == b[i..j][k]
    {
      assert a[lo..][i - lo + k] == b[lo..][i - lo + k];
    }
  }

  lemma FrontSlice(a: Bytes, b: Bytes, hi: nat, i: nat, j: nat)
    requires |a| == |b| && i <= j <= hi <= |a| && a[..hi] == b[..hi]
    ensures a[i..j] == b[i..j]
  {
    assert a[i..j] == a[..hi][i..j];
    assert b[i..j] == b[..hi][i..j];
  }

  lemma Kept(a: Bytes, b: Bytes, lo: nat, at: nat, s: Bytes)
    requires |a| == |b| && lo <= at && lo <= |a| && a[lo..] == b[lo..] && IsString(a, at, s)
    ensures IsString(b, at, s)
  {
    TailSlice(a, b, lo, at, at + |s|);
    TailSlice(a, b, lo, at + |s|, at + |s| + 1);
    assert a[at + |s|] == a[at + |s|..at + |s| + 1][0];
  }

  lemma Zeroed(a: Bytes, b: Bytes, i: nat, at: nat, s: Bytes)
    requires i < |a| && b == a[i := 0] && i <= at && IsString(a, at, s) && (i == at ==> s == [])
    ensures IsString(b, at, s)
  {
    assert b[at..at + |s|] == a[at..at + |s|];
  }

  /** The components `cs` lie at the places in `vec`, each closed by a zero byte, before `end`. */
  ghost predicate Placed(a: Bytes, vec: seq<nat>, lens: seq<nat>, cs: seq<Bytes>) {
    && |vec| == |lens| == |cs|
    && forall j :: 0 <= j < |vec| ==>
         vec[j] + lens[j] < |a| && a[vec[j]..vec[j] + lens[j]] == cs[j] && a[vec[j] + lens[j]] == 0
  }

  lemma PlacedMore(a: Bytes, b: Bytes, vec: seq<nat>, lens: seq<nat>, cs: seq<Bytes>, comp: nat, len: nat, c: Bytes)
    requires Placed(a, vec, lens, cs) && |a| == |b| && comp + len < |a| && b[..comp] == a[..comp]
    requires forall j :: 0 <= j < |vec| ==> vec[j] + lens[j] < comp
    requires b[comp..comp + len] == c && b[comp + len] == 0
    ensures Placed(b, vec + [comp], lens + [len], cs + [c])
  {
    forall j | 0 <= j < |vec|
      ensures b[vec[j]..vec[j] + lens[j]] == cs[j] && b[vec[j] + lens[j]] == 0
    {
      var i, n := vec[j], lens[j];
      FrontSlice(a, b, comp, i, i + n);
      FrontSlice(a, b, comp, i + n, i + n + 1);
      assert a[i + n] == a[i + n..i + n + 1][0];
    }
  }

  /** Cut a text into its components and unescape them, all in place; at most 63 are found. */
  method UriToComponents(a: array<Byte>, start: nat, ghost s: Bytes) returns (vec: seq<nat>, lens: seq<nat>)
    requires IsString(a[..], start, s)
    modifies a
    ensures Placed(a[..], vec, lens, Components(s))
  {
    hide IsString, Placed, Unescapes, Unescaped, Cut, AfterCut;
    var uri: nat := start;
    ghost var t := s;
    FirstByte(a[..], start, s);
    if a[uri] == SLASH {
      uri := uri + 1;
      t := s[1..];
    }
    ghost var all, cs: seq<Bytes> := Unescapes(t, MAX_NAME_COMP - 1), [];
    vec, lens := [], [];
    NonePlaced(a[..]);
    assert cs + all == all && all == Components(s);
    FirstByte(a[..], uri, t);
    while a[uri] != 0 && |vec| < MAX_NAME_COMP - 1
      invariant IsString(a[..], uri, t) && uri < a.Length && (a[uri] == 0 <==> t == [])
      invariant Placed(a[..], vec, lens, cs) && |vec| == |lens| == |cs| <= MAX_NAME_COMP - 1
      invariant t != [] ==> forall j :: 0 <= j < |vec| ==> vec[j] + lens[j] < uri
      invariant all == cs + Unescapes(t, MAX_NAME_COMP - 1 - |vec|)
      decreases |t|
    {
      ghost var b := a[..];
      PieceStep(t, MAX_NAME_COMP - 1 - |vec|);
      var len, next := OneComponent(a, uri, t);
      ghost var c := Unescaped(t[..Cut(t)]);
      PlacedMore(b, a[..], vec, lens, cs, uri, len, c);
      AppendAssoc(cs, [c], Unescapes(AfterCut(t), MAX_NAME_COMP - 2 - |vec|));
      vec, lens, cs := vec + [uri], lens + [len], cs + [c];
      uri, t := next, AfterCut(t);
      FirstByte(a[..], uri, t);
    }
    PiecesEnd(t, MAX_NAME_COMP - 1 - |vec|);
    assert cs + [] == cs;
  }

  lemma NonePlaced(a: Bytes)
    ensures Placed(a, [], [], [])
  {
  }

  lemma FirstByte(a: Bytes, at: nat, s: Bytes)
    requires IsString(a, at, s)
    ensures at < |a| && (a[at] == 0 <==> s == []) && (s != [] ==> a[at] == s[0] && IsString(a, at + 1, s[1..]))
  {
    if s != [] {
      assert a[at..at + |s|][0] == a[at] && s[0] in s;
      assert a[at + 1..at + |s|] == a[at..at + |s|][1..];
    }
  }

  lemma PieceStep(t: Bytes, room: nat)
    requires t != [] && room > 0
    ensures Unescapes(t, room) == [Unescaped(t[..Cut(t)])] + Unescapes(AfterCut(t), room - 1)
    ensures |AfterCut(t)| < |t| && (AfterCut(t) != [] ==> Cut(t) < |t|)
  {
    hide Cut, Unescaped;
  }

  lemma PiecesEnd(t: Bytes, room: nat)
    requires t == [] || room == 0
    ensures Unescapes(t, room) == []
  {
  }
}
