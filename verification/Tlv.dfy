/**
 Variable-size numbers and big-endian integers, as the NDN packet format and the RPC data representation
 both write them, and the vocabulary for bytes in a buffer.
 */
module Tlv {
  import opened Base

  type U64 = x: int | 0 <= x < 0x1_0000_0000_0000_0000

  // ---------------------------------------------------------------- numbers

  /** The `n` low-order bytes of `v`, high byte first. */
  function BigEndian(v: nat, n: nat): (b: Bytes)
    ensures |b| == n
  {
    if n == 0 then [] else BigEndian(v / 256, n - 1) + [v % 256]
  }

  /** The number read from `n` bytes at `at`, in 64 bits. */
  function ReadNum(b: Bytes, at: nat, n: nat): (v: U64)
    requires at + n <= |b|
    ensures v < Power(n)
  {
    if n == 0 then 0 else (ReadNum(b, at, n - 1) * 256 + b[at + n - 1]) % TWO64
  }

  /** Bytes a number needs, at least one. */
  function Width(v: nat): (n: nat)
    ensures n > 0
  {
    if v < 256 then 1 else 1 + Width(v / 256)
  }

  function Power(n: nat): (p: nat)
    ensures p > 0
  {
    if n == 0 then 1 else 256 * Power(n - 1)
  }

  lemma {:induction false} WidthFits(v: nat, n: nat)
    requires n > 0 && v < Power(n)
    ensures Width(v) <= n
  {
    if v >= 256 {
      assert v / 256 < Power(n - 1);
      WidthFits(v / 256, n - 1);
    }
  }

  lemma {:induction false} WidthEnough(v: nat)
    ensures v < Power(Width(v))
  {
    if v >= 256 {
      WidthEnough(v / 256);
    }
  }

  lemma PowerEight()
    ensures Power(2) == 65536 && Power(4) == TWO32 && Power(8) == TWO64
  {
    assert Power(1) == 256 && Power(3) == 256 * 65536;
    assert Power(5) == 256 * TWO32 && Power(6) == 65536 * TWO32 && Power(7) == 256 * 65536 * TWO32;
  }

  lemma Recompose(v: nat)
    ensures v / 256 * 256 + v % 256 == v
  {
  }

  lemma SliceAt(b: Bytes, at: nat, w: Bytes)
    requires at + |w| <= |b| && b[at..at + |w|] == w
    ensures forall n {:trigger w[..n]} :: 0 <= n <= |w| ==> b[at..at + n] == w[..n] && b[at + n..at + |w|] == w[n..]
    ensures forall i :: 0 <= i < |w| ==> w[i] == b[at + i]
  {
    forall n {:trigger w[..n]} | 0 <= n <= |w|
      ensures b[at..at + n] == w[..n] && b[at + n..at + |w|] == w[n..]
    {
      assert b[at..at + n] == b[at..at + |w|][..n];
      assert b[at + n..at + |w|] == b[at..at + |w|][n..];
    }
  }

  lemma {:induction false} ReadBigEndian(b: Bytes, at: nat, v: nat, n: nat)
    requires at + n <= |b| && b[at..at + n] == BigEndian(v, n)
    requires v < Power(n) && v < TWO64
    ensures ReadNum(b, at, n) == v
  {
    if n > 0 {
      var w, front := BigEndian(v, n), BigEndian(v / 256, n - 1);
      assert w == front + [v % 256];
      SliceAt(b, at, w);
      assert w[..n - 1] == front && w[n - 1] == v % 256;
      ReadBigEndian(b, at, v / 256, n - 1);
      Recompose(v);
    }
  }

  /** A big-endian number, in 64 bits. */
  method ReadNonNeg(b: Bytes, at: nat, n: nat) returns (val: U64)
    requires at + n <= |b|
    ensures val == ReadNum(b, at, n)
  {
    val := 0;
    var i := 0;
    while i < n
      invariant 0 <= i <= n && val == ReadNum(b, at, i)
    {
      val := (val * 256 + b[at + i]) % TWO64;
      i := i + 1;
    }
  }

  // ---------------------------------------------------------------- types and lengths

  /** A type or a length as written: 1, 3, 5 or 9 bytes. */
  function VarInt(v: nat): Bytes {
    if v < 253 then [v]
    else if v <= 0xffff then [253] + BigEndian(v, 2)
    else if v <= 0xffffffff then [254] + BigEndian(v, 4)
    else [255] + BigEndian(v, 8)
  }

  lemma VarIntForm(v: nat)
    ensures VarInt(v) == (
      if v < 253 then [v]
      else if v <= 0xffff then [253] + BigEndian(v, 2)
      else if v <= 0xffffffff then [254] + BigEndian(v, 4)
      else [255] + BigEndian(v, 8))
  {
  }

  /** The length computed for a type or a length is the length of what is written for it. */
  function FieldLen(v: nat): (n: nat)
    ensures n == |VarInt(v)|
  {
    if v < 253 then 1 else if v <= 0xffff then 3 else if v <= 0xffffffff then 5 else 9
  }

  /** A type or a length as read, and the bytes it took. The 9-byte form is not understood. */
  function ReadVar(b: Bytes, at: nat, end: nat): (r: Option<(nat, nat)>)
    requires at <= end <= |b|
    ensures r.Some? ==> r.value.0 < TWO32 && 0 < r.value.1 <= end - at
  {
    PowerEight();
    if end - at >= 1 && b[at] < 253 then Some((b[at], 1))
    else if end - at >= 3 && b[at] == 253 then Some((ReadNum(b, at + 1, 2), 3))
    else if end - at >= 5 && b[at] == 254 then Some((ReadNum(b, at + 1, 4), 5))
    else None
  }

  /** What is written for a number below 2^32 is read back; of anything larger nothing is. */
  lemma ReadVarInt(b: Bytes, at: nat, end: nat, v: nat)
    requires at + |VarInt(v)| <= end <= |b| && b[at..at + |VarInt(v)|] == VarInt(v)
    ensures ReadVar(b, at, end) == if v < TWO32 then Some((v, |VarInt(v)|)) else None
  {
    hide BigEndian, ReadNum, Power;
    PowerEight();
    var w := VarInt(v);
    var n := |w| - 1;
    assert b[at] == b[at..at + |w|][0] == w[0];
    if 253 <= v < TWO32 {
      assert b[at + 1..at + 1 + n] == b[at..at + |w|][1..] == w[1..];
      ReadBigEndian(b, at + 1, v, n);
    }
  }

  // ---------------------------------------------------------------- bytes in a buffer

  /** The bytes `w` lie in `b` at `at`. */
  ghost predicate LiesAt(b: Bytes, at: nat, w: Bytes) {
    at + |w| <= |b| && b[at..at + |w|] == w
  }

  lemma LiesMeans(b: Bytes, at: nat, v: Bytes)
    requires LiesAt(b, at, v)
    ensures at + |v| <= |b| && b[at..at + |v|] == v
  {
  }

  lemma LiesApart(b: Bytes, at: nat, u: Bytes, v: Bytes)
    requires LiesAt(b, at, u + v)
    ensures LiesAt(b, at, u) && LiesAt(b, at + |u|, v)
  {
    var w := u + v;
    assert u == w[..|u|] && v == w[|u|..];
    assert b[at..at + |u|] == b[at..at + |w|][..|u|];
    assert b[at + |u|..at + |w|] == b[at..at + |w|][|u|..];
  }

  /** `after` is `before` with the bytes `w` put in at `at`. */
  ghost predicate Wrote(before: Bytes, after: Bytes, at: nat, w: Bytes) {
    && at + |w| <= |before|
    && after == before[..at] + w + before[at + |w|..]
  }

  lemma WroteThen(a: Bytes, b: Bytes, c: Bytes, at: nat, w1: Bytes, w2: Bytes)
    requires Wrote(a, b, at, w1) && at + |w1| + |w2| <= |b| && Wrote(b, c, at + |w1|, w2)
    ensures Wrote(a, c, at, w1 + w2)
  {
    assert b[..at + |w1|] == a[..at] + w1;
    assert b[at + |w1| + |w2|..] == a[at + |w1| + |w2|..];
  }

  lemma WroteNothing(a: Bytes, at: nat)
    requires at <= |a|
    ensures Wrote(a, a, at, [])
  {
  }

  /** Copy bytes into the buffer. */
  method CopyTo(src: Bytes, buf: array<Byte>, at: nat)
    requires at + |src| <= buf.Length
    modifies buf
    ensures Wrote(old(buf[..]), buf[..], at, src)
  {
    var i := 0;
    while i < |src|
      invariant 0 <= i <= |src|
      invariant buf[..at] == old(buf[..at]) && buf[at + |src|..] == old(buf[at + |src|..])
      invariant buf[at..at + i] == src[..i]
    {
      buf[at + i] := src[i];
      i := i + 1;
    }
    assert buf[..] == buf[..at] + buf[at..at + |src|] + buf[at + |src|..];
  }
}
